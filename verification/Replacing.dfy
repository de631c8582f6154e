/** What replacing one line, or one marker, does to a tended field. */
module Replacing {
  import opened Text
  import opened Requirements

  lemma NotAName(s: string)
    requires s != "" && !Blank(s[0]) && s[0] != '#' && !NameChar(s[0])
    ensures ParseReq(s) == None
  {
    var b := BeforeHash(s);
    RStripShape(b);
    if RStrip(b) == "" {
      RStripKeepsFirst(b);
    }
  }

  lemma {:induction false} RStripKeepsFirst(s: string)
    requires s != "" && !Blank(s[0])
    ensures RStrip(s) != ""
  {
    if Blank(s[|s| - 1]) {
      RStripKeepsFirst(s[..|s| - 1]);
    }
  }

  /** Every line an item prints names the item's own package, or none. */
  lemma LinesNameTheirItem(it: Item, line: string)
    requires Canonical(it) && Whole(it) && line in ItemLines(it)
    ensures ParseReq(line).Some? ==> Names(it, ParseReq(line).value.name)
  {
    hide ParseReq, Strip, Find;
    if it.Marker? {
      var head, tail := it.pre + HEAD + it.src, TAIL + it.origin;
      assert head[0] == '<' && tail[0] == '>';
      NotAName(head);
      NotAName(SEP);
      NotAName(tail);
      StripKeepsReq(it.existing);
    }
  }

  lemma {:induction false} ForeignLine(items: seq<Item>, line: string)
    requires AllCanonical(items) && forall i :: 0 <= i < |items| ==> Whole(items[i])
    requires ParseReq(line).Some? && !Mentions(items, ParseReq(line).value.name)
    ensures line !in Print(items)
  {
    if items != [] {
      assert forall i :: 0 <= i < |items[1..]| ==> items[1..][i] == items[i + 1];
      ForeignLine(items[1..], line);
      if line in ItemLines(items[0]) {
        LinesNameTheirItem(items[0], line);
      }
    }
  }

  lemma {:induction false} SkipLines(a: Lines, b: Lines, line: string, block: Lines)
    requires line !in a
    ensures ReplaceWholeLine(a + b, line, block) == a + ReplaceWholeLine(b, line, block)
  {
    if a == [] {
      assert a + b == b;
    } else {
      assert (a + b)[1..] == a[1..] + b;
      SkipLines(a[1..], b, line, block);
    }
  }

  lemma ReplaceMiss(line: string, rest: Lines, was: FiveLines, block: FiveLines)
    requires !OccursAt([line] + rest, was)
    ensures ReplaceBlock([line] + rest, was, block) == [line] + ReplaceBlock(rest, was, block)
  {
    hide OccursAt;
    assert ([line] + rest)[1..] == rest;
  }

  lemma {:induction false} SkipBlock(a: Lines, b: Lines, was: FiveLines, block: FiveLines)
    requires was[1] !in a && b != [] && b[0] != was[1]
    ensures ReplaceBlock(a + b, was, block) == a + ReplaceBlock(b, was, block)
  {
    hide OccursAt, ReplaceBlock;
    if a == [] {
      assert a + b == b;
    } else {
      var rest := a[1..];
      assert a == [a[0]] + rest && a + b == [a[0]] + (rest + b);
      NotHere(a, b, was);
      ReplaceMiss(a[0], rest + b, was, block);
      SkipBlock(rest, b, was, block);
      Assoc([a[0]], rest, ReplaceBlock(b, was, block));
    }
  }

  lemma NotHere(a: Lines, b: Lines, was: FiveLines)
    requires was[1] !in a && b != [] && b[0] != was[1] && a != []
    ensures !OccursAt(a + b, was)
  {
    hide EndsWith;
    if |a| > 1 {
      assert (a + b)[1] == a[1];
    } else {
      assert (a + b)[1] == b[0];
    }
  }

  lemma ReplaceBetween(a: Lines, l: string, b: Lines, line: string, block: Lines)
    requires line !in a && line !in b
    ensures ReplaceWholeLine(a + [l] + b, line, block) == if l == line then a + block + b else a + [l] + b
  {
    var rest := [l] + b;
    assert rest[1..] == b;
    assert a + [l] + b == a + rest;
    SkipLines(a, rest, line, block);
    if l == line {
      assert a + block + b == a + (block + b);
    } else {
      assert rest == rest + [];
      SkipLines(rest, [], line, block);
    }
  }

  lemma ReplaceBlockBetween(a: Lines, was: FiveLines, b: Lines, block: FiveLines)
    requires was[1] !in a && was[0] != was[1]
    ensures ReplaceBlock(a + was + b, was, block) == a + block + b
  {
    var rest := was + b;
    assert a + was + b == a + rest;
    SkipBlock(a, rest, was, block);
    assert rest[5..] == b;
    assert was[0][..0] + block[0] == block[0] && block[4] + was[4][|was[4]|..] == block[4];
    assert ReplaceBlock(rest, was, block) == block + b;
    assert a + block + b == a + (block + b);
  }

  /** The package of item `j` is named by no other item. */
  lemma Others(items: seq<Item>, j: nat)
    requires TendedItems(items) && j < |items| && ReqOf(items[j]).Some?
    ensures forall line :: ParseReq(line).Some? && ParseReq(line).value.name == ReqOf(items[j]).value.name
              ==> line !in Print(items[..j]) && line !in Print(items[j + 1..])
  {
    var a, b := items[..j], items[j + 1..];
    forall line | ParseReq(line).Some? && ParseReq(line).value.name == ReqOf(items[j]).value.name
      ensures line !in Print(a) && line !in Print(b)
    {
      ForeignLine(a, line);
      ForeignLine(b, line);
    }
  }

  lemma PrintUpdate(items: seq<Item>, j: nat, next: Item)
    requires j < |items|
    ensures Print(items[j := next]) == Print(items[..j]) + ItemLines(next) + Print(items[j + 1..])
  {
    var after := items[j := next];
    PrintSplit(after, j);
    assert after[..j] == items[..j] && after[j + 1..] == items[j + 1..];
  }

  /** Of any field, the first such line is replaced, and no other. */
  lemma ReplacesFirst(text: Lines, was: string, block: Lines, j: nat)
    requires j < |text| && text[j] == was && was !in text[..j]
    ensures ReplaceWholeLine(text, was, block) == text[..j] + block + text[j + 1..]
  {
    var rest := text[j..];
    assert text == text[..j] + rest && rest[1..] == text[j + 1..];
    SkipLines(text[..j], rest, was, block);
    Assoc(text[..j], block, text[j + 1..]);
  }

  /** Five lines with the text that occurs there replaced: what stands before it and after it stays. */
  function Swapped(text: Lines, was: FiveLines, block: FiveLines): Lines
    requires OccursAt(text, was)
  {
    var before, after := text[0][..|text[0]| - |was[0]|], text[4][|was[4]|..];
    [before + block[0], block[1], block[2], block[3], block[4] + after] + text[5..]
  }

  /** Of any field, the first such text of five lines is replaced, and no other. */
  lemma {:induction false} ReplacesFirstBlock(text: Lines, was: FiveLines, block: FiveLines, j: nat)
    requires j < |text| && OccursAt(text[j..], was) && forall k :: 0 <= k < j ==> !OccursAt(text[k..], was)
    ensures ReplaceBlock(text, was, block) == text[..j] + Swapped(text[j..], was, block)
  {
    hide OccursAt, Swapped;
    assert text[0..] == text;
    if j == 0 {
      ReplaceHit(text, was, block);
      assert text[..0] + Swapped(text, was, block) == Swapped(text, was, block);
    } else {
      var rest := text[1..];
      assert !OccursAt(text[0..], was);
      assert rest[j - 1..] == text[j..];
      forall k | 0 <= k < j - 1 ensures !OccursAt(rest[k..], was) {
        assert rest[k..] == text[k + 1..];
      }
      ReplacesFirstBlock(rest, was, block, j - 1);
      assert text == [text[0]] + rest;
      ReplaceMiss(text[0], rest, was, block);
      assert text[..j] == [text[0]] + rest[..j - 1];
      Assoc([text[0]], rest[..j - 1], Swapped(text[j..], was, block));
    }
  }

  lemma ReplaceHit(text: Lines, was: FiveLines, block: FiveLines)
    requires OccursAt(text, was)
    ensures ReplaceBlock(text, was, block) == Swapped(text, was, block)
  {
  }

  lemma {:induction false} NoBlockToReplace(text: Lines, was: FiveLines, block: FiveLines)
    requires forall j :: 0 <= j < |text| ==> !OccursAt(text[j..], was)
    ensures ReplaceBlock(text, was, block) == text
  {
    hide OccursAt;
    if text != [] {
      var rest := text[1..];
      assert text[0..] == text;
      forall j | 0 <= j < |rest| ensures !OccursAt(rest[j..], was) {
        assert rest[j..] == text[j + 1..];
      }
      NoBlockToReplace(rest, was, block);
    }
  }

  lemma ReplaceAbsent(text: Lines, line: string, block: Lines)
    requires line !in text
    ensures ReplaceWholeLine(text, line, block) == text
  {
    assert text == text + [];
    SkipLines(text, [], line, block);
  }

  lemma {:induction false} ReplaceAbsentBlock(text: Lines, was: FiveLines, block: FiveLines)
    requires was[1] !in text
    ensures ReplaceBlock(text, was, block) == text
  {
    hide EndsWith;
    if text != [] {
      ReplaceAbsentBlock(text[1..], was, block);
    }
  }

  /** Of the lines that name the package of a clean line, the field has that one only. */
  lemma OnlyLine(items: seq<Item>, j: nat, line: string)
    requires TendedItems(items) && j < |items| && items[j].Plain?
    requires ParseReq(line).Some? && Names(items[j], ParseReq(line).value.name)
    ensures line in Print(items) <==> items[j].line == line
  {
    hide Strip, Find, ParseReq;
    Others(items, j);
    PrintSplit(items, j);
  }

  /** A line that names its package is found when it is that clean line, and nothing is touched otherwise. */
  lemma ReplaceLineAt(items: seq<Item>, j: nat, line: string, next: Item)
    requires TendedItems(items) && j < |items| && items[j].Plain?
    requires ParseReq(line).Some? && Names(items[j], ParseReq(line).value.name)
    ensures ReplaceWholeLine(Print(items), line, ItemLines(next)) ==
            if items[j].line == line then Print(items[j := next]) else Print(items)
  {
    hide Strip, Find, ParseReq, ReplaceWholeLine;
    Others(items, j);
    PrintSplit(items, j);
    PrintUpdate(items, j, next);
    ReplaceBetween(Print(items[..j]), items[j].line, Print(items[j + 1..]), line, ItemLines(next));
  }

  /** A marker's block is found where the marker is, and nowhere before. */
  lemma ReplaceMarkerAt(items: seq<Item>, j: nat, next: Item)
    requires TendedItems(items) && j < |items| && items[j].Marker? && next.Marker?
    ensures ReplaceBlock(Print(items), ItemLines(items[j]), ItemLines(next)) == Print(items[j := next])
  {
    hide Strip, Find, ReplaceBlock;
    var was := ItemLines(items[j]);
    Others(items, j);
    StripKeepsReq(items[j].existing);
    assert was[0][0] == '<';
    NotAName(was[0]);
    PrintSplit(items, j);
    PrintUpdate(items, j, next);
    ReplaceBlockBetween(Print(items[..j]), was, Print(items[j + 1..]), ItemLines(next));
  }

  /* ---- Trailing empty lines ---- */

  function StripTailItems(items: seq<Item>): seq<Item> {
    if items != [] && items[|items| - 1] == Plain("") then StripTailItems(items[..|items| - 1]) else items
  }

  lemma StripTailSnoc(a: Lines, line: string)
    ensures StripTail(a + [line]) == if line == "" then StripTail(a) else a + [line]
  {
    assert (a + [line])[..|a|] == a;
  }

  /** An item prints an empty line at its end only when it is one. */
  lemma LastLine(it: Item) returns (front: Lines, last: string)
    ensures ItemLines(it) == front + [last]
    ensures last == "" <==> it == Plain("")
    ensures it.Plain? ==> front == []
  {
    hide ParseReq, Find;
    var lines := ItemLines(it);
    front, last := lines[..|lines| - 1], lines[|lines| - 1];
    if it.Marker? {
      assert last[0] == '>';
    }
  }

  lemma {:induction false} StripTailPrints(items: seq<Item>)
    ensures StripTail(Print(items)) == Print(StripTailItems(items))
  {
    hide ItemLines, StripTail;
    if items == [] {
      StripTailNone();
    } else {
      var n := |items| - 1;
      var front, last := LastLine(items[n]);
      PrintSplit(items, n);
      assert Print(items) == (Print(items[..n]) + front) + [last];
      StripTailSnoc(Print(items[..n]) + front, last);
      if items[n] == Plain("") {
        StripTailPrints(items[..n]);
        assert Print(items[..n]) + front == Print(items[..n]);
      }
    }
  }

  lemma StripTailNone()
    ensures StripTail([]) == []
  {
  }

  lemma {:induction false} StripTailShape(items: seq<Item>)
    ensures StripTailItems(items) <= items
    ensures forall i :: |StripTailItems(items)| <= i < |items| ==> items[i] == Plain("")
    ensures StripTailItems(items) != [] ==> StripTailItems(items)[|StripTailItems(items)| - 1] != Plain("")
  {
    if items != [] && items[|items| - 1] == Plain("") {
      StripTailShape(items[..|items| - 1]);
    }
  }
}
