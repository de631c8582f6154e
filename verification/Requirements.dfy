/** A pip dependency field as `_repo_requirements.py` reads it: lines, some of
    them conflict markers of five lines each.

    A field is the sequence of its lines (`text.split('\n')`); the empty field is
    one empty line. `CONFLICT_RE` is not anchored to the start of a line, so a
    marker keeps whatever precedes its `<<<<<<< ` on the line, `pre`. */
module Requirements {
  import opened Text

  type Lines = seq<string>

  const HEAD := "<<<<<<< "
  const SEP := "======="
  const TAIL := ">>>>>>> "

  datatype Item =
    | Plain(line: string)
    | Marker(pre: string, src: string, existing: string, incoming: string, origin: string)

  type FiveLines = b: Lines | |b| == 5 witness ["", "", "", "", ""]

  function Block(src: string, existing: string, incoming: string, origin: string): FiveLines {
    [HEAD + src, existing, SEP, incoming, TAIL + origin]
  }

  function ItemLines(it: Item): Lines {
    match it
    case Plain(line) => [line]
    case Marker(pre, src, existing, incoming, origin) =>
      [pre + HEAD + src, existing, SEP, incoming, TAIL + origin]
  }

  function Print(items: seq<Item>): Lines {
    if items == [] then [] else ItemLines(items[0]) + Print(items[1..])
  }

  /** `CONFLICT_RE` matches on the first of these lines. */
  predicate MarkerAt(text: Lines) {
    |text| >= 5 && Contains(text[0], HEAD) && text[2] == SEP && TAIL <= text[4]
  }

  /** The field cut where `CONFLICT_RE.finditer` cuts it. */
  function Segments(text: Lines): seq<Item> {
    if text == [] then []
    else if MarkerAt(text) then
      var k := Find(text[0], HEAD);
      [Marker(text[0][..k], text[0][k + |HEAD|..], text[1], text[3], text[4][|TAIL|..])] + Segments(text[5..])
    else [Plain(text[0])] + Segments(text[1..])
  }

  /** The requirement an item states; a marker states its existing side. */
  function ReqOf(it: Item): Option<Req> {
    match it
    case Plain(line) => ParseReq(line)
    case Marker(_, _, existing, _, _) => ParseReq(Strip(existing))
  }

  predicate Names(it: Item, name: string) {
    ReqOf(it).Some? && ReqOf(it).value.name == name
  }

  /* ---- Conflict detection ---- */

  datatype Conflict = Conflict(
    name: string, existing: string, existingSource: string, incoming: string, incomingSource: string)

  predicate HasPipConflicts(text: Lines) {
    exists k :: 0 <= k < |text| && Contains(text[k], HEAD)
  }

  function Found(it: Item): seq<Conflict> {
    if it.Marker? && ReqOf(it).Some? then
      [Conflict(ReqOf(it).value.name, Strip(it.existing), Strip(it.src), Strip(it.incoming), Strip(it.origin))]
    else []
  }

  function Detected(items: seq<Item>): seq<Conflict> {
    if items == [] then [] else Detected(items[..|items| - 1]) + Found(items[|items| - 1])
  }

  /** What is detected of a marker that states a requirement: the requirement's
      package, and the marker's four texts without the blanks around them. */
  lemma FoundSays(it: Item)
    ensures it.Marker? && ParseReq(it.existing).Some? ==>
              Found(it) == [Conflict(ParseReq(it.existing).value.name, Strip(it.existing), Strip(it.src),
                                     Strip(it.incoming), Strip(it.origin))]
    ensures it.Plain? || ParseReq(it.existing).None? ==> Found(it) == []
  {
    if it.Marker? {
      StripKeepsReq(it.existing);
    }
  }

  /** Marker by marker, in the order of the field. */
  lemma {:induction false} DetectedConcat(a: seq<Item>, b: seq<Item>)
    ensures Detected(a + b) == Detected(a) + Detected(b)
  {
    hide Found;
    if b == [] {
      assert a + b == a;
    } else {
      assert (a + b)[..|a + b| - 1] == a + b[..|b| - 1];
      DetectedConcat(a, b[..|b| - 1]);
      DetectedOne(b[|b| - 1]);
    }
  }

  lemma DetectedOne(it: Item)
    ensures Detected([]) == [] && Detected([it]) == Found(it)
  {
    assert [it][..0] == [];
  }

  method DetectPipConflicts(text: Lines) returns (conflicts: seq<Conflict>)
    ensures conflicts == Detected(Segments(text))
  {
    conflicts := [];
    var items := Segments(text);
    for i := 0 to |items|
      invariant conflicts == Detected(items[..i])
    {
      var it := items[i];
      if it.Marker? {
        var existing := Strip(it.existing);
        var parsed := ParseReq(existing);
        if parsed.Some? {
          conflicts := conflicts
            + [Conflict(parsed.value.name, existing, Strip(it.src), Strip(it.incoming), Strip(it.origin))];
        }
      }
      assert items[..i + 1][..i] == items[..i];
    }
    assert items[..|items|] == items;
  }

  /* ---- The package map ---- */

  datatype Entry =
    | CleanEntry(spec: string)
    | ConflictEntry(spec: string, existingSrc: string, block: FiveLines)

  function EntryOf(it: Item): Entry
    requires ReqOf(it).Some?
  {
    var spec := ReqOf(it).value.raw;
    match it
    case Plain(_) => CleanEntry(spec)
    case Marker(_, src, existing, incoming, origin) =>
      ConflictEntry(spec, Strip(src), Block(src, existing, incoming, origin))
  }

  /** First pass: a later marker of the same package replaces an earlier one. */
  function PutMarker(m: map<string, Entry>, it: Item): map<string, Entry> {
    if it.Marker? && ReqOf(it).Some? then m[ReqOf(it).value.name := EntryOf(it)] else m
  }

  function MarkerEntries(items: seq<Item>): map<string, Entry> {
    if items == [] then map[]
    else PutMarker(MarkerEntries(items[..|items| - 1]), items[|items| - 1])
  }

  /** What `CONFLICT_RE.sub('', text)` leaves of an item. */
  function Remainder(it: Item): string {
    if it.Plain? then it.line else it.pre
  }

  /** Second pass: a clean line counts when its package is not there yet. */
  function PutClean(m: map<string, Entry>, parsed: Option<Req>): map<string, Entry> {
    if parsed.Some? && parsed.value.name !in m then m[parsed.value.name := CleanEntry(parsed.value.raw)] else m
  }

  function CleanEntries(base: map<string, Entry>, items: seq<Item>): map<string, Entry> {
    if items == [] then base
    else PutClean(CleanEntries(base, items[..|items| - 1]), ParseReq(Remainder(items[|items| - 1])))
  }

  function PkgMap(text: Lines): map<string, Entry> {
    CleanEntries(MarkerEntries(Segments(text)), Segments(text))
  }

  lemma EntriesSnoc(base: map<string, Entry>, items: seq<Item>, i: nat)
    requires i < |items|
    ensures MarkerEntries(items[..i + 1]) == PutMarker(MarkerEntries(items[..i]), items[i])
    ensures CleanEntries(base, items[..i + 1]) ==
            PutClean(CleanEntries(base, items[..i]), ParseReq(Remainder(items[i])))
  {
    assert items[..i + 1][..i] == items[..i];
  }

  lemma EntriesNone(items: seq<Item>)
    ensures MarkerEntries(items[..0]) == map[]
    ensures forall base :: CleanEntries(base, items[..0]) == base
  {
  }

  method BuildPkgMap(text: Lines) returns (pkg: map<string, Entry>)
    ensures pkg == PkgMap(text)
  {
    hide ParseReq, Find, Strip, Segments, MarkerEntries, CleanEntries;
    EntriesNone(Segments(text));
    pkg := map[];
    var items := Segments(text);
    for i := 0 to |items|
      invariant pkg == MarkerEntries(items[..i])
    {
      var it := items[i];
      EntriesSnoc(map[], items, i);
      if it.Marker? {
        var parsed := ParseReq(Strip(it.existing));
        if parsed.Some? {
          pkg := pkg[parsed.value.name :=
            ConflictEntry(parsed.value.raw, Strip(it.src), Block(it.src, it.existing, it.incoming, it.origin))];
        }
      }
    }
    assert items[..|items|] == items;
    for i := 0 to |items|
      invariant pkg == CleanEntries(MarkerEntries(items), items[..i])
    {
      EntriesSnoc(MarkerEntries(items), items, i);
      var parsed := ParseReq(Remainder(items[i]));
      if parsed.Some? && parsed.value.name !in pkg {
        pkg := pkg[parsed.value.name := CleanEntry(parsed.value.raw)];
      }
    }
  }

  /* ---- Replacing ---- */

  /** `re.sub` of the first line that is exactly `was`. */
  function ReplaceWholeLine(text: Lines, was: string, block: Lines): Lines {
    if text == [] then []
    else if text[0] == was then block + text[1..]
    else [text[0]] + ReplaceWholeLine(text[1..], was, block)
  }

  predicate EndsWith(s: string, t: string) {
    |t| <= |s| && s[|s| - |t|..] == t
  }

  /** `was`, a text of five lines, occurs as a substring beginning on the first line. */
  predicate OccursAt(text: Lines, was: FiveLines) {
    && |text| >= 5 && EndsWith(text[0], was[0]) && text[1] == was[1] && text[2] == was[2] && text[3] == was[3] && was[4] <= text[4]
  }

  /** `text.replace(was, new, 1)` for two blocks of five lines. */
  function ReplaceBlock(text: Lines, was: FiveLines, block: FiveLines): Lines {
    if text == [] then []
    else if OccursAt(text, was) then
      var before, after := text[0][..|text[0]| - |was[0]|], text[4][|was[4]|..];
      [before + block[0], block[1], block[2], block[3], block[4] + after] + text[5..]
    else [text[0]] + ReplaceBlock(text[1..], was, block)
  }

  /** `text.rstrip('\n')`: no line is left of a field of empty lines. */
  function StripTail(text: Lines): Lines {
    if text != [] && text[|text| - 1] == "" then StripTail(text[..|text| - 1]) else text
  }

  /* ---- Printing and parsing ---- */

  /** The first cut of a field that begins with a marker prints its five lines. */
  lemma MarkerPrints(text: Lines)
    requires MarkerAt(text)
    ensures |text| >= 5
    ensures var k := Find(text[0], HEAD);
            && 0 <= k && k + |HEAD| <= |text[0]| && |TAIL| <= |text[4]|
            && ItemLines(Marker(text[0][..k], text[0][k + |HEAD|..], text[1], text[3], text[4][|TAIL|..])) == text[..5]
  {
    hide Find;
    var k := Find(text[0], HEAD);
    assert text[0][..k] + HEAD + text[0][k + |HEAD|..] == text[0];
    assert TAIL + text[4][|TAIL|..] == text[4];
  }

  /** Nothing of a field is lost in cutting it: whatever it holds. */
  lemma {:induction false} SegmentsPrintBack(text: Lines)
    ensures Print(Segments(text)) == text
  {
    hide Find, ItemLines, MarkerAt;
    if text == [] {
    } else if MarkerAt(text) {
      MarkerPrints(text);
      assert text == text[..5] + text[5..];
      SegmentsPrintBack(text[5..]);
      PrintCons(Segments(text)[0], Segments(text[5..]));
    } else {
      SegmentsPrintBack(text[1..]);
      PrintCons(Plain(text[0]), Segments(text[1..]));
      PlainPrints(text[0]);
      assert text == [text[0]] + text[1..];
    }
  }

  lemma PlainPrints(line: string)
    ensures ItemLines(Plain(line)) == [line]
  {
  }

  /** No marker begins within a line, nor any line that only looks like one. */
  predicate Canonical(it: Item) {
    match it
    case Plain(line) => !Contains(line, HEAD)
    case Marker(pre, _, _, _, _) => pre == ""
  }

  predicate AllCanonical(items: seq<Item>) {
    forall i :: 0 <= i < |items| ==> Canonical(items[i])
  }

  /** Printed markers are the parsed markers. */
  lemma {:induction false} PrintParsesBack(items: seq<Item>)
    requires AllCanonical(items)
    ensures Segments(Print(items)) == items
  {
    if items != [] {
      PrintParsesBack(items[1..]);
      var text := Print(items);
      if items[0].Plain? {
        assert text[0] == items[0].line && text[1..] == Print(items[1..]);
      } else {
        var m := items[0];
        assert text[..5] == ItemLines(m) && text[5..] == Print(items[1..]);
        assert text[0] == "" + HEAD + m.src && text[0] == HEAD + m.src && HEAD <= text[0];
        assert MarkerAt(text);
      }
    }
  }

  lemma Assoc<T>(a: seq<T>, b: seq<T>, c: seq<T>)
    ensures (a + b) + c == a + (b + c)
  {
  }

  lemma PrintCons(it: Item, rest: seq<Item>)
    ensures Print([it] + rest) == ItemLines(it) + Print(rest)
  {
    assert ([it] + rest)[1..] == rest;
  }

  lemma {:induction false} PrintConcat(a: seq<Item>, b: seq<Item>)
    ensures Print(a + b) == Print(a) + Print(b)
  {
    hide ItemLines;
    if a == [] {
      assert a + b == b;
    } else {
      PrintConcat(a[1..], b);
      PrintCons(a[0], a[1..] + b);
      PrintCons(a[0], a[1..]);
      assert a == [a[0]] + a[1..] && a + b == [a[0]] + (a[1..] + b);
      Assoc(ItemLines(a[0]), Print(a[1..]), Print(b));
    }
  }

  lemma CutOut<T>(s: seq<T>, j: nat)
    requires j < |s|
    ensures s == s[..j] + ([s[j]] + s[j + 1..])
  {
  }

  lemma PrintSplit(items: seq<Item>, j: nat)
    requires j < |items|
    ensures Print(items) == Print(items[..j]) + ItemLines(items[j]) + Print(items[j + 1..])
  {
    hide ItemLines, Print;
    var a, it, b := items[..j], items[j], items[j + 1..];
    CutOut(items, j);
    PrintConcat(a, [it] + b);
    PrintCons(it, b);
    Assoc(Print(a), ItemLines(it), Print(b));
  }

  /* ---- Any field ---- */

  /** `pat` stands in `s` at `k`. */
  predicate StandsAt(s: string, pat: string, k: nat) {
    k + |pat| <= |s| && s[k..k + |pat|] == pat
  }

  lemma ContainsIs(s: string, pat: string)
    ensures Contains(s, pat) <==> exists k: nat :: StandsAt(s, pat, k)
    ensures Contains(s, pat) ==> StandsAt(s, pat, Find(s, pat)) && forall k: nat :: StandsAt(s, pat, k) ==> Find(s, pat) <= k
  {
    hide Find;
    if Contains(s, pat) {
      assert StandsAt(s, pat, Find(s, pat));
    }
    forall k: nat | StandsAt(s, pat, k) ensures 0 <= Find(s, pat) <= k {
      FindIsFirst(s, pat, k);
    }
  }

  /** A marker is cut off where one can begin, at the first head on its line, and a line anywhere else. */
  lemma CutsWhere(text: Lines)
    requires text != []
    ensures Segments(text) != []
    ensures var it := Segments(text)[0];
            if |text| >= 5 && (exists k: nat :: StandsAt(text[0], "<<<<<<< ", k)) && text[2] == "=======" && ">>>>>>> " <= text[4]
            then
              && Segments(text)[1..] == Segments(text[5..]) && it.Marker?
              && text[0] == it.pre + "<<<<<<< " + it.src && text[4] == ">>>>>>> " + it.origin
              && it.existing == text[1] && it.incoming == text[3]
              && forall k: nat :: StandsAt(text[0], "<<<<<<< ", k) ==> |it.pre| <= k
            else Segments(text)[1..] == Segments(text[1..]) && it == Plain(text[0])
  {
    hide Find, Contains;
    ContainsIs(text[0], HEAD);
    if MarkerAt(text) {
      HeadCut(text[0]);
      assert TAIL + text[4][|TAIL|..] == text[4];
    }
  }

  lemma HeadCut(line: string)
    requires Contains(line, HEAD)
    ensures var k := Find(line, HEAD); line == line[..k] + HEAD + line[k + |HEAD|..]
  {
    hide Find;
  }

  lemma GateIs(text: Lines)
    ensures HasPipConflicts(text) <==> exists i, k: nat :: 0 <= i < |text| && StandsAt(text[i], "<<<<<<< ", k)
  {
    hide Find, Contains;
    forall i | 0 <= i < |text| ensures Contains(text[i], HEAD) <==> exists k: nat :: StandsAt(text[i], HEAD, k) {
      ContainsIs(text[i], HEAD);
    }
  }

  predicate MarksAt(items: seq<Item>, j: int, name: string) {
    0 <= j < |items| && items[j].Marker? && Names(items[j], name)
  }

  /** A line, or what precedes a marker on its own, states the package. */
  predicate CleanAt(items: seq<Item>, j: int, name: string) {
    && 0 <= j < |items|
    && var parsed := ParseReq(if items[j].Plain? then items[j].line else items[j].pre);
       parsed.Some? && parsed.value.name == name
  }

  lemma {:induction false} LastMarkerCounts(items: seq<Item>, j: nat, name: string)
    requires MarksAt(items, j, name) && forall k :: j < k < |items| ==> !MarksAt(items, k, name)
    ensures Get(MarkerEntries(items), name) == Some(EntryOf(items[j]))
  {
    hide EntryOf, ReqOf;
    var n := |items| - 1;
    PutMarkerIs(MarkerEntries(items[..n]), items[n], name);
    if j < n {
      assert !MarksAt(items, n, name);
      forall k | j < k < n ensures !MarksAt(items[..n], k, name) {
        assert !MarksAt(items, k, name);
      }
      LastMarkerCounts(items[..n], j, name);
    }
  }

  lemma {:induction false} NoMarkerCounts(items: seq<Item>, name: string)
    requires forall k :: 0 <= k < |items| ==> !MarksAt(items, k, name)
    ensures name !in MarkerEntries(items)
  {
    hide EntryOf, ReqOf;
    if items != [] {
      var n := |items| - 1;
      PutMarkerIs(MarkerEntries(items[..n]), items[n], name);
      assert !MarksAt(items, n, name);
      forall k | 0 <= k < n ensures !MarksAt(items[..n], k, name) {
        assert !MarksAt(items, k, name);
      }
      NoMarkerCounts(items[..n], name);
    }
  }

  lemma PutMarkerIs(m: map<string, Entry>, it: Item, name: string)
    ensures Names(it, name) ==> ReqOf(it).Some?
    ensures Get(PutMarker(m, it), name) == if it.Marker? && Names(it, name) then Some(EntryOf(it)) else Get(m, name)
  {
    hide EntryOf;
  }

  lemma {:induction false} BaseCounts(base: map<string, Entry>, items: seq<Item>, name: string)
    requires name in base || forall k :: 0 <= k < |items| ==> !CleanAt(items, k, name)
    ensures Get(CleanEntries(base, items), name) == Get(base, name)
  {
    hide ParseReq;
    if items != [] {
      var n := |items| - 1;
      if name !in base {
        assert !CleanAt(items, n, name);
        forall k | 0 <= k < n ensures !CleanAt(items[..n], k, name) {
          assert !CleanAt(items, k, name);
        }
      }
      BaseCounts(base, items[..n], name);
    }
  }

  lemma {:induction false} FirstCleanCounts(base: map<string, Entry>, items: seq<Item>, j: nat, name: string)
    requires name !in base && CleanAt(items, j, name) && forall k :: 0 <= k < j ==> !CleanAt(items, k, name)
    ensures Get(CleanEntries(base, items), name) == Some(CleanEntry(ParseReq(if items[j].Plain? then items[j].line else items[j].pre).value.raw))
  {
    hide ParseReq;
    var n := |items| - 1;
    if j < n {
      forall k | 0 <= k < j ensures !CleanAt(items[..n], k, name) {
        assert !CleanAt(items, k, name);
      }
      FirstCleanCounts(base, items[..n], j, name);
    } else {
      forall k | 0 <= k < n ensures !CleanAt(items[..n], k, name) {
        assert !CleanAt(items, k, name);
      }
      BaseCounts(base, items[..n], name);
    }
  }

  /** Of any field: the last marker of a package counts, or else its first clean line, or else it has no entry. */
  lemma PkgMapSays(text: Lines, name: string, j: int)
    ensures var items, entry := Segments(text), Get(PkgMap(text), name);
            && (MarksAt(items, j, name) && (forall k :: j < k < |items| ==> !MarksAt(items, k, name)) ==>
                  entry == Some(EntryOf(items[j])))
            && ((forall k :: 0 <= k < |items| ==> !MarksAt(items, k, name)) ==>
                  && (CleanAt(items, j, name) && (forall k :: 0 <= k < j ==> !CleanAt(items, k, name)) ==>
                        entry == Some(CleanEntry(ParseReq(if items[j].Plain? then items[j].line else items[j].pre).value.raw)))
                  && ((forall k :: 0 <= k < |items| ==> !CleanAt(items, k, name)) ==> entry == None))
  {
    hide ParseReq, Remainder, EntryOf, Segments, MarkerEntries, CleanEntries, Names;
    var items := Segments(text);
    var base := MarkerEntries(items);
    if MarksAt(items, j, name) && forall k :: j < k < |items| ==> !MarksAt(items, k, name) {
      LastMarkerCounts(items, j, name);
      BaseCounts(base, items, name);
    } else if forall k :: 0 <= k < |items| ==> !MarksAt(items, k, name) {
      NoMarkerCounts(items, name);
      if CleanAt(items, j, name) && forall k :: 0 <= k < j ==> !CleanAt(items, k, name) {
        FirstCleanCounts(base, items, j, name);
      } else if forall k :: 0 <= k < |items| ==> !CleanAt(items, k, name) {
        BaseCounts(base, items, name);
      }
    }
  }

  /** Exactly the empty lines at the end go. */
  lemma {:induction false} StripTailIs(text: Lines)
    ensures StripTail(text) <= text
    ensures forall i :: |StripTail(text)| <= i < |text| ==> text[i] == ""
    ensures StripTail(text) != [] ==> StripTail(text)[|StripTail(text)| - 1] != ""
  {
    if text != [] && text[|text| - 1] == "" {
      StripTailIs(text[..|text| - 1]);
    }
  }

  /* ---- Tended fields ---- */

  /** A marker with something to read on its existing side, and the same package on its incoming one. */
  predicate Whole(it: Item) {
    it.Marker? ==>
      && ReqOf(it).Some?
      && (ParseReq(it.incoming).None? || ParseReq(it.incoming).value.name == ReqOf(it).value.name)
  }

  predicate Distinct(items: seq<Item>) {
    forall i, j :: 0 <= i < j < |items| && ReqOf(items[i]).Some? && ReqOf(items[j]).Some?
      ==> ReqOf(items[i]).value.name != ReqOf(items[j]).value.name
  }

  /** Items that name each package once, in markers that are whole and begin their line. */
  predicate TendedItems(items: seq<Item>) {
    && AllCanonical(items)
    && (forall i :: 0 <= i < |items| ==> Whole(items[i]))
    && Distinct(items)
  }

  predicate Tended(text: Lines) {
    TendedItems(Segments(text))
  }

  /** The entry of a package, looked up among the items. */
  function EntryAt(items: seq<Item>, name: string): Option<Entry> {
    if items == [] then None
    else if Names(items[0], name) then Some(EntryOf(items[0]))
    else EntryAt(items[1..], name)
  }

  predicate Mentions(items: seq<Item>, name: string) {
    exists j :: 0 <= j < |items| && Names(items[j], name)
  }

  lemma {:induction false} EntryAtFinds(items: seq<Item>, j: nat, name: string)
    requires Distinct(items) && j < |items| && Names(items[j], name)
    ensures EntryAt(items, name) == Some(EntryOf(items[j]))
  {
    if j > 0 {
      EntryAtFinds(items[1..], j - 1, name);
    }
  }

  lemma {:induction false} EntryAtMentions(items: seq<Item>, name: string)
    ensures EntryAt(items, name).Some? <==> Mentions(items, name)
    ensures EntryAt(items, name).Some? ==>
              exists j :: 0 <= j < |items| && Names(items[j], name) && EntryAt(items, name).value == EntryOf(items[j])
  {
    if items != [] {
      EntryAtMentions(items[1..], name);
      if !Names(items[0], name) {
        if EntryAt(items[1..], name).Some? {
          var j :| 0 <= j < |items[1..]| && Names(items[1..][j], name) && EntryAt(items[1..], name).value == EntryOf(items[1..][j]);
          assert Names(items[j + 1], name);
        }
        if j :| 0 <= j < |items| && Names(items[j], name) {
          assert Names(items[1..][j - 1], name);
        }
      }
    }
  }

  lemma {:induction false} EntryAtSnoc(items: seq<Item>, it: Item, name: string)
    ensures EntryAt(items + [it], name) ==
            if EntryAt(items, name).Some? then EntryAt(items, name)
            else if Names(it, name) then Some(EntryOf(it)) else None
  {
    if items == [] {
      assert EntryAt([it][1..], name) == None;
    } else {
      assert (items + [it])[1..] == items[1..] + [it];
      EntryAtSnoc(items[1..], it, name);
    }
  }

  function Get<V>(m: map<string, V>, name: string): Option<V> {
    if name in m then Some(m[name]) else None
  }

  predicate InConflict(items: seq<Item>, name: string) {
    EntryAt(items, name).Some? && EntryAt(items, name).value.ConflictEntry?
  }

  lemma {:induction false} MarkerEntryIs(items: seq<Item>, name: string)
    requires Distinct(items)
    ensures Get(MarkerEntries(items), name) == if InConflict(items, name) then EntryAt(items, name) else None
  {
    if items != [] {
      var n := |items| - 1;
      MarkerEntryIs(items[..n], name);
      EntryAtSnoc(items[..n], items[n], name);
      assert items == items[..n] + [items[n]];
      if Names(items[n], name) {
        EntryAtFinds(items, n, name);
      }
    }
  }

  lemma RemainderNames(it: Item)
    requires Canonical(it)
    ensures ParseReq(Remainder(it)) == if it.Plain? then ReqOf(it) else None
  {
    assert ParseReq("").None?;
  }

  lemma {:induction false} CleanEntryIs(base: map<string, Entry>, items: seq<Item>, name: string)
    requires AllCanonical(items)
    requires InConflict(items, name) ==> name in base
    ensures Get(CleanEntries(base, items), name) ==
            if name in base then Some(base[name]) else EntryAt(items, name)
  {
    hide ParseReq, Strip, Canonical, EntryAt;
    if items == [] {
      NoEntry(name);
    } else {
      var n := |items| - 1;
      EntryAtSnoc(items[..n], items[n], name);
      assert items == items[..n] + [items[n]];
      CleanEntryIs(base, items[..n], name);
      RemainderNames(items[n]);
    }
  }

  lemma NoEntry(name: string)
    ensures EntryAt([], name) == None
  {
  }

  /** The map two passes build is the items', package by package. */
  lemma PkgMapIsItems(text: Lines, name: string)
    requires Tended(text)
    ensures Get(PkgMap(text), name) == EntryAt(Segments(text), name)
  {
    var items := Segments(text);
    MarkerEntryIs(items, name);
    CleanEntryIs(MarkerEntries(items), items, name);
  }
}
