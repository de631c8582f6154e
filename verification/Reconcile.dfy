/** The merge of a tended field, said of its items: what the manifest asks of a
    package, once or many times, decides what becomes of the item that states it. */
module Reconcile {
  import opened Text
  import opened Requirements
  import opened Replacing
  import opened Merge

  /** Requirements as they are parsed, none with the head of a marker in it. */
  predicate MarkerFree(reqs: seq<Req>) {
    forall i :: 0 <= i < |reqs| ==> ParseReq(reqs[i].raw) == Some(reqs[i]) && !Contains(reqs[i].raw, HEAD)
  }

  /** All the manifest asks of a package, in order. */
  function Asks(reqs: seq<Req>, name: string): seq<string> {
    if reqs == [] then []
    else
      var r := reqs[|reqs| - 1];
      Asks(reqs[..|reqs| - 1], name) + if r.name == name then [r.raw] else []
  }

  function Last(asks: seq<string>): string
    requires asks != []
  {
    asks[|asks| - 1]
  }

  /** The last ask that is not `spec`. */
  function Other(asks: seq<string>, spec: string): Option<string> {
    if asks == [] then None
    else if Last(asks) != spec then Some(Last(asks))
    else Other(asks[..|asks| - 1], spec)
  }

  /** The line is the tidy form of its requirement: no comment, no blanks around it. */
  predicate Tidy(it: Item) {
    it.Plain? && ReqOf(it).Some? && ReqOf(it).value.raw == it.line
  }

  /** A line is the merging repository's: it owns it, or nobody does and the
      first thing it asks for is that very line. */
  predicate Yields(repo: Repo, owning: bool, owner: Option<Source>, spec: string, asks: seq<string>) {
    owning && asks != [] && if owner.Some? then owner.value.repo == repo.key else asks[0] == spec
  }

  /** What the two maps hold of one package. */
  datatype Known = Known(entry: Option<Entry>, owner: Option<Source>)

  /** What is known of a clean line's package after these asks. */
  function LineAfter(repo: Repo, owning: bool, spec: string, owner: Option<Source>, asks: seq<string>): Known {
    var other := Other(asks, spec);
    if Yields(repo, owning, owner, spec, asks) then
      if other.None? then
        Known(Some(CleanEntry(spec)), if owner.Some? then owner else Some(Source(repo.key, spec, repo.origin)))
      else Known(Some(CleanEntry(Last(asks))), Some(Source(repo.key, Last(asks), repo.origin)))
    else if other.None? then Known(Some(CleanEntry(spec)), owner)
    else Known(Some(ConflictEntry(spec, "existing", Block("existing", spec, other.value, repo.origin))), owner)
  }

  /** What is known of any package after these asks, from what was known before. */
  function KnownAfter(repo: Repo, owning: bool, entry: Option<Entry>, owner: Option<Source>, asks: seq<string>): Known {
    if asks == [] then Known(entry, owner)
    else
      match entry
      case None =>
        LineAfter(repo, owning, asks[0], if owning then Some(Source(repo.key, asks[0], repo.origin)) else owner, asks)
      case Some(CleanEntry(spec)) => LineAfter(repo, owning, spec, owner, asks)
      case Some(ConflictEntry(spec, src, block)) =>
        var other := Other(asks, spec);
        Known(Some(ConflictEntry(spec, src, if other.Some? then Block(src, spec, other.value, repo.origin) else block)),
              owner)
  }

  function KnownOf(repo: Repo, owning: bool, src: Sources, items: seq<Item>, reqs: seq<Req>, name: string): Known {
    KnownAfter(repo, owning, EntryAt(items, name), Get(src, name), Asks(reqs, name))
  }

  /** What becomes of an item: a marker takes in the last ask that differs; so does
      a tidy line, as a new marker, unless it is the merging repository's: then it is the last ask. */
  function NextItem(repo: Repo, owning: bool, owner: Option<Source>, it: Item, asks: seq<string>): Item
    requires ReqOf(it).Some?
  {
    var spec := ReqOf(it).value.raw;
    var other := Other(asks, spec);
    if other.None? then it
    else
      match it
      case Marker(_, src, _, _, _) => Marker("", Strip(src), spec, other.value, repo.origin)
      case Plain(line) =>
        if line != spec then it
        else if Yields(repo, owning, owner, spec, asks) then Plain(Last(asks))
        else Marker("", "existing", spec, other.value, repo.origin)
  }

  function OutItem(repo: Repo, owning: bool, src: Sources, reqs: seq<Req>, it: Item): Item {
    if ReqOf(it).Some? then
      var name := ReqOf(it).value.name;
      NextItem(repo, owning, Get(src, name), it, Asks(reqs, name))
    else it
  }

  function OutItems(repo: Repo, owning: bool, src: Sources, reqs: seq<Req>, items: seq<Item>): seq<Item> {
    seq(|items|, i requires 0 <= i < |items| => OutItem(repo, owning, src, reqs, items[i]))
  }

  /* ---- Asks ---- */

  lemma AsksNone(name: string)
    ensures Asks([], name) == []
  {
  }

  lemma AsksSnoc(reqs: seq<Req>, r: Req, name: string)
    ensures Asks(reqs + [r], name) == Asks(reqs, name) + if r.name == name then [r.raw] else []
  {
    assert (reqs + [r])[..|reqs|] == reqs;
  }

  lemma {:induction false} AsksConcat(a: seq<Req>, b: seq<Req>, name: string)
    ensures Asks(a + b, name) == Asks(a, name) + Asks(b, name)
  {
    if b == [] {
      assert a + b == a;
    } else {
      assert (a + b)[..|a + b| - 1] == a + b[..|b| - 1];
      AsksConcat(a, b[..|b| - 1], name);
    }
  }

  lemma {:induction false} AsksAre(reqs: seq<Req>, name: string)
    ensures forall raw :: raw in Asks(reqs, name) <==> Req(name, raw) in reqs
  {
    if reqs != [] {
      var front, r := reqs[..|reqs| - 1], reqs[|reqs| - 1];
      AsksAre(front, name);
      assert forall x :: x in reqs <==> x in front || x == r;
    }
  }

  /** An ask reads as what it is: a tidy line of its package. */
  predicate Readable(raw: string, name: string) {
    ParseReq(raw) == Some(Req(name, raw)) && !Contains(raw, HEAD)
  }

  lemma AsksRead(reqs: seq<Req>, name: string)
    requires MarkerFree(reqs)
    ensures forall raw :: raw in Asks(reqs, name) ==> Readable(raw, name)
  {
    hide ParseReq, Contains;
    AsksAre(reqs, name);
  }

  lemma OtherSnoc(asks: seq<string>, raw: string, spec: string)
    ensures Other(asks + [raw], spec) == if raw != spec then Some(raw) else Other(asks, spec)
  {
    assert (asks + [raw])[..|asks|] == asks;
  }

  lemma {:induction false} OtherIs(asks: seq<string>, spec: string)
    ensures Other(asks, spec).Some? <==> exists raw :: raw in asks && raw != spec
    ensures Other(asks, spec).Some? ==> Other(asks, spec).value in asks && Other(asks, spec).value != spec
  {
    if asks != [] {
      var front := asks[..|asks| - 1];
      OtherIs(front, spec);
      assert forall x :: x in asks <==> x in front || x == Last(asks);
      assert Last(asks) in asks;
    }
  }

  /* ---- One more ask ---- */

  /** What one ask makes of what is known. */
  function Told(repo: Repo, owning: bool, k: Known, raw: string): Known {
    var claimed := Some(Source(repo.key, raw, repo.origin));
    match Judge(owning, repo.key, k.entry, k.owner, raw)
    case Add => Known(Some(CleanEntry(raw)), if owning then claimed else k.owner)
    case Keep => k
    case Adopt => k.(owner := claimed)
    case Refresh =>
      var e := k.entry.value;
      k.(entry := Some(e.(block := Block(e.existingSrc, e.spec, raw, repo.origin))))
    case Rewrite => Known(Some(CleanEntry(raw)), claimed)
    case Dispute =>
      var spec := k.entry.value.spec;
      k.(entry := Some(ConflictEntry(spec, "existing", Block("existing", spec, raw, repo.origin))))
  }

  lemma LineSnoc(repo: Repo, owning: bool, spec: string, owner: Option<Source>, asks: seq<string>, raw: string)
    ensures LineAfter(repo, owning, spec, owner, asks + [raw]) ==
            Told(repo, owning, LineAfter(repo, owning, spec, owner, asks), raw)
  {
    hide Block, Other;
    OtherSnoc(asks, raw, spec);
    OtherIs(asks, spec);
    if asks == [] {
      assert Other(asks, spec).None?;
    } else {
      assert (asks + [raw])[0] == asks[0];
      assert Other(asks, spec).None? ==> asks[0] in asks && Last(asks) in asks;
    }
  }

  /** The closed form is the step, repeated. */
  lemma KnownSnoc(repo: Repo, owning: bool, entry: Option<Entry>, owner: Option<Source>, asks: seq<string>, raw: string)
    ensures KnownAfter(repo, owning, entry, owner, asks + [raw]) ==
            Told(repo, owning, KnownAfter(repo, owning, entry, owner, asks), raw)
  {
    hide Block, Other, LineAfter;
    OtherNone();
    match entry
    case None =>
      if asks == [] {
        assert [] + [raw] == [raw];
        AddedLine(repo, owning, owner, raw);
      } else {
        assert (asks + [raw])[0] == asks[0];
        LineSnoc(repo, owning, asks[0], if owning then Some(Source(repo.key, asks[0], repo.origin)) else owner, asks, raw);
      }
    case Some(CleanEntry(spec)) =>
      LineNone(repo, owning, spec, owner);
      LineSnoc(repo, owning, spec, owner, asks, raw);
    case Some(ConflictEntry(spec, src, block)) =>
      OtherSnoc(asks, raw, spec);
  }

  lemma OtherNone()
    ensures forall spec :: Other([], spec) == None
  {
  }

  lemma LineNone(repo: Repo, owning: bool, spec: string, owner: Option<Source>)
    ensures LineAfter(repo, owning, spec, owner, []) == Known(Some(CleanEntry(spec)), owner)
  {
  }

  lemma AddedLine(repo: Repo, owning: bool, owner: Option<Source>, raw: string)
    ensures var o := if owning then Some(Source(repo.key, raw, repo.origin)) else owner;
            LineAfter(repo, owning, raw, o, [raw]) == Known(Some(CleanEntry(raw)), o)
  {
    OtherSnoc([], raw, raw);
    assert [] + [raw] == [raw];
  }

  /* ---- An item after its asks ---- */

  /** A marker this merge writes: its existing side is a specification, its incoming one what was asked. */
  lemma WrittenMarker(src: string, line: string, raw: string, origin: string)
    requires ParseReq(line).Some? && ParseReq(raw) == Some(Req(ParseReq(line).value.name, raw))
    ensures var m := Marker("", src, ParseReq(line).value.raw, raw, origin);
            Canonical(m) && Whole(m) && ReqOf(m) == ParseReq(line)
  {
    RawReadsBack(line);
  }

  /** It still states the same package, in a form the next reading understands. */
  lemma NextItemTended(repo: Repo, owning: bool, owner: Option<Source>, it: Item, asks: seq<string>)
    requires ReqOf(it).Some? && Canonical(it) && Whole(it)
    requires forall raw :: raw in asks ==> Readable(raw, ReqOf(it).value.name)
    ensures var next := NextItem(repo, owning, owner, it, asks);
            && Canonical(next) && Whole(next)
            && ReqOf(next).Some? && ReqOf(next).value.name == ReqOf(it).value.name
            && (next.Marker? ==> ReqOf(next).value.raw == ReqOf(it).value.raw)
  {
    hide ParseReq, Strip, Find, Other;
    var spec := ReqOf(it).value.raw;
    OtherIs(asks, spec);
    if Other(asks, spec).Some? {
      var raw := Other(asks, spec).value;
      OtherNone();
      assert Readable(raw, ReqOf(it).value.name) && Readable(Last(asks), ReqOf(it).value.name);
      match it
      case Plain(line) =>
        WrittenMarker("existing", line, raw, repo.origin);
      case Marker(_, existingSrc, existing, _, _) =>
        WrittenMarker(Strip(existingSrc), Strip(existing), raw, repo.origin);
    }
  }

  lemma OutItemsTended(repo: Repo, owning: bool, src: Sources, reqs: seq<Req>, items: seq<Item>)
    requires TendedItems(items) && MarkerFree(reqs)
    ensures var out := OutItems(repo, owning, src, reqs, items);
            && TendedItems(out)
            && forall i :: 0 <= i < |items| ==>
                 && ReqOf(out[i]).Some? == ReqOf(items[i]).Some?
                 && (ReqOf(items[i]).Some? ==> ReqOf(out[i]).value.name == ReqOf(items[i]).value.name)
  {
    hide ParseReq, Contains, NextItem, Readable;
    var out := OutItems(repo, owning, src, reqs, items);
    forall i | 0 <= i < |items|
      ensures Canonical(out[i]) && Whole(out[i])
      ensures ReqOf(out[i]).Some? == ReqOf(items[i]).Some?
      ensures ReqOf(items[i]).Some? ==> ReqOf(out[i]).value.name == ReqOf(items[i]).value.name
    {
      if ReqOf(items[i]).Some? {
        var name := ReqOf(items[i]).value.name;
        AsksRead(reqs, name);
        NextItemTended(repo, owning, Get(src, name), items[i], Asks(reqs, name));
      }
    }
  }

  /** What the maps know of an item after its asks: a tidy line and a marker as they
      are now, an untidy line as something else of its package. */
  lemma ItemIsKnown(repo: Repo, owning: bool, owner: Option<Source>, it: Item, asks: seq<string>)
    requires ReqOf(it).Some? && Canonical(it) && Whole(it)
    requires forall raw :: raw in asks ==> Readable(raw, ReqOf(it).value.name)
    ensures var now, k := NextItem(repo, owning, owner, it, asks), KnownAfter(repo, owning, Some(EntryOf(it)), owner, asks);
            && k.entry.Some? && ReqOf(now).Some?
            && if now.Plain? && !Tidy(now) then
                 && now == it && ParseReq(k.entry.value.spec) == Some(Req(ReqOf(it).value.name, k.entry.value.spec))
                 && (k.entry.value.ConflictEntry? ==> k.entry.value.block[1] == k.entry.value.spec)
               else k.entry == Some(EntryOf(now))
  {
    hide ParseReq, Strip, Find, Other;
    var spec := ReqOf(it).value.raw;
    var now := NextItem(repo, owning, owner, it, asks);
    NextItemTended(repo, owning, owner, it, asks);
    OtherIs(asks, spec);
    OtherNone();
    StripExisting();
    assert asks != [] ==> Readable(Last(asks), ReqOf(it).value.name);
    match it
    case Plain(line) =>
      RawReadsBack(line);
      SpecIsStripped(line);
    case Marker(_, existingSrc, existing, _, _) =>
      StripIdempotent(existingSrc);
      SpecIsStripped(Strip(existing));
  }

  lemma StripExisting()
    ensures Strip("existing") == "existing"
  {
  }

  lemma SpecIsStripped(line: string)
    requires ParseReq(line).Some?
    ensures Strip(ParseReq(line).value.raw) == ParseReq(line).value.raw
  {
    RawReadsBack(line);
  }

  /** The item after one ask more, by the verdict on it. */
  lemma NextItemSnoc(repo: Repo, owning: bool, owner: Option<Source>, it: Item, asks: seq<string>, raw: string)
    requires ReqOf(it).Some? && Canonical(it) && Whole(it)
    requires Readable(raw, ReqOf(it).value.name) && forall r :: r in asks ==> Readable(r, ReqOf(it).value.name)
    ensures var was, now := NextItem(repo, owning, owner, it, asks), NextItem(repo, owning, owner, it, asks + [raw]);
            var k := KnownAfter(repo, owning, Some(EntryOf(it)), owner, asks);
            ReqOf(was).Some? && k.entry.Some? &&
            var spec := ReqOf(was).value.raw;
            match Judge(owning, repo.key, k.entry, k.owner, raw)
            case Add => false
            case Keep => now == was
            case Adopt => now == was
            case Refresh => now == if was.Marker? then Marker("", Strip(was.src), spec, raw, repo.origin) else was
            case Rewrite => was.Plain? && now == if Tidy(was) then Plain(raw) else was
            case Dispute => was.Plain? && now == if Tidy(was) then Marker("", "existing", spec, raw, repo.origin) else was
  {
    hide ParseReq, Strip, Find, Other, Block;
    var spec := ReqOf(it).value.raw;
    NextItemTended(repo, owning, owner, it, asks);
    OtherSnoc(asks, raw, spec);
    OtherIs(asks, spec);
    OtherNone();
    StripExisting();
    assert asks != [] ==> (asks + [raw])[0] == asks[0] && asks[0] in asks && Last(asks) in asks;
    assert asks != [] ==> Readable(Last(asks), ReqOf(it).value.name);
    match it
    case Plain(line) =>
      RawReadsBack(line);
    case Marker(_, existingSrc, existing, _, _) =>
      StripIdempotent(existingSrc);
      SpecIsStripped(Strip(existing));
  }

  /* ---- The loop, on items ---- */

  /** The loop has met `reqs`: its text prints what they make of the items, and
      its maps hold, package by package, what they make of what was known. */
  ghost predicate Tracks(
    repo: Repo, owning: bool, s0: Progress, items: seq<Item>, reqs: seq<Req>, s: Progress)
  {
    && s.text == Print(OutItems(repo, owning, s0.src, reqs, items))
    && (forall n :: Known(Get(s.pkg, n), Get(s.src, n)) == KnownOf(repo, owning, s0.src, items, reqs, n))
    && (forall n :: n in s.named <==> Asks(reqs, n) != [])
  }

  ghost predicate Starts(s0: Progress, items: seq<Item>) {
    && TendedItems(items) && s0.text == Print(items) && s0.named == {}
    && s0.added == [] && s0.adopted == [] && s0.updated == [] && s0.conflicts == []
    && forall n :: Get(s0.pkg, n) == EntryAt(items, n)
  }

  /** What one more requirement does to the items: the one that states its package changes, if any does. */
  lemma OutItemsSnoc(repo: Repo, owning: bool, src: Sources, reqs: seq<Req>, items: seq<Item>, r: Req)
    requires TendedItems(items)
    ensures var was, now := OutItems(repo, owning, src, reqs, items), OutItems(repo, owning, src, reqs + [r], items);
            if j :| 0 <= j < |items| && Names(items[j], r.name)
            then now == was[j := NextItem(repo, owning, Get(src, r.name), items[j], Asks(reqs, r.name) + [r.raw])]
            else now == was
  {
    hide ParseReq, NextItem, Contains, Asks;
    var was, now := OutItems(repo, owning, src, reqs, items), OutItems(repo, owning, src, reqs + [r], items);
    forall n ensures Asks(reqs + [r], n) == Asks(reqs, n) + if r.name == n then [r.raw] else [] {
      AsksSnoc(reqs, r, n);
    }
    assert forall n :: n != r.name ==> Asks(reqs + [r], n) == Asks(reqs, n);
    assert forall i :: 0 <= i < |items| && !Names(items[i], r.name) ==> now[i] == was[i];
  }

  /** The text after one requirement whose package item `j` states. */
  lemma TextAfter(
    repo: Repo, owning: bool, s: Progress, owner: Option<Source>, it: Item, asks: seq<string>, was: seq<Item>, j: nat, r: Req)
    requires TendedItems(was) && s.text == Print(was) && j < |was| && Names(was[j], r.name) && Names(it, r.name)
    requires Canonical(it) && Whole(it) && was[j] == NextItem(repo, owning, owner, it, asks)
    requires Readable(r.raw, r.name) && forall raw :: raw in asks ==> Readable(raw, r.name)
    requires Known(Get(s.pkg, r.name), Get(s.src, r.name)) == KnownAfter(repo, owning, Some(EntryOf(it)), owner, asks)
    ensures Step(repo, owning, s, r).text == Print(was[j := NextItem(repo, owning, owner, it, asks + [r.raw])])
  {
    hide ParseReq, Strip, Find, ReplaceWholeLine, ReplaceBlock, Print, NextItem, KnownAfter;
    var now, next := was[j], NextItem(repo, owning, owner, it, asks + [r.raw]);
    ItemIsKnown(repo, owning, owner, it, asks);
    NextItemSnoc(repo, owning, owner, it, asks, r.raw);
    assert was[j := now] == was;
    var e := s.pkg[r.name];
    match VerdictOn(repo, owning, s.pkg, s.src, r)
    case Refresh =>
      if now.Marker? {
        assert "" + HEAD + now.src == HEAD + now.src && "" + HEAD + Strip(now.src) == HEAD + Strip(now.src);
        assert ItemLines(now) == e.block;
        assert ItemLines(next) == Block(e.existingSrc, e.spec, r.raw, repo.origin);
        ReplaceMarkerAt(was, j, next);
      } else {
        OnlyLine(was, j, e.spec);
        ReplaceAbsentBlock(s.text, e.block, Block(e.existingSrc, e.spec, r.raw, repo.origin));
      }
    case Rewrite =>
      ReadsBack(now);
      ReplaceLineAt(was, j, e.spec, Plain(r.raw));
    case Dispute =>
      var m := Marker("", "existing", e.spec, r.raw, repo.origin);
      assert "" + HEAD + "existing" == HEAD + "existing";
      assert ItemLines(m) == Block("existing", e.spec, r.raw, repo.origin);
      ReadsBack(now);
      ReplaceLineAt(was, j, e.spec, m);
    case _ =>
  }

  lemma ReadsBack(it: Item)
    requires it.Plain? && ReqOf(it).Some?
    ensures ParseReq(ReqOf(it).value.raw) == ReqOf(it)
  {
    RawReadsBack(it.line);
  }

  /** The specification known of a package no item states is one of its asks. */
  lemma UnstatedIsAsked(repo: Repo, owning: bool, owner: Option<Source>, asks: seq<string>)
    ensures var k := KnownAfter(repo, owning, None, owner, asks);
            && (k.entry.Some? <==> asks != [])
            && (k.entry.Some? ==> k.entry.value.spec in asks)
            && (k.entry.Some? && k.entry.value.ConflictEntry? ==> k.entry.value.block[1] == k.entry.value.spec)
  {
    hide Other;
    if asks != [] {
      assert asks[0] in asks && Last(asks) in asks;
    }
  }

  /** And no requirement of such a package touches the text. */
  lemma TextStays(repo: Repo, owning: bool, s: Progress, owner: Option<Source>, asks: seq<string>, was: seq<Item>, r: Req)
    requires TendedItems(was) && s.text == Print(was) && !Mentions(was, r.name)
    requires forall raw :: raw in asks ==> Readable(raw, r.name)
    requires Known(Get(s.pkg, r.name), Get(s.src, r.name)) == KnownAfter(repo, owning, None, owner, asks)
    ensures Step(repo, owning, s, r).text == s.text
  {
    hide ParseReq, Strip, Find, ReplaceWholeLine, ReplaceBlock, Print, KnownAfter;
    UnstatedIsAsked(repo, owning, owner, asks);
    if r.name in s.pkg {
      var e := s.pkg[r.name];
      assert Readable(e.spec, r.name);
      ForeignLine(was, e.spec);
      ReplaceAbsent(s.text, e.spec, [r.raw]);
      ReplaceAbsent(s.text, e.spec, Block("existing", e.spec, r.raw, repo.origin));
      if e.ConflictEntry? {
        ReplaceAbsentBlock(s.text, e.block, Block(e.existingSrc, e.spec, r.raw, repo.origin));
      }
    }
  }

  /** One requirement touches what is known of its own package only. */
  lemma StepTells(repo: Repo, owning: bool, s: Progress, r: Req)
    ensures var next := Step(repo, owning, s, r);
            && (forall n :: n != r.name ==> Get(next.pkg, n) == Get(s.pkg, n) && Get(next.src, n) == Get(s.src, n))
            && Known(Get(next.pkg, r.name), Get(next.src, r.name)) ==
               Told(repo, owning, Known(Get(s.pkg, r.name), Get(s.src, r.name)), r.raw)
            && next.named == s.named + {r.name}
  {
    hide ReplaceWholeLine, ReplaceBlock, Block;
  }

  lemma StepTracks(repo: Repo, owning: bool, s0: Progress, items: seq<Item>, front: seq<Req>, s: Progress, r: Req)
    requires TendedItems(items) && MarkerFree(front + [r]) && Tracks(repo, owning, s0, items, front, s)
    ensures Tracks(repo, owning, s0, items, front + [r], Step(repo, owning, s, r))
  {
    hide ParseReq, Contains, Step, TendedItems, Print, KnownAfter, Told, OutItems, Asks;
    var next := Step(repo, owning, s, r);
    TextTracks(repo, owning, s0, items, front, s, r);
    StepTells(repo, owning, s, r);
    forall n
      ensures Known(Get(next.pkg, n), Get(next.src, n)) == KnownOf(repo, owning, s0.src, items, front + [r], n)
      ensures n in next.named <==> Asks(front + [r], n) != []
    {
      AsksSnoc(front, r, n);
      assert Known(Get(s.pkg, n), Get(s.src, n)) == KnownOf(repo, owning, s0.src, items, front, n);
      KnownSnoc(repo, owning, EntryAt(items, n), Get(s0.src, n), Asks(front, n), r.raw);
      assert n != r.name ==> Asks(front + [r], n) == Asks(front, n);
    }
  }

  lemma TextTracks(repo: Repo, owning: bool, s0: Progress, items: seq<Item>, front: seq<Req>, s: Progress, r: Req)
    requires TendedItems(items) && MarkerFree(front + [r]) && Tracks(repo, owning, s0, items, front, s)
    ensures Step(repo, owning, s, r).text == Print(OutItems(repo, owning, s0.src, front + [r], items))
  {
    hide ParseReq, Contains, NextItem, Step, Asks, KnownAfter, Print;
    var was, asks, owner := OutItems(repo, owning, s0.src, front, items), Asks(front, r.name), Get(s0.src, r.name);
    MarkerFreeFront(front, r);
    AsksRead(front, r.name);
    OutItemsTended(repo, owning, s0.src, front, items);
    OutItemsSnoc(repo, owning, s0.src, front, items, r);
    EntryAtMentions(items, r.name);
    assert Known(Get(s.pkg, r.name), Get(s.src, r.name)) == KnownOf(repo, owning, s0.src, items, front, r.name);
    if j :| 0 <= j < |items| && Names(items[j], r.name) {
      EntryAtFinds(items, j, r.name);
      assert forall i :: 0 <= i < |items| && Names(items[i], r.name) ==> i == j;
      TextAfter(repo, owning, s, owner, items[j], asks, was, j, r);
    } else {
      assert !Mentions(was, r.name);
      TextStays(repo, owning, s, owner, asks, was, r);
    }
  }

  lemma MarkerFreeFront(front: seq<Req>, r: Req)
    requires MarkerFree(front + [r])
    ensures MarkerFree(front) && Readable(r.raw, r.name)
  {
    hide ParseReq, Contains;
    var all := front + [r];
    assert forall i :: 0 <= i < |front| ==> front[i] == all[i];
    assert all[|front|] == r;
  }

  lemma {:induction false} Progresses(repo: Repo, owning: bool, s0: Progress, items: seq<Item>, reqs: seq<Req>)
    requires Starts(s0, items) && MarkerFree(reqs)
    ensures Tracks(repo, owning, s0, items, reqs, Steps(repo, owning, s0, reqs))
  {
    hide ParseReq, Contains, Step, TendedItems, Print, MarkerFree;
    if reqs == [] {
      OtherNone();
      assert OutItems(repo, owning, s0.src, reqs, items) == items;
    } else {
      var front, r := reqs[..|reqs| - 1], reqs[|reqs| - 1];
      assert reqs == front + [r];
      MarkerFreeFront(front, r);
      Progresses(repo, owning, s0, items, front);
      StepTracks(repo, owning, s0, items, front, Steps(repo, owning, s0, front), r);
    }
  }
}
