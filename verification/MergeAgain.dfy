/** Merging the same manifest again, and what is reported against what is detected. */
module MergeAgain {
  import opened Text
  import opened Requirements
  import opened Replacing
  import opened Merge
  import opened Reconcile
  import opened MergeTheorems
  import opened MergePromises

  /* ---- A second time ---- */

  /** What its asks leave of an item, the same asks leave as it is. */
  lemma NextSettles(repo: Repo, owning: bool, owner: Option<Source>, it: Item, asks: seq<string>)
    requires ReqOf(it).Some? && Canonical(it) && Whole(it)
    requires forall raw :: raw in asks ==> Readable(raw, ReqOf(it).value.name)
    ensures var next := NextItem(repo, owning, owner, it, asks);
            var later := KnownAfter(repo, owning, Some(EntryOf(it)), owner, asks).owner;
            ReqOf(next).Some? && NextItem(repo, owning, later, next, asks) == next
  {
    hide ParseReq, Find, Strip, Other, Block;
    var spec := ReqOf(it).value.raw;
    NextItemTended(repo, owning, owner, it, asks);
    OtherNone();
    StripExisting();
    OtherIs(asks, spec);
    if it.Marker? {
      StripIdempotent(it.src);
    }
    assert asks != [] ==> Last(asks) in asks && Readable(Last(asks), ReqOf(it).value.name);
  }

  /** A new package is asked for in the same way first and last; without
      provenance, in one way only. */
  predicate Steady(owning: bool, items: seq<Item>, reqs: seq<Req>, name: string) {
    var asks := Asks(reqs, name);
    EntryAt(items, name).None? && asks != [] ==>
      if owning then Last(asks) == asks[0] else Other(asks, asks[0]).None?
  }

  lemma AddedSettles(repo: Repo, owning: bool, owner: Option<Source>, asks: seq<string>, name: string)
    requires asks != [] && Readable(asks[0], name)
    ensures var later := KnownAfter(repo, owning, None, owner, asks).owner;
            var it := Plain(asks[0]);
            ReqOf(it).Some? &&
            (NextItem(repo, owning, later, it, asks) == it <==>
             if owning then Last(asks) == asks[0] else Other(asks, asks[0]).None?)
  {
    hide ParseReq, Find, Strip, Other, Block;
    OtherIs(asks, asks[0]);
    assert Last(asks) in asks;
  }

  /** An item of the merged field is a fixed point of the asks, but for a new package that is not steady. */
  lemma FinalItemSettles(repo: Repo, owning: bool, src: Sources, later: Sources, reqs: seq<Req>, items: seq<Item>, i: nat)
    requires TendedItems(items) && MarkerFree(reqs) && i < |FinalItems(repo, owning, src, reqs, items)|
    requires forall n :: Get(later, n) == OwnerAfter(repo, owning, src, items, reqs, n)
    ensures var it := FinalItems(repo, owning, src, reqs, items)[i];
            OutItem(repo, owning, later, reqs, it) == it <==>
            (ReqOf(it).Some? ==> Steady(owning, items, reqs, ReqOf(it).value.name))
  {
    hide ParseReq, Find, Strip, NextItem, EntryOf, KnownAfter, TendedItems, Asks, EntryAt;
    var final, news := FinalItems(repo, owning, src, reqs, items), Fresh(items, reqs);
    var out := OutItems(repo, owning, src, reqs, items);
    OutItemsTended(repo, owning, src, reqs, items);
    StripTailShape(out);
    if news == [] || i < |StripTailItems(out)| {
      assert final[i] == out[i] == OutItem(repo, owning, src, reqs, items[i]);
      if ReqOf(items[i]).Some? {
        StatedSettles(repo, owning, src, later, reqs, items, i);
      }
    } else {
      var k := i - |StripTailItems(out)|;
      assert final[i] == Plain(news[k].raw) && news[k] in news;
      FreshShape(items, reqs);
      var Req(name, raw) := news[k];
      AsksRead(reqs, name);
      assert Readable(raw, name);
      assert ReqOf(final[i]) == Some(news[k]);
      AddedSettles(repo, owning, Get(src, name), Asks(reqs, name), name);
      assert Get(later, name) == OwnerAfter(repo, owning, src, items, reqs, name);
    }
  }

  lemma StatedSettles(repo: Repo, owning: bool, src: Sources, later: Sources, reqs: seq<Req>, items: seq<Item>, i: nat)
    requires TendedItems(items) && MarkerFree(reqs) && i < |items| && ReqOf(items[i]).Some?
    requires forall n :: Get(later, n) == OwnerAfter(repo, owning, src, items, reqs, n)
    ensures var it := OutItem(repo, owning, src, reqs, items[i]);
            && ReqOf(it).Some? && ReqOf(it).value.name == ReqOf(items[i]).value.name
            && OutItem(repo, owning, later, reqs, it) == it && EntryAt(items, ReqOf(it).value.name).Some?
  {
    hide ParseReq, Find, Strip, NextItem, EntryOf, KnownAfter, Asks, EntryAt;
    var name := ReqOf(items[i]).value.name;
    AsksRead(reqs, name);
    EntryAtFinds(items, i, name);
    NextItemTended(repo, owning, Get(src, name), items[i], Asks(reqs, name));
    NextSettles(repo, owning, Get(src, name), items[i], Asks(reqs, name));
    assert Get(later, name) == OwnerAfter(repo, owning, src, items, reqs, name);
  }

  /** What a package's asks make of its owner and its entry, they make no more of,
      but for an update that they make again. */
  lemma PackageSettles(repo: Repo, owning: bool, src: Sources, text: Lines, reqs: seq<Req>, name: string)
    requires Tended(text) && MarkerFree(reqs)
    ensures var asks, items := Asks(reqs, name), Segments(text);
            var entry, later := EntryAfter(repo, owning, src, text, reqs, name), OwnerAfter(repo, owning, src, items, reqs, name);
            && (entry.None? ==> asks == [])
            && KnownAfter(repo, owning, entry, later, asks).owner == later
            && !(owning && later.None? && asks != [] && entry == Some(CleanEntry(asks[0])))
            && (HeldBy(repo, owning, entry, later, asks) && DiffersFrom(entry, asks) <==>
                Restless(repo, owning, src, text, reqs, name))
  {
    hide Segments, Block, Other, Asks, EntryAt;
    var asks, first := Asks(reqs, name), Stated(Segments(text), reqs, name);
    OtherNone();
    if asks != [] {
      OtherIs(asks, first.value);
      assert Last(asks) in asks && asks[0] in asks;
    }
  }

  /** The package is the repository's, and asked for in another way than the merged field states. */
  predicate Restless(repo: Repo, owning: bool, src: Sources, text: Lines, reqs: seq<Req>, name: string) {
    && Held(repo, owning, src, Segments(text), reqs, name)
    && Other(Asks(reqs, name), EntryAfter(repo, owning, src, text, reqs, name).value.spec).Some?
  }

  lemma UnownedStays(repo: Repo, entry: Option<Entry>, asks: seq<string>)
    ensures KnownAfter(repo, false, entry, None, asks).owner == None
  {
  }

  /** The owner a merge leaves, in provenance mode or not. */
  lemma OwnerLeft(text: Lines, incoming: Lines, repo: Repo, sources: Option<Sources>, name: string)
    requires Mergeable(text, incoming)
    ensures var r := Merged(text, incoming, repo, sources);
            && r.sources.Some? == sources.Some?
            && Get(Given(r.sources), name) ==
               OwnerAfter(repo, Owning(repo, sources), Given(sources), Segments(text), Reqs(incoming), name)
  {
    hide Segments, Merged, KnownAfter, EntryAt, FinalItems, Each, Asks;
    MergedEntry(text, incoming, repo, sources, name);
    UnownedStays(repo, EntryAt(Segments(text), name), Asks(Reqs(incoming), name));
  }

  lemma SameMap<V>(a: map<string, V>, b: map<string, V>)
    requires forall n :: Get(a, n) == Get(b, n)
    ensures a == b
  {
    assert forall n :: n in a <==> Get(a, n).Some?;
    assert forall n :: n in b <==> Get(b, n).Some?;
    assert forall n :: n in a ==> a[n] == Get(a, n).value;
  }

  /** A second merge leaves the owners, and adds and adopts nothing. */
  lemma OwnersSettle(text: Lines, incoming: Lines, repo: Repo, sources: Option<Sources>)
    requires Mergeable(text, incoming)
    ensures var first := Merged(text, incoming, repo, sources);
            var second := Merged(first.content, incoming, repo, first.sources);
            && Mergeable(first.content, incoming)
            && second.sources == first.sources && second.adopted == []
            && (second.updated == [] <==>
                forall n :: !Restless(repo, Owning(repo, sources), Given(sources), text, Reqs(incoming), n))
  {
    hide ParseReq, Find, Strip, Segments, Merged, EntryAt, EntryAfter, OwnerAfter, Held, Differs, Restless, Asks, KnownAfter;
    var reqs, owning, src := Reqs(incoming), Owning(repo, sources), Given(sources);
    var first := Merged(text, incoming, repo, sources);
    var second := Merged(first.content, incoming, repo, first.sources);
    PackageAgain(text, incoming, repo, sources, "");
    forall n
      ensures Get(Given(second.sources), n) == Get(Given(first.sources), n)
      ensures !NamesAdopted(second.adopted, n)
      ensures NamesUpdate(second.updated, n) <==> Restless(repo, owning, src, text, reqs, n)
    {
      PackageAgain(text, incoming, repo, sources, n);
    }
    SameMap(Given(second.sources), Given(first.sources));
    assert second.adopted != [] ==> NamesAdopted(second.adopted, second.adopted[0]);
    assert second.updated != [] ==> NamesUpdate(second.updated, second.updated[0].name);
  }

  lemma PackageAgain(text: Lines, incoming: Lines, repo: Repo, sources: Option<Sources>, name: string)
    requires Mergeable(text, incoming)
    ensures var first := Merged(text, incoming, repo, sources);
            var second := Merged(first.content, incoming, repo, first.sources);
            && Mergeable(first.content, incoming)
            && first.sources.Some? == sources.Some? && second.sources.Some? == sources.Some?
            && Get(Given(second.sources), name) == Get(Given(first.sources), name)
            && !NamesAdopted(second.adopted, name)
            && (NamesUpdate(second.updated, name) <==>
                Restless(repo, Owning(repo, sources), Given(sources), text, Reqs(incoming), name))
  {
    hide ParseReq, Find, Strip, Segments, Merged, EntryAt, EntryAfter, HeldBy, DiffersFrom, Restless, Asks, KnownAfter;
    var first := Merged(text, incoming, repo, sources);
    MergedEntry(text, incoming, repo, sources, name);
    MergedEntry(first.content, incoming, repo, first.sources, name);
    OwnerLeft(text, incoming, repo, sources, name);
    OwnerLeft(first.content, incoming, repo, first.sources, name);
    PackageSettles(repo, Owning(repo, sources), Given(sources), text, Reqs(incoming), name);
    assert Owning(repo, first.sources) == Owning(repo, sources);
  }

  lemma NoneFresh(items: seq<Item>, reqs: seq<Req>)
    requires forall n :: Asks(reqs, n) != [] ==> EntryAt(items, n).Some?
    ensures Fresh(items, reqs) == []
  {
    var news := Fresh(items, reqs);
    assert news != [] ==> exists r :: r in news by {
      if news != [] {
        assert news[0] in news;
      }
    }
    FreshShape(items, reqs);
  }

  lemma NothingNew(text: Lines, incoming: Lines, repo: Repo, sources: Option<Sources>)
    requires Mergeable(text, incoming)
    ensures Fresh(Segments(Merged(text, incoming, repo, sources).content), Reqs(incoming)) == []
  {
    hide ParseReq, Find, Strip, Segments, Merged, EntryAt, EntryAfter, OwnerAfter, Held, Differs, Asks, KnownAfter;
    var first, reqs := Merged(text, incoming, repo, sources), Reqs(incoming);
    forall n ensures Asks(reqs, n) != [] ==> EntryAt(Segments(first.content), n).Some? {
      MergedEntry(text, incoming, repo, sources, n);
      PackageSettles(repo, Owning(repo, sources), Given(sources), text, reqs, n);
    }
    NoneFresh(Segments(first.content), reqs);
  }

  /** All the packages of a merged field are steady exactly when all of the manifest's are. */
  lemma SteadyItems(repo: Repo, owning: bool, src: Sources, items: seq<Item>, reqs: seq<Req>)
    requires TendedItems(items) && MarkerFree(reqs)
    ensures var final := FinalItems(repo, owning, src, reqs, items);
            (forall i :: 0 <= i < |final| && ReqOf(final[i]).Some? ==> Steady(owning, items, reqs, ReqOf(final[i]).value.name))
            <==> forall n :: Steady(owning, items, reqs, n)
  {
    hide ParseReq, Find, Strip, FinalItems, EntryAt;
    var final := FinalItems(repo, owning, src, reqs, items);
    if n :| !Steady(owning, items, reqs, n) {
      PackagesUnion(repo, owning, src, reqs, items, n);
      assert Mentions(final, n);
    }
  }

  lemma FieldIs(text: Lines, incoming: Lines, repo: Repo, sources: Option<Sources>)
    requires Mergeable(text, incoming)
    ensures var r, items, reqs := Merged(text, incoming, repo, sources), Segments(text), Reqs(incoming);
            && Mergeable(r.content, incoming)
            && Segments(r.content) == FinalItems(repo, Owning(repo, sources), Given(sources), reqs, items)
            && r.added == Raws(Fresh(items, reqs)) && r.sources.Some? == sources.Some?
  {
    hide Segments, Merged, FinalItems, TendedItems, Each, OwnerAfter;
    MergeReconciles(text, incoming, repo, sources);
  }

  lemma ContentSettles(text: Lines, incoming: Lines, repo: Repo, sources: Option<Sources>)
    requires Mergeable(text, incoming)
    ensures var first := Merged(text, incoming, repo, sources);
            var second := Merged(first.content, incoming, repo, first.sources);
            && second.added == []
            && (second.content == first.content <==>
                forall n :: Steady(Owning(repo, sources), Segments(text), Reqs(incoming), n))
  {
    hide ParseReq, Find, Strip, Segments, Merged, OutItem, OwnerAfter, Steady, Asks, TendedItems;
    var reqs, owning, src, items := Reqs(incoming), Owning(repo, sources), Given(sources), Segments(text);
    var first := Merged(text, incoming, repo, sources);
    var second := Merged(first.content, incoming, repo, first.sources);
    FieldIs(text, incoming, repo, sources);
    FieldIs(first.content, incoming, repo, first.sources);
    NothingNew(text, incoming, repo, sources);
    assert Raws([]) == [];
    var final, later := Segments(first.content), Given(first.sources);
    forall n ensures Get(later, n) == OwnerAfter(repo, owning, src, items, reqs, n) {
      OwnerLeft(text, incoming, repo, sources, n);
    }
    assert Segments(second.content) == OutItems(repo, owning, later, reqs, final);
    ItemsSettle(repo, owning, src, later, reqs, items);
    SegmentsPrintBack(first.content);
    SegmentsPrintBack(second.content);
  }

  lemma ItemsSettle(repo: Repo, owning: bool, src: Sources, later: Sources, reqs: seq<Req>, items: seq<Item>)
    requires TendedItems(items) && MarkerFree(reqs)
    requires forall n :: Get(later, n) == OwnerAfter(repo, owning, src, items, reqs, n)
    ensures var final := FinalItems(repo, owning, src, reqs, items);
            OutItems(repo, owning, later, reqs, final) == final <==> forall n :: Steady(owning, items, reqs, n)
  {
    hide ParseReq, Find, Strip, OutItem, OwnerAfter, Steady, Asks, TendedItems, MarkerFree, FinalItems;
    var final := FinalItems(repo, owning, src, reqs, items);
    var again := OutItems(repo, owning, later, reqs, final);
    forall i | 0 <= i < |final|
      ensures again[i] == final[i] <==>
              (ReqOf(final[i]).Some? ==> Steady(owning, items, reqs, ReqOf(final[i]).value.name))
    {
      FinalItemSettles(repo, owning, src, later, reqs, items, i);
    }
    SteadyItems(repo, owning, src, items, reqs);
  }

  /** Merging a manifest into its own result never changes owners, and adds and
      adopts nothing. It changes no text exactly when every new package is
      steady, and updates nothing exactly when no package is restless. */
  lemma MergeAgainChangesNothing(text: Lines, incoming: Lines, repo: Repo, sources: Option<Sources>)
    requires Mergeable(text, incoming)
    ensures var first := Merged(text, incoming, repo, sources);
            var second := Merged(first.content, incoming, repo, first.sources);
            var reqs, owning := Reqs(incoming), Owning(repo, sources);
            && second.sources == first.sources && second.added == [] && second.adopted == []
            && (second.content == first.content <==> forall n :: Steady(owning, Segments(text), reqs, n))
            && (second.updated == [] <==> forall n :: !Restless(repo, owning, Given(sources), text, reqs, n))
  {
    hide Merged, Segments, Steady, Restless;
    OwnersSettle(text, incoming, repo, sources);
    ContentSettles(text, incoming, repo, sources);
  }

  /* ---- Reported, marked, detected ---- */

  /** The conflict as `detect_pip_conflicts` words it. */
  function AsDetected(c: Conflict): Conflict {
    c.(incomingSource := Strip(c.incomingSource))
  }

  /** A marker the merge writes is detected with the two sides it was given. */
  lemma WrittenFound(src: string, line: string, raw: string, origin: string)
    requires ParseReq(line).Some? && ParseReq(raw) == Some(Req(ParseReq(line).value.name, raw))
    ensures var Req(name, spec) := ParseReq(line).value;
            Found(Marker("", src, spec, raw, origin)) == [Conflict(name, spec, Strip(src), raw, Strip(origin))]
  {
    RawReadsBack(line);
    RawReadsBack(raw);
  }

  /** What is detected of an item some ask of which differs, when it is a marker after. */
  lemma NextFound(repo: Repo, owning: bool, owner: Option<Source>, it: Item, asks: seq<string>)
    requires ReqOf(it).Some? && Canonical(it) && Whole(it)
    requires forall raw :: raw in asks ==> Readable(raw, ReqOf(it).value.name)
    requires Other(asks, ReqOf(it).value.raw).Some? && NextItem(repo, owning, owner, it, asks).Marker?
    ensures var Req(name, spec) := ReqOf(it).value;
            Found(NextItem(repo, owning, owner, it, asks)) ==
            [Conflict(name, spec, SideOf(Some(EntryOf(it))), Other(asks, spec).value, Strip(repo.origin))]
  {
    hide ParseReq, Find, Strip, Found, Other;
    var spec := ReqOf(it).value.raw;
    OtherIs(asks, spec);
    var raw := Other(asks, spec).value;
    assert Readable(raw, ReqOf(it).value.name);
    StripExisting();
    match it
    case Plain(line) =>
      WrittenFound("existing", line, raw, repo.origin);
    case Marker(_, existingSrc, existing, _, _) =>
      StripIdempotent(existingSrc);
      WrittenFound(Strip(existingSrc), Strip(existing), raw, repo.origin);
  }

  /** Of a package that is in conflict after, exactly one conflict is detected: its marker's. */
  lemma DetectedOf(items: seq<Item>, j: nat, c: Conflict)
    requires TendedItems(items) && j < |items| && Names(items[j], c.name)
    ensures c in Detected(items) <==> c in Found(items[j])
  {
    hide ParseReq, Find, Strip;
    DetectedIn(items, c);
    assert items[j] in items;
    if it :| it in items && c in Found(it) {
      var i :| 0 <= i < |items| && items[i] == it;
      assert i == j;
    }
  }

  /** A reported conflict is found in the field, with the same two sides, exactly when its
      package was in conflict already or its line is in the field, and its ask is the last that differs. */
  lemma ReportsAreDetected(text: Lines, incoming: Lines, repo: Repo, sources: Option<Sources>, c: Conflict)
    requires Mergeable(text, incoming) && c in Merged(text, incoming, repo, sources).conflicts
    ensures AsDetected(c) in Detected(Segments(Merged(text, incoming, repo, sources).content)) <==>
            && (InConflict(Segments(text), c.name) || c.existing in text)
            && Some(c.incoming) == Other(Asks(Reqs(incoming), c.name), c.existing)
  {
    hide ParseReq, Find, Strip, Merged, FinalItems, Segments, Each, Detected, Held, Other, OutItem, EntryAt, Found, EntryAfter;
    var r, reqs, owning := Merged(text, incoming, repo, sources), Reqs(incoming), Owning(repo, sources);
    var items, final, src := Segments(text), Segments(r.content), Given(sources);
    MergeReconciles(text, incoming, repo, sources);
    ReportSays(repo, owning, src, items, reqs, c);
    if EntryAt(items, c.name).None? {
      NewNotDetected(text, incoming, repo, sources, c);
    } else {
      var j := WhereNamed(items, c.name);
      Landing(repo, owning, src, reqs, items, j);
      DetectedOf(final, j, AsDetected(c));
      ReportLands(repo, owning, src, reqs, text, j, c);
    }
  }

  lemma NewNotDetected(text: Lines, incoming: Lines, repo: Repo, sources: Option<Sources>, c: Conflict)
    requires Mergeable(text, incoming) && EntryAt(Segments(text), c.name).None?
    requires Asks(Reqs(incoming), c.name) != [] && c.existing == Asks(Reqs(incoming), c.name)[0]
    ensures AsDetected(c) !in Detected(Segments(Merged(text, incoming, repo, sources).content))
    ensures c.existing !in text
  {
    hide ParseReq, Find, Strip, Merged, Segments, Detected, OwnerAfter, Held, Differs;
    var r := Merged(text, incoming, repo, sources);
    MergedEntry(text, incoming, repo, sources, c.name);
    UnstatedIsAbsent(text, Reqs(incoming), c.name);
    ShowsIsInConflict(r.content, c.name);
    assert AsDetected(c) in Detected(Segments(r.content)) ==> Shows(r.content, c.name);
  }

  lemma ReportLands(repo: Repo, owning: bool, src: Sources, reqs: seq<Req>, text: Lines, j: nat, c: Conflict)
    requires Tended(text) && MarkerFree(reqs) && j < |Segments(text)| && Names(Segments(text)[j], c.name)
    requires Stated(Segments(text), reqs, c.name) == Some(c.existing)
    requires c.existingSource == SideOf(EntryAt(Segments(text), c.name)) && c.incomingSource == repo.origin
    requires !Held(repo, owning, src, Segments(text), reqs, c.name) && Differs(Segments(text), reqs, c.name)
    ensures AsDetected(c) in Found(OutItem(repo, owning, src, reqs, Segments(text)[j])) <==>
            && (InConflict(Segments(text), c.name) || c.existing in text)
            && Some(c.incoming) == Other(Asks(reqs, c.name), c.existing)
  {
    hide ParseReq, Find, Strip, Segments, Other;
    var it, asks := Segments(text)[j], Asks(reqs, c.name);
    EntryAtFinds(Segments(text), j, c.name);
    AsksRead(reqs, c.name);
    var next := NextItem(repo, owning, Get(src, c.name), it, asks);
    if it.Plain? {
      WholeLineIsTidy(text, j);
    }
    if next.Marker? {
      NextFound(repo, owning, Get(src, c.name), it, asks);
    }
  }

  lemma {:induction false} HeadInMarker(items: seq<Item>, k: nat)
    requires AllCanonical(items) && k < |Print(items)| && Contains(Print(items)[k], HEAD)
    ensures exists it :: it in items && it.Marker?
  {
    if k < |ItemLines(items[0])| {
      assert items[0] in items;
    } else {
      HeadInMarker(items[1..], k - |ItemLines(items[0])|);
      assert forall it :: it in items[1..] ==> it in items;
    }
  }

  /** When no line but a marker's first holds the head of one, and every marker
      states a requirement, the deploy gate is closed exactly when a conflict can be detected. */
  lemma GateIsDetection(text: Lines)
    requires AllCanonical(Segments(text))
    requires forall i :: 0 <= i < |Segments(text)| && Segments(text)[i].Marker? ==> ReqOf(Segments(text)[i]).Some?
    ensures HasPipConflicts(text) <==> Detected(Segments(text)) != []
  {
    hide ParseReq, Find, Segments;
    DetectedClosesGate(text);
    var items := Segments(text);
    SegmentsPrintBack(text);
    if HasPipConflicts(text) {
      var k :| 0 <= k < |text| && Contains(text[k], HEAD);
      HeadInMarker(items, k);
      var it :| it in items && it.Marker?;
      DetectedIn(items, Found(it)[0]);
    }
  }
}
