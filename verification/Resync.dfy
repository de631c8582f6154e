/** A whole resync: every repository's manifest merged in turn, the text and the
    owners of one merge handed to the next, as a deploy does. */
module Resync {
  import opened Text
  import opened Requirements
  import opened Replacing
  import opened Merge
  import opened Reconcile
  import opened MergeTheorems
  import opened MergePromises
  import opened MergeAgain
  import MergeLimits

  datatype Manifest = Manifest(repo: Repo, lines: Lines)

  ghost function Resynced(text: Lines, sources: Sources, manifests: seq<Manifest>): (Lines, Sources)
    decreases manifests
  {
    if manifests == [] then (text, sources)
    else
      var r := Merged(text, manifests[0].lines, manifests[0].repo, Some(sources));
      Resynced(r.content, Given(r.sources), manifests[1..])
  }

  /** All a manifest asks of a package. */
  function AsksOf(m: Manifest, name: string): seq<string> {
    Asks(Reqs(m.lines), name)
  }

  predicate AllMarkerFree(manifests: seq<Manifest>) {
    forall i :: 0 <= i < |manifests| ==> MarkerFree(Reqs(manifests[i].lines))
  }

  /* ---- What a chain never loses ---- */

  /** No manifest asks first for exactly this line of the package, which would adopt it. */
  predicate NeverMatched(manifests: seq<Manifest>, name: string, spec: string) {
    forall i :: 0 <= i < |manifests| ==>
      AsksOf(manifests[i], name) != [] ==> AsksOf(manifests[i], name)[0] != spec
  }

  /** One merge keeps what a line nobody owns states, and gives it no owner, unless it asks first for just that line. */
  lemma UnownedSurvives(text: Lines, lines: Lines, repo: Repo, sources: Sources, name: string)
    requires Mergeable(text, lines) && name !in sources && EntryAt(Segments(text), name).Some?
    requires var asks := Asks(Reqs(lines), name); asks != [] ==> asks[0] != EntryAt(Segments(text), name).value.spec
    ensures var r := Merged(text, lines, repo, Some(sources));
            var was, now := EntryAt(Segments(text), name), EntryAt(Segments(r.content), name);
            && Tended(r.content) && r.sources.Some? && name !in r.sources.value
            && now.Some? && now.value.spec == was.value.spec
  {
    hide ParseReq, Find, Strip, Segments, Merged, EntryAt, Asks, Other, Held, Differs;
    var asks := Asks(Reqs(lines), name);
    MergedEntry(text, lines, repo, Some(sources), name);
    OtherNone();
    OtherIs(asks, EntryAt(Segments(text), name).value.spec);
  }

  /** Whatever repositories are merged, in whatever order and however often, the
      operator's line is never overwritten: the field states it still, on its own
      or as the existing side of a marker, until some manifest asks first for that very line. */
  lemma {:induction false} OperatorLineSurvives(text: Lines, sources: Sources, manifests: seq<Manifest>, name: string)
    requires Tended(text) && AllMarkerFree(manifests) && name !in sources && EntryAt(Segments(text), name).Some?
    requires NeverMatched(manifests, name, EntryAt(Segments(text), name).value.spec)
    ensures var (last, owners) := Resynced(text, sources, manifests);
            && Tended(last) && name !in owners
            && EntryAt(Segments(last), name).Some?
            && EntryAt(Segments(last), name).value.spec == EntryAt(Segments(text), name).value.spec
    decreases manifests
  {
    hide ParseReq, Find, Strip, Segments, Merged, EntryAt, MarkerFree, Asks, TendedItems;
    if manifests != [] {
      var m := manifests[0];
      assert MarkerFree(Reqs(m.lines));
      UnownedSurvives(text, m.lines, m.repo, sources, name);
      var r := Merged(text, m.lines, m.repo, Some(sources));
      OperatorLineSurvives(r.content, r.sources.value, manifests[1..], name);
    }
  }

  predicate AskedSomewhere(manifests: seq<Manifest>, name: string) {
    exists i :: 0 <= i < |manifests| && AsksOf(manifests[i], name) != []
  }

  /** And no package is ever lost: all those of the field and of every manifest are there. */
  lemma {:induction false} PackagesSurvive(text: Lines, sources: Sources, manifests: seq<Manifest>, name: string)
    requires Tended(text) && AllMarkerFree(manifests)
    ensures var last := Resynced(text, sources, manifests).0;
            && Tended(last)
            && (Mentions(Segments(last), name) <==> Mentions(Segments(text), name) || AskedSomewhere(manifests, name))
    decreases manifests
  {
    hide ParseReq, Find, Strip, Segments, Merged, MarkerFree, Asks, TendedItems, Mentions;
    if manifests != [] {
      var m, rest := manifests[0], manifests[1..];
      assert MarkerFree(Reqs(m.lines));
      NothingLost(text, m.lines, m.repo, Some(sources));
      var r := Merged(text, m.lines, m.repo, Some(sources));
      PackagesSurvive(r.content, Given(r.sources), rest, name);
      assert forall i :: 0 <= i < |rest| ==> rest[i] == manifests[i + 1];
      if i :| 0 <= i < |rest| && AsksOf(rest[i], name) != [] {
        assert AsksOf(manifests[i + 1], name) != [];
      }
      if i :| 0 <= i < |manifests| && AsksOf(manifests[i], name) != [] {
        assert i > 0 ==> AsksOf(rest[i - 1], name) != [];
      }
    }
  }

  /* ---- A chain, package by package ---- */

  /** What field and owners say of a package: its entry, whether that is a line that stands whole, and its owner. */
  datatype Package = Package(entry: Option<Entry>, owner: Option<Source>, whole: bool)

  function PackageOf(text: Lines, sources: Sources, name: string): Package {
    var entry := EntryAt(Segments(text), name);
    Package(entry, Get(sources, name), StandsWhole(text, entry))
  }

  /** What one manifest makes of a package, from its own asks alone. */
  function Turn(m: Manifest, p: Package, name: string): Package {
    var owning, asks := m.repo.key != "", AsksOf(m, name);
    var entry := EntryNext(m.repo, owning, p.entry, p.owner, p.whole, asks);
    Package(entry, KnownAfter(m.repo, owning, p.entry, p.owner, asks).owner,
            entry.Some? && entry.value.CleanEntry? && (p.entry.None? || p.whole))
  }

  function Turns(manifests: seq<Manifest>, p: Package, name: string): Package
    decreases manifests
  {
    if manifests == [] then p else Turns(manifests[1..], Turn(manifests[0], p, name), name)
  }

  /** A line stands whole after a merge when it did before, or is new. */
  lemma WholeAfter(text: Lines, incoming: Lines, repo: Repo, sources: Option<Sources>, name: string)
    requires Mergeable(text, incoming)
    ensures var r := Merged(text, incoming, repo, sources);
            var was, now := EntryAt(Segments(text), name), EntryAt(Segments(r.content), name);
            Tended(r.content) &&
            (now.Some? && now.value.CleanEntry? ==>
               (now.value.spec in r.content <==> was.None? || StandsWhole(text, was)))
  {
    hide ParseReq, Find, Strip, Segments, Merged, EntryAt, OutItem, FinalItems, Asks;
    var r, reqs := Merged(text, incoming, repo, sources), Reqs(incoming);
    FieldIs(text, incoming, repo, sources);
    var items, final := Segments(text), Segments(r.content);
    if EntryAt(final, name).Some? && EntryAt(final, name).value.CleanEntry? {
      var j := WhereNamed(final, name);
      WholeLineIsTidy(r.content, j);
      if EntryAt(items, name).Some? {
        var i := WhereNamed(items, name);
        Landing(repo, Owning(repo, sources), Given(sources), reqs, items, i);
        assert i == j;
        OutTidy(repo, Owning(repo, sources), Given(sources), reqs, items[i]);
        if items[i].Plain? {
          WholeLineIsTidy(text, i);
        }
      } else {
        AddedTidy(repo, Owning(repo, sources), Given(sources), reqs, items, j, name);
      }
    }
  }

  /** An item that is a clean line after its asks was one before, tidy if it is. */
  lemma OutTidy(repo: Repo, owning: bool, src: Sources, reqs: seq<Req>, it: Item)
    requires MarkerFree(reqs) && ReqOf(it).Some? && Canonical(it) && Whole(it)
    ensures var now := OutItem(repo, owning, src, reqs, it);
            now.Plain? ==> it.Plain? && (Tidy(now) <==> Tidy(it)) && (!Tidy(it) ==> now == it)
  {
    hide ParseReq, Find, Strip, Other, Asks;
    var Req(name, spec) := ReqOf(it).value;
    var asks := Asks(reqs, name);
    AsksRead(reqs, name);
    OtherNone();
    assert asks != [] ==> Last(asks) in asks && Readable(Last(asks), name);
  }

  lemma AddedTidy(repo: Repo, owning: bool, src: Sources, reqs: seq<Req>, items: seq<Item>, j: nat, name: string)
    requires TendedItems(items) && MarkerFree(reqs) && EntryAt(items, name).None?
    requires j < |FinalItems(repo, owning, src, reqs, items)| && Names(FinalItems(repo, owning, src, reqs, items)[j], name)
    ensures Tidy(FinalItems(repo, owning, src, reqs, items)[j])
  {
    hide OutItems, StripTailItems, Names, Tidy, EntryAt, Asks, MarkerFree, TendedItems, Fresh;
    var out, news := OutItems(repo, owning, src, reqs, items), Fresh(items, reqs);
    OutItemsMention(repo, owning, src, reqs, items, name);
    EntryAtMentions(out, name);
    EntryAtMentions(StripTailItems(out), name);
    FreshAreNew(items, reqs);
    FreshReads(news, j - |StripTailItems(out)|);
  }

  lemma FreshReads(news: seq<Req>, k: nat)
    requires MarkerFree(news) && k < |news|
    ensures Tidy(Plain(news[k].raw))
  {
  }

  /** One merge of the chain gives each package its turn. */
  lemma OneTurn(text: Lines, sources: Sources, m: Manifest, name: string)
    requires Mergeable(text, m.lines)
    ensures var r := Merged(text, m.lines, m.repo, Some(sources));
            && Tended(r.content)
            && PackageOf(r.content, Given(r.sources), name) == Turn(m, PackageOf(text, sources, name), name)
  {
    hide ParseReq, Find, Strip, Segments, Merged, EntryAt, EntryNext, KnownAfter, Asks, Held, Differs;
    MergedEntry(text, m.lines, m.repo, Some(sources), name);
    WholeAfter(text, m.lines, m.repo, Some(sources), name);
  }

  /** A chain makes of each package what its manifests' asks make of it in turn:
      packages never meddle with one another. */
  lemma {:induction false} ChainIsTurns(text: Lines, sources: Sources, manifests: seq<Manifest>, name: string)
    requires Tended(text) && AllMarkerFree(manifests)
    ensures var (last, owners) := Resynced(text, sources, manifests);
            && Tended(last)
            && PackageOf(last, owners, name) == Turns(manifests, PackageOf(text, sources, name), name)
    decreases manifests
  {
    hide ParseReq, Find, Strip, Segments, Merged, EntryAt, MarkerFree, TendedItems, Turn, PackageOf;
    if manifests != [] {
      var m := manifests[0];
      assert MarkerFree(Reqs(m.lines));
      OneTurn(text, sources, m, name);
      var r := Merged(text, m.lines, m.repo, Some(sources));
      ChainIsTurns(r.content, Given(r.sources), manifests[1..], name);
    }
  }

  /* ---- A chain that changes nothing ---- */

  /** Item by item: what states nothing is the same, and what is an untidy line, before or after, is the same. */
  predicate ItemWise(was: seq<Item>, now: seq<Item>) {
    && |was| == |now|
    && forall i :: 0 <= i < |was| ==>
         if ReqOf(was[i]).None? then now[i] == was[i]
         else
           && ReqOf(now[i]).Some? && ReqOf(now[i]).value.name == ReqOf(was[i]).value.name
           && (now[i].Plain? && !Tidy(now[i]) ==> now[i] == was[i])
           && (was[i].Plain? && !Tidy(was[i]) ==> now[i] == was[i])
  }

  lemma LinkIsItemWise(text: Lines, sources: Sources, m: Manifest)
    requires Mergeable(text, m.lines)
    requires forall n :: AsksOf(m, n) != [] ==> Mentions(Segments(text), n)
    ensures var r := Merged(text, m.lines, m.repo, Some(sources));
            Tended(r.content) && ItemWise(Segments(text), Segments(r.content))
  {
    hide ParseReq, Find, Strip, Segments, Merged, OutItem, Asks, MarkerFree, EntryAt, Tidy;
    var r, items, reqs := Merged(text, m.lines, m.repo, Some(sources)), Segments(text), Reqs(m.lines);
    var owning := Owning(m.repo, Some(sources));
    FieldIs(text, m.lines, m.repo, Some(sources));
    forall n ensures Asks(reqs, n) != [] ==> EntryAt(items, n).Some? {
      EntryAtMentions(items, n);
    }
    NoneFresh(items, reqs);
    OutItemsTended(m.repo, owning, sources, reqs, items);
    forall i | 0 <= i < |items|
      ensures var now := Segments(r.content)[i];
              if ReqOf(items[i]).None? then now == items[i]
              else (now.Plain? && !Tidy(now) ==> now == items[i]) && (items[i].Plain? && !Tidy(items[i]) ==> now == items[i])
    {
      OutKeeps(m.repo, owning, sources, reqs, items[i]);
    }
  }

  lemma OutKeeps(repo: Repo, owning: bool, src: Sources, reqs: seq<Req>, it: Item)
    requires MarkerFree(reqs) && Canonical(it) && Whole(it)
    ensures var now := OutItem(repo, owning, src, reqs, it);
            if ReqOf(it).None? then now == it
            else (now.Plain? && !Tidy(now) ==> now == it) && (it.Plain? && !Tidy(it) ==> now == it)
  {
    hide ParseReq, Find, Strip, Other, Asks;
    if ReqOf(it).Some? {
      OutTidy(repo, owning, src, reqs, it);
    }
  }

  lemma {:induction false} ChainIsItemWise(text: Lines, sources: Sources, manifests: seq<Manifest>)
    requires Tended(text) && AllMarkerFree(manifests)
    requires forall n :: AskedSomewhere(manifests, n) ==> Mentions(Segments(text), n)
    ensures var last := Resynced(text, sources, manifests).0;
            Tended(last) && ItemWise(Segments(text), Segments(last))
    decreases manifests
  {
    hide ParseReq, Find, Strip, Segments, Merged, MarkerFree, TendedItems, Asks, Mentions, Tidy, ReqOf;
    if manifests != [] {
      var m, rest := manifests[0], manifests[1..];
      assert MarkerFree(Reqs(m.lines));
      var r := Merged(text, m.lines, m.repo, Some(sources));
      forall n ensures AsksOf(m, n) != [] ==> Mentions(Segments(text), n) {
        assert AsksOf(manifests[0], n) != [] ==> AskedSomewhere(manifests, n);
      }
      LinkIsItemWise(text, sources, m);
      forall n ensures AskedSomewhere(rest, n) ==> Mentions(Segments(r.content), n) {
        if i :| 0 <= i < |rest| && AsksOf(rest[i], n) != [] {
          assert AsksOf(manifests[i + 1], n) != [];
          NothingLost(text, m.lines, m.repo, Some(sources));
        }
      }
      ChainIsItemWise(r.content, Given(r.sources), rest);
    }
  }

  /** Items that are alike, of fields that state the same of every package, are the same. */
  lemma SameItems(was: seq<Item>, now: seq<Item>)
    requires TendedItems(was) && TendedItems(now) && ItemWise(was, now)
    requires forall n :: EntryAt(was, n) == EntryAt(now, n)
    ensures was == now
  {
    hide ParseReq, Find, Strip, EntryAt;
    forall i | 0 <= i < |was| ensures was[i] == now[i] {
      if ReqOf(was[i]).Some? {
        var name := ReqOf(was[i]).value.name;
        EntryAtFinds(was, i, name);
        EntryAtFinds(now, i, name);
        SameEntryItem(was[i], now[i]);
      }
    }
  }

  lemma SameEntryItem(a: Item, b: Item)
    requires ReqOf(a).Some? && ReqOf(b).Some? && EntryOf(a) == EntryOf(b) && Canonical(a) && Canonical(b)
    requires a.Plain? && b.Plain? ==> a == b || (Tidy(a) && Tidy(b))
    ensures a == b
  {
    hide ParseReq, Find, Strip;
    if a.Marker? {
      var x, y := Block(a.src, a.existing, a.incoming, a.origin), Block(b.src, b.existing, b.incoming, b.origin);
      assert x[0][|HEAD|..] == a.src && y[0][|HEAD|..] == b.src;
      assert x[1] == a.existing && y[1] == b.existing && x[3] == a.incoming && y[3] == b.incoming;
      assert x[4][|TAIL|..] == a.origin && y[4][|TAIL|..] == b.origin;
    }
  }

  /** Every package's turns, one manifest after another, end where they began. */
  ghost predicate Returns(text: Lines, sources: Sources, manifests: seq<Manifest>) {
    forall n :: Turns(manifests, PackageOf(text, sources, n), n) == PackageOf(text, sources, n)
  }

  /** A chain changes neither text nor owners exactly when every package's turns
      end where they began: it may change a line on the way, if it changes it back. */
  lemma ChainChangesNothingIff(text: Lines, sources: Sources, manifests: seq<Manifest>)
    requires Tended(text) && AllMarkerFree(manifests)
    ensures Resynced(text, sources, manifests) == (text, sources) <==> Returns(text, sources, manifests)
  {
    hide ParseReq, Find, Strip, Segments, MarkerFree, TendedItems, EntryAt, Turns, Resynced, ItemWise, Mentions, AskedSomewhere;
    var (last, owners) := Resynced(text, sources, manifests);
    forall n ensures Turns(manifests, PackageOf(text, sources, n), n) == PackageOf(last, owners, n) {
      ChainIsTurns(text, sources, manifests, n);
    }
    if Returns(text, sources, manifests) {
      forall n
        ensures EntryAt(Segments(last), n) == EntryAt(Segments(text), n) && Get(owners, n) == Get(sources, n)
        ensures Tended(last) && (AskedSomewhere(manifests, n) ==> Mentions(Segments(text), n))
      {
        assert PackageOf(last, owners, n) == PackageOf(text, sources, n);
        PackagesSurvive(text, sources, manifests, n);
        EntryAtMentions(Segments(text), n);
        EntryAtMentions(Segments(last), n);
      }
      SameMap(owners, sources);
      ChainIsItemWise(text, sources, manifests);
      SameItems(Segments(text), Segments(last));
      SegmentsPrintBack(text);
      SegmentsPrintBack(last);
    }
  }
}
