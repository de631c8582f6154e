/** The merged field as a whole: the items the asks leave, the packages added at
    the end, and the verdicts reported in manifest order. */
module MergeTheorems {
  import opened Text
  import opened Requirements
  import opened Replacing
  import opened Merge
  import opened Reconcile
  import opened Order

  /** The first requirement of each package the items do not state, in manifest order. */
  function Fresh(items: seq<Item>, reqs: seq<Req>): seq<Req> {
    if reqs == [] then []
    else
      var front, r := reqs[..|reqs| - 1], reqs[|reqs| - 1];
      Fresh(items, front) + if EntryAt(items, r.name).None? && Asks(front, r.name) == [] then [r] else []
  }

  function Plains(reqs: seq<Req>): seq<Item> {
    seq(|reqs|, i requires 0 <= i < |reqs| => Plain(reqs[i].raw))
  }

  function Raws(reqs: seq<Req>): seq<string> {
    seq(|reqs|, i requires 0 <= i < |reqs| => reqs[i].raw)
  }

  /** The items of the merged field. */
  function FinalItems(repo: Repo, owning: bool, src: Sources, reqs: seq<Req>, items: seq<Item>): seq<Item> {
    var out, news := OutItems(repo, owning, src, reqs, items), Fresh(items, reqs);
    if news == [] then out else StripTailItems(out) + Plains(news)
  }

  predicate DistinctReqs(reqs: seq<Req>) {
    forall i, j :: 0 <= i < j < |reqs| ==> reqs[i].name != reqs[j].name
  }

  /** The package is new, and this is the first thing asked of it. */
  predicate FirstAsk(items: seq<Item>, reqs: seq<Req>, r: Req) {
    EntryAt(items, r.name).None? && Asks(reqs, r.name) != [] && Asks(reqs, r.name)[0] == r.raw
  }

  lemma FirstAskSnoc(items: seq<Item>, front: seq<Req>, r: Req, x: Req)
    ensures FirstAsk(items, front + [r], x) <==>
            FirstAsk(items, front, x) || (x == r && EntryAt(items, r.name).None? && Asks(front, r.name) == [])
  {
    hide EntryAt;
    AsksSnoc(front, r, x.name);
  }

  lemma {:induction false} FreshShape(items: seq<Item>, reqs: seq<Req>)
    ensures DistinctReqs(Fresh(items, reqs))
    ensures forall r :: r in Fresh(items, reqs) <==> FirstAsk(items, reqs, r)
  {
    hide EntryAt, Asks, FirstAsk;
    if reqs == [] {
      NoFirstAsk(items);
    } else {
      var front, r := reqs[..|reqs| - 1], reqs[|reqs| - 1];
      FreshShape(items, front);
      var was, now := Fresh(items, front), Fresh(items, reqs);
      assert front + [r] == reqs;
      forall x ensures x in now <==> FirstAsk(items, reqs, x) {
        FirstAskSnoc(items, front, r, x);
      }
      if |now| > |was| {
        forall i | 0 <= i < |was| ensures was[i].name != r.name {
          assert was[i] in was;
          FirstAskIsAsked(items, front, was[i]);
        }
      }
    }
  }

  lemma NoFirstAsk(items: seq<Item>)
    ensures forall r :: !FirstAsk(items, [], r)
  {
  }

  lemma FirstAskIsAsked(items: seq<Item>, reqs: seq<Req>, r: Req)
    requires FirstAsk(items, reqs, r)
    ensures Asks(reqs, r.name) != []
  {
  }

  lemma {:induction false} PlainsPrint(reqs: seq<Req>)
    ensures Print(Plains(reqs)) == Raws(reqs)
  {
    if reqs != [] {
      var n := |reqs| - 1;
      PlainsPrint(reqs[..n]);
      assert Plains(reqs) == Plains(reqs[..n]) + [Plain(reqs[n].raw)];
      PrintConcat(Plains(reqs[..n]), [Plain(reqs[n].raw)]);
      assert Print([Plain(reqs[n].raw)]) == [reqs[n].raw];
      assert Raws(reqs) == Raws(reqs[..n]) + [reqs[n].raw];
    }
  }

  /* ---- The lists a merge reports ---- */

  /** What each requirement adds to a list, given those before it. */
  function Each<T>(f: (seq<Req>, Req) -> seq<T>, reqs: seq<Req>): seq<T> {
    if reqs == [] then [] else Each(f, reqs[..|reqs| - 1]) + f(reqs[..|reqs| - 1], reqs[|reqs| - 1])
  }

  /** The verdict on a requirement that follows these. */
  function VerdictAfter(repo: Repo, owning: bool, src: Sources, items: seq<Item>, front: seq<Req>, r: Req): Verdict {
    var k := KnownOf(repo, owning, src, items, front, r.name);
    Judge(owning, repo.key, k.entry, k.owner, r.raw)
  }

  function AdoptedBy(repo: Repo, owning: bool, src: Sources, items: seq<Item>): (seq<Req>, Req) -> seq<string> {
    (front: seq<Req>, r: Req) => if VerdictAfter(repo, owning, src, items, front, r) == Adopt then [r.name] else []
  }

  function UpdatedBy(repo: Repo, owning: bool, src: Sources, items: seq<Item>): (seq<Req>, Req) -> seq<Update> {
    (front: seq<Req>, r: Req) =>
      if VerdictAfter(repo, owning, src, items, front, r) == Rewrite
      then [Update(r.name, KnownOf(repo, owning, src, items, front, r.name).entry.value.spec, r.raw)] else []
  }

  function ReportedBy(repo: Repo, owning: bool, src: Sources, items: seq<Item>): (seq<Req>, Req) -> seq<Conflict> {
    (front: seq<Req>, r: Req) =>
      var verdict, e := VerdictAfter(repo, owning, src, items, front, r), KnownOf(repo, owning, src, items, front, r.name).entry;
      if verdict == Refresh then [Conflict(r.name, e.value.spec, e.value.existingSrc, r.raw, repo.origin)]
      else if verdict == Dispute then [Conflict(r.name, e.value.spec, "existing", r.raw, repo.origin)]
      else []
  }

  ghost predicate Lists(repo: Repo, owning: bool, src: Sources, items: seq<Item>, reqs: seq<Req>, s: Progress) {
    && s.added == Raws(Fresh(items, reqs))
    && s.adopted == Each(AdoptedBy(repo, owning, src, items), reqs)
    && s.updated == Each(UpdatedBy(repo, owning, src, items), reqs)
    && s.conflicts == Each(ReportedBy(repo, owning, src, items), reqs)
  }

  /** What one requirement adds to the reported lists. */
  lemma StepReports(repo: Repo, owning: bool, s: Progress, items: seq<Item>, src: Sources, front: seq<Req>, r: Req)
    requires Known(Get(s.pkg, r.name), Get(s.src, r.name)) == KnownOf(repo, owning, src, items, front, r.name)
    ensures var next := Step(repo, owning, s, r);
            && next.added == s.added + (if Get(s.pkg, r.name).None? then [r.raw] else [])
            && next.adopted == s.adopted + AdoptedBy(repo, owning, src, items)(front, r)
            && next.updated == s.updated + UpdatedBy(repo, owning, src, items)(front, r)
            && next.conflicts == s.conflicts + ReportedBy(repo, owning, src, items)(front, r)
  {
    hide KnownOf, ReplaceWholeLine, ReplaceBlock;
    assert VerdictOn(repo, owning, s.pkg, s.src, r) == VerdictAfter(repo, owning, src, items, front, r);
  }

  lemma EachSnoc<T>(f: (seq<Req>, Req) -> seq<T>, front: seq<Req>, r: Req)
    ensures Each(f, front + [r]) == Each(f, front) + f(front, r)
  {
    assert (front + [r])[..|front|] == front;
  }

  lemma FreshSnoc(items: seq<Item>, front: seq<Req>, r: Req)
    ensures Raws(Fresh(items, front + [r])) ==
            Raws(Fresh(items, front)) + if EntryAt(items, r.name).None? && Asks(front, r.name) == [] then [r.raw] else []
  {
    assert (front + [r])[..|front|] == front;
  }

  /** A package is known exactly when the field states it, or it was asked for. */
  lemma KnownIff(repo: Repo, owning: bool, src: Sources, items: seq<Item>, reqs: seq<Req>, name: string)
    ensures KnownOf(repo, owning, src, items, reqs, name).entry.None? <==>
            EntryAt(items, name).None? && Asks(reqs, name) == []
  {
    hide Asks, EntryAt, Other;
  }

  lemma {:induction false} ListsFollow(repo: Repo, owning: bool, s0: Progress, items: seq<Item>, reqs: seq<Req>)
    requires Starts(s0, items) && MarkerFree(reqs)
    ensures Lists(repo, owning, s0.src, items, reqs, Steps(repo, owning, s0, reqs))
  {
    hide MarkerFree, Step, KnownOf, AdoptedBy, UpdatedBy, ReportedBy;
    if reqs != [] {
      var front, r := reqs[..|reqs| - 1], reqs[|reqs| - 1];
      assert reqs == front + [r];
      MarkerFreeFront(front, r);
      ListsFollow(repo, owning, s0, items, front);
      Progresses(repo, owning, s0, items, front);
      var s := Steps(repo, owning, s0, front);
      assert Known(Get(s.pkg, r.name), Get(s.src, r.name)) == KnownOf(repo, owning, s0.src, items, front, r.name);
      KnownIff(repo, owning, s0.src, items, front, r.name);
      StepReports(repo, owning, s, items, s0.src, front, r);
      assert Steps(repo, owning, s0, reqs) == Step(repo, owning, s, r);
      FreshSnoc(items, front, r);
      EachSnoc(AdoptedBy(repo, owning, s0.src, items), front, r);
      EachSnoc(UpdatedBy(repo, owning, s0.src, items), front, r);
      EachSnoc(ReportedBy(repo, owning, s0.src, items), front, r);
    }
  }

  /* ---- The merged field ---- */

  function OwnerAfter(repo: Repo, owning: bool, src: Sources, items: seq<Item>, reqs: seq<Req>, name: string)
    : Option<Source>
  {
    KnownOf(repo, owning, src, items, reqs, name).owner
  }

  /** What a merge of a tended field is: the items its asks leave, the
      owners they claim, and the verdicts reported in manifest order. */
  ghost predicate Reconciled(text: Lines, reqs: seq<Req>, repo: Repo, sources: Option<Sources>, r: Result) {
    var items, owning := Segments(text), Owning(repo, sources);
    var src := if sources.Some? then sources.value else map[];
    && Segments(r.content) == FinalItems(repo, owning, src, reqs, items)
    && TendedItems(FinalItems(repo, owning, src, reqs, items))
    && r.added == Raws(Fresh(items, reqs))
    && r.adopted == Each(AdoptedBy(repo, owning, src, items), reqs)
    && r.updated == Each(UpdatedBy(repo, owning, src, items), reqs)
    && r.conflicts == Each(ReportedBy(repo, owning, src, items), reqs)
    && Ascending(r.removed)
    && (forall n :: n in r.removed <==> owning && Asks(reqs, n) == [] && n in src && src[n].repo == repo.key)
    && r.sources.Some? == sources.Some?
    && (sources.Some? ==> forall n :: Get(r.sources.value, n) == OwnerAfter(repo, owning, src, items, reqs, n))
  }

  lemma TendedConcat(a: seq<Item>, b: seq<Item>)
    requires TendedItems(a) && TendedItems(b)
    requires forall i, j :: 0 <= i < |a| && 0 <= j < |b| && ReqOf(b[j]).Some? ==> !Names(a[i], ReqOf(b[j]).value.name)
    ensures TendedItems(a + b)
  {
  }

  lemma PlainsTended(reqs: seq<Req>)
    requires MarkerFree(reqs) && DistinctReqs(reqs)
    ensures TendedItems(Plains(reqs))
  {
  }

  lemma FreshAreNew(items: seq<Item>, reqs: seq<Req>)
    requires MarkerFree(reqs)
    ensures MarkerFree(Fresh(items, reqs)) && DistinctReqs(Fresh(items, reqs))
    ensures forall k :: 0 <= k < |Fresh(items, reqs)| ==> !Mentions(items, Fresh(items, reqs)[k].name)
  {
    hide ParseReq, Contains;
    var news := Fresh(items, reqs);
    FreshShape(items, reqs);
    forall k | 0 <= k < |news|
      ensures ParseReq(news[k].raw) == Some(news[k]) && !Contains(news[k].raw, HEAD)
      ensures !Mentions(items, news[k].name)
    {
      var r := news[k];
      assert r in news;
      AsksRead(reqs, r.name);
      assert Readable(Asks(reqs, r.name)[0], r.name);
      EntryAtMentions(items, r.name);
    }
  }

  lemma FinalItemsTended(repo: Repo, owning: bool, src: Sources, reqs: seq<Req>, items: seq<Item>)
    requires TendedItems(items) && MarkerFree(reqs)
    ensures TendedItems(FinalItems(repo, owning, src, reqs, items))
  {
    hide ParseReq, Contains;
    var out, news := OutItems(repo, owning, src, reqs, items), Fresh(items, reqs);
    OutItemsTended(repo, owning, src, reqs, items);
    FreshAreNew(items, reqs);
    PlainsTended(news);
    StripTailShape(out);
    var kept := StripTailItems(out);
    assert forall i :: 0 <= i < |kept| ==> kept[i] == out[i];
    assert TendedItems(kept);
    forall i, j | 0 <= i < |kept| && 0 <= j < |news|
      ensures !Names(kept[i], news[j].name)
    {
      assert !Names(items[i], news[j].name);
    }
    assert forall j :: 0 <= j < |news| ==> ReqOf(Plains(news)[j]) == Some(news[j]);
    TendedConcat(kept, Plains(news));
  }

  lemma FinalItemsPrint(repo: Repo, owning: bool, src: Sources, reqs: seq<Req>, items: seq<Item>)
    ensures var out, news := OutItems(repo, owning, src, reqs, items), Fresh(items, reqs);
            Print(FinalItems(repo, owning, src, reqs, items)) ==
            if Raws(news) != [] then StripTail(Print(out)) + Raws(news) else Print(out)
  {
    var out, news := OutItems(repo, owning, src, reqs, items), Fresh(items, reqs);
    StripTailPrints(out);
    PlainsPrint(news);
    PrintConcat(StripTailItems(out), Plains(news));
  }

  lemma StartStarts(text: Lines, sources: Option<Sources>)
    requires Tended(text)
    ensures Starts(Start(text, sources), Segments(text))
  {
    SegmentsPrintBack(text);
    forall n ensures Get(PkgMap(text), n) == EntryAt(Segments(text), n) {
      PkgMapIsItems(text, n);
    }
  }

  lemma RemovedAre(repo: Repo, owning: bool, src: Sources, items: seq<Item>, reqs: seq<Req>, name: string)
    requires Asks(reqs, name) == []
    ensures OwnerAfter(repo, owning, src, items, reqs, name) == Get(src, name)
  {
  }

  lemma MergeReconciles(text: Lines, incoming: Lines, repo: Repo, sources: Option<Sources>)
    requires Tended(text) && MarkerFree(Reqs(incoming))
    ensures Reconciled(text, Reqs(incoming), repo, sources, Merged(text, incoming, repo, sources))
  {
    hide KnownOf, MarkerFree, TendedItems, FinalItems, Print, Segments;
    var items, owning, reqs := Segments(text), Owning(repo, sources), Reqs(incoming);
    var s0, r := Start(text, sources), Merged(text, incoming, repo, sources);
    StartStarts(text, sources);
    ListsFollow(repo, owning, s0, items, reqs);
    Progresses(repo, owning, s0, items, reqs);
    var s := Steps(repo, owning, s0, reqs);
    forall n
      ensures Get(s.src, n) == OwnerAfter(repo, owning, s0.src, items, reqs, n)
      ensures n in r.removed <==> owning && Asks(reqs, n) == [] && n in s0.src && s0.src[n].repo == repo.key
    {
      assert Known(Get(s.pkg, n), Get(s.src, n)) == KnownOf(repo, owning, s0.src, items, reqs, n);
      assert n in s.named <==> Asks(reqs, n) != [];
      if Asks(reqs, n) == [] {
        RemovedAre(repo, owning, s0.src, items, reqs, n);
      }
    }
    assert Segments(r.content) == FinalItems(repo, owning, s0.src, reqs, items)
           && TendedItems(FinalItems(repo, owning, s0.src, reqs, items)) by {
      FinalItemsTended(repo, owning, s0.src, reqs, items);
      FinalItemsPrint(repo, owning, s0.src, reqs, items);
      TendedParsesBack(FinalItems(repo, owning, s0.src, reqs, items));
    }
  }

  lemma TendedParsesBack(items: seq<Item>)
    requires TendedItems(items)
    ensures Segments(Print(items)) == items
  {
    PrintParsesBack(items);
  }
}
