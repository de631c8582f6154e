/** The promises of the merge, over every tended field, every manifest without
    markers, packages named once or many times, every repository and every provenance map. */
module MergePromises {
  import opened Text
  import opened Requirements
  import opened Replacing
  import opened Merge
  import opened Reconcile
  import opened MergeTheorems
  import Order

  predicate Mergeable(text: Lines, incoming: Lines) {
    Tended(text) && MarkerFree(Reqs(incoming))
  }

  function Given(sources: Option<Sources>): Sources {
    if sources.Some? then sources.value else map[]
  }

  /* ---- What the asks amount to ---- */

  /** What the field states of a package, or else what was asked of it first. */
  function FirstOf(entry: Option<Entry>, asks: seq<string>): Option<string> {
    if entry.Some? then Some(entry.value.spec) else if asks != [] then Some(asks[0]) else None
  }

  /** The package is the merging repository's: new, or stated in a line of its own. */
  predicate HeldBy(repo: Repo, owning: bool, entry: Option<Entry>, owner: Option<Source>, asks: seq<string>) {
    && owning && asks != []
    && match entry
       case None => true
       case Some(CleanEntry(spec)) => Yields(repo, owning, owner, spec, asks)
       case Some(ConflictEntry(_, _, _)) => false
  }

  predicate DiffersFrom(entry: Option<Entry>, asks: seq<string>) {
    asks != [] && Other(asks, FirstOf(entry, asks).value).Some?
  }

  predicate Held(repo: Repo, owning: bool, src: Sources, items: seq<Item>, reqs: seq<Req>, name: string) {
    HeldBy(repo, owning, EntryAt(items, name), Get(src, name), Asks(reqs, name))
  }

  /** Some ask is not what the field states of the package, nor, for a new one, the first ask. */
  predicate Differs(items: seq<Item>, reqs: seq<Req>, name: string) {
    DiffersFrom(EntryAt(items, name), Asks(reqs, name))
  }

  function Stated(items: seq<Item>, reqs: seq<Req>, name: string): Option<string> {
    FirstOf(EntryAt(items, name), Asks(reqs, name))
  }

  /** What a conflict reported of the package names as the existing side's source. */
  function SideOf(entry: Option<Entry>): string {
    if entry.Some? && entry.value.ConflictEntry? then entry.value.existingSrc else "existing"
  }

  /** A requirement is a rewrite, or a conflict, as it is the first ask to differ or one after it. */
  lemma VerdictIs(repo: Repo, owning: bool, entry: Option<Entry>, owner: Option<Source>, asks: seq<string>, raw: string)
    ensures var k, all := KnownAfter(repo, owning, entry, owner, asks), asks + [raw];
            var verdict := Judge(owning, repo.key, k.entry, k.owner, raw);
            var held, differs := HeldBy(repo, owning, entry, owner, all), DiffersFrom(entry, all);
            && (held && differs <==> (HeldBy(repo, owning, entry, owner, asks) && DiffersFrom(entry, asks)) || verdict == Rewrite)
            && (!held && differs <==>
                  (!HeldBy(repo, owning, entry, owner, asks) && DiffersFrom(entry, asks)) || verdict in {Refresh, Dispute})
            && (verdict in {Refresh, Dispute} ==>
                  && Some(k.entry.value.spec) == FirstOf(entry, all) && raw != k.entry.value.spec
                  && SideOf(entry) == if verdict == Refresh then k.entry.value.existingSrc else "existing")
            && (verdict == Adopt <==> owning && asks == [] && owner.None? && entry == Some(CleanEntry(raw)))
  {
    hide Block, Other;
    if asks == [] {
      OtherNone();
      assert [] + [raw] == [raw];
      OtherSnoc([], raw, if entry.Some? then entry.value.spec else raw);
    } else {
      var first := FirstOf(entry, asks).value;
      assert (asks + [raw])[0] == asks[0];
      OtherSnoc(asks, raw, first);
      OtherIs(asks, first);
      assert Last(asks) in asks && asks[0] in asks;
    }
  }

  predicate NamesUpdate(updated: seq<Update>, name: string) {
    exists k :: 0 <= k < |updated| && updated[k].name == name
  }

  predicate NamesConflict(conflicts: seq<Conflict>, name: string) {
    exists k :: 0 <= k < |conflicts| && conflicts[k].name == name
  }

  /** Whether a list grown by at most one has such an element. */
  lemma EitherHas<T>(list: seq<T>, more: seq<T>, p: T -> bool)
    requires |more| <= 1
    ensures (exists k :: 0 <= k < |list + more| && p((list + more)[k])) <==>
            (exists k :: 0 <= k < |list| && p(list[k])) || (more != [] && p(more[0]))
  {
    var all := list + more;
    assert forall k :: 0 <= k < |list| ==> all[k] == list[k];
    if more != [] {
      assert all[|list|] == more[0];
    }
  }

  lemma UpdateStep(repo: Repo, owning: bool, src: Sources, items: seq<Item>, front: seq<Req>, r: Req, name: string)
    ensures var more := UpdatedBy(repo, owning, src, items)(front, r);
            var k := KnownAfter(repo, owning, EntryAt(items, name), Get(src, name), Asks(front, name));
            && |more| <= 1
            && (more != [] && more[0].name == name <==>
                r.name == name && Judge(owning, repo.key, k.entry, k.owner, r.raw) == Rewrite)
  {
    hide KnownAfter, EntryAt, Asks;
  }

  /** A package is updated exactly when it is the repository's and an ask differs. */
  lemma {:induction false} UpdatesAre(repo: Repo, owning: bool, src: Sources, items: seq<Item>, reqs: seq<Req>, name: string)
    ensures NamesUpdate(Each(UpdatedBy(repo, owning, src, items), reqs), name) <==>
            Held(repo, owning, src, items, reqs, name) && Differs(items, reqs, name)
  {
    hide KnownAfter, EntryAt, HeldBy, DiffersFrom, Asks, UpdatedBy;
    AsksNone(name);
    if reqs == [] {
      NoAsks(repo, owning, EntryAt(items, name), Get(src, name));
    } else {
      var front, r, f := reqs[..|reqs| - 1], reqs[|reqs| - 1], UpdatedBy(repo, owning, src, items);
      UpdatesAre(repo, owning, src, items, front, name);
      VerdictIs(repo, owning, EntryAt(items, name), Get(src, name), Asks(front, name), r.raw);
      UpdateStep(repo, owning, src, items, front, r, name);
      EitherHas(Each(f, front), f(front, r), (u: Update) => u.name == name);
      assert reqs == front + [r];
      AsksSnoc(front, r, name);
      assert r.name != name ==> Asks(reqs, name) == Asks(front, name);
    }
  }

  predicate NamesAdopted(adopted: seq<string>, name: string) {
    exists k :: 0 <= k < |adopted| && adopted[k] == name
  }

  /** Nobody owns the line, and the first ask is that very line. */
  predicate Adopts(owning: bool, src: Sources, items: seq<Item>, reqs: seq<Req>, name: string) {
    var asks := Asks(reqs, name);
    owning && name !in src && asks != [] && EntryAt(items, name) == Some(CleanEntry(asks[0]))
  }

  lemma AdoptStep(repo: Repo, owning: bool, src: Sources, items: seq<Item>, front: seq<Req>, r: Req, name: string)
    ensures var more := AdoptedBy(repo, owning, src, items)(front, r);
            var k := KnownAfter(repo, owning, EntryAt(items, name), Get(src, name), Asks(front, name));
            && |more| <= 1
            && (more != [] && more[0] == name <==>
                r.name == name && Judge(owning, repo.key, k.entry, k.owner, r.raw) == Adopt)
  {
    hide KnownAfter, EntryAt, Asks;
  }

  lemma {:induction false} AdoptionsAre(repo: Repo, owning: bool, src: Sources, items: seq<Item>, reqs: seq<Req>, name: string)
    ensures NamesAdopted(Each(AdoptedBy(repo, owning, src, items), reqs), name) <==> Adopts(owning, src, items, reqs, name)
  {
    hide KnownAfter, EntryAt, HeldBy, DiffersFrom, Asks, AdoptedBy;
    AsksNone(name);
    if reqs == [] {
    } else {
      var front, r, f := reqs[..|reqs| - 1], reqs[|reqs| - 1], AdoptedBy(repo, owning, src, items);
      AdoptionsAre(repo, owning, src, items, front, name);
      VerdictIs(repo, owning, EntryAt(items, name), Get(src, name), Asks(front, name), r.raw);
      AdoptStep(repo, owning, src, items, front, r, name);
      EitherHas(Each(f, front), f(front, r), (n: string) => n == name);
      assert reqs == front + [r];
      AsksSnoc(front, r, name);
      assert r.name != name ==> Asks(reqs, name) == Asks(front, name);
    }
  }

  lemma NoAsks(repo: Repo, owning: bool, entry: Option<Entry>, owner: Option<Source>)
    ensures !HeldBy(repo, owning, entry, owner, []) && !DiffersFrom(entry, [])
  {
  }

  lemma ReportStep(repo: Repo, owning: bool, src: Sources, items: seq<Item>, front: seq<Req>, r: Req, name: string)
    ensures var more := ReportedBy(repo, owning, src, items)(front, r);
            var k := KnownAfter(repo, owning, EntryAt(items, name), Get(src, name), Asks(front, name));
            && |more| <= 1
            && (more != [] && more[0].name == name <==>
                r.name == name && Judge(owning, repo.key, k.entry, k.owner, r.raw) in {Refresh, Dispute})
  {
    hide KnownAfter, EntryAt, Asks;
  }

  /** It is reported in conflict exactly when an ask differs and it is not. */
  lemma {:induction false} ReportsAre(repo: Repo, owning: bool, src: Sources, items: seq<Item>, reqs: seq<Req>, name: string)
    ensures NamesConflict(Each(ReportedBy(repo, owning, src, items), reqs), name) <==>
            !Held(repo, owning, src, items, reqs, name) && Differs(items, reqs, name)
  {
    hide KnownAfter, EntryAt, HeldBy, DiffersFrom, Asks, ReportedBy;
    AsksNone(name);
    if reqs == [] {
      NoAsks(repo, owning, EntryAt(items, name), Get(src, name));
    } else {
      var front, r, f := reqs[..|reqs| - 1], reqs[|reqs| - 1], ReportedBy(repo, owning, src, items);
      ReportsAre(repo, owning, src, items, front, name);
      VerdictIs(repo, owning, EntryAt(items, name), Get(src, name), Asks(front, name), r.raw);
      ReportStep(repo, owning, src, items, front, r, name);
      EitherHas(Each(f, front), f(front, r), (c: Conflict) => c.name == name);
      assert reqs == front + [r];
      AsksSnoc(front, r, name);
      assert r.name != name ==> Asks(reqs, name) == Asks(front, name);
    }
  }

  /** Every conflict is reported with what the field states, where it came from, and an ask that differs. */
  lemma {:induction false} ReportSays(repo: Repo, owning: bool, src: Sources, items: seq<Item>, reqs: seq<Req>, c: Conflict)
    requires c in Each(ReportedBy(repo, owning, src, items), reqs)
    ensures Stated(items, reqs, c.name) == Some(c.existing) && c.existingSource == SideOf(EntryAt(items, c.name))
    ensures c.incoming in Asks(reqs, c.name) && c.incoming != c.existing && c.incomingSource == repo.origin
    ensures !Held(repo, owning, src, items, reqs, c.name) && Differs(items, reqs, c.name)
  {
    hide KnownAfter, EntryAt, HeldBy, DiffersFrom;
    var front, r, f := reqs[..|reqs| - 1], reqs[|reqs| - 1], ReportedBy(repo, owning, src, items);
    VerdictIs(repo, owning, EntryAt(items, c.name), Get(src, c.name), Asks(front, c.name), r.raw);
    assert Asks(reqs, c.name) == Asks(front, c.name) + if r.name == c.name then [r.raw] else [];
    assert r.name != c.name ==> Asks(reqs, c.name) == Asks(front, c.name);
    if c in Each(f, front) {
      ReportSays(repo, owning, src, items, front, c);
      assert Asks(front, c.name) != [];
      assert Asks(reqs, c.name)[0] == Asks(front, c.name)[0];
    } else {
      assert c in f(front, r);
      assert Asks(reqs, c.name) == Asks(front, c.name) + [r.raw];
    }
  }

  /* ---- The lists, in manifest order ---- */

  /** Which requirement an element of a list is from. */
  function From<T>(f: (seq<Req>, Req) -> seq<T>, reqs: seq<Req>, i: nat): nat
    requires i < |Each(f, reqs)|
  {
    var front := reqs[..|reqs| - 1];
    if i < |Each(f, front)| then From(f, front, i) else |reqs| - 1
  }

  lemma {:induction false} FromIs<T>(f: (seq<Req>, Req) -> seq<T>, reqs: seq<Req>, i: nat)
    requires i < |Each(f, reqs)|
    ensures var p := From(f, reqs, i); p < |reqs| && Each(f, reqs)[i] in f(reqs[..p], reqs[p])
  {
    var front := reqs[..|reqs| - 1];
    if i < |Each(f, front)| {
      FromIs(f, front, i);
      var p := From(f, front, i);
      assert front[..p] == reqs[..p] && front[p] == reqs[p];
    }
  }

  lemma {:induction false} FromAscends<T>(f: (seq<Req>, Req) -> seq<T>, reqs: seq<Req>, i: nat, j: nat)
    requires i < j < |Each(f, reqs)| && forall front, r :: |f(front, r)| <= 1
    ensures From(f, reqs, i) < From(f, reqs, j)
  {
    var front := reqs[..|reqs| - 1];
    assert |f(front, reqs[|reqs| - 1])| <= 1;
    if j < |Each(f, front)| {
      FromAscends(f, front, i, j);
    } else {
      FromIs(f, front, i);
    }
  }

  /** Two elements of a list come from two requirements, in the order of the manifest. */
  predicate Follows(reqs: seq<Req>, first: Req, second: Req) {
    exists p, q :: 0 <= p < q < |reqs| && reqs[p] == first && reqs[q] == second
  }

  lemma UpdatesInOrder(repo: Repo, owning: bool, src: Sources, items: seq<Item>, reqs: seq<Req>, i: nat, j: nat)
    requires i < j < |Each(UpdatedBy(repo, owning, src, items), reqs)|
    ensures var updated := Each(UpdatedBy(repo, owning, src, items), reqs);
            Follows(reqs, Req(updated[i].name, updated[i].now), Req(updated[j].name, updated[j].now))
  {
    hide KnownOf, VerdictAfter, Each, From;
    var f := UpdatedBy(repo, owning, src, items);
    FromIs(f, reqs, i);
    FromIs(f, reqs, j);
    FromAscends(f, reqs, i, j);
  }

  lemma ConflictsInOrder(repo: Repo, owning: bool, src: Sources, items: seq<Item>, reqs: seq<Req>, i: nat, j: nat)
    requires i < j < |Each(ReportedBy(repo, owning, src, items), reqs)|
    ensures var conflicts := Each(ReportedBy(repo, owning, src, items), reqs);
            Follows(reqs, Req(conflicts[i].name, conflicts[i].incoming), Req(conflicts[j].name, conflicts[j].incoming))
  {
    hide KnownOf, VerdictAfter, Each, From;
    var f := ReportedBy(repo, owning, src, items);
    FromIs(f, reqs, i);
    FromIs(f, reqs, j);
    FromAscends(f, reqs, i, j);
  }

  /** Each list is in the order of the requirements it is about. */
  lemma ListsAreInOrder(text: Lines, incoming: Lines, repo: Repo, sources: Option<Sources>, i: nat, j: nat)
    requires Mergeable(text, incoming) && i < j
    ensures var r, reqs := Merged(text, incoming, repo, sources), Reqs(incoming);
            && (j < |r.updated| ==> Follows(reqs, Req(r.updated[i].name, r.updated[i].now), Req(r.updated[j].name, r.updated[j].now)))
            && (j < |r.conflicts| ==>
                  Follows(reqs, Req(r.conflicts[i].name, r.conflicts[i].incoming), Req(r.conflicts[j].name, r.conflicts[j].incoming)))
  {
    hide ParseReq, Find, Strip, Segments, Merged, FinalItems, Each, OwnerAfter, KnownOf, UpdatedBy, ReportedBy, Follows, TendedItems;
    MergeReconciles(text, incoming, repo, sources);
    var r, reqs := Merged(text, incoming, repo, sources), Reqs(incoming);
    if j < |r.updated| {
      UpdatesInOrder(repo, Owning(repo, sources), Given(sources), Segments(text), reqs, i, j);
    }
    if j < |r.conflicts| {
      ConflictsInOrder(repo, Owning(repo, sources), Given(sources), Segments(text), reqs, i, j);
    }
  }

  lemma {:induction false} FreshInOrder(items: seq<Item>, reqs: seq<Req>, i: nat, j: nat)
    requires i < j < |Fresh(items, reqs)|
    ensures Follows(reqs, Fresh(items, reqs)[i], Fresh(items, reqs)[j])
  {
    hide EntryAt, Asks;
    var front := reqs[..|reqs| - 1];
    if j < |Fresh(items, front)| {
      FreshInOrder(items, front, i, j);
      var p, q :| 0 <= p < q < |front| && front[p] == Fresh(items, front)[i] && front[q] == Fresh(items, front)[j];
      assert reqs[p] == front[p] && reqs[q] == front[q];
    } else {
      FreshIn(items, front, i);
      var p :| 0 <= p < |front| && front[p] == Fresh(items, front)[i];
      assert reqs[p] == front[p] && reqs[|reqs| - 1] == Fresh(items, reqs)[j];
    }
  }

  lemma {:induction false} FreshIn(items: seq<Item>, reqs: seq<Req>, i: nat)
    requires i < |Fresh(items, reqs)|
    ensures exists p :: 0 <= p < |reqs| && reqs[p] == Fresh(items, reqs)[i]
  {
    hide EntryAt, Asks;
    var front := reqs[..|reqs| - 1];
    if i < |Fresh(items, front)| {
      FreshIn(items, front, i);
      var p :| 0 <= p < |front| && front[p] == Fresh(items, front)[i];
      assert reqs[p] == front[p];
    } else {
      assert reqs[|reqs| - 1] == Fresh(items, reqs)[i];
    }
  }

  /** The lines added are the first asks of the packages the field does not state, each once, in manifest order. */
  lemma AddedInOrder(text: Lines, incoming: Lines, repo: Repo, sources: Option<Sources>) returns (news: seq<Req>)
    requires Mergeable(text, incoming)
    ensures var r, items, reqs := Merged(text, incoming, repo, sources), Segments(text), Reqs(incoming);
            && |news| == |r.added| && (forall i :: 0 <= i < |news| ==> news[i].raw == r.added[i])
            && (forall i, j :: 0 <= i < j < |news| ==> Follows(reqs, news[i], news[j]) && news[i].name != news[j].name)
            && (forall n :: (exists i :: 0 <= i < |news| && news[i].name == n) <==> EntryAt(items, n).None? && Asks(reqs, n) != [])
            && (forall i :: 0 <= i < |news| ==> Asks(reqs, news[i].name) != [] && Asks(reqs, news[i].name)[0] == news[i].raw)
  {
    hide ParseReq, Find, Strip, Segments, Merged, FinalItems, Each, OwnerAfter, KnownOf, EntryAt, Asks, Fresh, Follows;
    MergeReconciles(text, incoming, repo, sources);
    var items, reqs := Segments(text), Reqs(incoming);
    news := Fresh(items, reqs);
    FreshShape(items, reqs);
    forall i, j | 0 <= i < j < |news| ensures Follows(reqs, news[i], news[j]) {
      FreshInOrder(items, reqs, i, j);
    }
    forall i | 0 <= i < |news|
      ensures EntryAt(items, news[i].name).None? && Asks(reqs, news[i].name) != [] && Asks(reqs, news[i].name)[0] == news[i].raw
    {
      assert news[i] in news;
    }
    forall n | EntryAt(items, n).None? && Asks(reqs, n) != [] ensures exists i :: 0 <= i < |news| && news[i].name == n {
      assert FirstAsk(items, reqs, Req(n, Asks(reqs, n)[0]));
      assert Req(n, Asks(reqs, n)[0]) in news;
    }
  }

  /* ---- Where an item goes ---- */

  lemma WhereNamed(items: seq<Item>, name: string) returns (j: nat)
    requires EntryAt(items, name).Some?
    ensures j < |items| && Names(items[j], name) && EntryAt(items, name).value == EntryOf(items[j])
  {
    EntryAtMentions(items, name);
    j :| 0 <= j < |items| && Names(items[j], name) && EntryAt(items, name).value == EntryOf(items[j]);
  }

  /** An item that states a package is where it was, as its asks leave it. */
  lemma Landing(repo: Repo, owning: bool, src: Sources, reqs: seq<Req>, items: seq<Item>, j: nat)
    requires TendedItems(items) && MarkerFree(reqs) && j < |items| && ReqOf(items[j]).Some?
    ensures var final := FinalItems(repo, owning, src, reqs, items);
            && j < |final| && final[j] == OutItem(repo, owning, src, reqs, items[j])
            && ReqOf(final[j]).Some? && ReqOf(final[j]).value.name == ReqOf(items[j]).value.name
  {
    hide OutItem;
    var out := OutItems(repo, owning, src, reqs, items);
    OutItemsTended(repo, owning, src, reqs, items);
    StripTailShape(out);
    assert ParseReq("").None?;
    assert out[j] == OutItem(repo, owning, src, reqs, items[j]);
  }

  lemma {:induction false} EntryAtConcat(a: seq<Item>, b: seq<Item>, name: string)
    ensures EntryAt(a + b, name) == if EntryAt(a, name).Some? then EntryAt(a, name) else EntryAt(b, name)
  {
    if a == [] {
      assert a + b == b;
    } else {
      assert (a + b)[0] == a[0] && (a + b)[1..] == a[1..] + b;
      EntryAtConcat(a[1..], b, name);
    }
  }

  /** What the lines added at the end state. */
  lemma AddedEntry(items: seq<Item>, reqs: seq<Req>, name: string)
    requires MarkerFree(reqs)
    ensures EntryAt(Plains(Fresh(items, reqs)), name) ==
            if EntryAt(items, name).None? && Asks(reqs, name) != [] then Some(CleanEntry(Asks(reqs, name)[0])) else None
  {
    hide ParseReq, Contains, Asks;
    var news := Fresh(items, reqs);
    var added := Plains(news);
    FreshShape(items, reqs);
    FreshAreNew(items, reqs);
    PlainsTended(news);
    EntryAtMentions(added, name);
    assert forall k :: 0 <= k < |news| ==> ReqOf(added[k]) == Some(news[k]) && news[k] in news;
    if EntryAt(items, name).None? && Asks(reqs, name) != [] {
      var r := Req(name, Asks(reqs, name)[0]);
      assert r in news;
      var k :| 0 <= k < |news| && news[k] == r;
      EntryAtFinds(added, k, name);
    }
  }

  /** Neither what asks make of an item nor the lines stripped off name another package. */
  lemma OutItemsMention(repo: Repo, owning: bool, src: Sources, reqs: seq<Req>, items: seq<Item>, name: string)
    requires TendedItems(items) && MarkerFree(reqs) && EntryAt(items, name).None?
    ensures var out := OutItems(repo, owning, src, reqs, items);
            EntryAt(out, name).None? && EntryAt(StripTailItems(out), name).None?
  {
    hide OutItem;
    var out := OutItems(repo, owning, src, reqs, items);
    OutItemsTended(repo, owning, src, reqs, items);
    StripTailShape(out);
    EntryAtMentions(items, name);
    EntryAtMentions(out, name);
    EntryAtMentions(StripTailItems(out), name);
  }

  /** What the merged field states of a package it did not state before. */
  lemma NewEntry(repo: Repo, owning: bool, src: Sources, reqs: seq<Req>, items: seq<Item>, name: string)
    requires TendedItems(items) && MarkerFree(reqs) && EntryAt(items, name).None?
    ensures EntryAt(FinalItems(repo, owning, src, reqs, items), name) ==
            if Asks(reqs, name) != [] then Some(CleanEntry(Asks(reqs, name)[0])) else None
  {
    OutItemsMention(repo, owning, src, reqs, items, name);
    AddedEntry(items, reqs, name);
    EntryAtConcat(StripTailItems(OutItems(repo, owning, src, reqs, items)), Plains(Fresh(items, reqs)), name);
  }

  /* ---- Nothing is lost ---- */

  /** What may have become of an item: itself; a marker that still states its
      requirement, with the last ask that differs on the other side; or, when the
      line is the merging repository's, the last it asks for. */
  predicate Survives(repo: Repo, owning: bool, src: Sources, reqs: seq<Req>, was: Item, now: Item) {
    || now == was
    || (ReqOf(was).Some? && ReqOf(now).Some? &&
        var Req(name, spec) := ReqOf(was).value;
        var asks := Asks(reqs, name);
        && ReqOf(now).value.name == name && asks != []
        && if now.Marker? then
             && Some(now.incoming) == Other(asks, spec) && now.origin == repo.origin
             && ReqOf(now).value.raw == spec
             && (was.Plain? ==> now.existing == was.line && !Yields(repo, owning, Get(src, name), spec, asks))
           else was.Plain? && now.line == Last(asks) && Yields(repo, owning, Get(src, name), spec, asks))
  }

  /** When a clean line ends up rewritten, and when in a marker. */
  predicate ChangedIff(repo: Repo, owning: bool, src: Sources, reqs: seq<Req>, was: Item, now: Item) {
    was.Plain? && ReqOf(was).Some? ==>
      var Req(name, spec) := ReqOf(was).value;
      var asks := Asks(reqs, name);
      var ours := Yields(repo, owning, Get(src, name), spec, asks);
      && (now.Plain? && now != was <==> Tidy(was) && ours && Last(asks) != spec)
      && (now.Marker? <==> Tidy(was) && !ours && Other(asks, spec).Some?)
  }

  lemma OutItemSurvives(repo: Repo, owning: bool, src: Sources, reqs: seq<Req>, it: Item)
    requires MarkerFree(reqs) && Canonical(it) && Whole(it)
    ensures Survives(repo, owning, src, reqs, it, OutItem(repo, owning, src, reqs, it))
    ensures ChangedIff(repo, owning, src, reqs, it, OutItem(repo, owning, src, reqs, it))
  {
    hide ParseReq, Find, Strip, Other, Asks;
    if ReqOf(it).Some? {
      var Req(name, spec) := ReqOf(it).value;
      var asks := Asks(reqs, name);
      AsksRead(reqs, name);
      OtherIs(asks, spec);
      OtherNone();
      assert asks != [] ==> Last(asks) in asks && Readable(Last(asks), name);
      NextItemTended(repo, owning, Get(src, name), it, asks);
    }
  }

  lemma OutSurvives(repo: Repo, owning: bool, src: Sources, reqs: seq<Req>, items: seq<Item>)
    requires TendedItems(items) && MarkerFree(reqs)
    ensures var out := OutItems(repo, owning, src, reqs, items);
            forall i :: 0 <= i < |items| ==>
              && Survives(repo, owning, src, reqs, items[i], out[i])
              && ChangedIff(repo, owning, src, reqs, items[i], out[i])
              && (out[i] == Plain("") ==> items[i] == Plain(""))
  {
    hide OutItem;
    var out := OutItems(repo, owning, src, reqs, items);
    forall i | 0 <= i < |items|
      ensures Survives(repo, owning, src, reqs, items[i], out[i])
      ensures ChangedIff(repo, owning, src, reqs, items[i], out[i])
      ensures out[i] == Plain("") ==> items[i] == Plain("")
    {
      OutItemSurvives(repo, owning, src, reqs, items[i]);
      assert ParseReq("").None?;
    }
  }

  lemma PackagesUnion(repo: Repo, owning: bool, src: Sources, reqs: seq<Req>, items: seq<Item>, name: string)
    requires TendedItems(items) && MarkerFree(reqs)
    ensures Mentions(FinalItems(repo, owning, src, reqs, items), name)
       <==> Mentions(items, name) || Asks(reqs, name) != []
  {
    hide FinalItems;
    var final := FinalItems(repo, owning, src, reqs, items);
    EntryAtMentions(items, name);
    EntryAtMentions(final, name);
    if EntryAt(items, name).Some? {
      var j := WhereNamed(items, name);
      Landing(repo, owning, src, reqs, items, j);
      assert Names(final[j], name);
    } else {
      NewEntry(repo, owning, src, reqs, items, name);
    }
  }

  ghost predicate Preserves(
    repo: Repo, owning: bool, src: Sources, reqs: seq<Req>, added: seq<string>, was: seq<Item>, now: seq<Item>)
  {
    && |now| - |added| <= |was|
    && |added| <= |now|
    && var kept := |now| - |added|;
    && (forall i :: 0 <= i < kept ==> Survives(repo, owning, src, reqs, was[i], now[i]))
    && (forall i :: 0 <= i < kept ==> ChangedIff(repo, owning, src, reqs, was[i], now[i]))
    && (forall i :: kept <= i < |was| ==> was[i] == Plain(""))
    && (if added == [] then kept == |was| else kept > 0 ==> now[kept - 1] != Plain(""))
    && (forall i :: kept <= i < |now| ==> now[i] == Plain(added[i - kept]))
    && (forall n :: Mentions(now, n) <==> Mentions(was, n) || Asks(reqs, n) != [])
  }

  lemma FinalPreserves(repo: Repo, owning: bool, src: Sources, reqs: seq<Req>, items: seq<Item>)
    requires TendedItems(items) && MarkerFree(reqs)
    ensures Preserves(repo, owning, src, reqs, Raws(Fresh(items, reqs)), items,
                      FinalItems(repo, owning, src, reqs, items))
  {
    hide ParseReq, Contains, OutItem, Survives, ChangedIff, TendedItems, MarkerFree, Mentions;
    var out, news := OutItems(repo, owning, src, reqs, items), Fresh(items, reqs);
    OutSurvives(repo, owning, src, reqs, items);
    StripTailShape(out);
    forall n {
      PackagesUnion(repo, owning, src, reqs, items, n);
    }
  }

  /** Every item survives in its place, a clean line ends up rewritten exactly when
      it is the merging repository's and the last ask is another, the empty
      lines at the end go if any is added, and only those, and the packages are the union of both sides. */
  lemma NothingLost(text: Lines, incoming: Lines, repo: Repo, sources: Option<Sources>)
    requires Mergeable(text, incoming)
    ensures var r := Merged(text, incoming, repo, sources);
            && Tended(r.content)
            && Preserves(repo, Owning(repo, sources), Given(sources), Reqs(incoming), r.added,
                         Segments(text), Segments(r.content))
  {
    MergeReconciles(text, incoming, repo, sources);
    FinalPreserves(repo, Owning(repo, sources), Given(sources), Reqs(incoming), Segments(text));
  }

  /* ---- What the merged field states ---- */

  /** Whether a requirement stands as a whole line is whether its item is tidy. */
  lemma WholeLineIsTidy(text: Lines, j: nat)
    requires Tended(text) && j < |Segments(text)| && Segments(text)[j].Plain? && ReqOf(Segments(text)[j]).Some?
    ensures ReqOf(Segments(text)[j]).value.raw in text <==> Tidy(Segments(text)[j])
  {
    hide ParseReq, Find, Strip, Segments;
    SegmentsPrintBack(text);
    ReadsBack(Segments(text)[j]);
    OnlyLine(Segments(text), j, ReqOf(Segments(text)[j]).value.raw);
  }

  /** No line of a field is a requirement of a package it does not state. */
  lemma UnstatedIsAbsent(text: Lines, reqs: seq<Req>, name: string)
    requires Tended(text) && MarkerFree(reqs) && EntryAt(Segments(text), name).None?
    ensures forall raw :: raw in Asks(reqs, name) ==> raw !in text
  {
    hide ParseReq, Find, Strip, Segments;
    SegmentsPrintBack(text);
    AsksRead(reqs, name);
    EntryAtMentions(Segments(text), name);
    forall raw | raw in Asks(reqs, name) ensures raw !in text {
      assert Readable(raw, name);
      ForeignLine(Segments(text), raw);
    }
  }

  /** The entry of a package after its asks, from its entry and owner before and
      whether its line stands whole. */
  function EntryNext(
    repo: Repo, owning: bool, was: Option<Entry>, owner: Option<Source>, whole: bool, asks: seq<string>): Option<Entry>
  {
    if was.None? then if asks == [] then None else Some(CleanEntry(asks[0]))
    else
      var spec := was.value.spec;
      var other := Other(asks, spec);
      if other.None? then was
      else if was.value.ConflictEntry? then
        Some(ConflictEntry(spec, was.value.existingSrc, Block(was.value.existingSrc, spec, other.value, repo.origin)))
      else if !whole then was
      else if Yields(repo, owning, owner, spec, asks) then Some(CleanEntry(Last(asks)))
      else Some(ConflictEntry(spec, "existing", Block("existing", spec, other.value, repo.origin)))
  }

  predicate StandsWhole(text: Lines, entry: Option<Entry>) {
    entry.Some? && entry.value.CleanEntry? && entry.value.spec in text
  }

  function EntryAfter(
    repo: Repo, owning: bool, src: Sources, text: Lines, reqs: seq<Req>, name: string): Option<Entry>
  {
    var was := EntryAt(Segments(text), name);
    EntryNext(repo, owning, was, Get(src, name), StandsWhole(text, was), Asks(reqs, name))
  }

  /** A new package is stated as first asked; a marker takes in the last ask that
      differs; a whole line becomes the last ask, or a marker; a line that does not stand
      whole is left as it was. */
  lemma FinalEntry(repo: Repo, owning: bool, src: Sources, reqs: seq<Req>, text: Lines, name: string)
    requires Tended(text) && MarkerFree(reqs)
    ensures EntryAt(FinalItems(repo, owning, src, reqs, Segments(text)), name) ==
            EntryAfter(repo, owning, src, text, reqs, name)
  {
    hide ParseReq, Find, Strip, Segments, FinalItems, OutItem, Other, Yields;
    var items := Segments(text);
    if EntryAt(items, name).None? {
      NewEntry(repo, owning, src, reqs, items, name);
    } else {
      var final := FinalItems(repo, owning, src, reqs, items);
      var j := WhereNamed(items, name);
      Landing(repo, owning, src, reqs, items, j);
      FinalItemsTended(repo, owning, src, reqs, items);
      EntryAtFinds(final, j, name);
      OutEntry(repo, owning, src, reqs, text, j, name);
    }
  }

  lemma OutEntry(repo: Repo, owning: bool, src: Sources, reqs: seq<Req>, text: Lines, j: nat, name: string)
    requires Tended(text) && MarkerFree(reqs) && j < |Segments(text)| && Names(Segments(text)[j], name)
    ensures var next := OutItem(repo, owning, src, reqs, Segments(text)[j]);
            ReqOf(next).Some? && Some(EntryOf(next)) == EntryAfter(repo, owning, src, text, reqs, name)
  {
    hide ParseReq, Find, Strip, Segments, Other;
    var it, asks := Segments(text)[j], Asks(reqs, name);
    AsksRead(reqs, name);
    EntryAtFinds(Segments(text), j, name);
    OtherIs(asks, ReqOf(it).value.raw);
    OtherNone();
    assert asks != [] ==> Last(asks) in asks && Readable(Last(asks), name);
    NextItemTended(repo, owning, Get(src, name), it, asks);
    StripExisting();
    match it
    case Plain(line) =>
      WholeLineIsTidy(text, j);
      RawReadsBack(line);
      SpecIsStripped(line);
    case Marker(_, existingSrc, existing, _, _) =>
      StripIdempotent(existingSrc);
      SpecIsStripped(Strip(existing));
  }

  /** What a merge leaves of one package, and whether it is updated, reported in conflict, or adopted. */
  lemma MergedEntry(text: Lines, incoming: Lines, repo: Repo, sources: Option<Sources>, name: string)
    requires Mergeable(text, incoming)
    ensures var r, reqs := Merged(text, incoming, repo, sources), Reqs(incoming);
            var owning, src := Owning(repo, sources), Given(sources);
            && Tended(r.content)
            && EntryAt(Segments(r.content), name) == EntryAfter(repo, owning, src, text, reqs, name)
            && r.sources.Some? == sources.Some?
            && (sources.Some? ==> Get(r.sources.value, name) == OwnerAfter(repo, owning, src, Segments(text), reqs, name))
            && (NamesUpdate(r.updated, name) <==>
                  Held(repo, owning, src, Segments(text), reqs, name) && Differs(Segments(text), reqs, name))
            && (NamesConflict(r.conflicts, name) <==>
                  !Held(repo, owning, src, Segments(text), reqs, name) && Differs(Segments(text), reqs, name))
            && (NamesAdopted(r.adopted, name) <==> Adopts(owning, src, Segments(text), reqs, name))
  {
    hide ParseReq, Find, Strip, Segments, Merged, FinalItems, EntryAfter, OwnerAfter, Each, Held, Differs, EntryAt;
    AdoptionsAre(repo, Owning(repo, sources), Given(sources), Segments(text), Reqs(incoming), name);
    MergeReconciles(text, incoming, repo, sources);
    FinalEntry(repo, Owning(repo, sources), Given(sources), Reqs(incoming), text, name);
    UpdatesAre(repo, Owning(repo, sources), Given(sources), Segments(text), Reqs(incoming), name);
    ReportsAre(repo, Owning(repo, sources), Given(sources), Segments(text), Reqs(incoming), name);
  }

  /* ---- Provenance stays truthful ---- */

  /** Every entry is backed by a clean line that is its specification. */
  predicate Backed(text: Lines, sources: Sources) {
    Pruned(text, sources) == sources
  }

  lemma PrunedIs(text: Lines, sources: Sources, name: string)
    requires Tended(text)
    ensures Get(Pruned(text, sources), name) ==
            if name in sources && EntryAt(Segments(text), name) == Some(CleanEntry(sources[name].spec))
            then Some(sources[name]) else None
  {
    PkgMapIsItems(text, name);
  }

  /** The merge claims for the repository what the field does not come to state:
      the asks end elsewhere than they began, and there is no whole line to change. */
  predicate Drifts(repo: Repo, owning: bool, src: Sources, text: Lines, reqs: seq<Req>, name: string) {
    && Held(repo, owning, src, Segments(text), reqs, name)
    && Last(Asks(reqs, name)) != Stated(Segments(text), reqs, name).value
    && Stated(Segments(text), reqs, name).value !in text
  }

  lemma BackedAfter(repo: Repo, owning: bool, src: Sources, reqs: seq<Req>, text: Lines, name: string)
    requires Tended(text) && MarkerFree(reqs)
    requires name in src ==> EntryAt(Segments(text), name) == Some(CleanEntry(src[name].spec))
    ensures var owner := OwnerAfter(repo, owning, src, Segments(text), reqs, name);
            var now := EntryAfter(repo, owning, src, text, reqs, name);
            owner.Some? ==>
              (now == Some(CleanEntry(owner.value.spec)) <==>
               !(now.Some? && now.value.ConflictEntry?) && !Drifts(repo, owning, src, text, reqs, name))
  {
    hide Other, Segments, Block;
    var asks := Asks(reqs, name);
    var first := Stated(Segments(text), reqs, name);
    if EntryAt(Segments(text), name).None? {
      UnstatedIsAbsent(text, reqs, name);
    }
    if asks != [] {
      OtherIs(asks, first.value);
      assert Last(asks) in asks && asks[0] in asks;
    } else {
      OtherNone();
    }
  }

  /** Of a map whose every entry was backed, the merge leaves unbacked exactly the
      entries of packages it turned into conflicts, and of those that drift. */
  lemma ProvenanceStaysTruthful(text: Lines, incoming: Lines, repo: Repo, sources: Sources, name: string)
    requires Mergeable(text, incoming) && Backed(text, sources)
    ensures var r := Merged(text, incoming, repo, Some(sources));
            var after, owning := r.sources.value, Owning(repo, Some(sources));
            && (name in Pruned(r.content, after) <==>
                  && name in after && !InConflict(Segments(r.content), name)
                  && !Drifts(repo, owning, sources, text, Reqs(incoming), name))
            && (name in Pruned(r.content, after) ==> Pruned(r.content, after)[name] == after[name])
  {
    hide ParseReq, Find, Strip, Segments, Merged, EntryAfter, OwnerAfter, Held, Differs, Drifts, EntryAt, Pruned;
    var r := Merged(text, incoming, repo, Some(sources));
    MergedEntry(text, incoming, repo, Some(sources), name);
    PrunedIs(text, sources, name);
    PrunedIs(r.content, r.sources.value, name);
    BackedAfter(repo, Owning(repo, Some(sources)), sources, Reqs(incoming), text, name);
  }

  /* ---- Conflicts: what is reported, what is marked, what is detected ---- */

  lemma {:induction false} DetectedIn(items: seq<Item>, c: Conflict)
    ensures c in Detected(items) <==> exists it :: it in items && c in Found(it)
  {
    if items != [] {
      var front, last := items[..|items| - 1], items[|items| - 1];
      DetectedIn(front, c);
      assert forall it :: it in items <==> it in front || it == last;
    }
  }

  /** Detection returns a conflict of the package. */
  predicate Shows(text: Lines, name: string) {
    exists c :: c in Detected(Segments(text)) && c.name == name
  }

  /** Detection shows exactly the packages whose item is a marker. */
  lemma ShowsIsInConflict(text: Lines, name: string)
    requires Tended(text)
    ensures Shows(text, name) <==> InConflict(Segments(text), name)
  {
    hide ParseReq, Find, Strip, Segments, Detected;
    var items := Segments(text);
    if c :| c in Detected(items) && c.name == name {
      DetectedIn(items, c);
      var it :| it in items && c in Found(it);
      var j :| 0 <= j < |items| && items[j] == it;
      EntryAtFinds(items, j, name);
    }
    if InConflict(items, name) {
      var j := WhereNamed(items, name);
      var c := Found(items[j])[0];
      assert items[j] in items && c in Found(items[j]);
      DetectedIn(items, c);
    }
  }

  /** A conflict was reported of the package, and its line is in the field. */
  predicate Reported(conflicts: seq<Conflict>, text: Lines, name: string) {
    exists k :: 0 <= k < |conflicts| && conflicts[k].name == name && conflicts[k].existing in text
  }

  /** A package of the repository's own, or none: an ask differs from a whole line that is not the repository's. */
  predicate Disputed(repo: Repo, owning: bool, src: Sources, text: Lines, reqs: seq<Req>, name: string) {
    var entry := EntryAt(Segments(text), name);
    && entry.Some? && entry.value.CleanEntry? && entry.value.spec in text
    && Differs(Segments(text), reqs, name) && !Held(repo, owning, src, Segments(text), reqs, name)
  }

  /** Detection shows a package after a merge exactly when it did before, or the
      field has a whole line of it that is not the repository's and an ask differs. */
  lemma ConflictsExactly(text: Lines, incoming: Lines, repo: Repo, sources: Option<Sources>, name: string)
    requires Mergeable(text, incoming)
    ensures Shows(Merged(text, incoming, repo, sources).content, name) <==>
            || Shows(text, name)
            || Disputed(repo, Owning(repo, sources), Given(sources), text, Reqs(incoming), name)
  {
    hide ParseReq, Find, Strip, Segments, Merged, OwnerAfter, EntryAt, Other, Shows;
    MergedEntry(text, incoming, repo, sources, name);
    ShowsIsInConflict(text, name);
    ShowsIsInConflict(Merged(text, incoming, repo, sources).content, name);
    OtherNone();
  }

  /** The packages shown in conflict after a merge are those that were, and those it
      reported whose line is in the field. */
  lemma ConflictsAreReported(text: Lines, incoming: Lines, repo: Repo, sources: Option<Sources>, name: string)
    requires Mergeable(text, incoming)
    ensures var r := Merged(text, incoming, repo, sources);
            Shows(r.content, name) <==> Shows(text, name) || Reported(r.conflicts, text, name)
  {
    hide ParseReq, Find, Strip, Segments, Merged, OwnerAfter, EntryAt, Other, Shows, FinalItems, Each, Held, Differs, EntryAfter;
    var r, reqs, owning := Merged(text, incoming, repo, sources), Reqs(incoming), Owning(repo, sources);
    ConflictsExactly(text, incoming, repo, sources, name);
    MergedEntry(text, incoming, repo, sources, name);
    ShowsIsInConflict(text, name);
    MergeReconciles(text, incoming, repo, sources);
    if k :| 0 <= k < |r.conflicts| && r.conflicts[k].name == name {
      var c := r.conflicts[k];
      assert c in r.conflicts;
      ReportSays(repo, owning, Given(sources), Segments(text), reqs, c);
      if EntryAt(Segments(text), name).None? {
        UnstatedIsAbsent(text, reqs, name);
        assert Asks(reqs, name)[0] in Asks(reqs, name);
      }
    }
    if Disputed(repo, owning, Given(sources), text, reqs, name) {
      var k :| 0 <= k < |r.conflicts| && r.conflicts[k].name == name;
      var c := r.conflicts[k];
      assert c in r.conflicts;
      ReportSays(repo, owning, Given(sources), Segments(text), reqs, c);
    }
    if Reported(r.conflicts, text, name) {
      var k :| 0 <= k < |r.conflicts| && r.conflicts[k].name == name && r.conflicts[k].existing in text;
      var c := r.conflicts[k];
      assert c in r.conflicts;
      ReportSays(repo, owning, Given(sources), Segments(text), reqs, c);
    }
  }

  /** The deploy gate is closed whenever a conflict can be detected, whatever the field holds. */
  lemma DetectedClosesGate(text: Lines)
    ensures Detected(Segments(text)) != [] ==> HasPipConflicts(text)
  {
    var items := Segments(text);
    if Detected(items) != [] {
      var c := Detected(items)[0];
      DetectedIn(items, c);
      var it :| it in items && c in Found(it);
      var j :| 0 <= j < |items| && items[j] == it;
      MarkerHasHead(text, j);
    }
  }

  lemma {:induction false} MarkerHasHead(text: Lines, j: nat)
    requires j < |Segments(text)| && Segments(text)[j].Marker?
    ensures HasPipConflicts(text)
  {
    if MarkerAt(text) {
    } else {
      MarkerHasHead(text[1..], j - 1);
      var k :| 0 <= k < |text[1..]| && Contains(text[1..][k], HEAD);
      assert Contains(text[k + 1], HEAD);
    }
  }

  /* ---- What a manifest no longer names ---- */

  /** A package of the repository's that its manifest dropped is reported, in order, and its entry is left as it was. */
  lemma RemovedIsOnlyReported(text: Lines, incoming: Lines, repo: Repo, sources: Option<Sources>, name: string)
    requires Mergeable(text, incoming)
    ensures var r := Merged(text, incoming, repo, sources);
            && Order.Ascending(r.removed)
            && (name in r.removed <==>
                  && Owning(repo, sources) && name in Given(sources) && Given(sources)[name].repo == repo.key
                  && Asks(Reqs(incoming), name) == [])
            && (name in r.removed ==>
                  EntryAt(Segments(r.content), name) == EntryAt(Segments(text), name)
                  && Get(r.sources.value, name) == Get(sources.value, name))
  {
    hide ParseReq, Find, Strip, Segments, Merged, FinalItems, EntryAt, Held, Differs;
    MergeReconciles(text, incoming, repo, sources);
    MergedEntry(text, incoming, repo, sources, name);
    OtherNone();
  }
}
