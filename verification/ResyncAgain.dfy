/** A resync repeated: which chains of manifests change a field they have been merged into already. */
module ResyncAgain {
  import opened Text
  import opened Requirements
  import opened Merge
  import opened Reconcile
  import opened MergePromises
  import opened MergeAgain
  import opened Resync
  import MergeLimits

  /** Every repository has a key, and no two have the same. */
  predicate Keyed(manifests: seq<Manifest>) {
    && (forall i :: 0 <= i < |manifests| ==> manifests[i].repo.key != "")
    && (forall i, j :: 0 <= i < j < |manifests| ==> manifests[i].repo.key != manifests[j].repo.key)
  }

  /** All the manifests ask of the package, if anything, is this line. */
  predicate OnlyAsk(manifests: seq<Manifest>, name: string, spec: string) {
    forall i :: 0 <= i < |manifests| ==> Agree(AsksOf(manifests[i], name), spec)
  }

  predicate Agree(asks: seq<string>, spec: string) {
    forall raw :: raw in asks ==> raw == spec
  }

  /** The field does not state the package, its first manifest asks for it first in one
      way and last in another, and the later ones ask only for the first. */
  predicate NewIsRestless(manifests: seq<Manifest>, p: Package, name: string) {
    p.entry.None? &&
    exists f :: 0 <= f < |manifests| &&
      var asks := AsksOf(manifests[f], name);
      && asks != [] && !AskedSomewhere(manifests[..f], name)
      && Last(asks) != asks[0] && OnlyAsk(manifests[f + 1..], name, asks[0])
  }

  /** The line stands whole and its owner asks for it last in another way; earlier
      manifests ask, for the line as it was only, and later ones for the new one only. */
  predicate OwnedIsRestless(manifests: seq<Manifest>, p: Package, name: string) {
    p.whole && p.entry.Some? && p.owner.Some? &&
    exists o :: 0 <= o < |manifests| && manifests[o].repo.key == p.owner.value.repo &&
      var asks, spec := AsksOf(manifests[o], name), p.entry.value.spec;
      && asks != [] && Last(asks) != spec
      && AskedSomewhere(manifests[..o], name) && OnlyAsk(manifests[..o], name, spec)
      && OnlyAsk(manifests[o + 1..], name, Last(asks))
  }

  /** What field and owners can say: only a clean line stands whole. */
  predicate Sound(p: Package) {
    p.whole ==> p.entry.Some? && p.entry.value.CleanEntry?
  }

  predicate InMarker(p: Package) {
    p.entry.Some? && p.entry.value.ConflictEntry?
  }

  function Whole(spec: string, owner: Option<Source>): Package {
    Package(Some(CleanEntry(spec)), owner, true)
  }

  function Claimed(m: Manifest, raw: string): Option<Source> {
    Some(Source(m.repo.key, raw, m.repo.origin))
  }

  /* ---- One turn ---- */

  lemma AgreeIs(asks: seq<string>, spec: string)
    ensures Agree(asks, spec) <==> Other(asks, spec).None?
    ensures Agree(asks, spec) && asks != [] ==> asks[0] == spec && Last(asks) == spec
  {
    OtherIs(asks, spec);
    assert asks != [] ==> asks[0] in asks && Last(asks) in asks;
  }

  lemma TurnIdle(m: Manifest, p: Package, name: string)
    requires Sound(p) && AsksOf(m, name) == []
    ensures Turn(m, p, name) == p
  {
    OtherNone();
  }

  lemma TurnSound(m: Manifest, p: Package, name: string)
    requires Sound(p)
    ensures Sound(Turn(m, p, name))
  {
    hide AsksOf, EntryNext, KnownAfter;
  }

  lemma TurnNew(m: Manifest, p: Package, name: string)
    requires p.entry.None? && AsksOf(m, name) != [] && m.repo.key != ""
    ensures var asks := AsksOf(m, name); Turn(m, p, name) == Whole(asks[0], Claimed(m, Last(asks)))
  {
    hide AsksOf, Other;
    AgreeIs(AsksOf(m, name), AsksOf(m, name)[0]);
  }

  /** The owner's own turn on a whole line. */
  lemma TurnOwn(m: Manifest, spec: string, owner: Source, name: string)
    requires m.repo.key != "" && owner.repo == m.repo.key && AsksOf(m, name) != []
    ensures var asks := AsksOf(m, name);
            Turn(m, Whole(spec, Some(owner)), name) ==
            if Agree(asks, spec) then Whole(spec, Some(owner)) else Whole(Last(asks), Claimed(m, Last(asks)))
  {
    hide AsksOf, Other;
    AgreeIs(AsksOf(m, name), spec);
  }

  /** The turn of a repository that does not own a whole line somebody owns. */
  lemma TurnForeign(m: Manifest, spec: string, owner: Source, name: string)
    requires owner.repo != m.repo.key
    ensures var p := Whole(spec, Some(owner));
            if Agree(AsksOf(m, name), spec) then Turn(m, p, name) == p else InMarker(Turn(m, p, name))
  {
    hide AsksOf, Other;
    AgreeIs(AsksOf(m, name), spec);
  }

  lemma TurnUnowned(m: Manifest, spec: string, name: string)
    requires AsksOf(m, name) != [] && m.repo.key != ""
    ensures var asks, p := AsksOf(m, name), Whole(spec, None);
            if asks[0] == spec then Turn(m, p, name) == Whole(Last(asks), Claimed(m, Last(asks)))
            else InMarker(Turn(m, p, name))
  {
    hide AsksOf, Other;
    AgreeIs(AsksOf(m, name), spec);
    OtherIs(AsksOf(m, name), spec);
    assert AsksOf(m, name)[0] in AsksOf(m, name);
  }

  /* ---- A package in a marker ---- */

  /** The last ask of a chain that is not `spec`, and whose it is. */
  function LastOther(manifests: seq<Manifest>, name: string, spec: string): Option<(string, string)> {
    if manifests == [] then None
    else
      var later, other := LastOther(manifests[1..], name, spec), Other(AsksOf(manifests[0], name), spec);
      if later.Some? then later
      else if other.Some? then Some((other.value, manifests[0].repo.origin)) else None
  }

  function Marked(spec: string, src: string, block: FiveLines, other: Option<(string, string)>): Entry {
    ConflictEntry(spec, src, if other.Some? then Block(src, spec, other.value.0, other.value.1) else block)
  }

  lemma TurnMarked(m: Manifest, p: Package, name: string)
    requires InMarker(p)
    ensures var e, other := p.entry.value, Other(AsksOf(m, name), p.entry.value.spec);
            var mark := if other.Some? then Some((other.value, m.repo.origin)) else None;
            Turn(m, p, name) == Package(Some(Marked(e.spec, e.existingSrc, e.block, mark)), p.owner, false)
  {
    hide AsksOf, Other, Block;
    OtherNone();
  }

  /** A marker is left with the last ask that differs. */
  lemma {:induction false} MarkedTurns(manifests: seq<Manifest>, p: Package, name: string)
    requires InMarker(p) && !p.whole
    ensures var e := p.entry.value;
            Turns(manifests, p, name) ==
            p.(entry := Some(Marked(e.spec, e.existingSrc, e.block, LastOther(manifests, name, e.spec))))
    decreases manifests
  {
    hide Turn, Block, AsksOf, Other;
    if manifests != [] {
      TurnMarked(manifests[0], p, name);
      MarkedTurns(manifests[1..], Turn(manifests[0], p, name), name);
    }
  }

  /** A turn that puts a line in a marker writes its last ask that differs. */
  lemma TurnMarks(m: Manifest, p: Package, name: string)
    requires !InMarker(p) && InMarker(Turn(m, p, name))
    ensures var next := Turn(m, p, name); var e := next.entry.value;
            var other := Other(AsksOf(m, name), e.spec);
            && !next.whole && other.Some?
            && e.block == Block(e.existingSrc, e.spec, other.value, m.repo.origin)
  {
    hide AsksOf, Other, Block;
    OtherNone();
  }

  lemma {:induction false} BecomesMarked(manifests: seq<Manifest>, p: Package, name: string)
    requires !InMarker(p) && InMarker(Turns(manifests, p, name))
    ensures var last := Turns(manifests, p, name); var e := last.entry.value;
            var other := LastOther(manifests, name, e.spec);
            && !last.whole && other.Some? && e == Marked(e.spec, e.existingSrc, e.block, other)
    decreases manifests
  {
    hide Turn, Block, AsksOf, Other;
    if manifests != [] {
      var next := Turn(manifests[0], p, name);
      if InMarker(next) {
        TurnMarks(manifests[0], p, name);
        MarkedTurns(manifests[1..], next, name);
      } else {
        BecomesMarked(manifests[1..], next, name);
      }
    }
  }

  /** A package that ends in a marker is left as it is by the same chain. */
  lemma MarkersSettle(manifests: seq<Manifest>, p: Package, name: string)
    requires Sound(p) && InMarker(Turns(manifests, p, name))
    ensures var last := Turns(manifests, p, name); Turns(manifests, last, name) == last
  {
    hide Turns, Block, LastOther;
    var last := Turns(manifests, p, name);
    if InMarker(p) {
      MarkedTurns(manifests, p, name);
    } else {
      BecomesMarked(manifests, p, name);
    }
    MarkedTurns(manifests, last, name);
  }

  /* ---- A line that does not stand whole ---- */

  function Untidy(spec: string, owner: Option<Source>): Package {
    Package(Some(CleanEntry(spec)), owner, false)
  }

  /** Its text stays; its owner, once there, keeps his key, and a repository claims it with one turn. */
  lemma TurnUntidy(m: Manifest, spec: string, owner: Option<Source>, name: string)
    requires m.repo.key != ""
    ensures var next := Turn(m, Untidy(spec, owner), name);
            && next == Untidy(spec, next.owner)
            && (next.owner != owner ==> next.owner.Some? && next.owner.value.repo == m.repo.key)
            && (owner.Some? ==> next.owner.Some? && next.owner.value.repo == owner.value.repo)
            && Turn(m, next, name) == next
  {
    hide AsksOf, Other;
    AgreeIs(AsksOf(m, name), spec);
    OtherNone();
  }

  /** Whoever owns the line after a chain is who owned it before, or one of the chain. */
  lemma {:induction false} UntidyTurns(manifests: seq<Manifest>, spec: string, owner: Option<Source>, name: string)
    requires Keyed(manifests)
    ensures var last := Turns(manifests, Untidy(spec, owner), name);
            && last == Untidy(spec, last.owner)
            && (owner.Some? ==> last.owner.Some? && last.owner.value.repo == owner.value.repo)
            && (last.owner != owner ==>
                  last.owner.Some? && exists i :: 0 <= i < |manifests| && manifests[i].repo.key == last.owner.value.repo)
            && Turns(manifests, last, name) == last
    decreases manifests
  {
    hide Turn;
    if manifests != [] {
      var m, rest := manifests[0], manifests[1..];
      assert forall i :: 0 <= i < |rest| ==> rest[i] == manifests[i + 1];
      TurnUntidy(m, spec, owner, name);
      var next := Turn(m, Untidy(spec, owner), name).owner;
      UntidyTurns(rest, spec, next, name);
      var last := Turns(rest, Untidy(spec, next), name).owner;
      TurnUntidy(m, spec, last, name);
      if last != next {
        var i :| 0 <= i < |rest| && rest[i].repo.key == last.value.repo;
        assert manifests[i + 1].repo.key == last.value.repo;
      }
    }
  }

  /* ---- A line that stands whole ---- */

  lemma {:induction false} TurnsConcat(a: seq<Manifest>, b: seq<Manifest>, p: Package, name: string)
    ensures Turns(a + b, p, name) == Turns(b, Turns(a, p, name), name)
    decreases a
  {
    hide Turn;
    if a == [] {
      assert a + b == b;
    } else {
      assert (a + b)[1..] == a[1..] + b;
      TurnsConcat(a[1..], b, Turn(a[0], p, name), name);
    }
  }

  lemma TurnsAround(manifests: seq<Manifest>, o: nat, p: Package, name: string)
    requires o < |manifests|
    ensures var before := Turns(manifests[..o], p, name);
            Turns(manifests, p, name) == Turns(manifests[o + 1..], Turn(manifests[o], before, name), name)
  {
    hide Turn;
    assert manifests == manifests[..o] + manifests[o..];
    TurnsConcat(manifests[..o], manifests[o..], p, name);
    assert manifests[o..][1..] == manifests[o + 1..];
  }

  lemma {:induction false} IdleTurns(manifests: seq<Manifest>, p: Package, name: string)
    requires Sound(p) && !AskedSomewhere(manifests, name)
    ensures Turns(manifests, p, name) == p
    decreases manifests
  {
    hide Turn, AsksOf;
    if manifests != [] {
      assert forall i :: 0 <= i < |manifests[1..]| ==> manifests[1..][i] == manifests[i + 1];
      TurnIdle(manifests[0], p, name);
      IdleTurns(manifests[1..], p, name);
    }
  }

  /** The key is not among the chain's. */
  predicate NotAmong(manifests: seq<Manifest>, key: string) {
    forall i :: 0 <= i < |manifests| ==> manifests[i].repo.key != key
  }

  lemma OnlyAskFirst(manifests: seq<Manifest>, name: string, spec: string)
    requires manifests != []
    ensures OnlyAsk(manifests, name, spec) <==>
            Agree(AsksOf(manifests[0], name), spec) && OnlyAsk(manifests[1..], name, spec)
  {
    hide AsksOf, Agree;
    var rest := manifests[1..];
    assert forall i :: 0 <= i < |rest| ==> rest[i] == manifests[i + 1];
    assert forall i :: 1 <= i < |manifests| ==> manifests[i] == rest[i - 1];
  }

  /** Repositories that do not own a whole line leave it, if all they ask for is that line, or put it in a marker. */
  lemma {:induction false} ForeignTurns(manifests: seq<Manifest>, spec: string, owner: Source, name: string)
    requires NotAmong(manifests, owner.repo)
    ensures var p := Whole(spec, Some(owner)); var last := Turns(manifests, p, name);
            if OnlyAsk(manifests, name, spec) then last == p else InMarker(last)
    decreases manifests
  {
    hide Turn, AsksOf, Agree;
    if manifests != [] {
      var m, rest := manifests[0], manifests[1..];
      assert forall i :: 0 <= i < |rest| ==> rest[i] == manifests[i + 1];
      TurnForeign(m, spec, owner, name);
      OnlyAskFirst(manifests, name, spec);
      if Agree(AsksOf(m, name), spec) {
        ForeignTurns(rest, spec, owner, name);
      } else {
        var next := Turn(m, Whole(spec, Some(owner)), name);
        NotWhole(m, Whole(spec, Some(owner)), name);
        MarkedTurns(rest, next, name);
      }
    }
  }

  lemma NotWhole(m: Manifest, p: Package, name: string)
    requires InMarker(Turn(m, p, name))
    ensures !Turn(m, p, name).whole
  {
    hide AsksOf, EntryNext, KnownAfter;
  }

  lemma StillMarked(manifests: seq<Manifest>, p: Package, name: string)
    requires InMarker(p) && !p.whole
    ensures InMarker(Turns(manifests, p, name))
  {
    hide Turns;
    MarkedTurns(manifests, p, name);
  }

  lemma Apart(manifests: seq<Manifest>, o: nat)
    requires Keyed(manifests) && o < |manifests|
    ensures NotAmong(manifests[..o], manifests[o].repo.key) && NotAmong(manifests[o + 1..], manifests[o].repo.key)
  {
  }

  /** One round on a whole line that somebody of the chain owns, `o`. */
  lemma OwnedRound(manifests: seq<Manifest>, o: nat, spec: string, owner: Source, name: string)
    requires Keyed(manifests) && o < |manifests| && manifests[o].repo.key == owner.repo && AsksOf(manifests[o], name) != []
    ensures var asks, last := AsksOf(manifests[o], name), Turns(manifests, Whole(spec, Some(owner)), name);
            var final := if Agree(asks, spec) then Whole(spec, Some(owner)) else Whole(Last(asks), Claimed(manifests[o], Last(asks)));
            if OnlyAsk(manifests[..o], name, spec) && OnlyAsk(manifests[o + 1..], name, Last(asks))
            then last == final else InMarker(last)
  {
    hide Turn, Turns, AsksOf, Agree, OnlyAsk, NotAmong;
    var m, p := manifests[o], Whole(spec, Some(owner));
    Apart(manifests, o);
    TurnsAround(manifests, o, p, name);
    ForeignTurns(manifests[..o], spec, owner, name);
    if OnlyAsk(manifests[..o], name, spec) {
      TurnOwn(m, spec, owner, name);
      AgreeIs(AsksOf(m, name), spec);
      var next := Turn(m, p, name);
      ForeignTurns(manifests[o + 1..], next.entry.value.spec, next.owner.value, name);
    } else {
      var before := Turns(manifests[..o], p, name);
      MarkedThrough(manifests[..o], p, name);
      TurnMarked(m, before, name);
      StillMarked(manifests[o + 1..], Turn(m, before, name), name);
    }
  }

  lemma MarkedThrough(manifests: seq<Manifest>, p: Package, name: string)
    requires !InMarker(p) && InMarker(Turns(manifests, p, name))
    ensures !Turns(manifests, p, name).whole
  {
    hide Turns;
    BecomesMarked(manifests, p, name);
  }

  /** Asks that agree with two lines are none. */
  lemma AgreeTwice(manifests: seq<Manifest>, name: string, a: string, b: string)
    requires OnlyAsk(manifests, name, a) && a != b
    ensures OnlyAsk(manifests, name, b) <==> !AskedSomewhere(manifests, name)
  {
    hide AsksOf;
    if i :| 0 <= i < |manifests| && AsksOf(manifests[i], name) != [] {
      var raw := AsksOf(manifests[i], name)[0];
      assert raw in AsksOf(manifests[i], name);
      assert Agree(AsksOf(manifests[i], name), a);
      assert !Agree(AsksOf(manifests[i], name), b);
    }
  }

  /** A whole line of `o`'s is settled by one round exactly when it is not restless. */
  lemma OwnedSettles(manifests: seq<Manifest>, o: nat, spec: string, owner: Source, name: string)
    requires Keyed(manifests) && o < |manifests| && manifests[o].repo.key == owner.repo && AsksOf(manifests[o], name) != []
    ensures var p := Whole(spec, Some(owner)); var last := Turns(manifests, p, name);
            Turns(manifests, last, name) == last <==> !OwnedIsRestless(manifests, p, name)
  {
    hide Turns, AsksOf, Agree, OnlyAsk, AskedSomewhere;
    var asks, p := AsksOf(manifests[o], name), Whole(spec, Some(owner));
    var last := Turns(manifests, p, name);
    assert forall i :: 0 <= i < |manifests| && manifests[i].repo.key == owner.repo ==> i == o;
    OwnedRound(manifests, o, spec, owner, name);
    if InMarker(last) {
      MarkersSettle(manifests, p, name);
    } else {
      AgreeIs(asks, spec);
      AgreeIs(asks, Last(asks));
      OwnedRound(manifests, o, Last(asks), last.owner.value, name);
      if Last(asks) != spec {
        AgreeTwice(manifests[..o], name, spec, Last(asks));
      }
    }
  }

  /** Nor by any other owner. */
  lemma StrangerSettles(manifests: seq<Manifest>, spec: string, owner: Source, name: string)
    requires Keyed(manifests)
    requires forall i :: 0 <= i < |manifests| && manifests[i].repo.key == owner.repo ==> AsksOf(manifests[i], name) == []
    ensures var p := Whole(spec, Some(owner)); var last := Turns(manifests, p, name);
            Turns(manifests, last, name) == last && !OwnedIsRestless(manifests, p, name)
  {
    hide Turn, Turns, AsksOf, Agree, OnlyAsk;
    var p := Whole(spec, Some(owner));
    if o :| 0 <= o < |manifests| && manifests[o].repo.key == owner.repo {
      var before := Turns(manifests[..o], p, name);
      Apart(manifests, o);
      TurnsAround(manifests, o, p, name);
      ForeignTurns(manifests[..o], spec, owner, name);
      if before == p {
        TurnIdle(manifests[o], p, name);
        ForeignTurns(manifests[o + 1..], spec, owner, name);
      } else {
        MarkedThrough(manifests[..o], p, name);
        TurnMarked(manifests[o], before, name);
        StillMarked(manifests[o + 1..], Turn(manifests[o], before, name), name);
      }
    } else {
      ForeignTurns(manifests, spec, owner, name);
    }
    if InMarker(Turns(manifests, p, name)) {
      MarkersSettle(manifests, p, name);
    }
  }

  /** The first manifest that asks for the package. */
  lemma FirstAsker(manifests: seq<Manifest>, name: string) returns (f: nat)
    requires AskedSomewhere(manifests, name)
    ensures f < |manifests| && AsksOf(manifests[f], name) != [] && !AskedSomewhere(manifests[..f], name)
  {
    hide AsksOf;
    f := 0;
    while AsksOf(manifests[f], name) == []
      invariant f < |manifests| && !AskedSomewhere(manifests[..f], name)
      decreases |manifests| - f
    {
      assert manifests[..f + 1][..f] == manifests[..f];
      assert forall i :: 0 <= i < f + 1 ==> manifests[..f + 1][i] == manifests[i];
      assert forall i :: 0 <= i < f ==> manifests[..f][i] == manifests[i];
      f := f + 1;
    }
  }

  /** A round from where the first asker makes the line its own. */
  lemma ClaimedRound(manifests: seq<Manifest>, f: nat, p: Package, spec: string, name: string)
    requires Keyed(manifests) && f < |manifests| && Sound(p) && AsksOf(manifests[f], name) != []
    requires !AskedSomewhere(manifests[..f], name)
    requires Turn(manifests[f], p, name) == Whole(spec, Claimed(manifests[f], Last(AsksOf(manifests[f], name))))
    ensures var last := Turns(manifests, p, name);
            if OnlyAsk(manifests[f + 1..], name, spec) then last == Turn(manifests[f], p, name) else InMarker(last)
  {
    hide Turn, Turns, AsksOf, Agree, OnlyAsk, AskedSomewhere, NotAmong;
    TurnsAround(manifests, f, p, name);
    IdleTurns(manifests[..f], p, name);
    Apart(manifests, f);
    ForeignTurns(manifests[f + 1..], spec, Claimed(manifests[f], Last(AsksOf(manifests[f], name))).value, name);
  }

  /** A whole line nobody owns is settled by one round. */
  lemma UnownedSettles(manifests: seq<Manifest>, spec: string, name: string)
    requires Keyed(manifests)
    ensures var p := Whole(spec, None); var last := Turns(manifests, p, name);
            Turns(manifests, last, name) == last
  {
    hide Turn, Turns, AsksOf, Agree, OnlyAsk, AskedSomewhere;
    var p := Whole(spec, None);
    if AskedSomewhere(manifests, name) {
      var f := FirstAsker(manifests, name);
      var asks := AsksOf(manifests[f], name);
      TurnUnowned(manifests[f], spec, name);
      if asks[0] == spec {
        ClaimedRound(manifests, f, p, Last(asks), name);
        ClaimedAgain(manifests, f, p, Last(asks), name);
      } else {
        TurnsAround(manifests, f, p, name);
        IdleTurns(manifests[..f], p, name);
        NotWhole(manifests[f], p, name);
        StillMarked(manifests[f + 1..], Turn(manifests[f], p, name), name);
        MarkersSettle(manifests, p, name);
      }
    } else {
      IdleTurns(manifests, p, name);
    }
  }

  /** And the round after it: the first asker asks again. */
  lemma ClaimedAgain(manifests: seq<Manifest>, f: nat, p: Package, spec: string, name: string)
    requires Keyed(manifests) && f < |manifests| && Sound(p) && AsksOf(manifests[f], name) != []
    requires !AskedSomewhere(manifests[..f], name)
    requires Turn(manifests[f], p, name) == Whole(spec, Claimed(manifests[f], Last(AsksOf(manifests[f], name))))
    ensures var last := Turns(manifests, p, name);
            Turns(manifests, last, name) == last <==>
            Last(AsksOf(manifests[f], name)) == spec || !OnlyAsk(manifests[f + 1..], name, spec)
  {
    hide Turn, Turns, AsksOf, Agree, OnlyAsk, AskedSomewhere;
    var m, asks := manifests[f], AsksOf(manifests[f], name);
    var last := Turns(manifests, p, name);
    ClaimedRound(manifests, f, p, spec, name);
    if InMarker(last) {
      MarkersSettle(manifests, p, name);
    } else {
      TurnOwn(m, spec, last.owner.value, name);
      AgreeIs(asks, spec);
      ClaimedRound(manifests, f, last, Last(asks), name);
    }
  }

  /** A new package is settled by one round exactly when it is not restless. */
  lemma NewSettles(manifests: seq<Manifest>, p: Package, name: string)
    requires Keyed(manifests) && Sound(p) && p.entry.None?
    ensures var last := Turns(manifests, p, name);
            Turns(manifests, last, name) == last <==> !NewIsRestless(manifests, p, name)
  {
    hide Turn, Turns, AsksOf, Agree, OnlyAsk;
    if AskedSomewhere(manifests, name) {
      var f := FirstAsker(manifests, name);
      TurnNew(manifests[f], p, name);
      ClaimedAgain(manifests, f, p, AsksOf(manifests[f], name)[0], name);
      OneFirst(manifests, f, name);
    } else {
      IdleTurns(manifests, p, name);
    }
  }

  lemma AskedBefore(manifests: seq<Manifest>, f: nat, g: nat, name: string)
    requires f < g <= |manifests| && AsksOf(manifests[f], name) != []
    ensures AskedSomewhere(manifests[..g], name)
  {
    assert manifests[..g][f] == manifests[f];
  }

  lemma OneFirst(manifests: seq<Manifest>, f: nat, name: string)
    requires f < |manifests| && AsksOf(manifests[f], name) != [] && !AskedSomewhere(manifests[..f], name)
    ensures forall g :: 0 <= g < |manifests| && AsksOf(manifests[g], name) != [] && !AskedSomewhere(manifests[..g], name) ==> g == f
  {
    hide AsksOf;
    forall g | 0 <= g < |manifests| && AsksOf(manifests[g], name) != [] && !AskedSomewhere(manifests[..g], name)
      ensures g == f
    {
      if f < g {
        AskedBefore(manifests, f, g, name);
      } else if g < f {
        AskedBefore(manifests, g, f, name);
      }
    }
  }

  /** One round settles a package exactly when neither holds of it. */
  lemma PackageSettlesIff(manifests: seq<Manifest>, p: Package, name: string)
    requires Keyed(manifests) && Sound(p)
    ensures var last := Turns(manifests, p, name);
            Turns(manifests, last, name) == last <==>
            !NewIsRestless(manifests, p, name) && !OwnedIsRestless(manifests, p, name)
  {
    hide Turns, AsksOf, OnlyAsk, AskedSomewhere;
    match p.entry
    case None => NewSettles(manifests, p, name);
    case Some(ConflictEntry(_, _, _)) =>
      StillMarked(manifests, p, name);
      MarkersSettle(manifests, p, name);
    case Some(CleanEntry(spec)) =>
      if !p.whole {
        UntidyTurns(manifests, spec, p.owner, name);
      } else if p.owner.None? {
        UnownedSettles(manifests, spec, name);
      } else if o :| 0 <= o < |manifests| && manifests[o].repo.key == p.owner.value.repo && AsksOf(manifests[o], name) != [] {
        OwnedSettles(manifests, o, spec, p.owner.value, name);
      } else {
        StrangerSettles(manifests, spec, p.owner.value, name);
      }
  }

  /* ---- The whole field ---- */

  /** Repeating a resync changes text or owners exactly when some package is
      restless: new, and asked for in two ways by the first that asks; or its owner's to
      rewrite, after others asked for it as it was. */
  lemma ResyncAgainIff(text: Lines, sources: Sources, manifests: seq<Manifest>)
    requires Tended(text) && AllMarkerFree(manifests) && Keyed(manifests)
    ensures var (last, owners) := Resynced(text, sources, manifests);
            Resynced(last, owners, manifests) == (last, owners) <==>
            forall n :: var p := PackageOf(text, sources, n);
                        !NewIsRestless(manifests, p, n) && !OwnedIsRestless(manifests, p, n)
  {
    hide Segments, MarkerFree, TendedItems, Turns, Resynced, PackageOf, NewIsRestless, OwnedIsRestless, Keyed, Sound;
    var (last, owners) := Resynced(text, sources, manifests);
    ChainIsTurns(text, sources, manifests, "");
    ChainChangesNothingIff(last, owners, manifests);
    forall n
      ensures Turns(manifests, PackageOf(last, owners, n), n) == PackageOf(last, owners, n) <==>
              !NewIsRestless(manifests, PackageOf(text, sources, n), n) && !OwnedIsRestless(manifests, PackageOf(text, sources, n), n)
    {
      ChainIsTurns(text, sources, manifests, n);
      PackageIsSound(text, sources, n);
      PackageSettlesIff(manifests, PackageOf(text, sources, n), n);
    }
  }

  lemma PackageIsSound(text: Lines, sources: Sources, name: string)
    ensures Sound(PackageOf(text, sources, name))
  {
    hide Segments, EntryAt;
  }

  /* ---- A chain that does not settle ---- */

  const ASKS_A := Manifest(Repo("x", "x"), ["a"])
  const ASKS_B := Manifest(Repo("y", "y"), ["a>1"])

  lemma WitnessReads()
    ensures Tended(["a"]) && AllMarkerFree([ASKS_A, ASKS_B])
    ensures Asks(Reqs(["a"]), "a") == ["a"] && Asks(Reqs(["a>1"]), "a") == ["a>1"]
    ensures EntryAt(Segments(["a"]), "a") == Some(CleanEntry("a"))
    ensures Other(["a"], "a") == None && Other(["a>1"], "a") == Some("a>1")
    ensures Other(["a"], "a>1") == Some("a") && Other(["a>1"], "a>1") == None
  {
    hide ParseReq, Find, Strip, Segments, EntryAt;
    MergeLimits.NameReads();
    MergeLimits.PinnedReads();
    MergeLimits.OneLine("a");
    MergeLimits.OneLine("a>1");
    MergeLimits.OneReq(Req("a", "a"));
    MergeLimits.OneReq(Req("a", "a>1"));
    assert |"a"| != |"a>1"|;
    MergeLimits.OneAsk(["a"], "a>1");
    MergeLimits.OneAsk(["a>1"], "a");
  }

  /** A line of the second repository's that the first asks for as it stands: the second
      rewrites it, and when the chain is repeated the first disputes it. */
  lemma RepeatedChainDisputes()
    ensures var sources := map["a" := Source("y", "a", "y")];
            var (last, owners) := Resynced(["a"], sources, [ASKS_A, ASKS_B]);
            && Tended(["a"]) && AllMarkerFree([ASKS_A, ASKS_B])
            && Tended(last) && EntryAt(Segments(last), "a") == Some(CleanEntry("a>1"))
            && InConflict(Segments(Resynced(last, owners, [ASKS_A, ASKS_B]).0), "a")
  {
    hide ParseReq, Find, Strip, Segments, EntryAt, Asks, Other, Resynced, Turns, Block;
    var sources, chain := map["a" := Source("y", "a", "y")], [ASKS_A, ASKS_B];
    WitnessReads();
    var (last, owners) := Resynced(["a"], sources, chain);
    ChainIsTurns(["a"], sources, chain, "a");
    ChainIsTurns(last, owners, chain, "a");
    var p0 := PackageOf(["a"], sources, "a");
    assert ["a"][0] == "a";
    assert p0 == Package(Some(CleanEntry("a")), Some(Source("y", "a", "y")), true);
    var p1 := Package(Some(CleanEntry("a>1")), Some(Source("y", "a>1", "y")), true);
    TwoTurns(p0);
    assert Turn(ASKS_A, p0, "a") == p0 && Turn(ASKS_B, p0, "a") == p1;
    TwoTurns(p1);
    assert Turn(ASKS_A, p1, "a").entry.value.ConflictEntry?;
  }

  lemma TwoTurns(p: Package)
    ensures Turns([ASKS_A, ASKS_B], p, "a") == Turn(ASKS_B, Turn(ASKS_A, p, "a"), "a")
  {
    hide Turn;
    assert [ASKS_A, ASKS_B][1..] == [ASKS_B] && [ASKS_B][1..] == [];
    assert Turns([ASKS_B], Turn(ASKS_A, p, "a"), "a") == Turn(ASKS_B, Turn(ASKS_A, p, "a"), "a");
  }

  const ASKS_TWICE := Manifest(Repo("k", "r"), ["a", "a>1"])

  /** A new package that one repository asks for in two ways: written as first asked, and as
      asked last when the resync is repeated. */
  lemma RepeatedChainRewrites()
    ensures var (last, owners) := Resynced([""], map[], [ASKS_TWICE]);
            && Tended([""]) && AllMarkerFree([ASKS_TWICE]) && Keyed([ASKS_TWICE])
            && Tended(last) && EntryAt(Segments(last), "a") == Some(CleanEntry("a"))
            && EntryAt(Segments(Resynced(last, owners, [ASKS_TWICE]).0), "a") == Some(CleanEntry("a>1"))
  {
    hide ParseReq, Find, Strip, Segments, EntryAt, Asks, Other, Resynced, Turns, Turn;
    var chain := [ASKS_TWICE];
    MergeLimits.TwiceMerge("");
    var (last, owners) := Resynced([""], map[], chain);
    ChainIsTurns([""], map[], chain, "a");
    ChainIsTurns(last, owners, chain, "a");
    EntryAtMentions(Segments([""]), "a");
    var p0 := PackageOf([""], map[], "a");
    OneTurnOnly(p0);
    TurnNew(ASKS_TWICE, p0, "a");
    var p1 := Turn(ASKS_TWICE, p0, "a");
    OneTurnOnly(p1);
    assert "a>1" in ["a", "a>1"] && |"a"| != |"a>1"|;
    TurnOwn(ASKS_TWICE, "a", p1.owner.value, "a");
  }

  lemma OneTurnOnly(p: Package)
    ensures Turns([ASKS_TWICE], p, "a") == Turn(ASKS_TWICE, p, "a")
  {
    hide Turn;
    assert [ASKS_TWICE][1..] == [];
    assert Turns([], Turn(ASKS_TWICE, p, "a"), "a") == Turn(ASKS_TWICE, p, "a");
  }
}
