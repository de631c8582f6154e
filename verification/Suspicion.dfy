/** `cloud.alert.suspicion`: the count of sightings kept for a code and a target,
    against the run of sightings it stands for. */
module Suspicion {
  import opened Text

  const DAY := 86_400

  /** The row of one code and target. */
  datatype Seen = Seen(occurrences: nat, lastSeen: int)

  /** `_sight`: the row it leaves, and whether the sighting confirms. */
  function Sighted(row: Option<Seen>, now: int, confirmAfter: nat, window: int): (Option<Seen>, bool) {
    if row.None? then (Some(Seen(1, now)), false)
    else
      var isFresh := now - row.value.lastSeen <= window;
      var count := if isFresh then row.value.occurrences + 1 else 1;
      if count >= confirmAfter then (None, true) else (Some(Seen(count, now)), false)
  }

  /** `_gc`: a row nobody refreshed for a day is dropped. */
  function Swept(row: Option<Seen>, now: int): Option<Seen> {
    if row.Some? && row.value.lastSeen < now - DAY then None else row
  }

  /** The code and target a suspicion is about. */
  datatype Target = Target(code: string, host: Option<int>, instance: Option<int>)

  class Suspicions {
    var rows: map<Target, Seen>

    constructor ()
      ensures rows == map[]
    {
      rows := map[];
    }

    function Row(target: Target): Option<Seen>
      reads this
    {
      if target in rows then Some(rows[target]) else None
    }

    method Sight(target: Target, now: int, confirmAfter: nat, window: int) returns (confirmed: bool)
      modifies this
      ensures (Row(target), confirmed) == Sighted(old(Row(target)), now, confirmAfter, window)
      ensures forall t :: t != target ==> Row(t) == old(Row(t))
    {
      if target in rows {
        var row := rows[target];
        var isFresh := now - row.lastSeen <= window;
        var count := if isFresh then row.occurrences + 1 else 1;
        if count >= confirmAfter {
          rows := rows - {target};
          return true;
        }
        rows := rows[target := Seen(count, now)];
        return false;
      }
      rows := rows[target := Seen(1, now)];
      confirmed := false;
    }

    method Forget(target: Target)
      modifies this
      ensures Row(target) == None
      ensures forall t :: t != target ==> Row(t) == old(Row(t))
    {
      rows := rows - {target};
    }

    method Gc(now: int)
      modifies this
      ensures forall t :: Row(t) == Swept(old(Row(t)), now)
    {
      rows := rows - (set t | t in rows && rows[t].lastSeen < now - DAY);
    }
  }

  /* ---- One target's history ---- */

  datatype Event = Sight(at: int) | Clear(at: int) | Sweep(at: int)

  /** The row after a history, for a count and a window that stay the same. */
  function RowAfter(h: seq<Event>, n: nat, window: int): Option<Seen> {
    if h == [] then None
    else
      var row := RowAfter(h[..|h| - 1], n, window);
      match h[|h| - 1]
      case Sight(at) => Sighted(row, at, n, window).0
      case Clear(_) => None
      case Sweep(at) => Swept(row, at)
  }

  /** A sighting after this history confirms. */
  predicate Confirms(h: seq<Event>, at: int, n: nat, window: int) {
    Sighted(RowAfter(h, n, window), at, n, window).1
  }

  /** The last `n` of these times follow each other within the window. */
  predicate EndsRun(times: seq<int>, n: nat, window: int) {
    && |times| >= n
    && forall i :: |times| - n <= i < |times| - 1 ==> times[i + 1] - times[i] <= window
  }

  /** The sightings since the last clear, and since the last one that ended a run: sweeps play no part. */
  function Since(h: seq<Event>, n: nat, window: int): seq<int> {
    if h == [] then []
    else
      var times := Since(h[..|h| - 1], n, window);
      match h[|h| - 1]
      case Sight(at) => if EndsRun(times + [at], n, window) then [] else times + [at]
      case Clear(_) => []
      case Sweep(_) => times
  }

  predicate InOrder(h: seq<Event>) {
    forall i, j :: 0 <= i < j < |h| ==> h[i].at <= h[j].at
  }

  /** How many of the last times follow each other within the window. */
  function Streak(times: seq<int>, window: int): nat {
    if |times| <= 1 then |times|
    else if times[|times| - 1] - times[|times| - 2] <= window then Streak(times[..|times| - 1], window) + 1
    else 1
  }

  lemma {:induction false} StreakIsRun(times: seq<int>, n: nat, window: int)
    requires n >= 1
    ensures EndsRun(times, n, window) <==> Streak(times, window) >= n
  {
    if |times| >= 2 {
      var last := |times| - 1;
      if n >= 2 {
        StreakIsRun(times[..last], n - 1, window);
        if times[last] - times[last - 1] <= window {
          assert EndsRun(times, n, window) <==> EndsRun(times[..last], n - 1, window) by {
            if EndsRun(times[..last], n - 1, window) {
              forall i | |times| - n <= i < |times| - 1 ensures times[i + 1] - times[i] <= window {
                if i < last - 1 {
                  assert times[..last][i + 1] - times[..last][i] <= window;
                }
              }
            }
            if EndsRun(times, n, window) {
              forall i | last - (n - 1) <= i < last - 1 ensures times[..last][i + 1] - times[..last][i] <= window {
                assert times[i + 1] - times[i] <= window;
              }
            }
          }
        } else if |times| >= n {
          assert last - 1 >= |times| - n;
        }
      }
    }
  }

  /** The row counts the streak; a row that was swept was too old to count on. */
  predicate Counts(row: Option<Seen>, times: seq<int>, now: int, n: nat, window: int) {
    && Streak(times, window) < n
    && (times != [] ==> times[|times| - 1] <= now)
    && match row
       case Some(Seen(count, last)) => times != [] && last == times[|times| - 1] && count == Streak(times, window)
       case None => times == [] || times[|times| - 1] < now - DAY
  }

  lemma SightCounts(row: Option<Seen>, times: seq<int>, now: int, at: int, n: nat, window: int)
    requires n >= 2 && window <= DAY && now <= at && Counts(row, times, now, n, window)
    ensures var (next, confirmed) := Sighted(row, at, n, window);
            && (confirmed <==> EndsRun(times + [at], n, window))
            && Counts(next, if confirmed then [] else times + [at], at, n, window)
  {
    StreakIsRun(times + [at], n, window);
    assert (times + [at])[..|times|] == times;
  }

  lemma {:induction false} HistoryCounts(h: seq<Event>, n: nat, window: int)
    requires n >= 2 && window <= DAY && h != [] && InOrder(h)
    ensures Counts(RowAfter(h, n, window), Since(h, n, window), h[|h| - 1].at, n, window)
  {
    var front, last := h[..|h| - 1], h[|h| - 1];
    if front == [] {
      assert RowAfter(front, n, window) == None && Since(front, n, window) == [];
      if last.Sight? {
        SightCounts(None, [], last.at, last.at, n, window);
      }
    } else {
      HistoryCounts(front, n, window);
      assert front[|front| - 1].at <= last.at;
      if last.Sight? {
        SightCounts(RowAfter(front, n, window), Since(front, n, window), front[|front| - 1].at, last.at, n, window);
      }
    }
  }

  /** A sighting confirms exactly when it ends a run: `n` sightings, each within
      the window of the one before, with no clear and no confirmation in between. */
  lemma ConfirmsIffRun(h: seq<Event>, at: int, n: nat, window: int)
    requires n >= 2 && window <= DAY && InOrder(h + [Sight(at)])
    ensures Confirms(h, at, n, window) <==> EndsRun(Since(h, n, window) + [at], n, window)
  {
    if h == [] {
      SightCounts(None, [], at, at, n, window);
    } else {
      assert forall i :: 0 <= i < |h| ==> (h + [Sight(at)])[i] == h[i];
      assert (h + [Sight(at)])[|h|] == Sight(at);
      HistoryCounts(h, n, window);
      SightCounts(RowAfter(h, n, window), Since(h, n, window), h[|h| - 1].at, at, n, window);
    }
  }

  function Unswept(h: seq<Event>): seq<Event> {
    if h == [] then []
    else Unswept(h[..|h| - 1]) + if h[|h| - 1].Sweep? then [] else [h[|h| - 1]]
  }

  lemma {:induction false} SweepsPlayNoPart(h: seq<Event>, n: nat, window: int)
    ensures Since(Unswept(h), n, window) == Since(h, n, window)
  {
    if h != [] {
      var front, last := Unswept(h[..|h| - 1]), h[|h| - 1];
      SweepsPlayNoPart(h[..|h| - 1], n, window);
      if last.Sweep? {
        assert Unswept(h) == front;
      } else {
        assert Unswept(h)[..|front|] == front && Unswept(h)[|front|] == last;
      }
    }
  }

  lemma {:induction false} UnsweptInOrder(h: seq<Event>)
    requires InOrder(h)
    ensures InOrder(Unswept(h))
    ensures forall e :: e in Unswept(h) ==> e in h
  {
    if h != [] {
      var front := h[..|h| - 1];
      assert InOrder(front) by {
        assert forall i :: 0 <= i < |front| ==> front[i] == h[i];
      }
      UnsweptInOrder(front);
      forall i | 0 <= i < |Unswept(front)| ensures Unswept(front)[i].at <= h[|h| - 1].at {
        assert Unswept(front)[i] in front;
        var k :| 0 <= k < |front| && front[k] == Unswept(front)[i];
        assert h[k] == front[k];
      }
    }
  }

  /** Sweeping stale suspicions never changes which sighting confirms. */
  lemma SweepsChangeNothing(h: seq<Event>, at: int, n: nat, window: int)
    requires n >= 2 && window <= DAY && InOrder(h + [Sight(at)])
    ensures Confirms(Unswept(h), at, n, window) <==> Confirms(h, at, n, window)
  {
    var all := h + [Sight(at)];
    assert all[..|h|] == h;
    UnsweptInOrder(all);
    assert Unswept(all) == Unswept(h) + [Sight(at)];
    ConfirmsIffRun(h, at, n, window);
    ConfirmsIffRun(Unswept(h), at, n, window);
    SweepsPlayNoPart(h, n, window);
  }

  /** Sightings at one moment. */
  function Early(n: nat): seq<Event> {
    seq(n, i => Sight(0))
  }

  lemma {:induction false} EarlyCounts(k: nat, n: nat, window: int)
    requires k < n && window >= 0
    ensures RowAfter(Early(k), n, window) == if k == 0 then None else Some(Seen(k, 0))
    ensures Unswept(Early(k)) == Early(k)
  {
    if k > 0 {
      EarlyCounts(k - 1, n, window);
      assert Early(k)[..k - 1] == Early(k - 1);
    }
  }

  /** With a window over a day a sweep can cost a confirmation, whatever the count. */
  lemma LongWindowsAreSwept(n: nat, window: int)
    requires n >= 2 && window > DAY
    ensures var h := Early(n - 1) + [Sweep(DAY + 1)];
            && InOrder(h + [Sight(DAY + 1)])
            && !Confirms(h, DAY + 1, n, window)
            && Confirms(Unswept(h), DAY + 1, n, window)
  {
    var early := Early(n - 1);
    var h := early + [Sweep(DAY + 1)];
    EarlyCounts(n - 1, n, window);
    assert h[..|h| - 1] == early;
    assert Unswept(h) == early + [] == early;
    assert RowAfter(Unswept(h), n, window) == Some(Seen(n - 1, 0));
  }

  /** No sweep ever changes a confirmation. */
  ghost predicate SweepsAreSafe(n: nat, window: int) {
    forall h: seq<Event>, at: int :: InOrder(h + [Sight(at)]) ==>
      (Confirms(Unswept(h), at, n, window) <==> Confirms(h, at, n, window))
  }

  /** Sweeping is safe exactly for windows of at most a day. */
  lemma SweepsAreSafeIff(n: nat, window: int)
    requires n >= 2
    ensures SweepsAreSafe(n, window) <==> window <= 86_400
  {
    hide Confirms, InOrder, Unswept;
    if window <= DAY {
      forall h: seq<Event>, at: int | InOrder(h + [Sight(at)])
        ensures Confirms(Unswept(h), at, n, window) <==> Confirms(h, at, n, window)
      {
        SweepsChangeNothing(h, at, n, window);
      }
    } else {
      LongWindowsAreSwept(n, window);
      var h := Early(n - 1) + [Sweep(DAY + 1)];
      assert InOrder(h + [Sight(DAY + 1)]);
    }
  }
}
