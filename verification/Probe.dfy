/** `_direct_probe.advance`: one step of a name's probe. Two counters stop where
    the rules need no more, a failed DNS check latches, and failing lasts at least half an
    hour; the lemmas say what of the whole history that comes to. */
module Probe {
  import opened Text
  import opened Numbers

  const FAILING_AFTER := 2
  const OK_AFTER := 2

  /** Thirty minutes, in seconds. */
  const MIN_FAILING := 1_800

  datatype Status = Unknown | Working | Failing

  datatype Layer = Dns | Connect | Tls | Route

  datatype State = State(status: Status, failures: nat, successes: nat, failingSince: Option<int>, dnsBad: bool)

  /** `ok`, the layer that failed, and whether the probe is the job's, which reads DNS, or a light one. */
  datatype Outcome = Outcome(ok: bool, layer: Option<Layer>, job: bool)

  const RESET := State(Unknown, 0, 0, None, false)

  function Advance(current: State, outcome: Outcome, now: int): State {
    if outcome.ok then
      if !outcome.job && current.dnsBad then current
      else
        var successes := Min(current.successes + 1, OK_AFTER);
        var back :=
          && current.status == Failing && successes >= OK_AFTER
          && current.failingSince.Some? && now - current.failingSince.value >= MIN_FAILING;
        State(
          if current.status == Unknown || back then Working else current.status,
          0, successes, if back then None else current.failingSince, if outcome.job then false else current.dnsBad)
    else
      var failures := Min(current.failures + 1, FAILING_AFTER);
      var dns := outcome.layer == Some(Dns);
      var fails := current.status != Failing && (dns || failures >= FAILING_AFTER);
      State(if fails then Failing else current.status, failures, 0,
            if fails then Some(now) else current.failingSince, current.dnsBad || dns)
  }

  /* ---- The history ---- */

  datatype Event = Event(outcome: Outcome, at: int)

  function After(h: seq<Event>): State {
    if h == [] then RESET else Advance(After(h[..|h| - 1]), h[|h| - 1].outcome, h[|h| - 1].at)
  }

  predicate DnsFailure(e: Event) {
    !e.outcome.ok && e.outcome.layer == Some(Dns)
  }

  predicate GoodJob(e: Event) {
    e.outcome.ok && e.outcome.job
  }

  /** A DNS failure that no good probe of the job's followed. */
  predicate Latched(h: seq<Event>) {
    exists i :: 0 <= i < |h| && DnsFailure(h[i]) && forall j :: i < j < |h| ==> !GoodJob(h[j])
  }

  /** The results that count, in order: a light success during a latched DNS failure does not. */
  function Results(h: seq<Event>): seq<bool> {
    if h == [] then []
    else
      var front, e := h[..|h| - 1], h[|h| - 1];
      if e.outcome.ok && !e.outcome.job && Latched(front) then Results(front) else Results(front) + [e.outcome.ok]
  }

  /** How many of the last results are `good`. */
  function Trail(results: seq<bool>, good: bool): nat {
    if results == [] || results[|results| - 1] != good then 0 else Trail(results[..|results| - 1], good) + 1
  }

  /** When the name last went from another state to failing. */
  function EnteredAt(h: seq<Event>): Option<int> {
    if h == [] || After(h).status != Failing then None
    else if After(h[..|h| - 1]).status == Failing then EnteredAt(h[..|h| - 1])
    else Some(h[|h| - 1].at)
  }

  lemma LatchedSnoc(h: seq<Event>, e: Event)
    ensures Latched(h + [e]) <==> DnsFailure(e) || (Latched(h) && !GoodJob(e))
  {
    var all := h + [e];
    assert all[|h|] == e && forall i :: 0 <= i < |h| ==> all[i] == h[i];
    if Latched(h) && !GoodJob(e) {
      var i :| 0 <= i < |h| && DnsFailure(h[i]) && forall j :: i < j < |h| ==> !GoodJob(h[j]);
      assert DnsFailure(all[i]);
    }
    if DnsFailure(e) {
      assert DnsFailure(all[|h|]);
    }
    if Latched(all) && !DnsFailure(e) {
      var i :| 0 <= i < |all| && DnsFailure(all[i]) && forall j :: i < j < |all| ==> !GoodJob(all[j]);
      assert DnsFailure(h[i]);
      assert !GoodJob(all[|h|]);
      assert forall j :: i < j < |h| ==> !GoodJob(all[j]);
    }
  }

  lemma TrailSnoc(results: seq<bool>, r: bool, good: bool)
    ensures Trail(results + [r], good) == if r == good then Trail(results, good) + 1 else 0
  {
    assert (results + [r])[..|results|] == results;
  }

  /** The counters are the history's, up to what the rules need; the latch is the
      DNS failure no good job probe followed, and a latched name is failing; the
      time kept is the time of entry. */
  lemma {:induction false} CountersAreHistory(h: seq<Event>)
    ensures var s := After(h);
            && s.failures == Min(Trail(Results(h), false), FAILING_AFTER)
            && s.successes == Min(Trail(Results(h), true), OK_AFTER)
            && s.dnsBad == Latched(h)
            && (s.dnsBad ==> s.status == Failing)
            && s.failingSince == EnteredAt(h)
            && (s.status == Failing <==> EnteredAt(h).Some?)
  {
    if h != [] {
      var front, e := h[..|h| - 1], h[|h| - 1];
      assert h == front + [e];
      CountersAreHistory(front);
      LatchedSnoc(front, e);
      TrailSnoc(Results(front), e.outcome.ok, true);
      TrailSnoc(Results(front), e.outcome.ok, false);
    }
  }

  lemma HistorySnoc(h: seq<Event>, e: Event)
    ensures After(h + [e]) == Advance(After(h), e.outcome, e.at)
    ensures Results(h + [e]) ==
            if e.outcome.ok && !e.outcome.job && Latched(h) then Results(h) else Results(h) + [e.outcome.ok]
  {
    hide Advance, Latched;
    assert (h + [e])[..|h|] == h;
  }

  /** Failing is entered exactly on a DNS failure, or on a failure after one that counted last. */
  lemma EntersIff(h: seq<Event>, e: Event)
    requires After(h).status != Failing
    ensures After(h + [e]).status == Failing <==> DnsFailure(e) || Trail(Results(h + [e]), false) >= 2
  {
    hide After, Results, Latched, Trail, EnteredAt;
    HistorySnoc(h, e);
    CountersAreHistory(h);
    TrailSnoc(Results(h), e.outcome.ok, false);
  }

  /** Failing is left exactly when the last two results that count are good, half
      an hour passed since it was entered, and a good job probe followed every DNS failure. */
  lemma LeavesIff(h: seq<Event>, e: Event)
    requires After(h).status == Failing
    ensures EnteredAt(h).Some?
    ensures After(h + [e]).status != Failing <==>
            && Trail(Results(h + [e]), true) >= 2
            && e.at - EnteredAt(h).value >= 1_800
            && !Latched(h + [e])
  {
    hide After, Results, Latched, Trail, EnteredAt;
    HistorySnoc(h, e);
    CountersAreHistory(h);
    LatchedSnoc(h, e);
    TrailSnoc(Results(h), e.outcome.ok, true);
  }

  /** A name not checked yet works from its first good probe. */
  lemma FirstGoodProbeWorks(h: seq<Event>, e: Event)
    requires After(h).status == Unknown
    ensures After(h + [e]).status == Working <==> e.outcome.ok
  {
    assert (h + [e])[..|h|] == h;
    CountersAreHistory(h);
  }

  /* ---- The anti-flap bound ---- */

  predicate InOrder(h: seq<Event>) {
    forall i, j :: 0 <= i < j < |h| ==> h[i].at <= h[j].at
  }

  function StatusAt(h: seq<Event>, k: nat): Status
    requires k <= |h|
  {
    After(h[..k]).status
  }

  /** The probe at `k` changed the state. */
  predicate Changes(h: seq<Event>, k: nat)
    requires k < |h|
  {
    StatusAt(h, k) != StatusAt(h, k + 1)
  }

  /** The last change before probe `k`, or -1. */
  function LastChange(h: seq<Event>, k: nat): (m: int)
    requires k <= |h|
    ensures -1 <= m < k
  {
    if k == 0 then -1 else if Changes(h, k - 1) then k - 1 else LastChange(h, k - 1)
  }

  lemma StatusStep(h: seq<Event>, k: nat)
    requires k < |h|
    ensures After(h[..k + 1]) == Advance(After(h[..k]), h[k].outcome, h[k].at)
  {
    assert h[..k + 1][..k] == h[..k];
  }

  lemma StartsUnknown(h: seq<Event>)
    ensures After(h[..0]) == RESET
  {
  }

  /** Since the last change nothing changed; without one the name is unknown, and
      when it is failing, the time kept is that of the change. */
  lemma {:induction false} SinceLastChange(h: seq<Event>, k: nat)
    requires k <= |h|
    ensures var m := LastChange(h, k);
            && (forall x :: m < x < k ==> !Changes(h, x))
            && (m == -1 <==> StatusAt(h, k) == Unknown)
            && (m >= 0 ==> Changes(h, m) && StatusAt(h, k) == StatusAt(h, m + 1))
            && (StatusAt(h, k) == Failing ==> m >= 0 && After(h[..k]).failingSince == Some(h[m].at))
  {
    hide After;
    if k > 0 {
      SinceLastChange(h, k - 1);
      StatusStep(h, k - 1);
    } else {
      StartsUnknown(h);
    }
  }

  /** A change out of failing comes half an hour after the change into it. */
  lemma LeavesLate(h: seq<Event>, k: nat)
    requires k < |h| && Changes(h, k) && StatusAt(h, k) == Failing
    ensures LastChange(h, k) >= 0 && h[k].at - h[LastChange(h, k)].at >= MIN_FAILING
  {
    SinceLastChange(h, k);
    StatusStep(h, k);
  }

  /** Of any three changes the last comes half an hour after the first: a run
      changes state at most twice in any half-open window of thirty minutes. */
  lemma ThreeChangesTakeHalfAnHour(h: seq<Event>, i: nat, j: nat, k: nat)
    requires InOrder(h) && i < j < k < |h| && Changes(h, i) && Changes(h, j) && Changes(h, k)
    ensures h[k].at - h[i].at >= 1_800
  {
    hide After;
    SinceLastChange(h, k);
    var m := LastChange(h, k);
    assert j <= m;
    if StatusAt(h, k) == Failing {
      LeavesLate(h, k);
    } else {
      SinceLastChange(h, m);
      assert i <= LastChange(h, m);
      StatusStep(h, m);
      WorkingComesFromFailing(h, m);
      LeavesLate(h, m);
    }
  }

  /** A change to working, once there was another change, is one out of failing. */
  lemma WorkingComesFromFailing(h: seq<Event>, m: nat)
    requires m < |h| && Changes(h, m) && StatusAt(h, m + 1) == Working && StatusAt(h, m) != Unknown
    ensures StatusAt(h, m) == Failing
  {
  }
}
