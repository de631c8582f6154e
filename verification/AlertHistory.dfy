/** One target's alert over a history of calls, each in a transaction of its own:
    suspicion and alert together. */
module AlertHistory {
  import opened Text
  import opened Alerts
  import opened AlertSafety
  import S = Suspicion

  /** `raise_alert`, `resolve_alert`, a dismissal by hand, and the sweep of stale suspicions. */
  datatype Call = Sees(at: int) | Clears(at: int) | Dismissed(at: int) | Sweeps(at: int)

  /** The tables between two calls: no transaction is open. */
  ghost predicate Quiet(w: World) {
    Safe(w) && w.txs == map[]
  }

  /** An alert of the identity is active. */
  predicate Open(w: World, ask: Ask) {
    exists id :: id in w.rows && Matches(ask, w.rows[id].alert)
  }

  function RaisedBy(w: World, ask: Ask, confirmed: bool, pick: int): World
    requires w.txs == map[]
    requires var began := Begin(w, 0); Finds(View(began.txs[0]), ask) ==> Hits(View(began.txs[0]), ask, pick)
  {
    var after := Raise(Begin(w, 0), 0, ask, false, confirmed, pick).0;
    if 0 in after.txs then Commit(after, 0) else after
  }

  function DismissedBy(w: World, pick: int): World
    requires w.txs == map[] && pick in View(Begin(w, 0).txs[0])
  {
    var after := Dismiss(Begin(w, 0), 0, pick).0;
    if 0 in after.txs then Commit(after, 0) else after
  }

  /** The row a search finds, any if there are more. */
  ghost function Found(w: World, ask: Ask): (id: int)
    ensures Open(w, ask) ==> id in w.rows && Matches(ask, w.rows[id].alert)
  {
    if Open(w, ask) then
      var id :| id in w.rows && Matches(ask, w.rows[id].alert);
      id
    else 0
  }

  lemma SearchIs(w: World, ask: Ask)
    requires w.txs == map[]
    ensures var view := View(Begin(w, 0).txs[0]);
            && (Finds(view, ask) <==> Open(w, ask))
            && (Open(w, ask) ==> Hits(view, ask, Found(w, ask)))
            && (forall id :: id in view <==> id in w.rows)
            && (forall id :: id in view ==> view[id] == w.rows[id].alert)
  {
    hide Matches;
    var view := View(Begin(w, 0).txs[0]);
    if id :| id in w.rows && Matches(ask, w.rows[id].alert) {
      assert Hits(view, ask, id);
    }
  }

  /** The tables and the suspicion after a call. */
  ghost function After(w: World, row: Option<S.Seen>, call: Call, ask: Ask, n: nat, window: int): (World, Option<S.Seen>)
    requires w.txs == map[]
  {
    SearchIs(w, ask);
    match call
    case Sees(at) =>
      if Open(w, ask) then (RaisedBy(w, ask, true, Found(w, ask)), row)
      else
        var (next, confirmed) := if n > 1 then S.Sighted(row, at, n, window) else (row, true);
        (RaisedBy(w, ask, confirmed, 0), next)
    case Clears(_) => (if Open(w, ask) then DismissedBy(w, Found(w, ask)) else w, None)
    case Dismissed(_) => (if Open(w, ask) then DismissedBy(w, Found(w, ask)) else w, row)
    case Sweeps(at) => (w, S.Swept(row, at))
  }

  /* ---- One transaction at a time ---- */

  /** A write of a row, committed at once. */
  lemma WritesAlone(w: World, id: int, a: Alert)
    requires w.txs == map[] && id in w.rows
    ensures var began := Begin(w, 0); var (after, outcome) := WriteRow(began, 0, id, a);
            && outcome == Wrote(id) && 0 in after.txs && Commit(after, 0).txs == map[]
            && var rows := Commit(after, 0).rows;
               && (forall i :: i in rows <==> i in w.rows)
               && (forall i :: i in rows ==> rows[i].alert == if i == id then a else w.rows[i].alert)
  {
  }

  /** An insert, committed at once. */
  lemma InsertsAlone(w: World, a: Alert)
    requires w.txs == map[] && forall i :: i in w.rows ==> i < w.nextId && !SameEntry(a, w.rows[i].alert)
    ensures var began := Begin(w, 0); var (after, outcome) := InsertRow(began, 0, a);
            && outcome == Inserted(w.nextId) && 0 in after.txs && Commit(after, 0).txs == map[]
            && var rows := Commit(after, 0).rows;
               && w.nextId in rows && rows[w.nextId].alert == a
  {
    hide SameEntry;
  }

  /** Without a competitor, a raise leaves the alert open exactly when it was, or is confirmed. */
  lemma RaiseOpens(w: World, ask: Ask, confirmed: bool)
    requires Quiet(w) && LinkedAsk(ask) && Covered(Created(ask))
    requires var began := Begin(w, 0); Finds(View(began.txs[0]), ask) ==> Hits(View(began.txs[0]), ask, Found(w, ask))
    requires Finds(View(Begin(w, 0).txs[0]), ask) <==> Open(w, ask)
    ensures var next := RaisedBy(w, ask, confirmed, Found(w, ask));
            Quiet(next) && (Open(next, ask) <==> Open(w, ask) || confirmed)
  {
    hide Safe, Matches, SameEntry, Covered, LinkedAsk, LinkedAlert, View, WriteRow, InsertRow, Commit, IndexKey;
    var began, pick := Begin(w, 0), Found(w, ask);
    SearchIs(w, ask);
    BeginKeeps(w, 0);
    RaiseKeeps(began, 0, ask, false, confirmed, pick);
    var after := Raise(began, 0, ask, false, confirmed, pick).0;
    if Open(w, ask) {
      var a := Refreshed(w.rows[pick].alert, ask);
      WritesAlone(w, pick, a);
      CommitKeeps(after, 0);
      RefreshMatches(ask, w.rows[pick].alert);
      var next := RaisedBy(w, ask, confirmed, pick);
      assert pick in next.rows && next.rows[pick].alert == a;
    } else if confirmed {
      NoneTaken(w, ask);
      InsertsAlone(w, Created(ask));
      CommitKeeps(after, 0);
      CreatedMatches(ask);
      var next := RaisedBy(w, ask, confirmed, pick);
      assert w.nextId in next.rows && Matches(ask, next.rows[w.nextId].alert);
    } else {
      CommitKeeps(began, 0);
      NothingCommitted(w);
    }
  }

  lemma NothingCommitted(w: World)
    requires w.txs == map[]
    ensures var next := Commit(Begin(w, 0), 0);
            next.txs == map[] && next.rows == w.rows
  {
  }

  lemma RefreshMatches(ask: Ask, a: Alert)
    requires Matches(ask, a)
    ensures Matches(ask, Refreshed(a, ask))
  {
  }

  /** An insert of what no search finds meets no entry. */
  lemma NoneTaken(w: World, ask: Ask)
    requires Quiet(w) && LinkedAsk(ask) && Covered(Created(ask)) && !Open(w, ask)
    ensures forall i :: i in w.rows ==> i < w.nextId && !SameEntry(Created(ask), w.rows[i].alert)
  {
    hide Matches, SameEntry, Covered, LinkedAsk, LinkedAlert;
    forall i | i in w.rows ensures i < w.nextId && !SameEntry(Created(ask), w.rows[i].alert) {
      DomainIsIndex(ask, w.rows[i].alert);
    }
  }

  /** A dismissal leaves none open: there was one. */
  lemma DismissCloses(w: World, ask: Ask)
    requires Quiet(w) && LinkedAsk(ask) && Covered(Created(ask)) && Open(w, ask)
    requires Found(w, ask) in View(Begin(w, 0).txs[0])
    ensures var next := DismissedBy(w, Found(w, ask)); Quiet(next) && !Open(next, ask)
  {
    hide Safe, Matches, SameEntry, Covered, LinkedAsk, LinkedAlert, View, WriteRow, Commit, IndexKey;
    var began, pick := Begin(w, 0), Found(w, ask);
    SearchIs(w, ask);
    BeginKeeps(w, 0);
    DismissKeeps(began, 0, pick);
    var a := w.rows[pick].alert.(active := false);
    WritesAlone(w, pick, a);
    CommitKeeps(Dismiss(began, 0, pick).0, 0);
    InactiveMatchesNothing(ask, a);
    var next := DismissedBy(w, pick);
    if id :| id in next.rows && Matches(ask, next.rows[id].alert) {
      OnlyOne(w, ask, pick, id);
    }
  }

  lemma InactiveMatchesNothing(ask: Ask, a: Alert)
    requires !a.active
    ensures !Matches(ask, a)
  {
  }

  lemma OnlyOne(w: World, ask: Ask, i: int, j: int)
    requires Quiet(w) && LinkedAsk(ask) && Covered(Created(ask)) && i in w.rows && j in w.rows
    requires Matches(ask, w.rows[i].alert) && Matches(ask, w.rows[j].alert)
    ensures i == j
  {
    hide Matches, SameEntry, Covered, LinkedAsk, LinkedAlert;
    DomainIsIndex(ask, w.rows[i].alert);
    DomainIsIndex(ask, w.rows[j].alert);
    SameEntryTransitive(Created(ask), w.rows[i].alert, w.rows[j].alert);
  }

  /* ---- One call after another ---- */

  lemma RaiseIsQuiet(w: World, ask: Ask)
    requires w.txs == map[]
    requires var began := Begin(w, 0); Finds(View(began.txs[0]), ask) ==> Hits(View(began.txs[0]), ask, Found(w, ask))
    ensures RaisedBy(w, ask, true, Found(w, ask)).txs == map[]
  {
    hide View, Matches, Covered, EntryTaken, EntryHeldByOther;
  }

  /** The tables after these calls, each committed before the next. */
  ghost function RaisedAll(w: World, asks: seq<Ask>): (last: World)
    requires w.txs == map[]
    ensures last.txs == map[]
  {
    if asks == [] then w
    else
      var before, ask := RaisedAll(w, asks[..|asks| - 1]), asks[|asks| - 1];
      SearchIs(before, ask);
      RaiseIsQuiet(before, ask);
      RaisedBy(before, ask, true, Found(before, ask))
  }

  /** The calls are about one thing. */
  predicate OneTarget(asks: seq<Ask>) {
    forall i :: 0 <= i < |asks| ==>
      && LinkedAsk(asks[i]) && asks[i].code == asks[0].code && asks[i].instance == asks[0].instance
      && asks[i].project == asks[0].project && asks[i].key == asks[0].key
      && (asks[i].instance.None? ==> asks[i].host == asks[0].host)
  }

  lemma OneTargetMatches(asks: seq<Ask>, i: nat)
    requires OneTarget(asks) && i < |asks|
    ensures forall a :: Matches(asks[i], a) <==> Matches(asks[0], a)
    ensures Covered(Created(asks[i])) <==> Covered(Created(asks[0]))
    ensures LinkedAsk(asks[i]) && Matches(asks[i], Created(asks[0]))
  {
  }

  /** The one active row of the target is what its calls made of it. */
  lemma {:induction false} RaisedIsKept(w: World, asks: seq<Ask>)
    requires Quiet(w) && asks != [] && OneTarget(asks) && Covered(Created(asks[0])) && !Open(w, asks[0])
    ensures var last := RaisedAll(w, asks);
            Quiet(last) && Open(last, asks[0]) && last.rows[Found(last, asks[0])].alert == Kept(asks)
  {
    hide Safe, Matches, Covered, LinkedAsk, RaisedBy;
    var n := |asks| - 1;
    var front, ask := asks[..n], asks[n];
    var before := RaisedAll(w, front);
    SearchIs(before, ask);
    OneTargetMatches(asks, n);
    if n == 0 {
      assert front == [];
      RaiseOpens(w, ask, true);
      FilesWhat(w, ask);
    } else {
      assert forall i :: 0 <= i < n ==> front[i] == asks[i];
      assert OneTarget(front);
      RaisedIsKept(w, front);
      RaiseOpens(before, ask, true);
      RefreshesWhat(before, asks[0], ask);
    }
  }

  lemma FilesWhat(w: World, ask: Ask)
    requires Quiet(w) && LinkedAsk(ask) && Covered(Created(ask)) && !Open(w, ask)
    requires !Finds(View(Begin(w, 0).txs[0]), ask)
    requires var next := RaisedBy(w, ask, true, Found(w, ask)); Quiet(next) && Open(next, ask)
    ensures var next := RaisedBy(w, ask, true, Found(w, ask)); next.rows[Found(next, ask)].alert == Created(ask)
  {
    hide Safe, Matches, SameEntry, Covered, LinkedAsk, LinkedAlert, View, InsertRow, Commit, IndexKey;
    var next := RaisedBy(w, ask, true, Found(w, ask));
    NoneTaken(w, ask);
    InsertsAlone(w, Created(ask));
    CreatedMatches(ask);
    OnlyOne(next, ask, Found(next, ask), w.nextId);
  }

  lemma RefreshesWhat(w: World, first: Ask, ask: Ask)
    requires Quiet(w) && LinkedAsk(ask) && LinkedAsk(first) && Covered(Created(first)) && Open(w, first)
    requires forall a :: Matches(ask, a) <==> Matches(first, a)
    requires Finds(View(Begin(w, 0).txs[0]), ask) && Hits(View(Begin(w, 0).txs[0]), ask, Found(w, ask))
    requires var next := RaisedBy(w, ask, true, Found(w, ask)); Quiet(next)
    ensures var next := RaisedBy(w, ask, true, Found(w, ask));
            Open(next, first) && next.rows[Found(next, first)].alert == Refreshed(w.rows[Found(w, first)].alert, ask)
  {
    hide Safe, Matches, SameEntry, Covered, LinkedAsk, LinkedAlert, View, WriteRow, Commit, IndexKey;
    var next, pick := RaisedBy(w, ask, true, Found(w, ask)), Found(w, ask);
    SearchIs(w, ask);
    var a := Refreshed(w.rows[pick].alert, ask);
    OnlyOne(w, first, pick, Found(w, first));
    WritesAlone(w, pick, a);
    RefreshMatches(ask, w.rows[pick].alert);
    assert pick in next.rows && next.rows[pick].alert == a && Matches(first, a);
    OnlyOne(next, first, Found(next, first), pick);
  }

  /** However often it is raised, there is one alert of the target: it says what the last
      call said, where the last one said it runs, and whether it ever was critical. */
  lemma RaisesKeepOneAlert(w: World, asks: seq<Ask>)
    requires Quiet(w) && asks != [] && OneTarget(asks) && Covered(Created(asks[0])) && !Open(w, asks[0])
    ensures var last := RaisedAll(w, asks);
            && Open(last, asks[0])
            && (forall id :: id in last.rows && Matches(asks[0], last.rows[id].alert) ==> id == Found(last, asks[0]))
            && var a := last.rows[Found(last, asks[0])].alert;
               && a.message == asks[|asks| - 1].message && a.level == asks[|asks| - 1].level
               && a.host == LastHost(asks)
               && (a.wasCritical <==> exists i :: 0 <= i < |asks| && asks[i].level == Critical)
  {
    hide Safe, Matches, Covered, LinkedAsk, RaisedAll, Kept;
    RaisedIsKept(w, asks);
    var last := RaisedAll(w, asks);
    forall i | 0 <= i < |asks| ensures LinkedAsk(asks[i]) && Matches(asks[i], Created(asks[0])) {
      OneTargetMatches(asks, i);
    }
    NotOfJobs(asks[0]);
    RefreshesKeepTheAlert(asks);
    forall id | id in last.rows && Matches(asks[0], last.rows[id].alert) ensures id == Found(last, asks[0]) {
      OnlyOne(last, asks[0], id, Found(last, asks[0]));
    }
  }

  lemma NotOfJobs(ask: Ask)
    requires Covered(Created(ask))
    ensures ask.code != "job_failed"
  {
  }

  /* ---- A history ---- */

  ghost function Served(w: World, h: seq<Call>, ask: Ask, n: nat, window: int): (World, Option<S.Seen>)
    requires Quiet(w) && LinkedAsk(ask) && Covered(Created(ask))
    ensures Quiet(Served(w, h, ask, n, window).0)
  {
    if h == [] then (w, None)
    else
      var (before, row) := Served(w, h[..|h| - 1], ask, n, window);
      AfterIs(before, row, h[|h| - 1], ask, n, window);
      After(before, row, h[|h| - 1], ask, n, window)
  }

  /** What a call does to the alert. */
  lemma AfterIs(w: World, row: Option<S.Seen>, call: Call, ask: Ask, n: nat, window: int)
    requires Quiet(w) && LinkedAsk(ask) && Covered(Created(ask))
    ensures var next := After(w, row, call, ask, n, window).0;
            && Quiet(next)
            && (Open(next, ask) <==>
                match call
                case Sees(at) => Open(w, ask) || n <= 1 || S.Sighted(row, at, n, window).1
                case Clears(_) => false
                case Dismissed(_) => false
                case Sweeps(_) => Open(w, ask))
  {
    hide Safe, Covered, LinkedAsk, RaisedBy, DismissedBy, View, Matches;
    SearchIs(w, ask);
    match call
    case Sees(at) =>
      RaiseOpens(w, ask, Open(w, ask) || n <= 1 || S.Sighted(row, at, n, window).1);
      RaiseAnyPick(w, ask, Found(w, ask), 0);
    case Clears(_) =>
      if Open(w, ask) {
        DismissCloses(w, ask);
      }
    case Dismissed(_) =>
      if Open(w, ask) {
        DismissCloses(w, ask);
      }
    case Sweeps(_) =>
  }

  lemma RaiseAnyPick(w: World, ask: Ask, i: int, j: int)
    requires w.txs == map[]
    ensures !Finds(View(Begin(w, 0).txs[0]), ask) ==>
              forall confirmed :: RaisedBy(w, ask, confirmed, i) == RaisedBy(w, ask, confirmed, j)
  {
    hide View, InsertRow, Commit;
  }

  /** Some of these times end a run of `n`. */
  predicate HasRun(times: seq<int>, n: nat, window: int) {
    exists k :: 0 < k <= |times| && S.EndsRun(times[..k], n, window)
  }

  /** When the target was seen since it was last clear, or its alert last dismissed. */
  function Times(h: seq<Call>, n: nat, window: int): seq<int> {
    if h == [] then []
    else
      var times := Times(h[..|h| - 1], n, window);
      match h[|h| - 1]
      case Sees(at) => times + [at]
      case Clears(_) => []
      case Dismissed(_) => if HasRun(times, n, window) then [] else times
      case Sweeps(_) => times
  }

  predicate InOrder(h: seq<Call>) {
    forall i, j :: 0 <= i < j < |h| ==> h[i].at <= h[j].at
  }

  lemma HasRunSnoc(times: seq<int>, at: int, n: nat, window: int)
    ensures HasRun(times + [at], n, window) <==> HasRun(times, n, window) || S.EndsRun(times + [at], n, window)
  {
    hide S.EndsRun;
    var all := times + [at];
    assert forall k :: 0 < k <= |times| ==> all[..k] == times[..k];
    assert all[..|all|] == all;
  }

  /** The suspicion while no alert is open: it counts the last times; one sighting is none. */
  predicate Suspected(row: Option<S.Seen>, times: seq<int>, now: int, n: nat, window: int) {
    if n <= 1 then times == [] && row == None else S.Counts(row, times, now, n, window)
  }

  lemma LaterCounts(row: Option<S.Seen>, times: seq<int>, now: int, later: int, n: nat, window: int)
    requires Suspected(row, times, now, n, window) && now <= later
    ensures Suspected(row, times, later, n, window)
    ensures Suspected(S.Swept(row, later), times, later, n, window)
  {
    hide S.Streak;
  }

  lemma ClearCounts(now: int, n: nat, window: int)
    ensures Suspected(None, [], now, n, window)
    ensures !HasRun([], n, window)
  {
  }

  /** The alert, and the suspicion, after one call. */
  lemma CallKeeps(w: World, row: Option<S.Seen>, times: seq<int>, now: int, call: Call, ask: Ask, n: nat, window: int)
    requires Quiet(w) && LinkedAsk(ask) && Covered(Created(ask)) && n >= 1 && window <= S.DAY && now <= call.at
    requires Open(w, ask) <==> HasRun(times, n, window)
    requires if Open(w, ask) then row == None else Suspected(row, times, now, n, window)
    ensures var (next, nextRow) := After(w, row, call, ask, n, window);
            var nextTimes := match call
                             case Sees(at) => times + [at]
                             case Clears(_) => []
                             case Dismissed(_) => if HasRun(times, n, window) then [] else times
                             case Sweeps(_) => times;
            && (Open(next, ask) <==> HasRun(nextTimes, n, window))
            && (if Open(next, ask) then nextRow == None else Suspected(nextRow, nextTimes, call.at, n, window))
  {
    hide Quiet, Open, Covered, LinkedAsk, RaisedBy, DismissedBy, HasRun, S.Counts, S.EndsRun;
    AfterIs(w, row, call, ask, n, window);
    ClearCounts(call.at, n, window);
    match call
    case Sees(at) =>
      HasRunSnoc(times, at, n, window);
      if !Open(w, ask) {
        if n > 1 {
          S.SightCounts(row, times, now, at, n, window);
          ConfirmedIsGone(row, at, n, window);
        } else {
          AnyIsRun(times + [at], window);
        }
      }
    case Clears(_) =>
    case _ =>
      if !Open(w, ask) {
        LaterCounts(row, times, now, call.at, n, window);
      }
  }

  lemma ConfirmedIsGone(row: Option<S.Seen>, at: int, n: nat, window: int)
    ensures S.Sighted(row, at, n, window).1 ==> S.Sighted(row, at, n, window).0 == None
  {
  }

  lemma AnyIsRun(times: seq<int>, window: int)
    requires times != []
    ensures S.EndsRun(times, 1, window)
  {
  }

  lemma {:induction false} HistoryKeeps(w: World, h: seq<Call>, ask: Ask, n: nat, window: int)
    requires Quiet(w) && LinkedAsk(ask) && Covered(Created(ask)) && !Open(w, ask)
    requires n >= 1 && window <= S.DAY && InOrder(h) && h != []
    ensures var (last, row) := Served(w, h, ask, n, window); var times := Times(h, n, window);
            && (Open(last, ask) <==> HasRun(times, n, window))
            && (if Open(last, ask) then row == None else Suspected(row, times, h[|h| - 1].at, n, window))
  {
    hide Quiet, Open, Covered, LinkedAsk, After, HasRun, S.Counts;
    var front, call := h[..|h| - 1], h[|h| - 1];
    if front == [] {
      ClearCounts(call.at, n, window);
      assert Times(front, n, window) == [];
      CallKeeps(w, None, [], call.at, call, ask, n, window);
    } else {
      HistoryKeeps(w, front, ask, n, window);
      var (before, row) := Served(w, front, ask, n, window);
      assert front[|front| - 1].at <= call.at;
      CallKeeps(before, row, Times(front, n, window), front[|front| - 1].at, call, ask, n, window);
    }
  }

  /** With a count and a window of at most a day, an alert is open exactly when, since
      the target was last clear or its alert last dismissed, it was seen that many times,
      each within the window of the one before: sweeps and refreshes play no part. */
  lemma OpenIffRun(w: World, h: seq<Call>, ask: Ask, n: nat, window: int)
    requires Quiet(w) && LinkedAsk(ask) && Covered(Created(ask)) && !Open(w, ask)
    requires n >= 1 && window <= S.DAY && InOrder(h)
    ensures Open(Served(w, h, ask, n, window).0, ask) <==> HasRun(Times(h, n, window), n, window)
  {
    if h != [] {
      HistoryKeeps(w, h, ask, n, window);
    }
  }
}
