/** At most one active alert an identity, in every interleaving of transactions. */
module AlertSafety {
  import opened Text
  import opened Alerts

  /** No two committed rows share an index entry. */
  ghost predicate Unique(rows: Rows) {
    forall i, j :: i in rows && j in rows && i != j ==> !SameEntry(rows[i].alert, rows[j].alert)
  }

  ghost predicate LinkedRows(rows: Rows) {
    forall i :: i in rows ==> LinkedAlert(rows[i].alert)
  }

  /** A row is written by one open transaction at a time. */
  ghost predicate Exclusive(w: World) {
    forall t, u, i :: t in w.txs && u in w.txs && t != u && i in w.txs[t].writes ==> i !in w.txs[u].writes
  }

  /** An entry a transaction wrote is its own: no other row has it, but one the transaction took it from. */
  ghost predicate Own(w: World, t: int)
    requires t in w.txs
  {
    var tx := w.txs[t];
    && LinkedRows(tx.snapshot)
    && (forall i :: i in tx.writes ==> LinkedAlert(tx.writes[i]) && i < w.nextId)
    && (forall i :: i in tx.snapshot ==> i < w.nextId && i in w.rows && w.rows[i].stamp >= tx.snapshot[i].stamp)
    && (forall i :: i in tx.snapshot && w.rows[i].stamp == tx.snapshot[i].stamp ==> w.rows[i] == tx.snapshot[i])
    && (forall i, j :: i in tx.writes && j in tx.writes && i != j ==> !SameEntry(tx.writes[i], tx.writes[j]))
    && (forall i, j :: i in tx.writes && j in w.rows && i != j && SameEntry(tx.writes[i], w.rows[j].alert) ==> j in tx.writes)
  }

  ghost predicate Apart(w: World) {
    forall t, u, i, j :: t in w.txs && u in w.txs && t != u && i in w.txs[t].writes && j in w.txs[u].writes
      ==> !SameEntry(w.txs[t].writes[i], w.txs[u].writes[j])
  }

  ghost predicate Safe(w: World) {
    && Unique(w.rows) && LinkedRows(w.rows)
    && (forall i :: i in w.rows ==> i < w.nextId && w.rows[i].stamp <= w.clock)
    && Exclusive(w) && Apart(w)
    && (forall t :: t in w.txs ==> Own(w, t))
  }

  lemma EmptyIsSafe()
    ensures Safe(EMPTY)
  {
  }

  lemma BeginKeeps(w: World, t: int)
    requires Safe(w) && t !in w.txs
    ensures Safe(Begin(w, t))
  {
    var next := Begin(w, t);
    forall u | u in next.txs ensures Own(next, u) {
      assert u != t ==> Own(w, u);
    }
  }

  lemma DropKeeps(w: World, t: int)
    requires Safe(w)
    ensures Safe(Drop(w, t))
  {
    var next := Drop(w, t);
    forall u | u in next.txs ensures Own(next, u) {
      assert Own(w, u);
    }
  }

  /** What a write must not meet for the world to stay safe. */
  ghost predicate Free(w: World, t: int, id: int, a: Alert)
    requires t in w.txs
  {
    && LinkedAlert(a) && !HeldByOther(w, t, id)
    && (forall j :: j in w.rows && j != id && SameEntry(a, w.rows[j].alert) ==> j in w.txs[t].writes)
    && (forall j :: j in w.txs[t].writes && j != id ==> !SameEntry(a, w.txs[t].writes[j]))
    && (forall u, j :: u in w.txs && u != t && j in w.txs[u].writes ==> !SameEntry(a, w.txs[u].writes[j]))
  }

  lemma SameEntrySymmetric()
    ensures forall a, b :: SameEntry(a, b) ==> SameEntry(b, a)
  {
  }

  lemma PutKeepsOwn(w: World, t: int, id: int, a: Alert, u: int)
    requires t in w.txs && u in w.txs && Own(w, u)
    requires u == t ==> Free(w, t, id, a) && id < w.nextId
    ensures Own(Put(w, t, id, a), u)
  {
    hide SameEntry, LinkedAlert;
    SameEntrySymmetric();
  }

  lemma PutKeepsApart(w: World, t: int, id: int, a: Alert)
    requires t in w.txs && Apart(w) && Exclusive(w) && Free(w, t, id, a)
    ensures Apart(Put(w, t, id, a)) && Exclusive(Put(w, t, id, a))
  {
    hide SameEntry, LinkedAlert;
    SameEntrySymmetric();
    var next := Put(w, t, id, a);
    forall u, i | u in next.txs && u != t && i in next.txs[t].writes ensures i !in next.txs[u].writes {
      assert next.txs[u] == w.txs[u];
    }
  }

  lemma PutKeeps(w: World, t: int, id: int, a: Alert)
    requires Safe(w) && t in w.txs && Free(w, t, id, a) && id < w.nextId
    ensures Safe(Put(w, t, id, a))
  {
    hide SameEntry, LinkedAlert, Own, Apart, Exclusive, Free;
    var next := Put(w, t, id, a);
    PutKeepsApart(w, t, id, a);
    forall u | u in next.txs ensures Own(next, u) {
      PutKeepsOwn(w, t, id, a, u);
    }
  }

  lemma CommitKeeps(w: World, t: int)
    requires Safe(w) && t in w.txs
    ensures Safe(Commit(w, t))
  {
    var next := Commit(w, t);
    assert Own(w, t);
    assert Unique(next.rows);
    forall u | u in next.txs ensures Own(next, u) {
      assert Own(w, u);
    }
  }

  /* ---- Each statement ---- */

  /** What a transaction sees of a row it may write is what is committed, or its own. */
  lemma ViewIsCurrent(w: World, t: int, id: int)
    requires Safe(w) && t in w.txs && id in View(w.txs[t]) && !ChangedSince(w, t, id)
    ensures LinkedAlert(View(w.txs[t])[id]) && id < w.nextId
    ensures id !in w.txs[t].writes ==> id in w.rows && w.rows[id].alert == View(w.txs[t])[id]
  {
    assert Own(w, t);
  }

  /** Writing a row it sees, under the same entry or none, leaves the entry free. */
  lemma RewriteIsFree(w: World, t: int, id: int, a: Alert)
    requires Safe(w) && t in w.txs && id in View(w.txs[t]) && LinkedAlert(a)
    requires id in w.txs[t].writes || (!HeldByOther(w, t, id) && !ChangedSince(w, t, id))
    requires Covered(a) ==> SameEntry(View(w.txs[t])[id], a)
    ensures Free(w, t, id, a)
  {
    hide LinkedAlert;
    var was := View(w.txs[t])[id];
    assert Own(w, t);
    if id !in w.txs[t].writes {
      ViewIsCurrent(w, t, id);
    }
    forall j | j in w.rows && j != id && SameEntry(a, w.rows[j].alert) ensures j in w.txs[t].writes {
      assert SameEntry(was, w.rows[j].alert);
    }
    forall u, j | u in w.txs && u != t && j in w.txs[u].writes ensures !SameEntry(a, w.txs[u].writes[j]) {
      assert Own(w, u);
      assert SameEntry(a, w.txs[u].writes[j]) ==> SameEntry(w.txs[u].writes[j], was);
    }
  }

  lemma WriteRowKeeps(w: World, t: int, id: int, a: Alert)
    requires Safe(w) && t in w.txs && id in View(w.txs[t]) && LinkedAlert(a)
    requires Covered(a) ==> SameEntry(View(w.txs[t])[id], a)
    ensures Safe(WriteRow(w, t, id, a).0)
  {
    hide Safe, SameEntry, LinkedAlert, View, Covered;
    if id in w.txs[t].writes || (!HeldByOther(w, t, id) && !ChangedSince(w, t, id)) {
      RewriteIsFree(w, t, id, a);
      RowIsOld(w, t, id);
      PutKeeps(w, t, id, a);
    } else if !HeldByOther(w, t, id) {
      DropKeeps(w, t);
    }
  }

  lemma RowIsOld(w: World, t: int, id: int)
    requires Safe(w) && t in w.txs && id in View(w.txs[t])
    ensures id < w.nextId
  {
    assert Own(w, t);
  }

  lemma RoomKeeps(w: World)
    requires Safe(w)
    ensures Safe(w.(nextId := w.nextId + 1))
  {
    hide LinkedAlert, SameEntry;
    var roomy := w.(nextId := w.nextId + 1);
    forall u | u in roomy.txs ensures Own(roomy, u) {
      assert Own(w, u);
    }
  }

  lemma InsertRowKeeps(w: World, t: int, a: Alert)
    requires Safe(w) && t in w.txs && LinkedAlert(a)
    ensures Safe(InsertRow(w, t, a).0)
  {
    hide LinkedAlert, SameEntry, Safe, Free, Covered, EntryHeldByOther, EntryTaken;
    if !(Covered(a) && (EntryHeldByOther(w, t, a) || EntryTaken(w, t, a))) {
      var roomy := w.(nextId := w.nextId + 1);
      RoomKeeps(w);
      InsertIsFree(w, t, a);
      PutKeeps(roomy, t, w.nextId, a);
    }
  }

  lemma InsertIsFree(w: World, t: int, a: Alert)
    requires Safe(w) && t in w.txs && LinkedAlert(a)
    requires Covered(a) ==> !EntryHeldByOther(w, t, a) && !EntryTaken(w, t, a)
    ensures Free(w.(nextId := w.nextId + 1), t, w.nextId, a)
  {
    hide LinkedAlert, IndexKey;
    forall u | u in w.txs ensures w.nextId !in w.txs[u].writes {
      assert Own(w, u);
    }
  }

  lemma RaiseKeeps(w: World, t: int, ask: Ask, cancelled: bool, confirmed: bool, pick: int)
    requires Safe(w) && t in w.txs && LinkedAsk(ask)
    requires Finds(View(w.txs[t]), ask) ==> Hits(View(w.txs[t]), ask, pick)
    ensures Safe(Raise(w, t, ask, cancelled, confirmed, pick).0)
  {
    hide Safe, WriteRow, InsertRow, SameEntry, View;
    var view := View(w.txs[t]);
    if cancelled {
    } else if Finds(view, ask) {
      SeenIsLinked(w, t, pick);
      RefreshKeepsIdentity(ask, view[pick]);
      assert Covered(Refreshed(view[pick], ask)) ==> SameEntry(view[pick], Refreshed(view[pick], ask)) by {
        CoveredIsNotJobFailed(view[pick]);
      }
      WriteRowKeeps(w, t, pick, Refreshed(view[pick], ask));
    } else if confirmed {
      CreatedMatches(ask);
      InsertRowKeeps(w, t, Created(ask));
    }
  }

  lemma CoveredIsNotJobFailed(a: Alert)
    ensures Covered(a) ==> a.code != "job_failed"
  {
  }

  lemma SeenIsLinked(w: World, t: int, id: int)
    requires Safe(w) && t in w.txs && id in View(w.txs[t])
    ensures LinkedAlert(View(w.txs[t])[id])
  {
    assert Own(w, t);
  }

  lemma DismissKeeps(w: World, t: int, id: int)
    requires Safe(w) && t in w.txs && id in View(w.txs[t])
    ensures Safe(Dismiss(w, t, id).0)
  {
    hide Safe, WriteRow, View;
    SeenIsLinked(w, t, id);
    WriteRowKeeps(w, t, id, View(w.txs[t])[id].(active := false));
  }

  /* ---- Every interleaving ---- */

  datatype Event =
    | Begins(t: int)
    | Raises(t: int, ask: Ask, cancelled: bool, confirmed: bool, pick: int)
    | Dismisses(t: int, id: int)
    | Commits(t: int)
    | RollsBack(t: int)

  /** The event can happen: its transaction is open, or not yet, and it names rows that transaction sees. */
  ghost predicate Can(w: World, e: Event) {
    match e
    case Begins(t) => t !in w.txs
    case Raises(t, ask, _, _, pick) =>
      t in w.txs && LinkedAsk(ask) && (Finds(View(w.txs[t]), ask) ==> Hits(View(w.txs[t]), ask, pick))
    case Dismisses(t, id) => t in w.txs && id in View(w.txs[t])
    case Commits(t) => t in w.txs
    case RollsBack(t) => t in w.txs
  }

  ghost function After(w: World, e: Event): World
    requires Can(w, e)
  {
    match e
    case Begins(t) => Begin(w, t)
    case Raises(t, ask, cancelled, confirmed, pick) => Raise(w, t, ask, cancelled, confirmed, pick).0
    case Dismisses(t, id) => Dismiss(w, t, id).0
    case Commits(t) => Commit(w, t)
    case RollsBack(t) => Drop(w, t)
  }

  ghost function Played(w: World, events: seq<Event>): Option<World>
    decreases events
  {
    if events == [] then Some(w)
    else if Can(w, events[0]) then Played(After(w, events[0]), events[1..])
    else None
  }

  lemma AfterKeeps(w: World, e: Event)
    requires Safe(w) && Can(w, e)
    ensures Safe(After(w, e))
  {
    hide Safe, Begin, Raise, Dismiss, Commit, Drop;
    match e
    case Begins(t) => BeginKeeps(w, t);
    case Raises(t, ask, cancelled, confirmed, pick) => RaiseKeeps(w, t, ask, cancelled, confirmed, pick);
    case Dismisses(t, id) => DismissKeeps(w, t, id);
    case Commits(t) => CommitKeeps(w, t);
    case RollsBack(t) => DropKeeps(w, t);
  }

  lemma {:induction false} PlayedKeeps(w: World, events: seq<Event>)
    requires Safe(w) && Played(w, events).Some?
    ensures Safe(Played(w, events).value)
    decreases events
  {
    hide Safe, After, Can;
    if events != [] {
      AfterKeeps(w, events[0]);
      PlayedKeeps(After(w, events[0]), events[1..]);
    }
  }

  /** However producers on stale snapshots interleave, no two alerts are active
      for one code, target and key: no search, by whoever it is made, finds two. */
  lemma AtMostOneActive(events: seq<Event>, ask: Ask, i: int, j: int)
    requires Played(EMPTY, events).Some? && LinkedAsk(ask) && Covered(Created(ask))
    requires var rows := Played(EMPTY, events).value.rows; i in rows && j in rows
    requires var rows := Played(EMPTY, events).value.rows;
             Matches(ask, rows[i].alert) && Matches(ask, rows[j].alert)
    ensures i == j
  {
    hide Played, Matches, SameEntry;
    EmptyIsSafe();
    PlayedKeeps(EMPTY, events);
    var rows := Played(EMPTY, events).value.rows;
    DomainIsIndex(ask, rows[i].alert);
    DomainIsIndex(ask, rows[j].alert);
    SameEntryTransitive(Created(ask), rows[i].alert, rows[j].alert);
  }

  lemma SameEntryTransitive(a: Alert, b: Alert, c: Alert)
    requires SameEntry(a, b) && SameEntry(a, c)
    ensures SameEntry(b, c)
  {
  }

  /** A producer that loses the race changes nothing, and there is a row, not its
      own, with the alert it meant to file: the one a search of what is committed finds. */
  lemma LoserKeepsTheWinner(w: World, t: int, ask: Ask, pick: int)
    requires Safe(w) && t in w.txs && LinkedAsk(ask)
    requires !Finds(View(w.txs[t]), ask)
    requires Raise(w, t, ask, false, true, pick).1 == LostRace
    ensures Raise(w, t, ask, false, true, pick).0 == w
    ensures exists i :: i in w.rows && i !in w.txs[t].writes && Matches(ask, w.rows[i].alert)
  {
    var a := Created(ask);
    CreatedMatches(ask);
    assert Own(w, t);
    forall i | i in w.txs[t].writes ensures !SameEntry(a, w.txs[t].writes[i]) {
      DomainIsIndex(ask, w.txs[t].writes[i]);
      assert i in View(w.txs[t]) && !Hits(View(w.txs[t]), ask, i);
    }
    var i :| i in w.rows && i !in w.txs[t].writes && SameEntry(a, w.rows[i].alert);
    DomainIsIndex(ask, w.rows[i].alert);
  }

  /* ---- What each statement does ---- */

  /** A row as a transaction sees it is as it wrote it, or as it was when the transaction began. */
  lemma ViewSays(tx: Tx, id: int)
    ensures id in View(tx) <==> id in tx.writes || id in tx.snapshot
    ensures id in tx.writes ==> View(tx)[id] == tx.writes[id]
    ensures id in tx.snapshot && id !in tx.writes ==> View(tx)[id] == tx.snapshot[id].alert
  {
  }

  /** A commit leaves the rows the transaction wrote as it wrote them, and no other touched. */
  lemma CommitSays(w: World, t: int, id: int)
    requires t in w.txs
    ensures var rows, writes := Commit(w, t).rows, w.txs[t].writes;
            && (id in rows <==> id in w.rows || id in writes)
            && (id in writes ==> rows[id].alert == writes[id] && rows[id].stamp == w.clock + 1)
            && (id in w.rows && id !in writes ==> rows[id] == w.rows[id])
            && t !in Commit(w, t).txs
  {
  }

  /** A write of a row: it waits for a transaction that holds the row, it fails when the row
      was committed anew since the transaction began, and else the transaction sees it so. */
  lemma WriteSays(w: World, t: int, id: int, a: Alert)
    requires t in w.txs
    ensures var (next, outcome) := WriteRow(w, t, id, a); var mine := id in w.txs[t].writes;
            && (outcome == Waits <==> !mine && HeldByOther(w, t, id))
            && (outcome == Failed <==> !mine && !HeldByOther(w, t, id) && ChangedSince(w, t, id))
            && (outcome == Waits ==> next == w)
            && (outcome == Failed ==> t !in next.txs)
            && (outcome !in {Waits, Failed} ==>
                  && outcome == Wrote(id) && t in next.txs && next.rows == w.rows
                  && id in View(next.txs[t]) && View(next.txs[t])[id] == a
                  && forall i :: i != id ==> Get(View(next.txs[t]), i) == Get(View(w.txs[t]), i))
            && next.rows == w.rows && forall u :: u != t ==> Get(next.txs, u) == Get(w.txs, u)
  {
    hide ChangedSince, HeldByOther;
  }

  function Get<V>(m: map<int, V>, k: int): Option<V> {
    if k in m then Some(m[k]) else None
  }

  /** A call for a cancelled job does nothing. One whose search finds a row writes on it what
      the call says, and where, if it says so; it remembers that the alert was critical, and keeps
      what the alert is about. */
  lemma RaiseRefreshes(w: World, t: int, ask: Ask, cancelled: bool, confirmed: bool, pick: int)
    requires t in w.txs && Finds(View(w.txs[t]), ask) && Hits(View(w.txs[t]), ask, pick)
    ensures var (next, outcome) := Raise(w, t, ask, cancelled, confirmed, pick);
            && (cancelled ==> next == w && outcome == NotRaised)
            && (!cancelled ==> outcome in {Waits, Failed, Wrote(pick)})
            && (outcome.Wrote? ==>
                  && outcome.id == pick && t in next.txs && pick in View(next.txs[t])
                  && var was, now := View(w.txs[t])[pick], View(next.txs[t])[pick];
                     && now.message == ask.message && now.level == ask.level
                     && now.host == (if ask.host.Some? then ask.host else was.host)
                     && (now.wasCritical <==> was.wasCritical || (was.level == Warning && ask.level == Critical))
                     && now.code == was.code && now.instance == was.instance && now.project == was.project
                     && now.key == was.key && now.active == was.active
                     && forall i :: i != pick ==> Get(View(next.txs[t]), i) == Get(View(w.txs[t]), i))
  {
    hide View, WriteRow, Matches;
    WriteSays(w, t, pick, Refreshed(View(w.txs[t])[pick], ask));
  }

  /** One whose search finds none files a new alert, once confirmed, with what the call says;
      an instance's project rides along, and an empty key is none. */
  lemma RaiseFiles(w: World, t: int, ask: Ask, cancelled: bool, confirmed: bool, pick: int)
    requires t in w.txs && !Finds(View(w.txs[t]), ask)
    ensures var (next, outcome) := Raise(w, t, ask, cancelled, confirmed, pick);
            && (cancelled || !confirmed ==> next == w && outcome == NotRaised)
            && (!cancelled && confirmed ==> outcome in {Waits, LostRace, Inserted(w.nextId)})
            && (outcome in {Waits, LostRace} ==> next == w)
            && (outcome.Inserted? ==>
                  && t in next.txs && w.nextId in View(next.txs[t])
                  && var now := View(next.txs[t])[w.nextId];
                     && now.message == ask.message && now.level == ask.level && now.active
                     && (now.wasCritical <==> ask.level == Critical)
                     && now.code == ask.code && now.host == ask.host && now.instance == ask.instance
                     && now.key == (if ask.key == Some(Word("")) then None else ask.key)
                     && now.project == (if ask.project.Some? then ask.project
                                        else if ask.instance.Some? then ask.home else None)
                     && forall i :: i != w.nextId ==> Get(View(next.txs[t]), i) == Get(View(w.txs[t]), i))
  {
    hide EntryHeldByOther, EntryTaken, Covered, Finds;
  }

  /** A dismissal that is refused because the row was committed anew is forgiven when
      that left the alert dismissed, or gone, and fails the transaction when it is active still. */
  lemma DismissSays(w: World, t: int, id: int)
    requires t in w.txs && id in View(w.txs[t])
    ensures var (next, outcome) := Dismiss(w, t, id); var mine := id in w.txs[t].writes;
            var stillActive := id in w.rows && w.rows[id].alert.active;
            && (outcome == Waits <==> !mine && HeldByOther(w, t, id))
            && (outcome == Nothing <==> !mine && !HeldByOther(w, t, id) && ChangedSince(w, t, id) && !stillActive)
            && (outcome == Failed <==> !mine && !HeldByOther(w, t, id) && ChangedSince(w, t, id) && stillActive)
            && (outcome in {Waits, Nothing} ==> next == w)
            && (outcome == Failed ==> t !in next.txs)
            && (outcome !in {Waits, Nothing, Failed} ==>
                  && outcome == Wrote(id) && t in next.txs && id in View(next.txs[t])
                  && !View(next.txs[t])[id].active
                  && View(next.txs[t])[id] == View(w.txs[t])[id].(active := false)
                  && forall i :: i != id ==> Get(View(next.txs[t]), i) == Get(View(w.txs[t]), i))
  {
    hide View, WriteRow, HeldByOther, ChangedSince;
    WriteSays(w, t, id, View(w.txs[t])[id].(active := false));
  }

  /** Two alerts share an index entry exactly when both are active, not of failed jobs, and
      about the same thing: an instance wherever it is, else a host, and a key, or at least one of them. */
  lemma EntryIs(a: Alert, b: Alert)
    requires a.key != Some(Word("")) && b.key != Some(Word(""))
    ensures SameEntry(a, b) <==>
            && a.active && b.active && a.code == b.code && a.code != "job_failed"
            && a.instance == b.instance && a.key == b.key && (a.instance.None? ==> a.host == b.host)
            && (a.instance.Some? || a.host.Some? || a.key.Some?)
  {
  }

  /* ---- An alert while it is open ---- */

  /** An alert filed by the first of these calls and refreshed by the rest. */
  function Kept(asks: seq<Ask>): Alert
    requires asks != []
  {
    if |asks| == 1 then Created(asks[0]) else Refreshed(Kept(asks[..|asks| - 1]), asks[|asks| - 1])
  }

  /** The last call that names a host, if any does. */
  function LastHost(asks: seq<Ask>): Option<Ref> {
    if asks == [] then None
    else if asks[|asks| - 1].host.Some? then asks[|asks| - 1].host
    else LastHost(asks[..|asks| - 1])
  }

  /** Both are about one thing, which a host is part of unless an instance says where it is. */
  predicate SameAbout(a: Alert, b: Alert) {
    && a.code == b.code && a.instance == b.instance && a.project == b.project && a.key == b.key
    && (a.instance.None? ==> a.host == b.host)
  }

  /** However often it is refreshed, it says what the last call said, where the last
      one said it runs; it remembers whether it ever was critical; and calls with one
      identity find it still, under the entry it was filed with. */
  lemma {:induction false} RefreshesKeepTheAlert(asks: seq<Ask>)
    requires asks != [] && LinkedAsk(asks[0])
    requires forall i :: 0 < i < |asks| ==> Matches(asks[i], Created(asks[0]))
    requires asks[0].code != "job_failed"
    ensures var a := Kept(asks);
            && a.message == asks[|asks| - 1].message && a.level == asks[|asks| - 1].level
            && a.host == LastHost(asks)
            && (a.wasCritical <==> exists i :: 0 <= i < |asks| && asks[i].level == Critical)
            && a.active && LinkedAlert(a) && IndexKey(a) == IndexKey(Created(asks[0]))
            && SameAbout(a, Created(asks[0]))
            && (forall i :: 0 <= i < |asks| ==> Matches(asks[i], a))
  {
    hide IndexKey;
    var n := |asks| - 1;
    if n == 0 {
      CreatedMatches(asks[0]);
      assert asks[..0] == [];
    } else {
      var front := asks[..n];
      assert forall i :: 0 <= i < n ==> front[i] == asks[i];
      RefreshesKeepTheAlert(front);
      RefreshKeepsIdentity(asks[n], Kept(front));
    }
  }
}
