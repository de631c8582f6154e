/** `raise_alert` and `resolve_alert` against the tables, and the invariant they keep. */
module AlertTables {
  import opened Alerts
  import opened AlertSafety

  /** The alert table and the transactions open on it. */
  class Database {
    var rows: Rows
    var clock: nat
    var nextId: int
    var txs: map<int, Tx>

    /** The invariant that keeps identities apart. */
    ghost predicate Valid()
      reads this
    {
      Safe(State())
    }

    constructor ()
      ensures State() == EMPTY && Valid()
    {
      rows, clock, nextId, txs := map[], 0, 1, map[];
      EmptyIsSafe();
    }

    function State(): World
      reads this
    {
      World(rows, clock, nextId, txs)
    }

    method Write(t: int, id: int, a: Alert) returns (outcome: Outcome)
      requires t in txs
      modifies this
      ensures (State(), outcome) == WriteRow(old(State()), t, id, a)
    {
      if id !in txs[t].writes {
        if HeldByOther(State(), t, id) {
          return Waits;
        }
        if ChangedSince(State(), t, id) {
          txs := txs - {t};
          return Failed;
        }
      }
      txs := txs[t := txs[t].(writes := txs[t].writes[id := a])];
      outcome := Wrote(id);
    }

    method Insert(t: int, a: Alert) returns (outcome: Outcome)
      requires t in txs
      modifies this
      ensures (State(), outcome) == InsertRow(old(State()), t, a)
    {
      if Covered(a) {
        if EntryHeldByOther(State(), t, a) {
          return Waits;
        }
        if EntryTaken(State(), t, a) {
          return LostRace;
        }
      }
      txs := txs[t := txs[t].(writes := txs[t].writes[nextId := a])];
      outcome := Inserted(nextId);
      nextId := nextId + 1;
    }

    /** `raise_alert`: refresh what the search finds, or file a new alert. */
    method RaiseAlert(t: int, ask: Ask, cancelled: bool, confirmed: bool)
      returns (outcome: Outcome, ghost pick: int)
      requires t in txs
      modifies this
      ensures Finds(View(old(txs)[t]), ask) ==> Hits(View(old(txs)[t]), ask, pick)
      ensures (State(), outcome) == Raise(old(State()), t, ask, cancelled, confirmed, pick)
      ensures old(Valid()) && LinkedAsk(ask) ==> Valid()
    {
      ghost var was := State();
      var view := View(txs[t]);
      pick, outcome := 0, NotRaised;
      if Finds(view, ask) {
        var id :| id in view && Hits(view, ask, id);
        pick := id;
        if !cancelled {
          outcome := Write(t, id, Refreshed(view[id], ask));
        }
      } else if !cancelled && confirmed {
        outcome := Insert(t, Created(ask));
      }
      if Safe(was) && LinkedAsk(ask) {
        RaiseKeeps(was, t, ask, cancelled, confirmed, pick);
      }
    }

    /** `resolve_alert`, for an identity the index holds to one row. */
    method ResolveAlert(t: int, ask: Ask) returns (outcome: Outcome, ghost pick: int)
      requires t in txs
      modifies this
      ensures if !Finds(View(old(txs)[t]), ask) then State() == old(State()) && outcome == Nothing
              else Hits(View(old(txs)[t]), ask, pick) && (State(), outcome) == Dismiss(old(State()), t, pick)
      ensures old(Valid()) ==> Valid()
    {
      ghost var was := State();
      var view := View(txs[t]);
      pick := 0;
      if !Finds(view, ask) {
        return Nothing, pick;
      }
      var id :| id in view && Hits(view, ask, id);
      pick := id;
      var before := txs;
      outcome := Write(t, id, view[id].(active := false));
      if outcome == Failed && !(id in rows && rows[id].alert.active) {
        txs := before;
        outcome := Nothing;
      }
      if Safe(was) {
        DismissKeeps(was, t, pick);
      }
    }
  }
}
