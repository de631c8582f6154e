/** `cloud.alert`: producers that raise and resolve alerts in transactions on
    stale snapshots, with a unique index as the arbiter. */
module Alerts {
  import opened Text

  /** The id of a record: never zero, which is what the index stores for none. */
  type Ref = n: int | n > 0 witness 1

  /** A dedup key: a text of the producer's, or the one `_link_target` gives a project. */
  datatype Key = Word(text: string) | OfProject(id: Ref)

  datatype Level = Warning | Critical

  datatype Alert = Alert(
    code: string, host: Option<Ref>, instance: Option<Ref>, project: Option<Ref>, key: Option<Key>,
    level: Level, wasCritical: bool, active: bool, message: string)

  /** The arguments of `raise_alert`; `home` is the project the instance belongs to. */
  datatype Ask = Ask(
    code: string, host: Option<Ref>, instance: Option<Ref>, project: Option<Ref>, key: Option<Key>,
    level: Level, message: string, home: Option<Ref>)

  /** `key or False`: an empty key is none. */
  function KeyOrNone(key: Option<Key>): Option<Key> {
    if key == Some(Word("")) then None else key
  }

  /** `_dedup_domain` */
  predicate Matches(ask: Ask, a: Alert) {
    && a.code == ask.code && a.active && a.instance == ask.instance && a.key == KeyOrNone(ask.key)
    && (ask.instance.None? ==> a.host == ask.host)
    && (ask.project.Some? ==> a.project == ask.project)
  }

  /** The rows the unique index covers. */
  predicate Covered(a: Alert) {
    a.active && a.code != "job_failed" && (a.host.Some? || a.instance.Some? || a.key.Some?)
  }

  function OrZero(ref: Option<Ref>): int {
    if ref.Some? then ref.value else 0
  }

  /** The columns of `cloud_alert_active_identity_uidx`. */
  function IndexKey(a: Alert): (string, int, int, Key) {
    (a.code,
     if a.instance.None? then OrZero(a.host) else 0,
     OrZero(a.instance),
     if a.key.Some? then a.key.value else Word(""))
  }

  function Created(ask: Ask): Alert {
    Alert(ask.code, ask.host, ask.instance, if ask.project.Some? then ask.project else if ask.instance.Some? then ask.home else None,
          KeyOrNone(ask.key), ask.level, ask.level == Critical, true, ask.message)
  }

  function Refreshed(a: Alert, ask: Ask): Alert {
    a.(message := ask.message, level := ask.level,
       wasCritical := a.wasCritical || (a.level != Critical && ask.level == Critical),
       host := if ask.host.Some? then ask.host else a.host)
  }

  /* ---- The database ---- */

  /** A committed version of a row: the alert, and the commit that wrote it. */
  datatype Row = Row(alert: Alert, stamp: nat)

  type Rows = map<int, Row>

  /** A transaction: what was committed when it began, and what it wrote since. */
  datatype Tx = Tx(snapshot: Rows, writes: map<int, Alert>)

  datatype World = World(rows: Rows, clock: nat, nextId: int, txs: map<int, Tx>)

  const EMPTY := World(map[], 0, 1, map[])

  function View(tx: Tx): map<int, Alert> {
    map id | id in tx.snapshot.Keys + tx.writes.Keys ::
      if id in tx.writes then tx.writes[id] else tx.snapshot[id].alert
  }

  /** The search returns the row. */
  predicate Hits(view: map<int, Alert>, ask: Ask, id: int) {
    id in view && Matches(ask, view[id])
  }

  predicate Finds(view: map<int, Alert>, ask: Ask) {
    exists id :: id in view && Hits(view, ask, id)
  }

  /** Another open transaction holds the row. */
  predicate HeldByOther(w: World, t: int, id: int) {
    exists u :: u in w.txs && u != t && id in w.txs[u].writes
  }

  /** The row was written by a commit the transaction cannot see. */
  predicate ChangedSince(w: World, t: int, id: int)
    requires t in w.txs
  {
    id in w.rows && id in w.txs[t].snapshot && w.rows[id].stamp != w.txs[t].snapshot[id].stamp
  }

  predicate SameEntry(a: Alert, b: Alert) {
    Covered(a) && Covered(b) && IndexKey(a) == IndexKey(b)
  }

  /** An open transaction other than `t` has written an index entry like `a`'s, or may be removing one. */
  predicate EntryHeldByOther(w: World, t: int, a: Alert) {
    exists u, id :: u in w.txs && u != t && id in w.txs[u].writes &&
      (SameEntry(a, w.txs[u].writes[id]) || (id in w.rows && SameEntry(a, w.rows[id].alert)))
  }

  /** A row committed, or written by `t` itself, has `a`'s index entry. */
  predicate EntryTaken(w: World, t: int, a: Alert)
    requires t in w.txs
  {
    || (exists id :: id in w.rows && id !in w.txs[t].writes && SameEntry(a, w.rows[id].alert))
    || (exists id :: id in w.txs[t].writes && SameEntry(a, w.txs[t].writes[id]))
  }

  datatype Outcome =
    | NotRaised               // the job was cancelled, or the sighting is a suspicion still
    | Wrote(id: int)
    | Inserted(id: int)
    | LostRace                // the index refused the insert: a concurrent producer filed it
    | Waits                   // the database makes the statement wait for another transaction
    | Failed                  // could not serialize: the transaction is rolled back
    | Nothing                 // nothing to resolve, or already dismissed by someone else

  function Put(w: World, t: int, id: int, a: Alert): World
    requires t in w.txs
  {
    var tx := w.txs[t];
    w.(txs := w.txs[t := tx.(writes := tx.writes[id := a])])
  }

  function Drop(w: World, t: int): World {
    w.(txs := w.txs - {t})
  }

  function WriteRow(w: World, t: int, id: int, a: Alert): (World, Outcome)
    requires t in w.txs
  {
    if id in w.txs[t].writes then (Put(w, t, id, a), Wrote(id))
    else if HeldByOther(w, t, id) then (w, Waits)
    else if ChangedSince(w, t, id) then (Drop(w, t), Failed)
    else (Put(w, t, id, a), Wrote(id))
  }

  function InsertRow(w: World, t: int, a: Alert): (World, Outcome)
    requires t in w.txs
  {
    if Covered(a) && EntryHeldByOther(w, t, a) then (w, Waits)
    else if Covered(a) && EntryTaken(w, t, a) then (w, LostRace)
    else (Put(w, t, w.nextId, a).(nextId := w.nextId + 1), Inserted(w.nextId))
  }

  /** `raise_alert`. `confirmed` is what the suspicion answers, true for a code
      that needs one sighting; `pick` is the row the search returns, if it finds any. */
  function Raise(w: World, t: int, ask: Ask, cancelled: bool, confirmed: bool, pick: int): (World, Outcome)
    requires t in w.txs
    requires Finds(View(w.txs[t]), ask) ==> Hits(View(w.txs[t]), ask, pick)
  {
    var view := View(w.txs[t]);
    if cancelled then (w, NotRaised)
    else if Finds(view, ask) then WriteRow(w, t, pick, Refreshed(view[pick], ask))
    else if !confirmed then (w, NotRaised)
    else InsertRow(w, t, Created(ask))
  }

  /** Dismissing the row a search returned, by `resolve_alert` or by hand: what
      another transaction dismissed meanwhile is no failure. */
  function Dismiss(w: World, t: int, id: int): (World, Outcome)
    requires t in w.txs && id in View(w.txs[t])
  {
    var (next, outcome) := WriteRow(w, t, id, View(w.txs[t])[id].(active := false));
    if outcome == Failed && !(id in w.rows && w.rows[id].alert.active) then (w, Nothing) else (next, outcome)
  }

  function Begin(w: World, t: int): World
    requires t !in w.txs
  {
    w.(txs := w.txs[t := Tx(w.rows, map[])])
  }

  function Commit(w: World, t: int): World
    requires t in w.txs
  {
    var writes := w.txs[t].writes;
    World(map id | id in w.rows.Keys + writes.Keys ::
            if id in writes then Row(writes[id], w.clock + 1) else w.rows[id],
          w.clock + 1, w.nextId, w.txs - {t})
  }

  /* ---- Search domain and index key ---- */

  /** A project is given with its own key, and that key with nothing else. */
  predicate LinkedAsk(ask: Ask) {
    (ask.project.Some? ==> ask.key == Some(OfProject(ask.project.value)))
    && (ask.key.Some? && ask.key.value.OfProject? ==> ask.project == Some(ask.key.value.id))
  }

  predicate LinkedAlert(a: Alert) {
    && a.key != Some(Word(""))
    && (a.key.Some? && a.key.value.OfProject? ==> a.project == Some(a.key.value.id))
  }

  lemma CreatedMatches(ask: Ask)
    requires LinkedAsk(ask)
    ensures Matches(ask, Created(ask)) && LinkedAlert(Created(ask))
  {
  }

  /** The search finds exactly the active rows the index holds under the key an insert would have. */
  lemma DomainIsIndex(ask: Ask, a: Alert)
    requires LinkedAsk(ask) && LinkedAlert(a) && Covered(Created(ask))
    ensures Matches(ask, a) <==> SameEntry(Created(ask), a)
  {
  }

  /** A refresh keeps the identity, even one that says where the instance moved. */
  lemma RefreshKeepsIdentity(ask: Ask, a: Alert)
    requires Matches(ask, a) && LinkedAlert(a)
    ensures var b := Refreshed(a, ask);
            && IndexKey(b) == IndexKey(a) && b.active && LinkedAlert(b) && (Covered(b) <==> Covered(a))
            && (a.code != "job_failed" && Covered(a) ==> SameEntry(a, b))
  {
  }
}
