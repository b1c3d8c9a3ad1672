/**
 * The same requests with their statements interleaved: read committed, row locks
 * held from a write to the end of its transaction, and an UPDATE or DELETE that
 * meets a locked row waiting for it.
 */
module Interleaving {
  import opened Wrappers
  import opened Ledger
  import opened Circles
  import opened Sums

  /** Where a transaction stands: which of its statements have run. */
  datatype Pc =
    | Start      // nothing sent yet
    | Counting   // its UPDATE changed no row; the COUNT is next
    | Updated    // its stock row is written
    | Inserted   // reserve: the reservation is inserted as well
    | Claimed    // release: the reservation is deleted
    | Credited   // release: the stock UPDATE has run
    | Selected   // release: the stock row has been read back
    | Done       // committed or rolled back

  /**
   * A transaction's uncommitted writes are its own until it commits, and lock
   * the rows they touch.  place is where the request stands in the serial order,
   * begun the length that order had when the request arrived, and lapsed says that
   * its caller has been answered with an error while its COMMIT was under way.
   */
  datatype Tx = Tx(op: Op, pc: Pc, stock: map<string, Stock>, inserted: map<string, Reservation>,
                   deleted: map<string, Reservation>, outcome: Outcome, place: Option<nat>, begun: nat,
                   lapsed: bool)

  /**
   * db is the committed state; serial lists the requests in the order in which
   * they took effect, answers what each is answered when run alone in that order.
   */
  datatype System = System(db: Db, txs: map<nat, Tx>, serial: seq<Op>, answers: seq<Outcome>)

  datatype Action =
    | Arrive(t: nat, op: Op)             // a request opens its transaction
    | Exec(t: nat)                       // its next statement, or its COMMIT, runs
    | Fail(t: nat)                       // the driver, the commit or the caller gives up: it rolls back
    | Lapse(t: nat)                      // the caller is told that COMMIT failed, and does not know whether it did
    | SeedRow(sku: string, amount: Int32)

  predicate StockLocked(s: System, sku: string, t: nat) {
    exists u :: u in s.txs && u != t && sku in s.txs[u].stock
  }

  predicate ReservationLocked(s: System, id: string, t: nat) {
    exists u :: u in s.txs && u != t && (id in s.txs[u].inserted || id in s.txs[u].deleted)
  }

  predicate InFlight(s: System, t: nat) {
    t in s.txs && s.txs[t].pc != Done
  }

  // ---- Steps ----

  /** op takes its place in the serial order now, answered as it would be alone. */
  function Take(s: System, op: Op): System {
    s.(serial := s.serial + [op], answers := s.answers + [Apply(s.db, op).1])
  }

  function Put(s: System, t: nat, tx: Tx): System {
    s.(txs := s.txs[t := tx])
  }

  /** The transaction ends with this answer and its writes are dropped. */
  function Close(tx: Tx, outcome: Outcome): Tx {
    tx.(pc := Done, stock := map[], inserted := map[], deleted := map[], outcome := outcome)
  }

  /** A statement has settled the request's failure: it takes its place and rolls back. */
  function Refuse(s: System, t: nat, e: Error): System
    requires t in s.txs
  {
    Put(Take(s, s.txs[t].op), t, Close(s.txs[t], Err(e)).(place := Some(|s.serial|)))
  }

  /** Its UPDATE changed no row: it takes its place, and the COUNT will choose the answer. */
  function NoRow(s: System, t: nat): System
    requires t in s.txs
  {
    Put(Take(s, s.txs[t].op), t, s.txs[t].(pc := Counting, place := Some(|s.serial|)))
  }

  /** The tables with a transaction's writes made visible. */
  function Committed(db: Db, tx: Tx): Db {
    Db(db.stock + tx.stock, (db.reservations - tx.deleted.Keys) + tx.inserted)
  }

  function Commit(s: System, t: nat, reply: Reply): System
    requires t in s.txs
  {
    var tx := s.txs[t];
    var taken := Take(s, tx.op);
    Put(taken.(db := Committed(s.db, tx)), t, Close(tx, Told(tx, reply)).(place := Some(|s.serial|)))
  }

  /** What the caller of a committed transaction is told. */
  function Told(tx: Tx, reply: Reply): Outcome {
    if tx.lapsed then Err(Internal) else Ok(reply)
  }

  /** COMMIT is the transaction's next and last statement. */
  predicate AtCommit(tx: Tx) {
    || (tx.op.Adjust? && tx.pc == Updated) || (tx.op.Reserve? && tx.pc == Inserted)
      || (tx.op.Release? && tx.pc == Selected)
  }

  /** The stock UPDATE of a transaction that sets both columns of a row. */
  function Write(s: System, t: nat, sku: string, available: int, reserved: int, next: Pc): System
    requires t in s.txs
  {
    if InRange(available) && InRange(reserved) then Put(s, t, Written(s.txs[t], sku, available, reserved, next))
    else Refuse(s, t, Internal)
  }

  /** The transaction with the row it wrote. */
  function Written(tx: Tx, sku: string, available: Int32, reserved: Int32, next: Pc): Tx {
    tx.(stock := map[sku := Stock(available, reserved)], pc := next)
  }

  /** Whether the next statement can run now, or must wait for a row. */
  predicate CanExec(s: System, t: nat) {
    InFlight(s, t) &&
    var tx := s.txs[t];
    match (tx.op, tx.pc)
    case (Adjust(sku, delta), Start) =>
      // a row whose committed version is out of range or fails the guard is never waited for
      sku in s.db.stock && InRange(s.db.stock[sku].available + delta) && s.db.stock[sku].available + delta >= 0
      ==> !StockLocked(s, sku, t)
    case (Reserve(sku, _, quantity, _), Start) =>
      sku in s.db.stock && s.db.stock[sku].available >= quantity ==> !StockLocked(s, sku, t)
    case (Reserve(_, id, _, _), Updated) => !ReservationLocked(s, id, t)
    case (Release(id), Start) => id in s.db.reservations ==> !ReservationLocked(s, id, t)
    case (Release(id), Claimed) =>
      id in tx.deleted && (tx.deleted[id].sku in s.db.stock ==> !StockLocked(s, tx.deleted[id].sku, t))
    case (Release(id), Credited) => id in tx.deleted
    case _ => true
  }

  function Execute(s: System, t: nat): System
    requires CanExec(s, t)
  {
    var tx := s.txs[t];
    match (tx.op, tx.pc)
    case (Adjust(sku, delta), Start) =>
      if sku !in s.db.stock then NoRow(s, t)
      else if !InRange(s.db.stock[sku].available + delta) then Refuse(s, t, Internal)
      else if s.db.stock[sku].available + delta < 0 then NoRow(s, t)
      else Write(s, t, sku, s.db.stock[sku].available + delta, s.db.stock[sku].reserved, Updated)
    case (Reserve(sku, _, quantity, _), Start) =>
      if sku !in s.db.stock || s.db.stock[sku].available < quantity then NoRow(s, t)
      else Write(s, t, sku, s.db.stock[sku].available - quantity, s.db.stock[sku].reserved + quantity, Updated)
    case (Release(id), Start) =>
      if id !in s.db.reservations then Refuse(s, t, NotFound)
      else Put(s, t, tx.(deleted := map[id := s.db.reservations[id]], pc := Claimed))
    case (Adjust(sku, _), Counting) =>
      Put(s, t, Close(tx, Err(if sku in s.db.stock then Insufficient else NotFound)))
    case (Reserve(sku, _, _, _), Counting) =>
      Put(s, t, Close(tx, Err(if sku in s.db.stock then Insufficient else NotFound)))
    case (Adjust(sku, _), Updated) =>
      Commit(s, t, Adjusted(sku, if sku in tx.stock then tx.stock[sku].available else 0))
    case (Reserve(sku, id, quantity, orderId), Updated) =>
      if id in s.db.reservations then Refuse(s, t, Internal)
      else Put(s, t, tx.(inserted := map[id := Reservation(sku, quantity, orderId)], pc := Inserted))
    case (Reserve(_, id, _, _), Inserted) => Commit(s, t, Reserved(id))
    case (Release(id), Claimed) =>
      var r := tx.deleted[id];
      if r.sku !in s.db.stock then Put(s, t, tx.(pc := Credited))
      else Write(s, t, r.sku, s.db.stock[r.sku].available + r.quantity, s.db.stock[r.sku].reserved - r.quantity,
                 Credited)
    case (Release(id), Credited) =>
      if tx.deleted[id].sku !in s.db.stock then Refuse(s, t, NotFound) else Put(s, t, tx.(pc := Selected))
    case (Release(_), Selected) => Commit(s, t, Released)
    case _ => s
  }

  predicate Can(s: System, a: Action) {
    match a
    case Arrive(t, op) => t !in s.txs && !op.Seed?
    case Exec(t) => CanExec(s, t)
    case Fail(t) => InFlight(s, t)
    case Lapse(t) => InFlight(s, t) && AtCommit(s.txs[t])
    case SeedRow(_, _) => true
  }

  function Do(s: System, a: Action): System
    requires Can(s, a)
  {
    match a
    case Arrive(t, op) => Put(s, t, Tx(op, Start, map[], map[], map[], Err(Internal), None, |s.serial|, false))
    case Exec(t) => Execute(s, t)
    case Fail(t) => Put(s, t, Close(s.txs[t], Err(Internal)))
    case Lapse(t) => Put(s, t, s.txs[t].(lapsed := true))
    case SeedRow(sku, amount) => Take(s, Seed(sku, amount)).(db := Apply(s.db, Seed(sku, amount)).0)
  }

  function Idle(db: Db): System {
    System(db, map[], [], [])
  }

  /** Where a run of actions leads; None if some action could not happen when its turn came. */
  function Run(db: Db, actions: seq<Action>): Option<System> {
    if actions == [] then Some(Idle(db))
    else
      var before := Run(db, actions[..|actions| - 1]);
      if before.Some? && Can(before.value, actions[|actions| - 1])
      then Some(Do(before.value, actions[|actions| - 1])) else None
  }

  // ---- Invariant ----

  /** The committed state is the serial run's, and the answers are the serial run's. */
  ghost predicate Serial(db0: Db, s: System) {
    && |s.answers| == |s.serial| && s.db == After(db0, s.serial)
    && forall i :: 0 <= i < |s.serial| ==> s.answers[i] == Answer(db0, s.serial, i)
  }

  /** What an open transaction has written is its statements' effect on the rows as they are committed now. */
  ghost predicate Pending(db: Db, tx: Tx) {
    match (tx.op, tx.pc)
    case (Adjust(sku, delta), Updated) =>
      && tx.inserted == tx.deleted == map[] && sku in db.stock
      && InRange(db.stock[sku].available + delta) && db.stock[sku].available + delta >= 0
      && tx.stock == map[sku := db.stock[sku].(available := db.stock[sku].available + delta)]
    case (Reserve(sku, id, quantity, orderId), pc) =>
      if pc == Updated || pc == Inserted then
        && tx.deleted == map[] && sku in db.stock && db.stock[sku].available >= quantity
        && InRange(db.stock[sku].available - quantity) && InRange(db.stock[sku].reserved + quantity)
        && tx.stock == map[sku := Stock(db.stock[sku].available - quantity, db.stock[sku].reserved + quantity)]
        && (if pc == Updated then tx.inserted == map[]
            else id !in db.reservations && tx.inserted == map[id := Reservation(sku, quantity, orderId)])
      else Clean(tx)
    case (Release(id), pc) =>
      if pc == Claimed || pc == Credited || pc == Selected then
        && tx.inserted == map[] && id in db.reservations && tx.deleted == map[id := db.reservations[id]]
        && (if pc == Claimed then tx.stock == map[] else CreditPending(db, tx, db.reservations[id]))
      else Clean(tx)
    case _ => Clean(tx)
  }

  /** Nothing written, at a point where nothing need be. */
  ghost predicate Clean(tx: Tx) {
    && tx.stock == map[] && tx.inserted == tx.deleted == map[]
    && (tx.pc == Start || tx.pc == Done || (tx.pc == Counting && !tx.op.Release?))
  }

  ghost predicate CreditPending(db: Db, tx: Tx, r: Reservation) {
    && r.sku in db.stock
    && InRange(db.stock[r.sku].available + r.quantity) && InRange(db.stock[r.sku].reserved - r.quantity)
    && tx.stock == map[r.sku := Stock(db.stock[r.sku].available + r.quantity, db.stock[r.sku].reserved - r.quantity)]
  }

  /** No row is locked twice. */
  ghost predicate Exclusive(s: System) {
    forall t, u :: t in s.txs && u in s.txs && t != u ==>
      && s.txs[t].stock.Keys !! s.txs[u].stock.Keys
      && s.txs[t].inserted.Keys + s.txs[t].deleted.Keys !! s.txs[u].inserted.Keys + s.txs[u].deleted.Keys
  }

  /** The SKU was seeded after place i. */
  ghost predicate SeededSince(s: System, i: nat, sku: string) {
    exists j :: i < j < |s.serial| && s.serial[j].Seed? && s.serial[j].sku == sku
  }

  /** The answer a request was given is the serial one, unless its SKU was seeded between its UPDATE and its COUNT. */
  ghost predicate Faithful(s: System, tx: Tx) {
    tx.place.Some? && tx.place.value < |s.answers| && tx.place.value < |s.serial| &&
    var answer := s.answers[tx.place.value];
    || tx.outcome == answer
    || (&& !tx.op.Release? && !tx.op.Seed? && tx.outcome == Err(Insufficient) && answer == Err(NotFound)
        && SeededSince(s, tx.place.value, tx.op.sku))
  }

  ghost predicate Placed(s: System, tx: Tx) {
    && !tx.op.Seed? && tx.begun <= |s.serial| == |s.answers|
    && (tx.place.Some? ==> tx.begun <= tx.place.value < |s.serial| && s.serial[tx.place.value] == tx.op)
    && (tx.place.Some? ==>
          tx.pc == Counting || (tx.pc == Done && (tx.outcome.Ok? || tx.lapsed) == s.answers[tx.place.value].Ok?))
    && (tx.lapsed ==> AtCommit(tx) || (tx.pc == Done && tx.outcome == Err(Internal)))
    && (tx.pc == Done ==> tx.outcome == Err(Internal) || Faithful(s, tx))
    && (tx.pc == Counting ==>
          && tx.place.Some? && !tx.op.Release?
          && (var answer := s.answers[tx.place.value];
              || (answer == Err(Insufficient) && tx.op.sku in s.db.stock)
              || (answer == Err(NotFound) && (tx.op.sku in s.db.stock ==> SeededSince(s, tx.place.value, tx.op.sku)))))
  }

  /** Every place in the serial order is taken by one seeding or one request. */
  ghost predicate Owned(s: System) {
    && (forall i :: 0 <= i < |s.serial| ==> s.serial[i].Seed? || exists t :: t in s.txs && s.txs[t].place == Some(i))
    && (forall t, u :: t in s.txs && u in s.txs && t != u && s.txs[t].place.Some? ==> s.txs[t].place != s.txs[u].place)
  }

  ghost predicate Inv(db0: Db, s: System) {
    && Serial(db0, s) && Consistent(s.db) && Exclusive(s) && Owned(s)
    && forall t :: t in s.txs ==> Pending(s.db, s.txs[t]) && Placed(s, s.txs[t])
  }

  lemma Standing(db0: Db, s: System, t: nat)
    requires Inv(db0, s) && t in s.txs
    ensures Pending(s.db, s.txs[t]) && Placed(s, s.txs[t]) && Consistent(s.db) && Exclusive(s)
  {
  }

  // ---- Each kind of step keeps it ----

  lemma TakeKeepsSerial(db0: Db, s: System, op: Op)
    requires Serial(db0, s) && Consistent(s.db)
    ensures Serial(db0, Take(s, op).(db := Apply(s.db, op).0)) && Consistent(Apply(s.db, op).0)
  {
    var serial := s.serial + [op];
    assert serial[..|serial| - 1] == s.serial;
    forall i | 0 <= i < |serial| ensures (s.answers + [Apply(s.db, op).1])[i] == Answer(db0, serial, i) {
      assert i < |s.serial| ==> serial[..i] == s.serial[..i];
    }
    ApplyKeepsConsistent(s.db, op);
  }

  /** A statement that touches no committed row and leaves the serial order alone. */
  lemma LocalStep(db0: Db, s: System, t: nat, tx: Tx)
    requires Inv(db0, s) && tx.place == if t in s.txs then s.txs[t].place else None
    requires Pending(s.db, tx) && Placed(s, tx) && Exclusive(Put(s, t, tx))
    ensures Inv(db0, Put(s, t, tx))
  {
    hide Pending, Placed, Exclusive, Consistent;
    SerialIgnoresTxs(db0, s, Put(s, t, tx));
    hide Serial;
    var s' := Put(s, t, tx);
    forall i | 0 <= i < |s.serial| && !s.serial[i].Seed? ensures exists u :: u in s'.txs && s'.txs[u].place == Some(i) {
      var u :| u in s.txs && s.txs[u].place == Some(i);
      assert u in s'.txs && s'.txs[u].place == Some(i);
    }
    forall u | u in s'.txs ensures Placed(s', s'.txs[u]) {
      PlacedIgnoresTxs(s, s', s'.txs[u]);
    }
  }

  /**
   * Another transaction's standing survives a longer serial order and a table whose
   * new SKUs were seeded at its end.
   */
  lemma StaysPlaced(s: System, s': System, tx: Tx)
    requires Placed(s, tx)
    requires s.serial <= s'.serial && s.answers <= s'.answers && |s'.serial| == |s'.answers|
    requires s.db.stock.Keys <= s'.db.stock.Keys
    requires forall sku, i: nat :: sku in s'.db.stock && sku !in s.db.stock && i < |s.serial|
                                   ==> SeededSince(s', i, sku)
    ensures Placed(s', tx)
  {
  }

  lemma OwnedGrows(s: System, op: Op, s': System, t: nat)
    requires Owned(s) && |s.serial| == |s.answers| && s'.serial == s.serial + [op] && t in s.txs
             && s.txs[t].place == None
    requires forall u :: u in s.txs && s.txs[u].place.Some? ==> s.txs[u].place.value < |s.serial|
    requires s'.txs.Keys == s.txs.Keys && s'.txs[t].place == Some(|s.serial|)
    requires forall u :: u in s.txs && u != t ==> s'.txs[u] == s.txs[u]
    ensures Owned(s')
  {
  }

  /** A request whose own statement just settled its failure stands where it should. */
  lemma FailurePlaced(s: System, tx: Tx)
    requires |s.serial| == |s.answers| && tx.begun <= |s.serial| && tx.place == Some(|s.serial|) && !tx.op.Seed?
             && !tx.lapsed
    requires if tx.pc == Done then Apply(s.db, tx.op).1 == tx.outcome
             else tx.pc == Counting && !tx.op.Release?
                  && Apply(s.db, tx.op).1 == Err(if tx.op.sku in s.db.stock then Insufficient else NotFound)
    ensures Placed(Take(s, tx.op), tx)
  {
  }

  lemma CleanIsPending(db: Db, tx: Tx)
    requires Clean(tx) && !tx.op.Seed?
    ensures Pending(db, tx)
  {
  }

  lemma ClosedIsPending(db: Db, tx: Tx)
    requires tx.pc == Done && tx.stock == map[] && tx.inserted == tx.deleted == map[]
    ensures Pending(db, tx)
  {
  }

  lemma SerialIgnoresTxs(db0: Db, s: System, s': System)
    requires Serial(db0, s) && s.db == s'.db && s.serial == s'.serial && s.answers == s'.answers
    ensures Serial(db0, s')
  {
  }

  lemma PlacedIgnoresTxs(s: System, s': System, tx: Tx)
    requires Placed(s, tx) && s.db == s'.db && s.serial == s'.serial && s.answers == s'.answers
    ensures Placed(s', tx)
  {
  }

  lemma ExclusivePut(s: System, s': System, t: nat, tx: Tx)
    requires Exclusive(s) && s'.txs == s.txs[t := tx]
    requires tx.stock == map[] && tx.inserted == tx.deleted == map[]
    ensures Exclusive(s')
  {
  }

  /** A request that takes its place without changing a table. */
  lemma FailingStep(db0: Db, s: System, t: nat, tx: Tx)
    requires Inv(db0, s) && InFlight(s, t) && s.txs[t].pc != Counting
    requires tx.op == s.txs[t].op && tx.begun == s.txs[t].begun && tx.place == Some(|s.serial|) && Clean(tx)
    requires Apply(s.db, tx.op).0 == s.db
    requires Placed(Take(s, tx.op), tx)
    ensures Inv(db0, Put(Take(s, tx.op), t, tx))
  {
    var taken := Take(s, tx.op);
    var s' := Put(taken, t, tx);
    TakeKeepsSerial(db0, s, tx.op);
    assert taken.(db := s.db) == taken;
    SerialIgnoresTxs(db0, taken, s');
    ExclusivePut(s, s', t, tx);
    OwnedGrows(s, tx.op, s', t);
    PlacedIgnoresTxs(taken, s', tx);
    CleanIsPending(s'.db, tx);
    forall u | u in s'.txs ensures Pending(s'.db, s'.txs[u]) && Placed(s', s'.txs[u]) {
      if u != t {
        StaysPlaced(s, s', s.txs[u]);
      }
    }
  }

  function ReplyOf(tx: Tx): Reply {
    match tx.op
    case Adjust(sku, _) => Adjusted(sku, if sku in tx.stock then tx.stock[sku].available else 0)
    case Reserve(_, id, _, _) => Reserved(id)
    case _ => Released
  }

  /** Committing what the statements wrote is what the request does alone, at the moment of the commit. */
  lemma CommitIsApply(db: Db, tx: Tx)
    requires Pending(db, tx) && AtCommit(tx)
    ensures Apply(db, tx.op) == (Committed(db, tx), Ok(ReplyOf(tx)))
    ensures Committed(db, tx).stock.Keys == db.stock.Keys
  {
    match tx.op {
      case Adjust(sku, _) =>
        assert Committed(db, tx).stock == db.stock[sku := tx.stock[sku]];
        assert Committed(db, tx).reservations == db.reservations;
      case Reserve(sku, id, _, _) =>
        assert Committed(db, tx).stock == db.stock[sku := tx.stock[sku]];
        assert Committed(db, tx).reservations == db.reservations[id := tx.inserted[id]];
      case Release(id) =>
        var sku := db.reservations[id].sku;
        assert Committed(db, tx).stock == db.stock[sku := tx.stock[sku]];
        assert Committed(db, tx).reservations == db.reservations - {id};
    }
  }

  /** Another transaction's writes are on rows the committing one does not hold. */
  lemma ReleaseStaysPending(db: Db, tx: Tx, other: Tx)
    requires Pending(db, other) && other.op.Release? && Committed(db, tx).stock.Keys == db.stock.Keys
    requires tx.stock.Keys !! other.stock.Keys
    requires tx.inserted.Keys + tx.deleted.Keys !! other.inserted.Keys + other.deleted.Keys
    ensures Pending(Committed(db, tx), other)
  {
  }

  lemma StaysPending(db: Db, tx: Tx, other: Tx)
    requires Pending(db, other) && Committed(db, tx).stock.Keys == db.stock.Keys
    requires tx.stock.Keys !! other.stock.Keys
    requires tx.inserted.Keys + tx.deleted.Keys !! other.inserted.Keys + other.deleted.Keys
    ensures Pending(Committed(db, tx), other)
  {
    if other.op.Release? {
      ReleaseStaysPending(db, tx, other);
    }
  }

  lemma CommitPlaced(s: System, tx: Tx, closed: Tx)
    requires Placed(s, tx) && closed.op == tx.op && closed.begun == tx.begun && closed.place == Some(|s.serial|)
    requires closed.pc == Done && closed.lapsed == tx.lapsed && Apply(s.db, tx.op).1.Ok?
    requires closed.outcome == if tx.lapsed then Err(Internal) else Apply(s.db, tx.op).1
    ensures Placed(Take(s, tx.op), closed)
  {
  }

  lemma PlacedDone(s: System, s': System, tx: Tx)
    requires Placed(s, tx) && tx.pc == Done && s.serial == s'.serial && s.answers == s'.answers
    ensures Placed(s', tx)
  {
  }

  lemma CommitLeavesOthers(db0: Db, s: System, t: nat, u: nat, s': System)
    requires Inv(db0, s) && t in s.txs && u in s.txs && u != t
             && Committed(s.db, s.txs[t]).stock.Keys == s.db.stock.Keys
    requires s'.db == Committed(s.db, s.txs[t]) && s.serial <= s'.serial && s.answers <= s'.answers
             && |s'.serial| == |s'.answers|
    ensures Pending(s'.db, s.txs[u]) && Placed(s', s.txs[u])
  {
    hide Pending, Placed, Committed;
    Standing(db0, s, u);
    StaysPlaced(s, s', s.txs[u]);
    StaysPending(s.db, s.txs[t], s.txs[u]);
  }

  lemma PlacesAreTaken(db0: Db, s: System, t: nat)
    requires Inv(db0, s) && InFlight(s, t) && AtCommit(s.txs[t])
    ensures s.txs[t].place == None && |s.serial| == |s.answers|
    ensures forall u :: u in s.txs && s.txs[u].place.Some? ==> s.txs[u].place.value < |s.serial|
  {
    hide Pending, Apply, Exclusive, Consistent, Owned;
  }

  lemma CommitStep(db0: Db, s: System, t: nat)
    requires Inv(db0, s) && InFlight(s, t) && AtCommit(s.txs[t])
    ensures Inv(db0, Commit(s, t, ReplyOf(s.txs[t])))
  {
    hide Pending, Apply, ReplyOf, Committed, Placed, AtCommit;
    var tx := s.txs[t];
    PlacesAreTaken(db0, s, t);
    var closed := Close(tx, Told(tx, ReplyOf(tx))).(place := Some(|s.serial|));
    var taken := Take(s, tx.op).(db := Committed(s.db, tx));
    var s' := Commit(s, t, ReplyOf(tx));
    CommitIsApply(s.db, tx);
    TakeKeepsSerial(db0, s, tx.op);
    SerialIgnoresTxs(db0, taken, s');
    ExclusivePut(s, s', t, closed);
    OwnedGrows(s, tx.op, s', t);
    CommitPlaced(s, tx, closed);
    PlacedDone(Take(s, tx.op), s', closed);
    ClosedIsPending(s'.db, closed);
    forall u | u in s'.txs ensures Pending(s'.db, s'.txs[u]) && Placed(s', s'.txs[u]) {
      if u != t {
        CommitLeavesOthers(db0, s, t, u, s');
      }
    }
  }

  lemma SeedKeepsPending(db: Db, sku: string, amount: Int32, tx: Tx)
    requires Pending(db, tx)
    ensures Pending(Apply(db, Seed(sku, amount)).0, tx)
  {
  }

  lemma SeedStep(db0: Db, s: System, sku: string, amount: Int32)
    requires Inv(db0, s)
    ensures Inv(db0, Do(s, SeedRow(sku, amount)))
  {
    var op := Seed(sku, amount);
    var s' := Do(s, SeedRow(sku, amount));
    TakeKeepsSerial(db0, s, op);
    assert s'.serial[|s.serial|] == op;
    forall u | u in s'.txs ensures Pending(s'.db, s'.txs[u]) && Placed(s', s'.txs[u]) {
      StaysPlaced(s, s', s.txs[u]);
      SeedKeepsPending(s.db, sku, amount, s.txs[u]);
    }
    forall i | 0 <= i < |s'.serial| && !s'.serial[i].Seed?
      ensures exists t :: t in s'.txs && s'.txs[t].place == Some(i)
    {
      assert i < |s.serial| && s'.serial[i] == s.serial[i];
    }
  }

  lemma RefuseStep(db0: Db, s: System, t: nat, e: Error)
    requires Inv(db0, s) && InFlight(s, t) && s.txs[t].pc != Counting && !AtCommit(s.txs[t])
    requires Apply(s.db, s.txs[t].op) == (s.db, Err(e))
    ensures Inv(db0, Refuse(s, t, e))
  {
    var tx := Close(s.txs[t], Err(e)).(place := Some(|s.serial|));
    FailurePlaced(s, tx);
    FailingStep(db0, s, t, tx);
  }

  lemma NoRowStep(db0: Db, s: System, t: nat)
    requires Inv(db0, s) && InFlight(s, t) && s.txs[t].pc == Start && !s.txs[t].op.Release?
    requires var op := s.txs[t].op;
             !op.Seed? && Apply(s.db, op) == (s.db, Err(if op.sku in s.db.stock then Insufficient else NotFound))
    ensures Inv(db0, NoRow(s, t))
  {
    var tx := s.txs[t].(pc := Counting, place := Some(|s.serial|));
    FailurePlaced(s, tx);
    FailingStep(db0, s, t, tx);
  }

  /** tx locks only rows t already holds or nobody else does. */
  ghost predicate LocksFree(s: System, t: nat, tx: Tx)
    requires t in s.txs
  {
    && (forall sku :: sku in tx.stock ==> sku in s.txs[t].stock || !StockLocked(s, sku, t))
    && (forall id :: id in tx.inserted || id in tx.deleted ==>
          id in s.txs[t].inserted || id in s.txs[t].deleted || !ReservationLocked(s, id, t))
  }

  lemma ExclusiveLocks(s: System, t: nat, tx: Tx)
    requires t in s.txs && Exclusive(s) && LocksFree(s, t, tx)
    ensures Exclusive(Put(s, t, tx))
  {
  }

  /** A statement of an open transaction that locks only rows nobody else holds. */
  lemma PutStep(db0: Db, s: System, t: nat, tx: Tx)
    requires Inv(db0, s) && InFlight(s, t) && s.txs[t].pc != Counting && !AtCommit(s.txs[t])
    requires tx.op == s.txs[t].op && tx.begun == s.txs[t].begun && tx.place == s.txs[t].place
             && tx.lapsed == s.txs[t].lapsed
    requires tx.pc != Counting && tx.pc != Done && Pending(s.db, tx) && LocksFree(s, t, tx)
    ensures Inv(db0, Put(s, t, tx))
  {
    hide Inv, Pending, Exclusive, LocksFree;
    Standing(db0, s, t);
    ExclusiveLocks(s, t, tx);
    LocalStep(db0, s, t, tx);
  }

  lemma WriteStep(db0: Db, s: System, t: nat, sku: string, available: int, reserved: int, next: Pc)
    requires Inv(db0, s) && InFlight(s, t) && s.txs[t].pc != Counting && !AtCommit(s.txs[t]) && !StockLocked(s, sku, t)
    requires next != Counting && next != Done
    requires if InRange(available) && InRange(reserved)
             then Pending(s.db, Written(s.txs[t], sku, available, reserved, next))
             else Apply(s.db, s.txs[t].op) == (s.db, Err(Internal))
    ensures Inv(db0, Write(s, t, sku, available, reserved, next))
  {
    hide Inv, Pending;
    if InRange(available) && InRange(reserved) {
      var tx := Written(s.txs[t], sku, available, reserved, next);
      assert LocksFree(s, t, tx);
      PutStep(db0, s, t, tx);
    } else {
      RefuseStep(db0, s, t, Internal);
    }
  }

  /** The transaction ends without a place of its own: a fault, or the COUNT's answer. */
  lemma CloseStep(db0: Db, s: System, t: nat, outcome: Outcome)
    requires Inv(db0, s) && InFlight(s, t)
    requires outcome == Err(Internal) || Faithful(s, Close(s.txs[t], outcome))
    ensures Inv(db0, Put(s, t, Close(s.txs[t], outcome)))
  {
    var tx := Close(s.txs[t], outcome);
    CleanIsPending(s.db, tx);
    ExclusivePut(s, Put(s, t, tx), t, tx);
    LocalStep(db0, s, t, tx);
  }

  /** Where an open transaction can stand. */
  lemma PcCases(db: Db, tx: Tx)
    requires Pending(db, tx) && tx.pc != Done && !tx.op.Seed?
    ensures match tx.op
            case Adjust(_, _) => tx.pc in {Start, Counting, Updated}
            case Reserve(_, _, _, _) => tx.pc in {Start, Counting, Updated, Inserted}
            case _ => tx.pc in {Start, Claimed, Credited, Selected}
    ensures tx.pc == Start ==> Clean(tx)
  {
  }

  /** What the first UPDATE of an adjustment does, and what that means for the request as a whole. */
  lemma AdjustUpdates(s: System, t: nat)
    requires CanExec(s, t) && s.txs[t].op.Adjust? && s.txs[t].pc == Start && Pending(s.db, s.txs[t])
    ensures var tx := s.txs[t];
            var sku, delta := tx.op.sku, tx.op.delta;
            if sku !in s.db.stock then Execute(s, t) == NoRow(s, t) && Apply(s.db, tx.op) == (s.db, Err(NotFound))
            else
              var row := s.db.stock[sku];
              if !InRange(row.available + delta) then
                Execute(s, t) == Refuse(s, t, Internal) && Apply(s.db, tx.op) == (s.db, Err(Internal))
              else if row.available + delta < 0 then
                Execute(s, t) == NoRow(s, t) && Apply(s.db, tx.op) == (s.db, Err(Insufficient))
              else
                && !StockLocked(s, sku, t)
                && Execute(s, t) == Write(s, t, sku, row.available + delta, row.reserved, Updated)
                && Pending(s.db, Written(tx, sku, row.available + delta, row.reserved, Updated))
  {
  }

  lemma AdjustStart(db0: Db, s: System, t: nat)
    requires Inv(db0, s) && CanExec(s, t) && s.txs[t].op.Adjust? && s.txs[t].pc == Start
    ensures Inv(db0, Execute(s, t))
  {
    hide Inv, Pending, Placed, CanExec, Execute, NoRow, Refuse, Write, Written, Apply, StockLocked;
    Unblocked(s, t);
    var tx := s.txs[t];
    Standing(db0, s, t);
    AdjustUpdates(s, t);
    if tx.op.sku !in s.db.stock {
      NoRowStep(db0, s, t);
    } else if !InRange(s.db.stock[tx.op.sku].available + tx.op.delta) {
      RefuseStep(db0, s, t, Internal);
    } else if s.db.stock[tx.op.sku].available + tx.op.delta < 0 {
      NoRowStep(db0, s, t);
    } else {
      var row := s.db.stock[tx.op.sku];
      WriteStep(db0, s, t, tx.op.sku, row.available + tx.op.delta, row.reserved, Updated);
    }
  }

  lemma Unblocked(s: System, t: nat)
    requires CanExec(s, t)
    ensures InFlight(s, t)
  {
  }

  /** The COUNT after an UPDATE without rows. */
  lemma CountStep(db0: Db, s: System, t: nat)
    requires Inv(db0, s) && CanExec(s, t) && s.txs[t].pc == Counting
    ensures Inv(db0, Execute(s, t))
  {
    var tx := s.txs[t];
    Standing(db0, s, t);
    var outcome := Err(if tx.op.sku in s.db.stock then Insufficient else NotFound);
    hide Inv, Pending;
    assert Execute(s, t) == Put(s, t, Close(tx, outcome));
    CloseStep(db0, s, t, outcome);
  }

  lemma CommitExec(db0: Db, s: System, t: nat)
    requires Inv(db0, s) && CanExec(s, t) && AtCommit(s.txs[t])
    ensures Inv(db0, Execute(s, t))
  {
    hide Inv, Pending;
    assert Execute(s, t) == Commit(s, t, ReplyOf(s.txs[t]));
    CommitStep(db0, s, t);
  }

  lemma ReserveUpdates(s: System, t: nat)
    requires CanExec(s, t) && s.txs[t].op.Reserve? && s.txs[t].pc == Start && Pending(s.db, s.txs[t])
    ensures var tx := s.txs[t];
            var sku, quantity := tx.op.sku, tx.op.quantity;
            if sku !in s.db.stock || s.db.stock[sku].available < quantity then
              && Execute(s, t) == NoRow(s, t)
              && Apply(s.db, tx.op) == (s.db, Err(if sku in s.db.stock then Insufficient else NotFound))
            else
              var row := s.db.stock[sku];
              && !StockLocked(s, sku, t)
              && Execute(s, t) == Write(s, t, sku, row.available - quantity, row.reserved + quantity, Updated)
              && (if InRange(row.available - quantity) && InRange(row.reserved + quantity)
                  then Pending(s.db, Written(tx, sku, row.available - quantity, row.reserved + quantity, Updated))
                  else Apply(s.db, tx.op) == (s.db, Err(Internal)))
  {
  }

  lemma ReserveStart(db0: Db, s: System, t: nat)
    requires Inv(db0, s) && CanExec(s, t) && s.txs[t].op.Reserve? && s.txs[t].pc == Start
    ensures Inv(db0, Execute(s, t))
  {
    hide Inv, Pending, Placed, CanExec, Execute, NoRow, Refuse, Write, Written, Apply, StockLocked;
    Unblocked(s, t);
    var tx := s.txs[t];
    var sku := tx.op.sku;
    Standing(db0, s, t);
    ReserveUpdates(s, t);
    if sku !in s.db.stock || s.db.stock[sku].available < tx.op.quantity {
      NoRowStep(db0, s, t);
    } else {
      var row := s.db.stock[sku];
      WriteStep(db0, s, t, sku, row.available - tx.op.quantity, row.reserved + tx.op.quantity, Updated);
    }
  }

  /** The transaction with the reservation it inserted. */
  function WithInserted(tx: Tx): Tx
    requires tx.op.Reserve?
  {
    tx.(inserted := map[tx.op.id := Reservation(tx.op.sku, tx.op.quantity, tx.op.orderId)], pc := Inserted)
  }

  lemma ReserveInserts(s: System, t: nat)
    requires CanExec(s, t) && s.txs[t].op.Reserve? && s.txs[t].pc == Updated && Pending(s.db, s.txs[t])
    ensures var tx := s.txs[t];
            if tx.op.id in s.db.reservations then
              Execute(s, t) == Refuse(s, t, Internal) && Apply(s.db, tx.op) == (s.db, Err(Internal))
            else
              && Execute(s, t) == Put(s, t, WithInserted(tx)) && Pending(s.db, WithInserted(tx))
              && LocksFree(s, t, WithInserted(tx))
  {
  }

  lemma ReserveInsert(db0: Db, s: System, t: nat)
    requires Inv(db0, s) && CanExec(s, t) && s.txs[t].op.Reserve? && s.txs[t].pc == Updated
    ensures Inv(db0, Execute(s, t))
  {
    hide Inv, Pending, Placed, CanExec, Execute, Refuse, Apply, LocksFree;
    Unblocked(s, t);
    Standing(db0, s, t);
    ReserveInserts(s, t);
    if s.txs[t].op.id in s.db.reservations {
      RefuseStep(db0, s, t, Internal);
    } else {
      PutStep(db0, s, t, WithInserted(s.txs[t]));
    }
  }

  /** The transaction with the reservation it deleted. */
  function WithDeleted(tx: Tx, id: string, r: Reservation): Tx {
    tx.(deleted := map[id := r], pc := Claimed)
  }

  lemma ReleaseDeletes(s: System, t: nat)
    requires CanExec(s, t) && s.txs[t].op.Release? && s.txs[t].pc == Start && Pending(s.db, s.txs[t])
    ensures var tx := s.txs[t];
            var id := tx.op.id;
            if id !in s.db.reservations then
              Execute(s, t) == Refuse(s, t, NotFound) && Apply(s.db, tx.op) == (s.db, Err(NotFound))
            else
              var tx' := WithDeleted(tx, id, s.db.reservations[id]);
              Execute(s, t) == Put(s, t, tx') && Pending(s.db, tx') && LocksFree(s, t, tx')
  {
  }

  lemma ReleaseStart(db0: Db, s: System, t: nat)
    requires Inv(db0, s) && CanExec(s, t) && s.txs[t].op.Release? && s.txs[t].pc == Start
    ensures Inv(db0, Execute(s, t))
  {
    hide Inv, Pending, Placed, CanExec, Execute, Refuse, Apply, LocksFree;
    Unblocked(s, t);
    var tx := s.txs[t];
    Standing(db0, s, t);
    ReleaseDeletes(s, t);
    if tx.op.id !in s.db.reservations {
      RefuseStep(db0, s, t, NotFound);
    } else {
      PutStep(db0, s, t, WithDeleted(tx, tx.op.id, s.db.reservations[tx.op.id]));
    }
  }

  lemma ReleaseCredits(s: System, t: nat)
    requires CanExec(s, t) && s.txs[t].op.Release? && s.txs[t].pc == Claimed
    requires Pending(s.db, s.txs[t]) && Consistent(s.db)
    ensures var tx := s.txs[t];
            && tx.op.id in s.db.reservations
            && var r := s.db.reservations[tx.op.id];
               && r.sku in s.db.stock && !StockLocked(s, r.sku, t)
               && var row := s.db.stock[r.sku];
                  && Execute(s, t)
                    == Write(s, t, r.sku, row.available + r.quantity, row.reserved - r.quantity, Credited)
                  && if InRange(row.available + r.quantity) && InRange(row.reserved - r.quantity)
                     then Pending(s.db, Written(tx, r.sku, row.available + r.quantity, row.reserved - r.quantity,
                                                Credited))
                     else Apply(s.db, tx.op) == (s.db, Err(Internal))
  {
  }

  lemma ReleaseCredit(db0: Db, s: System, t: nat)
    requires Inv(db0, s) && CanExec(s, t) && s.txs[t].op.Release? && s.txs[t].pc == Claimed
    ensures Inv(db0, Execute(s, t))
  {
    hide Inv, Pending, Placed, CanExec, Execute, Write, Written, Apply, StockLocked, Consistent;
    Unblocked(s, t);
    Standing(db0, s, t);
    ReleaseCredits(s, t);
    var r := s.db.reservations[s.txs[t].op.id];
    var row := s.db.stock[r.sku];
    WriteStep(db0, s, t, r.sku, row.available + r.quantity, row.reserved - r.quantity, Credited);
  }

  lemma ReleaseSelects(s: System, t: nat)
    requires CanExec(s, t) && s.txs[t].op.Release? && s.txs[t].pc == Credited && Pending(s.db, s.txs[t])
    ensures var tx' := s.txs[t].(pc := Selected);
            Execute(s, t) == Put(s, t, tx') && Pending(s.db, tx') && LocksFree(s, t, tx')
  {
  }

  lemma ReleaseSelect(db0: Db, s: System, t: nat)
    requires Inv(db0, s) && CanExec(s, t) && s.txs[t].op.Release? && s.txs[t].pc == Credited
    ensures Inv(db0, Execute(s, t))
  {
    hide Inv, Pending, Placed, CanExec, Execute, LocksFree;
    Unblocked(s, t);
    Standing(db0, s, t);
    ReleaseSelects(s, t);
    PutStep(db0, s, t, s.txs[t].(pc := Selected));
  }

  lemma ExecKeepsInv(db0: Db, s: System, t: nat)
    requires Inv(db0, s) && CanExec(s, t)
    ensures Inv(db0, Execute(s, t))
  {
    var tx := s.txs[t];
    hide Inv, Pending, Execute, CanExec;
    Unblocked(s, t);
    Standing(db0, s, t);
    PcCases(s.db, tx);
    match tx.pc {
      case Start =>
        match tx.op {
          case Adjust(_, _) => AdjustStart(db0, s, t);
          case Reserve(_, _, _, _) => ReserveStart(db0, s, t);
          case Release(_) => ReleaseStart(db0, s, t);
        }
      case Counting => CountStep(db0, s, t);
      case Updated =>
        if tx.op.Adjust? {
          CommitExec(db0, s, t);
        } else {
          ReserveInsert(db0, s, t);
        }
      case Inserted => CommitExec(db0, s, t);
      case Claimed => ReleaseCredit(db0, s, t);
      case Credited => ReleaseSelect(db0, s, t);
      case Selected => CommitExec(db0, s, t);
    }
  }

  lemma LapsedIsPending(db: Db, tx: Tx)
    requires Pending(db, tx)
    ensures Pending(db, tx.(lapsed := true))
  {
  }

  lemma LapseStep(db0: Db, s: System, t: nat)
    requires Inv(db0, s) && InFlight(s, t) && AtCommit(s.txs[t])
    ensures Inv(db0, Do(s, Lapse(t)))
  {
    hide Inv, Pending, Exclusive, LocksFree;
    var tx := s.txs[t].(lapsed := true);
    Standing(db0, s, t);
    LapsedIsPending(s.db, s.txs[t]);
    SameLocks(s, t, tx);
    LocalStep(db0, s, t, tx);
  }

  lemma SameLocks(s: System, t: nat, tx: Tx)
    requires t in s.txs && Exclusive(s)
    requires tx.stock == s.txs[t].stock && tx.inserted == s.txs[t].inserted && tx.deleted == s.txs[t].deleted
    ensures Exclusive(Put(s, t, tx))
  {
  }

  lemma StepKeepsInv(db0: Db, s: System, a: Action)
    requires Inv(db0, s) && Can(s, a)
    ensures Inv(db0, Do(s, a))
  {
    match a {
      case Arrive(t, op) =>
        var tx := Tx(op, Start, map[], map[], map[], Err(Internal), None, |s.serial|, false);
        CleanIsPending(s.db, tx);
        ExclusivePut(s, Put(s, t, tx), t, tx);
        LocalStep(db0, s, t, tx);
      case Exec(t) => ExecKeepsInv(db0, s, t);
      case Fail(t) => CloseStep(db0, s, t, Err(Internal));
      case Lapse(t) => LapseStep(db0, s, t);
      case SeedRow(sku, amount) => SeedStep(db0, s, sku, amount);
    }
  }

  // ---- Every run ----

  lemma {:induction false} RunKeepsInv(db: Db, actions: seq<Action>)
    requires Consistent(db) && Run(db, actions).Some?
    ensures Inv(db, Run(db, actions).value)
  {
    hide Pending, Placed, Can, Do;
    if actions == [] {
      assert After(db, []) == db;
    } else {
      var before := actions[..|actions| - 1];
      RunKeepsInv(db, before);
      StepKeepsInv(db, Run(db, before).value, actions[|actions| - 1]);
    }
  }

  /** i is the moment request t took effect in the serial order. */
  ghost predicate TookEffect(s: System, t: nat, i: nat) {
    t in s.txs && i < |s.serial| && s.txs[t].begun <= i && s.serial[i] == s.txs[t].op && s.txs[t].place == Some(i)
  }

  /**
   * However statements interleave, the tables are those of running the requests
   * of s.serial one at a time.  A finished request that was not struck by a fault
   * has one place of its own there, no earlier than its arrival, and is answered
   * as it is answered there; the one exception is a SKU seeded between its UPDATE
   * and its COUNT, which turns NotFound into Insufficient.
   */
  lemma EveryRunIsSerial(db: Db, actions: seq<Action>, t: nat)
    requires Consistent(db) && Run(db, actions).Some?
    requires t in Run(db, actions).value.txs && Run(db, actions).value.txs[t].pc == Done
    ensures var s := Run(db, actions).value;
            var tx := s.txs[t];
            && s.db == After(db, s.serial) && Consistent(s.db)
            && (tx.outcome == Err(Internal)
                || exists i: nat :: TookEffect(s, t, i)
                                    && (tx.outcome == Answer(db, s.serial, i) || SeedRace(db, s, tx, i)))
            && (tx.outcome.Ok? ==> exists i: nat :: TookEffect(s, t, i) && tx.outcome == Answer(db, s.serial, i))
  {
    var s := Run(db, actions).value;
    RunKeepsInv(db, actions);
    Standing(db, s, t);
    hide Inv, Pending;
    var tx := s.txs[t];
    if tx.outcome != Err(Internal) {
      assert Faithful(s, tx) && TookEffect(s, t, tx.place.value);
      AnswersAgree(db, s, tx.place.value);
    }
  }

  lemma AnswersAgree(db0: Db, s: System, i: nat)
    requires Inv(db0, s) && i < |s.serial|
    ensures |s.answers| == |s.serial| && s.answers[i] == Answer(db0, s.serial, i)
  {
  }

  ghost predicate SeedRace(db: Db, s: System, tx: Tx, i: nat) {
    && i < |s.serial| && (tx.op.Adjust? || tx.op.Reserve?)
    && tx.outcome == Err(Insufficient) && Answer(db, s.serial, i) == Err(NotFound) && SeededSince(s, i, tx.op.sku)
  }

  /** Distinct requests take effect at distinct moments, and nothing else is in the serial order but seedings. */
  lemma SerialOrderIsTheRequests(db: Db, actions: seq<Action>, i: nat, t: nat, u: nat)
    requires Consistent(db) && Run(db, actions).Some? && i < |Run(db, actions).value.serial|
    ensures var s := Run(db, actions).value;
            && (!s.serial[i].Seed? ==> exists v :: TookEffect(s, v, i))
            && (TookEffect(s, t, i) && TookEffect(s, u, i) ==> t == u)
  {
    var s := Run(db, actions).value;
    RunKeepsInv(db, actions);
    if !s.serial[i].Seed? {
      var v :| v in s.txs && s.txs[v].place == Some(i);
      Standing(db, s, v);
      hide Inv, Pending;
      assert TookEffect(s, v, i);
    }
  }

  /**
   * A request that was answered with an error has left both tables as they were,
   * faults included, unless the error was that of a COMMIT still under way.
   */
  lemma FailureLeavesNoTrace(db: Db, actions: seq<Action>, t: nat, i: nat)
    requires Consistent(db) && Run(db, actions).Some?
    requires var s := Run(db, actions).value;
             && TookEffect(s, t, i) && s.txs[t].pc == Done && s.txs[t].outcome.Err?
             && (s.txs[t].lapsed ==> s.txs[t].outcome != Err(Internal))
    ensures var s := Run(db, actions).value; After(db, s.serial[..i + 1]) == After(db, s.serial[..i])
  {
    var s := Run(db, actions).value;
    RunKeepsInv(db, actions);
    Standing(db, s, t);
    AnswersAgree(db, s, i);
    hide Inv, Pending, Apply, Run;
    FailureChangesNothing(db, s.serial, i);
  }

  /**
   * A request told that its COMMIT failed, once that COMMIT is over, has either no
   * place in the serial order, or one where all of it succeeded: never a part of it.
   */
  lemma LapseIsAllOrNothing(db: Db, actions: seq<Action>, t: nat)
    requires Consistent(db) && Run(db, actions).Some?
    requires var s := Run(db, actions).value; t in s.txs && s.txs[t].pc == Done && s.txs[t].lapsed
    ensures var s := Run(db, actions).value;
            && s.txs[t].outcome == Err(Internal)
            && ((forall i: nat :: !TookEffect(s, t, i))
                || exists i: nat :: TookEffect(s, t, i) && Answer(db, s.serial, i).Ok?)
  {
    var s := Run(db, actions).value;
    RunKeepsInv(db, actions);
    Standing(db, s, t);
    if s.txs[t].place.Some? {
      AnswersAgree(db, s, s.txs[t].place.value);
      hide Inv, Pending, Run;
      assert TookEffect(s, t, s.txs[t].place.value);
    }
  }

  /** A NotFound from an adjustment or a reservation is sound: its SKU had no row when it took effect. */
  lemma NotFoundIsSound(db: Db, actions: seq<Action>, t: nat)
    requires Consistent(db) && Run(db, actions).Some?
    requires var s := Run(db, actions).value;
             t in s.txs && s.txs[t].pc == Done && s.txs[t].outcome == Err(NotFound) && !s.txs[t].op.Release?
    ensures var s := Run(db, actions).value;
            exists i: nat :: TookEffect(s, t, i) && !s.txs[t].op.Seed?
              && s.txs[t].op.sku !in After(db, s.serial[..i]).stock
  {
    var s := Run(db, actions).value;
    EveryRunIsSerial(db, actions, t);
    RunKeepsInv(db, actions);
    Standing(db, s, t);
    hide Inv, Pending, Placed;
    var i: nat :| TookEffect(s, t, i) && (s.txs[t].outcome == Answer(db, s.serial, i) || SeedRace(db, s, s.txs[t], i));
  }

  /** Without seeding in the run, every answer but a fault's is exactly the serial one. */
  lemma ExactWithoutSeeding(db: Db, actions: seq<Action>, t: nat)
    requires Consistent(db) && Run(db, actions).Some? && (forall a :: a in actions ==> !a.SeedRow?)
    requires var s := Run(db, actions).value;
             t in s.txs && s.txs[t].pc == Done && s.txs[t].outcome != Err(Internal)
    ensures var s := Run(db, actions).value;
            exists i: nat :: TookEffect(s, t, i) && s.txs[t].outcome == Answer(db, s.serial, i)
  {
    var s := Run(db, actions).value;
    EveryRunIsSerial(db, actions, t);
    NoSeeding(db, actions);
    var i: nat :| TookEffect(s, t, i) && (s.txs[t].outcome == Answer(db, s.serial, i) || SeedRace(db, s, s.txs[t], i));
  }

  lemma {:induction false} NoSeeding(db: Db, actions: seq<Action>)
    requires Run(db, actions).Some? && (forall a :: a in actions ==> !a.SeedRow?)
    ensures var s := Run(db, actions).value; forall i :: 0 <= i < |s.serial| ==> !s.serial[i].Seed?
  {
    hide CanExec, Execute, Apply;
    if actions != [] {
      var before := actions[..|actions| - 1];
      var s := Run(db, before).value;
      NoSeeding(db, before);
      RunKeepsProgramme(db, before);
      match actions[|actions| - 1] {
        case Exec(t) =>
          Unblocked(s, t);
          ExecAdvances(s, t);
        case _ =>
      }
    }
  }

  lemma RunOne(db: Db, actions: seq<Action>, a: Action)
    requires Run(db, actions).Some? && Can(Run(db, actions).value, a)
    ensures Run(db, actions + [a]) == Some(Do(Run(db, actions).value, a))
  {
  }

  lemma RunFour(db: Db, a0: Action, a1: Action, a2: Action, a3: Action, s1: System, s2: System, s3: System)
    requires Can(Idle(db), a0) && s1 == Do(Idle(db), a0) && Can(s1, a1) && s2 == Do(s1, a1)
    requires Can(s2, a2) && s3 == Do(s2, a2) && Can(s3, a3)
    ensures Run(db, [a0, a1, a2, a3]) == Some(Do(s3, a3))
  {
    hide Can, Do;
    RunOne(db, [], a0);
    assert [] + [a0] == [a0];
    RunOne(db, [a0], a1);
    assert [a0] + [a1] == [a0, a1];
    RunOne(db, [a0, a1], a2);
    assert [a0, a1] + [a2] == [a0, a1, a2];
    RunOne(db, [a0, a1, a2], a3);
    assert [a0, a1, a2] + [a3] == [a0, a1, a2, a3];
  }

  /**
   * When the COUNT after an UPDATE without rows answers as the request alone would
   * have been answered at its place: always, but when that is NotFound and the SKU
   * has been seeded since.
   */
  lemma CountIsExactIff(db: Db, actions: seq<Action>, t: nat)
    requires Consistent(db) && Run(db, actions).Some?
    requires t in Run(db, actions).value.txs && Run(db, actions).value.txs[t].pc == Counting
    ensures var s := Run(db, actions).value;
            var tx := s.txs[t];
            && CanExec(s, t) && Execute(s, t).txs[t].pc == Done && !tx.op.Seed? && !tx.op.Release?
            && tx.place.Some? && TookEffect(s, t, tx.place.value)
            && var answer := Answer(db, s.serial, tx.place.value);
               Execute(s, t).txs[t].outcome == answer
               <==> !(answer == Err(NotFound) && SeededSince(s, tx.place.value, tx.op.sku))
  {
    var s := Run(db, actions).value;
    RunKeepsInv(db, actions);
    Standing(db, s, t);
    var i, sku := s.txs[t].place.value, s.txs[t].op.sku;
    AnswersAgree(db, s, i);
    if SeededSince(s, i, sku) {
      var j: nat :| i < j < |s.serial| && s.serial[j].Seed? && s.serial[j].sku == sku;
      SeededForGood(db, s.serial, j);
    }
  }

  /** The exception is real: a SKU seeded between the UPDATE and the COUNT is reported as out of stock. */
  lemma SeedRaceHappens(db: Db, op: Op, amount: Int32)
    requires (op.Adjust? || op.Reserve?) && op.sku !in db.stock
    ensures var actions := [Arrive(1, op), Exec(1), SeedRow(op.sku, amount), Exec(1)];
            && Run(db, actions).Some? && 1 in Run(db, actions).value.txs
            && Run(db, actions).value.txs[1].pc == Done
            && SeedRace(db, Run(db, actions).value, Run(db, actions).value.txs[1], 0)
  {
    var arrived := Do(Idle(db), Arrive(1, op));
    var counting := NoRow(arrived, 1);
    assert Can(arrived, Exec(1)) && Do(arrived, Exec(1)) == counting;
    var seeded := Do(counting, SeedRow(op.sku, amount));
    var done := Put(seeded, 1, Close(seeded.txs[1], Err(Insufficient)));
    assert Can(seeded, Exec(1)) && Do(seeded, Exec(1)) == done;
    RunFour(db, Arrive(1, op), Exec(1), SeedRow(op.sku, amount), Exec(1), arrived, counting, seeded);
    assert done.serial == [op, Seed(op.sku, amount)] && done.serial[1].Seed? && done.serial[..0] == [];
  }

  /**
   * However many releases of one reservation race, only one succeeds: two that do
   * have another reservation of that id between them.
   */
  lemma RacingReleases(db: Db, actions: seq<Action>, t: nat, u: nat, i: nat, j: nat)
    requires Consistent(db) && Run(db, actions).Some?
    requires var s := Run(db, actions).value;
             && TookEffect(s, t, i) && TookEffect(s, u, j) && i < j && s.txs[t].op.Release?
               && s.txs[u].op == s.txs[t].op
             && s.txs[t].pc == s.txs[u].pc == Done && s.txs[t].outcome.Ok? && s.txs[u].outcome.Ok?
    ensures var s := Run(db, actions).value;
            exists v, k: nat :: i < k < j && TookEffect(s, v, k) && s.txs[v].op.Reserve?
              && s.txs[v].op.id == s.txs[t].op.id
  {
    var s := Run(db, actions).value;
    EveryRunIsSerial(db, actions, t);
    EveryRunIsSerial(db, actions, u);
    BetweenReleases(db, s.serial, s.txs[t].op.id, i, j);
    var k: nat :| i < k < j && s.serial[k].Reserve? && s.serial[k].id == s.txs[t].op.id;
    SerialOrderIsTheRequests(db, actions, k, t, u);
  }

  // ---- The ledger, whatever the interleaving ----

  predicate GentleAction(a: Action) {
    (a.Arrive? && a.op.Reserve? ==> a.op.quantity >= 0) && (a.SeedRow? ==> a.amount >= 0)
  }

  lemma {:induction false} RunStaysGentle(db: Db, actions: seq<Action>)
    requires Run(db, actions).Some? && forall a :: a in actions ==> GentleAction(a)
    ensures var s := Run(db, actions).value;
            Gentle(s.serial) && forall t :: t in s.txs && s.txs[t].op.Reserve? ==> s.txs[t].op.quantity >= 0
  {
    hide CanExec, Execute, Apply;
    if actions != [] {
      var before, last := actions[..|actions| - 1], actions[|actions| - 1];
      RunStaysGentle(db, before);
      RunKeepsProgramme(db, before);
      assert last in actions && GentleAction(last);
      match last {
        case Exec(t) =>
          Unblocked(Run(db, before).value, t);
          ExecAdvances(Run(db, before).value, t);
        case _ =>
      }
    }
  }

  /**
   * At every moment of every interleaving, reserved is the sum of the open
   * reservations, and available + reserved has moved only by the seedings and
   * adjustments of the serial order; and if nobody asks for a negative amount, no
   * column goes below zero.
   */
  lemma LedgerHoldsConcurrently(db: Db, actions: seq<Action>, sku: string)
    requires Consistent(db) && Run(db, actions).Some?
    ensures var s := Run(db, actions).value;
            && Consistent(s.db) && Total(s.db, sku) == Total(db, sku) + TotalIncome(db, s.serial, sku)
            && (Sane(db) && (forall a :: a in actions ==> GentleAction(a)) && sku in s.db.stock ==>
                  && s.db.stock[sku].available >= 0 && s.db.stock[sku].reserved >= 0
                  && 0 <= OpenQuantity(s.db.reservations, sku) <= Total(db, sku) + TotalIncome(db, s.serial, sku))
  {
    var s := Run(db, actions).value;
    RunKeepsInv(db, actions);
    Conservation(db, s.serial, sku);
    hide Run, Pending, Placed, Exclusive, Owned;
    if Sane(db) && (forall a :: a in actions ==> GentleAction(a)) && sku in s.db.stock {
      RunStaysGentle(db, actions);
      GentleRuns(db, s.serial, sku);
    }
  }

  // ---- When requests deadlock ----

  /** t's next statement needs a row that u holds. */
  predicate Waits(s: System, t: nat, u: nat) {
    t in s.txs && u in s.txs && t != u &&
    var tx, other := s.txs[t], s.txs[u];
    match (tx.op, tx.pc)
    case (Adjust(sku, delta), Start) =>
      sku in s.db.stock && InRange(s.db.stock[sku].available + delta) && s.db.stock[sku].available + delta >= 0
      && sku in other.stock
    case (Reserve(sku, _, quantity, _), Start) =>
      sku in s.db.stock && s.db.stock[sku].available >= quantity && sku in other.stock
    case (Reserve(_, id, _, _), Updated) => id in other.inserted || id in other.deleted
    case (Release(id), Start) => id in s.db.reservations && (id in other.inserted || id in other.deleted)
    case (Release(id), Claimed) => id in tx.deleted && tx.deleted[id].sku in s.db.stock
      && tx.deleted[id].sku in other.stock
    case _ => false
  }

  /** Each transaction waits for the next, and the last for the first. */
  ghost predicate Circle(s: System, c: seq<nat>) {
    c != [] && Distinct(c) && forall i :: 0 <= i < |c| ==> Waits(s, c[i], c[Next(i, |c|)])
  }

  /** A statement that cannot run waits for somebody, and one that waits cannot run. */
  lemma StuckIffWaiting(db0: Db, s: System, t: nat)
    requires Inv(db0, s) && InFlight(s, t)
    ensures CanExec(s, t) <==> forall u :: !Waits(s, t, u)
  {
    Standing(db0, s, t);
    hide Inv;
    if !CanExec(s, t) {
      Blocker(s, t);
    }
  }

  lemma Blocker(s: System, t: nat)
    requires InFlight(s, t) && Pending(s.db, s.txs[t]) && !CanExec(s, t)
    ensures exists u :: Waits(s, t, u)
  {
    match (s.txs[t].op, s.txs[t].pc) {
      case (Adjust(sku, _), Start) => StockBlocker(s, t, sku);
      case (Reserve(sku, _, _, _), Start) => StockBlocker(s, t, sku);
      case (Release(id), Claimed) => StockBlocker(s, t, s.txs[t].deleted[id].sku);
      case (Reserve(_, id, _, _), Updated) => ReservationBlocker(s, t, id);
      case (Release(id), Start) => ReservationBlocker(s, t, id);
      case _ =>
    }
  }

  lemma ReservationBlocker(s: System, t: nat, id: string)
    requires ReservationLocked(s, id, t)
    requires forall u :: u in s.txs && u != t && (id in s.txs[u].inserted || id in s.txs[u].deleted) ==> Waits(s, t, u)
    ensures exists u :: Waits(s, t, u)
  {
  }

  lemma StockBlocker(s: System, t: nat, sku: string)
    requires StockLocked(s, sku, t) && forall u :: u in s.txs && u != t && sku in s.txs[u].stock ==> Waits(s, t, u)
    ensures exists u :: Waits(s, t, u)
  {
  }

  ghost function Blocking(s: System, t: nat): nat
    requires exists u :: Waits(s, t, u)
  {
    var u :| Waits(s, t, u);
    u
  }

  /** Who is waited for has written something, so it is not over. */
  lemma BlockersAreOpen(db0: Db, s: System, t: nat, u: nat)
    requires Inv(db0, s) && Waits(s, t, u)
    ensures InFlight(s, t) && InFlight(s, u)
  {
    Standing(db0, s, u);
    Standing(db0, s, t);
    hide Inv;
  }

  /** If requests are under way and no statement can run, some of them wait in a circle. */
  lemma StuckMeansCircle(db0: Db, s: System, t: nat) returns (c: seq<nat>)
    requires Inv(db0, s) && InFlight(s, t) && forall u :: !CanExec(s, u)
    ensures Circle(s, c)
  {
    hide Inv, CanExec, Waits;
    var nodes := set u | u in s.txs && InFlight(s, u);
    assert t in nodes;
    forall u | u in nodes ensures (exists v :: Waits(s, u, v)) && Blocking(s, u) in nodes {
      StuckIffWaiting(db0, s, u);
      BlockersAreOpen(db0, s, u, Blocking(s, u));
    }
    var next := map u | u in nodes :: Blocking(s, u);
    c := FindCircle(nodes, next);
    forall i | 0 <= i < |c| ensures Waits(s, c[i], c[Next(i, |c|)]) {
      assert c[i] in nodes && next[c[i]] == Blocking(s, c[i]);
    }
  }

  /**
   * In every reachable state with an unfinished request, either some statement can
   * run or requests wait in a circle.
   */
  lemma DeadlockIsACircle(db: Db, actions: seq<Action>, t: nat)
    requires Consistent(db) && Run(db, actions).Some? && InFlight(Run(db, actions).value, t)
    ensures (exists u :: CanExec(Run(db, actions).value, u)) || (exists c :: Circle(Run(db, actions).value, c))
  {
    hide Run, Inv, CanExec, Circle;
    RunKeepsInv(db, actions);
    if forall u :: !CanExec(Run(db, actions).value, u) {
      var c := StuckMeansCircle(db, Run(db, actions).value, t);
    }
  }

  /**
   * Between its UPDATE and its INSERT, a reservation whose id is that of an open one
   * which u is deleting; or a release before its UPDATE, when u has the stock row.
   */
  ghost predicate Crosses(s: System, t: nat, u: nat) {
    t in s.txs && u in s.txs &&
    match (s.txs[t].op, s.txs[u].op)
    case (Reserve(_, id, _, _), Release(other)) =>
      id == other && id in s.db.reservations && s.txs[t].pc == Updated && s.txs[u].pc == Claimed
    case (Release(id), Reserve(sku, _, _, _)) =>
      id in s.db.reservations && s.db.reservations[id].sku == sku && s.txs[t].pc == Claimed && s.txs[u].pc == Updated
    case _ => false
  }

  lemma WaitsCross(s: System, t: nat, u: nat, v: nat)
    requires Waits(s, t, u) && Waits(s, u, v)
    requires Pending(s.db, s.txs[t]) && Pending(s.db, s.txs[u])
    ensures s.txs[u].pc == Updated || s.txs[u].pc == Claimed
    ensures s.txs[t].pc == Updated || s.txs[t].pc == Claimed ==> Crosses(s, t, u)
  {
  }

  lemma CrossesWait(s: System, t: nat, u: nat)
    requires Crosses(s, t, u) && Pending(s.db, s.txs[t]) && Pending(s.db, s.txs[u]) && Consistent(s.db)
    ensures Waits(s, t, u)
  {
  }

  /**
   * In every reachable state the circles are the crossings: reservations that have
   * drawn the id of an open reservation, and releases of those, by turns.
   */
  lemma CirclesAreCrossings(db: Db, actions: seq<Action>, c: seq<nat>)
    requires Consistent(db) && Run(db, actions).Some? && c != [] && Distinct(c)
    ensures var s := Run(db, actions).value;
            Circle(s, c) <==> forall i :: 0 <= i < |c| ==> Crosses(s, c[i], c[Next(i, |c|)])
  {
    var s := Run(db, actions).value;
    RunKeepsInv(db, actions);
    hide Inv, Waits, Run, Crosses, Pending, Consistent;
    if Circle(s, c) {
      forall i | 0 <= i < |c| ensures Crosses(s, c[i], c[Next(i, |c|)]) {
        MemberCrosses(db, s, c, i);
      }
    }
    if forall i :: 0 <= i < |c| ==> Crosses(s, c[i], c[Next(i, |c|)]) {
      forall i | 0 <= i < |c| ensures Waits(s, c[i], c[Next(i, |c|)]) {
        var t, u := c[i], c[Next(i, |c|)];
        CrossersStand(db, s, t, u);
        CrossesWait(s, t, u);
      }
    }
  }

  lemma CrossersStand(db0: Db, s: System, t: nat, u: nat)
    requires Inv(db0, s) && Crosses(s, t, u)
    ensures Pending(s.db, s.txs[t]) && Pending(s.db, s.txs[u]) && Consistent(s.db)
  {
    hide Pending, Placed, Consistent;
  }

  function Previous(i: nat, n: nat): (h: nat)
    requires i < n
    ensures h < n && Next(h, n) == i
  {
    if i == 0 then n - 1 else i - 1
  }

  lemma MemberCrosses(db0: Db, s: System, c: seq<nat>, i: nat)
    requires Inv(db0, s) && Circle(s, c) && i < |c|
    ensures Crosses(s, c[i], c[Next(i, |c|)])
  {
    hide Inv, Crosses, Pending, Consistent;
    var h, j := Previous(i, |c|), Next(i, |c|);
    assert Waits(s, c[h], c[Next(h, |c|)]) && Waits(s, c[i], c[j]) && Waits(s, c[j], c[Next(j, |c|)]);
    Standing(db0, s, c[h]);
    Standing(db0, s, c[i]);
    Standing(db0, s, c[j]);
    WaitsCross(s, c[h], c[i], c[j]);
    WaitsCross(s, c[i], c[j], c[Next(j, |c|)]);
  }

  /** A statement changes no open reservation but the one its transaction has deleted. */
  lemma ReservationStays(s: System, t: nat, id: string)
    requires CanExec(s, t) && Pending(s.db, s.txs[t]) && id in s.db.reservations && id !in s.txs[t].deleted
    ensures id in Execute(s, t).db.reservations && Execute(s, t).db.reservations[id] == s.db.reservations[id]
  {
    hide Apply;
    if AtCommit(s.txs[t]) {
      assert Execute(s, t) == Commit(s, t, ReplyOf(s.txs[t]));
    }
  }

  /** What another transaction has deleted stays open, whatever statement runs. */
  lemma ClaimStays(db0: Db, s: System, w: nat, u: nat, id: string)
    requires Inv(db0, s) && CanExec(s, w) && u in s.txs && u != w && s.txs[u].op == Release(id)
             && s.txs[u].pc == Claimed
    ensures var s' := Execute(s, w);
            && id in s.db.reservations && id in s'.db.reservations
            && s'.db.reservations[id] == s.db.reservations[id]
  {
    hide Inv, CanExec, Execute, Apply, Placed;
    Unblocked(s, w);
    Standing(db0, s, u);
    Standing(db0, s, w);
    ReservationStays(s, w, id);
  }

  lemma CrossStays(db0: Db, s: System, t: nat, u: nat, a: Action)
    requires Inv(db0, s) && Crosses(s, t, u) && Can(s, a) && !CanExec(s, t) && !CanExec(s, u)
    requires a != Fail(t) && a != Fail(u) && forall v :: v in s.txs ==> Programme(s.txs[v])
    ensures Crosses(Do(s, a), t, u)
  {
    hide Inv, CanExec, Execute, Pending, Placed;
    if a.Exec? {
      Unblocked(s, a.t);
      ExecAdvances(s, a.t);
      if s.txs[t].op.Reserve? {
        ClaimStays(db0, s, a.t, u, s.txs[t].op.id);
      } else {
        ClaimStays(db0, s, a.t, t, s.txs[t].op.id);
      }
    }
  }

  lemma MemberIsStuck(db0: Db, s: System, c: seq<nat>, i: nat)
    requires Inv(db0, s) && Circle(s, c) && i < |c|
    ensures InFlight(s, c[i]) && !CanExec(s, c[i])
  {
    hide Inv, CanExec;
    assert Waits(s, c[i], c[Next(i, |c|)]);
    BlockersAreOpen(db0, s, c[i], c[Next(i, |c|)]);
    StuckIffWaiting(db0, s, c[i]);
  }

  /** Once in a circle, a request is never answered, whatever else happens, until some member of it fails. */
  lemma {:induction false} CirclesLast(db: Db, actions: seq<Action>, rest: seq<Action>, c: seq<nat>)
    requires Consistent(db) && Run(db, actions).Some? && Run(db, actions + rest).Some?
    requires Circle(Run(db, actions).value, c) && forall t :: t in c ==> Fail(t) !in rest
    ensures var s := Run(db, actions + rest).value;
            Circle(s, c) && forall t :: t in c ==> InFlight(s, t) && !CanExec(s, t)
  {
    hide Inv, CanExec, Waits, Can, Do, Crosses;
    if rest == [] {
      assert actions + rest == actions;
    } else {
      var before, last := rest[..|rest| - 1], rest[|rest| - 1];
      assert (actions + rest)[..|actions + rest| - 1] == actions + before;
      assert last in rest;
      CirclesLast(db, actions, before, c);
      var s := Run(db, actions + before).value;
      RunKeepsInv(db, actions + before);
      RunKeepsProgramme(db, actions + before);
      CirclesAreCrossings(db, actions + before, c);
      forall i | 0 <= i < |c| ensures Crosses(Do(s, last), c[i], c[Next(i, |c|)]) {
        CrossStays(db, s, c[i], c[Next(i, |c|)], last);
      }
      CirclesAreCrossings(db, actions + rest, c);
    }
    RunKeepsInv(db, actions + rest);
    var s := Run(db, actions + rest).value;
    forall t | t in c ensures InFlight(s, t) && !CanExec(s, t) {
      var i :| 0 <= i < |c| && c[i] == t;
      MemberIsStuck(db, s, c, i);
    }
  }

  /** No reservation under way has the id of an open one. */
  ghost predicate NewIds(s: System) {
    forall t :: InFlight(s, t) && s.txs[t].op.Reserve? ==> s.txs[t].op.id !in s.db.reservations
  }

  /** What drawing random ids gives: a reservation under way has an id that no reservation has, open or under way. */
  ghost predicate FreshIds(s: System) {
    && NewIds(s)
    && (forall t, u :: InFlight(s, t) && InFlight(s, u) && s.txs[t].op.Reserve? && s.txs[u].op.Reserve? && t != u
          ==> s.txs[t].op.id != s.txs[u].op.id)
  }

  /** So while no reservation draws the id of an open one, some request's next statement can run. */
  lemma NeverDeadlocked(db: Db, actions: seq<Action>, t: nat)
    requires Consistent(db) && Run(db, actions).Some? && InFlight(Run(db, actions).value, t)
    requires NewIds(Run(db, actions).value)
    ensures exists u :: CanExec(Run(db, actions).value, u)
  {
    var s := Run(db, actions).value;
    DeadlockIsACircle(db, actions, t);
    hide Run, CanExec, Waits;
    if c :| Circle(s, c) {
      CirclesAreCrossings(db, actions, c);
      var u := ReservationIn(s, c);
    }
  }

  /** Every crossing has a reservation in it. */
  lemma ReservationIn(s: System, c: seq<nat>) returns (u: nat)
    requires c != [] && forall i :: 0 <= i < |c| ==> Crosses(s, c[i], c[Next(i, |c|)])
    ensures InFlight(s, u) && s.txs[u].op.Reserve? && s.txs[u].op.id in s.db.reservations
  {
    var j := Next(0, |c|);
    assert Crosses(s, c[0], c[j]) && Crosses(s, c[j], c[Next(j, |c|)]);
    u := if s.txs[c[0]].op.Reserve? then c[0] else c[j];
  }

  function Rank(pc: Pc): nat {
    match pc
    case Start => 0
    case Counting | Updated | Claimed => 1
    case Inserted | Credited => 2
    case Selected => 3
    case Done => 4
  }

  /** What any statement does to the rest of the system: nothing, but for the serial order. */
  ghost predicate Advances(s: System, s': System, t: nat)
    requires t in s.txs
  {
    && s'.txs.Keys == s.txs.Keys && (forall u :: u in s.txs && u != t ==> s'.txs[u] == s.txs[u])
    && s'.txs[t].begun == s.txs[t].begun && s'.txs[t].op == s.txs[t].op
    && Rank(s'.txs[t].pc) > Rank(s.txs[t].pc)
    && (s'.serial == s.serial || s'.serial == s.serial + [s.txs[t].op])
  }

  /** The statements each kind of request has. */
  predicate Programme(tx: Tx) {
    match tx.op
    case Adjust(_, _) => tx.pc in {Start, Counting, Updated, Done}
    case Reserve(_, _, _, _) => tx.pc in {Start, Counting, Updated, Inserted, Done}
    case Release(_) => tx.pc in {Start, Claimed, Credited, Selected, Done}
    case _ => false
  }

  lemma AdjustAdvances(s: System, t: nat)
    requires CanExec(s, t) && s.txs[t].op.Adjust? && Programme(s.txs[t])
    ensures Advances(s, Execute(s, t), t) && Programme(Execute(s, t).txs[t])
  {
  }

  lemma ReserveAdvances(s: System, t: nat)
    requires CanExec(s, t) && s.txs[t].op.Reserve? && Programme(s.txs[t])
    ensures Advances(s, Execute(s, t), t) && Programme(Execute(s, t).txs[t])
  {
  }

  lemma ReleaseAdvances(s: System, t: nat)
    requires CanExec(s, t) && s.txs[t].op.Release? && Programme(s.txs[t])
    ensures Advances(s, Execute(s, t), t) && Programme(Execute(s, t).txs[t])
  {
    hide Apply;
    if s.txs[t].pc == Claimed {
      CreditAdvances(s, t);
    }
  }

  lemma CreditAdvances(s: System, t: nat)
    requires CanExec(s, t) && s.txs[t].op.Release? && s.txs[t].pc == Claimed
    ensures Advances(s, Execute(s, t), t) && Programme(Execute(s, t).txs[t])
  {
    hide Apply;
  }

  lemma ExecAdvances(s: System, t: nat)
    requires CanExec(s, t) && Programme(s.txs[t])
    ensures Advances(s, Execute(s, t), t) && Programme(Execute(s, t).txs[t])
  {
    hide Execute, CanExec, Advances;
    Unblocked(s, t);
    match s.txs[t].op {
      case Adjust(_, _) => AdjustAdvances(s, t);
      case Reserve(_, _, _, _) => ReserveAdvances(s, t);
      case Release(_) => ReleaseAdvances(s, t);
    }
  }

  /**
   * The hypothesis is needed: whenever a reservation draws the id of an open one of
   * the same SKU, and there is enough stock, releasing that one between its UPDATE
   * and its INSERT blocks both for good.
   */
  lemma ClashDeadlocks(db: Db, id: string, quantity: Int32, orderId: string)
    requires id in db.reservations && db.reservations[id].sku in db.stock
    requires var row := db.stock[db.reservations[id].sku];
             row.available >= quantity && InRange(row.available - quantity) && InRange(row.reserved + quantity)
    ensures var actions := [Arrive(1, Reserve(db.reservations[id].sku, id, quantity, orderId)), Exec(1),
                            Arrive(2, Release(id)), Exec(2)];
            && Run(db, actions).Some? && InFlight(Run(db, actions).value, 1) && InFlight(Run(db, actions).value, 2)
            && forall u :: !CanExec(Run(db, actions).value, u)
  {
    var reserve, release := Arrive(1, Reserve(db.reservations[id].sku, id, quantity, orderId)), Arrive(2, Release(id));
    var s1 := Do(Idle(db), reserve);
    assert CanExec(s1, 1);
    var s2 := Execute(s1, 1);
    var s3 := Do(s2, release);
    Crossed(db, id, s1, s2, s3);
    RunFour(db, reserve, Exec(1), release, Exec(2), s1, s2, s3);
  }

  lemma Crossed(db: Db, id: string, s1: System, s2: System, s3: System)
    requires id in db.reservations && db.reservations[id].sku in db.stock && s1.db == db && s1.txs.Keys == {1}
    requires s1.txs[1].op.Reserve? && s1.txs[1].op.sku == db.reservations[id].sku && s1.txs[1].op.id == id
    requires s1.txs[1].pc == Start && s1.txs[1].inserted == map[] && s1.txs[1].deleted == map[]
    requires var row, quantity := db.stock[db.reservations[id].sku], s1.txs[1].op.quantity;
             row.available >= quantity && InRange(row.available - quantity) && InRange(row.reserved + quantity)
    requires CanExec(s1, 1) && s2 == Execute(s1, 1) && s3 == Do(s2, Arrive(2, Release(id)))
    ensures CanExec(s3, 2) && InFlight(Execute(s3, 2), 1) && InFlight(Execute(s3, 2), 2)
    ensures forall u :: !CanExec(Execute(s3, 2), u)
  {
    var sku := db.reservations[id].sku;
    var row, quantity := db.stock[sku], s1.txs[1].op.quantity;
    var held := Written(s1.txs[1], sku, row.available - quantity, row.reserved + quantity, Updated);
    assert s2 == Put(s1, 1, held);
    assert s3.txs[1] == held && s3.db == s1.db && s3.txs.Keys == {1, 2};
    var s4 := Put(s3, 2, WithDeleted(s3.txs[2], id, db.reservations[id]));
    assert CanExec(s3, 2) && Execute(s3, 2) == s4;
    assert s4.txs[1] == held && id in s4.txs[2].deleted && sku in s4.txs[1].stock;
    assert ReservationLocked(s4, id, 1) && StockLocked(s4, sku, 2);
  }

  // ---- Completion ----

  /** A statement leaves the reservations alone, or commits a transaction's own. */
  lemma NewReservations(s: System, t: nat, id: string)
    requires CanExec(s, t) && Pending(s.db, s.txs[t]) && id in Execute(s, t).db.reservations
    ensures id in s.db.reservations || (s.txs[t].op.Reserve? && s.txs[t].op.id == id && Execute(s, t).txs[t].pc == Done)
  {
    hide Apply;
    if AtCommit(s.txs[t]) {
      CommitAdds(s, t, id);
    }
  }

  lemma CommitAdds(s: System, t: nat, id: string)
    requires CanExec(s, t) && Pending(s.db, s.txs[t]) && AtCommit(s.txs[t]) && id in Execute(s, t).db.reservations
    ensures id in s.db.reservations || (s.txs[t].op.Reserve? && s.txs[t].op.id == id && Execute(s, t).txs[t].pc == Done)
  {
    hide Apply;
    assert Execute(s, t) == Commit(s, t, ReplyOf(s.txs[t]));
  }

  lemma FreshIdsStay(db0: Db, s: System, t: nat)
    requires Inv(db0, s) && FreshIds(s) && CanExec(s, t) && Programme(s.txs[t])
    ensures FreshIds(Execute(s, t))
  {
    hide Inv, Pending, CanExec, Execute, Placed, Consistent, Exclusive, Programme;
    Unblocked(s, t);
    Standing(db0, s, t);
    ExecAdvances(s, t);
    var s' := Execute(s, t);
    forall u | InFlight(s', u) && s'.txs[u].op.Reserve? ensures s'.txs[u].op.id !in s'.db.reservations {
      assert InFlight(s, u);
      if s'.txs[u].op.id in s'.db.reservations {
        NewReservations(s, t, s'.txs[u].op.id);
      }
    }
  }

  /** How many statements are still to run, at most. */
  ghost function Work(txs: map<nat, Tx>): nat {
    Sum(map t | t in txs :: 4 - Rank(txs[t].pc))
  }

  lemma StatementIsWork(s: System, s': System, t: nat)
    requires t in s.txs && Advances(s, s', t)
    ensures Work(s'.txs) < Work(s.txs)
  {
    SumDrops(map u | u in s.txs :: 4 - Rank(s.txs[u].pc), map u | u in s'.txs :: 4 - Rank(s'.txs[u].pc), t);
  }

  lemma FreshIdsAreNew(s: System)
    requires FreshIds(s)
    ensures NewIds(s)
  {
  }

  /**
   * From every reachable state with fresh ids, statements alone bring every request
   * to its end: nobody is stuck, not even beside others that can go on.
   */
  lemma {:induction false} EveryRequestCanFinish(db: Db, actions: seq<Action>) returns (more: seq<Action>)
    requires Consistent(db) && Run(db, actions).Some? && FreshIds(Run(db, actions).value)
    ensures (forall a :: a in more ==> a.Exec?) && Run(db, actions + more).Some?
    ensures forall t :: t in Run(db, actions).value.txs ==>
              t in Run(db, actions + more).value.txs && Run(db, actions + more).value.txs[t].pc == Done
    decreases Work(Run(db, actions).value.txs)
  {
    hide FreshIds, CanExec, Execute, Programme, Inv, Work;
    var s := Run(db, actions).value;
    if t :| InFlight(s, t) {
      RunKeepsInv(db, actions);
      RunKeepsProgramme(db, actions);
      FreshIdsAreNew(s);
      NeverDeadlocked(db, actions, t);
      var u :| CanExec(s, u);
      Unblocked(s, u);
      ExecAdvances(s, u);
      FreshIdsStay(db, s, u);
      RunOne(db, actions, Exec(u));
      StatementIsWork(s, Execute(s, u), u);
      var rest := EveryRequestCanFinish(db, actions + [Exec(u)]);
      more := [Exec(u)] + rest;
      assert actions + more == actions + [Exec(u)] + rest;
      assert forall v :: v in s.txs ==> v in Execute(s, u).txs;
    } else {
      more := [];
      assert actions + more == actions;
      assert forall v :: v in s.txs ==> !InFlight(s, v);
    }
  }

  // ---- A COMMIT that is reported as failed ----

  /** The request is the only one there has been, and nothing is settled yet. */
  ghost predicate Alone(s: System, db: Db, t: nat, op: Op) {
    && s.db == db && s.serial == [] && s.txs.Keys == {t}
    && s.txs[t].op == op && s.txs[t].pc != Done && s.txs[t].pc != Counting
  }

  lemma AloneCanExec(db: Db, s: System, t: nat, op: Op)
    requires Inv(db, s) && Alone(s, db, t, op)
    ensures CanExec(s, t)
  {
    hide Inv, CanExec;
    StuckIffWaiting(db, s, t);
  }

  /** Short of its COMMIT, no statement of a request that would succeed settles anything. */
  lemma StatementSettlesNothing(s: System, t: nat)
    requires CanExec(s, t) && Pending(s.db, s.txs[t]) && Consistent(s.db) && !s.txs[t].op.Seed?
    requires Apply(s.db, s.txs[t].op).1.Ok? && !AtCommit(s.txs[t]) && s.txs[t].pc != Counting
    ensures var s' := Execute(s, t);
            t in s'.txs && s' == Put(s, t, s'.txs[t]) && s'.txs[t].op == s.txs[t].op
            && s'.txs[t].pc != Done && s'.txs[t].pc != Counting
  {
    hide Pending, CanExec, Execute, Apply, StockLocked, LocksFree, Consistent;
    Unblocked(s, t);
    PcCases(s.db, s.txs[t]);
    match (s.txs[t].op, s.txs[t].pc) {
      case (Adjust(_, _), _) => AdjustUpdates(s, t);
      case (Reserve(_, _, _, _), Start) => ReserveUpdates(s, t);
      case (Reserve(_, _, _, _), _) => ReserveInserts(s, t);
      case (Release(_), Start) => ReleaseDeletes(s, t);
      case (Release(_), Claimed) => ReleaseCredits(s, t);
      case (Release(_), _) => ReleaseSelects(s, t);
    }
  }

  /** Alone, a request that would succeed gets to its COMMIT. */
  lemma {:induction false} GetsToCommit(db: Db, actions: seq<Action>, t: nat, op: Op) returns (more: seq<Action>)
    requires Consistent(db) && Apply(db, op).1.Ok? && Run(db, actions).Some?
    requires Alone(Run(db, actions).value, db, t, op)
    ensures Run(db, more).Some? && Alone(Run(db, more).value, db, t, op) && AtCommit(Run(db, more).value.txs[t])
    decreases 4 - Rank(Run(db, actions).value.txs[t].pc)
  {
    hide Inv, Pending, CanExec, Execute, Consistent, Apply, AtCommit, Programme;
    var s := Run(db, actions).value;
    if AtCommit(s.txs[t]) {
      more := actions;
    } else {
      RunKeepsInv(db, actions);
      RunKeepsProgramme(db, actions);
      Standing(db, s, t);
      AloneCanExec(db, s, t, op);
      StatementSettlesNothing(s, t);
      ExecAdvances(s, t);
      RunOne(db, actions, Exec(t));
      more := GetsToCommit(db, actions + [Exec(t)], t, op);
    }
  }

  /**
   * To every request that would succeed both can happen: the caller is told that its
   * COMMIT failed, and it has taken effect, or it has not.
   */
  lemma LapseGoesBothWays(db: Db, op: Op)
    requires Consistent(db) && !op.Seed? && Apply(db, op).1.Ok?
    ensures exists told ::
              && Run(db, told + [Exec(1)]).Some? && Run(db, told + [Fail(1)]).Some?
              && var done, undone := Run(db, told + [Exec(1)]).value, Run(db, told + [Fail(1)]).value;
                 && 1 in done.txs && done.txs[1].pc == Done && done.txs[1].outcome == Err(Internal)
                 && 1 in undone.txs && undone.txs[1].pc == Done && undone.txs[1].outcome == Err(Internal)
                 && done.db == Apply(db, op).0 && undone.db == db
  {
    hide Run, Inv, Pending, Apply, Consistent;
    var arrived := Arrives(db, op);
    var actions := GetsToCommit(db, arrived, 1, op);
    var s := Run(db, actions).value;
    RunKeepsInv(db, actions);
    Standing(db, s, 1);
    RunOne(db, actions, Lapse(1));
    var told := actions + [Lapse(1)];
    var lapsed := Do(s, Lapse(1));
    LapsedIsPending(db, s.txs[1]);
    CommitIsApply(db, lapsed.txs[1]);
    CommitRuns(lapsed, 1);
    RunOne(db, told, Exec(1));
    RunOne(db, told, Fail(1));
    assert Run(db, told + [Exec(1)]).Some? && Run(db, told + [Fail(1)]).Some?;
  }

  lemma Arrives(db: Db, op: Op) returns (actions: seq<Action>)
    requires !op.Seed?
    ensures Run(db, actions).Some? && Alone(Run(db, actions).value, db, 1, op)
  {
    actions := [] + [Arrive(1, op)];
    RunOne(db, [], Arrive(1, op));
  }

  lemma CommitRuns(s: System, t: nat)
    requires InFlight(s, t) && AtCommit(s.txs[t])
    ensures CanExec(s, t) && Execute(s, t) == Commit(s, t, ReplyOf(s.txs[t]))
  {
  }

  // ---- What finished requests keep, seen across two moments of one run ----

  /** Between two moments the serial order only grows, finished requests stay put, and later ones arrive after it. */
  ghost predicate Later(s: System, s': System) {
    && s.serial <= s'.serial
    && (forall t :: t in s.txs ==> t in s'.txs && (s.txs[t].pc == Done ==> s'.txs[t] == s.txs[t]))
    && (forall t :: t in s'.txs && t !in s.txs ==> s'.txs[t].begun >= |s.serial|)
  }

  lemma StepExtends(s: System, a: Action)
    requires Can(s, a) && forall t :: t in s.txs ==> Programme(s.txs[t])
    ensures Later(s, Do(s, a)) && (forall t :: t in s.txs ==> Do(s, a).txs[t].begun == s.txs[t].begun)
    ensures forall t :: t in Do(s, a).txs ==> Programme(Do(s, a).txs[t])
  {
    hide Execute, CanExec, Apply;
    match a {
      case Exec(t) =>
        Unblocked(s, t);
        ExecAdvances(s, t);
      case _ =>
    }
  }

  lemma {:induction false} RunKeepsProgramme(db: Db, actions: seq<Action>)
    requires Run(db, actions).Some?
    ensures var s := Run(db, actions).value; forall t :: t in s.txs ==> Programme(s.txs[t])
  {
    hide Can, Do, Programme, Later;
    if actions != [] {
      var before := actions[..|actions| - 1];
      RunKeepsProgramme(db, before);
      StepExtends(Run(db, before).value, actions[|actions| - 1]);
    }
  }

  /** Every statement brings its transaction closer to its end and moves no other: after at most four it is over. */
  lemma StatementsAdvance(db: Db, actions: seq<Action>, t: nat)
    requires Run(db, actions).Some? && CanExec(Run(db, actions).value, t)
    ensures Advances(Run(db, actions).value, Execute(Run(db, actions).value, t), t)
  {
    RunKeepsProgramme(db, actions);
    ExecAdvances(Run(db, actions).value, t);
  }

  lemma {:induction false} RunGoesOn(db: Db, first: seq<Action>, rest: seq<Action>)
    requires Run(db, first).Some? && Run(db, first + rest).Some?
    ensures Later(Run(db, first).value, Run(db, first + rest).value)
  {
    hide Can, Do, Programme;
    if rest == [] {
      assert first + rest == first;
    } else {
      var before := rest[..|rest| - 1];
      assert (first + rest)[..|first + rest| - 1] == first + before;
      RunGoesOn(db, first, before);
      RunKeepsProgramme(db, first + before);
      StepExtends(Run(db, first + before).value, rest[|rest| - 1]);
    }
  }

  /**
   * The serial order respects real time: a request that was over before another
   * arrived comes before it, with the same answer.
   */
  lemma RealTimeOrder(db: Db, first: seq<Action>, rest: seq<Action>, t: nat, u: nat, i: nat, j: nat)
    requires Consistent(db) && Run(db, first).Some? && Run(db, first + rest).Some?
    requires var s, s' := Run(db, first).value, Run(db, first + rest).value;
             t in s.txs && s.txs[t].pc == Done && u !in s.txs && TookEffect(s', t, i) && TookEffect(s', u, j)
    ensures i < j && Run(db, first + rest).value.txs[t] == Run(db, first).value.txs[t]
  {
    RunGoesOn(db, first, rest);
    RunKeepsInv(db, first);
    Standing(db, Run(db, first).value, t);
  }
}
