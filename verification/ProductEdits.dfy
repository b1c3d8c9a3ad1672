/**
 * Product edits with their statements interleaved.  SELECT ... FOR UPDATE and
 * every write lock their row to the end of the transaction.  A write first puts
 * the new version of the row in place, which leaves the old version's keys in
 * doubt, and then enters its product code and its slug into their unique indexes,
 * one after the other, each waiting for any open transaction that has entered the
 * key or left it in doubt.
 */
module ProductEdits {
  import opened Wrappers
  import opened Timestamps
  import opened Cursor
  import opened CatalogDomain
  import opened Products

  datatype Pc =
    | Start      // the transaction is open
    | Fetched    // a patch has locked and read its row
    | Versioned  // an insert's or a patch's new version is in place; its code is checked next
    | Coded      // its code is entered; its slug is checked next
    | Wrote      // its slug is entered too, or its row is deleted; the commit is next
    | Done

  /**
   * row is what a patch has read, version what the transaction has written over it;
   * lapsed says that its caller has been answered with an error while its COMMIT
   * was under way.
   */
  datatype Tx = Tx(edit: Edit, pc: Pc, row: Option<Product>, version: Option<Product>, outcome: Outcome,
                   place: Option<nat>, begun: nat, lapsed: bool)

  /** used holds every id that a row has or the sequence has given out. */
  datatype System = System(table: Table, used: set<Int64>, txs: map<nat, Tx>, serial: seq<Edit>, answers: seq<Outcome>)

  datatype Action =
    | Begin(t: nat, edit: Edit)
    | Exec(t: nat)
    | Fail(t: nat)    // the driver, the commit or the caller gives up: it rolls back
    | Lapse(t: nat)   // the caller is told that COMMIT failed, and does not know whether it did

  predicate InFlight(s: System, t: nat) {
    t in s.txs && s.txs[t].pc != Done
  }

  /** The row an edit is about. */
  function Target(e: Edit): Int64 {
    match e.op
    case Create(_) => e.newId
    case Patch(id, _) => id
    case Delete(id) => id
  }

  /** A transaction holds its row once it has read it for update or written it. */
  predicate Holds(tx: Tx) {
    tx.pc != Start && tx.pc != Done
  }

  predicate RowLocked(s: System, id: Int64, t: nat) {
    exists u :: u in s.txs && u != t && Holds(s.txs[u]) && Target(s.txs[u].edit) == id
  }

  // ---- The unique indexes ----

  /** The two unique columns, in the order in which their indexes are maintained. */
  datatype Column = ByCode | BySlug

  function KeyIn(p: Product, column: Column): string {
    match column
    case ByCode => p.productCode
    case BySlug => p.slug
  }

  /** Another committed row has the key. */
  predicate TakenIn(table: Table, id: Int64, column: Column, key: string) {
    exists other :: other in table && other != id && KeyIn(table[other], column) == key
  }

  /** An open transaction has written over a committed row, or deleted it. */
  predicate Rewrites(tx: Tx) {
    (tx.edit.op.Patch? && (tx.pc == Versioned || tx.pc == Coded || tx.pc == Wrote))
      || (tx.edit.op.Delete? && tx.pc == Wrote)
  }

  /** It has entered the key of its version. */
  predicate Claims(tx: Tx, column: Column) {
    tx.version.Some? && (tx.pc == Wrote || (tx.pc == Coded && column == ByCode))
  }

  /** Whether the key will stay taken depends on how this transaction ends. */
  predicate InDoubt(table: Table, tx: Tx, column: Column, key: string) {
    || (Claims(tx, column) && KeyIn(tx.version.value, column) == key)
    || (Rewrites(tx) && Target(tx.edit) in table && KeyIn(table[Target(tx.edit)], column) == key)
  }

  /** A committed row that nobody else is writing over has the key. */
  predicate Clashes(s: System, t: nat, id: Int64, column: Column, key: string) {
    exists other :: other in s.table && other != id && KeyIn(s.table[other], column) == key
      && forall u :: u in s.txs && u != t && Rewrites(s.txs[u]) ==> Target(s.txs[u].edit) != other
  }

  /** A transaction about to enter a key, and the column it is at. */
  predicate Checking(tx: Tx) {
    (tx.pc == Versioned || tx.pc == Coded) && tx.version.Some?
  }

  function ColumnOf(tx: Tx): Column {
    if tx.pc == Versioned then ByCode else BySlug
  }

  function Wanted(tx: Tx): string
    requires Checking(tx)
  {
    KeyIn(tx.version.value, ColumnOf(tx))
  }

  /** t cannot enter its key before u ends. */
  predicate Waits(s: System, t: nat, u: nat) {
    && t in s.txs && u in s.txs && t != u && Checking(s.txs[t])
    && InDoubt(s.table, s.txs[u], ColumnOf(s.txs[t]), Wanted(s.txs[t]))
  }

  predicate Blocked(s: System, t: nat) {
    exists u :: u in s.txs && Waits(s, t, u)
  }

  // ---- Steps ----

  /** What an INSERT or UPDATE would write, but for id and updated_at. */
  function Draft(tx: Tx): Option<Product> {
    match tx.edit.op
    case Create(p) => Some(p)
    case Patch(_, u) => if tx.row.Some? then Some(Merge(tx.row.value, u)) else None
    case Delete(_) => None
  }

  /** The transaction is about to put its new version in place. */
  predicate Drafting(tx: Tx) {
    ((tx.edit.op.Create? && tx.pc == Start) || tx.pc == Fetched) && Draft(tx).Some?
  }

  function Put(s: System, t: nat, tx: Tx): System {
    s.(txs := s.txs[t := tx])
  }

  /** The request takes its place in the serial order, and the transaction ends with this answer, or lapsed. */
  function End(s: System, t: nat, table: Table, outcome: Outcome): System
    requires t in s.txs
  {
    var tx := s.txs[t].(pc := Done, row := None, version := None, place := Some(|s.serial|),
                         outcome := if s.txs[t].lapsed then Err(Internal) else outcome);
    Put(s, t, tx).(table := table, serial := s.serial + [tx.edit], answers := s.answers + [Apply(s.table, tx.edit).1])
  }

  predicate CanExec(s: System, t: nat) {
    InFlight(s, t) &&
    var tx := s.txs[t];
    var id := Target(tx.edit);
    if tx.pc == Wrote || Drafting(tx) then true
    else if Checking(tx) then Clashes(s, t, id, ColumnOf(tx), Wanted(tx)) || !Blocked(s, t)
    else id in s.table ==> !RowLocked(s, id, t)
  }

  /** The transaction with its new version in place. */
  function Versions(tx: Tx, p: Product): Tx {
    tx.(pc := Versioned, version := Some(p.(id := Target(tx.edit), updatedAt := tx.edit.now)))
  }

  function Execute(s: System, t: nat): System
    requires CanExec(s, t)
  {
    var tx := s.txs[t];
    var id := Target(tx.edit);
    if tx.pc == Wrote then
      // COMMIT
      if tx.version.Some? then End(s, t, s.table[id := tx.version.value], Ok(Saved(tx.version.value)))
      else End(s, t, s.table - {id}, Ok(Deleted))
    else if Drafting(tx) then
      var p := Draft(tx).value;
      if !ValidProduct(p) then End(s, t, s.table, Err(Invalid)) else Put(s, t, Versions(tx, p))
    else if Checking(tx) then
      if Clashes(s, t, id, ColumnOf(tx), Wanted(tx)) then End(s, t, s.table, Err(Conflict))
      else Put(s, t, tx.(pc := if tx.pc == Versioned then Coded else Wrote))
    else if id !in s.table then End(s, t, s.table, Err(NotFound))
    else if tx.edit.op.Delete? then Put(s, t, tx.(pc := Wrote))
    else Put(s, t, tx.(pc := Fetched, row := Some(s.table[id])))
  }

  predicate Can(s: System, a: Action) {
    match a
    case Begin(t, edit) => t !in s.txs && (edit.op.Create? ==> edit.newId !in s.used)
    case Exec(t) => CanExec(s, t)
    case Fail(t) => InFlight(s, t)
    case Lapse(t) => InFlight(s, t) && s.txs[t].pc == Wrote
  }

  function Do(s: System, a: Action): System
    requires Can(s, a)
  {
    match a
    case Begin(t, edit) =>
      Put(s, t, Tx(edit, Start, None, None, Err(Internal), None, |s.serial|, false))
        .(used := if edit.op.Create? then s.used + {edit.newId} else s.used)
    case Exec(t) => Execute(s, t)
    case Fail(t) => Put(s, t, s.txs[t].(pc := Done, row := None, version := None, outcome := Err(Internal)))
    case Lapse(t) => Put(s, t, s.txs[t].(lapsed := true))
  }

  /** Where a run of actions leads; None if some action could not happen when its turn came. */
  function Run(table: Table, actions: seq<Action>): Option<System> {
    if actions == [] then Some(System(table, table.Keys, map[], [], []))
    else
      var before := Run(table, actions[..|actions| - 1]);
      if before.Some? && Can(before.value, actions[|actions| - 1])
      then Some(Do(before.value, actions[|actions| - 1])) else None
  }

  // ---- Invariant ----

  ghost predicate Serial(table0: Table, s: System) {
    && |s.answers| == |s.serial| && s.table == After(table0, s.serial)
    && forall i :: 0 <= i < |s.serial| ==> s.answers[i] == Answer(table0, s.serial, i)
  }

  /** The new version is the draft, it passes Validate, and the keys it has entered are no other row's. */
  ghost predicate Entered(table: Table, tx: Tx) {
    var id := Target(tx.edit);
    && (tx.edit.op.Create? <==> id !in table)
    && (tx.edit.op.Patch? ==> tx.row == Some(table[id]))
    && Draft(tx).Some? && ValidProduct(Draft(tx).value)
    && tx.version == Some(Draft(tx).value.(id := id, updatedAt := tx.edit.now))
    && (Claims(tx, ByCode) ==> !TakenIn(table, id, ByCode, tx.version.value.productCode))
    && (Claims(tx, BySlug) ==> !TakenIn(table, id, BySlug, tx.version.value.slug))
  }

  /** What an open transaction has read is still there, and what it has written may still be committed. */
  ghost predicate Pending(table: Table, tx: Tx) {
    var id := Target(tx.edit);
    match tx.pc
    case Start | Done => tx.row == None && tx.version == None
    case Fetched => tx.edit.op.Patch? && id in table && tx.row == Some(table[id]) && tx.version == None
    case _ =>
      if tx.edit.op.Delete? then tx.pc == Wrote && id in table && tx.version == None else Entered(table, tx)
  }

  /** Two open transactions hold different rows, have entered different keys, and draw different ids. */
  ghost predicate Apart(tx: Tx, other: Tx) {
    && (Holds(tx) && Holds(other) ==> Target(tx.edit) != Target(other.edit))
    && (forall column :: Claims(tx, column) && Claims(other, column)
          ==> KeyIn(tx.version.value, column) != KeyIn(other.version.value, column))
    && (tx.edit.op.Create? && other.edit.op.Create? ==> tx.edit.newId != other.edit.newId)
  }

  ghost predicate Exclusive(s: System) {
    forall t, u :: t in s.txs && u in s.txs && t != u ==> Apart(s.txs[t], s.txs[u])
  }

  /** Ids given to inserts are new. */
  ghost predicate FreshIds(s: System) {
    && s.table.Keys <= s.used
    && forall t :: t in s.txs && s.txs[t].edit.op.Create? ==>
         s.txs[t].edit.newId in s.used && (s.txs[t].pc != Done ==> s.txs[t].edit.newId !in s.table)
  }

  ghost predicate Placed(s: System, tx: Tx) {
    && tx.begun <= |s.serial| == |s.answers|
    && (tx.place.Some? ==> tx.pc == Done && tx.begun <= tx.place.value < |s.serial|
                           && s.serial[tx.place.value] == tx.edit
                           && (if tx.lapsed then s.answers[tx.place.value].Ok?
                               else s.answers[tx.place.value] == tx.outcome))
    && (tx.lapsed ==> tx.pc == Wrote || (tx.pc == Done && tx.outcome == Err(Internal)))
    && (tx.pc == Done && tx.place == None ==> tx.outcome == Err(Internal))
  }

  ghost predicate Occupied(s: System, i: nat) {
    exists t :: t in s.txs && s.txs[t].place == Some(i)
  }

  ghost predicate Owned(s: System) {
    && (forall i :: 0 <= i < |s.serial| ==> Occupied(s, i))
    && (forall t, u :: t in s.txs && u in s.txs && t != u && s.txs[t].place.Some? ==> s.txs[t].place != s.txs[u].place)
  }

  ghost predicate Inv(table0: Table, s: System) {
    && Serial(table0, s) && Tidy(s.table) && Exclusive(s) && FreshIds(s) && Owned(s)
    && forall t :: t in s.txs ==> Pending(s.table, s.txs[t]) && Placed(s, s.txs[t])
  }

  lemma Standing(table0: Table, s: System, t: nat)
    requires Inv(table0, s) && t in s.txs
    ensures Pending(s.table, s.txs[t]) && Placed(s, s.txs[t]) && Tidy(s.table) && Exclusive(s) && FreshIds(s)
  {
  }

  // ---- Steps that leave the table and the serial order alone ----

  lemma PutKeepsOwned(s: System, s': System, t: nat)
    requires Owned(s) && s'.serial == s.serial && t in s'.txs && s'.txs == s.txs[t := s'.txs[t]]
    requires s'.txs[t].place == if t in s.txs then s.txs[t].place else None
    ensures Owned(s')
  {
    forall i | 0 <= i < |s.serial| ensures Occupied(s', i) {
      assert Occupied(s, i);
      var u :| u in s.txs && s.txs[u].place == Some(i);
      assert u in s'.txs && s'.txs[u].place == Some(i);
    }
  }

  lemma PutKeepsExclusive(s: System, s': System, t: nat)
    requires Exclusive(s) && t in s'.txs && s'.txs == s.txs[t := s'.txs[t]]
    requires forall u :: u in s.txs && u != t ==> Apart(s'.txs[t], s.txs[u])
    ensures Exclusive(s')
  {
  }

  lemma LocalStep(table0: Table, s: System, t: nat, tx: Tx)
    requires Inv(table0, s) && t in s.txs && tx.place == s.txs[t].place && tx.edit == s.txs[t].edit
    requires s.txs[t].pc != Done
    requires Pending(s.table, tx) && Placed(s, tx) && forall u :: u in s.txs && u != t ==> Apart(tx, s.txs[u])
    ensures Inv(table0, Put(s, t, tx))
  {
    hide Pending, Tidy, Apart;
    var s' := Put(s, t, tx);
    PutKeepsOwned(s, s', t);
    PutKeepsExclusive(s, s', t);
    hide Owned, Exclusive;
    forall u | u in s'.txs ensures Placed(s', s'.txs[u]) {
      assert Placed(s, s'.txs[u]);
    }
  }

  lemma BeginStep(table0: Table, s: System, t: nat, edit: Edit)
    requires Inv(table0, s) && Can(s, Begin(t, edit))
    ensures Inv(table0, Do(s, Begin(t, edit)))
  {
    hide Tidy;
    var s' := Do(s, Begin(t, edit));
    PutKeepsOwned(s, s', t);
    PutKeepsExclusive(s, s', t);
    hide Owned, Exclusive, Apart;
    forall u | u in s'.txs && u != t ensures Placed(s', s'.txs[u]) {
      assert Placed(s, s.txs[u]);
    }
  }

  lemma FailStep(table0: Table, s: System, t: nat)
    requires Inv(table0, s) && InFlight(s, t)
    ensures Inv(table0, Do(s, Fail(t)))
  {
    var tx := Do(s, Fail(t)).txs[t];
    forall u | u in s.txs && u != t ensures Apart(tx, s.txs[u]) {
      assert Apart(s.txs[t], s.txs[u]);
    }
    LocalStep(table0, s, t, tx);
  }

  lemma LapseStep(table0: Table, s: System, t: nat)
    requires Inv(table0, s) && InFlight(s, t) && s.txs[t].pc == Wrote
    ensures Inv(table0, Do(s, Lapse(t)))
  {
    hide Inv, Pending, Apart, Tidy;
    var tx := s.txs[t].(lapsed := true);
    Standing(table0, s, t);
    LapsedIsPending(s.table, s.txs[t]);
    forall u | u in s.txs && u != t ensures Apart(tx, s.txs[u]) {
      LapsedIsApart(s.txs[t], s.txs[u]);
    }
    LocalStep(table0, s, t, tx);
  }

  lemma LapsedIsPending(table: Table, tx: Tx)
    requires Pending(table, tx)
    ensures Pending(table, tx.(lapsed := true))
  {
    hide TakenIn, ValidProduct;
    assert Draft(tx.(lapsed := true)) == Draft(tx);
  }

  lemma LapsedIsApart(tx: Tx, other: Tx)
    requires Apart(tx, other)
    ensures Apart(tx.(lapsed := true), other)
  {
  }

  /** A statement of an open transaction that enters no key. */
  lemma QuietStep(table0: Table, s: System, t: nat, tx: Tx)
    requires Inv(table0, s) && InFlight(s, t) && tx.edit == s.txs[t].edit && tx.place == s.txs[t].place
             && tx.begun == s.txs[t].begun && !tx.lapsed
    requires tx.pc != Done && Pending(s.table, tx) && (forall column :: !Claims(tx, column))
    requires Holds(s.txs[t]) || tx.edit.op.Create? || !RowLocked(s, Target(tx.edit), t)
    ensures Inv(table0, Put(s, t, tx))
  {
    hide Tidy;
    forall u | u in s.txs && u != t ensures Apart(tx, s.txs[u]) {
      assert Apart(s.txs[t], s.txs[u]);
      if tx.edit.op.Create? {
        NotTwoRows(table0, s, t, u);
      }
    }
    LocalStep(table0, s, t, tx);
  }

  /** A new id is nobody's row. */
  lemma NotTwoRows(table0: Table, s: System, t: nat, u: nat)
    requires Inv(table0, s) && InFlight(s, t) && u in s.txs && u != t && s.txs[t].edit.op.Create?
    ensures Holds(s.txs[u]) ==> Target(s.txs[u].edit) != s.txs[t].edit.newId
  {
  }

  /** Locking the row. */
  lemma LockStep(table0: Table, s: System, t: nat)
    requires Inv(table0, s) && CanExec(s, t) && s.txs[t].pc == Start
    requires !s.txs[t].edit.op.Create? && Target(s.txs[t].edit) in s.table
    ensures Inv(table0, Execute(s, t))
  {
    Standing(table0, s, t);
    var tx := Execute(s, t).txs[t];
    assert Execute(s, t) == Put(s, t, tx) && forall column :: !Claims(tx, column);
    hide Inv, Tidy;
    QuietStep(table0, s, t, tx);
  }

  /** Putting the new version in place. */
  lemma VersionStep(table0: Table, s: System, t: nat)
    requires Inv(table0, s) && CanExec(s, t) && Drafting(s.txs[t]) && ValidProduct(Draft(s.txs[t]).value)
    ensures Inv(table0, Execute(s, t))
  {
    hide Inv, Tidy, ValidProduct, TakenIn, Exclusive;
    Standing(table0, s, t);
    var tx := Versions(s.txs[t], Draft(s.txs[t]).value);
    assert Execute(s, t) == Put(s, t, tx) && Draft(tx) == Draft(s.txs[t]);
    assert Entered(s.table, tx) && forall column :: !Claims(tx, column);
    QuietStep(table0, s, t, tx);
  }

  /** The unique index lets the key through: no row has it, and no open transaction has entered it. */
  lemma KeyIsFree(s: System, t: nat)
    requires InFlight(s, t) && Checking(s.txs[t]) && !Blocked(s, t)
    requires var tx := s.txs[t]; !Clashes(s, t, Target(tx.edit), ColumnOf(tx), Wanted(tx))
    ensures var tx := s.txs[t]; !TakenIn(s.table, Target(tx.edit), ColumnOf(tx), Wanted(tx))
    ensures var tx := s.txs[t];
            forall u :: u in s.txs && u != t && Claims(s.txs[u], ColumnOf(tx))
              ==> KeyIn(s.txs[u].version.value, ColumnOf(tx)) != Wanted(tx)
  {
    var tx := s.txs[t];
    forall u | u in s.txs && u != t ensures !InDoubt(s.table, s.txs[u], ColumnOf(tx), Wanted(tx)) {
      assert !Waits(s, t, u);
    }
  }

  /** Entering a key. */
  lemma EnterStep(table0: Table, s: System, t: nat)
    requires Inv(table0, s) && CanExec(s, t) && Checking(s.txs[t])
    requires var tx := s.txs[t]; !Clashes(s, t, Target(tx.edit), ColumnOf(tx), Wanted(tx))
    ensures Inv(table0, Execute(s, t))
  {
    hide Inv, Clashes, Tidy, ValidProduct, TakenIn, InDoubt, Waits;
    Standing(table0, s, t);
    KeyIsFree(s, t);
    var tx := s.txs[t].(pc := if s.txs[t].pc == Versioned then Coded else Wrote);
    assert Execute(s, t) == Put(s, t, tx) && Draft(tx) == Draft(s.txs[t]);
    forall u | u in s.txs && u != t ensures Apart(tx, s.txs[u]) {
      Standing(table0, s, u);
      assert Apart(s.txs[t], s.txs[u]);
    }
    LocalStep(table0, s, t, tx);
  }

  // ---- Steps that end a request ----

  lemma EndKeepsSerial(table0: Table, s: System, t: nat, outcome: Outcome)
    requires Serial(table0, s) && t in s.txs
    ensures Serial(table0, End(s, t, Apply(s.table, s.txs[t].edit).0, outcome))
  {
    var edit := s.txs[t].edit;
    var serial := s.serial + [edit];
    assert serial[..|serial| - 1] == s.serial;
    forall i | 0 <= i < |serial| ensures (s.answers + [Apply(s.table, edit).1])[i] == Answer(table0, serial, i) {
      assert i < |s.serial| ==> serial[..i] == s.serial[..i];
    }
  }

  lemma EndKeepsOwned(s: System, s': System, t: nat)
    requires Owned(s) && t in s.txs && s.txs[t].place == None && |s'.serial| == |s.serial| + 1
    requires forall u :: u in s.txs && s.txs[u].place.Some? ==> s.txs[u].place.value < |s.serial|
    requires t in s'.txs && s'.txs == s.txs[t := s'.txs[t]] && s'.txs[t].place == Some(|s.serial|)
    ensures Owned(s')
  {
    forall i | 0 <= i < |s'.serial| ensures Occupied(s', i) {
      if i == |s.serial| {
        assert s'.txs[t].place == Some(i);
      } else {
        assert Occupied(s, i);
        var u :| u in s.txs && s.txs[u].place == Some(i);
        assert s'.txs[u].place == Some(i);
      }
    }
  }

  lemma EndKeepsPlaced(s: System, t: nat, table: Table, outcome: Outcome, u: nat)
    requires t in s.txs && u in s.txs && Placed(s, s.txs[u]) && Placed(s, s.txs[t])
             && outcome == Apply(s.table, s.txs[t].edit).1 && (s.txs[t].lapsed ==> outcome.Ok?)
    ensures var s' := End(s, t, table, outcome); Placed(s', s'.txs[u])
  {
  }

  /** The request's answer and the new table are what it does alone, now; the others' rows and keys are not touched. */
  lemma EndStep(table0: Table, s: System, t: nat, table: Table, outcome: Outcome)
    requires Inv(table0, s) && InFlight(s, t) && Apply(s.table, s.txs[t].edit) == (table, outcome)
             && (s.txs[t].pc == Wrote ==> outcome.Ok?)
    requires forall u :: u in s.txs && u != t ==> Pending(table, s.txs[u])
    requires table.Keys <= s.used
    requires forall u :: u in s.txs && u != t && s.txs[u].edit.op.Create? && s.txs[u].pc != Done
               ==> s.txs[u].edit.newId !in table
    ensures Inv(table0, End(s, t, table, outcome))
  {
    hide Apply, Pending, Tidy;
    var s' := End(s, t, table, outcome);
    EndKeepsSerial(table0, s, t, outcome);
    ApplyKeepsTidy(s.table, s.txs[t].edit);
    EndKeepsOwned(s, s', t);
    forall u | u in s.txs && u != t ensures Apart(s'.txs[t], s.txs[u]) {
      assert Apart(s.txs[t], s.txs[u]);
    }
    PutKeepsExclusive(s, s', t);
    EndedIsPending(table, s'.txs[t]);
    hide Serial, Owned, Exclusive;
    forall u | u in s'.txs ensures Placed(s', s'.txs[u]) && Pending(table, s'.txs[u]) {
      EndKeepsPlaced(s, t, table, outcome, u);
    }
  }

  lemma EndedIsPending(table: Table, tx: Tx)
    requires tx.pc == Done && tx.row == None && tx.version == None
    ensures Pending(table, tx)
  {
  }

  lemma RefuseStep(table0: Table, s: System, t: nat, e: Error)
    requires Inv(table0, s) && InFlight(s, t) && Apply(s.table, s.txs[t].edit) == (s.table, Err(e))
             && s.txs[t].pc != Wrote
    ensures Inv(table0, End(s, t, s.table, Err(e)))
  {
    hide Apply, Tidy, Pending;
    Standing(table0, s, t);
    EndStep(table0, s, t, s.table, Err(e));
  }

  /** The table with a transaction's write made visible. */
  function Committed(table: Table, tx: Tx): Table {
    if tx.version.Some? then table[Target(tx.edit) := tx.version.value] else table - {Target(tx.edit)}
  }

  function CommitAnswer(tx: Tx): Outcome {
    if tx.version.Some? then Ok(Saved(tx.version.value)) else Ok(Deleted)
  }

  lemma CommitIsApply(table: Table, tx: Tx)
    requires Pending(table, tx) && tx.pc == Wrote
    ensures Apply(table, tx.edit) == (Committed(table, tx), CommitAnswer(tx))
  {
  }

  /** A commit leaves the rows that others hold, and takes no key that another is writing. */
  lemma CommitKeepsPending(table: Table, tx: Tx, other: Tx)
    requires Pending(table, tx) && tx.pc == Wrote && Pending(table, other) && Apart(tx, other)
    ensures Pending(Committed(table, tx), other)
  {
  }

  lemma CommitStep(table0: Table, s: System, t: nat)
    requires Inv(table0, s) && InFlight(s, t) && s.txs[t].pc == Wrote
    ensures Inv(table0, End(s, t, Committed(s.table, s.txs[t]), CommitAnswer(s.txs[t])))
  {
    hide Apply, Tidy, Pending;
    Standing(table0, s, t);
    var tx := s.txs[t];
    CommitIsApply(s.table, tx);
    forall u | u in s.txs && u != t
      ensures Pending(Committed(s.table, tx), s.txs[u])
      ensures s.txs[u].edit.op.Create? && s.txs[u].pc != Done ==> s.txs[u].edit.newId !in Committed(s.table, tx)
    {
      assert Apart(tx, s.txs[u]);
      CommitKeepsPending(s.table, tx, s.txs[u]);
      TargetKnown(s.table, tx);
    }
    TargetKnown(s.table, tx);
    EndStep(table0, s, t, Committed(s.table, tx), CommitAnswer(tx));
  }

  lemma TargetKnown(table: Table, tx: Tx)
    requires Pending(table, tx) && tx.pc == Wrote
    ensures tx.edit.op.Create? || Target(tx.edit) in table
  {
  }

  lemma ExecKeepsInv(table0: Table, s: System, t: nat)
    requires Inv(table0, s) && CanExec(s, t)
    ensures Inv(table0, Execute(s, t))
  {
    hide Inv, Pending, Tidy, Placed, Exclusive, FreshIds, Apply, Clashes, Waits, RowLocked;
    Standing(table0, s, t);
    var tx := s.txs[t];
    var id := Target(tx.edit);
    Stages(s.table, tx);
    if tx.pc == Wrote {
      CommitStep(table0, s, t);
    } else if Drafting(tx) {
      if !ValidProduct(Draft(tx).value) {
        DraftRefused(s.table, tx);
        RefuseStep(table0, s, t, Invalid);
      } else {
        VersionStep(table0, s, t);
      }
    } else if Checking(tx) {
      if Clashes(s, t, id, ColumnOf(tx), Wanted(tx)) {
        KeyRefused(s, t);
        RefuseStep(table0, s, t, Conflict);
      } else {
        EnterStep(table0, s, t);
      }
    } else if id !in s.table {
      AbsentRefused(s.table, tx.edit);
      RefuseStep(table0, s, t, NotFound);
    } else {
      LockStep(table0, s, t);
    }
  }

  lemma Stages(table: Table, tx: Tx)
    requires Pending(table, tx) && tx.pc != Done
    ensures tx.pc == Wrote || Drafting(tx) || Checking(tx) || (tx.pc == Start && !tx.edit.op.Create?)
  {
  }

  lemma AbsentRefused(table: Table, edit: Edit)
    requires !edit.op.Create? && Target(edit) !in table
    ensures Apply(table, edit) == (table, Err(NotFound))
  {
  }

  lemma DraftRefused(table: Table, tx: Tx)
    requires Drafting(tx) && Pending(table, tx) && !ValidProduct(Draft(tx).value)
    ensures Apply(table, tx.edit) == (table, Err(Invalid))
  {
  }

  lemma KeyRefused(s: System, t: nat)
    requires InFlight(s, t) && Checking(s.txs[t]) && Pending(s.table, s.txs[t])
    requires var tx := s.txs[t]; Clashes(s, t, Target(tx.edit), ColumnOf(tx), Wanted(tx))
    ensures Apply(s.table, s.txs[t].edit) == (s.table, Err(Conflict))
  {
    var tx := s.txs[t];
    var other :| other in s.table && other != Target(tx.edit) && KeyIn(s.table[other], ColumnOf(tx)) == Wanted(tx);
    assert SameKey(s.table[other], Draft(tx).value);
  }

  lemma StepKeepsInv(table0: Table, s: System, a: Action)
    requires Inv(table0, s) && Can(s, a)
    ensures Inv(table0, Do(s, a))
  {
    hide Inv, CanExec, Execute;
    match a {
      case Begin(t, edit) => BeginStep(table0, s, t, edit);
      case Exec(t) => ExecKeepsInv(table0, s, t);
      case Fail(t) => FailStep(table0, s, t);
      case Lapse(t) => LapseStep(table0, s, t);
    }
  }

  // ---- Every run ----

  lemma {:induction false} RunKeepsInv(table: Table, actions: seq<Action>)
    requires Tidy(table) && Run(table, actions).Some?
    ensures Inv(table, Run(table, actions).value)
  {
    hide Pending, Placed, Can, Do, Tidy;
    if actions == [] {
      assert After(table, []) == table;
    } else {
      var before := actions[..|actions| - 1];
      RunKeepsInv(table, before);
      StepKeepsInv(table, Run(table, before).value, actions[|actions| - 1]);
    }
  }

  /** i is the moment request t took effect in the serial order. */
  ghost predicate TookEffect(s: System, t: nat, i: nat) {
    t in s.txs && i < |s.serial| && s.txs[t].begun <= i && s.serial[i] == s.txs[t].edit && s.txs[t].place == Some(i)
  }

  /**
   * However statements interleave, the rows are those of running the edits of
   * s.serial one at a time, in the order in which they were settled; every
   * finished request that no fault struck has one place of its own there, no
   * earlier than its arrival, and is answered as it is answered there.
   */
  lemma EveryRunIsSerial(table: Table, actions: seq<Action>, t: nat)
    requires Tidy(table) && Run(table, actions).Some?
    requires t in Run(table, actions).value.txs && Run(table, actions).value.txs[t].pc == Done
    ensures var s := Run(table, actions).value;
            && s.table == After(table, s.serial)
            && (s.txs[t].outcome == Err(Internal)
                || exists i: nat :: TookEffect(s, t, i) && s.txs[t].outcome == Answer(table, s.serial, i))
  {
    var s := Run(table, actions).value;
    RunKeepsInv(table, actions);
    Standing(table, s, t);
    if s.txs[t].place.Some? {
      assert TookEffect(s, t, s.txs[t].place.value);
    }
  }

  /**
   * Edit i changed nothing, or it belongs to a caller who was told that its COMMIT
   * failed and did all that it does alone.
   */
  ghost predicate AllOrNothing(table: Table, s: System, t: nat, i: nat)
    requires t in s.txs && i < |s.serial|
  {
    if s.txs[t].lapsed then s.txs[t].outcome == Err(Internal) && Answer(table, s.serial, i).Ok?
    else After(table, s.serial[..i + 1]) == After(table, s.serial[..i])
  }

  /**
   * An edit answered with an error has changed nothing, and one told that its COMMIT
   * failed has, once that COMMIT is over, changed nothing or done all of the edit.
   */
  lemma ErrorIsAllOrNothing(table: Table, actions: seq<Action>, t: nat)
    requires Tidy(table) && Run(table, actions).Some?
    requires var s := Run(table, actions).value; t in s.txs && s.txs[t].pc == Done && s.txs[t].outcome.Err?
    ensures var s := Run(table, actions).value;
            || (forall i: nat :: !TookEffect(s, t, i))
            || (exists i: nat :: TookEffect(s, t, i) && AllOrNothing(table, s, t, i))
  {
    RunKeepsInv(table, actions);
    hide Run;
    var s := Run(table, actions).value;
    Standing(table, s, t);
    if s.txs[t].place.Some? {
      PlaceIsAllOrNothing(table, s, t);
      assert TookEffect(s, t, s.txs[t].place.value);
    }
  }

  lemma PlaceIsAllOrNothing(table0: Table, s: System, t: nat)
    requires Inv(table0, s) && t in s.txs && s.txs[t].place.Some? && s.txs[t].outcome.Err?
    ensures s.txs[t].place.value < |s.serial| && AllOrNothing(table0, s, t, s.txs[t].place.value)
  {
    hide Pending, Exclusive, FreshIds, Tidy, Owned, Apply;
    Standing(table0, s, t);
    if !s.txs[t].lapsed {
      FailureChangesNothing(table0, s.serial, s.txs[t].place.value);
    }
  }

  /** Distinct requests take effect at distinct moments, and nothing else is in the serial order. */
  lemma SerialOrderIsTheRequests(table: Table, actions: seq<Action>, i: nat, t: nat, u: nat)
    requires Tidy(table) && Run(table, actions).Some? && i < |Run(table, actions).value.serial|
    ensures var s := Run(table, actions).value;
            && (exists v :: TookEffect(s, v, i))
            && (TookEffect(s, t, i) && TookEffect(s, u, i) ==> t == u)
  {
    var s := Run(table, actions).value;
    RunKeepsInv(table, actions);
    assert Occupied(s, i);
    var v :| v in s.txs && s.txs[v].place == Some(i);
    Standing(table, s, v);
    assert TookEffect(s, v, i);
  }

  /** At every moment every committed row passes Validate, and no two share a product code or a slug. */
  lemma RowsStayTidy(table: Table, actions: seq<Action>)
    requires Tidy(table) && Run(table, actions).Some?
    ensures Tidy(Run(table, actions).value.table)
  {
    RunKeepsInv(table, actions);
  }

  /**
   * Concurrent patches of a product lose nothing: each field of its row was
   * written by the last committed patch that asked for it, and what no PATCH names
   * is as it was.
   */
  lemma ConcurrentPatchesLoseNothing(table: Table, actions: seq<Action>, id: Int64, f: Field)
    requires Tidy(table) && Run(table, actions).Some? && id in table
    requires forall a :: a in actions && a.Begin? ==> Spares(a.edit, id)
    ensures var s := Run(table, actions).value;
            && id in s.table && LastWritten(table, s.serial, id, f, Get(s.table[id], f))
            && SameUnpatched(s.table[id], table[id])
  {
    var s := Run(table, actions).value;
    RunKeepsInv(table, actions);
    RunSpares(table, actions, id);
    forall i | 0 <= i < |s.serial| ensures Spares(s.serial[i], id) {
      SerialOrderIsTheRequests(table, actions, i, 0, 0);
      var v :| TookEffect(s, v, i);
    }
    NoUpdateIsLost(table, s.serial, id, f);
    UnpatchedColumnsStay(table, s.serial, id);
  }

  lemma {:induction false} RunSpares(table: Table, actions: seq<Action>, id: Int64)
    requires Run(table, actions).Some? && forall a :: a in actions && a.Begin? ==> Spares(a.edit, id)
    ensures var s := Run(table, actions).value; forall t :: t in s.txs ==> Spares(s.txs[t].edit, id)
  {
    hide Can, Do, Spares;
    if actions != [] {
      var before, last := actions[..|actions| - 1], actions[|actions| - 1];
      RunSpares(table, before, id);
      assert last in actions;
      StepKeepsEdits(Run(table, before).value, last);
    }
  }

  /** What any statement does to the rest of the system: nothing, but for the serial order and its own row. */
  lemma ExecShape(s: System, t: nat)
    requires CanExec(s, t)
    ensures var s' := Execute(s, t);
            && t in s.txs && t in s'.txs && s'.txs == s.txs[t := s'.txs[t]] && s'.used == s.used
            && s'.txs[t].edit == s.txs[t].edit && s'.txs[t].begun == s.txs[t].begun
            && (s'.serial == s.serial || s'.serial == s.serial + [s.txs[t].edit])
            && (s'.table == s.table || Holds(s.txs[t]))
            && forall id :: id != Target(s.txs[t].edit) ==>
                 (id in s'.table <==> id in s.table) && (id in s.table ==> s'.table[id] == s.table[id])
  {
    hide Apply, Clashes, Waits, Merge, ValidProduct;
  }

  lemma StepKeepsEdits(s: System, a: Action)
    requires Can(s, a)
    ensures forall t :: t in Do(s, a).txs ==>
              (t in s.txs && Do(s, a).txs[t].edit == s.txs[t].edit) || a == Begin(t, Do(s, a).txs[t].edit)
  {
    hide CanExec, Execute;
    match a {
      case Exec(t) => ExecShape(s, t);
      case _ =>
    }
  }

  lemma RunOne(table: Table, actions: seq<Action>, a: Action)
    requires Run(table, actions).Some? && Can(Run(table, actions).value, a)
    ensures Run(table, actions + [a]) == Some(Do(Run(table, actions).value, a))
  {
    assert (actions + [a])[..|actions + [a]| - 1] == actions;
  }
}
