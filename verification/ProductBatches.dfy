/**
 * Which batches of product edits can deadlock, decided by running their edits one
 * at a time; and that the others can always be brought to their end.
 */
module ProductBatches {
  import opened Wrappers
  import opened Timestamps
  import opened Cursor
  import opened CatalogDomain
  import opened Products
  import opened ProductEdits
  import opened ProductDeadlock
  import opened Circles
  import opened Sums

  // ---- Edits that run alone ----

  function Rank(pc: Pc): nat {
    match pc
    case Start => 0
    case Fetched => 1
    case Versioned => 2
    case Coded => 3
    case Wrote => 4
    case Done => 5
  }

  /** Every statement brings its transaction closer to its end, where the edit takes its place in the serial order. */
  lemma ExecAdvances(s: System, t: nat)
    requires CanExec(s, t) && Pending(s.table, s.txs[t])
    ensures var tx, s' := s.txs[t], Execute(s, t);
            && t in s'.txs && Rank(s'.txs[t].pc) > Rank(tx.pc)
            && s'.serial == if s'.txs[t].pc == Done then s.serial + [tx.edit] else s.serial
  {
    hide Clashes, Waits, Apply, Merge, ValidProduct, RowLocked;
    Stages(s.table, s.txs[t]);
  }

  /** Nothing is under way, and new transactions are numbered from n. */
  ghost predicate Quiet(s: System, n: nat) {
    s.table.Keys <= s.used && forall t :: t in s.txs ==> t < n && s.txs[t].pc == Done
  }

  ghost predicate Alone(s: System, t: nat) {
    t in s.txs && forall u :: u in s.txs && u != t ==> s.txs[u].pc == Done
  }

  lemma AloneCanExec(table0: Table, s: System, t: nat)
    requires Inv(table0, s) && Alone(s, t) && InFlight(s, t)
    ensures CanExec(s, t)
  {
    hide Inv;
    if !CanExec(s, t) {
      BlockerWaits(table0, s, t);
    }
  }

  lemma StepsAlone(table: Table, actions: seq<Action>, t: nat) returns (s1: System)
    requires Tidy(table) && Run(table, actions).Some?
    requires Alone(Run(table, actions).value, t) && InFlight(Run(table, actions).value, t)
    ensures Run(table, actions + [Exec(t)]) == Some(s1)
    ensures var s := Run(table, actions).value;
            && s1.txs.Keys == s.txs.Keys && Alone(s1, t) && s1.txs[t].edit == s.txs[t].edit && s1.used == s.used
            && Rank(s1.txs[t].pc) > Rank(s.txs[t].pc)
            && s1.serial == if s1.txs[t].pc == Done then s.serial + [s.txs[t].edit] else s.serial
  {
    hide Run, Inv, CanExec, Execute, Tidy;
    var s := Run(table, actions).value;
    RunKeepsInv(table, actions);
    Standing(table, s, t);
    AloneCanExec(table, s, t);
    ExecAdvances(s, t);
    ExecShape(s, t);
    ExecIsAction(table, actions, t);
    s1 := Execute(s, t);
  }

  /** With nobody else under way, an edit is settled by its own statements. */
  lemma {:induction false} RunsAlone(table: Table, actions: seq<Action>, t: nat) returns (more: seq<Action>)
    requires Tidy(table) && Run(table, actions).Some?
    requires Alone(Run(table, actions).value, t) && InFlight(Run(table, actions).value, t)
    ensures (forall a :: a in more ==> a.Exec?) && Run(table, actions + more).Some?
    ensures var s, s' := Run(table, actions).value, Run(table, actions + more).value;
            && s'.serial == s.serial + [s.txs[t].edit] && s'.used == s.used && s'.txs.Keys == s.txs.Keys
            && Alone(s', t) && s'.txs[t].pc == Done
    decreases 5 - Rank(Run(table, actions).value.txs[t].pc)
  {
    hide Run, Tidy;
    var s1 := StepsAlone(table, actions, t);
    more := [Exec(t)];
    if s1.txs[t].pc != Done {
      var rest := RunsAlone(table, actions + [Exec(t)], t);
      more := [Exec(t)] + rest;
      assert actions + more == actions + [Exec(t)] + rest;
    }
  }

  lemma ExecIsAction(table: Table, actions: seq<Action>, t: nat)
    requires Run(table, actions).Some? && CanExec(Run(table, actions).value, t)
    ensures Run(table, actions + [Exec(t)]) == Some(Execute(Run(table, actions).value, t))
  {
    hide Run, CanExec, Execute;
    RunOne(table, actions, Exec(t));
  }

  ghost predicate BeginsOnly(actions: seq<Action>, batch: set<Edit>) {
    forall a :: a in actions && a.Begin? ==> a.edit in batch
  }

  /** No insert draws an id that the table has or that another draws. */
  ghost predicate Fresh(table: Table, edits: seq<Edit>) {
    && (forall i :: 0 <= i < |edits| && edits[i].op.Create? ==> edits[i].newId !in table)
    && (forall i, j :: 0 <= i < j < |edits| && edits[i].op.Create? && edits[j].op.Create?
          ==> edits[i].newId != edits[j].newId)
  }

  /** The ids of the table, and those that these edits have drawn. */
  ghost predicate UsedBy(table: Table, edits: seq<Edit>, used: set<Int64>) {
    forall id :: id in used ==>
      id in table || exists i :: 0 <= i < |edits| && edits[i].op.Create? && edits[i].newId == id
  }

  lemma FreshIsUnused(table: Table, edits: seq<Edit>, e: Edit, used: set<Int64>)
    requires Fresh(table, edits + [e]) && UsedBy(table, edits, used)
    ensures e.op.Create? ==> e.newId !in used
    ensures Fresh(table, edits)
    ensures UsedBy(table, edits + [e], if e.op.Create? then used + {e.newId} else used)
  {
    var all := edits + [e];
    assert all[|edits|] == e;
    forall i | 0 <= i < |edits| ensures edits[i] == all[i] {
    }
  }

  /** One more edit begins and is settled with nothing else under way. */
  lemma RunsNext(table: Table, done: seq<Edit>, e: Edit, before: seq<Action>) returns (actions: seq<Action>)
    requires Tidy(table) && Fresh(table, done + [e]) && Run(table, before).Some?
    requires var s := Run(table, before).value;
             s.serial == done && Quiet(s, |done|) && UsedBy(table, done, s.used)
    ensures forall a :: a in actions ==> a in before || a == Begin(|done|, e) || a.Exec?
    ensures Run(table, actions).Some?
    ensures var s := Run(table, actions).value;
            s.serial == done + [e] && Quiet(s, |done| + 1) && UsedBy(table, done + [e], s.used)
  {
    hide Run, Tidy, Fresh, UsedBy, CanExec;
    var s, n := Run(table, before).value, |done|;
    FreshIsUnused(table, done, e, s.used);
    RunOne(table, before, Begin(n, e));
    var begun := before + [Begin(n, e)];
    var more := RunsAlone(table, begun, n);
    actions := begun + more;
    RunKeepsInv(table, actions);
  }

  /** The edits of done can run one after another. */
  lemma {:induction false} RunsSerially(table: Table, done: seq<Edit>, batch: set<Edit>) returns (actions: seq<Action>)
    requires Tidy(table) && Fresh(table, done) && forall e :: e in done ==> e in batch
    ensures Run(table, actions).Some? && BeginsOnly(actions, batch)
    ensures var s := Run(table, actions).value;
            s.serial == done && Quiet(s, |done|) && UsedBy(table, done, s.used)
  {
    if done == [] {
      actions := [];
    } else {
      var init, last := done[..|done| - 1], done[|done| - 1];
      assert init + [last] == done && last in batch;
      hide Run, Tidy, UsedBy, Quiet;
      var before := RunsSerially(table, init, batch);
      actions := RunsNext(table, init, last, before);
    }
  }

  // ---- Every knot can deadlock ----

  /** The transaction of an edit that has got to its place in a knot, begun when nothing else was under way. */
  function Stood(base: System, l: Link): Tx {
    var id := Target(l.edit);
    var version := match DraftOf(base.table, l.edit)
                   case Some(p) => Some(p.(id := id, updatedAt := l.edit.now))
                   case None => None;
    Begun(base, l.edit).(pc := if l.coded then Coded else Versioned, version := version,
                         row := if l.edit.op.Patch? && id in base.table then Some(base.table[id]) else None)
  }

  function Begun(base: System, e: Edit): Tx {
    Tx(e, Start, None, None, Err(Internal), None, |base.serial|, false)
  }

  ghost function Targets(links: seq<Link>, k: nat): set<Int64>
    requires k <= |links|
  {
    if k == 0 then {} else Targets(links, k - 1) + {Target(links[k - 1].edit)}
  }

  lemma {:induction false} TargetsAre(links: seq<Link>, k: nat, id: Int64)
    requires k <= |links|
    ensures id in Targets(links, k) <==> exists j :: 0 <= j < k && Target(links[j].edit) == id
  {
    if k > 0 {
      TargetsAre(links, k - 1, id);
    }
  }

  /** A knot that can begin here: nothing is under way and the ids of its inserts are new. */
  ghost predicate Startable(base: System, n: nat, links: seq<Link>) {
    && Quiet(base, n) && Knot(base.table, links)
    && forall l: Link :: l in links && l.edit.op.Create? ==> l.edit.newId !in base.used
  }

  /** The first k edits of the knot, as transactions n to n + k - 1, have got to their places. */
  ghost predicate Built(base: System, n: nat, s: System, links: seq<Link>, k: nat)
    requires k <= |links|
  {
    && s.table == base.table && s.serial == base.serial
    && s.used == base.used + Targets(links, k)
    && (forall t: nat :: t in s.txs <==> t in base.txs || n <= t < n + k)
    && (forall t :: t in base.txs ==> t < n && s.txs[t] == base.txs[t])
    && (forall j :: 0 <= j < k ==> s.txs[n + j] == Stood(base, links[j]))
  }

  lemma StoodInDoubt(base: System, l: Link, column: Column, key: string)
    requires Writable(base.table, l)
    ensures InDoubt(base.table, Stood(base, l), column, key) <==> Obstructs(base.table, l, column, key)
    ensures Checking(Stood(base, l)) && Holds(Stood(base, l)) && Stood(base, l).edit == l.edit
    ensures ColumnOf(Stood(base, l)) == LinkColumn(l)
            && Wanted(Stood(base, l)) == KeyOf(base.table, l, LinkColumn(l))
  {
  }

  /** The transaction before it enters its code. */
  function Early(tx: Tx): Tx {
    tx.(pc := Versioned)
  }

  /** The row of a link is nobody else's in the knot; it is a new one of an insert, or one there is. */
  lemma LinkIsNew(base: System, n: nat, links: seq<Link>, k: nat)
    requires Startable(base, n, links) && k < |links|
    ensures Target(links[k].edit) !in Targets(links, k)
    ensures links[k].edit.op.Create? <==> Target(links[k].edit) !in base.used
  {
    assert links[k] in links && Writable(base.table, links[k]);
    TargetsAre(links, k, Target(links[k].edit));
  }

  lemma LinkBegins(base: System, n: nat, s: System, links: seq<Link>, k: nat) returns (s1: System)
    requires Startable(base, n, links) && k < |links| && Built(base, n, s, links, k)
    ensures Can(s, Begin(n + k, links[k].edit)) && s1 == Do(s, Begin(n + k, links[k].edit))
    ensures s1.table == base.table && s1.serial == base.serial && s1.used == base.used + Targets(links, k + 1)
    ensures s1.txs == s.txs[n + k := Begun(base, links[k].edit)]
  {
    hide Startable;
    LinkIsNew(base, n, links, k);
    s1 := Do(s, Begin(n + k, links[k].edit));
  }

  /** A patch locks its row: nobody in the knot holds it. */
  lemma LinkLocks(base: System, n: nat, s: System, links: seq<Link>, k: nat, s1: System) returns (s2: System)
    requires Startable(base, n, links) && k < |links| && Built(base, n, s, links, k) && links[k].edit.op.Patch?
    requires s1.table == base.table && s1.txs == s.txs[n + k := Begun(base, links[k].edit)]
    ensures CanExec(s1, n + k) && s2 == Execute(s1, n + k)
    ensures Target(links[k].edit) in base.table
    ensures s2 == Put(s1, n + k, s1.txs[n + k].(pc := Fetched, row := Some(base.table[Target(links[k].edit)])))
  {
    assert Writable(base.table, links[k]);
    s2 := Put(s1, n + k, s1.txs[n + k].(pc := Fetched, row := Some(base.table[Target(links[k].edit)])));
    forall u | u in s1.txs && u != n + k && Holds(s1.txs[u])
      ensures Target(s1.txs[u].edit) != Target(links[k].edit)
    {
      assert s1.txs[u] == Stood(base, links[u - n]);
    }
  }

  lemma LinkVersions(base: System, l: Link, s2: System, t: nat) returns (s3: System)
    requires Writable(base.table, l) && s2.table == base.table && t in s2.txs
    requires var id := Target(l.edit);
             s2.txs[t] == if l.edit.op.Patch? && id in base.table
                          then Begun(base, l.edit).(pc := Fetched, row := Some(base.table[id]))
                          else Begun(base, l.edit)
    ensures CanExec(s2, t) && s3 == Execute(s2, t) && s3 == Put(s2, t, Early(Stood(base, l)))
  {
    s3 := Execute(s2, t);
  }

  /** Its code is free: no row has it, and nobody in the knot has entered it or patches a row that has it. */
  lemma LinkEnters(base: System, n: nat, s: System, links: seq<Link>, k: nat, s3: System) returns (s4: System)
    requires Startable(base, n, links) && k < |links| && Built(base, n, s, links, k) && links[k].coded
    requires s3.table == base.table && s3.txs == s.txs[n + k := Early(Stood(base, links[k]))]
    ensures CanExec(s3, n + k) && s4 == Execute(s3, n + k) && s4 == Put(s3, n + k, Stood(base, links[k]))
  {
    hide Startable, Built, Stood, InDoubt, KeyOf, Execute, CanExec, Early;
    LinkWritable(base, n, links, k);
    EarlyWants(base, links[k]);
    forall u | u in s3.txs && u != n + k ensures !InDoubt(s3.table, s3.txs[u], ByCode, Wanted(s3.txs[n + k])) {
      NobodyHasIt(base, n, s, links, k, u);
    }
    FreeToEnter(s3, n + k);
    s4 := Execute(s3, n + k);
  }

  /** A code that no row has and nobody else has in doubt is entered. */
  lemma FreeToEnter(s: System, t: nat)
    requires t in s.txs && s.txs[t].pc == Versioned && s.txs[t].version.Some? && !s.txs[t].edit.op.Delete?
    requires !TakenIn(s.table, Target(s.txs[t].edit), ByCode, Wanted(s.txs[t]))
    requires forall u :: u in s.txs && u != t ==> !InDoubt(s.table, s.txs[u], ByCode, Wanted(s.txs[t]))
    ensures CanExec(s, t) && Execute(s, t) == Put(s, t, s.txs[t].(pc := Coded))
  {
    hide InDoubt;
    assert !Blocked(s, t) && !Clashes(s, t, Target(s.txs[t].edit), ByCode, Wanted(s.txs[t]));
  }

  lemma NobodyHasIt(base: System, n: nat, s: System, links: seq<Link>, k: nat, u: nat)
    requires Startable(base, n, links) && k < |links| && Built(base, n, s, links, k) && links[k].coded
    requires u in s.txs
    ensures !InDoubt(base.table, s.txs[u], ByCode, KeyOf(base.table, links[k], ByCode))
  {
    if u in base.txs {
      assert s.txs[u].pc == Done;
    } else {
      LinkFree(base, n, links, k, u - n);
    }
  }

  lemma EarlyWants(base: System, l: Link)
    requires Writable(base.table, l)
    ensures var tx := Early(Stood(base, l));
            && Checking(tx) && tx.pc == Versioned && Wanted(tx) == KeyOf(base.table, l, ByCode)
            && tx.edit == l.edit && !tx.edit.op.Delete?
            && (l.coded ==> !TakenIn(base.table, Target(l.edit), ByCode, Wanted(tx))
                            && tx.(pc := Coded) == Stood(base, l))
  {
  }

  /** In a knot nobody else has entered the code, or patches a row that has it. */
  lemma LinkFree(base: System, n: nat, links: seq<Link>, k: nat, j: nat)
    requires Startable(base, n, links) && k < |links| && links[k].coded && j < |links| && j != k
    ensures !InDoubt(base.table, Stood(base, links[j]), ByCode, KeyOf(base.table, links[k], ByCode))
  {
    assert Writable(base.table, links[j]) && Writable(base.table, links[k]);
    hide InDoubt, Stood;
    StoodInDoubt(base, links[j], ByCode, KeyOf(base.table, links[k], ByCode));
  }

  lemma BuiltOne(base: System, n: nat, s: System, links: seq<Link>, k: nat, s': System)
    requires k < |links| && Built(base, n, s, links, k)
    requires s'.table == base.table && s'.serial == base.serial && s'.used == base.used + Targets(links, k + 1)
    requires s'.txs == s.txs[n + k := Stood(base, links[k])]
    ensures Built(base, n, s', links, k + 1)
  {
    hide Stood, Targets;
  }

  /** The edit begins, locks its row if it has one, and puts its version in place. */
  lemma LinkArrives(table: Table, base: System, n: nat, links: seq<Link>, k: nat, actions: seq<Action>)
    returns (more: seq<Action>)
    requires Startable(base, n, links) && k < |links| && Run(table, actions).Some?
             && Built(base, n, Run(table, actions).value, links, k)
    ensures Writable(base.table, links[k])
    ensures forall a :: a in more ==> a in actions || a == Begin(n + k, links[k].edit) || a == Exec(n + k)
    ensures Run(table, more).Some?
    ensures var s, s' := Run(table, actions).value, Run(table, more).value;
            && s'.table == base.table && s'.serial == base.serial && s'.used == base.used + Targets(links, k + 1)
            && s'.txs == s.txs[n + k := Early(Stood(base, links[k]))]
  {
    hide CanExec, Execute, Run, Knot, Built, Stood, Writable, Early, Begun, Startable;
    LinkWritable(base, n, links, k);
    var s, l, t := Run(table, actions).value, links[k], n + k;
    var s1 := LinkBegins(base, n, s, links, k);
    RunOne(table, actions, Begin(t, l.edit));
    more := actions + [Begin(t, l.edit)];
    var s2 := s1;
    if l.edit.op.Patch? {
      s2 := LinkLocks(base, n, s, links, k, s1);
      RunOne(table, more, Exec(t));
      more := more + [Exec(t)];
    }
    var s3 := LinkVersions(base, l, s2, t);
    RunOne(table, more, Exec(t));
    more := more + [Exec(t)];
  }

  lemma LinkWritable(base: System, n: nat, links: seq<Link>, k: nat)
    requires Startable(base, n, links) && k < |links|
    ensures Writable(base.table, links[k])
  {
  }

  /** One more edit gets to its place. */
  lemma BuildOne(table: Table, base: System, n: nat, links: seq<Link>, k: nat, actions: seq<Action>, batch: set<Edit>)
    returns (more: seq<Action>)
    requires Startable(base, n, links) && k < |links| && Run(table, actions).Some?
             && Built(base, n, Run(table, actions).value, links, k)
    requires BeginsOnly(actions, batch) && links[k].edit in batch
    ensures Run(table, more).Some? && Built(base, n, Run(table, more).value, links, k + 1) && BeginsOnly(more, batch)
  {
    hide CanExec, Execute, Run, Startable, Built, Writable;
    var s := Run(table, actions).value;
    more := LinkArrives(table, base, n, links, k, actions);
    var s3 := Run(table, more).value;
    if links[k].coded {
      var s4 := LinkEnters(base, n, s, links, k, s3);
      RunOne(table, more, Exec(n + k));
      more := more + [Exec(n + k)];
      BuiltOne(base, n, s, links, k, s4);
    } else {
      BuiltOne(base, n, s, links, k, s3);
    }
  }

  lemma NothingBuilt(base: System, n: nat, links: seq<Link>)
    requires Quiet(base, n)
    ensures Built(base, n, base, links, 0)
  {
  }

  lemma {:induction false} BuildKnot(table: Table, quiet: seq<Action>, n: nat, links: seq<Link>, k: nat,
                                     batch: set<Edit>) returns (actions: seq<Action>)
    requires Run(table, quiet).Some? && Startable(Run(table, quiet).value, n, links) && k <= |links|
    requires BeginsOnly(quiet, batch) && forall l: Link :: l in links ==> l.edit in batch
    ensures Run(table, actions).Some? && Built(Run(table, quiet).value, n, Run(table, actions).value, links, k)
            && BeginsOnly(actions, batch)
    decreases k
  {
    hide Knot, Built, Run;
    if k == 0 {
      NothingBuilt(Run(table, quiet).value, n, links);
      actions := quiet;
    } else {
      var before := BuildKnot(table, quiet, n, links, k - 1, batch);
      assert links[k - 1] in links;
      actions := BuildOne(table, Run(table, quiet).value, n, links, k - 1, before, batch);
    }
  }

  lemma BuiltWaits(base: System, n: nat, s: System, links: seq<Link>, i: nat)
    requires Startable(base, n, links) && Built(base, n, s, links, |links|) && i < |links|
    ensures Waits(s, n + i, n + Next(i, |links|))
  {
    var j := Next(i, |links|);
    assert Writable(base.table, links[i]) && Writable(base.table, links[j]);
    hide Writable, Obstructs, InDoubt, Stood;
    StoodInDoubt(base, links[i], ByCode, "");
    StoodInDoubt(base, links[j], LinkColumn(links[i]), KeyOf(base.table, links[i], LinkColumn(links[i])));
  }

  lemma StartableHasLinks(base: System, n: nat, links: seq<Link>)
    requires Startable(base, n, links)
    ensures links != []
  {
  }

  lemma BuiltIsCircle(base: System, n: nat, s: System, links: seq<Link>)
    requires Startable(base, n, links) && Built(base, n, s, links, |links|)
    ensures Circle(s, seq(|links|, i requires 0 <= i < |links| => n + i))
  {
    hide Startable, Built, Waits;
    StartableHasLinks(base, n, links);
    var c := seq(|links|, i requires 0 <= i < |links| => n + i);
    forall i | 0 <= i < |c| ensures Waits(s, c[i], c[Next(i, |c|)]) {
      BuiltWaits(base, n, s, links, i);
    }
  }

  // ---- Exactly which batches of edits deadlock ----

  /** Edits of the batch have been settled in this order, and others of it wait in a circle. */
  ghost predicate Deadlocks(table: Table, batch: set<Edit>, done: seq<Edit>, actions: seq<Action>, c: seq<nat>) {
    && Run(table, actions).Some? && BeginsOnly(actions, batch)
    && Run(table, actions).value.serial == done && Circle(Run(table, actions).value, c)
  }

  /** After edits of the batch have run one after another, others of it form a knot. */
  ghost predicate KnotAfter(table: Table, batch: set<Edit>, done: seq<Edit>, links: seq<Link>) {
    && (forall e :: e in done ==> e in batch)
    && (forall l: Link :: l in links ==> l.edit in batch && Fresh(table, done + [l.edit]))
    && Knot(After(table, done), links)
  }

  /**
   * However statements interleave, edits taken from a batch can deadlock once those
   * of done are settled, if and only if running done one edit at a time leads to a
   * table over which others of the batch form a knot.
   */
  lemma DeadlockIffKnot(table: Table, batch: set<Edit>, done: seq<Edit>)
    requires Tidy(table)
    ensures (exists actions, c :: Deadlocks(table, batch, done, actions, c))
            <==> exists links :: KnotAfter(table, batch, done, links)
  {
    if actions, c :| Deadlocks(table, batch, done, actions, c) {
      DeadlockKnots(table, batch, done, actions, c);
    }
    if links :| KnotAfter(table, batch, done, links) {
      var actions, c := KnotDeadlocks(table, batch, done, links);
    }
  }

  lemma KnotDeadlocks(table: Table, batch: set<Edit>, done: seq<Edit>, links: seq<Link>)
    returns (actions: seq<Action>, c: seq<nat>)
    requires Tidy(table) && KnotAfter(table, batch, done, links)
    ensures Deadlocks(table, batch, done, actions, c)
  {
    hide Run, Knot, Tidy, Fresh, UsedBy, Circle;
    KnotHasLinks(After(table, done), links);
    FreshPrefix(table, done, links[0].edit);
    var quiet := RunsSerially(table, done, batch);
    var base := Run(table, quiet).value;
    RunKeepsInv(table, quiet);
    forall l: Link | l in links && l.edit.op.Create? ensures l.edit.newId !in base.used {
      FreshIsUnused(table, done, l.edit, base.used);
    }
    actions := BuildKnot(table, quiet, |done|, links, |links|, batch);
    BuiltIsCircle(base, |done|, Run(table, actions).value, links);
    c := seq(|links|, i requires 0 <= i < |links| => |done| + i);
  }

  lemma KnotHasLinks(table: Table, links: seq<Link>)
    requires Knot(table, links)
    ensures links != [] && links[0] in links
  {
  }

  lemma FreshPrefix(table: Table, edits: seq<Edit>, e: Edit)
    requires Fresh(table, edits + [e])
    ensures Fresh(table, edits)
  {
    var all := edits + [e];
    forall i | 0 <= i < |edits| ensures edits[i] == all[i] {
    }
  }

  lemma DeadlockKnots(table: Table, batch: set<Edit>, done: seq<Edit>, actions: seq<Action>, c: seq<nat>)
    requires Tidy(table) && Deadlocks(table, batch, done, actions, c)
    ensures exists links :: KnotAfter(table, batch, done, links)
  {
    hide Run, Knot, Tidy, Fresh, Circle, Waits;
    var s := Run(table, actions).value;
    RunKeepsInv(table, actions);
    CirclesAreKnots(table, actions, c);
    BegunIn(table, actions, batch);
    forall e | e in done ensures e in batch {
      var i :| 0 <= i < |done| && done[i] == e;
      SerialOrderIsTheRequests(table, actions, i, 0, 0);
      var v :| TookEffect(s, v, i);
    }
    var links := seq(|c|, i requires 0 <= i < |c| => LinkOf(s.txs[c[i]]));
    MembersAreStuck(table, s, c);
    forall l: Link | l in links ensures l.edit in batch && Fresh(table, done + [l.edit]) {
      var i :| 0 <= i < |links| && links[i] == l;
      assert c[i] in c;
      OpenEditIsFresh(table, actions, c[i]);
    }
    assert KnotAfter(table, batch, done, links);
  }

  lemma {:induction false} BegunIn(table: Table, actions: seq<Action>, batch: set<Edit>)
    requires Run(table, actions).Some? && BeginsOnly(actions, batch)
    ensures var s := Run(table, actions).value; forall t :: t in s.txs ==> s.txs[t].edit in batch
  {
    hide Can, Do;
    if actions != [] {
      var before, last := actions[..|actions| - 1], actions[|actions| - 1];
      BegunIn(table, before, batch);
      assert last in actions;
      StepKeepsEdits(Run(table, before).value, last);
    }
  }

  /** Ids once used stay used, and inserts never draw an id that the table began with. */
  lemma {:induction false} NewIdsAreNew(table: Table, actions: seq<Action>)
    requires Run(table, actions).Some?
    ensures var s := Run(table, actions).value;
            table.Keys <= s.used && forall t :: t in s.txs && s.txs[t].edit.op.Create? ==> s.txs[t].edit.newId !in table
  {
    hide CanExec, Execute;
    if actions != [] {
      var before, last := actions[..|actions| - 1], actions[|actions| - 1];
      NewIdsAreNew(table, before);
      match last {
        case Exec(t) => ExecShape(Run(table, before).value, t);
        case _ =>
      }
    }
  }

  /** The ids of the settled inserts, and of one more under way, are new and distinct. */
  lemma OpenEditIsFresh(table: Table, actions: seq<Action>, t: nat)
    requires Tidy(table) && Run(table, actions).Some? && InFlight(Run(table, actions).value, t)
    ensures var s := Run(table, actions).value; Fresh(table, s.serial + [s.txs[t].edit])
  {
    hide Run, Tidy;
    var s := Run(table, actions).value;
    RunKeepsInv(table, actions);
    NewIdsAreNew(table, actions);
    var edits := s.serial + [s.txs[t].edit];
    forall i | 0 <= i < |edits| && edits[i].op.Create? ensures edits[i].newId !in table {
      var u := EditOf(table, actions, t, i);
    }
    forall i, j | 0 <= i < j < |edits| && edits[i].op.Create? && edits[j].op.Create?
      ensures edits[i].newId != edits[j].newId
    {
      var u := EditOf(table, actions, t, i);
      var v := EditOf(table, actions, t, j);
      DrawnApart(table, s, u, v);
    }
  }

  /** Whose edit stands at this place of the serial order, or is t's behind it. */
  lemma EditOf(table: Table, actions: seq<Action>, t: nat, i: nat) returns (u: nat)
    requires Tidy(table) && Run(table, actions).Some? && InFlight(Run(table, actions).value, t)
    requires i <= |Run(table, actions).value.serial|
    ensures var s := Run(table, actions).value;
            && u in s.txs && s.txs[u].edit == (s.serial + [s.txs[t].edit])[i]
            && s.txs[u].place == if i < |s.serial| then Some(i) else None
  {
    hide Run;
    var s := Run(table, actions).value;
    if i < |s.serial| {
      SerialOrderIsTheRequests(table, actions, i, 0, 0);
      u :| TookEffect(s, u, i);
    } else {
      RunKeepsInv(table, actions);
      Standing(table, s, t);
      u := t;
    }
  }

  lemma DrawnApart(table0: Table, s: System, u: nat, v: nat)
    requires Inv(table0, s) && u in s.txs && v in s.txs && u != v
    requires s.txs[u].edit.op.Create? && s.txs[v].edit.op.Create?
    ensures s.txs[u].edit.newId != s.txs[v].edit.newId
  {
    assert Apart(s.txs[u], s.txs[v]);
  }

  // ---- Every batch without a knot can finish ----

  ghost predicate KnotsNever(table: Table, batch: set<Edit>) {
    forall done, links :: !KnotAfter(table, batch, done, links)
  }

  /** After these statements every edit that has begun is over. */
  ghost predicate Finishes(table: Table, actions: seq<Action>, more: seq<Action>)
    requires Run(table, actions).Some?
  {
    && (forall a :: a in more ==> a.Exec?) && Run(table, actions + more).Some?
    && forall t :: t in Run(table, actions).value.txs ==>
         t in Run(table, actions + more).value.txs && Run(table, actions + more).value.txs[t].pc == Done
  }

  /** How many statements are still to run, at most. */
  ghost function Work(txs: map<nat, Tx>): nat {
    Sum(map t | t in txs :: 5 - Rank(txs[t].pc))
  }

  lemma StatementIsWork(s: System, t: nat)
    requires CanExec(s, t) && Pending(s.table, s.txs[t])
    ensures Work(Execute(s, t).txs) < Work(s.txs) && Execute(s, t).txs.Keys == s.txs.Keys
  {
    hide CanExec, Execute, Pending;
    ExecAdvances(s, t);
    ExecShape(s, t);
    var s' := Execute(s, t);
    SumDrops(map u | u in s.txs :: 5 - Rank(s.txs[u].pc), map u | u in s'.txs :: 5 - Rank(s'.txs[u].pc), t);
  }

  lemma SomeCanExec(table: Table, batch: set<Edit>, actions: seq<Action>, t: nat) returns (u: nat)
    requires Tidy(table) && KnotsNever(table, batch) && Run(table, actions).Some? && BeginsOnly(actions, batch)
    requires InFlight(Run(table, actions).value, t)
    ensures var s := Run(table, actions).value; CanExec(s, u) && Pending(s.table, s.txs[u])
  {
    hide Run, Tidy, KnotAfter, BeginsOnly, Circle, CanExec, Pending;
    var s := Run(table, actions).value;
    DeadlockIsACircle(table, actions, t);
    if c :| Circle(s, c) {
      assert Deadlocks(table, batch, s.serial, actions, c);
      DeadlockIffKnot(table, batch, s.serial);
    }
    u :| CanExec(s, u);
    RunKeepsInv(table, actions);
    Enabled(s, u);
    Standing(table, s, u);
  }

  lemma Enabled(s: System, t: nat)
    requires CanExec(s, t)
    ensures InFlight(s, t)
  {
  }

  /** From every state that such a batch can reach, statements alone bring every edit to its end. */
  lemma {:induction false} EveryEditCanFinish(table: Table, batch: set<Edit>, actions: seq<Action>)
    returns (more: seq<Action>)
    requires Tidy(table) && KnotsNever(table, batch) && Run(table, actions).Some? && BeginsOnly(actions, batch)
    ensures Finishes(table, actions, more)
    decreases Work(Run(table, actions).value.txs)
  {
    hide Tidy, KnotsNever, CanExec, Execute, Work, Pending, Can, Do;
    var s := Run(table, actions).value;
    if t :| InFlight(s, t) {
      var u := SomeCanExec(table, batch, actions, t);
      StatementIsWork(s, u);
      ExecIsAction(table, actions, u);
      var rest := EveryEditCanFinish(table, batch, actions + [Exec(u)]);
      more := [Exec(u)] + rest;
      assert actions + more == actions + [Exec(u)] + rest;
      assert forall v :: v in s.txs ==> v in Execute(s, u).txs;
    } else {
      more := [];
      assert actions + more == actions;
      assert forall v :: v in s.txs ==> !InFlight(s, v);
    }
  }

  /**
   * Exactly the batches none of whose serial runs leads to a knot can be finished
   * from wherever a run of them has got to.
   */
  lemma CanFinishIffNoKnot(table: Table, batch: set<Edit>)
    requires Tidy(table)
    ensures (forall actions | Run(table, actions).Some? && BeginsOnly(actions, batch) ::
               exists more :: Finishes(table, actions, more))
            <==> KnotsNever(table, batch)
  {
    hide Run, Tidy, KnotAfter, BeginsOnly, Finishes, Circle;
    if KnotsNever(table, batch) {
      forall actions | Run(table, actions).Some? && BeginsOnly(actions, batch)
        ensures exists more :: Finishes(table, actions, more)
      {
        var more := EveryEditCanFinish(table, batch, actions);
      }
    }
    if done, links :| KnotAfter(table, batch, done, links) {
      var actions, c := KnotDeadlocks(table, batch, done, links);
      forall more ensures !Finishes(table, actions, more) {
        CircleNeverFinishes(table, actions, c, more);
      }
    }
  }

  lemma CircleNeverFinishes(table: Table, actions: seq<Action>, c: seq<nat>, more: seq<Action>)
    requires Tidy(table) && Run(table, actions).Some? && Circle(Run(table, actions).value, c)
    ensures !Finishes(table, actions, more)
  {
    hide Run, Tidy, CanExec, Waits;
    assert c[0] in c;
    if Finishes(table, actions, more) {
      RunKeepsInv(table, actions);
      MembersAreStuck(table, Run(table, actions).value, c);
      CirclesLast(table, actions, more, c);
    }
  }

  // ---- What a caller can check ----

  /** The key an edit asks for in so many words. */
  function Asks(e: Edit, column: Column): Option<string> {
    match e.op
    case Create(p) => Some(KeyIn(p, column))
    case Patch(_, u) => if column == ByCode then u.productCode else u.slug
    case Delete(_) => None
  }

  /** No edit asks for the code or the slug that the row of another has, or that another asks for. */
  ghost predicate AsksApart(table: Table, batch: set<Edit>) {
    forall e, f, column | e in batch && f in batch && Target(e) != Target(f) && Asks(e, column).Some? ::
      && Asks(f, column) != Asks(e, column)
      && (Target(f) in table ==> KeyIn(table[Target(f)], column) != Asks(e, column).value)
  }

  lemma RowAfter(table: Table, e: Edit, id: Int64, column: Column)
    requires id in Apply(table, e).0
    ensures if Target(e) == id && Asks(e, column).Some?
            then KeyIn(Apply(table, e).0[id], column) == Asks(e, column).value
                 || (id in table && KeyIn(Apply(table, e).0[id], column) == KeyIn(table[id], column))
            else id in table && KeyIn(Apply(table, e).0[id], column) == KeyIn(table[id], column)
  {
  }

  lemma {:induction false} AsksStayApart(table: Table, batch: set<Edit>, done: seq<Edit>)
    requires AsksApart(table, batch) && forall e :: e in done ==> e in batch
    ensures AsksApart(After(table, done), batch)
  {
    if done != [] {
      var init, last := done[..|done| - 1], done[|done| - 1];
      assert last in done;
      AsksStayApart(table, batch, init);
      var before := After(table, init);
      hide Apply;
      forall e, f, column | e in batch && f in batch && Target(e) != Target(f) && Asks(e, column).Some?
        ensures Asks(f, column) != Asks(e, column)
        ensures Target(f) in After(table, done) ==>
                  KeyIn(After(table, done)[Target(f)], column) != Asks(e, column).value
      {
        if Target(f) in After(table, done) {
          RowAfter(before, last, Target(f), column);
        }
      }
    }
  }

  lemma KeyAsked(table: Table, l: Link, column: Column)
    requires Writable(table, l)
    ensures KeyOf(table, l, column) == if Asks(l.edit, column).Some? then Asks(l.edit, column).value
                                       else if Target(l.edit) in table then KeyIn(table[Target(l.edit)], column) else ""
    ensures Asks(l.edit, column) == None ==> Target(l.edit) in table
  {
  }

  lemma ApartDoNotObstruct(table: Table, batch: set<Edit>, k: Link, l: Link)
    requires Tidy(table) && AsksApart(table, batch) && k.edit in batch && l.edit in batch
    requires Writable(table, k) && Writable(table, l) && Target(k.edit) != Target(l.edit)
    ensures !Obstructs(table, l, LinkColumn(k), KeyOf(table, k, LinkColumn(k)))
  {
    hide Writable, KeyOf, DraftOf;
    var column := LinkColumn(k);
    KeyAsked(table, k, column);
    KeyAsked(table, l, column);
    assert Target(k.edit) in table && Target(l.edit) in table ==>
             !SameKey(table[Target(k.edit)], table[Target(l.edit)]);
  }

  lemma ApartIsNoKnot(table: Table, batch: set<Edit>, links: seq<Link>)
    requires Tidy(table) && AsksApart(table, batch) && forall l: Link :: l in links ==> l.edit in batch
    ensures !Knot(table, links)
  {
    if Knot(table, links) {
      var j := Next(0, |links|);
      var k, l := links[0], links[j];
      assert k in links && l in links && Writable(table, k) && Writable(table, l) && Target(k.edit) != Target(l.edit);
      ApartDoNotObstruct(table, batch, k, l);
    }
  }

  /** So such a batch never deadlocks, and every edit of it can finish, from wherever its edits have got to. */
  lemma AsksApartNeverKnot(table: Table, batch: set<Edit>)
    requires Tidy(table) && AsksApart(table, batch)
    ensures KnotsNever(table, batch)
  {
    hide Tidy, AsksApart, Knot;
    forall done, links ensures !KnotAfter(table, batch, done, links) {
      if KnotAfter(table, batch, done, links) {
        AsksStayApart(table, batch, done);
        RunKeepsTidy(table, done);
        ApartIsNoKnot(After(table, done), batch, links);
      }
    }
  }

  // ---- Batches that do deadlock ----

  lemma PairIsKnot(table: Table, k: Link, l: Link)
    requires Writable(table, k) && Writable(table, l) && Target(k.edit) != Target(l.edit) && !(k.coded && l.coded)
    requires Obstructs(table, l, LinkColumn(k), KeyOf(table, k, LinkColumn(k)))
    requires Obstructs(table, k, LinkColumn(l), KeyOf(table, l, LinkColumn(l)))
    ensures Knot(table, [k, l])
  {
    hide Writable, Obstructs, KeyOf;
  }

  lemma PairDeadlocks(table: Table, k: Link, l: Link)
    requires Tidy(table) && Knot(table, [k, l])
    ensures exists actions, c ::
              Run(table, actions).Some? && BeginsOnly(actions, {k.edit, l.edit})
              && Circle(Run(table, actions).value, c)
  {
    hide Run, Tidy, Circle, BeginsOnly;
    forall link: Link | link in [k, l] ensures link.edit in {k.edit, l.edit} && Fresh(table, [] + [link.edit]) {
      assert Writable(table, [k, l][0]) && Writable(table, [k, l][1]);
    }
    assert After(table, []) == table;
    assert KnotAfter(table, {k.edit, l.edit}, [], [k, l]);
    var actions, c := KnotDeadlocks(table, {k.edit, l.edit}, [], [k, l]);
  }

  /** Two patches that would exchange the product codes of two rows deadlock in some run, whatever else they ask for. */
  lemma ExchangingCodesDeadlocks(table: Table, e1: Edit, e2: Edit)
    requires Tidy(table) && e1.op.Patch? && e2.op.Patch? && e1.op.id != e2.op.id && e1.op.id in table
             && e2.op.id in table
    requires e1.op.update.productCode == Some(table[e2.op.id].productCode)
    requires e2.op.update.productCode == Some(table[e1.op.id].productCode)
    requires ValidProduct(Merge(table[e1.op.id], e1.op.update)) && ValidProduct(Merge(table[e2.op.id], e2.op.update))
    ensures exists actions, c ::
              Run(table, actions).Some? && BeginsOnly(actions, {e1, e2})
              && Circle(Run(table, actions).value, c)
  {
    hide Run, Knot, Tidy, Circle, BeginsOnly, ValidProduct;
    PairIsKnot(table, Link(e1, false), Link(e2, false));
    PairDeadlocks(table, Link(e1, false), Link(e2, false));
  }

  /** So do an insert and a patch that ask for one new code, if the insert also asks for the slug of the patched row. */
  lemma InsertMeetsPatch(table: Table, e1: Edit, e2: Edit)
    requires Tidy(table) && e1.op.Create? && e1.newId !in table && e2.op.Patch? && e2.op.id in table
    requires e1.op.product.slug == table[e2.op.id].slug && e2.op.update.productCode == Some(e1.op.product.productCode)
    requires ValidProduct(e1.op.product) && ValidProduct(Merge(table[e2.op.id], e2.op.update))
    requires !TakenIn(table, e1.newId, ByCode, e1.op.product.productCode)
    ensures exists actions, c ::
              Run(table, actions).Some? && BeginsOnly(actions, {e1, e2})
              && Circle(Run(table, actions).value, c)
  {
    hide Run, Knot, Tidy, Circle, BeginsOnly, ValidProduct, TakenIn;
    PairIsKnot(table, Link(e1, true), Link(e2, false));
    PairDeadlocks(table, Link(e1, true), Link(e2, false));
  }
}
