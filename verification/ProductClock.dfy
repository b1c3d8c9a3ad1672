/** What updated_at of a product does over a run: when it goes back, and when it cannot. */
module ProductClock {
  import opened Wrappers
  import opened Timestamps
  import opened Cursor
  import opened CatalogDomain
  import opened Products
  import opened ProductEdits

  // ---- Over a serial order ----

  /** updated_at of the row after the first n edits. */
  function Stamp(table: Table, edits: seq<Edit>, id: Int64, n: nat): int
    requires n <= |edits|
  {
    var now := After(table, edits[..n]);
    if id in now then Instant(now[id].updatedAt) else 0
  }

  /** Edit i is a patch of this product that was saved. */
  predicate SavedAt(table: Table, edits: seq<Edit>, id: Int64, i: int) {
    0 <= i < |edits| && edits[i].op.Patch? && edits[i].op.id == id && Answer(table, edits, i).Ok?
  }

  function NowOf(edits: seq<Edit>, i: int): int
    requires 0 <= i < |edits|
  {
    Instant(edits[i].now)
  }

  /** The saved edits of the row stand in the order of the times their transactions began. */
  ghost predicate InOrder(table: Table, edits: seq<Edit>, id: Int64)
    requires id in table
  {
    && (forall i :: SavedAt(table, edits, id, i) ==> Instant(table[id].updatedAt) <= NowOf(edits, i))
    && (forall i, j :: SavedAt(table, edits, id, i) && SavedAt(table, edits, id, j) && i < j
          ==> NowOf(edits, i) <= NowOf(edits, j))
  }

  lemma StampStep(table: Table, e: Edit, id: Int64)
    requires id in table && Spares(e, id)
    ensures var (after, outcome) := Apply(table, e);
            && id in after
            && after[id].updatedAt == if e.op.Patch? && e.op.id == id && outcome.Ok? then e.now else table[id].updatedAt
  {
  }

  lemma {:induction false} RowStays(table: Table, edits: seq<Edit>, id: Int64)
    requires id in table && forall i :: 0 <= i < |edits| ==> Spares(edits[i], id)
    ensures id in After(table, edits)
  {
    hide Apply;
    if edits != [] {
      RowStays(table, edits[..|edits| - 1], id);
      StampStep(After(table, edits[..|edits| - 1]), edits[|edits| - 1], id);
    }
  }

  lemma StampMoves(table: Table, edits: seq<Edit>, id: Int64, n: nat)
    requires id in table && n < |edits| && forall i :: 0 <= i < |edits| ==> Spares(edits[i], id)
    ensures Stamp(table, edits, id, n + 1) == if SavedAt(table, edits, id, n) then NowOf(edits, n)
            else Stamp(table, edits, id, n)
  {
    hide Apply;
    assert edits[..n + 1][..n] == edits[..n];
    RowStays(table, edits[..n], id);
    StampStep(After(table, edits[..n]), edits[n], id);
  }

  /** After n edits the row carries the time of the last that was saved, or the time it began with. */
  ghost predicate StampIs(table: Table, edits: seq<Edit>, id: Int64, n: nat)
    requires id in table && n <= |edits|
  {
    || (Stamp(table, edits, id, n) == Instant(table[id].updatedAt)
        && forall i :: i < n ==> !SavedAt(table, edits, id, i))
    || exists i :: 0 <= i < n && SavedAt(table, edits, id, i) && Stamp(table, edits, id, n) == NowOf(edits, i)
                   && forall j :: i < j < n ==> !SavedAt(table, edits, id, j)
  }

  lemma StampBegins(table: Table, edits: seq<Edit>, id: Int64)
    requires id in table
    ensures StampIs(table, edits, id, 0)
  {
    assert edits[..0] == [];
  }

  lemma StampGoesOn(table: Table, edits: seq<Edit>, id: Int64, n: nat)
    requires id in table && n < |edits| && StampIs(table, edits, id, n)
    requires Stamp(table, edits, id, n + 1) == if SavedAt(table, edits, id, n) then NowOf(edits, n)
             else Stamp(table, edits, id, n)
    ensures StampIs(table, edits, id, n + 1)
  {
    hide SavedAt, Stamp, NowOf;
    if !SavedAt(table, edits, id, n) {
      if i :| 0 <= i < n && SavedAt(table, edits, id, i) && Stamp(table, edits, id, n) == NowOf(edits, i)
              && forall j :: i < j < n ==> !SavedAt(table, edits, id, j) {
        assert forall j :: i < j < n + 1 ==> !SavedAt(table, edits, id, j);
      }
    }
  }

  lemma {:induction false} Stamped(table: Table, edits: seq<Edit>, id: Int64, n: nat)
    requires id in table && n <= |edits| && forall i :: 0 <= i < |edits| ==> Spares(edits[i], id)
    ensures StampIs(table, edits, id, n)
    decreases n
  {
    hide StampIs, SavedAt, Stamp, Spares, NowOf;
    if n == 0 {
      StampBegins(table, edits, id);
    } else {
      Stamped(table, edits, id, n - 1);
      StampMoves(table, edits, id, n - 1);
      StampGoesOn(table, edits, id, n - 1);
    }
  }

  lemma StampsRise(table: Table, edits: seq<Edit>, id: Int64, m: nat, n: nat)
    requires id in table && m <= n <= |edits| && (forall i :: 0 <= i < |edits| ==> Spares(edits[i], id))
             && InOrder(table, edits, id)
    ensures Stamp(table, edits, id, m) <= Stamp(table, edits, id, n)
  {
    hide SavedAt, Stamp;
    Stamped(table, edits, id, m);
    Stamped(table, edits, id, n);
  }

  /**
   * Over the prefixes of a serial order, updated_at of a row never goes back if and
   * only if its saved edits are in order.
   */
  lemma RisesIffInOrder(table: Table, edits: seq<Edit>, id: Int64)
    requires id in table && forall i :: 0 <= i < |edits| ==> Spares(edits[i], id)
    ensures (forall m, n :: 0 <= m <= n <= |edits| ==> Stamp(table, edits, id, m) <= Stamp(table, edits, id, n))
            <==> InOrder(table, edits, id)
  {
    if InOrder(table, edits, id) {
      forall m, n | 0 <= m <= n <= |edits| ensures Stamp(table, edits, id, m) <= Stamp(table, edits, id, n) {
        StampsRise(table, edits, id, m, n);
      }
    }
    if forall m, n :: 0 <= m <= n <= |edits| ==> Stamp(table, edits, id, m) <= Stamp(table, edits, id, n) {
      forall i | SavedAt(table, edits, id, i) ensures Stamp(table, edits, id, i + 1) == NowOf(edits, i) {
        StampMoves(table, edits, id, i);
      }
      assert edits[..0] == [] && Stamp(table, edits, id, 0) == Instant(table[id].updatedAt);
      forall i | SavedAt(table, edits, id, i) ensures Instant(table[id].updatedAt) <= NowOf(edits, i) {
        assert Stamp(table, edits, id, 0) <= Stamp(table, edits, id, i + 1);
      }
      forall i, j | SavedAt(table, edits, id, i) && SavedAt(table, edits, id, j) && i < j
        ensures NowOf(edits, i) <= NowOf(edits, j)
      {
        assert Stamp(table, edits, id, i + 1) <= Stamp(table, edits, id, j + 1);
      }
    }
  }

  // ---- Between two moments of a run ----

  /** Between two moments the serial order only grows, finished requests stay put, and later ones begin after it. */
  ghost predicate Later(s: System, s': System) {
    && s.serial <= s'.serial
    && (forall t :: t in s.txs ==>
          t in s'.txs && s'.txs[t].edit == s.txs[t].edit && (s.txs[t].pc == Done ==> s'.txs[t] == s.txs[t]))
    && (forall t :: t in s'.txs && t !in s.txs ==> s'.txs[t].begun >= |s.serial|)
  }

  lemma StepGoesOn(s: System, a: Action)
    requires Can(s, a)
    ensures Later(s, Do(s, a)) && |Do(s, a).serial| <= |s.serial| + 1
    ensures forall t :: t in s.txs ==> Do(s, a).txs[t].begun == s.txs[t].begun
  {
    hide CanExec, Execute;
    match a {
      case Exec(t) =>
        ExecShape(s, t);
        Starts(s, t);
      case _ =>
    }
  }

  lemma Starts(s: System, t: nat)
    requires CanExec(s, t)
    ensures InFlight(s, t)
  {
  }

  lemma {:induction false} RunGoesOn(table: Table, actions: seq<Action>, n: nat)
    requires Run(table, actions).Some? && n <= |actions|
    ensures Run(table, actions[..n]).Some? && Later(Run(table, actions[..n]).value, Run(table, actions).value)
    decreases |actions|
  {
    hide Can, Do;
    if n == |actions| {
      assert actions[..n] == actions;
    } else {
      var before := actions[..|actions| - 1];
      assert before[..n] == actions[..n];
      RunGoesOn(table, before, n);
      StepGoesOn(Run(table, before).value, actions[|actions| - 1]);
    }
  }

  /**
   * The serial order respects real time: a request that was over before another
   * began comes before it, with the same answer.
   */
  lemma RealTimeOrder(table: Table, actions: seq<Action>, n: nat, t: nat, u: nat, i: nat, j: nat)
    requires Tidy(table) && Run(table, actions).Some? && n <= |actions|
    requires var s' := Run(table, actions).value;
             && Run(table, actions[..n]).Some? && TookEffect(s', t, i) && TookEffect(s', u, j)
             && var s := Run(table, actions[..n]).value; t in s.txs && s.txs[t].pc == Done && u !in s.txs
    ensures i < j && Run(table, actions).value.txs[t] == Run(table, actions[..n]).value.txs[t]
  {
    RunGoesOn(table, actions, n);
    RunKeepsInv(table, actions[..n]);
    Standing(table, Run(table, actions[..n]).value, t);
  }

  /** updated_at of the row at the n-th moment of a run. */
  ghost function StampAt(table: Table, actions: seq<Action>, id: Int64, n: nat): int
    requires n <= |actions|
  {
    var s := Run(table, actions[..n]);
    if s.Some? && id in s.value.table then Instant(s.value.table[id].updatedAt) else 0
  }

  lemma StampAtMoment(table: Table, actions: seq<Action>, id: Int64, n: nat)
    requires Tidy(table) && Run(table, actions).Some? && n <= |actions|
    ensures var serial := Run(table, actions).value.serial;
            && Run(table, actions[..n]).Some?
            && var k := |Run(table, actions[..n]).value.serial|;
               k <= |serial| && StampAt(table, actions, id, n) == Stamp(table, serial, id, k)
  {
    RunGoesOn(table, actions, n);
    RunKeepsInv(table, actions[..n]);
    var serial := Run(table, actions).value.serial;
    var s := Run(table, actions[..n]).value;
    assert serial[..|s.serial|] == s.serial;
  }

  /** Every prefix of the serial order is reached at some moment. */
  lemma {:induction false} EveryPrefixIsReached(table: Table, actions: seq<Action>, k: nat) returns (n: nat)
    requires Run(table, actions).Some? && k <= |Run(table, actions).value.serial|
    ensures n <= |actions| && Run(table, actions[..n]).Some? && |Run(table, actions[..n]).value.serial| == k
  {
    hide Can, Do;
    if k == |Run(table, actions).value.serial| {
      n := |actions|;
      assert actions[..n] == actions;
    } else {
      var before := actions[..|actions| - 1];
      StepGoesOn(Run(table, before).value, actions[|actions| - 1]);
      n := EveryPrefixIsReached(table, before, k);
      assert before[..n] == actions[..n];
    }
  }

  lemma SerialSpares(table: Table, actions: seq<Action>, id: Int64)
    requires Tidy(table) && Run(table, actions).Some? && forall a :: a in actions && a.Begin? ==> Spares(a.edit, id)
    ensures forall i :: 0 <= i < |Run(table, actions).value.serial| ==> Spares(Run(table, actions).value.serial[i], id)
  {
    var s := Run(table, actions).value;
    RunSpares(table, actions, id);
    forall i | 0 <= i < |s.serial| ensures Spares(s.serial[i], id) {
      SerialOrderIsTheRequests(table, actions, i, 0, 0);
      var v :| TookEffect(s, v, i);
    }
  }

  /** The row's updated_at never goes back between two moments of the run. */
  ghost predicate NeverGoesBack(table: Table, actions: seq<Action>, id: Int64) {
    forall m, n :: 0 <= m <= n <= |actions| ==> StampAt(table, actions, id, m) <= StampAt(table, actions, id, n)
  }

  /**
   * Over every run that neither deletes the row nor draws its id, its updated_at
   * never goes back if and only if its saved edits were settled in the order in
   * which their transactions began, by the clock, and not before it carried a time
   * to begin with.
   */
  lemma MonotoneIffInOrder(table: Table, actions: seq<Action>, id: Int64)
    requires Tidy(table) && Run(table, actions).Some? && id in table
    requires forall a :: a in actions && a.Begin? ==> Spares(a.edit, id)
    ensures NeverGoesBack(table, actions, id) <==> InOrder(table, Run(table, actions).value.serial, id)
  {
    hide Run, Stamp, StampAt, InOrder, Spares, Tidy, NeverGoesBack;
    SerialSpares(table, actions, id);
    RisesIffInOrder(table, Run(table, actions).value.serial, id);
    MomentsArePrefixes(table, actions, id);
  }

  /** updated_at rises from moment to moment if and only if it rises from prefix to prefix of the serial order. */
  lemma MomentsArePrefixes(table: Table, actions: seq<Action>, id: Int64)
    requires Tidy(table) && Run(table, actions).Some?
    ensures var serial := Run(table, actions).value.serial;
            NeverGoesBack(table, actions, id) <==>
              forall k, l :: 0 <= k <= l <= |serial| ==> Stamp(table, serial, id, k) <= Stamp(table, serial, id, l)
  {
    hide Run, Stamp, StampAt, Tidy;
    var serial := Run(table, actions).value.serial;
    if forall k, l :: 0 <= k <= l <= |serial| ==> Stamp(table, serial, id, k) <= Stamp(table, serial, id, l) {
      forall m, n | 0 <= m <= n <= |actions| ensures StampAt(table, actions, id, m) <= StampAt(table, actions, id, n) {
        MomentsRise(table, actions, id, m, n);
      }
    }
    if NeverGoesBack(table, actions, id) {
      forall k, l | 0 <= k <= l <= |serial| ensures Stamp(table, serial, id, k) <= Stamp(table, serial, id, l) {
        PrefixesRise(table, actions, id, k, l);
      }
    }
  }

  lemma PrefixesRise(table: Table, actions: seq<Action>, id: Int64, k: nat, l: nat)
    requires Tidy(table) && Run(table, actions).Some? && NeverGoesBack(table, actions, id)
    requires k <= l <= |Run(table, actions).value.serial|
    ensures var serial := Run(table, actions).value.serial; Stamp(table, serial, id, k) <= Stamp(table, serial, id, l)
  {
    hide Run, Stamp, StampAt, Tidy;
    var m := EveryPrefixIsReached(table, actions, k);
    var n := EveryPrefixIsReached(table, actions, l);
    StampAtMoment(table, actions, id, m);
    StampAtMoment(table, actions, id, n);
    if n < m {
      SerialGrows(table, actions, n, m);
    }
  }

  lemma SerialGrows(table: Table, actions: seq<Action>, m: nat, n: nat)
    requires Run(table, actions).Some? && m <= n <= |actions|
    ensures Run(table, actions[..m]).Some? && Run(table, actions[..n]).Some?
    ensures |Run(table, actions[..m]).value.serial| <= |Run(table, actions[..n]).value.serial|
  {
    RunGoesOn(table, actions, n);
    assert actions[..n][..m] == actions[..m];
    RunGoesOn(table, actions[..n], m);
  }

  lemma MomentsRise(table: Table, actions: seq<Action>, id: Int64, m: nat, n: nat)
    requires Tidy(table) && Run(table, actions).Some? && m <= n <= |actions|
    requires var serial := Run(table, actions).value.serial;
             forall k, l :: 0 <= k <= l <= |serial| ==> Stamp(table, serial, id, k) <= Stamp(table, serial, id, l)
    ensures StampAt(table, actions, id, m) <= StampAt(table, actions, id, n)
  {
    hide Run, Stamp, StampAt;
    StampAtMoment(table, actions, id, m);
    StampAtMoment(table, actions, id, n);
    SerialGrows(table, actions, m, n);
  }

  // ---- What a caller can check ----

  /** No edit of the row begins while another of it is under way. */
  ghost predicate OneAtATime(table: Table, actions: seq<Action>, id: Int64) {
    forall n, u | 0 <= n < |actions| && actions[n].Begin? && Target(actions[n].edit) == id
                  && Run(table, actions[..n]).Some? && InFlight(Run(table, actions[..n]).value, u) ::
      Target(Run(table, actions[..n]).value.txs[u].edit) != id
  }

  /** NOW() never goes back from one transaction to the next, nor behind what the row carries at the beginning. */
  ghost predicate ClockGoesOn(table: Table, actions: seq<Action>, id: Int64)
    requires id in table
  {
    && (forall n :: 0 <= n < |actions| && actions[n].Begin?
          ==> Instant(table[id].updatedAt) <= Instant(actions[n].edit.now))
    && (forall m, n :: 0 <= m < n < |actions| && actions[m].Begin? && actions[n].Begin?
          ==> Instant(actions[m].edit.now) <= Instant(actions[n].edit.now))
  }

  /** When a request began. */
  lemma {:induction false} BegunAt(table: Table, actions: seq<Action>, t: nat) returns (n: nat)
    requires Run(table, actions).Some? && t in Run(table, actions).value.txs
    ensures n < |actions| && actions[n] == Begin(t, Run(table, actions).value.txs[t].edit)
    ensures Run(table, actions[..n]).Some? && t !in Run(table, actions[..n]).value.txs
    ensures Run(table, actions[..n + 1]).Some? && t in Run(table, actions[..n + 1]).value.txs
  {
    hide Do;
    var before, last := actions[..|actions| - 1], actions[|actions| - 1];
    var s := Run(table, before).value;
    StepKeepsEdits(s, last);
    if t in s.txs {
      n := BegunAt(table, before, t);
      assert before[..n] == actions[..n] && before[..n + 1] == actions[..n + 1];
      StepGoesOn(s, last);
    } else {
      n := |actions| - 1;
      assert actions[..n + 1] == actions;
    }
  }

  /** Edits of one row that do not overlap are settled in the order in which they began. */
  lemma SettledAsBegun(table: Table, actions: seq<Action>, id: Int64, i: nat, j: nat, t: nat, u: nat)
    requires Tidy(table) && Run(table, actions).Some? && id in table && OneAtATime(table, actions, id)
             && ClockGoesOn(table, actions, id)
    requires var s := Run(table, actions).value;
             i < j && TookEffect(s, t, i) && TookEffect(s, u, j) && Target(s.serial[i]) == id
               && Target(s.serial[j]) == id
    ensures NowOf(Run(table, actions).value.serial, i) <= NowOf(Run(table, actions).value.serial, j)
  {
    hide Run, Can, Tidy, OneAtATime;
    var m := BegunAt(table, actions, t);
    var n := BegunAt(table, actions, u);
    if n < m {
      OverByThen(table, actions, id, u, n, m);
      RealTimeOrder(table, actions, m, u, t, j, i);
    }
  }

  /** An edit of the row is over when the next one begins. */
  lemma OverByThen(table: Table, actions: seq<Action>, id: Int64, u: nat, n: nat, m: nat)
    requires Run(table, actions).Some? && OneAtATime(table, actions, id)
    requires n < m < |actions| && Run(table, actions[..n + 1]).Some? && u in Run(table, actions[..n + 1]).value.txs
    requires u in Run(table, actions).value.txs && Target(Run(table, actions).value.txs[u].edit) == id
    requires actions[m].Begin? && Target(actions[m].edit) == id
    ensures Run(table, actions[..m]).Some? && u in Run(table, actions[..m]).value.txs
    ensures Run(table, actions[..m]).value.txs[u].pc == Done
  {
    hide Run;
    BegunByThen(table, actions, u, n, m);
  }

  /** What began before the m-th moment is there by then, as the same edit. */
  lemma BegunByThen(table: Table, actions: seq<Action>, u: nat, n: nat, m: nat)
    requires Run(table, actions).Some? && n < m <= |actions| && Run(table, actions[..n + 1]).Some?
    requires u in Run(table, actions[..n + 1]).value.txs
    ensures Run(table, actions[..m]).Some? && u in Run(table, actions[..m]).value.txs
            && u in Run(table, actions).value.txs
    ensures Run(table, actions[..m]).value.txs[u].edit == Run(table, actions).value.txs[u].edit
  {
    hide Run;
    RunGoesOn(table, actions, m);
    assert actions[..m][..n + 1] == actions[..n + 1];
    RunGoesOn(table, actions[..m], n + 1);
  }

  /**
   * So if edits of a row do not overlap and the clock does not go back, neither does
   * its updated_at.
   */
  lemma SequentialEditsAreMonotone(table: Table, actions: seq<Action>, id: Int64)
    requires Tidy(table) && Run(table, actions).Some? && id in table
    requires forall a :: a in actions && a.Begin? ==> Spares(a.edit, id)
    requires OneAtATime(table, actions, id) && ClockGoesOn(table, actions, id)
    ensures NeverGoesBack(table, actions, id)
  {
    MonotoneIffInOrder(table, actions, id);
    hide Run, OneAtATime, NeverGoesBack, Tidy, Spares;
    var s := Run(table, actions).value;
    forall i | SavedAt(table, s.serial, id, i) ensures Instant(table[id].updatedAt) <= NowOf(s.serial, i) {
      SerialOrderIsTheRequests(table, actions, i, 0, 0);
      var t :| TookEffect(s, t, i);
      var n := BegunAt(table, actions, t);
    }
    forall i, j | SavedAt(table, s.serial, id, i) && SavedAt(table, s.serial, id, j) && i < j
      ensures NowOf(s.serial, i) <= NowOf(s.serial, j)
    {
      SerialOrderIsTheRequests(table, actions, i, 0, 0);
      SerialOrderIsTheRequests(table, actions, j, 0, 0);
      var t :| TookEffect(s, t, i);
      var u :| TookEffect(s, u, j);
      SettledAsBegun(table, actions, id, i, j, t, u);
    }
  }

  // ---- When it does go back ----

  const NOTHING := ProductUpdate(None, None, None, None, None, None, None, None)

  /**
   * A patch that changes nothing but updated_at, with nobody in its way: it locks
   * its row and puts the version in place.
   */
  lemma TouchBegins(s: System, t: nat, id: Int64) returns (s1: System, s2: System)
    requires t in s.txs && s.txs[t].pc == Start && s.txs[t].row == None && s.txs[t].version == None
    requires s.txs[t].edit.op == Patch(id, NOTHING) && id in s.table && ValidProduct(s.table[id])
    requires forall u :: u in s.txs && u != t ==> !Holds(s.txs[u])
    ensures CanExec(s, t) && s1 == Execute(s, t) && CanExec(s1, t) && s2 == Execute(s1, t)
    ensures s2 == Put(s, t, s2.txs[t]) && s2.txs[t].pc == Versioned && s2.txs[t].edit == s.txs[t].edit
    ensures s2.txs[t].version == Some(s.table[id].(id := id, updatedAt := s.txs[t].edit.now))
  {
    var row := s.table[id];
    s1 := Put(s, t, s.txs[t].(pc := Fetched, row := Some(row)));
    assert CanExec(s, t) && Execute(s, t) == s1;
    assert Draft(s1.txs[t]) == Some(row);
    s2 := Put(s, t, Versions(s1.txs[t], row));
    assert CanExec(s1, t) && Execute(s1, t) == s2;
  }

  /** It enters its code and its slug, which are its own. */
  lemma TouchEnters(s2: System, t: nat, id: Int64) returns (s3: System, s4: System)
    requires t in s2.txs && id in s2.table && Tidy(s2.table)
    requires s2.txs[t].pc == Versioned && Target(s2.txs[t].edit) == id
    requires s2.txs[t].version == Some(s2.table[id].(id := id, updatedAt := s2.txs[t].edit.now))
    requires forall u :: u in s2.txs && u != t ==> !Holds(s2.txs[u]) && s2.txs[u].version == None
    ensures CanExec(s2, t) && s3 == Execute(s2, t) && CanExec(s3, t) && s4 == Execute(s3, t)
    ensures s4 == Put(s2, t, s2.txs[t].(pc := Wrote))
  {
    hide Tidy, Clashes;
    KeyIsOwn(s2, t, id);
    s3 := Put(s2, t, s2.txs[t].(pc := Coded));
    assert Execute(s2, t) == s3;
    KeyIsOwn(s3, t, id);
    s4 := Put(s2, t, s2.txs[t].(pc := Wrote));
    assert Execute(s3, t) == s4;
  }

  lemma TouchCommits(s: System, t: nat, id: Int64) returns (s': System)
    requires t in s.txs && s.txs[t].pc == Wrote && s.txs[t].version.Some? && Target(s.txs[t].edit) == id
    ensures CanExec(s, t) && s' == Execute(s, t) && s'.table == s.table[id := s.txs[t].version.value]
    ensures s'.txs == s.txs[t := s'.txs[t]] && s'.txs[t].pc == Done && s'.txs[t].version == None
  {
    s' := Execute(s, t);
  }

  lemma KeyIsOwn(s: System, t: nat, id: Int64)
    requires Tidy(s.table) && InFlight(s, t) && Checking(s.txs[t]) && Target(s.txs[t].edit) == id && id in s.table
    requires KeyIn(s.txs[t].version.value, ColumnOf(s.txs[t])) == KeyIn(s.table[id], ColumnOf(s.txs[t]))
    requires forall u :: u in s.txs && u != t ==> !Holds(s.txs[u]) && s.txs[u].version == None
    ensures CanExec(s, t) && !Clashes(s, t, id, ColumnOf(s.txs[t]), Wanted(s.txs[t]))
  {
    assert forall u :: u in s.txs && u != t ==> !InDoubt(s.table, s.txs[u], ColumnOf(s.txs[t]), Wanted(s.txs[t]));
    assert forall other :: other in s.table && other != id ==> !SameKey(s.table[other], s.table[id]);
  }

  lemma RunFive(table: Table, actions: seq<Action>, t: nat, s1: System, s2: System, s3: System, s4: System)
    returns (more: seq<Action>)
    requires Run(table, actions).Some? && CanExec(Run(table, actions).value, t)
             && s1 == Execute(Run(table, actions).value, t)
    requires CanExec(s1, t) && s2 == Execute(s1, t) && CanExec(s2, t) && s3 == Execute(s2, t)
    requires CanExec(s3, t) && s4 == Execute(s3, t) && CanExec(s4, t)
    ensures Run(table, actions + more) == Some(Execute(s4, t))
  {
    hide CanExec, Execute;
    var e := [Exec(t)];
    RunOne(table, actions, Exec(t));
    RunOne(table, actions + e, Exec(t));
    RunOne(table, actions + e + e, Exec(t));
    RunOne(table, actions + e + e + e, Exec(t));
    RunOne(table, actions + e + e + e + e, Exec(t));
    more := [Exec(t), Exec(t), Exec(t), Exec(t), Exec(t)];
    assert actions + more == actions + e + e + e + e + e;
  }

  function Begun(edit: Edit): Tx {
    Tx(edit, Start, None, None, Err(Internal), None, 0, false)
  }

  lemma TwoBegun(table: Table, e1: Edit, e2: Edit) returns (actions: seq<Action>)
    requires e1.op.Patch? && e2.op.Patch?
    ensures Run(table, actions).Some? && Run(table, actions).value.table == table
    ensures Run(table, actions).value.txs == map[1 := Begun(e1), 2 := Begun(e2)]
  {
    hide CanExec, Execute;
    var s0 := System(table, table.Keys, map[], [], []);
    assert Run(table, []) == Some(s0);
    RunOne(table, [], Begin(1, e1));
    var s1 := Do(s0, Begin(1, e1));
    assert s1.table == table && s1.txs == map[1 := Begun(e1)] && s1.serial == [];
    RunOne(table, [] + [Begin(1, e1)], Begin(2, e2));
    hide Run;
    actions := [] + [Begin(1, e1)] + [Begin(2, e2)];
    assert Run(table, actions) == Some(Do(s1, Begin(2, e2)));
  }

  lemma TidyIsValid(table: Table, id: Int64)
    requires Tidy(table) && id in table
    ensures ValidProduct(table[id]) && table[id].id == id
  {
  }

  lemma TouchedStaysTidy(table: Table, id: Int64, now: Time)
    requires Tidy(table) && id in table
    ensures Tidy(table[id := table[id].(updatedAt := now)])
  {
  }

  /**
   * NOW() is when a transaction began, so of two patches of one row that overlap the
   * one that began first may be the one that commits last, and takes updated_at
   * back: for every row and any two start times there is such a run.
   */
  lemma UpdatedAtGoesBack(table: Table, id: Int64, earlier: Time, later: Time)
    requires Tidy(table) && id in table && Instant(earlier) < Instant(later)
    ensures exists first, second ::
              && Run(table, first).Some? && Run(table, first + second).Some?
              && id in Run(table, first).value.table && id in Run(table, first + second).value.table
              && Run(table, first).value.table[id].updatedAt == later
              && Run(table, first + second).value.table[id].updatedAt == earlier
  {
    hide CanExec, Execute, Tidy, Run;
    var e1, e2 := Edit(Patch(id, NOTHING), earlier, 0), Edit(Patch(id, NOTHING), later, 0);
    var begun := TwoBegun(table, e1, e2);
    var s := Run(table, begun).value;
    TidyIsValid(table, id);
    var s1, s2 := TouchBegins(s, 2, id);
    var s3, s4 := TouchEnters(s2, 2, id);
    var s5 := TouchCommits(s4, 2, id);
    var five := RunFive(table, begun, 2, s1, s2, s3, s4);
    var first := begun + five;
    TouchedStaysTidy(table, id, later);
    TidyIsValid(s5.table, id);
    var r1, r2 := TouchBegins(s5, 1, id);
    var r3, r4 := TouchEnters(r2, 1, id);
    var r5 := TouchCommits(r4, 1, id);
    var second := RunFive(table, first, 1, r1, r2, r3, r4);
    assert Run(table, first).value.table[id].updatedAt == later;
    assert Run(table, first + second).value.table[id].updatedAt == earlier;
  }
}
