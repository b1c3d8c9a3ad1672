/**
 * How product edits deadlock.  Writes wait for one another's keys, so unlike the
 * row locks alone they can wait in a circle.
 */
module ProductDeadlock {
  import opened Wrappers
  import opened Timestamps
  import opened Cursor
  import opened CatalogDomain
  import opened Products
  import opened ProductEdits
  import opened Circles

  /** Each transaction waits for the next, and the last for the first. */
  ghost predicate Circle(s: System, c: seq<nat>) {
    c != [] && Distinct(c) && forall i :: 0 <= i < |c| ==> Waits(s, c[i], c[Next(i, |c|)])
  }

  // ---- A circle is a deadlock ----

  /** Whose key is in doubt is not also taken for good, so who waits cannot go on. */
  lemma WhoWaitsIsStuck(table0: Table, s: System, t: nat, u: nat)
    requires Inv(table0, s) && Waits(s, t, u)
    ensures !CanExec(s, t)
  {
    hide Inv, Placed, Exclusive, FreshIds;
    Standing(table0, s, t);
    Standing(table0, s, u);
    var tx := s.txs[t];
    var id, column, key := Target(tx.edit), ColumnOf(tx), Wanted(tx);
    forall other | other in s.table && other != id && KeyIn(s.table[other], column) == key
      ensures Rewrites(s.txs[u]) && Target(s.txs[u].edit) == other
    {
      DoubtIsAbout(s.table, s.txs[u], column, key, other);
    }
  }

  /** If a committed row has a key that an open transaction puts in doubt, it is the row it writes over. */
  lemma DoubtIsAbout(table: Table, tx: Tx, column: Column, key: string, other: Int64)
    requires Pending(table, tx) && Tidy(table) && InDoubt(table, tx, column, key)
    requires other in table && KeyIn(table[other], column) == key
    ensures Rewrites(tx) && Target(tx.edit) == other
  {
  }

  /** Nothing but the failure of a member ends a circle. */
  lemma CircleStays(table0: Table, s: System, c: seq<nat>, a: Action)
    requires Inv(table0, s) && Circle(s, c) && Can(s, a) && forall t :: t in c ==> a != Fail(t)
    ensures Circle(Do(s, a), c)
  {
    hide Inv, CanExec;
    forall i | 0 <= i < |c| ensures Waits(Do(s, a), c[i], c[Next(i, |c|)]) {
      assert Waits(s, c[i], c[Next(i, |c|)]);
      WaitStays(table0, s, c[i], c[Next(i, |c|)], c[Next(Next(i, |c|), |c|)], a);
    }
  }

  lemma WaitStays(table0: Table, s: System, t: nat, u: nat, v: nat, a: Action)
    requires Inv(table0, s) && Waits(s, t, u) && Waits(s, u, v) && Can(s, a) && a != Fail(t) && a != Fail(u)
    ensures Waits(Do(s, a), t, u)
  {
    hide Inv, Tidy, Placed, FreshIds, CanExec, Execute, InDoubt;
    WhoWaitsIsStuck(table0, s, t, u);
    WhoWaitsIsStuck(table0, s, u, v);
    Standing(table0, s, t);
    match a {
      case Exec(w) =>
        OthersRowsStay(s, w, u);
        WaitOutlives(s, Execute(s, w), t, u);
      case _ => WaitOutlives(s, Do(s, a), t, u);
    }
  }

  lemma WaitOutlives(s: System, s': System, t: nat, u: nat)
    requires Waits(s, t, u) && t in s'.txs && u in s'.txs && s'.txs[t] == s.txs[t] && s'.txs[u] == s.txs[u]
    requires Holds(s.txs[u]) ==>
               var id := Target(s.txs[u].edit);
               (id in s'.table <==> id in s.table) && (id in s.table ==> s'.table[id] == s.table[id])
    ensures Waits(s', t, u)
  {
  }

  /** A statement leaves alone every other transaction, and every row that another holds. */
  lemma OthersRowsStay(s: System, t: nat, u: nat)
    requires CanExec(s, t) && u in s.txs && u != t && Exclusive(s)
    ensures var s' := Execute(s, t);
            && s'.txs.Keys == s.txs.Keys && (forall v :: v in s.txs && v != t ==> s'.txs[v] == s.txs[v])
            && (Holds(s.txs[u]) ==>
                  var id := Target(s.txs[u].edit);
                  (id in s'.table <==> id in s.table) && (id in s.table ==> s'.table[id] == s.table[id]))
  {
    hide CanExec, Execute;
    ExecShape(s, t);
    assert Apart(s.txs[t], s.txs[u]);
  }

  /** Once in a circle, a request is never answered, whatever else happens, until some member of it fails. */
  lemma {:induction false} CirclesLast(table: Table, actions: seq<Action>, rest: seq<Action>, c: seq<nat>)
    requires Tidy(table) && Run(table, actions).Some? && Run(table, actions + rest).Some?
    requires Circle(Run(table, actions).value, c) && forall t :: t in c ==> Fail(t) !in rest
    ensures var s := Run(table, actions + rest).value;
            Circle(s, c) && forall t :: t in c ==> InFlight(s, t) && !CanExec(s, t)
  {
    if rest == [] {
      assert actions + rest == actions;
    } else {
      var before, last := rest[..|rest| - 1], rest[|rest| - 1];
      assert (actions + rest)[..|actions + rest| - 1] == actions + before;
      assert last in rest;
      CirclesLast(table, actions, before, c);
      RunKeepsInv(table, actions + before);
      hide Circle;
      CircleStays(table, Run(table, actions + before).value, c, last);
    }
    RunKeepsInv(table, actions + rest);
    MembersAreStuck(table, Run(table, actions + rest).value, c);
  }

  lemma MembersAreStuck(table0: Table, s: System, c: seq<nat>)
    requires Inv(table0, s) && Circle(s, c)
    ensures forall t :: t in c ==> InFlight(s, t) && !CanExec(s, t)
  {
    hide Inv, CanExec;
    forall t | t in c ensures InFlight(s, t) && !CanExec(s, t) {
      var i :| 0 <= i < |c| && c[i] == t;
      assert Waits(s, c[i], c[Next(i, |c|)]);
      WhoWaitsIsStuck(table0, s, t, c[Next(i, |c|)]);
    }
  }

  // ---- Every deadlock is a circle ----

  ghost function Blocker(s: System, t: nat): nat
    requires Blocked(s, t)
  {
    var u :| u in s.txs && Waits(s, t, u);
    u
  }

  /** When nothing can run, whoever is in the way is itself waiting for a key. */
  lemma BlockerWaits(table0: Table, s: System, t: nat)
    requires Inv(table0, s) && InFlight(s, t) && !CanExec(s, t)
    ensures Checking(s.txs[t]) ==> Blocked(s, t)
    ensures !Checking(s.txs[t]) ==> RowLocked(s, Target(s.txs[t].edit), t)
  {
    hide Inv;
    Standing(table0, s, t);
    Stages(s.table, s.txs[t]);
  }

  lemma HolderIsChecking(table0: Table, s: System, u: nat)
    requires Inv(table0, s) && u in s.txs && Holds(s.txs[u]) && !CanExec(s, u)
    ensures Checking(s.txs[u])
  {
    hide Inv;
    Standing(table0, s, u);
    Stages(s.table, s.txs[u]);
  }

  /** If requests are under way and no statement can run, some of them wait in a circle. */
  lemma StuckMeansCircle(table0: Table, s: System, t: nat) returns (c: seq<nat>)
    requires Inv(table0, s) && InFlight(s, t) && forall u :: !CanExec(s, u)
    ensures Circle(s, c)
  {
    hide Inv, CanExec;
    var nodes := set u | u in s.txs && Checking(s.txs[u]);
    BlockerWaits(table0, s, t);
    if !Checking(s.txs[t]) {
      var u :| u in s.txs && u != t && Holds(s.txs[u]) && Target(s.txs[u].edit) == Target(s.txs[t].edit);
      HolderIsChecking(table0, s, u);
      assert u in nodes;
    }
    assert t in nodes || nodes != {};
    forall u | u in nodes ensures Blocked(s, u) && Blocker(s, u) in nodes {
      BlockerWaits(table0, s, u);
      HolderIsChecking(table0, s, Blocker(s, u));
    }
    var next := map u | u in nodes :: Blocker(s, u);
    c := FindCircle(nodes, next);
    forall i | 0 <= i < |c| ensures Waits(s, c[i], c[Next(i, |c|)]) {
      assert c[i] in nodes && next[c[i]] == Blocker(s, c[i]);
    }
  }

  /**
   * In every reachable state with an unfinished request, either some statement can
   * run or requests wait in a circle.
   */
  lemma DeadlockIsACircle(table: Table, actions: seq<Action>, t: nat)
    requires Tidy(table) && Run(table, actions).Some? && InFlight(Run(table, actions).value, t)
    ensures (exists u :: CanExec(Run(table, actions).value, u)) || (exists c :: Circle(Run(table, actions).value, c))
  {
    RunKeepsInv(table, actions);
    if forall u :: !CanExec(Run(table, actions).value, u) {
      var c := StuckMeansCircle(table, Run(table, actions).value, t);
    }
  }

  // ---- Which edits can deadlock ----

  /** An edit, and whether it stands after entering its code or before. */
  datatype Link = Link(edit: Edit, coded: bool)

  /** What an edit would write over this table. */
  function DraftOf(table: Table, e: Edit): Option<Product> {
    match e.op
    case Create(p) => Some(p)
    case Patch(id, u) => if id in table then Some(Merge(table[id], u)) else None
    case Delete(_) => None
  }

  /** The key it would enter. */
  function KeyOf(table: Table, l: Link, column: Column): string {
    if DraftOf(table, l.edit).Some? then KeyIn(DraftOf(table, l.edit).value, column) else ""
  }

  function LinkColumn(l: Link): Column {
    if l.coded then BySlug else ByCode
  }

  /** An edit at its place has the key in doubt: it has entered it, or it patches the row that has it. */
  predicate Obstructs(table: Table, l: Link, column: Column, key: string) {
    || (l.coded && column == ByCode && KeyOf(table, l, ByCode) == key)
    || (l.edit.op.Patch? && Target(l.edit) in table && KeyIn(table[Target(l.edit)], column) == key)
  }

  /** An insert or a patch that Validate and, as far as it has got, the unique indexes let through. */
  ghost predicate Writable(table: Table, l: Link) {
    var id := Target(l.edit);
    && DraftOf(table, l.edit).Some? && ValidProduct(DraftOf(table, l.edit).value)
    && (l.edit.op.Create? ==> id !in table)
    && (l.coded ==> !TakenIn(table, id, ByCode, KeyOf(table, l, ByCode)))
  }

  /**
   * Edits of different rows, each asking for a key that the next has in doubt, and
   * the last for one of the first: the code, or once past its code the slug.
   */
  ghost predicate Knot(table: Table, links: seq<Link>) {
    && links != []
    && (forall i :: 0 <= i < |links| ==> Writable(table, links[i]))
    && (forall i, j :: 0 <= i < j < |links| ==>
          && Target(links[i].edit) != Target(links[j].edit)
          && (links[i].coded && links[j].coded ==>
                KeyOf(table, links[i], ByCode) != KeyOf(table, links[j], ByCode)))
    && (forall i :: 0 <= i < |links| ==>
          && Next(i, |links|) != i
          && Obstructs(table, links[Next(i, |links|)], LinkColumn(links[i]),
                       KeyOf(table, links[i], LinkColumn(links[i]))))
  }

  function LinkOf(tx: Tx): Link {
    Link(tx.edit, tx.pc != Versioned)
  }

  lemma CheckingIsWritable(table: Table, tx: Tx)
    requires Pending(table, tx) && Checking(tx)
    ensures Writable(table, LinkOf(tx)) && Wanted(tx) == KeyOf(table, LinkOf(tx), LinkColumn(LinkOf(tx)))
    ensures ColumnOf(tx) == LinkColumn(LinkOf(tx))
    ensures tx.version.Some? && tx.version.value.productCode == KeyOf(table, LinkOf(tx), ByCode)
  {
  }

  lemma DoubtObstructs(table: Table, tx: Tx, column: Column, key: string)
    requires Pending(table, tx) && Checking(tx)
    ensures InDoubt(table, tx, column, key) <==> Obstructs(table, LinkOf(tx), column, key)
  {
  }

  /** In every reachable state, the edits of a circle form a knot over the committed table. */
  lemma CirclesAreKnots(table: Table, actions: seq<Action>, c: seq<nat>)
    requires Tidy(table) && Run(table, actions).Some? && Circle(Run(table, actions).value, c)
    ensures var s := Run(table, actions).value;
            (forall t :: t in c ==> t in s.txs)
              && Knot(s.table, seq(|c|, i requires 0 <= i < |c| => LinkOf(s.txs[c[i]])))
  {
    RunKeepsInv(table, actions);
    hide Run;
    CircleIsKnot(table, Run(table, actions).value, c);
  }

  lemma CircleMember(table0: Table, s: System, c: seq<nat>, i: nat)
    requires Inv(table0, s) && Circle(s, c) && i < |c|
    ensures c[i] in s.txs && Checking(s.txs[c[i]]) && Pending(s.table, s.txs[c[i]])
  {
    hide Inv, Pending;
    assert Waits(s, c[i], c[Next(i, |c|)]);
    Standing(table0, s, c[i]);
  }

  lemma NextIsAnother(s: System, c: seq<nat>, i: nat)
    requires Circle(s, c) && i < |c|
    ensures Next(i, |c|) != i && Waits(s, c[i], c[Next(i, |c|)])
  {
    assert Waits(s, c[i], c[Next(i, |c|)]);
  }

  /** In a circle, the next one's edit obstructs this one's at its column. */
  lemma NextObstructs(table0: Table, s: System, c: seq<nat>, i: nat)
    requires Inv(table0, s) && Circle(s, c) && i < |c|
    ensures c[i] in s.txs && c[Next(i, |c|)] in s.txs && Next(i, |c|) != i
    ensures var l := LinkOf(s.txs[c[i]]);
            && Writable(s.table, l)
            && Obstructs(s.table, LinkOf(s.txs[c[Next(i, |c|)]]), LinkColumn(l), KeyOf(s.table, l, LinkColumn(l)))
  {
    hide Inv, InDoubt, Obstructs, Writable, KeyOf, Pending, Circle;
    CircleMember(table0, s, c, i);
    CircleMember(table0, s, c, Next(i, |c|));
    NextIsAnother(s, c, i);
    CheckingIsWritable(s.table, s.txs[c[i]]);
    DoubtObstructs(s.table, s.txs[c[Next(i, |c|)]], ColumnOf(s.txs[c[i]]), Wanted(s.txs[c[i]]));
  }

  /** Two members are about different rows, and have not entered the same code. */
  lemma MembersApart(table0: Table, s: System, c: seq<nat>, i: nat, j: nat)
    requires Inv(table0, s) && Circle(s, c) && i < j < |c|
    ensures c[i] in s.txs && c[j] in s.txs
    ensures var k, l := LinkOf(s.txs[c[i]]), LinkOf(s.txs[c[j]]);
            Target(k.edit) != Target(l.edit)
              && (k.coded && l.coded ==> KeyOf(s.table, k, ByCode) != KeyOf(s.table, l, ByCode))
  {
    hide Inv, Writable, KeyOf, Pending, Waits;
    CircleMember(table0, s, c, i);
    CircleMember(table0, s, c, j);
    Standing(table0, s, c[i]);
    CheckingIsWritable(s.table, s.txs[c[i]]);
    CheckingIsWritable(s.table, s.txs[c[j]]);
    var tx, other := s.txs[c[i]], s.txs[c[j]];
    assert Apart(tx, other);
    assert LinkOf(tx).coded && LinkOf(other).coded ==> Claims(tx, ByCode) && Claims(other, ByCode);
  }

  lemma CircleIsKnot(table0: Table, s: System, c: seq<nat>)
    requires Inv(table0, s) && Circle(s, c)
    ensures (forall t :: t in c ==> t in s.txs)
            && Knot(s.table, seq(|c|, i requires 0 <= i < |c| => LinkOf(s.txs[c[i]])))
  {
    hide Inv, Obstructs, Writable, KeyOf, Waits, LinkOf;
    forall i | 0 <= i < |c| ensures c[i] in s.txs {
      CircleMember(table0, s, c, i);
    }
    var links := seq(|c|, i requires 0 <= i < |c| => LinkOf(s.txs[c[i]]));
    forall i | 0 <= i < |links|
      ensures Writable(s.table, links[i]) && Next(i, |links|) != i
      ensures Obstructs(s.table, links[Next(i, |links|)], LinkColumn(links[i]),
                        KeyOf(s.table, links[i], LinkColumn(links[i])))
    {
      NextObstructs(table0, s, c, i);
    }
    forall i, j | 0 <= i < j < |links|
      ensures Target(links[i].edit) != Target(links[j].edit)
      ensures links[i].coded && links[j].coded ==> KeyOf(s.table, links[i], ByCode) != KeyOf(s.table, links[j], ByCode)
    {
      MembersApart(table0, s, c, i, j);
    }
  }

  // ---- What a caller can check ----

  /** No knot can be made of the edits under way. */
  ghost predicate KnotFree(s: System) {
    forall links: seq<Link> | Knot(s.table, links) ::
      exists l :: l in links && forall t :: InFlight(s, t) ==> s.txs[t].edit != l.edit
  }

  /** Without a knot among the edits under way, some statement can run, in every reachable state. */
  lemma NeverDeadlocked(table: Table, actions: seq<Action>, t: nat)
    requires Tidy(table) && Run(table, actions).Some? && InFlight(Run(table, actions).value, t)
    requires KnotFree(Run(table, actions).value)
    ensures exists u :: CanExec(Run(table, actions).value, u)
  {
    hide Knot, CanExec, Run, KnotFree, Circle;
    DeadlockIsACircle(table, actions, t);
    var s := Run(table, actions).value;
    if c :| Circle(s, c) {
      RunKeepsInv(table, actions);
      MembersAreStuck(table, s, c);
      CirclesAreKnots(table, actions, c);
      NotKnotFree(s, c);
    }
  }

  lemma NotKnotFree(s: System, c: seq<nat>)
    requires forall i :: 0 <= i < |c| ==> c[i] in s.txs && InFlight(s, c[i])
    requires Knot(s.table, seq(|c|, i requires 0 <= i < |c| => LinkOf(s.txs[c[i]])))
    ensures !KnotFree(s)
  {
    hide Knot;
    var links := seq(|c|, i requires 0 <= i < |c| => LinkOf(s.txs[c[i]]));
    forall l | l in links ensures exists t :: InFlight(s, t) && s.txs[t].edit == l.edit {
      var i :| 0 <= i < |links| && links[i] == l;
      assert InFlight(s, c[i]);
    }
  }

  /**
   * Nobody asks for a code or slug of a row that another edit under way is about,
   * or for a code that another asks for.
   */
  ghost predicate KeysApart(s: System) {
    forall t, u, coded | InFlight(s, t) && InFlight(s, u) && Target(s.txs[t].edit) != Target(s.txs[u].edit) ::
      var l := Link(s.txs[t].edit, coded);
      !Obstructs(s.table, Link(s.txs[u].edit, true), LinkColumn(l), KeyOf(s.table, l, LinkColumn(l)))
  }

  lemma KeysApartHaveNoKnot(s: System)
    requires KeysApart(s)
    ensures KnotFree(s)
  {
    forall links: seq<Link> | Knot(s.table, links)
      ensures exists l :: l in links && forall t :: InFlight(s, t) ==> s.txs[t].edit != l.edit
    {
      var first, second := links[0], links[Next(0, |links|)];
      assert first in links && second in links;
      if t :| InFlight(s, t) && s.txs[t].edit == first.edit {
        forall u | InFlight(s, u) ensures s.txs[u].edit != second.edit {
          if s.txs[u].edit == second.edit {
            NotApart(s, links, t, u);
          }
        }
      }
    }
  }

  lemma NotApart(s: System, links: seq<Link>, t: nat, u: nat)
    requires Knot(s.table, links) && InFlight(s, t) && InFlight(s, u)
    requires s.txs[t].edit == links[0].edit && s.txs[u].edit == links[Next(0, |links|)].edit
    ensures !KeysApart(s)
  {
    var l := Link(s.txs[t].edit, links[0].coded);
    assert l == links[0];
    assert Obstructs(s.table, Link(s.txs[u].edit, true), LinkColumn(l), KeyOf(s.table, l, LinkColumn(l)));
  }
}
