/**
 * Incremental synchronisation when clocks keep no promise: any table may be
 * committed at any moment, and a session may start with any filter.  What a
 * mirror then misses is decided row by row, at the moment a row is committed.
 */
module Clockless {
  import opened Wrappers
  import opened Sql
  import opened Cursor
  import opened Keyset
  import opened Sync

  /** The session has still to deliver x: it passes the filter and lies past the session's place. */
  ghost predicate Ahead<T>(e: Endpoint<T>, s: System<T>, x: T) {
    Place(e, s.cursor).Ok? && Matches(e.position, s.since, Place(e, s.cursor).value, x)
  }

  /**
   * The live rows a session has missed.  A row is missed if, when it was committed
   * or when the session started, it was neither mirrored nor ahead.
   */
  ghost function Missed<T>(e: Endpoint<T>, s: System<T>, missed: set<T>, a: Action<T>): set<T> {
    match a
    case Commit(rows, _) =>
      set x | x in rows && if x in s.rows then x in missed else !Mirrored(e.position, s.mirror, x) && !Ahead(e, s, x)
    case Start(since) =>
      set x | x in s.rows && !Mirrored(e.position, s.mirror, x) && !Matches(e.position, since, None, x)
    case _ => missed
  }

  /** Where a run of actions leads, and what the running session has missed. */
  ghost function LooseRun<T>(e: Endpoint<T>, s: System<T>, missed: set<T>, actions: seq<Action<T>>)
    : Option<(System<T>, set<T>)>
    requires ValidEndpoint(e)
    decreases |actions|
  {
    if actions == [] then Some((s, missed))
    else
      match LooseRun(e, s, missed, actions[..|actions| - 1])
      case None => None
      case Some((before, gone)) =>
        var a := actions[|actions| - 1];
        if Possible(e.position, before, a) then Some((Do(e, before, a), Missed(e, before, gone, a))) else None
  }

  ghost predicate LooseInv<T>(e: Endpoint<T>, s: System<T>, missed: set<T>) {
    && WellFormed(e.position, s.rows) && Place(e, s.cursor).Ok?
    && (forall x :: x in missed ==> x in s.rows && !Mirrored(e.position, s.mirror, x) && !Ahead(e, s, x))
    && (forall x :: x in s.rows && x !in missed && !Ahead(e, s, x) ==> Mirrored(e.position, s.mirror, x))
    && (s.complete ==> forall x :: x in s.rows && x !in missed ==> Mirrored(e.position, s.mirror, x))
  }

  // ---- One answer ----

  /** A page holds live rows that were ahead; every row it passes is in it; and its cursor only moves on. */
  lemma AnswerMovesOn<T>(e: Endpoint<T>, s: System<T>, size: int) returns (page: SyncPage<T>)
    requires ValidEndpoint(e) && WellFormed(e.position, s.rows) && Place(e, s.cursor).Ok? && s.request.Some?
    ensures Do(e, s, Answer(size)) == Receive(e.position, s, page) && s.request == Some(page.syncToken)
    ensures forall x :: x in page.items ==> x in s.rows && Ahead(e, s, x)
    ensures forall x :: x in s.rows && Ahead(e, s, x) && LeavesBehind(e, s, page, x) ==> x in page.items
    ensures page.hasNext ==> Place(e, page.nextCursor).Ok?
    ensures page.hasNext ==> forall x :: x in s.rows && !LeavesBehind(e, s, page, x) ==> Ahead(e, s, x)
  {
    page := AnswerIsReceive(e, s, size);
    var after := Place(e, s.cursor).value;
    forall x | x in page.items ensures x in s.rows && Ahead(e, s, x) {
      PendingMembers(e.position, s.rows, s.since, after, x);
    }
    forall x | x in s.rows && Ahead(e, s, x) && LeavesBehind(e, s, page, x) ensures x in page.items {
      PageCovers(e, s, size, x);
    }
    if page.hasNext {
      FeedMoves(e, s.rows, s.since);
      CursorMoves(e, FeedOf(e.position, s.rows, s.since), size, s.cursor, s.request.value);
      var next := Place(e, page.nextCursor).value;
      forall x | x in s.rows && !LeavesBehind(e, s, page, x) ensures Ahead(e, s, x) {
        PendingMembers(e.position, s.rows, s.since, next, x);
        PendingMembers(e.position, s.rows, s.since, after, x);
      }
    }
  }

  lemma AnswerKeepsInv<T>(e: Endpoint<T>, s: System<T>, missed: set<T>, size: int)
    requires ValidEndpoint(e) && LooseInv(e, s, missed) && s.request.Some?
    ensures LooseInv(e, Do(e, s, Answer(size)), missed)
  {
    var page := AnswerMovesOn(e, s, size);
    var s' := Receive(e.position, s, page);
    forall x | x in s.rows
      ensures Mirrored(e.position, s'.mirror, x) <==> x in page.items || Mirrored(e.position, s.mirror, x)
    {
      StoreMirrors(e.position, s.mirror, s.rows, page.items, x);
    }
    ReceiveLoosely(e, s, missed, page);
  }

  lemma ReceiveLoosely<T>(e: Endpoint<T>, s: System<T>, missed: set<T>, page: SyncPage<T>)
    requires LooseInv(e, s, missed)
    requires var s' := Receive(e.position, s, page);
             forall x :: x in s.rows
               ==> (Mirrored(e.position, s'.mirror, x) <==> x in page.items || Mirrored(e.position, s.mirror, x))
    requires forall x :: x in page.items ==> x in s.rows && Ahead(e, s, x)
    requires forall x :: x in s.rows && Ahead(e, s, x) && LeavesBehind(e, s, page, x) ==> x in page.items
    requires page.hasNext ==> Place(e, page.nextCursor).Ok?
    requires page.hasNext ==> forall x :: x in s.rows && !LeavesBehind(e, s, page, x) ==> Ahead(e, s, x)
    ensures LooseInv(e, Receive(e.position, s, page), missed)
  {
    hide Store, Mirrored, WellFormed, Matches, Place;
    var s' := Receive(e.position, s, page);
    if page.hasNext {
      assert s'.cursor == page.nextCursor && s'.since == s.since && !s'.complete;
      forall x | x in s.rows ensures Ahead(e, s', x) <==> !LeavesBehind(e, s, page, x) {
      }
    } else {
      assert s'.cursor == s.cursor && s'.since == s.since;
      forall x | x in s.rows ensures Ahead(e, s', x) <==> Ahead(e, s, x) {
      }
      assert forall x :: x in s.rows ==> LeavesBehind(e, s, page, x);
    }
  }

  lemma StepKeepsInv<T>(e: Endpoint<T>, s: System<T>, missed: set<T>, a: Action<T>)
    requires ValidEndpoint(e) && LooseInv(e, s, missed) && Possible(e.position, s, a)
    ensures LooseInv(e, Do(e, s, a), Missed(e, s, missed, a))
  {
    match a {
      case Answer(size) => AnswerKeepsInv(e, s, missed, size);
      case _ =>
    }
  }

  lemma {:induction false} LooseRunKeepsInv<T>(e: Endpoint<T>, s: System<T>, missed: set<T>, actions: seq<Action<T>>)
    requires ValidEndpoint(e) && LooseInv(e, s, missed) && LooseRun(e, s, missed, actions).Some?
    ensures var (end, gone) := LooseRun(e, s, missed, actions).value; LooseInv(e, end, gone)
    decreases |actions|
  {
    hide LooseInv, Possible, Do, Missed, ValidEndpoint;
    if actions != [] {
      var init := actions[..|actions| - 1];
      LooseRunKeepsInv(e, s, missed, init);
      var (before, gone) := LooseRun(e, s, missed, init).value;
      StepKeepsInv(e, before, gone, actions[|actions| - 1]);
    }
  }

  // ---- Exactly what is missed ----

  ghost predicate Unstarted<T>(e: Endpoint<T>, s: System<T>) {
    && WellFormed(e.position, s.rows) && s.mirror == map[]
    && s.since == None && s.cursor == "" && s.request == None && !s.complete
  }

  /**
   * With any transactions between any two steps and any filters, a session that
   * reaches hasNext = false has mirrored exactly the live rows it has not missed.
   * So it ends exact if and only if every live row was, when it was committed or
   * when the session started, already mirrored or still ahead of the session.
   */
  lemma ExactIffNothingMissed<T>(e: Endpoint<T>, s: System<T>, actions: seq<Action<T>>)
    requires ValidEndpoint(e) && Unstarted(e, s) && LooseRun(e, s, {}, actions).Some?
    ensures var (end, missed) := LooseRun(e, s, {}, actions).value;
            end.complete ==>
              && (forall x :: x in end.rows ==> (Mirrored(e.position, end.mirror, x) <==> x !in missed))
              && (Exact(e.position, end.mirror, end.rows) <==> missed == {})
  {
    LooseRunKeepsInv(e, s, {}, actions);
    var (end, missed) := LooseRun(e, s, {}, actions).value;
    if end.complete && Exact(e.position, end.mirror, end.rows) {
      assert forall x :: x !in missed;
    }
  }

  /** Only a new session can make up for a missed row: as long as it is live, this one never delivers it. */
  lemma {:induction false} MissedForTheSession<T>(e: Endpoint<T>, s: System<T>, missed: set<T>,
                                                  actions: seq<Action<T>>, x: T)
    requires ValidEndpoint(e) && LooseInv(e, s, missed) && LooseRun(e, s, missed, actions).Some? && x in missed
    requires forall a :: a in actions ==> !a.Start? && (a.Commit? ==> x in a.rows)
    ensures var (end, gone) := LooseRun(e, s, missed, actions).value;
            x in gone && x in end.rows && !Mirrored(e.position, end.mirror, x)
    decreases |actions|
  {
    LooseRunKeepsInv(e, s, missed, actions);
    if actions != [] {
      var init := actions[..|actions| - 1];
      MissedForTheSession(e, s, missed, init, x);
      assert actions[|actions| - 1] in actions;
    }
  }

  lemma {:induction false} RunsOn<T>(e: Endpoint<T>, s: System<T>, missed: set<T>, first: seq<Action<T>>,
                                     rest: seq<Action<T>>)
    requires ValidEndpoint(e) && LooseRun(e, s, missed, first).Some?
    ensures var (before, gone) := LooseRun(e, s, missed, first).value;
            LooseRun(e, s, missed, first + rest) == LooseRun(e, before, gone, rest)
    decreases |rest|
  {
    hide Possible, Do, Missed;
    if rest == [] {
      assert first + rest == first;
    } else {
      assert (first + rest)[..|first + rest| - 1] == first + rest[..|rest| - 1];
      RunsOn(e, s, missed, first, rest[..|rest| - 1]);
    }
  }

  lemma OneAction<T>(e: Endpoint<T>, s: System<T>, missed: set<T>, a: Action<T>)
    requires ValidEndpoint(e) && Possible(e.position, s, a)
    ensures LooseRun(e, s, missed, [a]) == Some((Do(e, s, a), Missed(e, s, missed, a)))
  {
    assert [a][..0] == [];
    assert LooseRun(e, s, missed, []) == Some((s, missed));
  }

  /** Nothing but requests and answers. */
  ghost predicate Polls<T>(actions: seq<Action<T>>) {
    forall a :: a in actions ==> a.Request? || a.Answer?
  }

  /** The request under way, or a new one. */
  lemma Asked<T>(e: Endpoint<T>, s: System<T>, missed: set<T>) returns (ask: seq<Action<T>>, asked: System<T>)
    requires ValidEndpoint(e)
    ensures Polls(ask) && LooseRun(e, s, missed, ask) == Some((asked, missed)) && asked.request.Some?
    ensures asked.rows == s.rows && asked.since == s.since && asked.cursor == s.cursor
  {
    if s.request.Some? {
      ask, asked := [], s;
    } else {
      ask, asked := [Request(0)], Do(e, s, Request(0));
      OneAction(e, s, missed, Request(0));
    }
  }

  /** One request and its answer either end the session or leave it fewer rows to deliver. */
  lemma OnePoll<T>(e: Endpoint<T>, s: System<T>, missed: set<T>, size: int)
    returns (polls: seq<Action<T>>, answered: System<T>)
    requires ValidEndpoint(e) && WellFormed(e.position, s.rows) && Place(e, s.cursor).Ok?
    ensures Polls(polls) && LooseRun(e, s, missed, polls) == Some((answered, missed))
    ensures answered.rows == s.rows && answered.since == s.since
    ensures answered.complete || (Place(e, answered.cursor).Ok? &&
              |Pending(e.position, s.rows, s.since, Place(e, answered.cursor).value)|
              < |Pending(e.position, s.rows, s.since, Place(e, s.cursor).value)|)
  {
    hide ValidEndpoint, WellFormed, Pending, Mirrored;
    var ask, asked := Asked(e, s, missed);
    answered := Do(e, asked, Answer(size));
    OneAction(e, asked, missed, Answer(size));
    RunsOn(e, s, missed, ask, [Answer(size)]);
    polls := ask + [Answer(size)];
    var page := AnswerIsReceive(e, asked, size);
    if page.hasNext {
      PageShrinks(e, asked, size, page);
    }
  }

  lemma PageShrinks<T>(e: Endpoint<T>, s: System<T>, size: int, page: SyncPage<T>)
    requires ValidEndpoint(e) && WellFormed(e.position, s.rows) && Place(e, s.cursor).Ok?
    requires Serve(e, s.rows, SyncQuery(size, s.cursor, s.since), page.syncToken) == Ok(page) && page.hasNext
    ensures Place(e, page.nextCursor).Ok?
    ensures |Pending(e.position, s.rows, s.since, Place(e, page.nextCursor).value)|
            < |Pending(e.position, s.rows, s.since, Place(e, s.cursor).value)|
  {
    FeedMoves(e, s.rows, s.since);
    CursorMoves(e, FeedOf(e.position, s.rows, s.since), size, s.cursor, page.syncToken);
  }

  /** From any place, polling alone brings the session to hasNext = false. */
  lemma {:induction false} PollingCompletes<T>(e: Endpoint<T>, s: System<T>, missed: set<T>, size: int)
    returns (polls: seq<Action<T>>)
    requires ValidEndpoint(e) && WellFormed(e.position, s.rows) && Place(e, s.cursor).Ok?
    ensures Polls(polls) && LooseRun(e, s, missed, polls).Some?
    ensures LooseRun(e, s, missed, polls).value.0.complete && LooseRun(e, s, missed, polls).value.0.rows == s.rows
    decreases |Pending(e.position, s.rows, s.since, Place(e, s.cursor).value)|
  {
    hide LooseRun, Pending, ValidEndpoint, WellFormed;
    var first, answered := OnePoll(e, s, missed, size);
    if answered.complete {
      polls := first;
    } else {
      var rest := PollingCompletes(e, answered, missed, size);
      RunsOn(e, s, missed, first, rest);
      polls := first + rest;
    }
  }

  /**
   * What a transaction that began before a token was issued commits after that
   * session is lost: whatever the state, if the committed table has a row that is
   * not mirrored and not newer than the token, the next session with that token can
   * run to its end, at any page size, and the row is still not mirrored.
   */
  lemma LateCommitIsLost<T>(e: Endpoint<T>, s: System<T>, missed: set<T>, rows: seq<T>, x: T, token: int, size: int)
    requires ValidEndpoint(e) && LooseInv(e, s, missed) && WellFormed(e.position, rows)
    requires x in rows && !Mirrored(e.position, s.mirror, x) && At(e.position, x) <= token
    ensures exists polls ::
              && Polls(polls) && LooseRun(e, s, missed, [Commit(rows, token)] + [Start(Some(token))] + polls).Some?
              && var (end, _) := LooseRun(e, s, missed, [Commit(rows, token)] + [Start(Some(token))] + polls).value;
                 end.complete && end.rows == rows && !Mirrored(e.position, end.mirror, x)
  {
    var commit, start := Commit(rows, token), Start(Some(token));
    OneAction(e, s, missed, commit);
    StepKeepsInv(e, s, missed, commit);
    var s1, m1 := Do(e, s, commit), Missed(e, s, missed, commit);
    OneAction(e, s1, m1, start);
    StepKeepsInv(e, s1, m1, start);
    var s2, m2 := Do(e, s1, start), Missed(e, s1, m1, start);
    RunsOn(e, s, missed, [commit], [start]);
    assert x in m2;
    var polls := PollingCompletes(e, s2, m2, size);
    MissedForTheSession(e, s2, m2, polls, x);
    RunsOn(e, s, missed, [commit] + [start], polls);
  }
}
