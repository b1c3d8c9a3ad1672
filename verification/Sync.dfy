/**
 * Incremental synchronisation as a state machine: a caller mirrors a table by
 * walking pages, session after session, while transactions commit between any
 * two steps.  Rows are of any type; position gives a row's (updated_at, id).
 */
module Sync {
  import opened Wrappers
  import opened Sql
  import opened Cursor
  import opened Keyset
  import Timestamps

  function At<T>(position: T -> SyncCursor, x: T): int {
    Timestamps.Instant(position(x).updatedAt)
  }

  /**
   * rows        the committed table;
   * horizon     the latest instant any visible row or issued token has carried;
   * committed   every row version ever committed;
   * mirror      what the caller holds, by id;
   * since, cursor, tokens   the running session: its filter, its place, the tokens it was given;
   * request     the token captured for a request whose query has not run yet;
   * usable      the tokens of the last session that reached hasNext = false;
   * complete    nothing has happened since a session reached hasNext = false.
   */
  datatype System<T> = System(rows: seq<T>, horizon: int, committed: set<T>, mirror: map<int, T>,
                              since: Option<int>, cursor: string, tokens: set<int>,
                              request: Option<int>, usable: set<int>, complete: bool)

  datatype Action<T> =
    | Commit(rows: seq<T>, horizon: int)   // a transaction commits, leaving this table
    | Start(since: Option<int>)            // the caller starts a session, abandoning any other
    | Request(now: int)                    // the service receives a request and captures its token
    | Answer(size: int)                    // the query runs and its page reaches the caller
    | Lose                                 // the request fails or its answer is lost

  /** When an action can happen at all. */
  ghost predicate Possible<T>(position: T -> SyncCursor, s: System<T>, a: Action<T>) {
    match a
    case Commit(rows, _) => WellFormed(position, rows)
    case Start(_) => true
    case Request(_) => s.request == None
    case Answer(_) => s.request.Some?
    case Lose => s.request.Some?
  }

  /**
   * When it can happen in a system that keeps its promises.  The clause on Commit
   * is the clock assumption: what a transaction inserts or updates carries an
   * instant later than everything already visible and every token already issued.
   */
  ghost predicate Can<T>(position: T -> SyncCursor, s: System<T>, a: Action<T>) {
    && Possible(position, s, a)
    && match a
       case Commit(rows, horizon) =>
         && s.horizon <= horizon
         && forall x :: x in rows ==> At(position, x) <= horizon && (x in s.rows || At(position, x) > s.horizon)
       case Start(since) => since.Some? ==> since.value in s.usable
       case _ => true
  }

  function Store<T>(position: T -> SyncCursor, mirror: map<int, T>, items: seq<T>): map<int, T>
    decreases |items|
  {
    if items == [] then mirror
    else Store(position, mirror[position(items[0]).id := items[0]], items[1..])
  }

  function Max(a: int, b: int): int {
    if a < b then b else a
  }

  function Receive<T>(position: T -> SyncCursor, s: System<T>, page: SyncPage<T>): System<T> {
    var tokens := s.tokens + {page.syncToken};
    var s' := s.(mirror := Store(position, s.mirror, page.items), tokens := tokens, request := None);
    if page.hasNext then s'.(cursor := page.nextCursor, complete := false)
    else s'.(usable := tokens, complete := true)
  }

  ghost function Do<T>(e: Endpoint<T>, s: System<T>, a: Action<T>): System<T>
    requires ValidEndpoint(e) && Possible(e.position, s, a)
  {
    match a
    case Commit(rows, horizon) =>
      s.(rows := rows, horizon := horizon, committed := s.committed + (set x | x in rows), complete := false)
    case Start(since) => s.(since := since, cursor := "", tokens := {}, request := None, complete := false)
    case Request(now) => s.(request := Some(now), horizon := Max(s.horizon, now), complete := false)
    case Lose => s.(request := None, complete := false)
    case Answer(size) =>
      match Serve(e, s.rows, SyncQuery(size, s.cursor, s.since), s.request.value)
      case Err(_) => s.(request := None, complete := false)
      case Ok(page) => Receive(e.position, s, page)
  }

  ghost predicate Initial<T>(position: T -> SyncCursor, s: System<T>) {
    && WellFormed(position, s.rows) && s.committed == (set x | x in s.rows)
    && (forall x :: x in s.rows ==> At(position, x) <= s.horizon)
    && s.mirror == map[] && s.since == None && s.cursor == "" && s.tokens == s.usable == {}
    && s.request == None && !s.complete
  }

  ghost predicate Mirrored<T>(position: T -> SyncCursor, mirror: map<int, T>, x: T) {
    position(x).id in mirror && mirror[position(x).id] == x
  }

  /** Every live row is mirrored at its current version. */
  ghost predicate Exact<T>(position: T -> SyncCursor, mirror: map<int, T>, rows: seq<T>) {
    forall x :: x in rows ==> Mirrored(position, mirror, x)
  }

  ghost predicate Inv<T>(e: Endpoint<T>, s: System<T>) {
    && WellFormed(e.position, s.rows)
    && (forall x :: x in s.rows ==> At(e.position, x) <= s.horizon)
    && (s.since.Some? ==> s.since.value <= s.horizon)
    && (s.request.Some? ==> s.request.value <= s.horizon)
    && (forall t :: t in s.tokens || t in s.usable ==> t <= s.horizon)
    && Place(e, s.cursor).Ok?
    && (var after := Place(e, s.cursor).value;
        && (after.Some? ==> KeyOf(after.value).major <= s.horizon)
        // what the session has left behind is mirrored at its current version
        && (forall x :: x in s.rows && !Matches(e.position, s.since, after, x) ==> Mirrored(e.position, s.mirror, x)))
    // what a usable token will filter out is mirrored at its current version
    && (forall t, x :: t in s.usable && x in s.rows && At(e.position, x) <= t ==> Mirrored(e.position, s.mirror, x))
    && (forall id :: id in s.mirror ==> s.mirror[id] in s.committed && e.position(s.mirror[id]).id == id)
    && (forall x :: x in s.rows ==> x in s.committed)
    && (s.complete ==> Exact(e.position, s.mirror, s.rows))
  }

  // ---- Receiving a page ----

  lemma {:induction false} StoreMeaning<T>(position: T -> SyncCursor, mirror: map<int, T>, items: seq<T>, id: int)
    ensures var m := Store(position, mirror, items);
            if exists x :: x in items && position(x).id == id
            then id in m && m[id] in items && position(m[id]).id == id
            else (id in m <==> id in mirror) && (id in m ==> m[id] == mirror[id])
    decreases |items|
  {
    if items != [] {
      StoreMeaning(position, mirror[position(items[0]).id := items[0]], items[1..], id);
    }
  }

  lemma SameId<T>(position: T -> SyncCursor, rows: seq<T>, x: T, y: T)
    requires DistinctIds(SortKey(position), rows)
    requires x in rows && y in rows && position(x).id == position(y).id
    ensures x == y
  {
    var i :| 0 <= i < |rows| && rows[i] == x;
    var j :| 0 <= j < |rows| && rows[j] == y;
    assert SortKey(position)(rows[i]).minor == SortKey(position)(rows[j]).minor;
  }

  /** Storing rows of the table mirrors them and disturbs no live row already mirrored. */
  lemma StoreMirrors<T>(position: T -> SyncCursor, mirror: map<int, T>, rows: seq<T>, items: seq<T>, x: T)
    requires DistinctIds(SortKey(position), rows)
    requires forall y :: y in items ==> y in rows
    requires x in rows
    ensures Mirrored(position, Store(position, mirror, items), x)
            <==> x in items || Mirrored(position, mirror, x)
  {
    StoreMeaning(position, mirror, items, position(x).id);
    forall y | y in items && position(y).id == position(x).id ensures y == x {
      SameId(position, rows, x, y);
    }
  }

  /** The page answering a request. */
  ghost function Answered<T>(e: Endpoint<T>, s: System<T>, size: int): SyncPage<T>
    requires ValidEndpoint(e) && Place(e, s.cursor).Ok? && s.request.Some?
  {
    Serve(e, s.rows, SyncQuery(size, s.cursor, s.since), s.request.value).value
  }

  lemma PageItems<T>(e: Endpoint<T>, s: System<T>, size: int, x: T)
    requires ValidEndpoint(e) && Place(e, s.cursor).Ok? && s.request.Some?
    requires x in Answered(e, s, size).items
    ensures x in s.rows
  {
    PendingMembers(e.position, s.rows, s.since, Place(e, s.cursor).value, x);
  }

  /** A page that is not the last leaves the session at one of the table's rows. */
  lemma PageCursor<T>(e: Endpoint<T>, s: System<T>, size: int) returns (last: T)
    requires ValidEndpoint(e) && WellFormed(e.position, s.rows) && Place(e, s.cursor).Ok? && s.request.Some?
    requires Answered(e, s, size).hasNext
    ensures last in s.rows
    ensures Place(e, Answered(e, s, size).nextCursor) == Ok(Some(e.position(last)))
    ensures forall x :: x in s.rows && Matches(e.position, s.since, Place(e, s.cursor).value, x)
                        && !Past(e.position, e.position(last))(x)
              ==> x in Answered(e, s, size).items
  {
    var after := Place(e, s.cursor).value;
    var pending := Pending(e.position, s.rows, s.since, after);
    var k := Clamp(e, size);
    FeedMoves(e, s.rows, s.since);
    CursorMoves(e, FeedOf(e.position, s.rows, s.since), size, s.cursor, s.request.value);
    last := pending[k - 1];
    PendingMembers(e.position, s.rows, s.since, after, last);
    forall x | x in s.rows && Matches(e.position, s.since, after, x) && !Past(e.position, e.position(last))(x)
      ensures x in pending[..k]
    {
      PendingMembers(e.position, s.rows, s.since, after, x);
      InFirstPart(e.position, s.rows, s.since, after, k, x);
    }
  }

  /** Once the page is in, the session has x behind it: filtered out, or not past its place. */
  ghost predicate LeavesBehind<T>(e: Endpoint<T>, s: System<T>, page: SyncPage<T>, x: T) {
    page.hasNext && Place(e, page.nextCursor).Ok? ==> !Matches(e.position, s.since, Place(e, page.nextCursor).value, x)
  }

  /** Every live row left behind by a page was in the page or left behind before. */
  lemma PageCovers<T>(e: Endpoint<T>, s: System<T>, size: int, x: T)
    requires ValidEndpoint(e) && WellFormed(e.position, s.rows) && Place(e, s.cursor).Ok? && s.request.Some?
    requires x in s.rows && Matches(e.position, s.since, Place(e, s.cursor).value, x)
    requires LeavesBehind(e, s, Answered(e, s, size), x)
    ensures x in Answered(e, s, size).items
  {
    if Answered(e, s, size).hasNext {
      var last := PageCursor(e, s, size);
    } else {
      PendingMembers(e.position, s.rows, s.since, Place(e, s.cursor).value, x);
    }
  }

  /** A page that covers what it leaves behind, stored, keeps the mirror's promises. */
  lemma PageMirrors<T>(e: Endpoint<T>, s: System<T>, page: SyncPage<T>)
    requires ValidEndpoint(e) && Inv(e, s)
    requires forall x :: x in page.items ==> x in s.rows
    requires forall x :: x in s.rows && Matches(e.position, s.since, Place(e, s.cursor).value, x)
                         && LeavesBehind(e, s, page, x)
               ==> x in page.items
    ensures var mirror := Store(e.position, s.mirror, page.items);
            && (forall x :: x in s.rows && Mirrored(e.position, s.mirror, x) ==> Mirrored(e.position, mirror, x))
            && (forall x :: x in s.rows && LeavesBehind(e, s, page, x) ==> Mirrored(e.position, mirror, x))
            && (forall id :: id in mirror ==> mirror[id] in s.committed && e.position(mirror[id]).id == id)
  {
    var mirror := Store(e.position, s.mirror, page.items);
    forall id | id in mirror ensures mirror[id] in s.committed && e.position(mirror[id]).id == id {
      StoreMeaning(e.position, s.mirror, page.items, id);
    }
    forall x | x in s.rows
      ensures Mirrored(e.position, mirror, x) <==> x in page.items || Mirrored(e.position, s.mirror, x)
    {
      StoreMirrors(e.position, s.mirror, s.rows, page.items, x);
    }
  }

  /** A page that is not the last moves the session to its cursor. */
  lemma ReceiveMore<T>(e: Endpoint<T>, s: System<T>, page: SyncPage<T>)
    requires ValidEndpoint(e) && Inv(e, s) && s.request == Some(page.syncToken) && page.hasNext
    requires Place(e, page.nextCursor).Ok? && Place(e, page.nextCursor).value.Some?
             && KeyOf(Place(e, page.nextCursor).value.value).major <= s.horizon
    requires var mirror := Store(e.position, s.mirror, page.items);
             && (forall x :: x in s.rows && Mirrored(e.position, s.mirror, x) ==> Mirrored(e.position, mirror, x))
             && (forall x :: x in s.rows && LeavesBehind(e, s, page, x) ==> Mirrored(e.position, mirror, x))
             && (forall id :: id in mirror ==> mirror[id] in s.committed && e.position(mirror[id]).id == id)
    ensures Inv(e, Receive(e.position, s, page))
  {
    hide Store, Mirrored, WellFormed, Matches, Exact, Place, ValidEndpoint;
    var s' := Receive(e.position, s, page);
    assert s'.mirror == Store(e.position, s.mirror, page.items) && s'.rows == s.rows && s'.committed == s.committed;
    assert s'.cursor == page.nextCursor;
    forall id | id in s'.mirror ensures s'.mirror[id] in s'.committed && e.position(s'.mirror[id]).id == id {
      assert id in Store(e.position, s.mirror, page.items);
    }
    assert WellFormed(e.position, s'.rows) && Place(e, s'.cursor).Ok? && !s'.complete;
    forall x | x in s'.rows && !Matches(e.position, s'.since, Place(e, s'.cursor).value, x)
      ensures Mirrored(e.position, s'.mirror, x)
    {
      assert LeavesBehind(e, s, page, x);
    }
  }

  /** The last page leaves nothing behind, so its session's tokens become usable. */
  lemma ReceiveLast<T>(e: Endpoint<T>, s: System<T>, page: SyncPage<T>)
    requires ValidEndpoint(e) && Inv(e, s) && s.request == Some(page.syncToken) && !page.hasNext
    requires var mirror := Store(e.position, s.mirror, page.items);
             && (forall x :: x in s.rows ==> Mirrored(e.position, mirror, x))
             && (forall id :: id in mirror ==> mirror[id] in s.committed && e.position(mirror[id]).id == id)
    ensures Inv(e, Receive(e.position, s, page))
  {
    hide Store, Mirrored, WellFormed, Matches, Place, ValidEndpoint;
    var s' := Receive(e.position, s, page);
    assert s'.mirror == Store(e.position, s.mirror, page.items) && s'.rows == s.rows && s'.committed == s.committed;
    forall id | id in s'.mirror ensures s'.mirror[id] in s'.committed && e.position(s'.mirror[id]).id == id {
      assert id in Store(e.position, s.mirror, page.items);
    }
    assert WellFormed(e.position, s'.rows) && Place(e, s'.cursor).Ok? && Exact(e.position, s'.mirror, s'.rows);
    assert forall t :: t in s'.usable ==> t <= s'.horizon;
    assert forall t, x :: t in s'.usable && x in s'.rows && At(e.position, x) <= t
                          ==> Mirrored(e.position, s'.mirror, x);
  }

  lemma ReceiveKeepsInv<T>(e: Endpoint<T>, s: System<T>, page: SyncPage<T>)
    requires ValidEndpoint(e) && Inv(e, s) && s.request == Some(page.syncToken)
    requires page.hasNext ==> Place(e, page.nextCursor).Ok? && Place(e, page.nextCursor).value.Some?
                              && KeyOf(Place(e, page.nextCursor).value.value).major <= s.horizon
    requires forall x :: x in page.items ==> x in s.rows
    requires forall x :: x in s.rows && Matches(e.position, s.since, Place(e, s.cursor).value, x)
                         && LeavesBehind(e, s, page, x)
               ==> x in page.items
    ensures Inv(e, Receive(e.position, s, page))
  {
    PageMirrors(e, s, page);
    hide Store, Mirrored, Matches, Inv, Place;
    if page.hasNext {
      ReceiveMore(e, s, page);
    } else {
      ReceiveLast(e, s, page);
    }
  }

  lemma AnswerIsReceive<T>(e: Endpoint<T>, s: System<T>, size: int) returns (page: SyncPage<T>)
    requires ValidEndpoint(e) && Place(e, s.cursor).Ok? && s.request.Some?
    ensures page == Answered(e, s, size) && s.request == Some(page.syncToken)
    ensures Do(e, s, Answer(size)) == Receive(e.position, s, page)
  {
    page := Answered(e, s, size);
  }

  lemma AnsweredPage<T>(e: Endpoint<T>, s: System<T>, size: int) returns (page: SyncPage<T>)
    requires ValidEndpoint(e) && Inv(e, s) && s.request.Some?
    ensures Do(e, s, Answer(size)) == Receive(e.position, s, page) && s.request == Some(page.syncToken)
    ensures page.hasNext ==> Place(e, page.nextCursor).Ok? && Place(e, page.nextCursor).value.Some?
                             && KeyOf(Place(e, page.nextCursor).value.value).major <= s.horizon
    ensures forall x :: x in page.items ==> x in s.rows
    ensures forall x :: x in s.rows && Matches(e.position, s.since, Place(e, s.cursor).value, x)
                        && LeavesBehind(e, s, page, x)
              ==> x in page.items
  {
    page := AnswerIsReceive(e, s, size);
    forall x | x in page.items ensures x in s.rows {
      PageItems(e, s, size, x);
    }
    forall x | x in s.rows && Matches(e.position, s.since, Place(e, s.cursor).value, x) && LeavesBehind(e, s, page, x)
      ensures x in page.items
    {
      PageCovers(e, s, size, x);
    }
    if page.hasNext {
      var last := PageCursor(e, s, size);
      assert At(e.position, last) <= s.horizon;
    }
  }

  lemma AnswerKeepsInv<T>(e: Endpoint<T>, s: System<T>, size: int)
    requires ValidEndpoint(e) && Inv(e, s) && s.request.Some?
    ensures Inv(e, Do(e, s, Answer(size)))
  {
    var page := AnsweredPage(e, s, size);
    ReceiveKeepsInv(e, s, page);
  }

  lemma InFirstPart<T>(position: T -> SyncCursor, rows: seq<T>, since: Option<int>, after: Option<SyncCursor>, k: nat,
                       x: T)
    requires DistinctIds(SortKey(position), rows)
    requires 0 < k <= |Pending(position, rows, since, after)| && x in Pending(position, rows, since, after)
    requires !Past(position, position(Pending(position, rows, since, after)[k - 1]))(x)
    ensures x in Pending(position, rows, since, after)[..k]
  {
    var pending := Pending(position, rows, since, after);
    PendingStrict(position, rows, since, after);
    assert forall j :: k <= j < |pending| ==> Less(SortKey(position)(pending[k - 1]), SortKey(position)(pending[j]));
    var j :| 0 <= j < |pending| && pending[j] == x;
    assert j < k;
    assert x == pending[..k][j];
  }

  lemma CommitKeepsInv<T>(e: Endpoint<T>, s: System<T>, rows: seq<T>, horizon: int)
    requires ValidEndpoint(e) && Inv(e, s) && Can(e.position, s, Commit(rows, horizon))
    ensures Inv(e, Do(e, s, Commit(rows, horizon)))
  {
  }

  lemma StartKeepsInv<T>(e: Endpoint<T>, s: System<T>, since: Option<int>)
    requires ValidEndpoint(e) && Inv(e, s) && Can(e.position, s, Start(since))
    ensures Inv(e, Do(e, s, Start(since)))
  {
  }

  lemma RequestKeepsInv<T>(e: Endpoint<T>, s: System<T>, now: int)
    requires ValidEndpoint(e) && Inv(e, s) && Can(e.position, s, Request(now))
    ensures Inv(e, Do(e, s, Request(now)))
  {
  }

  lemma LoseKeepsInv<T>(e: Endpoint<T>, s: System<T>)
    requires ValidEndpoint(e) && Inv(e, s) && s.request.Some?
    ensures Inv(e, Do(e, s, Lose))
  {
  }

  lemma StepKeepsInv<T>(e: Endpoint<T>, s: System<T>, a: Action<T>)
    requires ValidEndpoint(e) && Inv(e, s) && Can(e.position, s, a)
    ensures Inv(e, Do(e, s, a))
  {
    hide Inv, Do;
    match a {
      case Commit(rows, horizon) => CommitKeepsInv(e, s, rows, horizon);
      case Answer(size) => AnswerKeepsInv(e, s, size);
      case Start(since) => StartKeepsInv(e, s, since);
      case Request(now) => RequestKeepsInv(e, s, now);
      case Lose => LoseKeepsInv(e, s);
    }
  }

  // ---- Runs ----

  /** Where a run of actions leads; None if some action could not happen when its turn came. */
  ghost function Run<T>(e: Endpoint<T>, s: System<T>, actions: seq<Action<T>>): Option<System<T>>
    requires ValidEndpoint(e)
    decreases |actions|
  {
    if actions == [] then Some(s)
    else
      var before := Run(e, s, actions[..|actions| - 1]);
      var a := actions[|actions| - 1];
      if before.Some? && Can(e.position, before.value, a)
      then Some(Do(e, before.value, a)) else None
  }

  lemma {:induction false} RunKeepsInv<T>(e: Endpoint<T>, s: System<T>, actions: seq<Action<T>>)
    requires ValidEndpoint(e) && Initial(e.position, s) && Run(e, s, actions).Some?
    ensures Inv(e, Run(e, s, actions).value)
    decreases |actions|
  {
    if actions != [] {
      var init := actions[..|actions| - 1];
      RunKeepsInv(e, s, init);
      StepKeepsInv(e, Run(e, s, init).value, actions[|actions| - 1]);
    }
  }

  /** Whichever token a session was given, once it is complete the next session may start with it. */
  lemma NextSessionMayStart<T>(e: Endpoint<T>, s: System<T>, actions: seq<Action<T>>, size: int, token: int)
    requires ValidEndpoint(e) && Initial(e.position, s) && Run(e, s, actions).Some?
    requires var now := Run(e, s, actions).value;
             && now.request.Some? && Do(e, now, Answer(size)).complete
             && (token in now.tokens || Some(token) == now.request)
    ensures Can(e.position, Do(e, Run(e, s, actions).value, Answer(size)), Start(Some(token)))
  {
    hide Inv, Serve, Run;
    RunKeepsInv(e, s, actions);
    PlaceOfInv(e, Run(e, s, actions).value);
    var page := AnswerIsReceive(e, Run(e, s, actions).value, size);
  }

  lemma PlaceOfInv<T>(e: Endpoint<T>, s: System<T>)
    requires Inv(e, s)
    ensures Place(e, s.cursor).Ok?
  {
  }

  /**
   * After any number of sessions, abandoned ones and lost answers included, with
   * any transactions between the steps: whenever a session reaches hasNext =
   * false, the mirror holds the current version of every live row, and whatever
   * else it holds was once committed under the id it is filed by.
   */
  lemma EverySessionEndsExact<T>(e: Endpoint<T>, s: System<T>, actions: seq<Action<T>>)
    requires ValidEndpoint(e) && Initial(e.position, s) && Run(e, s, actions).Some?
    ensures var end := Run(e, s, actions).value;
            && (end.complete ==> Exact(e.position, end.mirror, end.rows))
            && forall id :: id in end.mirror ==> end.mirror[id] in end.committed && e.position(end.mirror[id]).id == id
  {
    RunKeepsInv(e, s, actions);
  }

  /**
   * At every moment of a walk, whatever has been committed meanwhile, each live
   * row at or below the cursor has been delivered at its current version.
   */
  lemma BehindTheCursorIsMirrored<T>(e: Endpoint<T>, s: System<T>, actions: seq<Action<T>>, x: T)
    requires ValidEndpoint(e) && Initial(e.position, s) && Run(e, s, actions).Some?
    requires var now := Run(e, s, actions).value;
             && x in now.rows && Place(e, now.cursor).Ok? && Place(e, now.cursor).value.Some?
             && !Less(KeyOf(Place(e, now.cursor).value.value), KeyOf(e.position(x)))
    ensures var now := Run(e, s, actions).value;
            Mirrored(e.position, now.mirror, x)
  {
    RunKeepsInv(e, s, actions);
  }

  // ---- What happens without the clock assumption ----

  /**
   * A table changes to rows in any way at all after a session that ended exact,
   * and the next session polls with that session's token.  The mirror is exact
   * again if and only if every row it did not hold already is newer than the token.
   */
  lemma ExactAgainIff<T>(e: Endpoint<T>, mirror: map<int, T>, rows: seq<T>, size: int, token: int, now: nat -> int)
    requires ValidEndpoint(e) && WellFormed(e.position, rows)
    ensures Moves(e, FeedOf(e.position, rows, Some(token)))
    ensures var pages := Walk(e, FeedOf(e.position, rows, Some(token)), size, "", now, 0);
            Exact(e.position, Store(e.position, mirror, Items(pages)), rows) <==>
              forall x :: x in rows && !Mirrored(e.position, mirror, x) ==> At(e.position, x) > token
  {
    FeedMoves(e, rows, Some(token));
    WalkDeliversFeed(e, FeedOf(e.position, rows, Some(token)), size, "", now, 0);
    var items := Pending(e.position, rows, Some(token), None);
    forall x | x in items || x in rows ensures x in items <==> x in rows && At(e.position, x) > token {
      PendingMembers(e.position, rows, Some(token), None, x);
    }
    StoreNewer(e.position, mirror, rows, items, token);
  }

  lemma StoreNewer<T>(position: T -> SyncCursor, mirror: map<int, T>, rows: seq<T>, items: seq<T>, token: int)
    requires DistinctIds(SortKey(position), rows)
    requires forall x :: x in items || x in rows ==> (x in items <==> x in rows && At(position, x) > token)
    ensures Exact(position, Store(position, mirror, items), rows) <==>
              forall x :: x in rows && !Mirrored(position, mirror, x) ==> At(position, x) > token
  {
    forall x | x in rows
      ensures Mirrored(position, Store(position, mirror, items), x)
              <==> At(position, x) > token || Mirrored(position, mirror, x)
    {
      StoreMirrors(position, mirror, rows, items, x);
    }
  }
}
