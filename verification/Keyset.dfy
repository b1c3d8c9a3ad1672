/**
 * Keyset pagination: one page is the first k rows past a cursor, in
 * (updated_at, id) order, and following the cursors walks the whole result.
 * Rows are of any type; position gives a row's (updated_at, id).
 */
module Keyset {
  import opened Wrappers
  import opened Sql
  import opened Cursor
  import Timestamps

  // ---- The query ----

  function KeyOf(c: SyncCursor): Key {
    Key(Timestamps.Instant(c.updatedAt), c.id)
  }

  function SortKey<T>(position: T -> SyncCursor): T -> Key {
    x => KeyOf(position(x))
  }

  /** updated_at > since. */
  function Newer<T>(position: T -> SyncCursor, since: int): T -> bool {
    x => Timestamps.Instant(position(x).updatedAt) > since
  }

  /** updated_at > c.updatedAt OR (updated_at = c.updatedAt AND id > c.id). */
  function Past<T>(position: T -> SyncCursor, c: SyncCursor): T -> bool {
    x => Less(KeyOf(c), KeyOf(position(x)))
  }

  function Conditions<T>(position: T -> SyncCursor, since: Option<int>, after: Option<SyncCursor>): seq<T -> bool> {
    (if since.Some? then [Newer(position, since.value)] else [])
    + (if after.Some? then [Past(position, after.value)] else [])
  }

  /** Everything still to be delivered, in delivery order. */
  function Pending<T>(position: T -> SyncCursor, rows: seq<T>, since: Option<int>, after: Option<SyncCursor>): seq<T> {
    OrderBy(SortKey(position), FilterAll(Conditions(position, since, after), rows))
  }

  ghost predicate Matches<T>(position: T -> SyncCursor, since: Option<int>, after: Option<SyncCursor>, x: T) {
    && (since.Some? ==> Newer(position, since.value)(x))
    && (after.Some? ==> Past(position, after.value)(x))
  }

  lemma FilterAllConditions<T>(position: T -> SyncCursor, rows: seq<T>, since: Option<int>, after: Option<SyncCursor>)
    ensures FilterAll(Conditions(position, since, after), rows) ==
            var newer := if since.Some? then Filter(Newer(position, since.value), rows) else rows;
            if after.Some? then Filter(Past(position, after.value), newer) else newer
  {
    var first := if since.Some? then [Newer(position, since.value)] else [];
    var newer := if since.Some? then Filter(Newer(position, since.value), rows) else rows;
    assert FilterAll(first, rows) == newer by {
      assert since.Some? ==> first[..0] == [];
    }
    var conds := Conditions(position, since, after);
    if after.Some? {
      assert conds[..|conds| - 1] == first;
    } else {
      assert conds == first;
    }
  }

  lemma PendingMembers<T>(position: T -> SyncCursor, rows: seq<T>, since: Option<int>, after: Option<SyncCursor>, x: T)
    ensures x in Pending(position, rows, since, after) <==> x in rows && Matches(position, since, after, x)
  {
    FilterAllConditions(position, rows, since, after);
    var newer := if since.Some? then Filter(Newer(position, since.value), rows) else rows;
    if since.Some? {
      FilterMembers(Newer(position, since.value), rows, x);
    }
    if after.Some? {
      FilterMembers(Past(position, after.value), newer, x);
    }
    OrderByMembers(SortKey(position), FilterAll(Conditions(position, since, after), rows), x);
  }

  lemma PendingStrict<T>(position: T -> SyncCursor, rows: seq<T>, since: Option<int>, after: Option<SyncCursor>)
    requires DistinctIds(SortKey(position), rows)
    ensures StrictlySorted(SortKey(position), Pending(position, rows, since, after))
  {
    FilterAllConditions(position, rows, since, after);
    var newer := if since.Some? then Filter(Newer(position, since.value), rows) else rows;
    if since.Some? {
      FilterDistinct(SortKey(position), Newer(position, since.value), rows);
    }
    if after.Some? {
      FilterDistinct(SortKey(position), Past(position, after.value), newer);
    }
    OrderByStrict(SortKey(position), FilterAll(Conditions(position, since, after), rows));
  }

  // ---- Moving the cursor ----

  /** How many rows of s the cursor has left behind. */
  ghost function Rank<T>(position: T -> SyncCursor, c: SyncCursor, s: seq<T>): (i: nat)
    ensures i <= |s|
    ensures forall m :: 0 <= m < i ==> !Past(position, c)(s[m])
    ensures i < |s| ==> Past(position, c)(s[i])
  {
    if s == [] || Past(position, c)(s[0]) then 0 else 1 + Rank(position, c, s[1..])
  }

  lemma {:induction false} PastIsSuffix<T>(position: T -> SyncCursor, c: SyncCursor, s: seq<T>)
    requires StrictlySorted(SortKey(position), s)
    ensures Filter(Past(position, c), s) == s[Rank(position, c, s)..]
  {
    if s == [] {
    } else if Past(position, c)(s[0]) {
      forall x | x in s ensures Past(position, c)(x) {
        var i :| 0 <= i < |s| && s[i] == x;
        assert i > 0 ==> Less(SortKey(position)(s[0]), SortKey(position)(s[i]));
      }
      FilterAllOf(Past(position, c), s);
    } else {
      PastIsSuffix(position, c, s[1..]);
    }
  }

  lemma RankOfRow<T>(position: T -> SyncCursor, s: seq<T>, j: nat)
    requires StrictlySorted(SortKey(position), s) && j < |s|
    ensures Rank(position, position(s[j]), s) == j + 1
  {
  }

  lemma PendingAfter<T>(position: T -> SyncCursor, rows: seq<T>, since: Option<int>, c: SyncCursor)
    requires DistinctIds(SortKey(position), rows)
    ensures var all := Pending(position, rows, since, None);
            Pending(position, rows, since, Some(c)) == all[Rank(position, c, all)..]
  {
    FilterAllConditions(position, rows, since, None);
    FilterAllConditions(position, rows, since, Some(c));
    FilterOrderBy(SortKey(position), Past(position, c), FilterAll(Conditions(position, since, None), rows));
    PendingStrict(position, rows, since, None);
    PastIsSuffix(position, c, Pending(position, rows, since, None));
  }

  lemma PendingIsSuffix<T>(position: T -> SyncCursor, rows: seq<T>, since: Option<int>, after: Option<SyncCursor>)
    returns (all: seq<T>, i: nat)
    requires DistinctIds(SortKey(position), rows)
    ensures StrictlySorted(SortKey(position), all) && i <= |all|
    ensures Pending(position, rows, since, after) == all[i..]
    ensures forall j :: 0 <= j < |all| ==> Pending(position, rows, since, Some(position(all[j]))) == all[j + 1..]
  {
    all := Pending(position, rows, since, None);
    PendingStrict(position, rows, since, None);
    i := 0;
    if after.Some? {
      PendingAfter(position, rows, since, after.value);
      i := Rank(position, after.value, all);
    }
    forall j | 0 <= j < |all| ensures Pending(position, rows, since, Some(position(all[j]))) == all[j + 1..] {
      PendingAfter(position, rows, since, position(all[j]));
      RankOfRow(position, all, j);
    }
  }

  /** Taking the k-th pending row as the next cursor leaves exactly the rows behind it. */
  lemma Advance<T>(position: T -> SyncCursor, rows: seq<T>, since: Option<int>, after: Option<SyncCursor>, k: nat)
    requires DistinctIds(SortKey(position), rows)
    requires 0 < k <= |Pending(position, rows, since, after)|
    ensures var pending := Pending(position, rows, since, after);
            Pending(position, rows, since, Some(position(pending[k - 1]))) == pending[k..]
  {
    var all, i := PendingIsSuffix(position, rows, since, after);
    assert all[i..][k - 1] == all[i + k - 1];
    assert all[i..][k..] == all[(i + k - 1) + 1..];
  }

  // ---- One request ----

  /** How one endpoint places its rows, spells its cursors and bounds its pages. */
  datatype Endpoint<!T> = Endpoint(position: T -> SyncCursor,
                                   encode: SyncCursor -> string,
                                   decode: string -> Result<SyncCursor, CursorError>,
                                   defaultSize: int, maxSize: int)

  datatype SyncQuery = SyncQuery(pageSize: int, cursor: string, updatedSince: Option<int>)

  datatype SyncPage<T> = SyncPage(items: seq<T>, pageSize: int, nextCursor: string, hasNext: bool, syncToken: int)

  /** A position a cursor can carry. */
  predicate Carries(c: SyncCursor) {
    && Timestamps.Marshalable(c.updatedAt) && Timestamps.WholeMinutes(c.updatedAt)
    && !Timestamps.IsZero(c.updatedAt)
  }

  ghost predicate ValidEndpoint<T>(e: Endpoint<T>) {
    && 1 <= e.defaultSize <= e.maxSize
    && forall c :: (e.encode(c) == "" <==> !Timestamps.Marshalable(c.updatedAt))
                   && (e.decode(e.encode(c)) == Ok(c) <==> Carries(c))
  }

  function Clamp<T>(e: Endpoint<T>, size: int): int {
    var k := if size <= 0 then e.defaultSize else size;
    if k > e.maxSize then e.maxSize else k
  }

  /** A size within bounds is kept, a missing one is the default, and a larger one the maximum. */
  lemma ClampMeans<T>(e: Endpoint<T>, size: int)
    requires 1 <= e.defaultSize <= e.maxSize
    ensures size <= 0 ==> Clamp(e, size) == e.defaultSize
    ensures 1 <= size <= e.maxSize ==> Clamp(e, size) == size
    ensures size > e.maxSize ==> Clamp(e, size) == e.maxSize
  {
  }

  /** Where a raw cursor points; the empty string is the start. */
  function Place<T>(e: Endpoint<T>, cursor: string): Result<Option<SyncCursor>, CursorError> {
    if cursor == "" then Ok(None)
    else match e.decode(cursor)
      case Ok(c) => Ok(Some(c))
      case Err(error) => Err(error)
  }

  /** The rows still to be delivered, as they depend on the place reached. */
  type Feed<T> = Option<SyncCursor> -> seq<T>

  function FeedOf<T>(position: T -> SyncCursor, rows: seq<T>, since: Option<int>): Feed<T> {
    after => Pending(position, rows, since, after)
  }

  /** The first k of the pending rows. */
  function Cut<T>(pending: seq<T>, k: nat): seq<T> {
    if |pending| > k then pending[..k] else pending
  }

  /** The page that starts these pending rows. */
  function PageOf<T>(e: Endpoint<T>, pending: seq<T>, size: int, now: int): SyncPage<T>
    requires 1 <= e.defaultSize <= e.maxSize
  {
    var k := Clamp(e, size);
    var hasNext := |pending| > k;
    SyncPage(Cut(pending, k), k, if hasNext then e.encode(e.position(pending[k - 1])) else "", hasNext, now)
  }

  function ServeFeed<T>(e: Endpoint<T>, feed: Feed<T>, size: int, cursor: string, now: int)
    : Result<SyncPage<T>, CursorError>
    requires 1 <= e.defaultSize <= e.maxSize
  {
    match Place(e, cursor)
    case Err(error) => Err(error)
    case Ok(after) => Ok(PageOf(e, feed(after), size, now))
  }

  /** What a request is answered with. */
  function Serve<T>(e: Endpoint<T>, rows: seq<T>, q: SyncQuery, now: int): Result<SyncPage<T>, CursorError>
    requires 1 <= e.defaultSize <= e.maxSize
  {
    ServeFeed(e, FeedOf(e.position, rows, q.updatedSince), q.pageSize, q.cursor, now)
  }

  /** Rows with distinct ids whose positions a cursor can carry. */
  ghost predicate WellFormed<T>(position: T -> SyncCursor, rows: seq<T>) {
    DistinctIds(SortKey(position), rows) && forall x :: x in rows ==> Carries(position(x))
  }

  /**
   * For every page size a caller passes: hasNext tells whether a row remains; a page
   * that promises more is full and ends strictly past the cursor it was asked for;
   * and its next cursor is usable exactly when a cursor can carry its last timestamp.
   */
  lemma PageBoundary<T>(e: Endpoint<T>, rows: seq<T>, q: SyncQuery, now: int)
    requires ValidEndpoint(e) && DistinctIds(SortKey(e.position), rows)
    requires Place(e, q.cursor).Ok?
    ensures var after := Place(e, q.cursor).value;
            var page := Serve(e, rows, q, now).value;
            && |page.items| <= e.maxSize
            && (page.hasNext
                <==> exists x :: x in rows && Matches(e.position, q.updatedSince, after, x) && x !in page.items)
            && (page.hasNext ==>
                  var last := e.position(page.items[|page.items| - 1]);
                  && |page.items| == Clamp(e, q.pageSize) >= 1
                  && (after.Some? ==> Less(KeyOf(after.value), KeyOf(last)))
                  && (page.nextCursor != "" <==> Timestamps.Marshalable(last.updatedAt))
                  && (e.decode(page.nextCursor) == Ok(last) <==> Carries(last)))
            && (!page.hasNext ==> page.nextCursor == "")
  {
    hide Pending, Serve, Matches, SortKey, DistinctIds, KeyOf, ValidEndpoint, PageOf, Cut, Less, Carries;
    var after := Place(e, q.cursor).value;
    var k := Clamp(e, q.pageSize);
    PageServed(e, rows, q, now);
    PageOfPending(e, Pending(e.position, rows, q.updatedSince, after), q.pageSize, now);
    RowRemainsIff(e.position, rows, q.updatedSince, after, k);
    if |Pending(e.position, rows, q.updatedSince, after)| > k && after.Some? {
      PendingIsPast(e.position, rows, q.updatedSince, after, k - 1);
    }
  }

  /** Size, last row and next cursor of a page, by how many rows are pending. */
  lemma PageOfPending<T>(e: Endpoint<T>, pending: seq<T>, size: int, now: int)
    requires ValidEndpoint(e)
    ensures var page := PageOf(e, pending, size, now);
            var k := Clamp(e, size);
            && 1 <= k && |page.items| <= e.maxSize && page.items == Cut(pending, k) && (page.hasNext <==> |pending| > k)
            && (page.hasNext ==>
                  var last := e.position(pending[k - 1]);
                  && |page.items| == k && page.items[k - 1] == pending[k - 1]
                  && (page.nextCursor != "" <==> Timestamps.Marshalable(last.updatedAt))
                  && (e.decode(page.nextCursor) == Ok(last) <==> Carries(last)))
            && (!page.hasNext ==> page.nextCursor == "")
  {
  }

  lemma PageServed<T>(e: Endpoint<T>, rows: seq<T>, q: SyncQuery, now: int)
    requires ValidEndpoint(e) && Place(e, q.cursor).Ok?
    ensures Serve(e, rows, q, now)
            == Ok(PageOf(e, Pending(e.position, rows, q.updatedSince, Place(e, q.cursor).value), q.pageSize, now))
  {
  }

  /** More than k rows are pending exactly when a matching row is not among the first k. */
  lemma RowRemainsIff<T>(position: T -> SyncCursor, rows: seq<T>, since: Option<int>, after: Option<SyncCursor>, k: nat)
    requires DistinctIds(SortKey(position), rows)
    ensures var pending := Pending(position, rows, since, after);
            |pending| > k <==> exists x :: x in rows && Matches(position, since, after, x) && x !in Cut(pending, k)
  {
    var pending := Pending(position, rows, since, after);
    hide Pending, Matches;
    if |pending| > k {
      NotYetDelivered(position, rows, since, after, k);
    } else {
      forall x | x in rows && Matches(position, since, after, x) ensures x in pending {
        PendingMembers(position, rows, since, after, x);
      }
    }
  }

  lemma PendingIsPast<T>(position: T -> SyncCursor, rows: seq<T>, since: Option<int>, after: Option<SyncCursor>, i: nat)
    requires i < |Pending(position, rows, since, after)| && after.Some?
    ensures Less(KeyOf(after.value), KeyOf(position(Pending(position, rows, since, after)[i])))
  {
    PendingMembers(position, rows, since, after, Pending(position, rows, since, after)[i]);
  }

  lemma NotYetDelivered<T>(position: T -> SyncCursor, rows: seq<T>, since: Option<int>, after: Option<SyncCursor>,
                           k: nat)
    requires DistinctIds(SortKey(position), rows)
    requires k < |Pending(position, rows, since, after)|
    ensures var pending := Pending(position, rows, since, after);
            pending[k] in rows && Matches(position, since, after, pending[k]) && pending[k] !in pending[..k]
  {
    var pending := Pending(position, rows, since, after);
    PendingMembers(position, rows, since, after, pending[k]);
    PendingStrict(position, rows, since, after);
    forall m | 0 <= m < k ensures pending[m] != pending[k] {
      assert Less(SortKey(position)(pending[m]), SortKey(position)(pending[k]));
    }
  }

  // ---- A walk over an unchanging table ----

  /** From any place, taking any pending row's position as the next place leaves exactly the rows behind that row. */
  ghost predicate Moves<T>(e: Endpoint<T>, feed: Feed<T>) {
    forall after, j :: 0 <= j < |feed(after)| ==>
      var c := e.position(feed(after)[j]);
      Carries(c) && feed(Some(c)) == feed(after)[j + 1..]
  }

  lemma FeedMoves<T>(e: Endpoint<T>, rows: seq<T>, since: Option<int>)
    requires WellFormed(e.position, rows)
    ensures Moves(e, FeedOf(e.position, rows, since))
  {
    forall after, j | 0 <= j < |Pending(e.position, rows, since, after)|
      ensures var x := Pending(e.position, rows, since, after)[j];
              Carries(e.position(x))
              && Pending(e.position, rows, since, Some(e.position(x)))
                == Pending(e.position, rows, since, after)[j + 1..]
    {
      PendingMembers(e.position, rows, since, after, Pending(e.position, rows, since, after)[j]);
      Advance(e.position, rows, since, after, j + 1);
    }
  }

  lemma CursorMoves<T>(e: Endpoint<T>, feed: Feed<T>, size: int, cursor: string, now: int)
    requires ValidEndpoint(e) && Moves(e, feed) && Place(e, cursor).Ok?
    requires ServeFeed(e, feed, size, cursor, now).value.hasNext
    ensures var page := ServeFeed(e, feed, size, cursor, now).value;
            var pending := feed(Place(e, cursor).value);
            var k := Clamp(e, size);
            && 0 < k < |pending| && page.items == pending[..k]
            && Place(e, page.nextCursor) == Ok(Some(e.position(pending[k - 1])))
            && feed(Place(e, page.nextCursor).value) == pending[k..]
  {
  }

  /** The pages a caller receives who follows nextCursor until hasNext is false. */
  ghost function Walk<T>(e: Endpoint<T>, feed: Feed<T>, size: int, cursor: string, now: nat -> int,
                         n: nat): seq<SyncPage<T>>
    requires ValidEndpoint(e) && Moves(e, feed) && Place(e, cursor).Ok?
    decreases |feed(Place(e, cursor).value)|
  {
    var page := ServeFeed(e, feed, size, cursor, now(n)).value;
    if page.hasNext then
      CursorMoves(e, feed, size, cursor, now(n));
      [page] + Walk(e, feed, size, page.nextCursor, now, n + 1)
    else [page]
  }

  function Items<T>(pages: seq<SyncPage<T>>): seq<T> {
    if pages == [] then [] else pages[0].items + Items(pages[1..])
  }

  lemma ItemsOf<T>(page: SyncPage<T>, rest: seq<SyncPage<T>>)
    ensures Items([page] + rest) == page.items + Items(rest)
  {
  }

  /** pages is max(1, ceil(n / k)). */
  ghost predicate IsPageCount(pages: int, n: int, k: int) {
    pages >= 1 && n <= pages * k && (pages > 1 ==> (pages - 1) * k < n)
  }

  lemma PageCountStep(pages: int, n: int, k: int)
    requires 0 < k < n && IsPageCount(pages, n - k, k)
    ensures IsPageCount(pages + 1, n, k)
  {
  }

  lemma {:induction false} WalkDeliversFeed<T>(e: Endpoint<T>, feed: Feed<T>, size: int, cursor: string,
                                               now: nat -> int, n: nat)
    requires ValidEndpoint(e) && Moves(e, feed) && Place(e, cursor).Ok?
    ensures Items(Walk(e, feed, size, cursor, now, n)) == feed(Place(e, cursor).value)
    ensures IsPageCount(|Walk(e, feed, size, cursor, now, n)|, |feed(Place(e, cursor).value)|, Clamp(e, size))
    decreases |feed(Place(e, cursor).value)|
  {
    var page := ServeFeed(e, feed, size, cursor, now(n)).value;
    var pending := feed(Place(e, cursor).value);
    if page.hasNext {
      CursorMoves(e, feed, size, cursor, now(n));
      var rest := Walk(e, feed, size, page.nextCursor, now, n + 1);
      WalkDeliversFeed(e, feed, size, page.nextCursor, now, n + 1);
      ItemsOf(page, rest);
      PageCountStep(|rest|, |pending|, Clamp(e, size));
      assert pending == pending[..Clamp(e, size)] + pending[Clamp(e, size)..];
    } else {
      ItemsOf(page, []);
    }
  }

  /** Everything a session asks for: the rows newer than its filter. */
  function Wanted<T>(position: T -> SyncCursor, rows: seq<T>, since: Option<int>): seq<T> {
    if since.Some? then Filter(Newer(position, since.value), rows) else rows
  }

  /**
   * Following nextCursor from the empty cursor over an unchanging table stops
   * after max(1, ceil(n/k)) pages, and the pages together are the rows newer than
   * updatedSince, each exactly once, in (updated_at, id) order, ties included.
   */
  lemma StaticWalk<T>(e: Endpoint<T>, rows: seq<T>, since: Option<int>, size: int, now: nat -> int)
    requires ValidEndpoint(e) && WellFormed(e.position, rows)
    ensures Moves(e, FeedOf(e.position, rows, since))
    ensures var wanted := Wanted(e.position, rows, since);
            var pages := Walk(e, FeedOf(e.position, rows, since), size, "", now, 0);
            && multiset(Items(pages)) == multiset(wanted)
            && StrictlySorted(SortKey(e.position), Items(pages))
            && IsPageCount(|pages|, |wanted|, Clamp(e, size))
  {
    FeedMoves(e, rows, since);
    WalkDeliversFeed(e, FeedOf(e.position, rows, since), size, "", now, 0);
    PendingStrict(e.position, rows, since, None);
    PendingIsWanted(e.position, rows, since);
  }

  lemma PendingIsWanted<T>(position: T -> SyncCursor, rows: seq<T>, since: Option<int>)
    ensures multiset(Pending(position, rows, since, None)) == multiset(Wanted(position, rows, since))
    ensures |Pending(position, rows, since, None)| == |Wanted(position, rows, since)|
  {
    FilterAllConditions(position, rows, since, None);
    OrderBySorts(SortKey(position), Wanted(position, rows, since));
    assert |multiset(Pending(position, rows, since, None))| == |multiset(Wanted(position, rows, since))|;
  }

  /** How an endpoint answers a request at a moment of the clock. */
  type Answering<!T> = (SyncQuery, int) -> Result<SyncPage<T>, CursorError>

  /**
   * A caller's session: it asks from this cursor on, and for as long as an answer has
   * hasNext it asks again with that answer's nextCursor.  n counts the requests before.
   */
  ghost predicate Session<T>(answer: Answering<T>, size: int, since: Option<int>, cursor: string, now: nat -> int,
                             n: nat, pages: seq<SyncPage<T>>)
    decreases |pages|
  {
    && pages != [] && answer(SyncQuery(size, cursor, since), now(n)) == Ok(pages[0])
    && if pages[0].hasNext then Session(answer, size, since, pages[0].nextCursor, now, n + 1, pages[1..])
       else |pages| == 1
  }

  function Serving<T>(e: Endpoint<T>, rows: seq<T>): Answering<T>
    requires 1 <= e.defaultSize <= e.maxSize
  {
    (q: SyncQuery, now: int) => Serve(e, rows, q, now)
  }

  /** The sessions over an unchanging table are its walks. */
  lemma {:induction false} SessionIffWalk<T>(e: Endpoint<T>, rows: seq<T>, since: Option<int>, size: int,
                                             cursor: string, now: nat -> int, n: nat, pages: seq<SyncPage<T>>)
    requires ValidEndpoint(e) && WellFormed(e.position, rows) && Place(e, cursor).Ok?
    ensures Moves(e, FeedOf(e.position, rows, since))
    ensures Session(Serving(e, rows), size, since, cursor, now, n, pages)
            <==> pages == Walk(e, FeedOf(e.position, rows, since), size, cursor, now, n)
    decreases |FeedOf(e.position, rows, since)(Place(e, cursor).value)|
  {
    hide Pending, WellFormed, Carries;
    FeedMoves(e, rows, since);
    var feed := FeedOf(e.position, rows, since);
    var page := ServeFeed(e, feed, size, cursor, now(n)).value;
    assert Serving(e, rows)(SyncQuery(size, cursor, since), now(n)) == Ok(page);
    if page.hasNext {
      CursorMoves(e, feed, size, cursor, now(n));
      if pages != [] {
        SessionIffWalk(e, rows, since, size, page.nextCursor, now, n + 1, pages[1..]);
      }
      var rest := Walk(e, feed, size, page.nextCursor, now, n + 1);
      assert ([page] + rest)[1..] == rest;
      assert pages != [] ==> pages == [pages[0]] + pages[1..];
    }
  }

  /** Every page of a walk but the last is full, and each carries its size and the time it was asked at. */
  lemma {:induction false} WalkPages<T>(e: Endpoint<T>, feed: Feed<T>, size: int, cursor: string, now: nat -> int,
                                        n: nat, i: nat)
    requires ValidEndpoint(e) && Moves(e, feed) && Place(e, cursor).Ok?
    requires i < |Walk(e, feed, size, cursor, now, n)|
    ensures var pages := Walk(e, feed, size, cursor, now, n);
            && pages[i].pageSize == Clamp(e, size) && pages[i].syncToken == now(n + i)
            && (if i < |pages| - 1 then |pages[i].items| == Clamp(e, size) else |pages[i].items| <= Clamp(e, size))
    decreases i
  {
    hide ServeFeed, Moves, Clamp;
    ServedPage(e, feed, size, cursor, now(n));
    var page := ServeFeed(e, feed, size, cursor, now(n)).value;
    if page.hasNext {
      CursorMoves(e, feed, size, cursor, now(n));
      if i > 0 {
        WalkPages(e, feed, size, page.nextCursor, now, n + 1, i - 1);
      }
    }
  }

  lemma ServedPage<T>(e: Endpoint<T>, feed: Feed<T>, size: int, cursor: string, now: int)
    requires ValidEndpoint(e) && Place(e, cursor).Ok?
    ensures ServeFeed(e, feed, size, cursor, now).Ok?
    ensures var page := ServeFeed(e, feed, size, cursor, now).value;
            && page.pageSize == Clamp(e, size) && page.syncToken == now && |page.items| <= Clamp(e, size)
            && (page.hasNext ==> |page.items| == Clamp(e, size))
  {
  }

  /**
   * A caller who reads only the first page, without filter or cursor, sees the
   * whole table exactly when it holds no more rows than one page.
   */
  lemma FirstPageIsAllIff<T>(e: Endpoint<T>, rows: seq<T>, size: int, now: int)
    requires ValidEndpoint(e) && DistinctIds(SortKey(e.position), rows)
    ensures var page := Serve(e, rows, SyncQuery(size, "", None), now).value;
            (forall x :: x in rows ==> x in page.items) <==> |rows| <= Clamp(e, size)
  {
    PendingIsWanted(e.position, rows, None);
    var pending := Pending(e.position, rows, None, None);
    if |pending| > Clamp(e, size) {
      NotYetDelivered(e.position, rows, None, None, Clamp(e, size));
    } else {
      forall x | x in rows ensures x in pending {
        PendingMembers(e.position, rows, None, None, x);
      }
    }
  }
}
