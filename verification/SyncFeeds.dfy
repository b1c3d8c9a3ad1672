/**
 * What a caller of the two sync endpoints receives who follows their cursors, said
 * row by row and without the queries.
 */
module SyncFeeds {
  import opened Wrappers
  import opened Timestamps
  import opened Sql
  import opened Cursor
  import opened CatalogDomain
  import opened Keyset
  import opened CatalogService
  import Hydration

  /**
   * A cursor can carry it: its year has four digits, its offset is whole minutes within
   * a day, and it is not the first instant of the year 1.
   */
  predicate Usable(t: Time) {
    && 0 <= t.year <= 9999 && -86400 < t.offset < 86400 && t.offset % 60 == 0
    && Instant(t) != Instant(Timestamp(1, 1, 1, 0, 0, 0, 0, 0))
  }

  predicate InOrder(a: Time, aId: int, b: Time, bId: int) {
    Instant(a) < Instant(b) || (Instant(a) == Instant(b) && aId < bId)
  }

  /** The row is newer than the filter, if there is one. */
  predicate Passes(since: Option<int>, t: Time) {
    since.Some? ==> Instant(t) > since.value
  }

  // ---- Pages ----

  /** The size a page has: what was asked for, within the endpoint's bounds. */
  function SizeFor(asked: int, usual: int, most: int): int {
    if asked <= 0 then usual else if asked <= most then asked else most
  }

  /** Full pages, then one that need not be full, each with its size and the time it was asked at. */
  ghost predicate Paged<T>(pages: seq<SyncPage<T>>, size: int, now: nat -> int) {
    && pages != []
    && forall i :: 0 <= i < |pages| ==>
         && pages[i].pageSize == size && pages[i].syncToken == now(i) && |pages[i].items| <= size
         && (pages[i].hasNext <==> i < |pages| - 1) && (pages[i].hasNext ==> |pages[i].items| == size)
  }

  lemma {:induction false} LastHasNoNext<T>(e: Endpoint<T>, feed: Feed<T>, size: int, cursor: string,
                                            now: nat -> int, n: nat, i: nat)
    requires ValidEndpoint(e) && Moves(e, feed) && Place(e, cursor).Ok?
    requires i < |Walk(e, feed, size, cursor, now, n)|
    ensures Walk(e, feed, size, cursor, now, n)[i].hasNext <==> i < |Walk(e, feed, size, cursor, now, n)| - 1
    decreases i
  {
    hide ServeFeed, Moves, Clamp;
    ServedPage(e, feed, size, cursor, now(n));
    var page := ServeFeed(e, feed, size, cursor, now(n)).value;
    if page.hasNext {
      CursorMoves(e, feed, size, cursor, now(n));
      if i > 0 {
        LastHasNoNext(e, feed, size, page.nextCursor, now, n + 1, i - 1);
      }
    }
  }

  lemma WalkIsPaged<T>(e: Endpoint<T>, feed: Feed<T>, size: int, now: nat -> int)
    requires ValidEndpoint(e) && Moves(e, feed)
    ensures Paged(Walk(e, feed, size, "", now, 0), SizeFor(size, e.defaultSize, e.maxSize), now)
  {
    hide ServeFeed, Moves, Walk, Clamp;
    ClampMeans(e, size);
    WalkDeliversFeed(e, feed, size, "", now, 0);
    var pages := Walk(e, feed, size, "", now, 0);
    forall i | 0 <= i < |pages|
      ensures pages[i].pageSize == Clamp(e, size) && pages[i].syncToken == now(i) && |pages[i].items| <= Clamp(e, size)
      ensures pages[i].hasNext <==> i < |pages| - 1
      ensures pages[i].hasNext ==> |pages[i].items| == Clamp(e, size)
    {
      WalkPages(e, feed, size, "", now, 0, i);
      LastHasNoNext(e, feed, size, "", now, 0, i);
    }
  }

  // ---- Rows ----

  lemma KeyOrder<T>(position: T -> SyncCursor, items: seq<T>)
    requires StrictlySorted(SortKey(position), items)
    ensures forall i, j :: 0 <= i < j < |items| ==>
              InOrder(position(items[i]).updatedAt, position(items[i]).id,
                      position(items[j]).updatedAt, position(items[j]).id)
  {
    hide Instant;
    forall i, j | 0 <= i < j < |items|
      ensures InOrder(position(items[i]).updatedAt, position(items[i]).id,
                      position(items[j]).updatedAt, position(items[j]).id)
    {
      assert Less(SortKey(position)(items[i]), SortKey(position)(items[j]));
    }
  }

  lemma WantedMembers<T>(position: T -> SyncCursor, rows: seq<T>, since: Option<int>, items: seq<T>, x: T)
    requires multiset(items) == multiset(Wanted(position, rows, since))
    ensures x in items <==> x in rows && Passes(since, position(x).updatedAt)
  {
    hide Instant;
    assert x in items <==> x in multiset(items);
    assert x in Wanted(position, rows, since) <==> x in multiset(Wanted(position, rows, since));
    if since.Some? {
      FilterMembers(Newer(position, since.value), rows, x);
    }
  }

  /** Rows in strict key order, each of them wanted and every wanted row among them: so each exactly once. */
  lemma WalkItems<T>(e: Endpoint<T>, rows: seq<T>, since: Option<int>, size: int, now: nat -> int)
    requires ValidEndpoint(e) && WellFormed(e.position, rows)
    ensures Moves(e, FeedOf(e.position, rows, since))
    ensures var items := Items(Walk(e, FeedOf(e.position, rows, since), size, "", now, 0));
            && (forall i, j :: 0 <= i < j < |items| ==>
                  InOrder(e.position(items[i]).updatedAt, e.position(items[i]).id,
                          e.position(items[j]).updatedAt, e.position(items[j]).id))
            && (forall x :: x in items <==> x in rows && Passes(since, e.position(x).updatedAt))
  {
    hide Walk, WellFormed, StrictlySorted, Wanted, InOrder, Passes, Moves, ValidEndpoint;
    StaticWalk(e, rows, since, size, now);
    var items := Items(Walk(e, FeedOf(e.position, rows, since), size, "", now, 0));
    KeyOrder(e.position, items);
    forall x ensures x in items <==> x in rows && Passes(since, e.position(x).updatedAt) {
      WantedMembers(e.position, rows, since, items, x);
    }
  }

  /** Behind the place, if there is one. */
  predicate IsPast(after: Option<SyncCursor>, c: SyncCursor) {
    after.Some? ==> InOrder(after.value.updatedAt, after.value.id, c.updatedAt, c.id)
  }

  /**
   * One request, with any cursor: an undecodable one is refused; otherwise the page is
   * in order, holds only wanted rows past the cursor, and leaves out only such rows as
   * come behind all of it, when it is full and says that there are more.
   */
  lemma ServeMeans<T>(e: Endpoint<T>, rows: seq<T>, q: SyncQuery, now: int)
    requires 1 <= e.defaultSize <= e.maxSize && DistinctIds(SortKey(e.position), rows)
    ensures var r := Serve(e, rows, q, now);
            var after := if q.cursor == "" then None
                         else match e.decode(q.cursor) case Ok(c) => Some(c) case Err(_) => None;
            var size := SizeFor(q.pageSize, e.defaultSize, e.maxSize);
            && (r.Err? <==> q.cursor != "" && e.decode(q.cursor).Err?)
            && (r.Err? ==> r.error == e.decode(q.cursor).error)
            && (r.Ok? ==>
                  var items := r.value.items;
                  && r.value.pageSize == size && r.value.syncToken == now && |items| <= size
                  && (forall i, j :: 0 <= i < j < |items| ==>
                        InOrder(e.position(items[i]).updatedAt, e.position(items[i]).id,
                                e.position(items[j]).updatedAt, e.position(items[j]).id))
                  && (forall x :: x in items ==>
                        x in rows && Passes(q.updatedSince, e.position(x).updatedAt) && IsPast(after, e.position(x)))
                  && (forall x, y :: x in rows && Passes(q.updatedSince, e.position(x).updatedAt)
                                     && IsPast(after, e.position(x)) && x !in items && y in items ==>
                        && r.value.hasNext && |items| == size
                        && InOrder(e.position(y).updatedAt, e.position(y).id,
                                   e.position(x).updatedAt, e.position(x).id)))
  {
    ClampMeans(e, q.pageSize);
    if Serve(e, rows, q, now).Ok? {
      var after := Place(e, q.cursor).value;
      var pending := Pending(e.position, rows, q.updatedSince, after);
      PendingStrict(e.position, rows, q.updatedSince, after);
      PageOrder(e.position, rows, q.updatedSince, after, Clamp(e, q.pageSize));
    }
  }

  /** The first k of the pending rows, against the rest. */
  lemma PageOrder<T>(position: T -> SyncCursor, rows: seq<T>, since: Option<int>, after: Option<SyncCursor>, k: nat)
    requires DistinctIds(SortKey(position), rows)
    ensures var pending := Pending(position, rows, since, after);
            var items := Cut(pending, k);
            && (forall i, j :: 0 <= i < j < |items| ==>
                  InOrder(position(items[i]).updatedAt, position(items[i]).id,
                          position(items[j]).updatedAt, position(items[j]).id))
            && (forall x :: x in items ==>
                  x in rows && Passes(since, position(x).updatedAt) && IsPast(after, position(x)))
            && (forall x, y :: x in rows && Passes(since, position(x).updatedAt) && IsPast(after, position(x))
                               && x !in items && y in items ==>
                  && |pending| > k
                  && InOrder(position(y).updatedAt, position(y).id, position(x).updatedAt, position(x).id))
  {
    var pending := Pending(position, rows, since, after);
    var items := Cut(pending, k);
    PendingStrict(position, rows, since, after);
    KeyOrder(position, pending);
    forall x ensures x in pending <==> x in rows && Passes(since, position(x).updatedAt) && IsPast(after, position(x)) {
      PendingMembers(position, rows, since, after, x);
    }
    forall x, y | x in pending && x !in items && y in items
      ensures |pending| > k
      ensures InOrder(position(y).updatedAt, position(y).id, position(x).updatedAt, position(x).id)
    {
      var i :| 0 <= i < |items| && items[i] == y;
      var j :| 0 <= j < |pending| && pending[j] == x;
      assert j >= k;
    }
  }

  // ---- Products with their children ----

  function Listing(products: seq<Product>, variants: seq<ProductVariant>, images: seq<ProductImage>)
    : Answering<ProductProjection>
  {
    (q: SyncQuery, now: int) => ProjectionAnswer(products, variants, images, q, now)
  }

  function HydratedAll(pages: seq<SyncPage<Product>>, variants: seq<ProductVariant>, images: seq<ProductImage>)
    : seq<SyncPage<ProductProjection>>
  {
    seq(|pages|, i requires 0 <= i < |pages| => Hydrated(pages[i], variants, images))
  }

  lemma {:induction false} ListingSession(products: seq<Product>, variants: seq<ProductVariant>,
                                          images: seq<ProductImage>, since: Option<int>, size: int, cursor: string,
                                          now: nat -> int, n: nat, pages: seq<SyncPage<ProductProjection>>)
    requires ValidEndpoint(Projections()) && WellFormed(ProductPosition(), products)
    requires Place(Projections(), cursor).Ok?
    ensures Moves(Projections(), FeedOf(ProductPosition(), products, since))
    ensures Session(Listing(products, variants, images), size, since, cursor, now, n, pages)
            <==> pages == HydratedAll(Walk(Projections(), FeedOf(ProductPosition(), products, since), size, cursor,
                                           now, n), variants, images)
    decreases |FeedOf(ProductPosition(), products, since)(Place(Projections(), cursor).value)|
  {
    hide Pending, WellFormed, Projections, Hydrated, ProjectionAnswer, ServeFeed, Moves, ValidEndpoint, Place;
    var e := Projections();
    var feed := FeedOf(ProductPosition(), products, since);
    var page := OneListing(products, variants, images, since, size, cursor, now(n));
    FeedMoves(e, products, since);
    if page.hasNext {
      CursorMoves(e, feed, size, cursor, now(n));
      if pages != [] {
        ListingSession(products, variants, images, since, size, page.nextCursor, now, n + 1, pages[1..]);
      }
      var rest := Walk(e, feed, size, page.nextCursor, now, n + 1);
      assert HydratedAll([page] + rest, variants, images)
             == [Hydrated(page, variants, images)] + HydratedAll(rest, variants, images);
      assert pages != [] ==> pages == [pages[0]] + pages[1..];
    }
  }

  lemma OneListing(products: seq<Product>, variants: seq<ProductVariant>, images: seq<ProductImage>,
                   since: Option<int>, size: int, cursor: string, now: int) returns (page: SyncPage<Product>)
    requires ValidEndpoint(Projections()) && Place(Projections(), cursor).Ok?
    ensures Projections().position == ProductPosition()
    ensures ServeFeed(Projections(), FeedOf(ProductPosition(), products, since), size, cursor, now) == Ok(page)
    ensures ProjectionAnswer(products, variants, images, SyncQuery(size, cursor, since), now)
            == Ok(Hydrated(page, variants, images))
    ensures Hydrated(page, variants, images).hasNext == page.hasNext
    ensures Hydrated(page, variants, images).nextCursor == page.nextCursor
  {
    hide Pending, Project;
    page := ServeFeed(Projections(), FeedOf(ProductPosition(), products, since), size, cursor, now).value;
  }

  lemma {:induction false} HydratedItems(pages: seq<SyncPage<Product>>, variants: seq<ProductVariant>,
                                         images: seq<ProductImage>)
    ensures Items(HydratedAll(pages, variants, images)) == Project(Items(pages), variants, images)
  {
    if pages != [] {
      HydratedItems(pages[1..], variants, images);
      assert HydratedAll(pages, variants, images)[1..] == HydratedAll(pages[1..], variants, images);
    }
  }

  /** Exactly the product's variants, in the order of their ids, and exactly its images, in their own order. */
  ghost predicate HasChildren(item: ProductProjection, variants: seq<ProductVariant>, images: seq<ProductImage>) {
    && (forall v :: multiset(item.variants)[v] == if v.productId == item.product.id then multiset(variants)[v] else 0)
    && (forall j, k :: 0 <= j < k < |item.variants| ==> item.variants[j].id <= item.variants[k].id)
    && (forall i :: multiset(item.images)[i] == if i.productId == item.product.id then multiset(images)[i] else 0)
    && (forall j, k :: 0 <= j < k < |item.images| ==>
          item.images[j].sortOrder < item.images[k].sortOrder
          || (item.images[j].sortOrder == item.images[k].sortOrder && item.images[j].id <= item.images[k].id))
  }

  lemma ChildrenInOrder(p: Product, variants: seq<ProductVariant>, images: seq<ProductImage>)
    ensures HasChildren(ProductProjection(p, VariantsOf(variants, p.id), ImagesOf(images, p.id)), variants, images)
  {
    var vs := Filter(Hydration.OwnedBy(VariantOwner(), p.id), variants);
    var own := Filter(Hydration.OwnedBy(ImageOwner(), p.id), images);
    OrderBySorts(VariantOrder(), vs);
    OrderBySorts(ImageOrder(), own);
    forall v: ProductVariant ensures multiset(vs)[v] == if v.productId == p.id then multiset(variants)[v] else 0 {
      FilterCounts(Hydration.OwnedBy(VariantOwner(), p.id), variants, v);
    }
    forall i: ProductImage ensures multiset(own)[i] == if i.productId == p.id then multiset(images)[i] else 0 {
      FilterCounts(Hydration.OwnedBy(ImageOwner(), p.id), images, i);
    }
    var v', i' := VariantsOf(variants, p.id), ImagesOf(images, p.id);
    forall j, k | 0 <= j < k < |v'| ensures v'[j].id <= v'[k].id {
      assert !Less(VariantOrder()(v'[k]), VariantOrder()(v'[j]));
    }
    forall j, k | 0 <= j < k < |i'|
      ensures i'[j].sortOrder < i'[k].sortOrder || (i'[j].sortOrder == i'[k].sortOrder && i'[j].id <= i'[k].id)
    {
      assert !Less(ImageOrder()(i'[k]), ImageOrder()(i'[j]));
    }
  }

  /** Every wanted product once, in order, with its children, on pages that are full but for the last. */
  ghost predicate ProductsDelivered(products: seq<Product>, variants: seq<ProductVariant>, images: seq<ProductImage>,
                                    since: Option<int>, size: int, now: nat -> int,
                                    pages: seq<SyncPage<ProductProjection>>) {
    var items := Items(pages);
    && Paged(pages, SizeFor(size, 100, 500), now)
    && (forall i, j :: 0 <= i < j < |items| ==> InOrder(items[i].product.updatedAt, items[i].product.id,
                                                       items[j].product.updatedAt, items[j].product.id))
    && (forall p :: (p in products && Passes(since, p.updatedAt))
                    <==> exists i :: 0 <= i < |items| && items[i].product == p)
    && (forall i :: 0 <= i < |items| ==> HasChildren(items[i], variants, images))
  }

  /**
   * Over unchanging tables, a caller of the projections endpoint who follows
   * nextCursor from the empty cursor comes to an end, whatever page size is asked for,
   * and has then received every product newer than updatedSince exactly once, in
   * order, each with exactly its own variants and images.
   */
  lemma ProductSessions(products: seq<Product>, variants: seq<ProductVariant>, images: seq<ProductImage>,
                        since: Option<int>, size: int, now: nat -> int)
    requires forall i, j :: 0 <= i < j < |products| ==> products[i].id != products[j].id
    requires forall p :: p in products ==> Usable(p.updatedAt)
    ensures exists pages :: Session(Listing(products, variants, images), size, since, "", now, 0, pages)
    ensures forall pages :: Session(Listing(products, variants, images), size, since, "", now, 0, pages) ==>
              ProductsDelivered(products, variants, images, since, size, now, pages)
  {
    hide Walk, Session, Project, HasChildren, InOrder;
    var e := Projections();
    EndpointsAreValid();
    assert WellFormed(ProductPosition(), products);
    ListingSession(products, variants, images, since, size, "", now, 0, []);
    var walk := Walk(e, FeedOf(ProductPosition(), products, since), size, "", now, 0);
    var pages := HydratedAll(walk, variants, images);
    ListingSession(products, variants, images, since, size, "", now, 0, pages);
    ProductWalk(products, variants, images, since, size, now);
    forall other | Session(Listing(products, variants, images), size, since, "", now, 0, other)
      ensures ProductsDelivered(products, variants, images, since, size, now, other)
    {
      ListingSession(products, variants, images, since, size, "", now, 0, other);
    }
  }

  lemma ProductWalk(products: seq<Product>, variants: seq<ProductVariant>, images: seq<ProductImage>,
                    since: Option<int>, size: int, now: nat -> int)
    requires ValidEndpoint(Projections()) && WellFormed(ProductPosition(), products)
    ensures Moves(Projections(), FeedOf(ProductPosition(), products, since))
    ensures ProductsDelivered(products, variants, images, since, size, now,
                              HydratedAll(Walk(Projections(), FeedOf(ProductPosition(), products, since), size, "",
                                               now, 0), variants, images))
  {
    hide Walk, HasChildren, InOrder, WellFormed, ValidEndpoint, Passes;
    var e := Projections();
    WalkItems(e, products, since, size, now);
    var walk := Walk(e, FeedOf(ProductPosition(), products, since), size, "", now, 0);
    WalkIsPaged(e, FeedOf(ProductPosition(), products, since), size, now);
    HydratedItems(walk, variants, images);
    var rows, items := Items(walk), Project(Items(walk), variants, images);
    forall i | 0 <= i < |items| ensures HasChildren(items[i], variants, images) {
      ChildrenInOrder(rows[i], variants, images);
    }
    forall p ensures (p in products && Passes(since, p.updatedAt))
                     <==> exists i :: 0 <= i < |items| && items[i].product == p {
      assert p in rows <==> p in products && Passes(since, e.position(p).updatedAt);
      if p in rows {
        var i :| 0 <= i < |rows| && rows[i] == p;
        assert items[i].product == p;
      }
    }
  }

  // ---- Inventory records ----

  function Records(products: seq<Product>, variants: seq<ProductVariant>): Answering<InventoryRecord> {
    (q: SyncQuery, now: int) => InventoryAnswer(products, variants, q, now)
  }

  lemma {:induction false} SameSession<T>(answer: Answering<T>, other: Answering<T>, size: int, since: Option<int>,
                                          cursor: string, now: nat -> int, n: nat, pages: seq<SyncPage<T>>)
    requires forall q: SyncQuery, at: int :: answer(q, at) == other(q, at)
    ensures Session(answer, size, since, cursor, now, n, pages) <==> Session(other, size, since, cursor, now, n, pages)
    decreases |pages|
  {
    var q, at := SyncQuery(size, cursor, since), now(n);
    assert answer(q, at) == other(q, at);
    if pages != [] && pages[0].hasNext {
      SameSession(answer, other, size, since, pages[0].nextCursor, now, n + 1, pages[1..]);
    }
  }

  /** The code is that of the product with this id, if there is one. */
  lemma {:induction false} CodeIsTheProducts(products: seq<Product>, id: int, code: string)
    requires forall i, j :: 0 <= i < j < |products| ==> products[i].id != products[j].id
    ensures CodeOf(products, id) == Some(code) <==> exists p :: p in products && p.id == id && p.productCode == code
    ensures CodeOf(products, id).Some? <==> exists p :: p in products && p.id == id
  {
    if products != [] {
      CodeIsTheProducts(products[1..], id, code);
      assert products == [products[0]] + products[1..];
      assert products[0] in products;
    }
  }

  lemma {:induction false} JoinedIds(variants: seq<ProductVariant>, products: seq<Product>)
    requires forall i, j :: 0 <= i < j < |variants| ==> variants[i].id != variants[j].id
    ensures DistinctIds(SortKey(RecordPosition()), Join(variants, products))
  {
    if variants != [] {
      JoinedIds(variants[1..], products);
      forall r | r in Join(variants[1..], products) ensures r.variant.id != variants[0].id {
        JoinMembers(variants[1..], products, r);
      }
    }
  }

  lemma JoinIsWellFormed(variants: seq<ProductVariant>, products: seq<Product>)
    requires forall i, j :: 0 <= i < j < |variants| ==> variants[i].id != variants[j].id
    requires forall v :: v in variants ==> Usable(v.updatedAt)
    ensures WellFormed(RecordPosition(), Join(variants, products))
  {
    JoinedIds(variants, products);
    forall r | r in Join(variants, products) ensures Carries(RecordPosition()(r)) {
      JoinMembers(variants, products, r);
    }
  }

  /** Every wanted variant that has a product once, in order, beside its product's code. */
  ghost predicate RecordsDelivered(products: seq<Product>, variants: seq<ProductVariant>, since: Option<int>, size: int,
                                   now: nat -> int, pages: seq<SyncPage<InventoryRecord>>) {
    var items := Items(pages);
    && Paged(pages, SizeFor(size, 500, 1000), now)
    && (forall i, j :: 0 <= i < j < |items| ==> InOrder(items[i].variant.updatedAt, items[i].variant.id,
                                                       items[j].variant.updatedAt, items[j].variant.id))
    && (forall v :: (v in variants && Passes(since, v.updatedAt) && exists p :: p in products && p.id == v.productId)
                    <==> exists i :: 0 <= i < |items| && items[i].variant == v)
    && (forall r :: r in items ==>
          exists p :: p in products && p.id == r.variant.productId && p.productCode == r.productCode)
  }

  lemma RecordWalk(products: seq<Product>, variants: seq<ProductVariant>, since: Option<int>, size: int,
                   now: nat -> int)
    requires ValidEndpoint(VariantInventory()) && WellFormed(RecordPosition(), Join(variants, products))
    requires forall i, j :: 0 <= i < j < |products| ==> products[i].id != products[j].id
    ensures Moves(VariantInventory(), FeedOf(RecordPosition(), Join(variants, products), since))
    ensures RecordsDelivered(products, variants, since, size, now,
                             Walk(VariantInventory(), FeedOf(RecordPosition(), Join(variants, products), since), size,
                                  "", now, 0))
  {
    hide Walk, InOrder, WellFormed, ValidEndpoint, Passes, CodeOf, Join;
    var e, rows := VariantInventory(), Join(variants, products);
    WalkItems(e, rows, since, size, now);
    var walk := Walk(e, FeedOf(RecordPosition(), rows, since), size, "", now, 0);
    WalkIsPaged(e, FeedOf(RecordPosition(), rows, since), size, now);
    var items := Items(walk);
    forall r | r in items
      ensures r.variant in variants && Passes(since, r.variant.updatedAt)
      ensures exists p :: p in products && p.id == r.variant.productId && p.productCode == r.productCode
    {
      JoinMembers(variants, products, r);
      CodeIsTheProducts(products, r.variant.productId, r.productCode);
    }
    forall v | v in variants && Passes(since, v.updatedAt) && exists p :: p in products && p.id == v.productId
      ensures exists i :: 0 <= i < |items| && items[i].variant == v
    {
      CodeIsTheProducts(products, v.productId, "");
      var r := InventoryRecord(CodeOf(products, v.productId).value, v);
      JoinMembers(variants, products, r);
      assert r in items;
    }
  }

  /**
   * The same for the inventory endpoint: every variant of a product, newer than
   * updatedSince, exactly once and in order, beside the code of its product.
   */
  lemma InventorySessions(products: seq<Product>, variants: seq<ProductVariant>, since: Option<int>, size: int,
                          now: nat -> int)
    requires forall i, j :: 0 <= i < j < |products| ==> products[i].id != products[j].id
    requires forall i, j :: 0 <= i < j < |variants| ==> variants[i].id != variants[j].id
    requires forall v :: v in variants ==> Usable(v.updatedAt)
    ensures exists pages :: Session(Records(products, variants), size, since, "", now, 0, pages)
    ensures forall pages :: Session(Records(products, variants), size, since, "", now, 0, pages) ==>
              RecordsDelivered(products, variants, since, size, now, pages)
  {
    hide Walk, Session, InOrder, Join, RecordsDelivered, WellFormed;
    var e, rows := VariantInventory(), Join(variants, products);
    EndpointsAreValid();
    JoinIsWellFormed(variants, products);
    RecordWalk(products, variants, since, size, now);
    var walk := Walk(e, FeedOf(RecordPosition(), rows, since), size, "", now, 0);
    SessionIffWalk(e, rows, since, size, "", now, 0, walk);
    SameSession(Records(products, variants), Serving(e, rows), size, since, "", now, 0, walk);
    forall pages | Session(Records(products, variants), size, since, "", now, 0, pages)
      ensures RecordsDelivered(products, variants, since, size, now, pages)
    {
      SameSession(Records(products, variants), Serving(e, rows), size, since, "", now, 0, pages);
      SessionIffWalk(e, rows, since, size, "", now, 0, pages);
    }
  }
}
