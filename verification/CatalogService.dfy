/** The catalog's tables and the two sync endpoints over them. */
module CatalogService {
  import opened Wrappers
  import opened CatalogDomain
  import opened Cursor
  import opened Keyset
  import opened Sql
  import Hydration
  import Sync
  import Timestamps

  datatype ProductProjection = ProductProjection(product: Product, variants: seq<ProductVariant>,
                                                 images: seq<ProductImage>)

  datatype InventoryRecord = InventoryRecord(productCode: string, variant: ProductVariant)

  // ---- Where a row stands in each order ----

  function ProductPosition(): Product -> SyncCursor {
    (p: Product) => SyncCursor(p.updatedAt, p.id)
  }

  function RecordPosition(): InventoryRecord -> SyncCursor {
    (r: InventoryRecord) => SyncCursor(r.variant.updatedAt, r.variant.id)
  }

  function VariantOwner(): ProductVariant -> int {
    (v: ProductVariant) => v.productId
  }

  function VariantOrder(): ProductVariant -> Key {
    (v: ProductVariant) => Key(0, v.id)
  }

  function ImageOwner(): ProductImage -> int {
    (i: ProductImage) => i.productId
  }

  function ImageOrder(): ProductImage -> Key {
    (i: ProductImage) => Key(i.sortOrder, i.id)
  }

  function VariantsOf(variants: seq<ProductVariant>, id: int): seq<ProductVariant> {
    Hydration.ChildrenOf(VariantOwner(), VariantOrder(), variants, id)
  }

  function ImagesOf(images: seq<ProductImage>, id: int): seq<ProductImage> {
    Hydration.ChildrenOf(ImageOwner(), ImageOrder(), images, id)
  }

  /** Each product with what its own two queries return, in the same order. */
  function Project(products: seq<Product>, variants: seq<ProductVariant>,
                   images: seq<ProductImage>): seq<ProductProjection> {
    seq(|products|, i requires 0 <= i < |products| =>
      ProductProjection(products[i], VariantsOf(variants, products[i].id), ImagesOf(images, products[i].id)))
  }

  function CodeOf(products: seq<Product>, id: int): Option<string> {
    if products == [] then None
    else if products[0].id == id then Some(products[0].productCode) else CodeOf(products[1..], id)
  }

  // ---- The two endpoints ----

  function Encoder(): SyncCursor -> string {
    (c: SyncCursor) => EncodeCursor(c)
  }

  function Decoder(): string -> Result<SyncCursor, CursorError> {
    (raw: string) => DecodeCursor(raw)
  }

  function Projections(): Endpoint<Product> {
    Endpoint(ProductPosition(), Encoder(), Decoder(), 100, 500)
  }

  function VariantInventory(): Endpoint<InventoryRecord> {
    Endpoint(RecordPosition(), Encoder(), Decoder(), 500, 1000)
  }

  /** The endpoints' own cursor strings carry every position the pagination proofs ask them to carry. */
  lemma EndpointsAreValid()
    ensures ValidEndpoint(Projections()) && ValidEndpoint(VariantInventory())
  {
    forall c: SyncCursor
      ensures Encoder()(c) == "" <==> !Timestamps.Marshalable(c.updatedAt)
      ensures Decoder()(Encoder()(c)) == Ok(c) <==> Carries(c)
    {
      RoundTripIff(c);
    }
  }

  /** product_variants JOIN catalog_products. */
  function Join(variants: seq<ProductVariant>, products: seq<Product>): seq<InventoryRecord> {
    if variants == [] then []
    else match CodeOf(products, variants[0].productId)
      case Some(code) => [InventoryRecord(code, variants[0])] + Join(variants[1..], products)
      case None => Join(variants[1..], products)
  }

  class CatalogRepository {
    var products: seq<Product>
    var variants: seq<ProductVariant>
    var images: seq<ProductImage>

    constructor (products: seq<Product>, variants: seq<ProductVariant>, images: seq<ProductImage>)
      ensures this.products == products && this.variants == variants && this.images == images
    {
      this.products := products;
      this.variants := variants;
      this.images := images;
    }

    /** Conditions are collected, k + 1 rows fetched, and the extra one cut off. */
    method FetchProducts(size: int, since: Option<int>, after: Option<SyncCursor>)
      returns (rows: seq<Product>, hasNext: bool)
      requires size >= 0
      ensures var pending := Pending(ProductPosition(), products, since, after);
              (hasNext <==> |pending| > size) && rows == Cut(pending, size)
    {
      var conds: seq<Product -> bool> := [];
      if since.Some? {
        conds := conds + [Newer(ProductPosition(), since.value)];
      }
      if after.Some? {
        conds := conds + [Past(ProductPosition(), after.value)];
      }
      assert conds == Conditions(ProductPosition(), since, after);
      rows := OrderBy(SortKey(ProductPosition()), FilterAll(conds, products));
      if |rows| > size + 1 {
        rows := rows[..size + 1];
      }
      hasNext := |rows| > size;
      if hasNext {
        rows := rows[..size];
      }
    }

    /** The children of all rows are loaded in two batches and handed out by product id. */
    method Hydrate(rows: seq<Product>) returns (items: seq<ProductProjection>)
      ensures items == Project(rows, variants, images)
    {
      var ids := [];
      for i := 0 to |rows|
        invariant |ids| == i && forall j :: 0 <= j < i ==> ids[j] == rows[j].id
      {
        ids := ids + [rows[i].id];
      }
      var variantsByProduct := Hydration.LoadChildren(VariantOwner(), VariantOrder(), variants, ids);
      var imagesByProduct := Hydration.LoadChildren(ImageOwner(), ImageOrder(), images, ids);
      items := [];
      for i := 0 to |rows|
        invariant |items| == i
        invariant forall j :: 0 <= j < i ==>
          items[j] == ProductProjection(rows[j], VariantsOf(variants, rows[j].id), ImagesOf(images, rows[j].id))
      {
        assert ids[i] in ids;
        items := items + [ProductProjection(rows[i], Hydration.Get(variantsByProduct, rows[i].id),
                                            Hydration.Get(imagesByProduct, rows[i].id))];
      }
    }

    method ListProductProjectionPage(size: int, since: Option<int>, after: Option<SyncCursor>)
      returns (items: seq<ProductProjection>, hasNext: bool)
      requires size >= 1
      ensures var pending := Pending(ProductPosition(), products, since, after);
              (hasNext <==> |pending| > size) && items == Project(Cut(pending, size), variants, images)
    {
      var rows;
      rows, hasNext := FetchProducts(size, since, after);
      if |rows| == 0 {
        return [], false;
      }
      items := Hydrate(rows);
    }

    method ListVariantInventoryPage(size: int, since: Option<int>, after: Option<SyncCursor>)
      returns (records: seq<InventoryRecord>, hasNext: bool)
      requires size >= 0
      ensures var pending := Pending(RecordPosition(), Join(variants, products), since, after);
              && (hasNext <==> |pending| > size)
              && records == Cut(pending, size)
    {
      var conds: seq<InventoryRecord -> bool> := [];
      if since.Some? {
        conds := conds + [Newer(RecordPosition(), since.value)];
      }
      if after.Some? {
        conds := conds + [Past(RecordPosition(), after.value)];
      }
      assert conds == Conditions(RecordPosition(), since, after);
      records := OrderBy(SortKey(RecordPosition()), FilterAll(conds, Join(variants, products)));
      if |records| > size + 1 {
        records := records[..size + 1];
      }
      hasNext := |records| > size;
      if hasNext {
        records := records[..size];
      }
    }
  }

  /** The same page with every product's children beside it. */
  function Hydrated(page: SyncPage<Product>, variants: seq<ProductVariant>, images: seq<ProductImage>)
    : SyncPage<ProductProjection>
  {
    SyncPage(Project(page.items, variants, images), page.pageSize, page.nextCursor, page.hasNext, page.syncToken)
  }

  /** How the projections endpoint answers over these tables. */
  function ProjectionAnswer(products: seq<Product>, variants: seq<ProductVariant>, images: seq<ProductImage>,
                            q: SyncQuery, now: int): Result<SyncPage<ProductProjection>, CursorError> {
    match Serve(Projections(), products, q, now)
    case Err(e) => Err(e)
    case Ok(page) => Ok(Hydrated(page, variants, images))
  }

  /** How the inventory endpoint does. */
  function InventoryAnswer(products: seq<Product>, variants: seq<ProductVariant>, q: SyncQuery, now: int)
    : Result<SyncPage<InventoryRecord>, CursorError>
  {
    Serve(VariantInventory(), Join(variants, products), q, now)
  }

  /** The page size, the first k pending products with their children, and the cursor of the last of them. */
  lemma ProjectionPage(products: seq<Product>, variants: seq<ProductVariant>, images: seq<ProductImage>, q: SyncQuery,
                       now: int, after: Option<SyncCursor>)
    requires Place(Projections(), q.cursor) == Ok(after)
    ensures var k := Clamp(Projections(), q.pageSize);
            var pending := Pending(ProductPosition(), products, q.updatedSince, after);
            var items := Project(Cut(pending, k), variants, images);
            && 1 <= k && (|pending| > k ==> |items| == k)
            && ProjectionAnswer(products, variants, images, q, now)
               == Ok(SyncPage(items, k, if |pending| > k then EncodeCursor(SyncCursor(items[k - 1].product.updatedAt,
                                                                                      items[k - 1].product.id))
                                        else "", |pending| > k, now))
  {
    hide Pending, VariantsOf, ImagesOf;
    ServedFrom(Projections(), products, q, now, after);
  }

  lemma ServedFrom<T>(e: Endpoint<T>, rows: seq<T>, q: SyncQuery, now: int, after: Option<SyncCursor>)
    requires 1 <= e.defaultSize <= e.maxSize && Place(e, q.cursor) == Ok(after)
    ensures Serve(e, rows, q, now) == Ok(PageOf(e, Pending(e.position, rows, q.updatedSince, after), q.pageSize, now))
    ensures 1 <= Clamp(e, q.pageSize)
  {
  }

  lemma RecordPage(products: seq<Product>, variants: seq<ProductVariant>, q: SyncQuery, now: int,
                   after: Option<SyncCursor>)
    requires Place(VariantInventory(), q.cursor) == Ok(after)
    ensures var k := Clamp(VariantInventory(), q.pageSize);
            var pending := Pending(RecordPosition(), Join(variants, products), q.updatedSince, after);
            var items := Cut(pending, k);
            && 1 <= k && (|pending| > k ==> |items| == k)
            && InventoryAnswer(products, variants, q, now)
               == Ok(SyncPage(items, k, if |pending| > k then EncodeCursor(SyncCursor(items[k - 1].variant.updatedAt,
                                                                                      items[k - 1].variant.id))
                                        else "", |pending| > k, now))
  {
    hide Pending, Join;
    ServedFrom(VariantInventory(), Join(variants, products), q, now, after);
  }

  /** Both endpoints refuse a request exactly when its cursor cannot be decoded. */
  lemma OnlyBadCursorsAreRefused(products: seq<Product>, variants: seq<ProductVariant>, images: seq<ProductImage>,
                                 q: SyncQuery, now: int)
    ensures var r := ProjectionAnswer(products, variants, images, q, now);
            && (r.Err? <==> q.cursor != "" && DecodeCursor(q.cursor).Err?)
            && (r.Err? <==> Place(Projections(), q.cursor).Err?)
            && (r.Err? ==> r.error == InvalidCursor && Place(Projections(), q.cursor).error == InvalidCursor)
    ensures var r := InventoryAnswer(products, variants, q, now);
            && (r.Err? <==> q.cursor != "" && DecodeCursor(q.cursor).Err?)
            && (r.Err? <==> Place(VariantInventory(), q.cursor).Err?)
            && (r.Err? ==> r.error == InvalidCursor && Place(VariantInventory(), q.cursor).error == InvalidCursor)
  {
  }

  class Service {
    const sync: CatalogRepository
    const projections: Endpoint<Product>
    const inventory: Endpoint<InventoryRecord>

    ghost predicate Valid() {
      projections == Projections() && inventory == VariantInventory()
    }

    constructor (sync: CatalogRepository)
      ensures Valid() && this.sync == sync
    {
      this.sync := sync;
      this.projections := Projections();
      this.inventory := VariantInventory();
    }

    /** The page size and the place a request asks for. */
    method Resolve<T>(e: Endpoint<T>, q: SyncQuery) returns (size: int, after: Result<Option<SyncCursor>, CursorError>)
      requires 1 <= e.defaultSize <= e.maxSize
      ensures size == Clamp(e, q.pageSize) && after == Place(e, q.cursor)
      ensures size == if q.pageSize <= 0 then e.defaultSize
                      else if q.pageSize <= e.maxSize then q.pageSize else e.maxSize
    {
      size := q.pageSize;
      if size <= 0 {
        size := e.defaultSize;
      }
      if size > e.maxSize {
        size := e.maxSize;
      }
      after := Ok(None);
      if q.cursor != "" {
        var c := e.decode(q.cursor);
        after := match c case Err(error) => Err(error) case Ok(v) => Ok(Some(v));
      }
    }

    /** The token is the clock reading taken before the query runs. */
    method ListProductProjections(q: SyncQuery, now: int) returns (r: Result<SyncPage<ProductProjection>, CursorError>)
      requires Valid()
      ensures r == ProjectionAnswer(sync.products, sync.variants, sync.images, q, now)
    {
      hide ProjectionAnswer, Pending, Project, Place, Clamp;
      var syncToken := now;
      var size, after := Resolve(projections, q);
      if after.Err? {
        OnlyBadCursorsAreRefused(sync.products, sync.variants, sync.images, q, now);
        return Err(after.error);
      }
      ProjectionPage(sync.products, sync.variants, sync.images, q, now, after.value);
      var items, hasNext := sync.ListProductProjectionPage(size, q.updatedSince, after.value);
      var nextCursor := "";
      if hasNext && |items| > 0 {
        var last := items[|items| - 1].product;
        nextCursor := projections.encode(SyncCursor(last.updatedAt, last.id));
      }
      r := Ok(SyncPage(items, size, nextCursor, hasNext, syncToken));
    }

    method ListVariantInventory(q: SyncQuery, now: int) returns (r: Result<SyncPage<InventoryRecord>, CursorError>)
      requires Valid()
      ensures r == InventoryAnswer(sync.products, sync.variants, q, now)
    {
      hide InventoryAnswer, Pending, Join, Place, Clamp;
      var syncToken := now;
      var size, after := Resolve(inventory, q);
      if after.Err? {
        OnlyBadCursorsAreRefused(sync.products, sync.variants, sync.images, q, now);
        return Err(after.error);
      }
      RecordPage(sync.products, sync.variants, q, now, after.value);
      var items, hasNext := sync.ListVariantInventoryPage(size, q.updatedSince, after.value);
      var nextCursor := "";
      if hasNext && |items| > 0 {
        var last := items[|items| - 1];
        nextCursor := inventory.encode(SyncCursor(last.variant.updatedAt, last.variant.id));
      }
      r := Ok(SyncPage(items, size, nextCursor, hasNext, syncToken));
    }
  }

  // ---- What the joined product code does to incremental sync ----

  lemma {:induction false} JoinMembers(variants: seq<ProductVariant>, products: seq<Product>, r: InventoryRecord)
    ensures r in Join(variants, products) <==>
              r.variant in variants && CodeOf(products, r.variant.productId) == Some(r.productCode)
  {
    if variants != [] {
      JoinMembers(variants[1..], products, r);
      assert variants == [variants[0]] + variants[1..];
    }
  }

  /**
   * A record carries its product's code, but its place is its variant's.  So once a
   * product with an already synced variant changes its code, no later poll with
   * that token makes the mirror exact again.
   */
  lemma RenamedProductIsNotResynced(mirror: map<int, InventoryRecord>, variants: seq<ProductVariant>,
                                    before: seq<Product>, products: seq<Product>, v: ProductVariant,
                                    size: int, token: int, now: nat -> int)
    requires WellFormed(RecordPosition(), Join(variants, products))
    requires Sync.Exact(RecordPosition(), mirror, Join(variants, before))
    requires v in variants && Timestamps.Instant(v.updatedAt) <= token
    requires CodeOf(before, v.productId).Some? && CodeOf(products, v.productId).Some?
    requires CodeOf(before, v.productId) != CodeOf(products, v.productId)
    ensures var e := VariantInventory();
            var rows := Join(variants, products);
            && ValidEndpoint(e) && Moves(e, FeedOf(e.position, rows, Some(token)))
            && var pages := Walk(e, FeedOf(e.position, rows, Some(token)), size, "", now, 0);
               !Sync.Exact(e.position, Sync.Store(e.position, mirror, Items(pages)), rows)
  {
    EndpointsAreValid();
    Sync.ExactAgainIff(VariantInventory(), mirror, Join(variants, products), size, token, now);
    var was := InventoryRecord(CodeOf(before, v.productId).value, v);
    var renamed := InventoryRecord(CodeOf(products, v.productId).value, v);
    JoinMembers(variants, before, was);
    JoinMembers(variants, products, renamed);
    assert Sync.Mirrored(RecordPosition(), mirror, was);
    assert !Sync.Mirrored(RecordPosition(), mirror, renamed) && Sync.At(RecordPosition(), renamed) <= token;
  }
}
