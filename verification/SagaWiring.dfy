/** The two services behind the saga as they are wired today. */
module SagaWiring {
  import opened Wrappers
  import opened Timestamps
  import opened Cursor
  import CatalogDomain
  import Ledger

  /** The body of POST /products/{id}/variants. */
  datatype CreateVariantRequest = CreateVariantRequest(
    sku: string, retailPriceCents: Option<int>, currency: string, active: bool)

  /** The variant the handler builds from it: it leaves the cached stock fields empty. */
  function VariantOf(productId: Int64, req: CreateVariantRequest): CatalogDomain.ProductVariant
    requires req.retailPriceCents.Some?
  {
    CatalogDomain.ProductVariant(0, productId, req.sku, req.retailPriceCents.value, None, req.currency,
                                 0, "", req.active, ZERO_TIME)
  }

  /** The status of POST /products/{id}/variants; found is what looking the product up gives, None if that fails. */
  function AddVariantStatus(found: Option<bool>, skus: set<string>, productId: Int64, req: CreateVariantRequest): nat {
    if productId <= 0 || req.sku == "" || req.retailPriceCents == None || req.currency == "" then 400
    else if found == None then 500
    else if !found.value then 404
    else if !CatalogDomain.ValidVariant(VariantOf(productId, req)) then 400
    else if req.sku in skus then 409
    else 201
  }

  predicate Complete(req: CreateVariantRequest) {
    req.sku != "" && req.retailPriceCents.Some? && req.currency != ""
  }

  /** So no request creates a variant or meets an existing SKU, whatever it says and whatever there is. */
  lemma NeverCreated(found: Option<bool>, skus: set<string>, productId: Int64, req: CreateVariantRequest)
    ensures AddVariantStatus(found, skus, productId, req)
            == if productId <= 0 || !Complete(req) || found == Some(true) then 400
               else if found == None then 500
               else 404
  {
  }

  /** The status is all that is missing: with one of the three, a sound variant of the same request is valid. */
  lemma OnlyTheStatusIsMissing(productId: Int64, req: CreateVariantRequest, status: string)
    requires req.retailPriceCents.Some?
    ensures CatalogDomain.ValidVariant(VariantOf(productId, req).(stockStatus := status))
            <==> && productId > 0 && !CatalogDomain.Blank(req.sku) && !CatalogDomain.Blank(req.currency)
                 && req.retailPriceCents.value >= 0 && status in {"IN_STOCK", "LOW_STOCK", "OUT_OF_STOCK"}
  {
  }

  /**
   * Registering a SKU is an adjustment by nothing: it never adds a stock row, and
   * succeeds only where there is a sound one.
   */
  lemma SeedingRegistersNothing(db: Ledger.Db, sku: string)
    ensures Ledger.Apply(db, Ledger.Adjust(sku, 0)).0 == db
    ensures Ledger.Apply(db, Ledger.Adjust(sku, 0)).1.Ok? <==> sku in db.stock && db.stock[sku].available >= 0
  {
  }
}
