/** The catalog's product writes as the service runs them, each in a transaction of its own. */
module ProductService {
  import opened Wrappers
  import opened Timestamps
  import opened Cursor
  import opened CatalogDomain
  import opened Products

  /**
   * Which calls to the driver fail, counted from the opening of the transaction;
   * call 4 is COMMIT, and AFTER_ALL says that it has taken effect although it was
   * answered with an error.
   */
  type Faults = nat -> bool

  const AFTER_ALL := 5

  /** The UPDATE sets every column but the external id. */
  function Kept(row: Product, p: Product): Product {
    p.(externalProductId := row.externalProductId)
  }

  /** Nothing has changed, or a COMMIT that was answered with an error has done all of the edit. */
  predicate AllOrNothing(before: Table, after: Table, edit: Edit, r: Outcome, faults: Faults) {
    || after == before
    || (&& r == Err(Internal) && faults(4) && faults(AFTER_ALL)
        && after == Apply(before, edit).0 && Apply(before, edit).1.Ok?)
  }

  class Catalog {
    var rows: Table
    var savedRows: Table   // what a rollback returns to

    constructor ()
      ensures rows == map[]
    {
      rows, savedRows := map[], map[];
    }

    // ---- Statements of the repository ----

    /** INSERT ... RETURNING id, then the row is read back. */
    method InsertRow(p: Product, newId: Int64, now: Time, faults: Faults) returns (r: Outcome)
      modifies this`rows
      ensures r.Ok? ==> (rows, r) == Store(old(rows), newId, p, now)
      ensures r.Err? ==> r == Err(Internal) || r == Store(old(rows), newId, p, now).1
      ensures (forall i :: 0 <= i <= 4 ==> !faults(i)) ==> r == Store(old(rows), newId, p, now).1
    {
      if faults(1) {
        return Err(Internal);
      }
      if Taken(rows, newId, p) {
        return Err(Conflict);
      }
      rows := rows[newId := p.(id := newId, updatedAt := now)];
      r := if faults(2) then Err(Internal) else Ok(Saved(rows[newId]));
    }

    /** SELECT ... FOR UPDATE */
    method GetForUpdate(id: Int64, faults: Faults) returns (r: Result<Product, Error>)
      ensures r == if faults(1) then Err(Internal) else if id in rows then Ok(rows[id]) else Err(NotFound)
    {
      if faults(1) {
        return Err(Internal);
      }
      r := if id in rows then Ok(rows[id]) else Err(NotFound);
    }

    /** UPDATE ... SET the mutable columns, or not found if it changed no row; then the row is read back. */
    method UpdateRow(id: Int64, p: Product, now: Time, faults: Faults) returns (r: Outcome)
      modifies this`rows
      ensures r.Ok? ==> id in old(rows) && (rows, r) == Store(old(rows), id, Kept(old(rows)[id], p), now)
      ensures r.Err? ==> || r == Err(Internal)
                         || r == if id in old(rows) then Store(old(rows), id, Kept(old(rows)[id], p), now).1
                                 else Err(NotFound)
      ensures (forall i :: 0 <= i <= 4 ==> !faults(i)) ==>
                r == if id in old(rows) then Store(old(rows), id, Kept(old(rows)[id], p), now).1 else Err(NotFound)
    {
      if faults(2) {
        return Err(Internal);
      }
      if id !in rows {
        return Err(NotFound);
      }
      if Taken(rows, id, p) {
        return Err(Conflict);
      }
      rows := rows[id := p.(id := id, externalProductId := rows[id].externalProductId, updatedAt := now)];
      r := if faults(3) then Err(Internal) else Ok(Saved(rows[id]));
    }

    method DeleteRow(id: Int64, faults: Faults) returns (r: Outcome)
      modifies this`rows
      ensures r.Ok? ==> id in old(rows) && rows == old(rows) - {id} && r == Ok(Deleted)
      ensures r.Err? ==> rows == old(rows) && (r == Err(Internal) || (r == Err(NotFound) && id !in rows))
      ensures (forall i :: 0 <= i <= 4 ==> !faults(i)) ==> r == if id in old(rows) then Ok(Deleted) else Err(NotFound)
    {
      if faults(1) {
        return Err(Internal);
      }
      if id !in rows {
        return Err(NotFound);
      }
      rows := rows - {id};
      r := Ok(Deleted);
    }

    // ---- Requests ----

    /** COMMIT, or the deferred rollback. */
    method Finish(answer: Outcome, faults: Faults) returns (r: Outcome)
      modifies this`rows
      ensures r == if answer.Ok? && faults(4) then Err(Internal) else answer
      ensures rows == if r.Ok? || (answer.Ok? && faults(AFTER_ALL)) then old(rows) else savedRows
    {
      r := if answer.Ok? && faults(4) then Err(Internal) else answer;
      if r.Err? && !(answer.Ok? && faults(AFTER_ALL)) {
        rows := savedRows;
      }
    }

    method CreateProduct(p: Product, newId: Int64, now: Time, faults: Faults) returns (r: Outcome)
      modifies this
      ensures r.Ok? ==> (rows, r) == Apply(old(rows), Edit(Create(p), now, newId))
      ensures r.Err? ==> AllOrNothing(old(rows), rows, Edit(Create(p), now, newId), r, faults)
      ensures r.Err? ==> r == Err(Internal) || r == Apply(old(rows), Edit(Create(p), now, newId)).1
      ensures (forall i :: 0 <= i <= 4 ==> !faults(i)) ==> (rows, r) == Apply(old(rows), Edit(Create(p), now, newId))
    {
      if !ValidProduct(p) {
        return Err(Invalid);
      }
      if faults(0) {
        return Err(Internal);
      }
      savedRows := rows;
      r := InsertRow(p, newId, now, faults);
      r := Finish(r, faults);
    }

    /** Patches the fields that are present onto the row, one by one. */
    method PatchFields(p: Product, update: ProductUpdate) returns (existing: Product)
      ensures existing == Merge(p, update)
      ensures PatchedAs(existing, update, p) && SameUnpatched(existing, p) && existing.updatedAt == p.updatedAt
    {
      hide PatchedAs, SameUnpatched, Merge;
      existing := p;
      if update.productCode.Some? {
        existing := existing.(productCode := update.productCode.value);
      }
      if update.title.Some? {
        existing := existing.(title := update.title.value);
      }
      assert existing == p.(productCode := Or(update.productCode, p.productCode), title := Or(update.title, p.title));
      if update.slug.Some? {
        existing := existing.(slug := update.slug.value);
      }
      if update.shortDescription.Some? {
        existing := existing.(shortDescription := update.shortDescription.value);
      }
      assert existing == p.(productCode := Or(update.productCode, p.productCode), title := Or(update.title, p.title),
                            slug := Or(update.slug, p.slug),
                            shortDescription := Or(update.shortDescription, p.shortDescription));
      if update.department.Some? {
        existing := existing.(department := update.department.value);
      }
      if update.category.Some? {
        existing := existing.(category := update.category.value);
      }
      assert existing == p.(productCode := Or(update.productCode, p.productCode), title := Or(update.title, p.title),
                            slug := Or(update.slug, p.slug),
                            shortDescription := Or(update.shortDescription, p.shortDescription),
                            department := Or(update.department, p.department),
                            category := Or(update.category, p.category));
      if update.primaryImageUrl.Some? {
        existing := existing.(primaryImageUrl := update.primaryImageUrl.value);
      }
      if update.active.Some? {
        existing := existing.(active := update.active.value);
      }
      AllEight(existing, p, update);
    }

    /** The locked row is patched, validated and saved. */
    method UpdateProduct(id: Int64, update: ProductUpdate, now: Time, faults: Faults) returns (r: Outcome)
      modifies this
      ensures r.Ok? ==> (rows, r) == Apply(old(rows), Edit(Patch(id, update), now, 0))
      ensures r.Err? ==> AllOrNothing(old(rows), rows, Edit(Patch(id, update), now, 0), r, faults)
      ensures r.Err? ==> r == Err(Internal) || r == Apply(old(rows), Edit(Patch(id, update), now, 0)).1
      ensures (forall i :: 0 <= i <= 4 ==> !faults(i))
              ==> (rows, r) == Apply(old(rows), Edit(Patch(id, update), now, 0))
    {
      if faults(0) {
        return Err(Internal);
      }
      savedRows := rows;
      var found := GetForUpdate(id, faults);
      if found.Err? {
        r := Finish(Err(found.error), faults);
        return;
      }
      var existing := PatchFields(found.value, update);
      if ValidProduct(existing) {
        r := UpdateRow(id, existing, now, faults);
      } else {
        r := Err(Invalid);
      }
      r := Finish(r, faults);
    }

    method DeleteProduct(id: Int64, now: Time, faults: Faults) returns (r: Outcome)
      modifies this
      ensures r.Ok? ==> (rows, r) == Apply(old(rows), Edit(Delete(id), now, 0))
      ensures r.Err? ==> AllOrNothing(old(rows), rows, Edit(Delete(id), now, 0), r, faults)
      ensures r.Err? ==> r == Err(Internal) || r == Apply(old(rows), Edit(Delete(id), now, 0)).1
      ensures (forall i :: 0 <= i <= 4 ==> !faults(i)) ==> (rows, r) == Apply(old(rows), Edit(Delete(id), now, 0))
    {
      if faults(0) {
        return Err(Internal);
      }
      savedRows := rows;
      r := DeleteRow(id, faults);
      r := Finish(r, faults);
    }
  }
}
