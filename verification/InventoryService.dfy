/**
 * The inventory's requests as the service runs them: each one opens a
 * transaction, sends its statements one by one, and commits or rolls back.
 * The driver may fail any of these calls.
 */
module InventoryService {
  import opened Wrappers
  import opened Ledger

  /**
   * Which calls to the driver fail, counted from the opening of the transaction;
   * call 4 is COMMIT, and AFTER_ALL says that it has taken effect although it was
   * answered with an error.
   */
  type Faults = nat -> bool

  const AFTER_ALL := 5

  class Inventory {
    var stock: map<string, Stock>
    var reservations: map<string, Reservation>
    // what a rollback returns to
    var savedStock: map<string, Stock>
    var savedReservations: map<string, Reservation>

    function State(): Db
      reads this
    {
      Db(stock, reservations)
    }

    function Saved(): Db
      reads this
    {
      Db(savedStock, savedReservations)
    }

    constructor ()
      ensures State() == Db(map[], map[])
    {
      stock, reservations := map[], map[];
      savedStock, savedReservations := map[], map[];
    }

    // ---- Transaction boundary ----

    method Begin()
      modifies this`savedStock, this`savedReservations
      ensures Saved() == State()
    {
      savedStock, savedReservations := stock, reservations;
    }

    method Rollback()
      modifies this`stock, this`reservations
      ensures State() == Saved()
    {
      stock, reservations := savedStock, savedReservations;
    }

    // ---- Statements of the repository ----

    /** After an UPDATE that changed no row: was the row missing, or did the guard hold it back? */
    method ClassifyZeroRows(sku: string, faults: Faults, call: nat) returns (e: Error)
      ensures e == if faults(call) then Internal else if sku in stock then Insufficient else NotFound
    {
      if faults(call) {
        return Internal;
      }
      var count := if sku in stock then 1 else 0;
      e := if count == 0 then NotFound else Insufficient;
    }

    method AdjustStock(sku: string, delta: Int32, faults: Faults) returns (r: Outcome)
      modifies this`stock
      ensures r.Ok? ==> (State(), r) == Apply(old(State()), Adjust(sku, delta))
      ensures r.Err? ==> r == Err(Internal) || r == Apply(old(State()), Adjust(sku, delta)).1
      ensures (forall i :: 0 <= i <= 4 ==> !faults(i)) ==> r == Apply(old(State()), Adjust(sku, delta)).1
    {
      if faults(1) {
        return Err(Internal);
      }
      if sku in stock {
        var s := stock[sku];
        if !InRange(s.available + delta) {
          return Err(Internal);
        }
        if s.available + delta >= 0 {
          stock := stock[sku := s.(available := s.available + delta)];
          return Ok(Adjusted(sku, s.available + delta));
        }
      }
      var e := ClassifyZeroRows(sku, faults, 2);
      r := Err(e);
    }

    method ReserveStock(sku: string, id: string, quantity: Int32, orderId: string, faults: Faults) returns (r: Outcome)
      modifies this`stock, this`reservations
      ensures r.Ok? ==> (State(), r) == Apply(old(State()), Reserve(sku, id, quantity, orderId))
      ensures r.Err? ==> r == Err(Internal) || r == Apply(old(State()), Reserve(sku, id, quantity, orderId)).1
      ensures (forall i :: 0 <= i <= 4 ==> !faults(i))
              ==> r == Apply(old(State()), Reserve(sku, id, quantity, orderId)).1
    {
      if faults(1) {
        return Err(Internal);
      }
      var n := 0;
      if sku in stock && stock[sku].available >= quantity {
        var s := stock[sku];
        if !InRange(s.available - quantity) || !InRange(s.reserved + quantity) {
          return Err(Internal);
        }
        stock := stock[sku := Stock(s.available - quantity, s.reserved + quantity)];
        n := 1;
      }
      if n == 0 {
        var e := ClassifyZeroRows(sku, faults, 2);
        return Err(e);
      }
      if faults(2) || faults(3) || id in reservations {
        return Err(Internal);
      }
      reservations := reservations[id := Reservation(sku, quantity, orderId)];
      r := Ok(Reserved(id));
    }

    /** The reservation is claimed first; if crediting then fails, its deletion stands until the rollback. */
    method ReleaseStock(id: string, faults: Faults) returns (r: Outcome)
      modifies this`stock, this`reservations
      ensures r.Ok? ==> (State(), r) == Apply(old(State()), Release(id))
      ensures r.Err? ==> r == Err(Internal) || r == Apply(old(State()), Release(id)).1
      ensures (forall i :: 0 <= i <= 4 ==> !faults(i)) ==> r == Apply(old(State()), Release(id)).1
    {
      if faults(1) {
        return Err(Internal);
      }
      if id !in reservations {
        return Err(NotFound);
      }
      var res := reservations[id];
      reservations := reservations - {id};
      if faults(2) {
        return Err(Internal);
      }
      if res.sku in stock {
        var s := stock[res.sku];
        if !InRange(s.available + res.quantity) || !InRange(s.reserved - res.quantity) {
          return Err(Internal);
        }
        stock := stock[res.sku := Stock(s.available + res.quantity, s.reserved - res.quantity)];
      }
      if faults(3) {
        return Err(Internal);
      }
      r := if res.sku in stock then Ok(Released) else Err(NotFound);
    }

    // ---- Requests ----

    /**
     * Runs one request in a transaction of its own.  It succeeds only by doing
     * exactly what the request does alone; when it fails, both tables are as they
     * were, or COMMIT was answered with an error and has done all that the request
     * does alone; and without a fault it is answered exactly.
     */
    method Handle(op: Op, faults: Faults) returns (r: Outcome)
      requires !op.Seed?
      modifies this
      ensures r.Ok? ==> (State(), r) == Apply(old(State()), op)
      ensures r.Err? ==> || State() == old(State())
                         || (&& r == Err(Internal) && faults(4) && faults(AFTER_ALL)
                             && State() == Apply(old(State()), op).0 && Apply(old(State()), op).1.Ok?)
      ensures r.Err? ==> r == Err(Internal) || r == Apply(old(State()), op).1
      ensures (forall i :: 0 <= i <= 4 ==> !faults(i)) ==> (State(), r) == Apply(old(State()), op)
    {
      if faults(0) {
        return Err(Internal);
      }
      Begin();
      match op {
        case Adjust(sku, delta) =>
          r := AdjustStock(sku, delta, faults);
        case Reserve(sku, id, quantity, orderId) =>
          r := ReserveStock(sku, id, quantity, orderId, faults);
        case Release(id) =>
          r := ReleaseStock(id, faults);
      }
      if r.Err? {
        Rollback();
      } else if faults(4) {
        r := Err(Internal);
        if !faults(AFTER_ALL) {
          Rollback();
        }
      }
    }

    /** INSERT ... ON CONFLICT DO NOTHING, outside any transaction of the service. */
    method SeedSku(sku: string, amount: Int32) returns (r: Outcome)
      modifies this`stock
      ensures (State(), r) == Apply(old(State()), Seed(sku, amount))
    {
      if sku in stock {
        return Ok(Seeded(false));
      }
      stock := stock[sku := Stock(amount, 0)];
      r := Ok(Seeded(true));
    }
  }
}
