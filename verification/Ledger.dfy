/**
 * The inventory's two tables, what each request does to them when it runs alone,
 * and what every run of requests keeps.
 */
module Ledger {
  import opened Wrappers

  const MAX_INT32 := 0x7fff_ffff
  const MIN_INT32 := -0x8000_0000

  /** INTEGER columns and int32 request fields. */
  type Int32 = n: int | MIN_INT32 <= n <= MAX_INT32

  predicate InRange(n: int) {
    MIN_INT32 <= n <= MAX_INT32
  }

  datatype Stock = Stock(available: Int32, reserved: Int32)

  datatype Reservation = Reservation(sku: string, quantity: Int32, orderId: string)

  datatype Db = Db(stock: map<string, Stock>, reservations: map<string, Reservation>)

  /** A reservation request carries the id its INSERT will draw. */
  datatype Op =
    | Seed(sku: string, amount: Int32)
    | Adjust(sku: string, delta: Int32)
    | Reserve(sku: string, id: string, quantity: Int32, orderId: string)
    | Release(id: string)

  datatype Reply = Seeded(inserted: bool) | Adjusted(sku: string, available: int) | Reserved(id: string) | Released

  /** NotFound, FailedPrecondition and Internal. */
  datatype Error = NotFound | Insufficient | Internal

  type Outcome = Result<Reply, Error>

  /** One request on its own; an out-of-range column or a primary key clash aborts it. */
  function Apply(db: Db, op: Op): (Db, Outcome) {
    match op
    case Seed(sku, amount) =>
      if sku in db.stock then (db, Ok(Seeded(false)))
      else (db.(stock := db.stock[sku := Stock(amount, 0)]), Ok(Seeded(true)))
    case Adjust(sku, delta) =>
      if sku !in db.stock then (db, Err(NotFound))
      else
        var s := db.stock[sku];
        if !InRange(s.available + delta) then (db, Err(Internal))
        else if s.available + delta < 0 then (db, Err(Insufficient))
        else (db.(stock := db.stock[sku := s.(available := s.available + delta)]),
              Ok(Adjusted(sku, s.available + delta)))
    case Reserve(sku, id, quantity, orderId) =>
      if sku !in db.stock then (db, Err(NotFound))
      else
        var s := db.stock[sku];
        if s.available < quantity then (db, Err(Insufficient))
        else if !InRange(s.available - quantity) || !InRange(s.reserved + quantity) || id in db.reservations then
          (db, Err(Internal))
        else (Db(db.stock[sku := Stock(s.available - quantity, s.reserved + quantity)],
                 db.reservations[id := Reservation(sku, quantity, orderId)]), Ok(Reserved(id)))
    case Release(id) =>
      if id !in db.reservations then (db, Err(NotFound))
      else
        var r := db.reservations[id];
        if r.sku !in db.stock then (db, Err(NotFound))
        else
          var s := db.stock[r.sku];
          if !InRange(s.available + r.quantity) || !InRange(s.reserved - r.quantity) then (db, Err(Internal))
          else (Db(db.stock[r.sku := Stock(s.available + r.quantity, s.reserved - r.quantity)],
                   db.reservations - {id}), Ok(Released))
  }

  function After(db: Db, ops: seq<Op>): Db {
    if ops == [] then db else Apply(After(db, ops[..|ops| - 1]), ops[|ops| - 1]).0
  }

  /** How the i-th request of a run was answered. */
  function Answer(db: Db, ops: seq<Op>, i: nat): Outcome
    requires i < |ops|
  {
    Apply(After(db, ops[..i]), ops[i]).1
  }

  /** A request answered with an error has changed neither table. */
  lemma FailureChangesNothing(db: Db, ops: seq<Op>, i: nat)
    requires i < |ops| && Answer(db, ops, i).Err?
    ensures After(db, ops[..i + 1]) == After(db, ops[..i])
  {
    assert ops[..i + 1][..i] == ops[..i];
  }

  // ---- What each request means ----

  /** No other SKU's row and no reservation but this one differ. */
  ghost predicate TouchesOnly(db: Db, db': Db, skus: set<string>, ids: set<string>) {
    && (forall sku :: sku !in skus ==>
          (sku in db.stock <==> sku in db'.stock) && (sku in db.stock ==> db'.stock[sku] == db.stock[sku]))
    && (forall id :: id !in ids ==>
          && (id in db.reservations <==> id in db'.reservations)
          && (id in db.reservations ==> db'.reservations[id] == db.reservations[id]))
  }

  /**
   * An adjustment answers with what is then available, exactly when the row exists
   * and neither falls below zero nor leaves its column; the opposite adjustment
   * takes it back.
   */
  lemma AdjustmentMeans(db: Db, sku: string, delta: Int32)
    ensures var (db', r) := Apply(db, Adjust(sku, delta));
            && (r == Err(NotFound) <==> sku !in db.stock)
            && (r == Err(Insufficient) <==>
                  sku in db.stock && -2147483648 <= db.stock[sku].available + delta < 0)
            && (r.Ok? <==> sku in db.stock && 0 <= db.stock[sku].available + delta <= 2147483647)
            && (r.Err? ==> db' == db)
            && (r.Ok? ==>
                  && TouchesOnly(db, db', {sku}, {}) && sku in db'.stock
                  && r.value == Adjusted(sku, db'.stock[sku].available)
                  && db'.stock[sku].available - db.stock[sku].available == delta
                  && db'.stock[sku].reserved == db.stock[sku].reserved
                  && (delta > MIN_INT32 && db.stock[sku].available >= 0 ==> Apply(db', Adjust(sku, -delta)).0 == db))
  {
  }

  /**
   * A reservation is answered with an id that was not open before and then is, with
   * its SKU, its quantity and its order; releasing that id succeeds and restores
   * both tables.
   */
  lemma ReservationMeans(db: Db, sku: string, id: string, quantity: Int32, orderId: string)
    ensures var (db', r) := Apply(db, Reserve(sku, id, quantity, orderId));
            && (r == Err(NotFound) <==> sku !in db.stock)
            && (r == Err(Insufficient) <==> sku in db.stock && db.stock[sku].available < quantity)
            && (r.Ok? <==>
                  && sku in db.stock && quantity <= db.stock[sku].available <= 2147483647 + quantity
                  && -2147483648 <= db.stock[sku].reserved + quantity <= 2147483647 && id !in db.reservations)
            && (r.Err? ==> db' == db)
            && (r.Ok? ==>
                  && r.value.Reserved? && var rid := r.value.id;
                     && rid !in db.reservations && rid in db'.reservations && TouchesOnly(db, db', {sku}, {rid})
                     && var open := db'.reservations[rid];
                        && open.sku == sku && open.quantity == quantity && open.orderId == orderId
                        && sku in db'.stock && db'.stock[sku].available + quantity == db.stock[sku].available
                        && db'.stock[sku].reserved == db.stock[sku].reserved + quantity
                        && Apply(db', Release(rid)) == (db, Ok(Released)))
  {
    var (db', r) := Apply(db, Reserve(sku, id, quantity, orderId));
    if r.Ok? {
      assert db'.stock[sku := db.stock[sku]] == db.stock;
      assert db'.reservations - {id} == db.reservations;
    }
  }

  /** A release closes its reservation and moves its quantity back; it is refused when there is none to close. */
  lemma ReleaseMeans(db: Db, id: string)
    requires Consistent(db)
    ensures var (db', r) := Apply(db, Release(id));
            && (r == Err(NotFound) <==> id !in db.reservations) && r != Err(Insufficient)
            && (r.Err? ==> db' == db)
            && (r.Ok? ==>
                  && r.value == Released && id !in db'.reservations
                  && var closed := db.reservations[id];
                     && TouchesOnly(db, db', {closed.sku}, {id}) && closed.sku in db'.stock
                     && db'.stock[closed.sku].available == db.stock[closed.sku].available + closed.quantity
                     && db'.stock[closed.sku].reserved == db.stock[closed.sku].reserved - closed.quantity)
  {
  }

  /** Seeding always succeeds; it says whether the row is new, and a row that there was is left alone. */
  lemma SeedingMeans(db: Db, sku: string, amount: Int32)
    ensures var (db', r) := Apply(db, Seed(sku, amount));
            && r == Ok(Seeded(sku !in db.stock)) && TouchesOnly(db, db', {sku}, {}) && sku in db'.stock
            && db'.stock[sku] == if sku in db.stock then db.stock[sku] else Stock(amount, 0)
  {
  }

  /** Nothing takes a stock row away. */
  lemma {:induction false} StockRowsStay(db: Db, ops: seq<Op>, i: nat)
    requires i <= |ops|
    ensures After(db, ops[..i]).stock.Keys <= After(db, ops).stock.Keys
    decreases |ops|
  {
    if i == |ops| {
      assert ops[..i] == ops;
    } else {
      assert ops[..|ops| - 1][..i] == ops[..i];
      StockRowsStay(db, ops[..|ops| - 1], i);
    }
  }

  /** So once seeded, a SKU has its row for good. */
  lemma SeededForGood(db: Db, ops: seq<Op>, i: nat)
    requires i < |ops| && ops[i].Seed?
    ensures ops[i].sku in After(db, ops).stock
  {
    assert ops[..i + 1][..i] == ops[..i];
    StockRowsStay(db, ops, i + 1);
  }

  // ---- The ledger invariant ----

  function Share(r: Reservation, sku: string): int {
    if r.sku == sku then r.quantity else 0
  }

  /** Total quantity of the open reservations of a SKU. */
  ghost function OpenQuantity(reservations: map<string, Reservation>, sku: string): int {
    if reservations == map[] then 0
    else
      var id :| id in reservations;
      Share(reservations[id], sku) + OpenQuantity(reservations - {id}, sku)
  }

  lemma {:induction false} OpenQuantitySplit(reservations: map<string, Reservation>, sku: string, id: string)
    requires id in reservations
    ensures OpenQuantity(reservations, sku) == Share(reservations[id], sku) + OpenQuantity(reservations - {id}, sku)
    decreases |reservations|
  {
    var first :| first in reservations
      && OpenQuantity(reservations, sku) == Share(reservations[first], sku) + OpenQuantity(reservations - {first}, sku);
    if first != id {
      OpenQuantitySplit(reservations - {first}, sku, id);
      OpenQuantitySplit(reservations - {id}, sku, first);
      assert reservations - {first} - {id} == reservations - {id} - {first};
    }
  }

  lemma OpenQuantityAdd(reservations: map<string, Reservation>, sku: string, id: string, r: Reservation)
    requires id !in reservations
    ensures OpenQuantity(reservations[id := r], sku) == Share(r, sku) + OpenQuantity(reservations, sku)
  {
    OpenQuantitySplit(reservations[id := r], sku, id);
    assert reservations[id := r] - {id} == reservations;
  }

  /** Every open reservation has a stock row, and each row's reserved count is the sum of its open reservations. */
  ghost predicate Consistent(db: Db) {
    && (forall id :: id in db.reservations ==> db.reservations[id].sku in db.stock)
    && (forall sku :: sku in db.stock ==> db.stock[sku].reserved == OpenQuantity(db.reservations, sku))
  }

  lemma {:induction false} NoneOpen(reservations: map<string, Reservation>, sku: string)
    requires forall id :: id in reservations ==> reservations[id].sku != sku
    ensures OpenQuantity(reservations, sku) == 0
    decreases |reservations|
  {
    if reservations != map[] {
      var id :| id in reservations;
      OpenQuantitySplit(reservations, sku, id);
      NoneOpen(reservations - {id}, sku);
    }
  }

  lemma ApplyKeepsConsistent(db: Db, op: Op)
    requires Consistent(db)
    ensures Consistent(Apply(db, op).0)
  {
    var db' := Apply(db, op).0;
    forall sku | sku in db'.stock ensures db'.stock[sku].reserved == OpenQuantity(db'.reservations, sku) {
      match op {
        case Seed(_, _) =>
          if sku !in db.stock {
            NoneOpen(db.reservations, sku);
          }
        case Adjust(_, _) =>
        case Reserve(own, id, quantity, orderId) =>
          if db' != db {
            OpenQuantityAdd(db.reservations, sku, id, Reservation(own, quantity, orderId));
          }
        case Release(id) =>
          if db' != db {
            OpenQuantitySplit(db.reservations, sku, id);
          }
      }
    }
  }

  /** In every reachable state, reserved is the sum of the open reservations, and none of them lacks its stock row. */
  lemma {:induction false} RunKeepsConsistent(db: Db, ops: seq<Op>)
    requires Consistent(db)
    ensures Consistent(After(db, ops))
  {
    if ops != [] {
      RunKeepsConsistent(db, ops[..|ops| - 1]);
      ApplyKeepsConsistent(After(db, ops[..|ops| - 1]), ops[|ops| - 1]);
    }
  }

  /** So a release of an open reservation always finds the row to credit: only an out-of-range column can refuse it. */
  lemma {:induction false} ReleaseFindsItsRow(db: Db, ops: seq<Op>, id: string)
    requires Consistent(db) && id in After(db, ops).reservations
    ensures var now := After(db, ops);
            var r := now.reservations[id];
            && r.sku in now.stock
            && (Apply(now, Release(id)).1 == Ok(Released) || Apply(now, Release(id)).1 == Err(Internal))
            && (Apply(now, Release(id)).1 == Ok(Released) <==>
                  InRange(now.stock[r.sku].available + r.quantity) && InRange(now.stock[r.sku].reserved - r.quantity))
  {
    RunKeepsConsistent(db, ops);
  }

  // ---- Conservation ----

  function Total(db: Db, sku: string): int {
    if sku in db.stock then db.stock[sku].available + db.stock[sku].reserved else 0
  }

  /** What one answered request adds to a SKU from outside: its first seeding and its committed adjustments. */
  function Income(op: Op, outcome: Outcome, sku: string): int {
    match op
    case Seed(own, amount) => if own == sku && outcome == Ok(Seeded(true)) then amount else 0
    case Adjust(own, delta) => if own == sku && outcome.Ok? then delta else 0
    case _ => 0
  }

  function TotalIncome(db: Db, ops: seq<Op>, sku: string): int {
    if ops == [] then 0
    else
      var init := ops[..|ops| - 1];
      TotalIncome(db, init, sku) + Income(ops[|ops| - 1], Apply(After(db, init), ops[|ops| - 1]).1, sku)
  }

  lemma ApplyIncome(db: Db, op: Op, sku: string)
    ensures Total(Apply(db, op).0, sku) == Total(db, sku) + Income(op, Apply(db, op).1, sku)
  {
  }

  /** Over any run, available + reserved moves only by seeding and committed adjustments. */
  lemma {:induction false} Conservation(db: Db, ops: seq<Op>, sku: string)
    ensures Total(After(db, ops), sku) == Total(db, sku) + TotalIncome(db, ops, sku)
  {
    hide Apply, Total, Income;
    if ops != [] {
      Conservation(db, ops[..|ops| - 1], sku);
      ApplyIncome(After(db, ops[..|ops| - 1]), ops[|ops| - 1], sku);
    }
  }

  function Count(db: Db, ops: seq<Op>, id: string, released: bool): nat {
    if ops == [] then 0
    else
      var init := ops[..|ops| - 1];
      var op := ops[|ops| - 1];
      Count(db, init, id, released)
      + if (if released then op == Release(id) else op.Reserve? && op.id == id)
           && Apply(After(db, init), op).1.Ok? then 1 else 0
  }

  /**
   * Each reservation is credited back at most once: successful releases plus the
   * open one are the successful reservations.
   */
  lemma {:induction false} CreditedOnce(db: Db, ops: seq<Op>, id: string)
    ensures Count(db, ops, id, true) + (if id in After(db, ops).reservations then 1 else 0)
            == Count(db, ops, id, false) + (if id in db.reservations then 1 else 0)
  {
    if ops != [] {
      CreditedOnce(db, ops[..|ops| - 1], id);
    }
  }

  /** A reservation that was absent and is present has been reserved in the meantime. */
  lemma {:induction false} Appears(db: Db, ops: seq<Op>, id: string, i: nat)
    requires i <= |ops| && id !in After(db, ops[..i]).reservations && id in After(db, ops).reservations
    ensures exists k: nat :: i <= k < |ops| && ops[k].Reserve? && ops[k].id == id && Answer(db, ops, k).Ok?
    decreases |ops|
  {
    assert ops[..|ops|] == ops;
    if i < |ops| {
      var init := ops[..|ops| - 1];
      if id in After(db, init).reservations {
        assert init[..i] == ops[..i];
        Appears(db, init, id, i);
        var k: nat :| i <= k < |init| && init[k].Reserve? && init[k].id == id && Answer(db, init, k).Ok?;
        assert ops[..k] == init[..k];
      } else {
        assert Answer(db, ops, |ops| - 1).Ok?;
      }
    }
  }

  /** Between two successful releases of one id lies a successful reservation of it. */
  lemma BetweenReleases(db: Db, ops: seq<Op>, id: string, i: nat, j: nat)
    requires i < j < |ops| && ops[i] == ops[j] == Release(id) && Answer(db, ops, i).Ok? && Answer(db, ops, j).Ok?
    ensures exists k: nat :: i < k < j && ops[k].Reserve? && ops[k].id == id && Answer(db, ops, k).Ok?
  {
    assert ops[..i + 1][..i] == ops[..i];
    assert ops[..j][..i + 1] == ops[..i + 1];
    Appears(db, ops[..j], id, i + 1);
    var k: nat :| i + 1 <= k < j && ops[..j][k].Reserve? && ops[..j][k].id == id && Answer(db, ops[..j], k).Ok?;
    assert ops[..j][..k] == ops[..k];
  }

  // ---- Non-negativity ----

  ghost predicate NonNegative(db: Db) {
    forall sku :: sku in db.stock ==> db.stock[sku].available >= 0 && db.stock[sku].reserved >= 0
  }

  ghost predicate Sane(db: Db) {
    && Consistent(db)
    && (forall sku :: sku in db.stock ==> db.stock[sku].available >= 0)
    && (forall id :: id in db.reservations ==> db.reservations[id].quantity >= 0)
  }

  /** No request asks for a negative amount of stock. */
  ghost predicate Gentle(ops: seq<Op>) {
    forall i :: 0 <= i < |ops| ==>
      (ops[i].Reserve? ==> ops[i].quantity >= 0) && (ops[i].Seed? ==> ops[i].amount >= 0)
  }

  lemma {:induction false} OpenQuantityBound(reservations: map<string, Reservation>, sku: string)
    requires forall id :: id in reservations ==> reservations[id].quantity >= 0
    ensures OpenQuantity(reservations, sku) >= 0
    decreases |reservations|
  {
    if reservations != map[] {
      var id :| id in reservations;
      OpenQuantitySplit(reservations, sku, id);
      OpenQuantityBound(reservations - {id}, sku);
    }
  }

  lemma {:induction false} GentleKeepsSane(db: Db, ops: seq<Op>)
    requires Sane(db) && Gentle(ops)
    ensures Sane(After(db, ops))
  {
    if ops != [] {
      GentleKeepsSane(db, ops[..|ops| - 1]);
      ApplyKeepsConsistent(After(db, ops[..|ops| - 1]), ops[|ops| - 1]);
    }
  }

  /** With non-negative requests, counts stay non-negative and the open reservations of a SKU never exceed its total. */
  lemma GentleRuns(db: Db, ops: seq<Op>, sku: string)
    requires Sane(db) && Gentle(ops) && sku in After(db, ops).stock
    ensures var now := After(db, ops);
            && now.stock[sku].available >= 0 && now.stock[sku].reserved >= 0
            && 0 <= OpenQuantity(now.reservations, sku) <= Total(db, sku) + TotalIncome(db, ops, sku)
  {
    GentleKeepsSane(db, ops);
    OpenQuantityBound(After(db, ops).reservations, sku);
    Conservation(db, ops, sku);
  }

  /**
   * The service does not check the sign of a reserved quantity.  Once a
   * reservation is accepted in a sane state, every later run of non-negative
   * requests keeps the counts non-negative if and only if its quantity is not
   * negative.
   */
  lemma NonNegativeForeverIff(db: Db, op: Op)
    requires Sane(db) && op.Reserve? && Apply(db, op).1.Ok?
    ensures (forall ops :: Gentle(ops) ==> NonNegative(After(Apply(db, op).0, ops))) <==> op.quantity >= 0
  {
    var db' := Apply(db, op).0;
    if op.quantity >= 0 {
      assert After(db, [op][..0]) == db;
      assert After(db, [op]) == db';
      GentleKeepsSane(db, [op]);
      forall ops | Gentle(ops) ensures NonNegative(After(db', ops)) {
        GentleKeepsSane(db', ops);
        forall sku | sku in After(db', ops).stock ensures After(db', ops).stock[sku].reserved >= 0 {
          OpenQuantityBound(After(db', ops).reservations, sku);
        }
      }
    } else {
      var drain := Adjust(op.sku, -db'.stock[op.sku].available);
      var ops := [drain, Release(op.id)];
      var drained := Apply(db', drain).0;
      assert ops[..1] == [drain] && [drain][..0] == [];
      assert After(db', [drain]) == drained;
      assert After(db', ops) == Apply(drained, Release(op.id)).0;
      assert drained.stock[op.sku].available == 0;
      assert After(db', ops).stock[op.sku].available == op.quantity;
      assert Gentle(ops) && !NonNegative(After(db', ops));
    }
  }
}
