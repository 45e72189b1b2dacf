/** The ledger store of src/backend/transaction/database.py: one stock movement either
    updates the product's cached stock and appends one ledger row, or changes nothing. */
module TransactionDb {
  import opened Common
  import opened Text
  import opened Store

  /** Why a movement was refused. Every refusal leaves the database as it was. */
  datatype TxError =
    | InvalidNumber                                    // `int()` raised ValueError
    | NonPositiveQuantity                              // quantity <= 0
    | NegativePrice                                    // unit price < 0 (editor copy only)
    | ProductNotFound                                  // no row with that id: rolled back
    | InsufficientStock(available: int, requested: int) // OUT above current stock: rolled back

  datatype TxOutcome = Committed(newStock: int) | Failed(error: TxError)

  /** The stock a movement of `kind` leaves behind: "IN" adds, "OUT" subtracts, and any
      other type text leaves the stock as it was (but is still recorded). */
  function StockAfter(stock: int, kind: string, quantity: int): int
  {
    if kind == "IN" then stock + quantity else if kind == "OUT" then stock - quantity else stock
  }

  /** The stock a committed movement leaves is what its ledger row says it should. */
  lemma StockAfterMatchesDelta(m: Movement, stock: int)
    ensures StockAfter(stock, m.kind, m.quantity) == stock + Delta(m, m.productId)
  {
  }

  /** What `db_add_stock_transaction` decides for a product table, before anything is
      written, given what `int()` made of the quantity and price texts (`None` where it
      raised): the checks run in the order quantity, quantity sign, price, product id, stock. */
  function Decide(products: seq<Product>, productId: int, kind: string,
                  quantity: Option<int>, price: Option<int>): (r: TxOutcome)
    ensures r.Committed? <==>
              && quantity.Some? && quantity.value > 0 && price.Some?
              && 1 <= productId <= |products|
              && (kind == "OUT" ==> quantity.value <= products[productId - 1].stock)
    ensures r.Committed? ==>
              r.newStock == StockAfter(products[productId - 1].stock, kind, quantity.value)
    ensures r.Committed? && products[productId - 1].stock >= 0 ==> r.newStock >= 0
    ensures quantity.None? ==> r == Failed(InvalidNumber)
    ensures quantity.Some? && quantity.value <= 0 ==> r == Failed(NonPositiveQuantity)
    ensures quantity.Some? && quantity.value > 0 && price.None? ==> r == Failed(InvalidNumber)
    ensures r == Failed(ProductNotFound) <==>
              quantity.Some? && quantity.value > 0 && price.Some? && !(1 <= productId <= |products|)
    ensures r.Failed? && r.error.InsufficientStock? ==>
              && kind == "OUT" && 1 <= productId <= |products|
              && r.error == InsufficientStock(products[productId - 1].stock, quantity.value)
    ensures quantity.Some? && quantity.value > 0 && price.Some? && 1 <= productId <= |products| ==>
              (r == Failed(InsufficientStock(products[productId - 1].stock, quantity.value))
               <==> kind == "OUT" && quantity.value > products[productId - 1].stock)
    ensures r.Failed? ==> r.error != NegativePrice
  {
    if quantity.None? then Failed(InvalidNumber)
    else if quantity.value <= 0 then Failed(NonPositiveQuantity)
    else if price.None? then Failed(InvalidNumber)
    else if !(1 <= productId <= |products|) then Failed(ProductNotFound)
    else
      var stock := products[productId - 1].stock;
      if kind == "OUT" && stock < quantity.value then Failed(InsufficientStock(stock, quantity.value))
      else Committed(StockAfter(stock, kind, quantity.value))
  }

  /** From tables `p0`/`l0` to `p1`/`l1`, by movements of type `kind`: no product was
      added, every product kept its imbalance between cached stock and ledger balance, no
      stock that was non-negative went below zero, and stocks only rose under "IN" and
      only fell under "OUT". */
  predicate StocksKept(p0: seq<Product>, l0: seq<Movement>, p1: seq<Product>, l1: seq<Movement>, kind: string)
  {
    && |p1| == |p0|
    && (forall id :: 1 <= id <= |p0| ==> p1[id - 1].stock - Net(l1, id) == p0[id - 1].stock - Net(l0, id))
    && (forall j :: 0 <= j < |p0| && p0[j].stock >= 0 ==> p1[j].stock >= 0)
    && (forall j :: 0 <= j < |p0| ==> (kind == "IN" ==> p1[j].stock >= p0[j].stock)
                                      && (kind == "OUT" ==> p1[j].stock <= p0[j].stock))
  }

  lemma StocksKeptTransitive(p0: seq<Product>, l0: seq<Movement>, p1: seq<Product>, l1: seq<Movement>,
                             p2: seq<Product>, l2: seq<Movement>, kind: string)
    requires StocksKept(p0, l0, p1, l1, kind) && StocksKept(p1, l1, p2, l2, kind)
    ensures StocksKept(p0, l0, p2, l2, kind)
  {
  }

  /** One committed movement of `kind` and a positive quantity, which for "OUT" is at
      most the stock, keeps the stocks as `StocksKept` says. */
  lemma MovementKeepsStocks(p0: seq<Product>, l0: seq<Movement>, p1: seq<Product>, l1: seq<Movement>,
                            id: int, kind: string, quantity: int)
    requires 1 <= id <= |p0| && |p1| == |p0| && quantity > 0
    requires kind == "OUT" ==> quantity <= p0[id - 1].stock
    requires forall i :: 1 <= i <= |p0| ==> p1[i - 1].stock - Net(l1, i) == p0[i - 1].stock - Net(l0, i)
    requires forall j :: 0 <= j < |p0| && j != id - 1 ==> p1[j].stock == p0[j].stock
    requires p1[id - 1].stock == StockAfter(p0[id - 1].stock, kind, quantity)
    ensures StocksKept(p0, l0, p1, l1, kind)
  {
  }

  /** Appending one row changes the balance of its own product by that row's delta and
      leaves every other product's balance alone. */
  lemma {:induction false} NetSnoc(rows: seq<Movement>, m: Movement, id: int)
    ensures Net(rows + [m], id) == Net(rows, id) + Delta(m, id)
  {
    assert (rows + [m])[..|rows + [m]| - 1] == rows;
  }

  /** `db_add_stock_transaction(product_id, transaction_type, quantity_str, unit_price_str,
      notes, user)`: the number checks, then the database transaction. A negative price
      is accepted in this version. */
  method AddStockTransaction(db: Database, productId: int, kind: string,
                             quantityText: string, priceText: string,
                             notes: string, user: string) returns (r: TxOutcome)
    requires db.Valid()
    modifies db
    ensures db.Valid()
    ensures r == Decide(old(db.products), productId, kind, ParseInt(quantityText), ParseInt(priceText))
    ensures r.Failed? ==>
              db.products == old(db.products) && db.ledger == old(db.ledger) && db.clock == old(db.clock)
    ensures r.Committed? ==>
              db.products == old(db.products)[productId - 1 :=
                               old(db.products)[productId - 1].(stock := r.newStock, updatedAt := old(db.clock))]
    ensures r.Committed? ==>
              var q := ParseInt(quantityText).value;
              var p := ParseInt(priceText).value;
              db.ledger == old(db.ledger) + [Movement(productId, kind, q, p, q * p, notes, user, old(db.clock) + 1)]
    ensures r.Committed? ==> db.clock == old(db.clock) + 2
    ensures |db.products| == |old(db.products)|
    ensures forall id :: 1 <= id <= |db.products| ==> db.Imbalance(id) == old(db.Imbalance(id))
    ensures StocksKept(old(db.products), old(db.ledger), db.products, db.ledger, kind)
  {
    var q := ParseInt(quantityText);
    if q.None? {
      return Failed(InvalidNumber);
    }
    var quantity := q.value;
    if quantity <= 0 {
      return Failed(NonPositiveQuantity);
    }
    var pr := ParseInt(priceText);
    if pr.None? {
      return Failed(InvalidNumber);
    }
    var unitPrice := pr.value;
    r := RecordMovement(db, productId, kind, quantity, unitPrice, notes, user);
  }

  /** The BEGIN ... COMMIT / ROLLBACK part of `db_add_stock_transaction`, once the numbers
      are known: the product lookup ignores the hidden flag; an unknown id or an `OUT`
      above the current stock rolls back; otherwise `current_stock` and `updated_at` are
      written and one row with `total_amount = quantity * unit_price` is appended.
      `updated_at` and the row's `timestamp` are two separate clock readings. */
  method RecordMovement(db: Database, productId: int, kind: string, quantity: int, unitPrice: int,
                        notes: string, user: string) returns (r: TxOutcome)
    requires db.Valid() && quantity > 0
    modifies db
    ensures db.Valid()
    ensures r == Decide(old(db.products), productId, kind, Some(quantity), Some(unitPrice))
    ensures r.Failed? ==>
              db.products == old(db.products) && db.ledger == old(db.ledger) && db.clock == old(db.clock)
    ensures r.Committed? ==>
              && db.products == old(db.products)[productId - 1 :=
                                  old(db.products)[productId - 1].(stock := r.newStock, updatedAt := old(db.clock))]
              && db.ledger == old(db.ledger) + [Movement(productId, kind, quantity, unitPrice, quantity * unitPrice,
                                                         notes, user, old(db.clock) + 1)]
              && db.clock == old(db.clock) + 2
    ensures |db.products| == |old(db.products)|
    ensures forall id :: 1 <= id <= |db.products| ==> db.Imbalance(id) == old(db.Imbalance(id))
    ensures StocksKept(old(db.products), old(db.ledger), db.products, db.ledger, kind)
  {
    var total := quantity * unitPrice;
    // BEGIN TRANSACTION
    if !(1 <= productId <= |db.products|) {
      return Failed(ProductNotFound);     // ROLLBACK
    }
    var currentStock := db.products[productId - 1].stock;
    var newStock := currentStock;
    if kind == "IN" {
      newStock := newStock + quantity;
    } else if kind == "OUT" {
      if currentStock < quantity {
        return Failed(InsufficientStock(currentStock, quantity));     // ROLLBACK
      }
      newStock := newStock - quantity;
    }
    CommitMovement(db, productId, kind, quantity, unitPrice, total, notes, user);
    r := Committed(newStock);
  }

  /** The writes of a movement that passed its checks: the two `datetime.now()` readings,
      the stock update and the ledger row, all in one transaction. */
  method CommitMovement(db: Database, productId: int, kind: string, quantity: int, unitPrice: int, total: int,
                        notes: string, user: string)
    requires db.Valid() && quantity > 0 && 1 <= productId <= |db.products|
    requires kind == "OUT" ==> quantity <= db.products[productId - 1].stock
    modifies db
    ensures db.Valid()
    ensures db.products == old(db.products)[productId - 1 :=
              old(db.products)[productId - 1].(stock := StockAfter(old(db.products)[productId - 1].stock, kind, quantity),
                                              updatedAt := old(db.clock))]
    ensures db.ledger == old(db.ledger) + [Movement(productId, kind, quantity, unitPrice, total, notes, user, old(db.clock) + 1)]
    ensures db.clock == old(db.clock) + 2
    ensures forall id :: 1 <= id <= |db.products| ==> db.Imbalance(id) == old(db.Imbalance(id))
    ensures StocksKept(old(db.products), old(db.ledger), db.products, db.ledger, kind)
  {
    var updatedAt := db.Now();
    var timestamp := db.Now();
    ghost var p0, l0 := db.products, db.ledger;
    WriteMovement(db, Movement(productId, kind, quantity, unitPrice, total, notes, user, timestamp), updatedAt);
    forall i | 1 <= i <= |p0|
      ensures db.products[i - 1].stock - Net(db.ledger, i) == p0[i - 1].stock - Net(l0, i)
    {
      assert db.Imbalance(i) == old(db.Imbalance(i));
    }
    MovementKeepsStocks(p0, l0, db.products, db.ledger, productId, kind, quantity);
  }

  /** The two writes of a committed movement: the product's `current_stock` (and
      `updated_at`) becomes what the movement leaves behind, and the movement is appended
      to the ledger. Every product's imbalance is kept. */
  method WriteMovement(db: Database, m: Movement, updatedAt: int)
    requires db.Valid() && 1 <= m.productId <= |db.products|
    modifies db`products, db`ledger
    ensures db.Valid()
    ensures db.products == old(db.products)[m.productId - 1 :=
              old(db.products)[m.productId - 1].(stock := StockAfter(old(db.products)[m.productId - 1].stock, m.kind, m.quantity),
                                                updatedAt := updatedAt)]
    ensures db.ledger == old(db.ledger) + [m]
    ensures forall id :: 1 <= id <= |db.products| ==> db.Imbalance(id) == old(db.Imbalance(id))
  {
    var product := db.products[m.productId - 1];
    var oldProducts, oldLedger := db.products, db.ledger;
    db.products := db.products[m.productId - 1 :=
                     product.(stock := StockAfter(product.stock, m.kind, m.quantity), updatedAt := updatedAt)];
    db.ledger := db.ledger + [m];
    SameSkusKeepValid(oldProducts, oldLedger, db);
    forall id | 1 <= id <= |db.products|
      ensures db.Imbalance(id) == old(db.Imbalance(id))
    {
      NetSnoc(oldLedger, m, id);
    }
  }

  /** Rewriting product fields other than the SKU, and appending a row that references an
      existing product, keeps the table invariants. */
  lemma SameSkusKeepValid(products: seq<Product>, ledger: seq<Movement>, db: Database)
    requires forall i :: 0 <= i < |ledger| ==> 1 <= ledger[i].productId <= |products|
    requires forall i, j :: 0 <= i < j < |products| ==> products[i].sku != products[j].sku
    requires |db.products| == |products|
    requires forall i :: 0 <= i < |products| ==> db.products[i].sku == products[i].sku
    requires |db.ledger| == |ledger| + 1 && db.ledger[..|ledger|] == ledger
    requires 1 <= db.ledger[|ledger|].productId <= |products|
    ensures db.Valid()
  {
    assert forall i :: 0 <= i < |ledger| ==> db.ledger[i] == ledger[i];
  }

  /** `db_check_product_has_transactions(product_id)`: whether some ledger row references the product. */
  function HasTransactions(db: Database, productId: int): (b: bool)
    reads db
    ensures b <==> exists i :: 0 <= i < |db.ledger| && db.ledger[i].productId == productId
  {
    RowCountPositive(db.ledger, productId);
    RowCount(db.ledger, productId) > 0
  }

  lemma {:induction false} RowCountPositive(rows: seq<Movement>, id: int)
    ensures RowCount(rows, id) > 0 <==> exists i :: 0 <= i < |rows| && rows[i].productId == id
  {
    if |rows| > 0 {
      var init := rows[..|rows| - 1];
      RowCountPositive(init, id);
      if exists i :: 0 <= i < |init| && init[i].productId == id {
        var i :| 0 <= i < |init| && init[i].productId == id;
        assert rows[i].productId == id;
      }
      if exists i :: 0 <= i < |rows| && rows[i].productId == id {
        var i :| 0 <= i < |rows| && rows[i].productId == id;
        if i < |rows| - 1 {
          assert init[i].productId == id;
        }
      }
    }
  }
}
