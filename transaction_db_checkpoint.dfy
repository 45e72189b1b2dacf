/** The editor-checkpoint copy of the ledger store
    (src/backend/transaction/.ipynb_checkpoints/database-checkpoint.py). It differs from
    the main copy in two ways: a negative unit price is refused before anything is
    written, and the stock update and the ledger row carry one and the same timestamp. */
module TransactionDbCheckpoint {
  import opened Common
  import opened Text
  import opened Store
  import opened TransactionDb

  /** The checkpoint's decision: the main copy's checks, with a sign check on the price
      placed right after the price is parsed. */
  function DecideChecked(products: seq<Product>, productId: int, kind: string,
                         quantity: Option<int>, price: Option<int>): (r: TxOutcome)
    ensures r == Failed(NegativePrice) <==>
              quantity.Some? && quantity.value > 0 && price.Some? && price.value < 0
    ensures r.Committed? <==>
              Decide(products, productId, kind, quantity, price).Committed? && price.value >= 0
    ensures r != Failed(NegativePrice) ==> r == Decide(products, productId, kind, quantity, price)
  {
    if quantity.None? then Failed(InvalidNumber)
    else if quantity.value <= 0 then Failed(NonPositiveQuantity)
    else if price.None? then Failed(InvalidNumber)
    else if price.value < 0 then Failed(NegativePrice)
    else Decide(products, productId, kind, quantity, price)
  }

  /** The two copies agree on every movement with a non-negative price text. */
  lemma CopiesAgreeOnNonNegativePrices(products: seq<Product>, productId: int, kind: string,
                                       quantityText: string, priceText: string)
    requires ParseInt(priceText).None? || ParseInt(priceText).value >= 0
    ensures DecideChecked(products, productId, kind, ParseInt(quantityText), ParseInt(priceText))
            == Decide(products, productId, kind, ParseInt(quantityText), ParseInt(priceText))
  {
  }

  /** `db_add_stock_transaction` of the checkpoint copy. */
  method AddStockTransaction(db: Database, productId: int, kind: string,
                             quantityText: string, priceText: string,
                             notes: string, user: string) returns (r: TxOutcome)
    requires db.Valid()
    modifies db
    ensures db.Valid()
    ensures r == DecideChecked(old(db.products), productId, kind, ParseInt(quantityText), ParseInt(priceText))
    ensures r.Failed? ==> db.products == old(db.products) && db.ledger == old(db.ledger)
    ensures r.Failed? && !r.error.InsufficientStock? ==> db.clock == old(db.clock)
    ensures r.Failed? && r.error.InsufficientStock? ==> db.clock == old(db.clock) + 1
    ensures r.Committed? ==>
              var q := ParseInt(quantityText).value;
              var p := ParseInt(priceText).value;
              && db.products == old(db.products)[productId - 1 :=
                                  old(db.products)[productId - 1].(stock := r.newStock, updatedAt := old(db.clock))]
              && db.ledger == old(db.ledger) + [Movement(productId, kind, q, p, q * p, notes, user, old(db.clock))]
              && db.clock == old(db.clock) + 1
    ensures |db.products| == |old(db.products)|
    ensures forall id :: 1 <= id <= |db.products| ==> db.Imbalance(id) == old(db.Imbalance(id))
    ensures StocksKept(old(db.products), old(db.ledger), db.products, db.ledger, kind)
  {
    var q := ParseInt(quantityText);
    if q.None? {
      return Failed(InvalidNumber);
    }
    var quantity := q.value;
    if quantity <= 0 {
      return Failed(NonPositiveQuantity);
    }
    var pr := ParseInt(priceText);
    if pr.None? {
      return Failed(InvalidNumber);
    }
    var unitPrice := pr.value;
    if unitPrice < 0 {
      return Failed(NegativePrice);
    }
    r := RecordMovementOnce(db, productId, kind, quantity, unitPrice, notes, user);
  }

  /** The database transaction of the checkpoint copy: the clock is read once, after the
      product is found, and that reading stamps both writes. */
  method RecordMovementOnce(db: Database, productId: int, kind: string, quantity: int, unitPrice: int,
                            notes: string, user: string) returns (r: TxOutcome)
    requires db.Valid() && quantity > 0
    modifies db
    ensures db.Valid()
    ensures r == Decide(old(db.products), productId, kind, Some(quantity), Some(unitPrice))
    ensures r.Failed? ==> db.products == old(db.products) && db.ledger == old(db.ledger)
    ensures r.Failed? && !r.error.InsufficientStock? ==> db.clock == old(db.clock)
    ensures r.Failed? && r.error.InsufficientStock? ==> db.clock == old(db.clock) + 1
    ensures r.Committed? ==>
              && db.products == old(db.products)[productId - 1 :=
                                  old(db.products)[productId - 1].(stock := r.newStock, updatedAt := old(db.clock))]
              && db.ledger == old(db.ledger) + [Movement(productId, kind, quantity, unitPrice, quantity * unitPrice,
                                                         notes, user, old(db.clock))]
              && db.clock == old(db.clock) + 1
    ensures |db.products| == |old(db.products)|
    ensures forall id :: 1 <= id <= |db.products| ==> db.Imbalance(id) == old(db.Imbalance(id))
    ensures StocksKept(old(db.products), old(db.ledger), db.products, db.ledger, kind)
  {
    var total := quantity * unitPrice;
    // BEGIN TRANSACTION
    if !(1 <= productId <= |db.products|) {
      return Failed(ProductNotFound);     // ROLLBACK
    }
    var currentStock := db.products[productId - 1].stock;
    var newStock := currentStock;
    var currentTime := db.Now();
    if kind == "IN" {
      newStock := newStock + quantity;
    } else if kind == "OUT" {
      if currentStock < quantity {
        return Failed(InsufficientStock(currentStock, quantity));     // ROLLBACK
      }
      newStock := newStock - quantity;
    }
    ghost var p0, l0 := db.products, db.ledger;
    assert p0 == old(db.products) && l0 == old(db.ledger);
    WriteMovement(db, Movement(productId, kind, quantity, unitPrice, total, notes, user, currentTime), currentTime);
    forall i | 1 <= i <= |p0|
      ensures db.products[i - 1].stock - Net(db.ledger, i) == p0[i - 1].stock - Net(l0, i)
    {
      assert db.Imbalance(i) == old(db.Imbalance(i));
    }
    MovementKeepsStocks(p0, l0, db.products, db.ledger, productId, kind, quantity);
    // COMMIT
    r := Committed(newStock);
  }
}
