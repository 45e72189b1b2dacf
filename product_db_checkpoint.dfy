/** The editor-checkpoint copy of the product catalog
    (src/backend/product/.ipynb_checkpoints/database-checkpoint.py). Its table has no
    `is_deleted` column, so its lookups see every product, and creating a product writes
    no ledger row for the opening stock. Its sort whitelist and order normalisation are
    the same as the main copy's (`ProductDb.SortColumn`, `ProductDb.OrderDirection`). */
module ProductDbCheckpoint {
  import opened Common
  import opened Text
  import opened Store
  import opened ProductDb

  /** `db_get_product_by_sku(sku)` without a hidden filter. */
  function ProductBySkuAny(db: Database, sku: string): (r: Option<int>)
    reads db
    ensures r.Some? ==> 1 <= r.value <= |db.products| && db.products[r.value - 1].sku == sku
    ensures r.None? <==> !SkuTaken(db.products, sku)
  {
    FindSkuFromFacts(db.products, sku, false, 0);
    FindSku(db.products, sku, false)
  }

  /** `db_get_product_by_id(product_id)` without a hidden filter. */
  function ProductByIdAny(db: Database, id: int): (r: Option<Product>)
    reads db
    ensures r.Some? <==> 1 <= id <= |db.products|
    ensures r.Some? ==> r.value == db.products[id - 1]
  {
    if 1 <= id <= |db.products| then Some(db.products[id - 1]) else None
  }

  /** `generate_unique_sku()` of the checkpoint copy: the collision check sees every
      product, so a SKU it hands out is free under the UNIQUE constraint too. */
  method GenerateUniqueSku(db: Database, draws: seq<string>) returns (sku: Option<string>)
    requires |draws| == MaxSkuAttempts && forall i :: 0 <= i < |draws| ==> IsUuidHex(draws[i])
    ensures sku.Some? ==> IsGeneratedSku(sku.value) && !SkuTaken(db.products, sku.value)
    ensures sku.Some? ==> exists i :: 0 <= i < |draws| && sku.value == SkuFromUuid(draws[i])
                                      && forall j :: 0 <= j < i ==> SkuTaken(db.products, SkuFromUuid(draws[j]))
    ensures sku.None? <==> forall i :: 0 <= i < |draws| ==> SkuTaken(db.products, SkuFromUuid(draws[i]))
  {
    for i := 0 to MaxSkuAttempts
      invariant forall j :: 0 <= j < i ==> SkuTaken(db.products, SkuFromUuid(draws[j]))
    {
      var candidate := SkuFromUuid(draws[i]);
      if ProductBySkuAny(db, candidate).None? {
        return Some(candidate);
      }
    }
    return None;
  }

  /** `db_add_product` of the checkpoint copy: a single insert of the product row. The
      opening stock is not written to the ledger, so the new product starts with an
      imbalance equal to its opening stock. */
  method AddProduct(db: Database, name: string, sku: string, description: string, unit: string,
                    stock: PyValue, price: PyValue) returns (r: Result<int, AddError>)
    requires db.Valid()
    modifies db
    ensures db.Valid()
    ensures db.clock == old(db.clock) + 1
    ensures db.ledger == old(db.ledger)
    ensures r.Ok? <==> ToInt(stock).Some? && ToInt(price).Some? && !SkuTaken(old(db.products), sku)
    ensures r.Err? ==> db.products == old(db.products)
    ensures r.Err? ==> (r.error == NotAnInteger <==> ToInt(stock).None? || ToInt(price).None?)
    ensures r.Ok? ==>
              var s, p, t := ToInt(stock).value, ToInt(price).value, old(db.clock);
              && r.value == |old(db.products)| + 1
              && db.products == old(db.products) + [Product(sku, name, description, unit, s, p, false, t, t)]
    ensures forall id :: 1 <= id <= |old(db.products)| ==> db.Imbalance(id) == old(db.Imbalance(id))
    ensures r.Ok? ==> db.Imbalance(r.value) == ToInt(stock).value
  {
    var currentTime := db.Now();
    var s := ToInt(stock);
    var p := ToInt(price);
    if s.None? || p.None? {
      return Err(NotAnInteger);
    }
    if SkuTaken(db.products, sku) {
      return Err(DuplicateSku);
    }
    var productId := |db.products| + 1;
    NetOfOtherRows(db.ledger, productId);
    db.products := db.products + [Product(sku, name, description, unit, s.value, p.value, false, currentTime, currentTime)];
    r := Ok(productId);
  }
}
