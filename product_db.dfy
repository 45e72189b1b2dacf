/** The product catalog of src/backend/product/database.py: the SKU generator, product
    creation with its opening ledger row, the lookups that hide soft-deleted products,
    the sort whitelist, editing, and soft deletion. */
module ProductDb {
  import opened Common
  import opened Text
  import opened Store

  /** How many candidate SKUs the generator tries. */
  const MaxSkuAttempts: nat := 10

  const SkuPrefix: string := "SP-"

  /** Notes and user of the opening `IN` row written for a product created with stock. */
  const OpeningNotes: string := "Tồn kho ban đầu khi tạo sản phẩm"
  const OpeningUser: string := "system_init"

  predicate IsLowerHexDigit(c: char) { '0' <= c <= '9' || 'a' <= c <= 'f' }

  predicate IsUpperHexDigit(c: char) { '0' <= c <= '9' || 'A' <= c <= 'F' }

  /** What `uuid.uuid4().hex` can be: 32 lower-case hexadecimal digits. */
  predicate IsUuidHex(h: string)
  {
    |h| == 32 && forall i :: 0 <= i < |h| ==> IsLowerHexDigit(h[i])
  }

  /** The shape of a generated SKU: `SP-` and five upper-case hexadecimal digits. */
  predicate IsGeneratedSku(s: string)
  {
    |s| == 8 && s[..3] == SkuPrefix && forall i :: 3 <= i < 8 ==> IsUpperHexDigit(s[i])
  }

  /** `f"SP-{hex[:5].upper()}"`. */
  function SkuFromUuid(hex: string): (sku: string)
    requires IsUuidHex(hex)
    ensures IsGeneratedSku(sku)
    ensures sku[3..] == Upper(hex[..5])
  {
    var h := hex[..5];
    var u := Upper(h);
    assert forall i :: 0 <= i < 5 ==> IsLowerHexDigit(h[i]);
    assert forall i :: 0 <= i < 5 ==> IsUpperHexDigit(u[i]);
    var sku := SkuPrefix + u;
    assert sku[..3] == SkuPrefix && sku[3..] == u;
    sku
  }

  /** `db_get_product_by_sku(sku)`: the id of the visible product with that SKU. */
  function ProductBySku(db: Database, sku: string): (r: Option<int>)
    reads db
    ensures r.Some? ==> 1 <= r.value <= |db.products|
                        && db.products[r.value - 1].sku == sku && !db.products[r.value - 1].hidden
    ensures r.None? <==> forall j :: 0 <= j < |db.products| ==> db.products[j].sku == sku ==> db.products[j].hidden
  {
    FindSkuFromFacts(db.products, sku, true, 0);
    FindSku(db.products, sku, true)
  }

  /** `db_get_product_by_id(product_id)`: the product, unless there is none or it is hidden. */
  function ProductById(db: Database, id: int): (r: Option<Product>)
    reads db
    ensures r.Some? <==> 1 <= id <= |db.products| && !db.products[id - 1].hidden
    ensures r.Some? ==> r.value == db.products[id - 1]
  {
    if 1 <= id <= |db.products| && !db.products[id - 1].hidden then Some(db.products[id - 1]) else None
  }

  /** `generate_unique_sku()`, with `draws` standing for the successive `uuid4().hex`
      values: the first candidate the visible-SKU lookup does not find, or `None` after ten
      candidates that all were found. A hidden product's SKU counts as free. */
  method GenerateUniqueSku(db: Database, draws: seq<string>) returns (sku: Option<string>)
    requires |draws| == MaxSkuAttempts && forall i :: 0 <= i < |draws| ==> IsUuidHex(draws[i])
    ensures sku.Some? ==> IsGeneratedSku(sku.value) && ProductBySku(db, sku.value).None?
    ensures sku.Some? ==> exists i :: 0 <= i < |draws| && sku.value == SkuFromUuid(draws[i])
                                      && forall j :: 0 <= j < i ==> ProductBySku(db, SkuFromUuid(draws[j])).Some?
    ensures sku.None? <==> forall i :: 0 <= i < |draws| ==> ProductBySku(db, SkuFromUuid(draws[i])).Some?
  {
    for i := 0 to MaxSkuAttempts
      invariant forall j :: 0 <= j < i ==> ProductBySku(db, SkuFromUuid(draws[j])).Some?
    {
      var candidate := SkuFromUuid(draws[i]);
      if ProductBySku(db, candidate).None? {
        return Some(candidate);
      }
    }
    return None;
  }

  /** The generator's collision check misses hidden products, so when the first draw names
      the SKU of a hidden product the generator hands out that SKU, although the UNIQUE
      constraint still holds it: inserting it will fail. */
  lemma HiddenSkuIsHandedOut(db: Database, draws: seq<string>, i: nat)
    requires |draws| == MaxSkuAttempts && forall k :: 0 <= k < |draws| ==> IsUuidHex(draws[k])
    requires db.Valid() && i < |db.products| && db.products[i].hidden
    requires db.products[i].sku == SkuFromUuid(draws[0])
    ensures ProductBySku(db, SkuFromUuid(draws[0])).None?
    ensures FindSku(db.products, SkuFromUuid(draws[0]), false) == Some(i + 1)
  {
    FindSkuUnique(db.products, SkuFromUuid(draws[0]), false, i);
    var sku := SkuFromUuid(draws[0]);
    forall j | 0 <= j < |db.products| && db.products[j].sku == sku
      ensures db.products[j].hidden
    {
      assert j == i;
    }
  }

  /** Why `db_add_product` returned `None`. */
  datatype AddError =
    | NotAnInteger   // `int(current_stock)` or `int(price)` raised ValueError
    | DuplicateSku   // the UNIQUE constraint on `sku` (hidden products included)

  /** Whether some product, hidden or not, already carries `sku`. */
  predicate SkuTaken(products: seq<Product>, sku: string)
  {
    exists j :: 0 <= j < |products| && products[j].sku == sku
  }

  /** `db_add_product(name, sku, description, unit_of_measure, current_stock, price)`: in one
      transaction, insert the product (visible, both timestamps one clock reading) and, when
      the opening stock is above 0, one `IN` row for it; any failure rolls both back. The
      new id is the next AUTOINCREMENT value. */
  method AddProduct(db: Database, name: string, sku: string, description: string, unit: string,
                    stock: PyValue, price: PyValue) returns (r: Result<int, AddError>)
    requires db.Valid()
    modifies db
    ensures db.Valid()
    ensures db.clock == old(db.clock) + 1
    ensures r.Ok? <==> ToInt(stock).Some? && ToInt(price).Some? && !SkuTaken(old(db.products), sku)
    ensures r.Err? ==> db.products == old(db.products) && db.ledger == old(db.ledger)
    ensures r.Err? ==> (r.error == NotAnInteger <==> ToInt(stock).None? || ToInt(price).None?)
    ensures r.Ok? ==>
              var s, p, t := ToInt(stock).value, ToInt(price).value, old(db.clock);
              && r.value == |old(db.products)| + 1
              && db.products == old(db.products) + [Product(sku, name, description, unit, s, p, false, t, t)]
              && db.ledger == old(db.ledger) +
                   (if s > 0 then [Movement(r.value, "IN", s, p, s * p, OpeningNotes, OpeningUser, t)] else [])
    ensures forall id :: 1 <= id <= |old(db.products)| ==> db.Imbalance(id) == old(db.Imbalance(id))
    ensures r.Ok? && ToInt(stock).value >= 0 ==> db.Imbalance(r.value) == 0
  {
    // BEGIN TRANSACTION
    var currentTime := db.Now();
    var s := ToInt(stock);
    var p := ToInt(price);
    if s.None? || p.None? {
      return Err(NotAnInteger);        // ROLLBACK
    }
    if SkuTaken(db.products, sku) {
      return Err(DuplicateSku);        // ROLLBACK
    }
    var row := Product(sku, name, description, unit, s.value, p.value, false, currentTime, currentTime);
    var productId := InsertProduct(db, row);
    // COMMIT
    r := Ok(productId);
  }

  /** The two inserts of `db_add_product`: the product row, then, when its stock is above
      0, an `IN` row for that stock at that price, stamped with the creation time. */
  method InsertProduct(db: Database, p: Product) returns (productId: int)
    requires db.Valid() && !SkuTaken(db.products, p.sku)
    modifies db`products, db`ledger
    ensures db.Valid()
    ensures productId == |old(db.products)| + 1
    ensures db.products == old(db.products) + [p]
    ensures db.ledger == old(db.ledger) +
              (if p.stock > 0 then [Movement(productId, "IN", p.stock, p.price, p.stock * p.price,
                                             OpeningNotes, OpeningUser, p.createdAt)] else [])
    ensures forall id :: 1 <= id <= |old(db.products)| ==> db.Imbalance(id) == old(db.Imbalance(id))
    ensures p.stock >= 0 ==> db.Imbalance(productId) == 0
  {
    var oldLedger := db.ledger;
    productId := |db.products| + 1;
    NetOfOtherRows(db.ledger, productId);
    db.products := db.products + [p];
    if p.stock > 0 {
      var row := Movement(productId, "IN", p.stock, p.price, p.stock * p.price, OpeningNotes, OpeningUser, p.createdAt);
      db.ledger := db.ledger + [row];
      forall id | 1 <= id <= |db.products|
        ensures Net(db.ledger, id) == Net(oldLedger, id) + Delta(row, id)
      {
        assert (oldLedger + [row])[..|oldLedger|] == oldLedger;
      }
    }
  }

  /** `valid_sort_columns` of `db_get_all_products`. */
  const SortColumns: seq<string> := ["name", "sku", "current_stock", "price", "updated_at", "id", "unit_of_measure"]

  /** The column the product list is ordered by: the requested one when whitelisted,
      otherwise `name`. Nothing outside the whitelist ever reaches the query. */
  function SortColumn(sortBy: string): (r: string)
    ensures r in SortColumns
    ensures sortBy in SortColumns ==> r == sortBy
    ensures sortBy !in SortColumns ==> r == "name"
  {
    if sortBy in SortColumns then sortBy else "name"
  }

  /** `'ASC' if order.upper() == 'ASC' else 'DESC'`. */
  function OrderDirection(order: string): (r: string)
    ensures r == "ASC" || r == "DESC"
    ensures r == "ASC" <==> Upper(order) == "ASC"
  {
    if Upper(order) == "ASC" then "ASC" else "DESC"
  }

  /** Normalising a sort request twice gives what normalising it once gives. */
  lemma SortRequestNormalIdempotent(sortBy: string, order: string)
    ensures SortColumn(SortColumn(sortBy)) == SortColumn(sortBy)
    ensures OrderDirection(OrderDirection(order)) == OrderDirection(order)
  {
    if OrderDirection(order) == "DESC" {
      var u := Upper("DESC");
      assert u[0] == 'D';
    }
  }

  /** `db_update_product(product_id, name, description, unit_of_measure, price)`: the clock
      is read, then `int(price)`; the UPDATE writes name, description, unit, price and
      `updated_at` of the row with that id, hidden or not, and never the SKU or the stock.
      An id that matches no row updates nothing and still reports success. */
  method UpdateProduct(db: Database, id: int, name: string, description: string, unit: string,
                       price: PyValue) returns (ok: bool)
    requires db.Valid()
    modifies db
    ensures db.Valid()
    ensures ok <==> ToInt(price).Some?
    ensures db.clock == old(db.clock) + 1
    ensures db.ledger == old(db.ledger)
    ensures |db.products| == |old(db.products)|
    ensures forall j :: 0 <= j < |db.products| ==>
              db.products[j].sku == old(db.products[j].sku) && db.products[j].stock == old(db.products[j].stock)
    ensures forall id' :: 1 <= id' <= |db.products| ==> db.Imbalance(id') == old(db.Imbalance(id'))
    ensures ok && 1 <= id <= |db.products| ==>
              db.products == old(db.products)[id - 1 := old(db.products[id - 1]).(
                               name := name, description := description, unit := unit,
                               price := ToInt(price).value, updatedAt := old(db.clock))]
    ensures !(ok && 1 <= id <= |db.products|) ==> db.products == old(db.products)
  {
    var currentTime := db.Now();
    ok := EditRow(db, id, name, description, unit, ToInt(price), currentTime);
  }

  /** The `UPDATE products SET ... WHERE id = ?` statement itself, given what `int()`
      made of the price: nothing is written without a price, and a row that does not
      exist is left alone. */
  method EditRow(db: Database, id: int, name: string, description: string, unit: string,
                 price: Option<int>, time: int) returns (ok: bool)
    requires db.Valid()
    modifies db`products
    ensures ok <==> price.Some?
    ensures db.Valid()
    ensures |db.products| == |old(db.products)|
    ensures forall j :: 0 <= j < |db.products| ==>
              db.products[j].sku == old(db.products[j].sku) && db.products[j].stock == old(db.products[j].stock)
    ensures forall id' :: 1 <= id' <= |db.products| ==> db.Imbalance(id') == old(db.Imbalance(id'))
    ensures db.products == if price.Some? && 1 <= id <= |old(db.products)|
                           then old(db.products)[id - 1 := old(db.products[id - 1]).(
                                  name := name, description := description, unit := unit,
                                  price := price.value, updatedAt := time)]
                           else old(db.products)
  {
    if price.None? {
      return false;
    }
    if 1 <= id <= |db.products| {
      var row := db.products[id - 1];
      db.products := db.products[id - 1 := row.(name := name, description := description, unit := unit,
                                                price := price.value, updatedAt := time)];
    }
    return true;
  }

  /** `db_delete_product_by_id(product_id)`: the lookup finds hidden rows too; an unknown id
      fails with nothing changed, otherwise only `is_deleted` and `updated_at` are written,
      so hiding a hidden product succeeds again. */
  method DeleteProductById(db: Database, id: int) returns (ok: bool)
    requires db.Valid()
    modifies db
    ensures db.Valid()
    ensures ok <==> 1 <= id <= |old(db.products)|
    ensures !ok ==> db.products == old(db.products) && db.clock == old(db.clock)
    ensures ok ==> db.products == old(db.products)[id - 1 := old(db.products[id - 1]).(
                                    hidden := true, updatedAt := old(db.clock))]
                   && db.clock == old(db.clock) + 1
    ensures ok ==> ProductById(db, id).None?
    ensures db.ledger == old(db.ledger)
    ensures forall id' :: 1 <= id' <= |db.products| ==> db.Imbalance(id') == old(db.Imbalance(id'))
  {
    if !(1 <= id <= |db.products|) {
      return false;
    }
    var currentTime := db.Now();
    var p := db.products[id - 1];
    db.products := db.products[id - 1 := p.(hidden := true, updatedAt := currentTime)];
    return true;
  }
}
