/** The SQLite database the web version works on, as in-memory state: the `products`
    table and the append-only `stock_transactions` table (the ledger).

    A product's id is its position in `products` plus one: ids come from AUTOINCREMENT
    starting at 1, a failed insert is rolled back, and rows are never physically deleted
    (hiding a product only sets its `is_deleted` flag). */
module Store {
  import opened Common

  /** One row of `products`. `hidden` is the `is_deleted` flag; timestamps are clock readings. */
  datatype Product = Product(
    sku: string,
    name: string,
    description: string,
    unit: string,
    stock: int,
    price: int,
    hidden: bool,
    createdAt: int,
    updatedAt: int)

  /** One row of `stock_transactions`. `kind` is the `transaction_type` text ("IN" or "OUT"
      from every caller) and `total` the `total_amount` column. */
  datatype Movement = Movement(
    productId: int,
    kind: string,
    quantity: int,
    unitPrice: int,
    total: int,
    notes: string,
    user: string,
    timestamp: int)

  /** What one ledger row does to the stock of product `id`. */
  function Delta(m: Movement, id: int): int
  {
    if m.productId != id then 0
    else if m.kind == "IN" then m.quantity
    else if m.kind == "OUT" then -m.quantity
    else 0
  }

  /** Σ IN quantities − Σ OUT quantities of product `id` over `rows`. */
  function Net(rows: seq<Movement>, id: int): int
  {
    if |rows| == 0 then 0 else Net(rows[..|rows| - 1], id) + Delta(rows[|rows| - 1], id)
  }

  /** Number of ledger rows that reference product `id`. */
  function RowCount(rows: seq<Movement>, id: int): nat
  {
    if |rows| == 0 then 0
    else RowCount(rows[..|rows| - 1], id) + (if rows[|rows| - 1].productId == id then 1 else 0)
  }

  /** The balance of a ledger is the sum of the balances of its parts, so the stock a
      product gains over a run of movements is the balance of the rows that run appended. */
  lemma {:induction false} NetAppend(a: seq<Movement>, b: seq<Movement>, id: int)
    ensures Net(a + b, id) == Net(a, id) + Net(b, id)
    ensures RowCount(a + b, id) == RowCount(a, id) + RowCount(b, id)
    decreases |b|
  {
    if |b| > 0 {
      var b' := b[..|b| - 1];
      assert (a + b)[..|a + b| - 1] == a + b';
      NetAppend(a, b', id);
    } else {
      assert a + b == a;
    }
  }

  /** A ledger none of whose rows reference `id` has no balance for it. */
  lemma {:induction false} NetOfOtherRows(rows: seq<Movement>, id: int)
    requires forall i :: 0 <= i < |rows| ==> rows[i].productId != id
    ensures Net(rows, id) == 0 && RowCount(rows, id) == 0
  {
    if |rows| > 0 {
      NetOfOtherRows(rows[..|rows| - 1], id);
    }
  }

  /** Whether a `WHERE sku = ?` lookup finds product `p`; `visibleOnly` adds `AND is_deleted = 0`. */
  predicate SkuMatches(p: Product, sku: string, visibleOnly: bool)
  {
    p.sku == sku && (visibleOnly ==> !p.hidden)
  }

  /** The id of the first product from position `from` on that a SKU lookup finds. */
  function FindSkuFrom(products: seq<Product>, sku: string, visibleOnly: bool, from: nat): (r: Option<int>)
    requires from <= |products|
    ensures r.Some? ==> from < r.value <= |products|
    decreases |products| - from
  {
    if from == |products| then None
    else if SkuMatches(products[from], sku, visibleOnly) then Some(from + 1)
    else FindSkuFrom(products, sku, visibleOnly, from + 1)
  }

  /** The lookup finds nothing exactly when no product from `from` on matches, and
      otherwise finds the first one that does. */
  lemma {:induction false} FindSkuFromFacts(products: seq<Product>, sku: string, visibleOnly: bool, from: nat)
    requires from <= |products|
    ensures var r := FindSkuFrom(products, sku, visibleOnly, from);
            && (r.None? <==> forall j :: from <= j < |products| ==> !SkuMatches(products[j], sku, visibleOnly))
            && (r.Some? ==> && SkuMatches(products[r.value - 1], sku, visibleOnly)
                            && forall j :: from <= j < r.value - 1 ==> !SkuMatches(products[j], sku, visibleOnly))
    decreases |products| - from
  {
    if from < |products| && !SkuMatches(products[from], sku, visibleOnly) {
      FindSkuFromFacts(products, sku, visibleOnly, from + 1);
    }
  }

  /** `SELECT * FROM products WHERE sku = ? [AND is_deleted = 0]`, as the id of the row found. */
  function FindSku(products: seq<Product>, sku: string, visibleOnly: bool): Option<int>
  {
    FindSkuFrom(products, sku, visibleOnly, 0)
  }

  /** With unique SKUs the lookup has at most one row to find: whatever product carries the
      SKU (and passes the filter) is the one found. */
  lemma FindSkuUnique(products: seq<Product>, sku: string, visibleOnly: bool, i: nat)
    requires forall a, b :: 0 <= a < b < |products| ==> products[a].sku != products[b].sku
    requires i < |products| && SkuMatches(products[i], sku, visibleOnly)
    ensures FindSku(products, sku, visibleOnly) == Some(i + 1)
  {
    FindSkuFromFacts(products, sku, visibleOnly, 0);
    var r := FindSku(products, sku, visibleOnly);
    assert r.Some?;
    assert !(r.value - 1 < i);
  }

  class Database {
    var products: seq<Product>
    var ledger: seq<Movement>
    /** The reading `datetime.now()` gives next; every reading advances it. */
    var clock: int

    /** Table invariants: every ledger row references an existing product (the foreign
        key), and SKUs are unique over all products, hidden ones included (the UNIQUE
        constraint). */
    ghost predicate Valid()
      reads this`products, this`ledger
    {
      && (forall i :: 0 <= i < |ledger| ==> 1 <= ledger[i].productId <= |products|)
      && (forall i, j :: 0 <= i < j < |products| ==> products[i].sku != products[j].sku)
    }

    /** The cached `current_stock` of product `id`. */
    function Stock(id: int): int
      reads this`products
      requires 1 <= id <= |products|
    {
      products[id - 1].stock
    }

    /** How far the cached `current_stock` of product `id` is from what its ledger rows add
        up to. The ledger store keeps this unchanged; it is 0 for a product created with its
        opening stock written as an `IN` row. */
    function Imbalance(id: int): int
      reads this`products, this`ledger
      requires 1 <= id <= |products|
    {
      products[id - 1].stock - Net(ledger, id)
    }

    constructor ()
      ensures Valid()
      ensures products == [] && ledger == []
    {
      products := [];
      ledger := [];
      clock := 0;
    }

    /** `datetime.datetime.now()`. */
    method Now() returns (t: int)
      modifies this`clock
      ensures t == old(clock) && clock == old(clock) + 1
    {
      t := clock;
      clock := clock + 1;
    }
  }
}
