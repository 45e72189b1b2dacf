/** `them_san_pham_moi` of src/backend/product/logic.py: the field checks of the web form,
    a SKU existence check through the visible lookup, then `db_add_product`. */
module ProductLogic {
  import opened Common
  import opened Text
  import opened Store
  import opened ProductDb

  const MaxSkuLength: nat := 10
  const MaxNameLength: nat := 100
  const MaxUnitLength: nat := 20

  datatype NewProductError =
    | InvalidSku                // empty, or longer than 10 characters
    | InvalidName               // empty, or longer than 100 characters
    | UnitTooLong               // longer than 20 characters (an empty unit is allowed)
    | NotANumber                // stock or price text is not a number
    | NegativeNumber            // stock or price below 0
    | SkuExists                 // a visible product already has the SKU
    | InsertFailed(cause: AddError)   // `db_add_product` returned no id

  datatype NewProductOutcome = Added | Rejected(reason: NewProductError)

  /** Lines 26-40, given what `int(float())` made of the stock and price texts (`None`
      where it raised): the checks run in the order SKU, name, unit, numbers, signs, and
      the first failing one is reported; on success the stock and price. */
  function Validate(sku: string, name: string, unit: string,
                    stock: Option<int>, price: Option<int>): (r: Result<(int, int), NewProductError>)
    ensures r == Err(InvalidSku) <==> !(0 < |sku| <= MaxSkuLength)
    ensures r == Err(InvalidName) <==> 0 < |sku| <= MaxSkuLength && !(0 < |name| <= MaxNameLength)
    ensures r == Err(UnitTooLong) <==>
              0 < |sku| <= MaxSkuLength && 0 < |name| <= MaxNameLength && |unit| > MaxUnitLength
    ensures r == Err(NotANumber) <==>
              && 0 < |sku| <= MaxSkuLength && 0 < |name| <= MaxNameLength && |unit| <= MaxUnitLength
              && (stock.None? || price.None?)
    ensures r == Err(NegativeNumber) <==>
              && 0 < |sku| <= MaxSkuLength && 0 < |name| <= MaxNameLength && |unit| <= MaxUnitLength
              && stock.Some? && price.Some? && (stock.value < 0 || price.value < 0)
    ensures r.Ok? <==>
              && 0 < |sku| <= MaxSkuLength && 0 < |name| <= MaxNameLength && |unit| <= MaxUnitLength
              && stock.Some? && price.Some? && stock.value >= 0 && price.value >= 0
    ensures r.Ok? ==> r.value == (stock.value, price.value)
    ensures r.Err? ==> !r.error.SkuExists? && !r.error.InsertFailed?
  {
    if !(0 < |sku| <= MaxSkuLength) then Err(InvalidSku)
    else if !(0 < |name| <= MaxNameLength) then Err(InvalidName)
    else if |unit| > 0 && |unit| > MaxUnitLength then Err(UnitTooLong)
    else if stock.None? || price.None? then Err(NotANumber)
    else if stock.value < 0 || price.value < 0 then Err(NegativeNumber)
    else Ok((stock.value, price.value))
  }

  /** Every SKU the generator produces passes the SKU check. */
  lemma GeneratedSkuPassesSkuCheck(sku: string, name: string, unit: string, stockText: string, priceText: string)
    requires IsGeneratedSku(sku)
    ensures Validate(sku, name, unit, ParseInt(stockText), ParseInt(priceText)) != Err(InvalidSku)
  {
  }

  /** `them_san_pham_moi(sku, name, unit_of_measure, current_stock_str, price_str, description)`.
      It succeeds exactly when the fields pass and no product at all, hidden or visible,
      has the SKU: a visible one is caught by the existence check, a hidden one only by the
      UNIQUE constraint inside `db_add_product`. */
  method AddNewProduct(db: Database, sku: string, name: string, unit: string,
                       stockText: string, priceText: string, description: string)
    returns (r: NewProductOutcome)
    requires db.Valid()
    modifies db
    ensures db.Valid()
    ensures var v := Validate(sku, name, unit, ParseInt(stockText), ParseInt(priceText));
            r.Added? <==> v.Ok? && !SkuTaken(old(db.products), sku)
    ensures var v := Validate(sku, name, unit, ParseInt(stockText), ParseInt(priceText));
            v.Err? ==> r == Rejected(v.error)
    ensures var v := Validate(sku, name, unit, ParseInt(stockText), ParseInt(priceText));
            v.Ok? && old(ProductBySku(db, sku)).Some? ==> r == Rejected(SkuExists)
    ensures var v := Validate(sku, name, unit, ParseInt(stockText), ParseInt(priceText));
            (v.Ok? && old(ProductBySku(db, sku)).None? && SkuTaken(old(db.products), sku))
            ==> r == Rejected(InsertFailed(DuplicateSku))
    ensures r.Rejected? ==> db.products == old(db.products) && db.ledger == old(db.ledger)
    ensures r.Added? ==>
              var (s, p) := Validate(sku, name, unit, ParseInt(stockText), ParseInt(priceText)).value;
              && db.products == old(db.products) + [Product(sku, name, description, unit, s, p, false,
                                                            old(db.clock), old(db.clock))]
              && db.ledger == old(db.ledger) +
                   (if s > 0 then [Movement(|db.products|, "IN", s, p, s * p, OpeningNotes, OpeningUser, old(db.clock))]
                    else [])
              && db.Imbalance(|db.products|) == 0
    ensures forall id :: 1 <= id <= |old(db.products)| ==> db.Imbalance(id) == old(db.Imbalance(id))
  {
    var stockValue := ParseInt(stockText);
    var priceValue := ParseInt(priceText);
    var checked := Validate(sku, name, unit, stockValue, priceValue);
    if checked.Err? {
      return Rejected(checked.error);
    }
    var (stock, price) := checked.value;
    if ProductBySku(db, sku).Some? {
      return Rejected(SkuExists);
    }
    var added := AddProduct(db, name, sku, description, unit, PyInt(stock), PyInt(price));
    if added.Ok? {
      r := Added;
    } else {
      r := Rejected(InsertFailed(added.error));
    }
  }
}
