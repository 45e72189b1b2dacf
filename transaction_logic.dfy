/** The batch import of src/backend/transaction/logic.py: a file of stock movements is
    read, and every entry becomes one call of `db_add_stock_transaction` at the product's
    current price. A failing entry is counted and reported; it never stops the entries
    after it, and every entry is its own database transaction. */
module TransactionLogic {
  import opened Common
  import opened Text
  import opened Store
  import opened TransactionDb
  import opened ProductDb
  import opened CsvImport

  /** The `user` recorded on every ledger row a batch writes. */
  const BatchUser := "file_csv"
  /** At most this many row errors are listed in the summary text. */
  const MaxShownErrors: nat := 5

  /** Why one entry of the file was not booked. */
  datatype RowFailure =
    | MissingField                          // empty code or quantity after stripping
    | UnknownSku(sku: string)               // no visible product with that SKU
    | Rejected(sku: string, error: TxError) // refused by the ledger store

  /** One line of `error_messages_summary`: the entry's 1-based position and its failure. */
  datatype RowError = RowError(line: nat, failure: RowFailure)

  /** What `_process_stock_file` reports. */
  datatype BatchReport =
    | ReadFailure(error: ReadError)
    | NoData
    | Summary(succeeded: nat, failed: nat, processed: nat, errors: seq<RowError>)

  /** The boolean `_process_stock_file` returns with its report. */
  function Succeeded(report: BatchReport): bool
  {
    match report
    case ReadFailure(_) => false
    case NoData => true
    case Summary(succeeded, _, processed, _) => succeeded > 0 || processed == 0
  }

  /** The errors the summary text details: the first five, in file order. */
  function ShownErrors(errors: seq<RowError>): (r: seq<RowError>)
    ensures |r| <= MaxShownErrors
    ensures r <= errors
    ensures |errors| <= MaxShownErrors ==> r == errors
  {
    errors[..Min(MaxShownErrors, |errors|)]
  }

  /** The notes of the ledger row booked for entry `line` of file `path`. */
  function BatchNotes(path: string, line: nat, notes: string): string
  {
    "Từ file " + Basename(path) + ", dòng " + IntToString(line) + ". Ghi chú: " + notes
  }

  /** The notes identify the entry: within one file, two entries get the same notes only
      when they stand on the same line and carry the same notes of their own. */
  lemma BatchNotesIdentifyEntry(path: string, line1: nat, notes1: string, line2: nat, notes2: string)
    requires BatchNotes(path, line1, notes1) == BatchNotes(path, line2, notes2)
    ensures line1 == line2 && notes1 == notes2
  {
    var head := "Từ file " + Basename(path) + ", dòng ";
    var tail := ". Ghi chú: ";
    var d1, d2 := NatToString(line1), NatToString(line2);
    assert BatchNotes(path, line1, notes1) == head + d1 + tail + notes1;
    assert BatchNotes(path, line2, notes2) == head + d2 + tail + notes2;
    assert (tail + notes1)[0] == '.' && (tail + notes2)[0] == '.';
    assert head + d1 + (tail + notes1) == head + d1 + tail + notes1;
    assert head + d2 + (tail + notes2) == head + d2 + tail + notes2;
    SplitAtDigits(head, d1, tail + notes1, d2, tail + notes2);
    assert notes1 == (tail + notes1)[|tail|..];
    assert notes2 == (tail + notes2)[|tail|..];
    NatToStringValue(line1);
    NatToStringValue(line2);
  }

  /** Behind a common head, a digit text followed by a non-digit is recovered from the
      whole text. */
  lemma SplitAtDigits(head: string, d1: string, r1: string, d2: string, r2: string)
    requires forall i :: 0 <= i < |d1| ==> IsDigit(d1[i])
    requires forall i :: 0 <= i < |d2| ==> IsDigit(d2[i])
    requires |r1| > 0 && !IsDigit(r1[0]) && |r2| > 0 && !IsDigit(r2[0])
    requires head + d1 + r1 == head + d2 + r2
    ensures d1 == d2 && r1 == r2
  {
    var rest := (head + d1 + r1)[|head|..];
    assert rest == d1 + r1;
    assert rest == d2 + r2;
    DigitsEndAt(d1, r1);
    DigitsEndAt(d2, r2);
    assert d1 == rest[..|d1|] == d2;
    assert r1 == rest[|d1|..] == r2;
  }

  /** The length of the run of digits a text starts with. */
  function DigitRun(s: string): (n: nat)
    ensures n <= |s|
  {
    if |s| == 0 || !IsDigit(s[0]) then 0 else 1 + DigitRun(s[1..])
  }

  /** A digit text followed by a non-digit: the leading run of digits is that text. */
  lemma {:induction false} DigitsEndAt(d: string, r: string)
    requires forall i :: 0 <= i < |d| ==> IsDigit(d[i])
    requires |r| > 0 && !IsDigit(r[0])
    ensures DigitRun(d + r) == |d|
  {
    if |d| > 0 {
      assert (d + r)[1..] == d[1..] + r;
      DigitsEndAt(d[1..], r);
    } else {
      assert d + r == r;
    }
  }

  /** `str(product.get('price', 0))`: the unit-price text handed to the ledger store,
      which reads it back as the price itself. */
  function PriceText(price: int): (text: string)
    ensures ParseInt(text) == Some(price)
  {
    ParseIntRoundTrip(price);
    IntToString(price)
  }

  /** A ledger row as a batch writes it: of the batch's type, by the batch user, and for
      a positive quantity. */
  predicate IsBatchMovement(m: Movement, kind: string)
  {
    m.kind == kind && m.user == BatchUser && m.quantity > 0
  }

  /** From `p0`/`l0` to `p1`/`l1` a batch has only appended rows of its own type and kept
      the stocks. */
  predicate BatchProgress(p0: seq<Product>, l0: seq<Movement>, p1: seq<Product>, l1: seq<Movement>, kind: string)
  {
    && StocksKept(p0, l0, p1, l1, kind)
    && l0 <= l1
    && forall k :: |l0| <= k < |l1| ==> IsBatchMovement(l1[k], kind)
  }

  lemma BatchProgressTransitive(p0: seq<Product>, l0: seq<Movement>, p1: seq<Product>, l1: seq<Movement>,
                                p2: seq<Product>, l2: seq<Movement>, kind: string)
    requires BatchProgress(p0, l0, p1, l1, kind) && BatchProgress(p1, l1, p2, l2, kind)
    ensures BatchProgress(p0, l0, p2, l2, kind)
  {
    StocksKeptTransitive(p0, l0, p1, l1, p2, l2, kind);
    forall k | |l0| <= k < |l2|
      ensures IsBatchMovement(l2[k], kind)
    {
      if k < |l1| {
        assert l2[k] == l1[k];
      }
    }
  }

  /** The ledger-store call of one entry, for the visible product `id`, at that product's
      current price. */
  method BookRow(db: Database, id: int, kind: string, quantityText: string, quantity: Option<int>, notes: string)
    returns (outcome: TxOutcome)
    requires db.Valid() && 1 <= id <= |db.products|
    requires quantity == ParseInt(quantityText)
    modifies db
    ensures db.Valid()
    ensures outcome == Decide(old(db.products), id, kind, quantity, Some(old(db.products[id - 1].price)))
    ensures StocksKept(old(db.products), old(db.ledger), db.products, db.ledger, kind)
    ensures outcome.Failed? ==> db.products == old(db.products) && db.ledger == old(db.ledger)
    ensures outcome.Failed? ==> db.clock == old(db.clock)
    ensures outcome.Committed? ==>
              var q := quantity.value;
              var p := old(db.products[id - 1].price);
              && db.products == old(db.products)[id - 1 := old(db.products)[id - 1].(stock := outcome.newStock,
                                                                                   updatedAt := old(db.clock))]
              && db.ledger == old(db.ledger) + [Movement(id, kind, q, p, q * p, notes, BatchUser, old(db.clock) + 1)]
              && db.clock == old(db.clock) + 2
  {
    outcome := AddStockTransaction(db, id, kind, quantityText, PriceText(db.products[id - 1].price), notes, BatchUser);
  }

  /** The three tables a batch touches, as values. */
  datatype Tables = Tables(products: seq<Product>, ledger: seq<Movement>, clock: int)

  /** The fate of an entry with stripped code `code` and stripped quantity text
      `quantityText`, which `int()` reads as `quantity`, on the given products table: the
      field check, the visible SKU lookup, then the ledger store's decision at the
      product's current price; `None` when the entry is booked. */
  function EntryVerdict(products: seq<Product>, kind: string, code: string, quantityText: string,
                        quantity: Option<int>): (r: Option<RowFailure>)
    ensures r.Some? ==> ExplainsEntry(r.value, code, quantityText)
  {
    if code == "" || quantityText == "" then Some(MissingField)
    else match FindSku(products, code, true)
      case None => Some(UnknownSku(code))
      case Some(id) =>
        var outcome := Decide(products, id, kind, quantity, Some(products[id - 1].price));
        if outcome.Committed? then None else Some(Rejected(code, outcome.error))
  }

  /** An entry fails for a missing field exactly when its code or quantity is empty, for
      an unknown SKU exactly when no visible product has its code, and is booked exactly
      when it names a visible product with a positive quantity that, for "OUT", the stock
      covers; a refusal by the ledger store carries the store's reason. */
  lemma EntryVerdictCases(products: seq<Product>, kind: string, code: string, quantityText: string,
                          quantity: Option<int>)
    ensures var r := EntryVerdict(products, kind, code, quantityText, quantity);
            && (r == Some(MissingField) <==> code == "" || quantityText == "")
            && (r == Some(UnknownSku(code)) <==>
                  code != "" && quantityText != "" && FindSku(products, code, true).None?)
            && (r.None? <==>
                  && code != "" && quantityText != "" && FindSku(products, code, true).Some?
                  && quantity.Some? && quantity.value > 0
                  && (kind == "OUT" ==> quantity.value <= products[FindSku(products, code, true).value - 1].stock))
            && (r.Some? && r.value.Rejected? ==>
                  var id := FindSku(products, code, true).value;
                  r.value.error == Decide(products, id, kind, quantity, Some(products[id - 1].price)).error)
  {
  }

  /** What such an entry does to the tables: nothing when it fails; when it is booked, the
      product's stock moves and its `updated_at` takes the first clock reading, and one
      ledger row at the product's price with the given notes, stamped with the second
      reading, is appended. */
  function EntryStep(t: Tables, kind: string, code: string, quantityText: string, quantity: Option<int>,
                     notes: string): Tables
  {
    if EntryVerdict(t.products, kind, code, quantityText, quantity).Some? then t
    else
      var id := FindSku(t.products, code, true).value;
      var p := t.products[id - 1];
      var q := quantity.value;
      Tables(t.products[id - 1 := p.(stock := StockAfter(p.stock, kind, q), updatedAt := t.clock)],
             t.ledger + [Movement(id, kind, q, p.price, q * p.price, notes, BatchUser, t.clock + 1)],
             t.clock + 2)
  }

  /** A batch entry as the loop body sees it: the stripped code and quantity text, what
      `int()` made of that text, and the notes its ledger row would carry. */
  datatype CleanEntry = CleanEntry(code: string, quantityText: string, quantity: Option<int>, notes: string)

  /** Entry `row` at 1-based position `line` of file `path`. */
  function Cleaned(row: BatchRow, path: string, line: nat): CleanEntry
  {
    CleanEntry(Strip(row.code), Strip(row.quantity), ParseInt(Strip(row.quantity)),
               BatchNotes(path, line, Strip(row.notes)))
  }

  /** The entries of a file, in file order. */
  function CleanedAll(rows: seq<BatchRow>, path: string): (r: seq<CleanEntry>)
    ensures |r| == |rows|
  {
    seq(|rows|, k requires 0 <= k < |rows| => Cleaned(rows[k], path, k + 1))
  }

  /** Entry `k` of `entries` is row `k` of the file, cleaned, on line `k + 1`. */
  predicate EntryOfRow(entries: seq<CleanEntry>, rows: seq<BatchRow>, path: string, k: nat)
  {
    k < |entries| && k < |rows| && entries[k] == Cleaned(rows[k], path, k + 1)
  }

  /** `entries` are the rows of the file, each cleaned on its own line. */
  predicate EntriesOfRows(entries: seq<CleanEntry>, rows: seq<BatchRow>, path: string)
  {
    |entries| == |rows| && forall k: nat :: k < |rows| ==> EntryOfRow(entries, rows, path, k)
  }

  lemma CleanedAllEntries(rows: seq<BatchRow>, path: string)
    ensures EntriesOfRows(CleanedAll(rows, path), rows, path)
  {
    forall k: nat | k < |rows|
      ensures EntryOfRow(CleanedAll(rows, path), rows, path, k)
    {
      CleanedAt(rows, path, k);
    }
  }

  /** Entry `k` of a file is its row `k`, cleaned, on line `k + 1`. */
  lemma CleanedAt(rows: seq<BatchRow>, path: string, k: nat)
    requires k < |rows|
    ensures CleanedAll(rows, path)[k] == Cleaned(rows[k], path, k + 1)
  {
  }

  /** The verdict on an entry. */
  function Verdict(products: seq<Product>, kind: string, e: CleanEntry): Option<RowFailure>
  {
    EntryVerdict(products, kind, e.code, e.quantityText, e.quantity)
  }

  /** What an entry does to the tables. */
  function Step(t: Tables, kind: string, e: CleanEntry): Tables
  {
    EntryStep(t, kind, e.code, e.quantityText, e.quantity, e.notes)
  }

  /** The counters and the error list of the row loop, with the tables, after some entries. */
  datatype BatchState = BatchState(tables: Tables, succeeded: nat, failed: nat, errors: seq<RowError>)

  /** The row loop over the first `n` entries, as a fold: each entry is judged on the
      tables the entries before it left, and a failed one is listed with its 1-based line. */
  function RunRows(t: Tables, kind: string, entries: seq<CleanEntry>, n: nat): (s: BatchState)
    requires n <= |entries|
    ensures s.succeeded + s.failed == n && |s.errors| == s.failed
  {
    if n == 0 then BatchState(t, 0, 0, [])
    else
      var s := RunRows(t, kind, entries, n - 1);
      var verdict := Verdict(s.tables.products, kind, entries[n - 1]);
      var next := Step(s.tables, kind, entries[n - 1]);
      if verdict.None? then BatchState(next, s.succeeded + 1, s.failed, s.errors)
      else BatchState(next, s.succeeded, s.failed + 1, s.errors + [RowError(n, verdict.value)])
  }

  /** One more entry of the row loop: its verdict decides the counters, its step the tables. */
  lemma RunRowsNext(t: Tables, kind: string, entries: seq<CleanEntry>, n: nat, before: BatchState,
                    failure: Option<RowFailure>, after: Tables)
    requires n < |entries| && RunRows(t, kind, entries, n) == before
    requires failure == Verdict(before.tables.products, kind, entries[n])
    requires after == Step(before.tables, kind, entries[n])
    ensures RunRows(t, kind, entries, n + 1)
            == if failure.None? then BatchState(after, before.succeeded + 1, before.failed, before.errors)
               else BatchState(after, before.succeeded, before.failed + 1, before.errors + [RowError(n + 1, failure.value)])
  {
  }

  /** What `_process_stock_file` reports for a file, and the tables it leaves behind. */
  function FileOutcome(t: Tables, path: string, fileExists: bool, fieldnames: seq<string>,
                       lines: seq<seq<string>>, kind: string): (BatchReport, Tables)
  {
    match ParseMovementFile(fileExists, fieldnames, lines)
    case ReadFailed(e) => (ReadFailure(e), t)
    case ReadOk(rows) =>
      if rows == [] then (NoData, t)
      else
        var s := RunRows(t, kind, CleanedAll(rows, path), |rows|);
        (Summary(s.succeeded, s.failed, |rows|, s.errors), s.tables)
  }

  /** One iteration of the row loop: the field check, the visible SKU lookup, then the
      ledger store with the product's current price as the unit-price text. That text
      always reads back as the price, so a batch entry is never refused for its price. */
  method ProcessRow(db: Database, path: string, kind: string, row: BatchRow, line: nat)
    returns (failure: Option<RowFailure>)
    requires db.Valid()
    modifies db
    ensures db.Valid()
    ensures failure == Verdict(old(db.products), kind, Cleaned(row, path, line))
    ensures Tables(db.products, db.ledger, db.clock)
            == Step(Tables(old(db.products), old(db.ledger), old(db.clock)), kind, Cleaned(row, path, line))
    ensures failure.Some? ==> Explains(failure.value, row)
  {
    var code := Strip(row.code);
    var quantityText := Strip(row.quantity);
    var notes := BatchNotes(path, line, Strip(row.notes));
    failure := ProcessEntry(db, kind, code, quantityText, ParseInt(quantityText), notes);
  }

  /** The body of the loop once the entry's fields are stripped. */
  method ProcessEntry(db: Database, kind: string, code: string, quantityText: string, quantity: Option<int>,
                      notes: string)
    returns (failure: Option<RowFailure>)
    requires db.Valid() && quantity == ParseInt(quantityText)
    modifies db
    ensures db.Valid()
    ensures failure == EntryVerdict(old(db.products), kind, code, quantityText, quantity)
    ensures Tables(db.products, db.ledger, db.clock)
            == EntryStep(Tables(old(db.products), old(db.ledger), old(db.clock)), kind, code, quantityText,
                         quantity, notes)
  {
    if code == "" || quantityText == "" {
      return Some(MissingField);
    }
    var found := ProductBySku(db, code);
    if found.None? {
      return Some(UnknownSku(code));
    }
    failure := BookFound(db, kind, code, quantityText, quantity, notes, found.value);
  }

  /** The entry's SKU names the visible product `id`: book the movement for it. */
  method BookFound(db: Database, kind: string, code: string, quantityText: string, quantity: Option<int>,
                   notes: string, id: int)
    returns (failure: Option<RowFailure>)
    requires db.Valid() && code != "" && quantityText != "" && quantity == ParseInt(quantityText)
    requires FindSku(db.products, code, true) == Some(id)
    modifies db
    ensures db.Valid()
    ensures failure == EntryVerdict(old(db.products), kind, code, quantityText, quantity)
    ensures Tables(db.products, db.ledger, db.clock)
            == EntryStep(Tables(old(db.products), old(db.ledger), old(db.clock)), kind, code, quantityText,
                         quantity, notes)
  {
    ghost var t0 := Tables(db.products, db.ledger, db.clock);
    var outcome := BookRow(db, id, kind, quantityText, quantity, notes);
    if outcome.Committed? {
      failure := None;
    } else {
      failure := Some(Rejected(code, outcome.error));
    }
    BookedEntry(t0, Tables(db.products, db.ledger, db.clock), kind, code, quantityText, quantity, notes, id, outcome);
  }

  /** The ledger store's outcome for the found product, and the tables it left, are the
      entry's verdict and step. */
  lemma BookedEntry(t0: Tables, t1: Tables, kind: string, code: string, quantityText: string,
                    quantity: Option<int>, notes: string, id: int, outcome: TxOutcome)
    requires code != "" && quantityText != "" && FindSku(t0.products, code, true) == Some(id)
    requires 1 <= id <= |t0.products|
    requires outcome == Decide(t0.products, id, kind, quantity, Some(t0.products[id - 1].price))
    requires outcome.Failed? ==> t1 == t0
    requires outcome.Committed? ==>
               var p := t0.products[id - 1];
               var q := quantity.value;
               t1 == Tables(t0.products[id - 1 := p.(stock := outcome.newStock, updatedAt := t0.clock)],
                            t0.ledger + [Movement(id, kind, q, p.price, q * p.price, notes, BatchUser, t0.clock + 1)],
                            t0.clock + 2)
    ensures EntryVerdict(t0.products, kind, code, quantityText, quantity)
            == if outcome.Committed? then None else Some(Rejected(code, outcome.error))
    ensures t1 == EntryStep(t0, kind, code, quantityText, quantity, notes)
  {
  }

  /** Whether `error` says something true of `row`. */
  predicate Explains(error: RowFailure, row: BatchRow)
  {
    ExplainsEntry(error, Strip(row.code), Strip(row.quantity))
  }

  /** Whether `error` says something true of an entry with stripped fields `code` and
      `quantityText`. */
  predicate ExplainsEntry(error: RowFailure, code: string, quantityText: string)
  {
    match error
    case MissingField => code == "" || quantityText == ""
    case UnknownSku(sku) => sku == code && sku != ""
    case Rejected(sku, _) => sku == code && sku != ""
  }

  /** `errors` after the first `i` entries of `rows`: each names an entry among them and
      says something true of it, in increasing line order. */
  predicate ErrorsFit(errors: seq<RowError>, rows: seq<BatchRow>, i: nat)
  {
    FitsWith(errors, rows, i, Explains)
  }

  /** `ErrorsFit` for any notion of an error explaining an entry. */
  predicate FitsWith(errors: seq<RowError>, rows: seq<BatchRow>, i: nat, explains: (RowFailure, BatchRow) -> bool)
  {
    && i <= |rows|
    && (forall e :: 0 <= e < |errors| ==>
          1 <= errors[e].line <= i && explains(errors[e].failure, rows[errors[e].line - 1]))
    && (forall e, f :: 0 <= e < f < |errors| ==> errors[e].line < errors[f].line)
  }

  /** One more entry keeps the errors fitting, whether it failed or not. */
  lemma ErrorsFitStep(errors: seq<RowError>, rows: seq<BatchRow>, i: nat, failure: Option<RowFailure>)
    requires ErrorsFit(errors, rows, i) && i < |rows|
    requires failure.Some? ==> Explains(failure.value, rows[i])
    ensures failure.None? ==> ErrorsFit(errors, rows, i + 1)
    ensures failure.Some? ==> ErrorsFit(errors + [RowError(i + 1, failure.value)], rows, i + 1)
  {
    FitsWithStep(errors, rows, i, failure, Explains);
  }

  lemma FitsWithStep(errors: seq<RowError>, rows: seq<BatchRow>, i: nat, failure: Option<RowFailure>,
                     explains: (RowFailure, BatchRow) -> bool)
    requires FitsWith(errors, rows, i, explains) && i < |rows|
    requires failure.Some? ==> explains(failure.value, rows[i])
    ensures failure.None? ==> FitsWith(errors, rows, i + 1, explains)
    ensures failure.Some? ==> FitsWith(errors + [RowError(i + 1, failure.value)], rows, i + 1, explains)
  {
    if failure.Some? {
      var next := errors + [RowError(i + 1, failure.value)];
      assert forall e :: 0 <= e < |errors| ==> next[e] == errors[e];
    }
  }

  /** One pass of the row loop: entry `i` is processed and counted, and a failure is
      listed under its 1-based line. */
  method NextRow(db: Database, path: string, kind: string, rows: seq<BatchRow>, i: nat,
                 ghost t0: Tables, ghost entries: seq<CleanEntry>,
                 succeeded: nat, failed: nat, errors: seq<RowError>)
    returns (succeeded': nat, failed': nat, errors': seq<RowError>)
    requires db.Valid() && i < |rows| && i < |entries| && EntryOfRow(entries, rows, path, i)
    requires RunRows(t0, kind, entries, i) ==
             BatchState(Tables(db.products, db.ledger, db.clock), succeeded, failed, errors)
    requires ErrorsFit(errors, rows, i)
    modifies db
    ensures db.Valid()
    ensures RunRows(t0, kind, entries, i + 1) ==
            BatchState(Tables(db.products, db.ledger, db.clock), succeeded', failed', errors')
    ensures ErrorsFit(errors', rows, i + 1)
  {
    ghost var before := BatchState(Tables(db.products, db.ledger, db.clock), succeeded, failed, errors);
    var failure := ProcessRow(db, path, kind, rows[i], i + 1);
    RunRowsNext(t0, kind, entries, i, before, failure, Tables(db.products, db.ledger, db.clock));
    ErrorsFitStep(errors, rows, i, failure);
    if failure.None? {
      succeeded', failed', errors' := succeeded + 1, failed, errors;
    } else {
      succeeded', failed', errors' := succeeded, failed + 1, errors + [RowError(i + 1, failure.value)];
    }
  }

  /** The row loop, `for i, row in enumerate(data_rows, start=1)`, over a non-empty list of
      entries. Every entry is processed, on the tables the entries before it left; the
      errors are listed in file order, one per failed entry, each naming its own entry;
      every booked row is a batch row. */
  method ProcessRows(db: Database, path: string, kind: string, rows: seq<BatchRow>,
                     ghost entries: seq<CleanEntry>)
    returns (report: BatchReport)
    requires db.Valid() && EntriesOfRows(entries, rows, path)
    modifies db
    ensures db.Valid()
    ensures var s := RunRows(Tables(old(db.products), old(db.ledger), old(db.clock)), kind, entries, |rows|);
            && report == Summary(s.succeeded, s.failed, |rows|, s.errors)
            && Tables(db.products, db.ledger, db.clock) == s.tables
    ensures ErrorsFit(report.errors, rows, |rows|)
    ensures BatchProgress(old(db.products), old(db.ledger), db.products, db.ledger, kind)
    ensures |db.ledger| == |old(db.ledger)| + report.succeeded
  {
    ghost var t0 := Tables(db.products, db.ledger, db.clock);
    var succeeded, failed := 0, 0;
    var errors: seq<RowError> := [];
    for i := 0 to |rows|
      invariant db.Valid()
      invariant RunRows(t0, kind, entries, i) ==
                BatchState(Tables(db.products, db.ledger, db.clock), succeeded, failed, errors)
      invariant ErrorsFit(errors, rows, i)
    {
      assert EntryOfRow(entries, rows, path, i);
      succeeded, failed, errors := NextRow(db, path, kind, rows, i, t0, entries, succeeded, failed, errors);
    }
    report := Summary(succeeded, failed, |rows|, errors);
    RunRowsProgress(t0, kind, entries, |rows|);
  }

  /** `_process_stock_file(ten_file, transaction_type)`. A file that cannot be read
      changes nothing and reports failure; a file without entries changes nothing and
      reports success; otherwise every entry is processed, the batch succeeds when at
      least one entry was booked, and each product's stock has moved by exactly the
      balance of the rows the batch booked. */
  method ProcessStockFile(db: Database, path: string, fileExists: bool, fieldnames: seq<string>,
                          lines: seq<seq<string>>, kind: string) returns (ok: bool, report: BatchReport)
    requires db.Valid()
    modifies db
    ensures db.Valid()
    ensures ok == Succeeded(report)
    ensures (report, Tables(db.products, db.ledger, db.clock))
            == FileOutcome(Tables(old(db.products), old(db.ledger), old(db.clock)), path, fileExists, fieldnames, lines, kind)
    ensures report.Summary? ==> ErrorsFit(report.errors, ParseMovementFile(fileExists, fieldnames, lines).rows, report.processed)
    ensures BatchProgress(old(db.products), old(db.ledger), db.products, db.ledger, kind)
  {
    var read := ParseMovementFile(fileExists, fieldnames, lines);
    if read.ReadFailed? {
      report := ReadFailure(read.error);
    } else if |read.rows| == 0 {
      report := NoData;
    } else {
      CleanedAllEntries(read.rows, path);
      report := ProcessRows(db, path, kind, read.rows, CleanedAll(read.rows, path));
    }
    ok := Succeeded(report);
  }

  /** A batch entry keeps every product's imbalance between cached stock and ledger
      balance, and appends nothing or one ledger row of the batch's type. */
  lemma EntryStepProgress(t: Tables, kind: string, code: string, quantityText: string,
                          quantity: Option<int>, notes: string)
    ensures var s := EntryStep(t, kind, code, quantityText, quantity, notes);
            && BatchProgress(t.products, t.ledger, s.products, s.ledger, kind)
            && |s.ledger| == |t.ledger| + (if EntryVerdict(t.products, kind, code, quantityText, quantity).None? then 1 else 0)
  {
    var s := EntryStep(t, kind, code, quantityText, quantity, notes);
    if EntryVerdict(t.products, kind, code, quantityText, quantity).None? {
      EntryVerdictCases(t.products, kind, code, quantityText, quantity);
      var id := FindSku(t.products, code, true).value;
      var m := s.ledger[|t.ledger|];
      assert s.ledger == t.ledger + [m];
      forall i | 1 <= i <= |t.products|
        ensures s.products[i - 1].stock - Net(s.ledger, i) == t.products[i - 1].stock - Net(t.ledger, i)
      {
        NetSnoc(t.ledger, m, i);
      }
      MovementKeepsStocks(t.products, t.ledger, s.products, s.ledger, id, kind, quantity.value);
    }
  }

  /** The whole row loop keeps every imbalance and only appends batch rows, one per
      booked entry. */
  lemma {:induction false} RunRowsProgress(t: Tables, kind: string, entries: seq<CleanEntry>, n: nat)
    requires n <= |entries|
    ensures var s := RunRows(t, kind, entries, n);
            && BatchProgress(t.products, t.ledger, s.tables.products, s.tables.ledger, kind)
            && |s.tables.ledger| == |t.ledger| + s.succeeded
  {
    if n > 0 {
      var s := RunRows(t, kind, entries, n - 1);
      RunRowsProgress(t, kind, entries, n - 1);
      var e := entries[n - 1];
      var next := Step(s.tables, kind, e);
      assert RunRows(t, kind, entries, n).tables == next;
      EntryStepProgress(s.tables, kind, e.code, e.quantityText, e.quantity, e.notes);
      BatchProgressTransitive(t.products, t.ledger, s.tables.products, s.tables.ledger,
                              next.products, next.ledger, kind);
    }
  }

  /** Two product tables with the same rows as far as a SKU lookup can tell: the same
      length, and at every position the same SKU and the same hidden flag. */
  predicate SameCatalog(p0: seq<Product>, p1: seq<Product>)
  {
    |p1| == |p0| && forall j :: 0 <= j < |p0| ==> p1[j].sku == p0[j].sku && p1[j].hidden == p0[j].hidden
  }

  lemma {:induction false} FindSkuSameCatalog(p0: seq<Product>, p1: seq<Product>, sku: string, from: nat)
    requires SameCatalog(p0, p1) && from <= |p0|
    ensures FindSkuFrom(p1, sku, true, from) == FindSkuFrom(p0, sku, true, from)
    decreases |p0| - from
  {
    if from < |p0| {
      FindSkuSameCatalog(p0, p1, sku, from + 1);
    }
  }

  /** A batch entry only moves a stock and a timestamp: the catalog stays as it was. */
  lemma EntryStepKeepsCatalog(t: Tables, kind: string, code: string, quantityText: string,
                              quantity: Option<int>, notes: string)
    ensures SameCatalog(t.products, EntryStep(t, kind, code, quantityText, quantity, notes).products)
  {
  }

  lemma {:induction false} RunRowsKeepsCatalog(t: Tables, kind: string, entries: seq<CleanEntry>, n: nat)
    requires n <= |entries|
    ensures SameCatalog(t.products, RunRows(t, kind, entries, n).tables.products)
  {
    if n > 0 {
      var s := RunRows(t, kind, entries, n - 1);
      RunRowsKeepsCatalog(t, kind, entries, n - 1);
      var e := entries[n - 1];
      var next := Step(s.tables, kind, e);
      assert RunRows(t, kind, entries, n).tables == next;
      EntryStepKeepsCatalog(s.tables, kind, e.code, e.quantityText, e.quantity, e.notes);
      SameCatalogTransitive(t.products, s.tables.products, next.products);
    }
  }

  lemma SameCatalogTransitive(p0: seq<Product>, p1: seq<Product>, p2: seq<Product>)
    requires SameCatalog(p0, p1) && SameCatalog(p1, p2)
    ensures SameCatalog(p0, p2)
  {
  }

  /** A receiving entry's verdict depends on the catalog only, not on the stocks: an "IN"
      movement is never refused for the stock it finds. */
  lemma InVerdictOnCatalog(p0: seq<Product>, p1: seq<Product>, code: string, quantityText: string, quantity: Option<int>)
    requires SameCatalog(p0, p1)
    ensures EntryVerdict(p1, "IN", code, quantityText, quantity) == EntryVerdict(p0, "IN", code, quantityText, quantity)
  {
    FindSkuSameCatalog(p0, p1, code, 0);
  }

  /** The errors of the first `n` entries when each is judged on the products table `p`. */
  function FailuresOn(p: seq<Product>, kind: string, entries: seq<CleanEntry>, n: nat): seq<RowError>
    requires n <= |entries|
  {
    if n == 0 then []
    else
      var verdict := Verdict(p, kind, entries[n - 1]);
      FailuresOn(p, kind, entries, n - 1) + (if verdict.Some? then [RowError(n, verdict.value)] else [])
  }

  /** In a receiving batch the entries do not affect one another: the errors are exactly
      the entries that fail on the tables the batch started from, in file order. */
  lemma {:induction false} InBatchErrors(t: Tables, entries: seq<CleanEntry>, n: nat)
    requires n <= |entries|
    ensures RunRows(t, "IN", entries, n).errors == FailuresOn(t.products, "IN", entries, n)
  {
    if n > 0 {
      InBatchErrors(t, entries, n - 1);
      var s := RunRows(t, "IN", entries, n - 1);
      RunRowsKeepsCatalog(t, "IN", entries, n - 1);
      var e := entries[n - 1];
      InVerdictOnCatalog(t.products, s.tables.products, e.code, e.quantityText, e.quantity);
    }
  }

  /** An entry a receiving batch books: both fields present, a visible product with the
      SKU, and a positive whole quantity. */
  predicate BookableIn(p: seq<Product>, e: CleanEntry)
  {
    && e.code != "" && e.quantityText != "" && FindSku(p, e.code, true).Some?
    && e.quantity.Some? && e.quantity.value > 0
  }

  lemma {:induction false} FailuresOnOneUnknown(p: seq<Product>, entries: seq<CleanEntry>, k: nat, n: nat)
    requires k < |entries| && n <= |entries|
    requires forall e :: 0 <= e < |entries| && e != k ==> BookableIn(p, entries[e])
    requires entries[k].code != "" && entries[k].quantityText != "" && FindSku(p, entries[k].code, true).None?
    ensures FailuresOn(p, "IN", entries, n) == if n > k then [RowError(k + 1, UnknownSku(entries[k].code))] else []
  {
    if n > 0 {
      FailuresOnOneUnknown(p, entries, k, n - 1);
      var e := entries[n - 1];
      if n - 1 != k {
        BookableInVerdict(p, e);
      } else {
        UnknownSkuVerdict(p, "IN", e);
      }
    }
  }

  /** An entry with both fields whose code no visible product carries fails as an
      unknown SKU. */
  lemma UnknownSkuVerdict(p: seq<Product>, kind: string, e: CleanEntry)
    requires e.code != "" && e.quantityText != "" && FindSku(p, e.code, true).None?
    ensures Verdict(p, kind, e) == Some(UnknownSku(e.code))
  {
    EntryVerdictCases(p, kind, e.code, e.quantityText, e.quantity);
  }

  /** An entry bookable on a catalog is booked when receiving. */
  lemma BookableInVerdict(p: seq<Product>, e: CleanEntry)
    requires BookableIn(p, e)
    ensures Verdict(p, "IN", e).None?
  {
    EntryVerdictCases(p, "IN", e.code, e.quantityText, e.quantity);
  }

  /** A receiving batch whose entries all name visible products with positive quantities,
      except entry `k` whose SKU no visible product has: every other entry is booked, and
      the one error names line `k + 1` and its SKU. */
  lemma OneUnknownSkuInBatch(t: Tables, path: string, rows: seq<BatchRow>, k: nat)
    requires k < |rows|
    requires forall e :: 0 <= e < |rows| && e != k ==> BookableIn(t.products, Cleaned(rows[e], path, e + 1))
    requires Strip(rows[k].code) != "" && Strip(rows[k].quantity) != ""
    requires FindSku(t.products, Strip(rows[k].code), true).None?
    ensures var s := RunRows(t, "IN", CleanedAll(rows, path), |rows|);
            && s.succeeded == |rows| - 1 && s.failed == 1
            && s.errors == [RowError(k + 1, UnknownSku(Strip(rows[k].code)))]
  {
    var entries := CleanedAll(rows, path);
    forall e | 0 <= e < |rows|
      ensures entries[e] == Cleaned(rows[e], path, e + 1)
    {
      CleanedAt(rows, path, e);
    }
    InBatchErrors(t, entries, |rows|);
    FailuresOnOneUnknown(t.products, entries, k, |rows|);
  }

  /** Tables that kept every imbalance while the ledger only grew: each stock has moved
      by the balance of the appended rows. */
  lemma StockFollowsLedger(p0: seq<Product>, l0: seq<Movement>, p1: seq<Product>, l1: seq<Movement>, kind: string)
    requires StocksKept(p0, l0, p1, l1, kind) && l0 <= l1
    ensures forall j :: 0 <= j < |p1| ==> p1[j].stock == p0[j].stock + Net(l1[|l0|..], j + 1)
  {
    forall j | 0 <= j < |p1|
      ensures p1[j].stock == p0[j].stock + Net(l1[|l0|..], j + 1)
    {
      assert l1 == l0 + l1[|l0|..];
      NetAppend(l0, l1[|l0|..], j + 1);
    }
  }

  /** `nhap_kho_tu_file_csv`: a receiving batch never lowers a stock. */
  method ImportStockIn(db: Database, path: string, fileExists: bool, fieldnames: seq<string>,
                       lines: seq<seq<string>>) returns (ok: bool, report: BatchReport)
    requires db.Valid()
    modifies db
    ensures db.Valid()
    ensures ok == Succeeded(report)
    ensures (report, Tables(db.products, db.ledger, db.clock))
            == FileOutcome(Tables(old(db.products), old(db.ledger), old(db.clock)), path, fileExists, fieldnames, lines, "IN")
    ensures |db.products| == |old(db.products)|
    ensures forall j :: 0 <= j < |db.products| ==> db.products[j].stock >= old(db.products[j].stock)
  {
    ok, report := ProcessStockFile(db, path, fileExists, fieldnames, lines, "IN");
  }

  /** `xuat_kho_tu_file_csv`: a dispatch batch never raises a stock and never takes a
      non-negative stock below zero. */
  method ImportStockOut(db: Database, path: string, fileExists: bool, fieldnames: seq<string>,
                        lines: seq<seq<string>>) returns (ok: bool, report: BatchReport)
    requires db.Valid()
    modifies db
    ensures db.Valid()
    ensures ok == Succeeded(report)
    ensures (report, Tables(db.products, db.ledger, db.clock))
            == FileOutcome(Tables(old(db.products), old(db.ledger), old(db.clock)), path, fileExists, fieldnames, lines, "OUT")
    ensures |db.products| == |old(db.products)|
    ensures forall j :: 0 <= j < |db.products| ==> db.products[j].stock <= old(db.products[j].stock)
    ensures forall j :: 0 <= j < |db.products| && old(db.products[j].stock) >= 0 ==> db.products[j].stock >= 0
  {
    ok, report := ProcessStockFile(db, path, fileExists, fieldnames, lines, "OUT");
  }
}
