# Inventory ledger with batch reconciliation

This project models the core of a small warehouse-stock application. The application exists in two versions, and both are modelled.

**Web version** (`src/backend`). Products live in a SQLite `products` table. Every stock movement is one row of an append-only `stock_transactions` table (the *ledger*). The model covers:

- `db_add_stock_transaction`, which validates the quantity and price texts, looks the product up, refuses an outbound movement above the current stock, and otherwise updates the product's cached `current_stock` and appends one ledger row, all inside one database transaction. The editor-checkpoint copy of this file (`.ipynb_checkpoints`) is modelled too: it also refuses a negative unit price and stamps both writes with one clock reading.
- `_process_stock_file`, the batch reconciler. It reads a CSV file of movements once, books each entry through `db_add_stock_transaction` at the product's current price, counts successes and failures, and quotes at most five errors.
- `doc_file_csv_cho_nhap_xuat`, the CSV reader. It resolves the code, quantity and notes columns by alias, and the checkpoint copy resolves a price column as well. It separates a hard failure, "no data" and a list of entries.
- The product catalog: the `SP-XXXXX` SKU generator, creation with an opening `IN` row, editing, soft deletion, the lookups and the sort whitelist. The checkpoint copy of the catalog and the form validation in `product/logic.py` are modelled as well.

**CLI version** (`xu_ly_kho.py`, `quan_ly_du_lieu.py` at the repository root). Products are an in-memory list of dicts. The model covers:

- the loader of `kho.csv` with its row checks and duplicate rule, and the writer;
- the lookups and the add dialog;
- manual receipts and shipments;
- the positional-header batch file processor with its counters;
- the code search, the name search and the low-stock filter.

## How the model is built

- **Tables as state.** `Store.Database` is a class whose fields are the `products` table (a `seq<Product>`; a product's id is its position plus one), the `ledger` (`seq<Movement>`) and a `clock` counter.
  - The clock stands for `datetime.datetime.now()`: every reading returns the counter and advances it.
  - BEGIN/COMMIT/ROLLBACK is modelled as "the new state is the one the contract names, or the state is exactly the old one".
- **The ledger invariant.** `Database.Imbalance(id)` is a product's cached stock minus its ledger balance (IN quantities minus OUT quantities). Every operation on the database is proved to keep it. The web `db_add_product` with a non-negative opening stock creates a product whose imbalance is 0.
- **The CLI list.** The CLI list is the `items` field of the class `CliInventory.Inventory`. Its invariant is `CliDataFile.ValidList`: unique codes and well-formed products. `input()` answers are passed in as sequences: a prompt loop settles on the first answer it accepts.
- **Integer parsing.** `int(...)` (and `int(float(...))`, which the model reads as integer parsing) is `Text.ParseInt`: optional surrounding whitespace, an optional sign, and ASCII digits with single underscores between them (the gaps to Python's `int()` are listed under "Left out"). `str(n)` is `Text.IntToString`, proved to read back as `n`.
- **CSV cells.** The header and the lines arrive already split into cells. `CsvDict` models what `csv.DictReader` makes of them:
  - blank lines are skipped;
  - a later duplicate field name wins;
  - a line shorter than the header leaves the missing fields `None`;
  - a long line puts its extra cells under the `None` key. The cleaning comprehension then calls `None.strip()`, the generic `except` catches the error, and the whole read fails: this is `ReadFailed(MalformedRow)`.
- **Padded column names.** The resolved column name is the unstripped header cell, but the cleaned row's keys are stripped. A padded code or quantity header therefore yields `''` and `'0'` in every entry; `CsvImport.PaddedHeaderGivesDefaults` proves this.
- **The unit price of a batch entry.** The checkpoint copy of the CSV reader reads an optional `donGiaCSV` price column (src/backend/common/.ipynb_checkpoints/quan_ly_du_lieu-checkpoint.py:77-89), and `CsvImportCheckpoint` models it. `_process_stock_file` never uses such a price: it always books at `str(product.get('price', 0))`, the product's current price (src/backend/transaction/logic.py:55). `TransactionLogic.ProcessRow` books at the current price likewise.

## Model

| member | source | states |
|---|---|---|
| Text.StripFacts | src/backend/common/quan_ly_du_lieu.py:99-100 | the stripped text has no whitespace at either end, is no longer than the input, and an unpadded text is its own strip |
| Text.StripSlice | src/backend/common/quan_ly_du_lieu.py:99-100 | the stripped text is one slice of the input with only whitespace before it and after it, so nothing but end whitespace is removed |
| Text.StripIdempotent | src/backend/transaction/logic.py:38-39 | stripping an already stripped value changes nothing |
| Text.Lower | src/backend/common/quan_ly_du_lieu.py:72 | same length; each character is lowered by `LowerChar`: ASCII and Latin-1 capitals, the Latin Extended-A capitals from U+0100 to U+0177 except U+0130, O and U with horn, and the capitals of Latin Extended Additional; every other character is kept |
| Text.Upper | src/backend/product/database.py:35 | same length; a-z, ı and ſ upper-cased, every other character kept (exact for hex digits and for the comparison with `ASC`) |
| Text.ParseInt | src/backend/transaction/database.py:33-37 | a text `int()` accepts is non-empty once stripped, and a negative value comes from a leading minus sign |
| Text.ParseIntRejects | src/backend/transaction/database.py:33-37 | `int()` refuses a text exactly when, stripped, it is not an optional sign followed by ASCII digits with single underscores between them |
| Text.ParseIntRoundTrip | src/backend/transaction/logic.py:55 | `int(str(n)) == n` for every integer `n` |
| Text.ToInt | src/backend/product/database.py:69 | `int()` of a Python integer value is that value |
| Text.BasenameSuffix | src/backend/transaction/logic.py:59 | the base name is the tail of the path after its last `/` (the whole path when it has none) and holds no `/` |
| CsvDict.RowDictHasFields | src/backend/common/quan_ly_du_lieu.py:97 | every field name of the header is a key of every row dict |
| CsvDict.RowDictValue | src/backend/common/quan_ly_du_lieu.py:97 | a field name with no later duplicate maps to its own cell, or to `None` past the end of the line |
| CsvDict.RowDict | src/backend/common/quan_ly_du_lieu.py:97 | the dict DictReader builds for one line; `RowDictKeys`, `RowDictHasFields` and `RowDictValue` state its keys and values |
| CsvDict.RowDictKeys | src/backend/common/quan_ly_du_lieu.py:97 | the row dict has distinct keys, and each of them is a field name of the header |
| CsvDict.GetIndex | src/backend/common/quan_ly_du_lieu.py:97-99 | a lookup finds a key exactly when some entry of the dict carries it, and in a dict with distinct keys it gives that entry's value |
| CsvDict.DataLines | src/backend/common/quan_ly_du_lieu.py:97 | no data line is blank and there are no more of them than lines; a file with no blank line is all data lines; a single line is a data line exactly when it is not blank |
| CsvDict.DataLinesAppend | src/backend/common/quan_ly_du_lieu.py:97 | the data lines of a file are those of its parts, one after the other; with the one-line case the data lines are exactly the non-blank lines, in file order |
| CsvDict.CellText | src/backend/common/quan_ly_du_lieu.py:99 | the text of a present cell is its strip, a missing (`None`) cell gives `''`, and the result is always unpadded |
| CsvDict.CleanRow | src/backend/common/quan_ly_du_lieu.py:99-100 | every key and every value of the cleaned row is stripped |
| CsvDict.CleanRowKeys | src/backend/common/quan_ly_du_lieu.py:99-100 | the cleaned row's keys are exactly the stripped keys of the dict |
| CsvDict.CleanRowValue | src/backend/common/quan_ly_du_lieu.py:99-100 | under each stripped key the cleaned row holds the cell text of the last dict entry whose key strips to it |
| CsvDict.CellAt | src/backend/common/quan_ly_du_lieu.py:97-100 | the cleaned text of cell `j` of a line: its strip, or `''` when the line stops before it |
| CsvDict.CleanCell | src/backend/common/quan_ly_du_lieu.py:97-100 | for a column whose name is unpadded and which no other header cell strips to, the cleaned row holds, under that name, the stripped cell of the line at that column's position |
| CsvDict.PaddedKeyMisses | src/backend/common/quan_ly_du_lieu.py:99-105 | a padded column name is never a key of a cleaned row, so its lookup gives the default |
| CsvColumns.Normalized | src/backend/common/quan_ly_du_lieu.py:72 | one name per field, each `strip().lower()` of the field |
| CsvColumns.IndexOf | src/backend/common/quan_ly_du_lieu.py:79 | `list.index`: the first position holding the value |
| CsvColumns.ResolveColumn | src/backend/common/quan_ly_du_lieu.py:75-82 | no column exactly when no alias is among the normalised names; a resolved column is an original, unstripped header cell |
| CsvColumns.ResolveColumnIsFirstAlias | src/backend/common/quan_ly_du_lieu.py:77-80 | the column is the first header cell whose normalised name is the first alias present, in alias order |
| CsvColumns.ResolvedColumnNonEmpty | src/backend/common/quan_ly_du_lieu.py:81 | with non-empty aliases a resolved column name is non-empty, so `if not sku_col_name` only fires when nothing was found |
| CsvColumns.FindColumn | src/backend/common/quan_ly_du_lieu.py:75-80 | the alias loop with `break` returns the resolved column |
| CsvImport.EntryFor | src/backend/common/quan_ly_du_lieu.py:103-107 | the code, quantity and notes of an entry are stripped |
| CsvImport.EntryValues | src/backend/common/quan_ly_du_lieu.py:103-107 | an entry's code, quantity and notes are the stripped cells of the line under the resolved columns, or `''` where the line is short |
| CsvImport.ParseMovementFile | src/backend/common/quan_ly_du_lieu.py:61-113 | the failures come in the order missing file, no header, no code column, no quantity column, malformed line, each exactly when its condition holds; otherwise one stripped entry per data line, with empty notes when there is no notes column (`ParsedEntryValues` gives the values) |
| CsvImport.ReadData | src/backend/common/quan_ly_du_lieu.py:97-109 | the row pass fails exactly when some data line is longer than the header; otherwise entry `k` is the entry of data line `k` |
| CsvImport.ParsedEntryValues | src/backend/common/quan_ly_du_lieu.py:97-109 | entry `k` of a parsed file carries, under each resolved column, the stripped cell of data line `k` at that column's position, or `''` where the line is short |
| CsvImport.ReadMovementFile | src/backend/common/quan_ly_du_lieu.py:60-113 | the reader returns what `ParseMovementFile` describes |
| CsvImport.ReadDataLines | src/backend/common/quan_ly_du_lieu.py:97-109 | the row loop returns what `ReadData` describes |
| CsvImport.LongLineStaysLong | src/backend/common/quan_ly_du_lieu.py:97-100 | a too-long line among the first lines makes the whole file malformed |
| CsvImport.HeaderOnlyIsNoData | src/backend/common/quan_ly_du_lieu.py:111-112 | a file with resolvable columns and no data lines reads as an empty list, not as a failure |
| CsvImport.BlankLinesHoldNoData | src/backend/common/quan_ly_du_lieu.py:97 | blank lines yield no data lines |
| CsvImport.PaddedHeaderGivesDefaults | src/backend/common/quan_ly_du_lieu.py:79-105 | a padded code header gives every entry the code `''`, a padded quantity header the quantity `'0'` |
| CsvImportCheckpoint.PriceFor | src/backend/common/.ipynb_checkpoints/quan_ly_du_lieu-checkpoint.py:77-89 | a price exactly when there is a price column and its cell reads as an integer, and then that integer |
| CsvImportCheckpoint.PricedEntryFor | src/backend/common/.ipynb_checkpoints/quan_ly_du_lieu-checkpoint.py:77-95 | the priced entry of one data line; `PricedEntryValues` states its fields |
| CsvImportCheckpoint.PricedEntryValues | src/backend/common/.ipynb_checkpoints/quan_ly_du_lieu-checkpoint.py:77-95 | beside the code, quantity and notes of the main reader, a priced entry carries the integer the stripped price cell holds, and no price when the cell holds none |
| CsvImportCheckpoint.ReadPricedData | src/backend/common/.ipynb_checkpoints/quan_ly_du_lieu-checkpoint.py:70-95 | the row pass fails exactly when some data line is longer than the header; otherwise entry `k` is the priced entry of data line `k` |
| CsvImportCheckpoint.ParsePricedFile | src/backend/common/.ipynb_checkpoints/quan_ly_du_lieu-checkpoint.py:26-99 | the same failures in the same order as the main reader; one entry per data line; no price anywhere without a price column |
| CsvImportCheckpoint.ParsedPricedValues | src/backend/common/.ipynb_checkpoints/quan_ly_du_lieu-checkpoint.py:70-95 | entry `k` of a file read by the checkpoint reader carries the cells of data line `k` under the resolved columns, and as price what `int()` makes of the price cell |
| CsvImportCheckpoint.ReadPricedFile | src/backend/common/.ipynb_checkpoints/quan_ly_du_lieu-checkpoint.py:26-99 | the four alias loops and the row loop return what `ParsePricedFile` describes |
| CsvImportCheckpoint.ReadPricedLines | src/backend/common/.ipynb_checkpoints/quan_ly_du_lieu-checkpoint.py:70-95 | the row loop returns what `ReadPricedData` describes |
| CsvImportCheckpoint.ReadersAgree | src/backend/common/.ipynb_checkpoints/quan_ly_du_lieu-checkpoint.py:63-95 | the two readers fail alike and otherwise give the same codes and quantities line for line, and the same notes when their notes aliases pick the same column |
| Store.Net | src/backend/transaction/database.py:58-74 | a product's ledger balance, the IN quantities minus the OUT quantities of its rows; `NetAppend`, `NetOfOtherRows` and `TransactionDb.NetSnoc` state how it adds up |
| Store.NetAppend | src/backend/transaction/database.py:58-74 | the balance and row count of a product over two ledger parts add up |
| Store.NetOfOtherRows | src/backend/transaction/database.py:58-74 | rows of other products leave a product's balance at 0 |
| Store.FindSkuFromFacts | src/backend/product/database.py:127-132 | nothing exactly when no (visible) product from that position on has the SKU; otherwise the id of the first one |
| Store.FindSkuUnique | src/backend/product/database.py:17 | with unique SKUs the lookup finds the one product carrying the SKU |
| Store.Database.constructor | src/backend/product/database.py:15-22 | empty tables satisfy the table invariants |
| Store.Database.Now | src/backend/transaction/database.py:68 | a clock reading returns the clock and advances it by one |
| ProductDb.SkuFromUuid | src/backend/product/database.py:35-36 | `SP-` followed by the first five hexadecimal digits upper-cased, 8 characters |
| ProductDb.ProductBySku | src/backend/product/database.py:127-132 | nothing exactly when every product with that SKU is hidden; otherwise a visible product with that SKU |
| ProductDb.ProductById | src/backend/product/database.py:120-125 | the product exactly when the id exists and is not hidden |
| ProductDb.GenerateUniqueSku | src/backend/product/database.py:26-40 | a returned SKU comes from one of the ten draws, has the `SP-XXXXX` shape and is not found by the visible lookup; nothing exactly when all ten draws are found |
| ProductDb.HiddenSkuIsHandedOut | src/backend/product/database.py:34-39 | a hidden product's SKU passes the generator's collision check although a row carries it |
| ProductDb.AddProduct | src/backend/product/database.py:42-96 | success exactly when both numbers are integers and no row carries the SKU; on failure nothing changes; on success one visible product and, for a positive stock, one `IN` row of `stock * price`; every imbalance is kept and the new one is 0 for a non-negative stock |
| ProductDb.InsertProduct | src/backend/product/database.py:66-81 | the product row is appended under the next id, and the opening `IN` row exactly when the stock is positive |
| ProductDb.SortColumn | src/backend/product/database.py:111-112 | a whitelisted column is kept, any other becomes `name` (the checkpoint copy, lines 50-52 of its file, has the same whitelist and fallback) |
| ProductDb.OrderDirection | src/backend/product/database.py:113 | `ASC` exactly when the upper-cased order is `ASC`, otherwise `DESC` |
| ProductDb.SortRequestNormalIdempotent | src/backend/product/database.py:111-113 | normalising a sort request twice gives what normalising it once gives |
| ProductDb.UpdateProduct | src/backend/product/database.py:151-169 | success exactly when the price is an integer; only name, description, unit, price and `updated_at` of that id change; SKU, stock, ledger and imbalances stay |
| ProductDb.EditRow | src/backend/product/database.py:157-161 | the `UPDATE` writes that one row's editable fields and nothing else |
| ProductDb.DeleteProductById | src/backend/product/database.py:171-199 | success exactly when the id exists, hidden or not; then only `is_deleted` and `updated_at` change and the id lookup no longer finds it; otherwise nothing changes |
| ProductDbCheckpoint.ProductBySkuAny | src/backend/product/.ipynb_checkpoints/database-checkpoint.py:64-68 | nothing exactly when no row, hidden or not, has the SKU |
| ProductDbCheckpoint.ProductByIdAny | src/backend/product/.ipynb_checkpoints/database-checkpoint.py:58-62 | the product exactly when the id exists, hidden or not |
| ProductDbCheckpoint.GenerateUniqueSku | src/backend/product/.ipynb_checkpoints/database-checkpoint.py:20-26 | a returned SKU comes from one of the ten draws and is carried by no row at all; nothing exactly when all ten are taken |
| ProductDbCheckpoint.AddProduct | src/backend/product/.ipynb_checkpoints/database-checkpoint.py:28-46 | success exactly when both numbers are integers and the SKU is free; only the product row is inserted, the ledger stays, and the new imbalance is the opening stock |
| ProductLogic.Validate | src/backend/product/logic.py:26-40 | each failure exactly when every earlier check passes and its own fails, in the order SKU, name, unit, numbers, signs; an empty unit passes; success exactly when all pass, with the two numbers |
| ProductLogic.GeneratedSkuPassesSkuCheck | src/backend/product/logic.py:26-27 | every generated SKU passes the SKU check |
| ProductLogic.AddNewProduct | src/backend/product/logic.py:8-62 | added exactly when validation passes and no row has the SKU; a visible existing SKU is refused before the insert, a hidden one by the insert; on refusal nothing changes; on success the validated product is appended, the ledger gains the opening `IN` row exactly for a positive stock, and the new imbalance is 0 |
| TransactionDb.StockAfter | src/backend/transaction/database.py:58-65 | the stock a movement leaves; `StockAfterMatchesDelta` states that it is the old stock plus the movement's ledger delta |
| TransactionDb.StockAfterMatchesDelta | src/backend/transaction/database.py:58-65 | the stock a movement leaves is the old stock plus that movement's ledger delta |
| TransactionDb.Decide | src/backend/transaction/database.py:33-65 | committed exactly when the quantity is a positive integer, the price an integer, the id exists (hidden or not) and an `OUT` is covered by the stock; each failure exactly in its own case and order (`InsufficientStock(stock, quantity)` exactly for an `OUT` above the stock once the earlier checks pass); the new stock is old + quantity for `IN` and old − quantity for `OUT`, never negative from a non-negative stock; a negative price is not refused |
| TransactionDb.StocksKeptTransitive | src/backend/transaction/database.py:58-74 | kept stocks and imbalances compose over consecutive movements |
| TransactionDb.MovementKeepsStocks | src/backend/transaction/database.py:58-68 | one committed movement keeps every imbalance, keeps non-negative stocks non-negative, and moves stocks only in its own direction |
| TransactionDb.NetSnoc | src/backend/transaction/database.py:71-74 | appending a row changes only its own product's balance, by that row's delta |
| TransactionDb.AddStockTransaction | src/backend/transaction/database.py:21-82 | returns what `Decide` says; on failure nothing changes; on success that product's stock and `updated_at` change and exactly one row `(id, type, q, p, q*p, notes, user)` is appended, stamped by a second clock reading; imbalances and stock directions are kept |
| TransactionDb.RecordMovement | src/backend/transaction/database.py:41-82 | the database transaction: rollback on an unknown id or an uncovered `OUT`, else both writes |
| TransactionDb.CommitMovement | src/backend/transaction/database.py:67-76 | the two writes with two clock readings, keeping imbalances and stock directions |
| TransactionDb.WriteMovement | src/backend/transaction/database.py:67-74 | the product's stock becomes what the movement leaves and the movement is appended; every imbalance is kept |
| TransactionDb.HasTransactions | src/backend/transaction/database.py:110-117 | true exactly when some ledger row references the product |
| TransactionDb.RowCountPositive | src/backend/transaction/database.py:114-115 | a product has rows exactly when some row references it |
| TransactionDbCheckpoint.DecideChecked | src/backend/transaction/.ipynb_checkpoints/database-checkpoint.py:22-53 | a negative price is refused exactly when the quantity is a positive integer and the price a negative one; otherwise the main copy's decision |
| TransactionDbCheckpoint.CopiesAgreeOnNonNegativePrices | src/backend/transaction/.ipynb_checkpoints/database-checkpoint.py:26 | the two copies decide alike whenever the price text is not a negative integer |
| TransactionDbCheckpoint.AddStockTransaction | src/backend/transaction/.ipynb_checkpoints/database-checkpoint.py:20-67 | returns what `DecideChecked` says; on failure nothing changes; on success the stock update and the ledger row carry the same clock reading, which advances the clock by one, and the total is `q*p`; the clock advances only when the lookup succeeded; imbalances are kept and stocks move only in the movement's direction |
| TransactionDbCheckpoint.RecordMovementOnce | src/backend/transaction/.ipynb_checkpoints/database-checkpoint.py:32-62 | one clock reading, taken after the product is found, stamps both writes |
| TransactionLogic.ShownErrors | src/backend/transaction/logic.py:81 | at most five errors, a prefix of the list, all of them when there are at most five |
| TransactionLogic.BatchNotes | src/backend/transaction/logic.py:59 | the notes of a booked row; `BatchNotesIdentifyEntry` states that they name the entry |
| TransactionLogic.BatchNotesIdentifyEntry | src/backend/transaction/logic.py:59 | within one file two entries get the same notes only when they stand on the same line with the same notes of their own |
| TransactionLogic.PriceText | src/backend/transaction/logic.py:55 | the price text reads back as the product's price, so a batch entry is never refused for its price |
| TransactionLogic.BatchProgressTransitive | src/backend/transaction/logic.py:36-72 | the batch invariant (kept stocks, ledger only extended by batch rows of its type) composes over entries |
| TransactionLogic.BookRow | src/backend/transaction/logic.py:55-64 | the ledger call books at the product's current price under the user `file_csv` |
| TransactionLogic.EntryVerdict | src/backend/transaction/logic.py:38-72 | a failure it gives is true of the entry: a missing field, or the entry's own SKU |
| TransactionLogic.EntryVerdictCases | src/backend/transaction/logic.py:38-72 | an entry fails for a missing field exactly when its code or quantity is empty, for an unknown SKU exactly when no visible product has its code, and is booked exactly when the ledger store commits it (a positive quantity, and for OUT one the stock covers); a refusal carries the store's reason |
| TransactionLogic.ProcessRow | src/backend/transaction/logic.py:37-72 | its failure is `Verdict` of the stripped entry on the products table it finds, and the tables it leaves are `Step`: nothing changes for a failed entry; a booked one changes only that product's stock and `updated_at` and appends one row at its current price, with notes naming the file and the 1-based line |
| TransactionLogic.ErrorsFitStep | src/backend/transaction/logic.py:42-72 | after each entry the errors still name entries seen so far, truthfully and in line order |
| TransactionLogic.ProcessRows | src/backend/transaction/logic.py:36-72 | the report and the tables are `RunRows` over all entries, each judged on the tables the entries before it left; the errors name the entries they fail, in file order; the ledger grew by the successes, with batch rows only |
| TransactionLogic.RunRows | src/backend/transaction/logic.py:36-72 | after `n` entries the successes and failures add up to `n` and there is one error per failure |
| TransactionLogic.RunRowsNext | src/backend/transaction/logic.py:36-72 | one entry more: a booked entry adds a success, a failed one a failure and the error `(line, failure)` under its 1-based line, and the tables take its step |
| TransactionLogic.RunRowsProgress | src/backend/transaction/logic.py:36-72 | the whole row loop keeps every imbalance, only appends batch rows, and appends one per booked entry |
| TransactionLogic.RunRowsKeepsCatalog | src/backend/transaction/logic.py:36-72 | a batch changes no SKU and no hidden flag, and adds or removes no product |
| TransactionLogic.InVerdictOnCatalog | src/backend/transaction/logic.py:42-72 | a receiving entry's fate depends only on the catalog, not on the stocks |
| TransactionLogic.InBatchErrors | src/backend/transaction/logic.py:36-72 | in a receiving batch the errors are exactly the entries that fail on the starting tables, in file order |
| TransactionLogic.FailuresOnOneUnknown | src/backend/transaction/logic.py:48-53 | when every entry but `k` is bookable and `k` names no visible product, the only failure is `k`, on line `k + 1`, as an unknown SKU |
| TransactionLogic.OneUnknownSkuInBatch | src/backend/transaction/logic.py:36-72 | a receiving file whose entries all name visible products with positive quantities except one unknown SKU books all the others: `|rows| - 1` successes, one failure, and one error naming that entry's line and SKU |
| TransactionLogic.ProcessStockFile | src/backend/transaction/logic.py:7-86 | the report and the tables are `FileOutcome`: a read failure or no data changes nothing (failure resp. success); otherwise the row loop over every entry; the flag is `success > 0 or processed == 0`; the errors name their own entries |
| TransactionLogic.StockFollowsLedger | src/backend/transaction/database.py:58-74 | after any run of kept movements each stock equals the starting stock plus the IN quantities minus the OUT quantities of the appended rows |
| TransactionLogic.ImportStockIn | src/backend/transaction/logic.py:88-93 | the report and tables are `FileOutcome` with type `IN`, and a receiving batch never lowers a stock |
| TransactionLogic.ImportStockOut | src/backend/transaction/logic.py:95-100 | the report and tables are `FileOutcome` with type `OUT`; a dispatch batch never raises a stock and never takes a non-negative stock below zero |
| CliDataFile.Cell | quan_ly_du_lieu.py:54-57 | a cell exactly when the key is present and its value is not `None` |
| CliDataFile.ReadCells | quan_ly_du_lieu.py:54-57 | the five cells of a line, or nothing when one is missing; `ReadFullLine` states that a full line under the written header hands over its cells in order |
| CliDataFile.CheckCells | quan_ly_du_lieu.py:65-88 | accepted exactly when code, name and unit are non-empty within 10, 100 and 20 characters and both numbers are non-negative integers; then that product |
| CliDataFile.ParseCells | quan_ly_du_lieu.py:59-88 | an accepted line gives a well-formed product |
| CliDataFile.ParseIntIgnoresStrip | quan_ly_du_lieu.py:78-79 | `int(s.strip()) == int(s)` |
| CliDataFile.ParseRow | quan_ly_du_lieu.py:54-88 | every check before the duplicate check; an accepted line gives a well-formed product |
| CliDataFile.LineItem | quan_ly_du_lieu.py:51-88 | a line offers a product exactly when it is not blank and passes every check |
| CliDataFile.Dedup | quan_ly_du_lieu.py:90-101 | the duplicate rule over the offers of the lines; `DedupValid`, `DedupCodes`, `DedupIsKept` and `KeptExactly` state what it keeps |
| CliDataFile.LoadFile | quan_ly_du_lieu.py:29-123 | what the loader returns; `LoadProducts`, `LoadedAreFirstValidLines` and `SaveThenLoad` state what it is |
| CliDataFile.LoadProducts | quan_ly_du_lieu.py:29-123 | the loader returns `LoadFile`: empty for a missing file or missing columns, and always a valid list |
| CliDataFile.OffersWellFormed | quan_ly_du_lieu.py:65-88 | every product a line offers is well formed |
| CliDataFile.DedupValid | quan_ly_du_lieu.py:90-101 | the duplicate rule leaves unique codes and only well-formed products |
| CliDataFile.AppendKeepsValid | quan_ly_du_lieu.py:95-101 | appending a well-formed product with a new code keeps the list valid |
| CliDataFile.DedupCodes | quan_ly_du_lieu.py:90-93 | a code is loaded exactly when some line offers it |
| CliDataFile.Kept | quan_ly_du_lieu.py:90-93 | the kept positions are positions of offered products |
| CliDataFile.DedupIsKept | quan_ly_du_lieu.py:90-101 | the list is the kept offers, product by product |
| CliDataFile.KeptExactly | quan_ly_du_lieu.py:90-93 | kept positions rise, and a line is kept exactly when no earlier line offers its code |
| CliDataFile.LoadedAreFirstValidLines | quan_ly_du_lieu.py:51-101 | accepted lines keep file order, and a duplicate code keeps its first valid line |
| CliDataFile.SavedLines | quan_ly_du_lieu.py:131-136 | one written line per product |
| CliDataFile.SaveFile | quan_ly_du_lieu.py:125-145 | nothing is written for an empty list; otherwise the five headers and one line per product |
| CliDataFile.SaveThenLoad | quan_ly_du_lieu.py:125-145 | writing a valid non-empty list and loading the file gives the same list |
| CliDataFile.LoadSavedLines | quan_ly_du_lieu.py:131-136 | the written lines of a valid list load back as that list |
| CliInventory.FirstIndex | xu_ly_kho.py:15-19 | a position exactly when some product has the code; then the first such |
| CliInventory.FirstAnswer | xu_ly_kho.py:24-51 | a settled answer is accepted and was typed; none exactly when no answer is accepted |
| CliInventory.FirstRead | xu_ly_kho.py:53-71 | a settled number is at least the bound |
| CliInventory.FirstReadIsFirst | xu_ly_kho.py:53-71 | none exactly when no answer reads as a large enough number; otherwise the first answer that does |
| CliInventory.FirstNumber | xu_ly_kho.py:110-118 | the number a quantity prompt settles on is at least its bound |
| CliInventory.DialogItem | xu_ly_kho.py:21-82 | the product the add dialog settles on; `DialogItemFresh` states that it is well formed with a new code |
| CliInventory.Ask | xu_ly_kho.py:24-33 | the text prompt loop settles on `FirstAnswer` |
| CliInventory.AskNumber | xu_ly_kho.py:110-118 | the number prompt loop settles on `FirstNumber` |
| CliInventory.DialogItemFresh | xu_ly_kho.py:21-82 | the dialog adds a well-formed product with a new code, so the list stays valid |
| CliInventory.WithStock | xu_ly_kho.py:120 | one product's stock is set; every other product stays |
| CliInventory.WithStockKeepsValid | xu_ly_kho.py:120 | a non-negative stock change keeps the list valid |
| CliInventory.InboundThenOutbound | xu_ly_kho.py:120-148 | receiving `n` then shipping `n` of one product gives the list back |
| CliInventory.Receive | xu_ly_kho.py:99-122 | a manual receipt, as a value; `ReceiveEffect` states its outcome and new list in terms of the first matching product and the first positive number typed |
| CliInventory.Ship | xu_ly_kho.py:124-150 | a manual shipment, as a value; `ShipEffect` states its outcome and new list in terms of the first matching product, the first positive number typed and the stock |
| CliInventory.ReceiveEffect | xu_ly_kho.py:99-122 | booked exactly when the code is in the list and a positive number is typed; the product moved is the first with the code (`FirstIndex`) and its stock becomes old + the first positive number typed (`FirstNumber`); nothing else changes; an unknown code gives `NoSuchProduct` and no number gives `NoQuantity`, each with the list unchanged |
| CliInventory.ShipEffect | xu_ly_kho.py:124-150 | booked exactly when the code is in the list, a positive number is typed and it is at most the stock of the first product with the code; that stock becomes old − the number; refused with `NotEnoughStock(stock, number)` exactly when the number is above that stock; unknown code and no number as for a receipt; a list that is not booked stays unchanged |
| CliInventory.ReceiveKeepsValid | xu_ly_kho.py:110-120 | a manual receipt keeps the list valid |
| CliInventory.ShipKeepsValid | xu_ly_kho.py:145-148 | a manual shipment keeps the list valid: no stock goes below zero |
| CliInventory.ReadRow | xu_ly_kho.py:195-215 | a short line exactly when it has fewer than two cells; a movement always has a positive quantity |
| CliInventory.ReadRowMovement | xu_ly_kho.py:205-215 | a line asks for a movement exactly when its second cell reads as a positive integer |
| CliInventory.Apply | xu_ly_kho.py:195-240 | one line adds one to the total and keeps the catalog; a failing line counts a failure and changes no stock; a good line counts a success, and `ApplyEffect` gives its new stock |
| CliInventory.ApplyEffect | xu_ly_kho.py:224-240 | a booked `nhap` line sets the first product with the code to old + q, a booked `xuat` line to old − q; one success and a `Received`/`Shipped` log entry with the new stock; no other product changes |
| CliInventory.RunRequests | xu_ly_kho.py:159-248 | total = number of lines = successes + failures, and only stocks change |
| CliInventory.HeaderCheck | xu_ly_kho.py:172-193 | missing header exactly for an empty file or a header of fewer than two cells; accepted exactly for `masp` and an accepted quantity name; otherwise a mismatch naming both cells |
| CliInventory.ProcessFile | xu_ly_kho.py:152-260 | nothing for a missing file; a rejected header counts one failure and no rows; otherwise one count per data line; counters add up |
| CliInventory.RequestsAsRead | xu_ly_kho.py:205-215 | every request read from a file has a positive quantity |
| CliInventory.ApplyDirection | xu_ly_kho.py:224-240 | one receipt line never lowers a stock, one shipment line never raises one |
| CliInventory.ApplyKeepsValid | xu_ly_kho.py:230-240 | one line never takes a stock below zero |
| CliInventory.RunRequestsDirection | xu_ly_kho.py:195-240 | a receipt file never lowers a stock, a shipment file never raises one |
| CliInventory.RunRequestsKeepsValid | xu_ly_kho.py:195-240 | a batch keeps the list valid |
| CliInventory.ProcessFileStocks | xu_ly_kho.py:152-260 | processing a file keeps the list valid and moves stocks only in its direction |
| CliInventory.StockAtMost | xu_ly_kho.py:336-339 | exactly the products whose stock is at most the threshold |
| CliInventory.StockAtMostAppend | xu_ly_kho.py:336-339 | the low-stock list keeps list order: the matches of a concatenation are those of its parts, one after the other |
| CliInventory.NameMatches | xu_ly_kho.py:306-309 | exactly the products whose lower-cased name contains the lower-cased term |
| CliInventory.NameMatchesAppend | xu_ly_kho.py:306-309 | the name search keeps list order in the same way |
| CliInventory.Inventory.CodeExists | xu_ly_kho.py:9-13 | true exactly when some product has the code |
| CliInventory.Inventory.FindProduct | xu_ly_kho.py:15-19 | the first position of the code |
| CliInventory.Inventory.AddProduct | xu_ly_kho.py:21-82 | added exactly when every prompt settles; then the dialog's product is appended, otherwise the list stays |
| CliInventory.Inventory.ManualInbound | xu_ly_kho.py:99-122 | the list and outcome are `Receive` of the stripped code |
| CliInventory.Inventory.ReceiveCode | xu_ly_kho.py:106-122 | the lookup and the quantity prompt give `Receive` |
| CliInventory.Inventory.ManualOutbound | xu_ly_kho.py:124-150 | the list and outcome are `Ship` of the stripped code |
| CliInventory.Inventory.ShipCode | xu_ly_kho.py:131-150 | the lookup, the quantity prompt and the stock check give `Ship` |
| CliInventory.Inventory.ProcessTransactionFile | xu_ly_kho.py:152-260 | the new list and the tally are `ProcessFile` |
| CliInventory.Inventory.ProcessRequests | xu_ly_kho.py:195-240 | the row loop gives `RunRequests` |
| CliInventory.Inventory.ProcessRow | xu_ly_kho.py:195-240 | one line of the loop gives `Apply` |
| CliInventory.Inventory.ImportFromFile | xu_ly_kho.py:263-269 | the stripped path or the default `nhap` file, then `ProcessFile` with `soLuongNhap` |
| CliInventory.Inventory.ExportFromFile | xu_ly_kho.py:272-278 | the stripped path or the default `xuat` file, then `ProcessFile` with `soLuongXuat` |
| CliInventory.Inventory.SearchByCode | xu_ly_kho.py:281-295 | a product exactly when one has the stripped code; then the first one |
| CliInventory.Inventory.SearchByName | xu_ly_kho.py:297-319 | nothing exactly for an empty term; otherwise `NameMatches` in list order |
| CliInventory.Inventory.LowStock | xu_ly_kho.py:322-349 | a non-integer threshold and a negative threshold are each refused exactly in their case; otherwise `StockAtMost` |

## Left out

- Printing, menus, messages and log files are left out: `ghi_log_loi`, `ghi_log_giao_dich`, `print` and the summary texts. Where a message carries data (the error list, the counters, the rejected header cells), that data is modelled.
- File access is left out. `os.path.exists` is a boolean parameter, and a file is its header and lines already split into cells. The model has no CSV tokenisation, no UTF-8 BOM handling and no `csv.Error` path.
- The SQL text is not modelled: tables are sequences. The LIKE search, the date-range query, `db_get_all_products` apart from its sort normalisation, and every `init_db` are left out.
- Generic `except Exception` paths: no database error other than the ones the code raises itself is modelled, and neither is the defensive `lastrowid` check.
- `datetime.now()` is a counter (`Database.clock`), and `uuid4().hex` is a sequence of injected draws.
- Floating point is not modelled. `int(float(x))` is read as integer parsing only, so texts such as `"2.5"` or `"1e3"` count as non-numbers.
- Concurrency and isolation between writers are not modelled; calls are sequential.
- `liet_ke_tat_ca_san_pham` and `doc_lich_su_giao_dich` only print, so they are left out.
- `file_had_data_rows` in the CLI loader only selects a message, so it is left out.
- Reports, charts, HTML handlers, the request router, the sample-data generator and the start-up code are left out.
- `sua_san_pham`, `xoa_san_pham`, `khoi_phuc_san_pham` and `db_get_all_hidden_products` are not part of this model: they are called but not defined in the files shown.
- Text.Lower: only the capitals of ASCII, Latin-1, Latin Extended-A up to U+0177 (except U+0130), O and U with horn (U+01A0, U+01AF) and Latin Extended Additional are lowered. Ÿ (U+0178), Ź Ż Ž (U+0179-U+017E), ẞ (U+1E9E), Greek, Cyrillic and the Kelvin sign (U+212A, which Python lowers to `k`) are kept as they are, so a header such as `S\u212AU` is not found under the `sku` alias. İ (U+0130) is kept as well, where Python gives two characters; the length clause of `Lower` holds of the model, not of Python for that character.
- Text.ParseInt: only ASCII digits are accepted, where Python's `int()` also takes other Unicode decimal digits (fullwidth or Arabic-Indic ones). Python's refusal of texts longer than 4300 digits is not modelled: the model reads them.
- TransactionDb.AddStockTransaction: SQLite integers are 64-bit. A stock or a total `quantity * unit_price` beyond 2^63 - 1 makes the write raise `OverflowError`, which the generic `except` turns into a rollback and a failure (src/backend/transaction/database.py:68-80). The model has unbounded integers and commits such a movement.
- ProductDb.AddProduct: for the same reason an opening stock or price beyond 2^63 - 1, or their product, would roll the insert back and return no id (src/backend/product/database.py:66-94); the model inserts it.
- TransactionDbCheckpoint.AddStockTransaction: the same 64-bit gap as the main copy. A stock or a total beyond 2^63 - 1 would roll the checkpoint copy's transaction back (src/backend/transaction/.ipynb_checkpoints/database-checkpoint.py:55-65); the model commits it.
- ProductDbCheckpoint.AddProduct: the same 64-bit gap. An opening stock or a price beyond 2^63 - 1 makes the insert raise, and `except Exception` returns no id (src/backend/product/.ipynb_checkpoints/database-checkpoint.py:31-44); the model inserts it.
- CsvImportCheckpoint.PriceFor: `int(float("inf"))` raises `OverflowError`, which the `except ValueError` around the price does not catch. The outer `except Exception` then makes the whole read return `None` (lines 79-85 and 104-107 of the checkpoint reader). The model reads an `inf` cell as a non-number and gives that one entry no price.
- ProductLogic.Validate: for a stock or price text `inf`, `int(float(...))` raises `OverflowError`, which `except ValueError` does not catch, so the error leaves `them_san_pham_moi` (src/backend/product/logic.py:34-40). The model reports `NotANumber`.
- CsvImport.ParsedEntryValues: the value lemmas (`EntryValues`, `ParsedEntryValues`, `PricedEntryValues`, `ParsedPricedValues`, `CsvDict.CleanCell`) speak of a resolved column that no other header cell strips to. When several header cells strip to the same name, the cleaned row takes the value of the last dict entry whose key strips to that name, which `CsvDict.CleanRowValue` states. A repeated header cell keeps its first position in the dict and takes the value of its last cell, so the value can come from an earlier cell than the last header cell that strips to the name. The entry-level lemmas do not restate that case.
- CliInventory.Ask: an answer sequence that runs out before an answer is accepted ends the dialog with no change. The program itself would wait for more input.
- CliInventory.Apply: for a `loai_giao_dich` other than `nhap` or `xuat` only the total is counted, as in the code.
- CliInventory.Inventory.ProcessTransactionFile: the cells of every data line are read before any stock is moved. The code does both per line. Reading a line does not depend on the stocks, so the result is the same.
- CliInventory.Inventory: the list is a `seq` field that is reassigned. Aliasing of the dicts shared with the caller is not modelled.
- TransactionLogic.ProcessStockFile: the summary text and the transaction-log line are not modelled; the report carries the counters and the errors, and `ShownErrors` gives the five that are quoted.
