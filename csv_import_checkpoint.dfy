/** The editor-checkpoint copy of the batch-file reader
    (src/backend/common/.ipynb_checkpoints/quan_ly_du_lieu-checkpoint.py). Besides the
    code, quantity and notes columns it looks for an optional unit-price column and
    normalises its cell to an integer, and its notes aliases add "diễn giải". */
module CsvImportCheckpoint {
  import opened Common
  import opened Text
  import opened CsvDict
  import opened CsvColumns
  import opened CsvImport

  const PriceAliases: seq<string> := ["dongia", "đơngiá", "giá", "price", "unitprice", "unit_price"]
  const CheckpointNotesAliases: seq<string> := ["ghichu", "ghi chú", "notes", "note", "diengiai", "diễn giải"]

  /** One entry: `maSP`, `soLuongProcessed`, `donGiaCSV` and `ghiChu`. The reader stores
      the price as the text `str(n)` of an integer `n`; the model keeps `n` itself
      (`Text.ParseIntRoundTrip` shows that the text reads back as `n`). */
  datatype PricedRow = PricedRow(code: string, quantity: string, price: Option<int>, notes: string)

  datatype PricedResult = PricedFailed(error: ReadError) | PricedOk(rows: seq<PricedRow>)

  /** The price of one cleaned row: nothing without a price column or for an empty cell,
      the integer when the cell holds one, nothing when it does not. */
  function PriceFor(cleaned: map<string, string>, priceCol: Option<string>): (r: Option<int>)
    ensures r.Some? <==> priceCol.Some? && ParseInt(GetOr(cleaned, priceCol.value, "")).Some?
    ensures r.Some? ==> r == ParseInt(GetOr(cleaned, priceCol.value, ""))
  {
    if priceCol.None? then None
    else
      var cell := GetOr(cleaned, priceCol.value, "");
      if cell == "" then None else ParseInt(cell)
  }

  function PricedEntryFor(fieldnames: seq<string>, codeCol: string, quantityCol: string,
                          priceCol: Option<string>, notesCol: Option<string>, line: seq<string>): PricedRow
  {
    var plain := EntryFor(fieldnames, codeCol, quantityCol, notesCol, line);
    PricedRow(plain.code, plain.quantity, PriceFor(CleanRow(RowDict(fieldnames, line)), priceCol), plain.notes)
  }

  /** What a priced entry carries: beside the code, quantity and notes of the main
      reader, under a price column that is the sole field name stripping to its name,
      the integer the stripped cell holds, and nothing when it holds none. */
  lemma PricedEntryValues(fieldnames: seq<string>, codeCol: string, quantityCol: string,
                          priceCol: Option<string>, notesCol: Option<string>, line: seq<string>, j: nat)
    requires SoleColumn(fieldnames, j)
    ensures var e := PricedEntryFor(fieldnames, codeCol, quantityCol, priceCol, notesCol, line);
            && (codeCol == fieldnames[j] ==> e.code == CellAt(line, j))
            && (quantityCol == fieldnames[j] ==> e.quantity == CellAt(line, j))
            && (priceCol == Some(fieldnames[j]) ==> e.price == ParseInt(CellAt(line, j)))
            && (notesCol == Some(fieldnames[j]) ==> e.notes == CellAt(line, j))
  {
    CleanCell(fieldnames, line, j);
    EntryValues(fieldnames, codeCol, quantityCol, notesCol, line, j);
    if CellAt(line, j) == "" {
      assert !IntText(Strip(""));
    }
  }

  function PricedEntries(fieldnames: seq<string>, codeCol: string, quantityCol: string,
                         priceCol: Option<string>, notesCol: Option<string>, data: seq<seq<string>>): (rows: seq<PricedRow>)
    ensures |rows| == |data|
    ensures forall k :: 0 <= k < |rows| ==>
              rows[k] == PricedEntryFor(fieldnames, codeCol, quantityCol, priceCol, notesCol, data[k])
  {
    seq(|data|, k requires 0 <= k < |data| => PricedEntryFor(fieldnames, codeCol, quantityCol, priceCol, notesCol, data[k]))
  }

  function ReadPricedData(fieldnames: seq<string>, codeCol: string, quantityCol: string,
                          priceCol: Option<string>, notesCol: Option<string>, lines: seq<seq<string>>): (r: PricedResult)
    ensures r.PricedFailed? <==> SomeLineTooLong(fieldnames, DataLines(lines))
    ensures r.PricedFailed? ==> r.error == MalformedRow
    ensures r.PricedOk? ==> |r.rows| == |DataLines(lines)|
    ensures r.PricedOk? ==> forall k :: 0 <= k < |r.rows| ==>
              r.rows[k] == PricedEntryFor(fieldnames, codeCol, quantityCol, priceCol, notesCol, DataLines(lines)[k])
  {
    var data := DataLines(lines);
    if SomeLineTooLong(fieldnames, data) then PricedFailed(MalformedRow)
    else PricedOk(PricedEntries(fieldnames, codeCol, quantityCol, priceCol, notesCol, data))
  }

  /** What the checkpoint reader returns for a file: the same failures as the main reader,
      in the same order. */
  function ParsePricedFile(fileExists: bool, fieldnames: seq<string>, lines: seq<seq<string>>): (r: PricedResult)
    ensures r == PricedFailed(FileMissing) <==> !fileExists
    ensures r == PricedFailed(NoHeader) <==> fileExists && fieldnames == []
    ensures r == PricedFailed(MissingCodeColumn) <==>
              fileExists && fieldnames != [] && ResolveColumn(fieldnames, CodeAliases).None?
    ensures r == PricedFailed(MissingQuantityColumn) <==>
              && fileExists && fieldnames != [] && ResolveColumn(fieldnames, CodeAliases).Some?
              && ResolveColumn(fieldnames, QuantityAliases).None?
    ensures r.PricedOk? ==> |r.rows| == |DataLines(lines)|
    ensures r.PricedOk? && ResolveColumn(fieldnames, PriceAliases).None? ==>
              forall k :: 0 <= k < |r.rows| ==> r.rows[k].price.None?
  {
    if !fileExists then PricedFailed(FileMissing)
    else if fieldnames == [] then PricedFailed(NoHeader)
    else
      var codeCol := ResolveColumn(fieldnames, CodeAliases);
      var quantityCol := ResolveColumn(fieldnames, QuantityAliases);
      if codeCol.None? then PricedFailed(MissingCodeColumn)
      else if quantityCol.None? then PricedFailed(MissingQuantityColumn)
      else
        ReadPricedData(fieldnames, codeCol.value, quantityCol.value, ResolveColumn(fieldnames, PriceAliases),
                       ResolveColumn(fieldnames, CheckpointNotesAliases), lines)
  }

  /** The `k`-th entry of a file read by the checkpoint reader comes from the `k`-th
      data line, each field from the cell under its resolved column. */
  lemma ParsedPricedValues(fieldnames: seq<string>, lines: seq<seq<string>>, k: nat, j: nat)
    requires ParsePricedFile(true, fieldnames, lines).PricedOk?
    requires k < |ParsePricedFile(true, fieldnames, lines).rows|
    requires SoleColumn(fieldnames, j)
    ensures var row := ParsePricedFile(true, fieldnames, lines).rows[k];
            var line := DataLines(lines)[k];
            && (ResolveColumn(fieldnames, CodeAliases) == Some(fieldnames[j]) ==> row.code == CellAt(line, j))
            && (ResolveColumn(fieldnames, QuantityAliases) == Some(fieldnames[j]) ==> row.quantity == CellAt(line, j))
            && (ResolveColumn(fieldnames, PriceAliases) == Some(fieldnames[j]) ==> row.price == ParseInt(CellAt(line, j)))
            && (ResolveColumn(fieldnames, CheckpointNotesAliases) == Some(fieldnames[j]) ==> row.notes == CellAt(line, j))
  {
    var codeCol := ResolveColumn(fieldnames, CodeAliases).value;
    var quantityCol := ResolveColumn(fieldnames, QuantityAliases).value;
    var priceCol := ResolveColumn(fieldnames, PriceAliases);
    var notesCol := ResolveColumn(fieldnames, CheckpointNotesAliases);
    assert ParsePricedFile(true, fieldnames, lines)
           == ReadPricedData(fieldnames, codeCol, quantityCol, priceCol, notesCol, lines);
    PricedEntryValues(fieldnames, codeCol, quantityCol, priceCol, notesCol, DataLines(lines)[k], j);
  }

  /** The checkpoint reader: four alias loops, then the row loop. */
  method ReadPricedFile(fileExists: bool, fieldnames: seq<string>, lines: seq<seq<string>>)
    returns (r: PricedResult)
    ensures r == ParsePricedFile(fileExists, fieldnames, lines)
  {
    if !fileExists {
      return PricedFailed(FileMissing);
    }
    if |fieldnames| == 0 {
      return PricedFailed(NoHeader);
    }
    var codeCol := FindColumn(fieldnames, CodeAliases);
    if codeCol.None? {
      return PricedFailed(MissingCodeColumn);
    }
    var quantityCol := FindColumn(fieldnames, QuantityAliases);
    if quantityCol.None? {
      return PricedFailed(MissingQuantityColumn);
    }
    var priceCol := FindColumn(fieldnames, PriceAliases);
    var notesCol := FindColumn(fieldnames, CheckpointNotesAliases);
    r := ReadPricedLines(fieldnames, codeCol.value, quantityCol.value, priceCol, notesCol, lines);
  }

  method ReadPricedLines(fieldnames: seq<string>, codeCol: string, quantityCol: string,
                         priceCol: Option<string>, notesCol: Option<string>, lines: seq<seq<string>>)
    returns (r: PricedResult)
    ensures r == ReadPricedData(fieldnames, codeCol, quantityCol, priceCol, notesCol, lines)
  {
    var rows: seq<PricedRow> := [];
    for i := 0 to |lines|
      invariant !SomeLineTooLong(fieldnames, DataLines(lines[..i]))
      invariant rows == PricedEntries(fieldnames, codeCol, quantityCol, priceCol, notesCol, DataLines(lines[..i]))
    {
      PricedDataStep(fieldnames, codeCol, quantityCol, priceCol, notesCol, lines, i);
      if lines[i] != [] {
        if |lines[i]| > |fieldnames| {
          LongLineStaysLong(lines, i + 1, fieldnames);
          return PricedFailed(MalformedRow);
        }
        rows := rows + [PricedEntryFor(fieldnames, codeCol, quantityCol, priceCol, notesCol, lines[i])];
      }
    }
    assert lines[..|lines|] == lines;
    return PricedOk(rows);
  }

  /** What one more line does to the data lines and their priced entries. */
  lemma PricedDataStep(fieldnames: seq<string>, codeCol: string, quantityCol: string,
                       priceCol: Option<string>, notesCol: Option<string>, lines: seq<seq<string>>, i: nat)
    requires i < |lines|
    ensures lines[i] == [] ==> DataLines(lines[..i + 1]) == DataLines(lines[..i])
    ensures lines[i] != [] && |lines[i]| > |fieldnames| ==> SomeLineTooLong(fieldnames, DataLines(lines[..i + 1]))
    ensures lines[i] != [] && |lines[i]| <= |fieldnames| && !SomeLineTooLong(fieldnames, DataLines(lines[..i])) ==>
              !SomeLineTooLong(fieldnames, DataLines(lines[..i + 1]))
    ensures lines[i] != [] ==>
              PricedEntries(fieldnames, codeCol, quantityCol, priceCol, notesCol, DataLines(lines[..i + 1]))
              == PricedEntries(fieldnames, codeCol, quantityCol, priceCol, notesCol, DataLines(lines[..i]))
                 + [PricedEntryFor(fieldnames, codeCol, quantityCol, priceCol, notesCol, lines[i])]
  {
    DataLinesSnoc(lines, i);
    var data := DataLines(lines[..i]);
    if lines[i] != [] {
      assert DataLines(lines[..i + 1]) == data + [lines[i]];
      assert DataLines(lines[..i + 1])[|data|] == lines[i];
      PricedEntriesSnoc(fieldnames, codeCol, quantityCol, priceCol, notesCol, data, lines[i]);
    }
  }

  lemma PricedEntriesSnoc(fieldnames: seq<string>, codeCol: string, quantityCol: string,
                          priceCol: Option<string>, notesCol: Option<string>, data: seq<seq<string>>, line: seq<string>)
    ensures PricedEntries(fieldnames, codeCol, quantityCol, priceCol, notesCol, data + [line])
            == PricedEntries(fieldnames, codeCol, quantityCol, priceCol, notesCol, data)
               + [PricedEntryFor(fieldnames, codeCol, quantityCol, priceCol, notesCol, line)]
  {
    var f := (l: seq<string>) => PricedEntryFor(fieldnames, codeCol, quantityCol, priceCol, notesCol, l);
    MapSnoc(f, data, line);
  }

  /** The two readers fail alike, and where both read the file they give the same codes
      and quantities line for line; the notes agree too when both alias lists pick the
      same notes column. */
  lemma {:induction false} ReadersAgree(fileExists: bool, fieldnames: seq<string>, lines: seq<seq<string>>)
    ensures var plain := ParseMovementFile(fileExists, fieldnames, lines);
            var priced := ParsePricedFile(fileExists, fieldnames, lines);
            && (plain.ReadFailed? <==> priced.PricedFailed?)
            && (plain.ReadFailed? ==> plain.error == priced.error)
    ensures var plain := ParseMovementFile(fileExists, fieldnames, lines);
            var priced := ParsePricedFile(fileExists, fieldnames, lines);
            plain.ReadOk? ==>
              && |plain.rows| == |priced.rows|
              && forall k :: 0 <= k < |plain.rows| ==>
                   && plain.rows[k].code == priced.rows[k].code
                   && plain.rows[k].quantity == priced.rows[k].quantity
                   && (ResolveColumn(fieldnames, NotesAliases) == ResolveColumn(fieldnames, CheckpointNotesAliases)
                       ==> plain.rows[k].notes == priced.rows[k].notes)
  {
    var plain := ParseMovementFile(fileExists, fieldnames, lines);
    if plain.ReadOk? {
      var data := DataLines(lines);
      var codeCol := ResolveColumn(fieldnames, CodeAliases).value;
      var quantityCol := ResolveColumn(fieldnames, QuantityAliases).value;
      var notesCol := ResolveColumn(fieldnames, NotesAliases);
      var priceCol := ResolveColumn(fieldnames, PriceAliases);
      var otherNotes := ResolveColumn(fieldnames, CheckpointNotesAliases);
      assert plain.rows == Entries(fieldnames, codeCol, quantityCol, notesCol, data);
      var priced := PricedEntries(fieldnames, codeCol, quantityCol, priceCol, otherNotes, data);
      forall k | 0 <= k < |data|
        ensures plain.rows[k].code == priced[k].code && plain.rows[k].quantity == priced[k].quantity
        ensures notesCol == otherNotes ==> plain.rows[k].notes == priced[k].notes
      {
        assert priced[k] == PricedEntryFor(fieldnames, codeCol, quantityCol, priceCol, otherNotes, data[k]);
      }
    }
  }
}
