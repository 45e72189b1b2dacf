/** `doc_file_csv_cho_nhap_xuat` of src/backend/common/quan_ly_du_lieu.py: reads a batch
    file of stock movements into entries `{maSP, soLuongProcessed, ghiChu}`. The header is
    `reader.fieldnames` and the lines are the tokenised rows after it. */
module CsvImport {
  import opened Common
  import opened Text
  import opened CsvDict
  import opened CsvColumns

  const CodeAliases: seq<string> := ["masp", "mãsp", "mã sp", "sku"]
  const QuantityAliases: seq<string> := ["soluong", "sốlượng", "soluongnhap", "soluongxuat", "quantity"]
  const NotesAliases: seq<string> := ["ghichu", "ghi chú", "notes", "note", "diengiai"]

  /** One entry of the parsed file: `maSP`, `soLuongProcessed` and `ghiChu`. */
  datatype BatchRow = BatchRow(code: string, quantity: string, notes: string)

  /** The hard failures, for which the parser returns `None`. */
  datatype ReadError =
    | FileMissing         // `os.path.exists` is false
    | NoHeader            // the file is empty or its first line is blank
    | MissingCodeColumn   // no code alias in the header
    | MissingQuantityColumn
    | MalformedRow        // a line with more cells than the header: the cleaning step calls
                          // `strip()` on DictReader's `None` rest key and the exception is caught

  /** `ReadOk([])` is the "no data" outcome, distinct from every failure. */
  datatype ReadResult = ReadFailed(error: ReadError) | ReadOk(rows: seq<BatchRow>)

  /** The entry for one data line, given the resolved columns. The lookups use the column
      names as the header spells them while the cleaned keys are stripped, so a padded
      header cell finds nothing and its default is used. */
  function EntryFor(fieldnames: seq<string>, codeCol: string, quantityCol: string,
                    notesCol: Option<string>, line: seq<string>): (e: BatchRow)
    ensures Unpadded(e.code) && Unpadded(e.quantity) && Unpadded(e.notes)
  {
    var cleaned := CleanRow(RowDict(fieldnames, line));
    BatchRow(GetOr(cleaned, codeCol, ""), GetOr(cleaned, quantityCol, "0"),
             if notesCol.Some? then GetOr(cleaned, notesCol.value, "") else "")
  }

  /** What an entry carries: under a column that is the sole field name stripping to
      its name, the stripped cell of the line at that column's position, or the empty
      text when the line stops short of it. */
  lemma EntryValues(fieldnames: seq<string>, codeCol: string, quantityCol: string,
                    notesCol: Option<string>, line: seq<string>, j: nat)
    requires SoleColumn(fieldnames, j)
    ensures var e := EntryFor(fieldnames, codeCol, quantityCol, notesCol, line);
            && (codeCol == fieldnames[j] ==> e.code == CellAt(line, j))
            && (quantityCol == fieldnames[j] ==> e.quantity == CellAt(line, j))
            && (notesCol == Some(fieldnames[j]) ==> e.notes == CellAt(line, j))
  {
    CleanCell(fieldnames, line, j);
  }

  /** The entries for a run of data lines, in order. */
  function Entries(fieldnames: seq<string>, codeCol: string, quantityCol: string,
                   notesCol: Option<string>, data: seq<seq<string>>): (rows: seq<BatchRow>)
    ensures |rows| == |data|
    ensures forall k :: 0 <= k < |rows| ==> rows[k] == EntryFor(fieldnames, codeCol, quantityCol, notesCol, data[k])
  {
    seq(|data|, k requires 0 <= k < |data| => EntryFor(fieldnames, codeCol, quantityCol, notesCol, data[k]))
  }

  lemma EntriesSnoc(fieldnames: seq<string>, codeCol: string, quantityCol: string,
                    notesCol: Option<string>, data: seq<seq<string>>, line: seq<string>)
    ensures Entries(fieldnames, codeCol, quantityCol, notesCol, data + [line])
            == Entries(fieldnames, codeCol, quantityCol, notesCol, data)
               + [EntryFor(fieldnames, codeCol, quantityCol, notesCol, line)]
  {
    var f := (l: seq<string>) => EntryFor(fieldnames, codeCol, quantityCol, notesCol, l);
    MapSnoc(f, data, line);
  }

  /** Mapping over one more element appends its image. */
  lemma MapSnoc<A, B>(f: A -> B, xs: seq<A>, x: A)
    ensures seq(|xs + [x]|, k requires 0 <= k < |xs + [x]| => f((xs + [x])[k]))
            == seq(|xs|, k requires 0 <= k < |xs| => f(xs[k])) + [f(x)]
  {
  }

  /** Whether some data line has more cells than the header has names. */
  predicate SomeLineTooLong(fieldnames: seq<string>, data: seq<seq<string>>)
  {
    exists k :: 0 <= k < |data| && |data[k]| > |fieldnames|
  }

  /** What the parser returns for a file. */
  function ParseMovementFile(fileExists: bool, fieldnames: seq<string>, lines: seq<seq<string>>): (r: ReadResult)
    ensures r == ReadFailed(FileMissing) <==> !fileExists
    ensures r == ReadFailed(NoHeader) <==> fileExists && fieldnames == []
    ensures r == ReadFailed(MissingCodeColumn) <==>
              fileExists && fieldnames != [] && ResolveColumn(fieldnames, CodeAliases).None?
    ensures r == ReadFailed(MissingQuantityColumn) <==>
              && fileExists && fieldnames != [] && ResolveColumn(fieldnames, CodeAliases).Some?
              && ResolveColumn(fieldnames, QuantityAliases).None?
    ensures r.ReadOk? <==>
              && fileExists && fieldnames != []
              && ResolveColumn(fieldnames, CodeAliases).Some? && ResolveColumn(fieldnames, QuantityAliases).Some?
              && !SomeLineTooLong(fieldnames, DataLines(lines))
    ensures r.ReadOk? ==> |r.rows| == |DataLines(lines)|
    ensures r.ReadOk? ==> forall k :: 0 <= k < |r.rows| ==>
              Unpadded(r.rows[k].code) && Unpadded(r.rows[k].quantity) && Unpadded(r.rows[k].notes)
    ensures r.ReadOk? && ResolveColumn(fieldnames, NotesAliases).None? ==>
              forall k :: 0 <= k < |r.rows| ==> r.rows[k].notes == ""
  {
    if !fileExists then ReadFailed(FileMissing)
    else if fieldnames == [] then ReadFailed(NoHeader)
    else
      var codeCol := ResolveColumn(fieldnames, CodeAliases);
      var quantityCol := ResolveColumn(fieldnames, QuantityAliases);
      if codeCol.None? then ReadFailed(MissingCodeColumn)
      else if quantityCol.None? then ReadFailed(MissingQuantityColumn)
      else
        ReadData(fieldnames, codeCol.value, quantityCol.value, ResolveColumn(fieldnames, NotesAliases), lines)
  }

  /** The pass over the lines after the header, once the columns are known. */
  function ReadData(fieldnames: seq<string>, codeCol: string, quantityCol: string,
                    notesCol: Option<string>, lines: seq<seq<string>>): (r: ReadResult)
    ensures r.ReadFailed? <==> SomeLineTooLong(fieldnames, DataLines(lines))
    ensures r.ReadFailed? ==> r.error == MalformedRow
    ensures r.ReadOk? ==> |r.rows| == |DataLines(lines)|
    ensures r.ReadOk? ==> forall k :: 0 <= k < |r.rows| ==>
              r.rows[k] == EntryFor(fieldnames, codeCol, quantityCol, notesCol, DataLines(lines)[k])
  {
    var data := DataLines(lines);
    if SomeLineTooLong(fieldnames, data) then ReadFailed(MalformedRow)
    else ReadOk(Entries(fieldnames, codeCol, quantityCol, notesCol, data))
  }

  /** The `k`-th entry of a parsed file comes from the `k`-th data line: its code,
      quantity and notes are the stripped cells under the resolved columns. */
  lemma ParsedEntryValues(fieldnames: seq<string>, lines: seq<seq<string>>, k: nat, j: nat)
    requires ParseMovementFile(true, fieldnames, lines).ReadOk?
    requires k < |ParseMovementFile(true, fieldnames, lines).rows|
    requires SoleColumn(fieldnames, j)
    ensures var row := ParseMovementFile(true, fieldnames, lines).rows[k];
            var line := DataLines(lines)[k];
            && (ResolveColumn(fieldnames, CodeAliases) == Some(fieldnames[j]) ==> row.code == CellAt(line, j))
            && (ResolveColumn(fieldnames, QuantityAliases) == Some(fieldnames[j]) ==> row.quantity == CellAt(line, j))
            && (ResolveColumn(fieldnames, NotesAliases) == Some(fieldnames[j]) ==> row.notes == CellAt(line, j))
  {
    var codeCol := ResolveColumn(fieldnames, CodeAliases).value;
    var quantityCol := ResolveColumn(fieldnames, QuantityAliases).value;
    var notesCol := ResolveColumn(fieldnames, NotesAliases);
    assert ParseMovementFile(true, fieldnames, lines) == ReadData(fieldnames, codeCol, quantityCol, notesCol, lines);
    EntryValues(fieldnames, codeCol, quantityCol, notesCol, DataLines(lines)[k], j);
  }

  /** One line more: a blank line adds no data line, any other line adds itself. */
  lemma {:induction false} DataLinesSnoc(lines: seq<seq<string>>, i: nat)
    requires i < |lines|
    ensures DataLines(lines[..i + 1]) == DataLines(lines[..i]) + (if lines[i] == [] then [] else [lines[i]])
  {
    assert lines[..i + 1][..i] == lines[..i];
  }

  /** The parser itself: the two alias loops, the notes lookup, then one pass over the
      data lines that appends one entry per line (blank lines are skipped by DictReader). */
  method ReadMovementFile(fileExists: bool, fieldnames: seq<string>, lines: seq<seq<string>>)
    returns (r: ReadResult)
    ensures r == ParseMovementFile(fileExists, fieldnames, lines)
  {
    if !fileExists {
      return ReadFailed(FileMissing);
    }
    if |fieldnames| == 0 {
      return ReadFailed(NoHeader);
    }
    var codeCol := FindColumn(fieldnames, CodeAliases);
    if codeCol.None? {
      return ReadFailed(MissingCodeColumn);
    }
    var quantityCol := FindColumn(fieldnames, QuantityAliases);
    if quantityCol.None? {
      return ReadFailed(MissingQuantityColumn);
    }
    r := ReadDataLines(fieldnames, codeCol.value, quantityCol.value, ResolveColumn(fieldnames, NotesAliases), lines);
  }

  /** The row loop: one entry per non-blank line, in order, stopping at a too-long line. */
  method ReadDataLines(fieldnames: seq<string>, codeCol: string, quantityCol: string,
                       notesCol: Option<string>, lines: seq<seq<string>>) returns (r: ReadResult)
    ensures r == ReadData(fieldnames, codeCol, quantityCol, notesCol, lines)
  {
    var rows: seq<BatchRow> := [];
    for i := 0 to |lines|
      invariant !SomeLineTooLong(fieldnames, DataLines(lines[..i]))
      invariant rows == Entries(fieldnames, codeCol, quantityCol, notesCol, DataLines(lines[..i]))
    {
      DataStep(fieldnames, codeCol, quantityCol, notesCol, lines, i);
      if lines[i] != [] {
        if |lines[i]| > |fieldnames| {
          LongLineStaysLong(lines, i + 1, fieldnames);
          return ReadFailed(MalformedRow);
        }
        rows := rows + [EntryFor(fieldnames, codeCol, quantityCol, notesCol, lines[i])];
      }
    }
    assert lines[..|lines|] == lines;
    return ReadOk(rows);
  }

  /** What one more line does to the data lines and their entries. */
  lemma DataStep(fieldnames: seq<string>, codeCol: string, quantityCol: string,
                 notesCol: Option<string>, lines: seq<seq<string>>, i: nat)
    requires i < |lines|
    ensures lines[i] == [] ==> DataLines(lines[..i + 1]) == DataLines(lines[..i])
    ensures lines[i] != [] && |lines[i]| > |fieldnames| ==> SomeLineTooLong(fieldnames, DataLines(lines[..i + 1]))
    ensures lines[i] != [] && |lines[i]| <= |fieldnames| && !SomeLineTooLong(fieldnames, DataLines(lines[..i])) ==>
              !SomeLineTooLong(fieldnames, DataLines(lines[..i + 1]))
    ensures lines[i] != [] ==>
              Entries(fieldnames, codeCol, quantityCol, notesCol, DataLines(lines[..i + 1]))
              == Entries(fieldnames, codeCol, quantityCol, notesCol, DataLines(lines[..i]))
                 + [EntryFor(fieldnames, codeCol, quantityCol, notesCol, lines[i])]
  {
    DataLinesSnoc(lines, i);
    var data := DataLines(lines[..i]);
    if lines[i] != [] {
      assert DataLines(lines[..i + 1]) == data + [lines[i]];
      assert DataLines(lines[..i + 1])[|data|] == lines[i];
      EntriesSnoc(fieldnames, codeCol, quantityCol, notesCol, data, lines[i]);
    }
  }

  /** A too-long line among the first `n` lines is a too-long data line of the whole file. */
  lemma {:induction false} LongLineStaysLong(lines: seq<seq<string>>, n: nat, fieldnames: seq<string>)
    requires n <= |lines|
    requires SomeLineTooLong(fieldnames, DataLines(lines[..n]))
    ensures SomeLineTooLong(fieldnames, DataLines(lines))
    decreases |lines| - n
  {
    if n < |lines| {
      DataLinesSnoc(lines, n);
      var d := DataLines(lines[..n]);
      var k :| 0 <= k < |d| && |d[k]| > |fieldnames|;
      assert DataLines(lines[..n + 1])[k] == d[k];
      LongLineStaysLong(lines, n + 1, fieldnames);
    } else {
      assert lines[..n] == lines;
    }
  }

  /** A file whose header has the columns but holds no data lines reads as "no data",
      which is not a failure. */
  lemma HeaderOnlyIsNoData(fieldnames: seq<string>, lines: seq<seq<string>>)
    requires fieldnames != []
    requires ResolveColumn(fieldnames, CodeAliases).Some? && ResolveColumn(fieldnames, QuantityAliases).Some?
    requires forall k :: 0 <= k < |lines| ==> lines[k] == []
    ensures ParseMovementFile(true, fieldnames, lines) == ReadOk([])
  {
    BlankLinesHoldNoData(lines);
    var codeCol := ResolveColumn(fieldnames, CodeAliases).value;
    var quantityCol := ResolveColumn(fieldnames, QuantityAliases).value;
    var notesCol := ResolveColumn(fieldnames, NotesAliases);
    assert ReadData(fieldnames, codeCol, quantityCol, notesCol, lines) == ReadOk([]);
  }

  lemma {:induction false} BlankLinesHoldNoData(lines: seq<seq<string>>)
    requires forall k :: 0 <= k < |lines| ==> lines[k] == []
    ensures DataLines(lines) == []
  {
    if |lines| > 0 {
      BlankLinesHoldNoData(lines[..|lines| - 1]);
    }
  }

  /** When the header cell that names the code column is padded with whitespace, the
      stripped row keys never match it: every entry gets the empty code. The same holds
      for the quantity column, whose entries then all read "0". */
  lemma PaddedHeaderGivesDefaults(fieldnames: seq<string>, lines: seq<seq<string>>)
    requires ParseMovementFile(true, fieldnames, lines).ReadOk?
    ensures var rows := ParseMovementFile(true, fieldnames, lines).rows;
            && (!Unpadded(ResolveColumn(fieldnames, CodeAliases).value) ==>
                  forall k :: 0 <= k < |rows| ==> rows[k].code == "")
            && (!Unpadded(ResolveColumn(fieldnames, QuantityAliases).value) ==>
                  forall k :: 0 <= k < |rows| ==> rows[k].quantity == "0")
  {
    var codeCol := ResolveColumn(fieldnames, CodeAliases).value;
    var quantityCol := ResolveColumn(fieldnames, QuantityAliases).value;
    var data := DataLines(lines);
    forall k | 0 <= k < |data|
      ensures !Unpadded(codeCol) ==> GetOr(CleanRow(RowDict(fieldnames, data[k])), codeCol, "") == ""
      ensures !Unpadded(quantityCol) ==> GetOr(CleanRow(RowDict(fieldnames, data[k])), quantityCol, "0") == "0"
    {
      if !Unpadded(codeCol) { PaddedKeyMisses(RowDict(fieldnames, data[k]), codeCol, ""); }
      if !Unpadded(quantityCol) { PaddedKeyMisses(RowDict(fieldnames, data[k]), quantityCol, "0"); }
    }
  }
}
