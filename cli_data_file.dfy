/** The product file of the command-line version (quan_ly_du_lieu.py): loading `kho.csv`
    into the in-memory product list at start-up and writing the list back. Tokenising
    the file is not modelled: the header is the `seq<string>` of field names
    `csv.DictReader` reads and every further line the `seq<string>` of its cells.
    Whether the file exists is a parameter. */
module CliDataFile {
  import opened Common
  import opened Text
  import opened CsvDict

  /** One product of the in-memory list: the dict with the keys `maSP`, `tenSP`,
      `donViTinh`, `soLuongTon` and `donGia`. */
  datatype Item = Item(code: string, name: string, unit: string, stock: int, price: int)

  /** The columns the loader requires, by their exact (unstripped) names; the writer
      writes them in this order. */
  const RequiredHeaders: seq<string> := ["maSP", "tenSP", "donViTinh", "soLuongTon", "donGia"]

  const MaxCodeLength := 10
  const MaxNameLength := 100
  const MaxUnitLength := 20

  /** Why the loader skips a line that passes no duplicate check, in the order it checks. */
  datatype Skip = MissingCell | BadCode | BadName | BadUnit | NotInteger | NegativeStock | NegativePrice

  predicate HasCode(items: seq<Item>, code: string)
  {
    exists i :: 0 <= i < |items| && items[i].code == code
  }

  predicate UniqueCodes(items: seq<Item>)
  {
    forall i, j :: 0 <= i < j < |items| ==> items[i].code != items[j].code
  }

  /** A text field as every entry path stores it: non-empty, within its limit and
      stripped. */
  predicate FieldOk(s: string, limit: nat)
  {
    0 < |s| <= limit && Unpadded(s)
  }

  /** What the loader and the add dialog demand of a product. */
  predicate WellFormed(item: Item)
  {
    && FieldOk(item.code, MaxCodeLength)
    && FieldOk(item.name, MaxNameLength)
    && FieldOk(item.unit, MaxUnitLength)
    && item.stock >= 0 && item.price >= 0
  }

  /** The invariant of the in-memory list: unique codes and well-formed products. */
  predicate ValidList(items: seq<Item>)
  {
    UniqueCodes(items) && forall i :: 0 <= i < |items| ==> WellFormed(items[i])
  }

  /** `all(col in reader.fieldnames for col in expected_headers)`; an empty header
      fails it too. */
  predicate HeadersPresent(fieldnames: seq<string>)
  {
    forall h :: h in RequiredHeaders ==> h in fieldnames
  }

  /** `row[key]` when `key in row and row[key] is not None`. */
  function Cell(d: Dict, key: string): (r: Option<string>)
    ensures r.Some? <==> Get(d, key).Some? && Get(d, key).value.Some?
  {
    match Get(d, key)
    case Some(Some(v)) => Some(v)
    case _ => None
  }

  /** The five cells of one line, as DictReader hands them over. */
  datatype RawRow = RawRow(code: string, name: string, unit: string, stock: string, price: string)

  /** `all(key in row and row[key] is not None for key in expected_headers)`: the cells
      when every required column has a value on this line, nothing when the line is
      too short for one of them. */
  function ReadCells(fieldnames: seq<string>, line: seq<string>): (r: Option<RawRow>)
  {
    var d := RowDict(fieldnames, line);
    var c, n, u, s, p := Cell(d, "maSP"), Cell(d, "tenSP"), Cell(d, "donViTinh"), Cell(d, "soLuongTon"), Cell(d, "donGia");
    if c.None? || n.None? || u.None? || s.None? || p.None? then None
    else Some(RawRow(c.value, n.value, u.value, s.value, p.value))
  }

  /** The checks on the stripped code, name and unit and on what `int()` made of the
      two number cells, in the loader's order: code, name, unit, both numbers integers,
      stock non-negative, price non-negative. A line passes exactly when every check
      does, and its product then holds exactly those values. */
  function CheckCells(code: string, name: string, unit: string, stock: Option<int>, price: Option<int>)
    : (r: Result<Item, Skip>)
    ensures r.Ok? <==>
              && 0 < |code| <= MaxCodeLength && 0 < |name| <= MaxNameLength && 0 < |unit| <= MaxUnitLength
              && stock.Some? && stock.value >= 0 && price.Some? && price.value >= 0
    ensures r.Ok? ==> r.value == Item(code, name, unit, stock.value, price.value)
    ensures r.Err? && r.error == NotInteger ==> stock.None? || price.None?
  {
    if !(code != "" && |code| <= MaxCodeLength) then Err(BadCode)
    else if !(name != "" && |name| <= MaxNameLength) then Err(BadName)
    else if !(unit != "" && |unit| <= MaxUnitLength) then Err(BadUnit)
    else if stock.None? || price.None? then Err(NotInteger)
    else if stock.value < 0 then Err(NegativeStock)
    else if price.value < 0 then Err(NegativePrice)
    else Ok(Item(code, name, unit, stock.value, price.value))
  }

  /** The cells of one line through the checks. The loader strips the two number cells
      before `int()`, which ignores surrounding whitespace anyway (`ParseIntIgnoresStrip`). */
  function ParseCells(raw: RawRow): (r: Result<Item, Skip>)
    ensures r.Ok? ==> WellFormed(r.value)
  {
    StripFacts(raw.code);
    StripFacts(raw.name);
    StripFacts(raw.unit);
    CheckCells(Strip(raw.code), Strip(raw.name), Strip(raw.unit), ParseInt(raw.stock), ParseInt(raw.price))
  }

  /** `int(s.strip()) == int(s)`. */
  lemma ParseIntIgnoresStrip(s: string)
    ensures ParseInt(Strip(s)) == ParseInt(s)
  {
    StripIdempotent(s);
  }

  /** The checks of one line up to, and not including, the duplicate check. */
  function ParseRow(fieldnames: seq<string>, line: seq<string>): (r: Result<Item, Skip>)
    ensures r.Ok? ==> WellFormed(r.value)
  {
    match ReadCells(fieldnames, line)
    case None => Err(MissingCell)
    case Some(raw) => ParseCells(raw)
  }

  /** The product a line offers before the duplicate check: nothing for a blank line,
      which DictReader skips, nor for a line that fails a check. */
  function LineItem(fieldnames: seq<string>, line: seq<string>): (r: Option<Item>)
    ensures r.Some? ==> WellFormed(r.value)
    ensures r.Some? <==> line != [] && ParseRow(fieldnames, line).Ok?
  {
    if line == [] then None
    else match ParseRow(fieldnames, line)
      case Ok(item) => Some(item)
      case Err(_) => None
  }

  /** `f` applied to every line, in file order. */
  function MapLines<T>(f: seq<string> -> T, lines: seq<seq<string>>): (r: seq<T>)
    ensures |r| == |lines|
  {
    if lines == [] then [] else MapLines(f, lines[..|lines| - 1]) + [f(lines[|lines| - 1])]
  }

  lemma {:induction false} MapLinesAt<T>(f: seq<string> -> T, lines: seq<seq<string>>, k: nat)
    requires k < |lines|
    ensures MapLines(f, lines)[k] == f(lines[k])
  {
    var n := |lines| - 1;
    if k < n {
      MapLinesAt(f, lines[..n], k);
      assert lines[..n][k] == lines[k];
    }
  }

  function OfferOf(fieldnames: seq<string>): seq<string> -> Option<Item>
  {
    (line: seq<string>) => LineItem(fieldnames, line)
  }

  /** The offers of the lines, in file order. */
  function LineItems(fieldnames: seq<string>, lines: seq<seq<string>>): (r: seq<Option<Item>>)
  {
    MapLines(OfferOf(fieldnames), lines)
  }

  /** The offers through the duplicate check, `any(sp_temp['maSP'] == ma_sp ...)`:
      each is appended unless its code is already in the list. */
  function Dedup(offers: seq<Option<Item>>): seq<Item>
  {
    if offers == [] then []
    else
      var loaded := Dedup(offers[..|offers| - 1]);
      var last := offers[|offers| - 1];
      if last.Some? && !HasCode(loaded, last.value.code) then loaded + [last.value] else loaded
  }

  /** The list after reading the lines. */
  function LoadLines(fieldnames: seq<string>, lines: seq<seq<string>>): seq<Item>
  {
    Dedup(LineItems(fieldnames, lines))
  }

  /** `tai_du_lieu_tu_file`: an empty list for a missing file or a header without
      every required column, the loaded lines otherwise. */
  function LoadFile(fileExists: bool, fieldnames: seq<string>, lines: seq<seq<string>>): seq<Item>
  {
    if !fileExists || !HeadersPresent(fieldnames) then [] else LoadLines(fieldnames, lines)
  }

  /** The loader's loop: `continue` past every line that fails a check. The list it
      returns is valid whatever the file holds. */
  method LoadProducts(fileExists: bool, fieldnames: seq<string>, lines: seq<seq<string>>)
    returns (items: seq<Item>)
    ensures items == LoadFile(fileExists, fieldnames, lines)
    ensures !fileExists || !HeadersPresent(fieldnames) ==> items == []
    ensures ValidList(items)
  {
    items := [];
    if !fileExists || !HeadersPresent(fieldnames) {
      return;
    }
    for i := 0 to |lines|
      invariant items == LoadLines(fieldnames, lines[..i])
    {
      ghost var offers := LineItems(fieldnames, lines[..i + 1]);
      assert lines[..i + 1][..i] == lines[..i];
      assert offers[..i] == LineItems(fieldnames, lines[..i]);
      if lines[i] == [] {
        continue;
      }
      var parsed := ParseRow(fieldnames, lines[i]);
      if parsed.Err? {
        continue;
      }
      if HasCode(items, parsed.value.code) {
        continue;
      }
      items := items + [parsed.value];
    }
    assert lines[..|lines|] == lines;
    OffersWellFormed(fieldnames, lines);
    DedupValid(LineItems(fieldnames, lines));
  }

  lemma OffersWellFormed(fieldnames: seq<string>, lines: seq<seq<string>>)
    ensures var offers := LineItems(fieldnames, lines);
            forall k :: 0 <= k < |offers| && offers[k].Some? ==> WellFormed(offers[k].value)
  {
    var offers := LineItems(fieldnames, lines);
    forall k | 0 <= k < |offers| && offers[k].Some?
      ensures WellFormed(offers[k].value)
    {
      MapLinesAt(OfferOf(fieldnames), lines, k);
    }
  }

  /** Whatever the offers, the list has unique codes and only well-formed products. */
  lemma {:induction false} DedupValid(offers: seq<Option<Item>>)
    requires forall k :: 0 <= k < |offers| && offers[k].Some? ==> WellFormed(offers[k].value)
    ensures ValidList(Dedup(offers))
  {
    if offers != [] {
      var n := |offers| - 1;
      DedupValid(offers[..n]);
      if offers[n].Some? && !HasCode(Dedup(offers[..n]), offers[n].value.code) {
        AppendKeepsValid(Dedup(offers[..n]), offers[n].value);
      }
    }
  }

  /** Adding a well-formed product with a new code keeps a list valid. */
  lemma AppendKeepsValid(items: seq<Item>, item: Item)
    requires ValidList(items) && WellFormed(item) && !HasCode(items, item.code)
    ensures ValidList(items + [item])
  {
    var longer := items + [item];
    forall i, j | 0 <= i < j < |longer|
      ensures longer[i].code != longer[j].code
    {
      if j == |items| {
        assert longer[i] == items[i];
      }
    }
  }

  /** A code ends up in the list exactly when some offer carries it. */
  lemma {:induction false} DedupCodes(offers: seq<Option<Item>>, code: string)
    ensures HasCode(Dedup(offers), code) <==>
              exists j :: 0 <= j < |offers| && offers[j].Some? && offers[j].value.code == code
  {
    if offers != [] {
      var n := |offers| - 1;
      var before := offers[..n];
      DedupCodes(before, code);
      var loaded, all := Dedup(before), Dedup(offers);
      assert all[..|loaded|] == loaded;
      if HasCode(all, code) {
        var i :| 0 <= i < |all| && all[i].code == code;
        if i < |loaded| {
          assert all[i] == loaded[i];
          var j :| 0 <= j < n && before[j].Some? && before[j].value.code == code;
          assert offers[j] == before[j];
        }
      }
      if exists j :: 0 <= j < |offers| && offers[j].Some? && offers[j].value.code == code {
        var j :| 0 <= j < |offers| && offers[j].Some? && offers[j].value.code == code;
        if j < n {
          assert before[j] == offers[j];
        }
        if HasCode(loaded, code) {
          var i :| 0 <= i < |loaded| && loaded[i].code == code;
          assert all[i] == loaded[i];
        } else {
          assert j == n;
          assert all[|loaded|].code == code;
        }
      }
    }
  }

  /** Offer `k` is kept: it is there, and no earlier offer has the same code. */
  predicate FirstOfCode(offers: seq<Option<Item>>, k: nat)
    requires k < |offers|
  {
    offers[k].Some? && forall j :: 0 <= j < k && offers[j].Some? ==> offers[j].value.code != offers[k].value.code
  }

  /** The positions of the kept offers, in order. */
  function Kept(offers: seq<Option<Item>>): (kept: seq<nat>)
    ensures forall i :: 0 <= i < |kept| ==> kept[i] < |offers| && offers[kept[i]].Some?
  {
    if offers == [] then []
    else
      var n := |offers| - 1;
      var before := Kept(offers[..n]);
      assert forall i :: 0 <= i < |before| ==> offers[before[i]] == offers[..n][before[i]];
      if FirstOfCode(offers, n) then before + [n] else before
  }

  /** Whether an earlier offer is the first of its code does not depend on later ones. */
  lemma FirstOfCodePrefix(offers: seq<Option<Item>>, m: nat, k: nat)
    requires k < m <= |offers|
    ensures FirstOfCode(offers[..m], k) == FirstOfCode(offers, k)
  {
    assert forall j :: 0 <= j <= k ==> offers[..m][j] == offers[j];
  }

  /** The last offer is kept exactly when the list so far lacks its code. */
  lemma FirstOfCodeLast(offers: seq<Option<Item>>)
    requires offers != []
    ensures var n := |offers| - 1;
            FirstOfCode(offers, n) <==> offers[n].Some? && !HasCode(Dedup(offers[..n]), offers[n].value.code)
  {
    var n := |offers| - 1;
    var before := offers[..n];
    if offers[n].Some? {
      DedupCodes(before, offers[n].value.code);
      assert forall j :: 0 <= j < n ==> before[j] == offers[j];
    }
  }

  /** The list is the kept offers, product by product. */
  lemma {:induction false} DedupIsKept(offers: seq<Option<Item>>)
    ensures |Dedup(offers)| == |Kept(offers)|
    ensures forall i :: 0 <= i < |Kept(offers)| ==> Dedup(offers)[i] == offers[Kept(offers)[i]].value
  {
    if offers != [] {
      var n := |offers| - 1;
      var before := offers[..n];
      DedupIsKept(before);
      FirstOfCodeLast(offers);
      var kept := Kept(before);
      assert forall i :: 0 <= i < |kept| ==> offers[kept[i]] == before[kept[i]];
    }
  }

  /** The kept positions rise, and a position is kept exactly when its offer is the
      first with its code. */
  lemma {:induction false} KeptExactly(offers: seq<Option<Item>>)
    ensures forall i, j :: 0 <= i < j < |Kept(offers)| ==> Kept(offers)[i] < Kept(offers)[j]
    ensures forall k :: 0 <= k < |offers| ==> (k in Kept(offers) <==> FirstOfCode(offers, k))
  {
    if offers != [] {
      var n := |offers| - 1;
      KeptExactly(offers[..n]);
      forall k | 0 <= k < n
        ensures FirstOfCode(offers[..n], k) == FirstOfCode(offers, k)
      {
        FirstOfCodePrefix(offers, n, k);
      }
    }
  }

  /** `KeptOffers` for any way of reading a line. */
  lemma KeptOffersOf(f: seq<string> -> Option<Item>, lines: seq<seq<string>>)
    ensures var offers := MapLines(f, lines);
            var kept := Kept(offers);
            && |Dedup(offers)| == |kept|
            && (forall i, j :: 0 <= i < j < |kept| ==> kept[i] < kept[j])
            && (forall i :: 0 <= i < |kept| ==> kept[i] < |lines| && f(lines[kept[i]]) == Some(Dedup(offers)[i]))
            && (forall k :: 0 <= k < |lines| ==>
                  (k in kept <==> f(lines[k]).Some?
                                  && forall j :: 0 <= j < k && f(lines[j]).Some? ==> f(lines[j]).value.code != f(lines[k]).value.code))
  {
    var offers := MapLines(f, lines);
    DedupIsKept(offers);
    KeptExactly(offers);
    forall k | 0 <= k < |lines|
      ensures offers[k] == f(lines[k])
    {
      MapLinesAt(f, lines, k);
    }
  }

  /** Accepted lines keep file order, and a duplicate code keeps its first line: the
      list is, product by product, what the kept lines offer, and a line is kept
      exactly when it offers a product (it is not blank and passes every check) and no
      earlier line offers one with the same code. */
  lemma LoadedAreFirstValidLines(fieldnames: seq<string>, lines: seq<seq<string>>)
    ensures var kept := Kept(LineItems(fieldnames, lines));
            && |LoadLines(fieldnames, lines)| == |kept|
            && (forall i, j :: 0 <= i < j < |kept| ==> kept[i] < kept[j])
            && (forall i :: 0 <= i < |kept| ==>
                  kept[i] < |lines| && LineItem(fieldnames, lines[kept[i]]) == Some(LoadLines(fieldnames, lines)[i]))
            && (forall k :: 0 <= k < |lines| ==>
                  (k in kept <==> LineItem(fieldnames, lines[k]).Some?
                                  && forall j :: 0 <= j < k && LineItem(fieldnames, lines[j]).Some? ==>
                                       LineItem(fieldnames, lines[j]).value.code != LineItem(fieldnames, lines[k]).value.code))
  {
    KeptOffersOf(OfferOf(fieldnames), lines);
  }

  /** The lines `luu_du_lieu_vao_file` writes below the header, one per product, each
      value in header order and the numbers through `str()`. */
  function SavedLines(items: seq<Item>): (lines: seq<seq<string>>)
    ensures |lines| == |items|
  {
    if items == [] then []
    else
      var item := items[|items| - 1];
      SavedLines(items[..|items| - 1])
        + [[item.code, item.name, item.unit, IntToString(item.stock), IntToString(item.price)]]
  }

  /** `luu_du_lieu_vao_file`: nothing is written for an empty list (the file on disk
      stays as it was), otherwise the header and the product lines. */
  function SaveFile(items: seq<Item>): (r: Option<(seq<string>, seq<seq<string>>)>)
    ensures r.None? <==> items == []
    ensures r.Some? ==> r.value.0 == RequiredHeaders && |r.value.1| == |items|
  {
    if items == [] then None else Some((RequiredHeaders, SavedLines(items)))
  }

  /** `str(n)` of a non-negative number carries no whitespace. */
  lemma NumberTextUnpadded(n: int)
    requires n >= 0
    ensures Strip(IntToString(n)) == IntToString(n)
  {
    var t := IntToString(n);
    assert t == NatToString(n);
    assert IsDigit(t[0]) && IsDigit(t[|t| - 1]);
    assert Unpadded(t);
  }

  /** A line of five cells under the written header hands over its cells in order. */
  lemma ReadFullLine(line: seq<string>)
    requires |line| == 5
    ensures ReadCells(RequiredHeaders, line) == Some(RawRow(line[0], line[1], line[2], line[3], line[4]))
  {
    var d := RowDict(RequiredHeaders, line);
    RowDictValue(RequiredHeaders, line, 5, 0);
    RowDictValue(RequiredHeaders, line, 5, 1);
    RowDictValue(RequiredHeaders, line, 5, 2);
    RowDictValue(RequiredHeaders, line, 5, 3);
    RowDictValue(RequiredHeaders, line, 5, 4);
    assert Cell(d, "maSP") == Some(line[0]);
    assert Cell(d, "tenSP") == Some(line[1]);
    assert Cell(d, "donViTinh") == Some(line[2]);
    assert Cell(d, "soLuongTon") == Some(line[3]);
    assert Cell(d, "donGia") == Some(line[4]);
  }

  /** The cells written for a product pass every check and give that product back. */
  lemma SavedCellsCheck(item: Item)
    requires WellFormed(item)
    ensures ParseCells(RawRow(item.code, item.name, item.unit, IntToString(item.stock), IntToString(item.price))) == Ok(item)
  {
    ParseIntRoundTrip(item.stock);
    ParseIntRoundTrip(item.price);
    assert Strip(item.code) == item.code && Strip(item.name) == item.name && Strip(item.unit) == item.unit;
  }

  /** A written product line reads back as that product. */
  lemma SavedLineParses(item: Item)
    requires WellFormed(item)
    ensures ParseRow(RequiredHeaders, [item.code, item.name, item.unit, IntToString(item.stock), IntToString(item.price)])
            == Ok(item)
  {
    var line := [item.code, item.name, item.unit, IntToString(item.stock), IntToString(item.price)];
    ReadFullLine(line);
    SavedCellsCheck(item);
  }

  /** Writing a valid list and loading the file again gives the same list. */
  lemma {:induction false} SaveThenLoad(items: seq<Item>)
    requires ValidList(items) && items != []
    ensures LoadFile(true, SaveFile(items).value.0, SaveFile(items).value.1) == items
  {
    LoadSavedLines(items);
  }

  /** An offer with a code not yet loaded is appended. */
  lemma DedupSnocFresh(offers: seq<Option<Item>>, item: Item)
    requires !HasCode(Dedup(offers), item.code)
    ensures Dedup(offers + [Some(item)]) == Dedup(offers) + [item]
  {
    assert (offers + [Some(item)])[..|offers|] == offers;
  }

  /** The written line of a product offers that product. */
  lemma SavedLineOffers(item: Item)
    requires WellFormed(item)
    ensures OfferOf(RequiredHeaders)([item.code, item.name, item.unit, IntToString(item.stock), IntToString(item.price)])
            == Some(item)
  {
    var line := [item.code, item.name, item.unit, IntToString(item.stock), IntToString(item.price)];
    assert LineItem(RequiredHeaders, line) == Some(item) by {
      assert line != [];
      SavedLineParses(item);
    }
  }

  lemma {:induction false} LoadSavedLines(items: seq<Item>)
    requires ValidList(items)
    ensures LoadLines(RequiredHeaders, SavedLines(items)) == items
  {
    if items != [] {
      var n := |items| - 1;
      var before := items[..n];
      var item := items[n];
      var line := [item.code, item.name, item.unit, IntToString(item.stock), IntToString(item.price)];
      assert items == before + [item];
      assert ValidList(before) by {
        assert forall i :: 0 <= i < n ==> before[i] == items[i];
      }
      LoadSavedLines(before);
      var lines := SavedLines(items);
      assert lines == SavedLines(before) + [line];
      assert lines[..n] == SavedLines(before);
      var f := OfferOf(RequiredHeaders);
      assert MapLines(f, lines) == MapLines(f, SavedLines(before)) + [f(line)];
      SavedLineOffers(item);
      assert !HasCode(before, item.code) by {
        forall i | 0 <= i < n
          ensures before[i].code != item.code
        {
          assert before[i] == items[i];
        }
      }
      DedupSnocFresh(MapLines(f, SavedLines(before)), item);
    }
  }
}
