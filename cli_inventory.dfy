/** The inventory operations of the command-line version (xu_ly_kho.py) on the
    in-memory product list that `CliDataFile` loads. The list is the one object every
    operation shares and changes in place, so it is the field of an `Inventory` object.
    What the user types is a parameter: a single answer for a prompt asked once, and for
    a prompt that asks again until it gets an acceptable answer, the sequence of answers
    typed at it (a prompt whose answers run out accepts nothing, and the operation then
    changes nothing). A transaction file is the sequence of its csv lines, and whether
    it exists is a parameter. Messages and the two log files are not modelled beyond the
    entries the batch collects for its log. */
module CliInventory {
  import opened Common
  import opened Text
  import opened CliDataFile

  const DefaultImportFile: string := "nhapHang.csv"
  const DefaultExportFile: string := "xuatHang.csv"

  /** Where the product with this code sits: the first match, as the lookups scan the
      list from the front. */
  function FirstIndex(items: seq<Item>, code: string): (r: Option<nat>)
    ensures r.Some? <==> HasCode(items, code)
    ensures r.Some? ==> r.value < |items| && items[r.value].code == code
    ensures r.Some? ==> forall j :: 0 <= j < r.value ==> items[j].code != code
  {
    if items == [] then None
    else if items[0].code == code then Some(0)
    else
      var rest := FirstIndex(items[1..], code);
      assert forall j :: 1 <= j < |items| ==> items[j] == items[1..][j - 1];
      if rest.None? then None else Some(rest.value + 1)
  }

  // ---------------------------------------------------------------------------------
  // Prompts that ask again

  /** The answer a text prompt settles on: the first one it accepts. */
  function FirstAnswer(answers: seq<string>, accept: string -> bool): (r: Option<string>)
    ensures r.Some? ==> accept(r.value)
    ensures r.Some? ==> exists k :: 0 <= k < |answers| && answers[k] == r.value
                                    && forall j :: 0 <= j < k ==> !accept(answers[j])
    ensures r.None? ==> forall k :: 0 <= k < |answers| ==> !accept(answers[k])
  {
    if answers == [] then None
    else if accept(answers[0]) then Some(answers[0])
    else
      var rest := FirstAnswer(answers[1..], accept);
      assert forall k :: 1 <= k < |answers| ==> answers[k] == answers[1..][k - 1];
      if rest.Some? then
        var k :| 0 <= k < |answers[1..]| && answers[1..][k] == rest.value
                 && forall j :: 0 <= j < k ==> !accept(answers[1..][j]);
        assert answers[k + 1] == rest.value;
        rest
      else rest
  }

  /** The first answer `read` turns into a number of at least `least`. */
  function FirstRead(answers: seq<string>, read: string -> Option<int>, least: int): (r: Option<int>)
    ensures r.Some? ==> r.value >= least
  {
    if answers == [] then None
    else
      var n := read(answers[0]);
      if n.Some? && n.value >= least then n else FirstRead(answers[1..], read, least)
  }

  /** `FirstRead` takes the first answer that reads as a large enough number, and there
      is none exactly when it settles on nothing. */
  lemma {:induction false} FirstReadIsFirst(answers: seq<string>, read: string -> Option<int>, least: int)
    ensures FirstRead(answers, read, least).None? <==>
              forall k :: 0 <= k < |answers| ==> read(answers[k]).None? || read(answers[k]).value < least
    ensures FirstRead(answers, read, least).Some? ==>
              exists k :: 0 <= k < |answers| && read(answers[k]) == FirstRead(answers, read, least)
                          && forall j :: 0 <= j < k ==> read(answers[j]).None? || read(answers[j]).value < least
  {
    if answers != [] {
      var n := read(answers[0]);
      if !(n.Some? && n.value >= least) {
        var tail := answers[1..];
        FirstReadIsFirst(tail, read, least);
        assert forall k :: 1 <= k < |answers| ==> answers[k] == tail[k - 1];
        if FirstRead(tail, read, least).Some? {
          var k :| 0 <= k < |tail| && read(tail[k]) == FirstRead(tail, read, least)
                   && forall j :: 0 <= j < k ==> read(tail[j]).None? || read(tail[j]).value < least;
          assert read(answers[k + 1]) == FirstRead(answers, read, least);
        }
      }
    }
  }

  /** The number an `int(input(...))` prompt settles on: the first answer `int()`
      reads as a number of at least `least`. */
  function FirstNumber(answers: seq<string>, least: int): (r: Option<int>)
    ensures r.Some? ==> r.value >= least
  {
    FirstRead(answers, ParseInt, least)
  }

  /** A `while True: ... input() ... break` text prompt. */
  method Ask(answers: seq<string>, accept: string -> bool) returns (answer: Option<string>)
    ensures answer == FirstAnswer(answers, accept)
  {
    for k := 0 to |answers|
      invariant FirstAnswer(answers[k..], accept) == FirstAnswer(answers, accept)
    {
      assert answers[k..][1..] == answers[k + 1..];
      if accept(answers[k]) {
        return Some(answers[k]);
      }
    }
    assert answers[|answers|..] == [];
    return None;
  }

  /** A `while True: try: int(input(...)) ... except ValueError` prompt that wants a
      number of at least `least`. */
  method AskNumber(answers: seq<string>, least: int) returns (number: Option<int>)
    ensures number == FirstNumber(answers, least)
  {
    for k := 0 to |answers|
      invariant FirstRead(answers[k..], ParseInt, least) == FirstNumber(answers, least)
    {
      assert answers[k..][1..] == answers[k + 1..];
      var n := ParseInt(answers[k]);
      if n.Some? && n.value >= least {
        return n;
      }
    }
    assert answers[|answers|..] == [];
    return None;
  }

  // ---------------------------------------------------------------------------------
  // Adding a product (`them_san_pham_moi`)

  /** The code prompt: the stripped answer is non-empty, at most 10 characters and
      not yet in the list. */
  predicate CodeAccepted(items: seq<Item>, answer: string)
  {
    var code := Strip(answer);
    code != "" && |code| <= MaxCodeLength && !HasCode(items, code)
  }

  function CodeAnswer(items: seq<Item>): string -> bool
  {
    (answer: string) => CodeAccepted(items, answer)
  }

  predicate NameAccepted(answer: string)
  {
    var name := Strip(answer);
    name != "" && |name| <= MaxNameLength
  }

  predicate UnitAccepted(answer: string)
  {
    var unit := Strip(answer);
    unit != "" && |unit| <= MaxUnitLength
  }

  /** The answers typed at the five prompts of the add dialog. */
  datatype DialogAnswers = DialogAnswers(codes: seq<string>, names: seq<string>, units: seq<string>,
                                         stocks: seq<string>, prices: seq<string>)

  /** The product the add dialog builds, if every prompt settles on an answer: the
      stripped code, name and unit and the two numbers. */
  function DialogItem(items: seq<Item>, answers: DialogAnswers): Option<Item>
  {
    var c := FirstAnswer(answers.codes, CodeAnswer(items));
    var n := FirstAnswer(answers.names, NameAccepted);
    var u := FirstAnswer(answers.units, UnitAccepted);
    var s := FirstNumber(answers.stocks, 0);
    var p := FirstNumber(answers.prices, 0);
    if c.None? || n.None? || u.None? || s.None? || p.None? then None
    else Some(Item(Strip(c.value), Strip(n.value), Strip(u.value), s.value, p.value))
  }

  /** What the dialog adds is a well-formed product with a code not yet in the list, so
      adding it keeps the list valid. */
  lemma DialogItemFresh(items: seq<Item>, answers: DialogAnswers)
    ensures DialogItem(items, answers).Some? ==>
              WellFormed(DialogItem(items, answers).value) && !HasCode(items, DialogItem(items, answers).value.code)
    ensures DialogItem(items, answers).Some? && ValidList(items) ==>
              ValidList(items + [DialogItem(items, answers).value])
  {
    var c := FirstAnswer(answers.codes, CodeAnswer(items));
    var n := FirstAnswer(answers.names, NameAccepted);
    var u := FirstAnswer(answers.units, UnitAccepted);
    if DialogItem(items, answers).Some? {
      StripFacts(c.value);
      StripFacts(n.value);
      StripFacts(u.value);
      assert CodeAccepted(items, c.value);
      if ValidList(items) {
        AppendKeepsValid(items, DialogItem(items, answers).value);
      }
    }
  }

  // ---------------------------------------------------------------------------------
  // Manual receipts and shipments

  /** The list with the stock of product `i` set to `stock`, as `san_pham['soLuongTon']
      += / -=` leaves it. */
  function WithStock(items: seq<Item>, i: nat, stock: int): (r: seq<Item>)
    requires i < |items|
    ensures |r| == |items| && r[i] == items[i].(stock := stock)
    ensures forall j :: 0 <= j < |items| && j != i ==> r[j] == items[j]
  {
    items[i := items[i].(stock := stock)]
  }

  /** A stock change that stays non-negative keeps the list valid. */
  lemma WithStockKeepsValid(items: seq<Item>, i: nat, stock: int)
    requires ValidList(items) && i < |items| && stock >= 0
    ensures ValidList(WithStock(items, i, stock))
  {
    var r := WithStock(items, i, stock);
    forall j, k | 0 <= j < k < |r|
      ensures r[j].code != r[k].code
    {
      assert r[j].code == items[j].code && r[k].code == items[k].code;
    }
  }

  /** Receiving `n` and then shipping `n` of the same product gives the list back. */
  lemma InboundThenOutbound(items: seq<Item>, i: nat, n: int)
    requires i < |items|
    ensures WithStock(WithStock(items, i, items[i].stock + n), i, items[i].stock) == items
  {
    var r := WithStock(WithStock(items, i, items[i].stock + n), i, items[i].stock);
    assert forall j :: 0 <= j < |items| ==> r[j] == items[j];
  }

  datatype ManualOutcome =
    | NoSuchProduct(code: string)
    | NoQuantity
    | NotEnoughStock(stock: int, quantity: int)
    | Moved(index: nat, quantity: int)

  /** The list after a manual movement, and how it ended. */
  datatype Manual = Manual(items: seq<Item>, outcome: ManualOutcome)

  /** A manual receipt of the product with the (stripped) code: the first product with
      it, then the quantity prompt, whose number is added to the stock. */
  function Receive(items: seq<Item>, code: string, quantityAnswers: seq<string>): Manual
  {
    var found := FirstIndex(items, code);
    var q := FirstNumber(quantityAnswers, 1);
    if found.None? then Manual(items, NoSuchProduct(code))
    else if q.None? then Manual(items, NoQuantity)
    else
      var i := found.value;
      Manual(WithStock(items, i, items[i].stock + q.value), Moved(i, q.value))
  }

  /** A manual shipment: as a receipt, except that a quantity above the stock is
      refused. */
  function Ship(items: seq<Item>, code: string, quantityAnswers: seq<string>): Manual
  {
    var found := FirstIndex(items, code);
    var q := FirstNumber(quantityAnswers, 1);
    if found.None? then Manual(items, NoSuchProduct(code))
    else if q.None? then Manual(items, NoQuantity)
    else
      var i := found.value;
      if q.value > items[i].stock then Manual(items, NotEnoughStock(items[i].stock, q.value))
      else Manual(WithStock(items, i, items[i].stock - q.value), Moved(i, q.value))
  }

  /** A receipt raises the stock of the first product with the code by the first
      positive number typed at the quantity prompt; it changes nothing when the code is
      unknown or no answer is a positive number. */
  lemma ReceiveEffect(items: seq<Item>, code: string, quantityAnswers: seq<string>)
    ensures var r := Receive(items, code, quantityAnswers);
            && (!HasCode(items, code) ==> r == Manual(items, NoSuchProduct(code)))
            && (HasCode(items, code) && FirstNumber(quantityAnswers, 1).None? ==> r == Manual(items, NoQuantity))
            && (r.outcome.Moved? <==> HasCode(items, code) && FirstNumber(quantityAnswers, 1).Some?)
            && (!r.outcome.Moved? ==> r.items == items)
    ensures var r := Receive(items, code, quantityAnswers);
            r.outcome.Moved? ==>
              var i := r.outcome.index;
              && i == FirstIndex(items, code).value
              && r.outcome.quantity == FirstNumber(quantityAnswers, 1).value
              && i < |items| && items[i].code == code && r.outcome.quantity > 0
              && r.items == WithStock(items, i, items[i].stock + r.outcome.quantity)
  {
    ReceiveOutcome(items, code, quantityAnswers);
    ReceiveMoved(items, code, quantityAnswers);
  }

  /** Which of the four outcomes a receipt has, and that only a booked one changes the
      list. */
  lemma ReceiveOutcome(items: seq<Item>, code: string, quantityAnswers: seq<string>)
    ensures var r := Receive(items, code, quantityAnswers);
            && (!HasCode(items, code) ==> r == Manual(items, NoSuchProduct(code)))
            && (HasCode(items, code) && FirstNumber(quantityAnswers, 1).None? ==> r == Manual(items, NoQuantity))
            && (r.outcome.Moved? <==> HasCode(items, code) && FirstNumber(quantityAnswers, 1).Some?)
            && (!r.outcome.Moved? ==> r.items == items)
  {
  }

  /** A booked receipt is of the typed number, at the first product with the code. */
  lemma ReceiveMoved(items: seq<Item>, code: string, quantityAnswers: seq<string>)
    ensures var r := Receive(items, code, quantityAnswers);
            r.outcome.Moved? ==>
              var i := r.outcome.index;
              && i == FirstIndex(items, code).value
              && r.outcome.quantity == FirstNumber(quantityAnswers, 1).value
              && i < |items| && items[i].code == code && r.outcome.quantity > 0
              && r.items == WithStock(items, i, items[i].stock + r.outcome.quantity)
  {
  }

  /** A shipment lowers the stock of the first product with the code by the first
      positive number typed, exactly when that number is at most the stock; a larger
      number is refused with the stock and the number, and nothing changes. */
  lemma ShipEffect(items: seq<Item>, code: string, quantityAnswers: seq<string>)
    ensures var r := Ship(items, code, quantityAnswers);
            var q := FirstNumber(quantityAnswers, 1);
            && (!HasCode(items, code) ==> r == Manual(items, NoSuchProduct(code)))
            && (HasCode(items, code) && q.None? ==> r == Manual(items, NoQuantity))
            && (r.outcome.Moved? <==>
                  HasCode(items, code) && q.Some? && q.value <= items[FirstIndex(items, code).value].stock)
            && (r.outcome.NotEnoughStock? <==>
                  HasCode(items, code) && q.Some? && q.value > items[FirstIndex(items, code).value].stock)
            && (!r.outcome.Moved? ==> r.items == items)
    ensures var r := Ship(items, code, quantityAnswers);
            r.outcome.NotEnoughStock? ==>
              && r.outcome.stock == items[FirstIndex(items, code).value].stock
              && r.outcome.quantity == FirstNumber(quantityAnswers, 1).value
              && r.outcome.quantity > r.outcome.stock
    ensures var r := Ship(items, code, quantityAnswers);
            r.outcome.Moved? ==>
              var i := r.outcome.index;
              && i == FirstIndex(items, code).value
              && r.outcome.quantity == FirstNumber(quantityAnswers, 1).value
              && i < |items| && items[i].code == code && 0 < r.outcome.quantity <= items[i].stock
              && r.items == WithStock(items, i, items[i].stock - r.outcome.quantity)
  {
    ShipOutcome(items, code, quantityAnswers);
    ShipRefused(items, code, quantityAnswers);
    ShipMoved(items, code, quantityAnswers);
  }

  /** Which of the four outcomes a shipment has, and that only a booked one changes the
      list. */
  lemma ShipOutcome(items: seq<Item>, code: string, quantityAnswers: seq<string>)
    ensures var r := Ship(items, code, quantityAnswers);
            var q := FirstNumber(quantityAnswers, 1);
            && (!HasCode(items, code) ==> r == Manual(items, NoSuchProduct(code)))
            && (HasCode(items, code) && q.None? ==> r == Manual(items, NoQuantity))
            && (r.outcome.Moved? <==>
                  HasCode(items, code) && q.Some? && q.value <= items[FirstIndex(items, code).value].stock)
            && (r.outcome.NotEnoughStock? <==>
                  HasCode(items, code) && q.Some? && q.value > items[FirstIndex(items, code).value].stock)
            && (!r.outcome.Moved? ==> r.items == items)
  {
  }

  /** A refused shipment reports the stock and the typed number. */
  lemma ShipRefused(items: seq<Item>, code: string, quantityAnswers: seq<string>)
    ensures var r := Ship(items, code, quantityAnswers);
            r.outcome.NotEnoughStock? ==>
              && r.outcome.stock == items[FirstIndex(items, code).value].stock
              && r.outcome.quantity == FirstNumber(quantityAnswers, 1).value
              && r.outcome.quantity > r.outcome.stock
  {
  }

  /** A booked shipment is of the typed number, at the first product with the code. */
  lemma ShipMoved(items: seq<Item>, code: string, quantityAnswers: seq<string>)
    ensures var r := Ship(items, code, quantityAnswers);
            r.outcome.Moved? ==>
              var i := r.outcome.index;
              && i == FirstIndex(items, code).value
              && r.outcome.quantity == FirstNumber(quantityAnswers, 1).value
              && i < |items| && items[i].code == code && 0 < r.outcome.quantity <= items[i].stock
              && r.items == WithStock(items, i, items[i].stock - r.outcome.quantity)
  {
  }

  /** A manual receipt keeps the list valid. */
  lemma ReceiveKeepsValid(items: seq<Item>, code: string, quantityAnswers: seq<string>)
    requires ValidList(items)
    ensures ValidList(Receive(items, code, quantityAnswers).items)
  {
    var received := Receive(items, code, quantityAnswers);
    ReceiveEffect(items, code, quantityAnswers);
    if received.outcome.Moved? {
      var i := received.outcome.index;
      WithStockKeepsValid(items, i, items[i].stock + received.outcome.quantity);
    }
  }

  /** A manual shipment keeps the list valid: it never takes a stock below zero. */
  lemma ShipKeepsValid(items: seq<Item>, code: string, quantityAnswers: seq<string>)
    requires ValidList(items)
    ensures ValidList(Ship(items, code, quantityAnswers).items)
  {
    var shipped := Ship(items, code, quantityAnswers);
    ShipEffect(items, code, quantityAnswers);
    if shipped.outcome.Moved? {
      var i := shipped.outcome.index;
      WithStockKeepsValid(items, i, items[i].stock - shipped.outcome.quantity);
    }
  }

  // ---------------------------------------------------------------------------------
  // The transaction-file batch (`_xu_ly_giao_dich_tu_file_internal`)

  /** One entry of `log_entries`: what the batch noted for the header or for one line
      (`line` counts the header as line 1). */
  datatype LogEntry =
    | MissingHeader
    | HeaderMismatch(first: string, second: string)
    | TooFewCells(line: nat)
    | NotANumber(line: nat, code: string, cell: string)
    | NotPositive(line: nat, code: string, quantity: int)
    | UnknownProduct(line: nat, code: string)
    | Received(line: nat, code: string, quantity: int, newStock: int)
    | OutOfStock(line: nat, code: string, quantity: int, stock: int)
    | Shipped(line: nat, code: string, quantity: int, newStock: int)

  /** `tong_giao_dich`, `giao_dich_thanh_cong`, `giao_dich_that_bai` and `log_entries`. */
  datatype Tally = Tally(total: nat, succeeded: nat, failed: nat, log: seq<LogEntry>)

  /** The list and the tally part-way through a file. */
  datatype Run = Run(items: seq<Item>, tally: Tally)

  /** The quantity column names the header check accepts (compared with the stripped,
      lower-cased second header cell). */
  function AcceptedQuantityHeaders(kind: string, expectedColumn: string): seq<string>
  {
    [Lower(expectedColumn), "soluong", "số lượng"]
    + (if kind == "nhap" then ["soluongnhap", "số lượng nhập"]
       else if kind == "xuat" then ["soluongxuat", "số lượng xuất"]
       else [])
  }

  /** What the cells of one data line ask for: `row[0].strip()` and
      `int(row[1].strip())`, or why the line cannot ask for anything. */
  datatype Request =
    | ShortRow
    | Unreadable(code: string, cell: string)
    | NonPositive(code: string, quantity: int)
    | Movement(code: string, quantity: int)

  function ReadRow(row: seq<string>): (r: Request)
    ensures r.ShortRow? <==> |row| < 2
    ensures r.Movement? ==> r.quantity > 0
  {
    if |row| < 2 then ShortRow
    else
      var code := Strip(row[0]);
      var quantity := ParseInt(Strip(row[1]));
      if quantity.None? then Unreadable(code, row[1])
      else if quantity.value <= 0 then NonPositive(code, quantity.value)
      else Movement(code, quantity.value)
  }

  /** A line asks for a movement exactly when it has two cells and its second reads as
      a positive number; the movement is then of that number, for the stripped code. */
  lemma ReadRowMovement(row: seq<string>)
    ensures ReadRow(row).Movement? <==>
              |row| >= 2 && ParseInt(Strip(row[1])).Some? && ParseInt(Strip(row[1])).value > 0
    ensures ReadRow(row).Movement? ==>
              ReadRow(row) == Movement(Strip(row[0]), ParseInt(Strip(row[1])).value)
  {
  }

  /** Only the stocks change: codes, names, units and prices stay, product by product. */
  predicate SameCatalog(a: seq<Item>, b: seq<Item>)
  {
    && |a| == |b|
    && forall i :: 0 <= i < |a| ==>
         a[i].code == b[i].code && a[i].name == b[i].name && a[i].unit == b[i].unit && a[i].price == b[i].price
  }

  /** A line fails when it asks for no movement, names an unknown code, or (when
      shipping) asks for more than the stock. */
  predicate RequestFails(items: seq<Item>, request: Request, kind: string)
  {
    || !request.Movement?
    || FirstIndex(items, request.code).None?
    || (kind == "xuat" && request.quantity > items[FirstIndex(items, request.code).value].stock)
  }

  /** One data line, once read: the log entry, the counters and the stock change. */
  function Apply(run: Run, request: Request, line: nat, kind: string): (r: Run)
    ensures r.tally.total == run.tally.total + 1
    ensures SameCatalog(run.items, r.items)
    ensures RequestFails(run.items, request, kind) ==>
              r.items == run.items && r.tally.failed == run.tally.failed + 1 && r.tally.succeeded == run.tally.succeeded
    ensures !RequestFails(run.items, request, kind) && (kind == "nhap" || kind == "xuat") ==>
              r.tally.failed == run.tally.failed && r.tally.succeeded == run.tally.succeeded + 1
    ensures kind != "nhap" && kind != "xuat" && !RequestFails(run.items, request, kind) ==>
              r == Run(run.items, run.tally.(total := run.tally.total + 1))
  {
    var t := run.tally;
    var total := t.total + 1;
    match request
    case ShortRow => Run(run.items, Tally(total, t.succeeded, t.failed + 1, t.log + [TooFewCells(line)]))
    case Unreadable(code, cell) => Run(run.items, Tally(total, t.succeeded, t.failed + 1, t.log + [NotANumber(line, code, cell)]))
    case NonPositive(code, q) => Run(run.items, Tally(total, t.succeeded, t.failed + 1, t.log + [NotPositive(line, code, q)]))
    case Movement(code, q) =>
      var found := FirstIndex(run.items, code);
      if found.None? then
        Run(run.items, Tally(total, t.succeeded, t.failed + 1, t.log + [UnknownProduct(line, code)]))
      else
        var i := found.value;
        var stock := run.items[i].stock;
        if kind == "nhap" then
          Run(WithStock(run.items, i, stock + q), Tally(total, t.succeeded + 1, t.failed, t.log + [Received(line, code, q, stock + q)]))
        else if kind == "xuat" then
          if q > stock then
            Run(run.items, Tally(total, t.succeeded, t.failed + 1, t.log + [OutOfStock(line, code, q, stock)]))
          else
            Run(WithStock(run.items, i, stock - q), Tally(total, t.succeeded + 1, t.failed, t.log + [Shipped(line, code, q, stock - q)]))
        else
          Run(run.items, Tally(total, t.succeeded, t.failed, t.log))
  }

  /** What the cells of the data lines ask for, line by line. */
  function Requests(rows: seq<seq<string>>): (r: seq<Request>)
    ensures |r| == |rows| && forall k :: 0 <= k < |rows| ==> r[k] == ReadRow(rows[k])
  {
    seq(|rows|, k requires 0 <= k < |rows| => ReadRow(rows[k]))
  }

  /** The data lines, once read, in file order; the first of them is line 2. */
  function RunRequests(items: seq<Item>, requests: seq<Request>, kind: string): (r: Run)
    ensures r.tally.total == |requests|
    ensures (kind == "nhap" || kind == "xuat") ==> r.tally.total == r.tally.succeeded + r.tally.failed
    ensures SameCatalog(items, r.items)
  {
    if requests == [] then Run(items, Tally(0, 0, 0, []))
    else
      var n := |requests| - 1;
      Apply(RunRequests(items, requests[..n], kind), requests[n], n + 2, kind)
  }

  /** The header check: an empty file, or a header of fewer than two cells, or a header
      whose first cell is not `masp` or whose second is not an accepted quantity column
      (each stripped and lower-cased), is the one failure the whole file then counts. */
  function HeaderCheck(lines: seq<seq<string>>, kind: string, expectedColumn: string): (r: Option<LogEntry>)
    ensures r.None? ==> lines != [] && |lines[0]| >= 2
    ensures r == Some(MissingHeader) <==> lines == [] || |lines[0]| < 2
    ensures lines != [] && |lines[0]| >= 2 ==>
              (r.None? <==> Lower(Strip(lines[0][0])) == "masp"
                            && Lower(Strip(lines[0][1])) in AcceptedQuantityHeaders(kind, expectedColumn))
    ensures r.Some? && lines != [] && |lines[0]| >= 2 ==> r == Some(HeaderMismatch(lines[0][0], lines[0][1]))
  {
    if lines == [] || |lines[0]| < 2 then Some(MissingHeader)
    else
      var header := lines[0];
      if Lower(Strip(header[0])) != "masp" || Lower(Strip(header[1])) !in AcceptedQuantityHeaders(kind, expectedColumn) then
        Some(HeaderMismatch(header[0], header[1]))
      else None
  }

  /** What processing a transaction file does to the list, and its tally: nothing at
      all for a missing file, one failure and no change for a rejected header, and
      otherwise the data lines in order. */
  function ProcessFile(items: seq<Item>, fileExists: bool, lines: seq<seq<string>>, kind: string,
                       expectedColumn: string): (r: Option<Run>)
    ensures r.None? <==> !fileExists
    ensures r.Some? ==> SameCatalog(items, r.value.items)
    ensures r.Some? && HeaderCheck(lines, kind, expectedColumn).Some? ==>
              r.value == Run(items, Tally(1, 0, 1, [HeaderCheck(lines, kind, expectedColumn).value]))
    ensures r.Some? && HeaderCheck(lines, kind, expectedColumn).None? ==> r.value.tally.total == |lines| - 1
    ensures r.Some? && (kind == "nhap" || kind == "xuat") ==> r.value.tally.total == r.value.tally.succeeded + r.value.tally.failed
  {
    if !fileExists then None
    else
      var rejected := HeaderCheck(lines, kind, expectedColumn);
      if rejected.Some? then Some(Run(items, Tally(1, 0, 1, [rejected.value])))
      else Some(RunRequests(items, Requests(lines[1..]), kind))
  }

  /** What `ReadRow` can give: a movement is always of a positive quantity. */
  predicate AsRead(request: Request)
  {
    request.Movement? ==> request.quantity > 0
  }

  predicate AllAsRead(requests: seq<Request>)
  {
    forall k :: 0 <= k < |requests| ==> AsRead(requests[k])
  }

  lemma RequestsAsRead(rows: seq<seq<string>>)
    ensures AllAsRead(Requests(rows))
  {
  }

  /** One line never lowers a stock when receiving and never raises one when
      shipping. */
  lemma ApplyDirection(run: Run, request: Request, line: nat, kind: string)
    requires AsRead(request)
    ensures var after := Apply(run, request, line, kind).items;
            && (kind == "nhap" ==> forall i :: 0 <= i < |run.items| ==> after[i].stock >= run.items[i].stock)
            && (kind == "xuat" ==> forall i :: 0 <= i < |run.items| ==> after[i].stock <= run.items[i].stock)
  {
  }

  /** A line that is booked moves the stock of the first product with its code by its
      quantity, up when receiving and down when shipping, counts one success and logs the
      new stock; every other product keeps its stock. */
  lemma ApplyEffect(run: Run, request: Request, line: nat, kind: string)
    requires request.Movement? && !RequestFails(run.items, request, kind)
    ensures var i := FirstIndex(run.items, request.code).value;
            var stock := run.items[i].stock;
            var q := request.quantity;
            var t := run.tally;
            && (kind == "nhap" ==>
                  Apply(run, request, line, kind)
                  == Run(WithStock(run.items, i, stock + q),
                         Tally(t.total + 1, t.succeeded + 1, t.failed, t.log + [Received(line, request.code, q, stock + q)])))
            && (kind == "xuat" ==>
                  Apply(run, request, line, kind)
                  == Run(WithStock(run.items, i, stock - q),
                         Tally(t.total + 1, t.succeeded + 1, t.failed, t.log + [Shipped(line, request.code, q, stock - q)])))
  {
  }

  /** One line never takes a stock below zero. */
  lemma ApplyKeepsValid(run: Run, request: Request, line: nat, kind: string)
    requires ValidList(run.items) && AsRead(request)
    ensures ValidList(Apply(run, request, line, kind).items)
  {
    if request.Movement? {
      var found := FirstIndex(run.items, request.code);
      if found.Some? {
        var i := found.value;
        var stock := run.items[i].stock;
        WithStockKeepsValid(run.items, i, stock + request.quantity);
        if request.quantity <= stock {
          WithStockKeepsValid(run.items, i, stock - request.quantity);
        }
      }
    }
  }

  /** A file of receipts never lowers a stock, and a file of shipments never raises one. */
  lemma {:induction false} RunRequestsDirection(items: seq<Item>, requests: seq<Request>, kind: string)
    requires AllAsRead(requests)
    ensures var after := RunRequests(items, requests, kind).items;
            && (kind == "nhap" ==> forall i :: 0 <= i < |items| ==> after[i].stock >= items[i].stock)
            && (kind == "xuat" ==> forall i :: 0 <= i < |items| ==> after[i].stock <= items[i].stock)
  {
    if requests != [] {
      var n := |requests| - 1;
      RunRequestsDirection(items, requests[..n], kind);
      ApplyDirection(RunRequests(items, requests[..n], kind), requests[n], n + 2, kind);
    }
  }

  /** The batch keeps the list valid: shipments never take a stock below zero. */
  lemma {:induction false} RunRequestsKeepsValid(items: seq<Item>, requests: seq<Request>, kind: string)
    requires ValidList(items) && AllAsRead(requests)
    ensures ValidList(RunRequests(items, requests, kind).items)
  {
    if requests != [] {
      var n := |requests| - 1;
      RunRequestsKeepsValid(items, requests[..n], kind);
      ApplyKeepsValid(RunRequests(items, requests[..n], kind), requests[n], n + 2, kind);
    }
  }

  /** Processing a file keeps the list valid; receipts never lower a stock and
      shipments never raise one. */
  lemma ProcessFileStocks(items: seq<Item>, fileExists: bool, lines: seq<seq<string>>, kind: string,
                          expectedColumn: string)
    ensures var r := ProcessFile(items, fileExists, lines, kind, expectedColumn);
            r.Some? ==>
              && (ValidList(items) ==> ValidList(r.value.items))
              && (kind == "nhap" ==> forall i :: 0 <= i < |items| ==> r.value.items[i].stock >= items[i].stock)
              && (kind == "xuat" ==> forall i :: 0 <= i < |items| ==> r.value.items[i].stock <= items[i].stock)
  {
    if fileExists && HeaderCheck(lines, kind, expectedColumn).None? {
      var requests := Requests(lines[1..]);
      RequestsAsRead(lines[1..]);
      RunRequestsDirection(items, requests, kind);
      if ValidList(items) {
        RunRequestsKeepsValid(items, requests, kind);
      }
    }
  }

  // ---------------------------------------------------------------------------------
  // The searches

  /** The products whose stock is at most the threshold, in list order. */
  function StockAtMost(items: seq<Item>, threshold: int): (r: seq<Item>)
    ensures forall x :: x in r <==> x in items && x.stock <= threshold
  {
    if items == [] then []
    else
      var n := |items| - 1;
      var before := StockAtMost(items[..n], threshold);
      assert forall x :: x in items <==> x in items[..n] || x == items[n];
      if items[n].stock <= threshold then before + [items[n]] else before
  }

  /** The low-stock list keeps the list order: the matches of a concatenation are the
      matches of its first part followed by those of its second. */
  lemma {:induction false} StockAtMostAppend(a: seq<Item>, b: seq<Item>, threshold: int)
    ensures StockAtMost(a + b, threshold) == StockAtMost(a, threshold) + StockAtMost(b, threshold)
    decreases |b|
  {
    if b == [] {
      assert a + b == a;
    } else {
      var init := b[..|b| - 1];
      StockAtMostAppend(a, init, threshold);
      assert (a + b)[..|a + b| - 1] == a + init;
      assert (a + b)[|a + b| - 1] == b[|b| - 1];
    }
  }

  /** `term` occurs in `name` starting at position `k`. */
  predicate OccursAt(name: string, term: string, k: nat)
    requires k + |term| <= |name|
  {
    name[k..k + |term|] == term
  }

  /** `term in name` on strings: `term` occurs somewhere in `name`. */
  predicate Contains(name: string, term: string)
  {
    exists k: nat :: k <= |name| - |term| && OccursAt(name, term, k)
  }

  /** The products whose name contains the term, both lower-cased, in list order. */
  function NameMatches(items: seq<Item>, term: string): (r: seq<Item>)
    ensures forall x :: x in r <==> x in items && Contains(Lower(x.name), Lower(term))
  {
    if items == [] then []
    else
      var n := |items| - 1;
      var before := NameMatches(items[..n], term);
      assert forall x :: x in items <==> x in items[..n] || x == items[n];
      if Contains(Lower(items[n].name), Lower(term)) then before + [items[n]] else before
  }

  /** The name search keeps the list order, as `StockAtMostAppend` does for stocks. */
  lemma {:induction false} NameMatchesAppend(a: seq<Item>, b: seq<Item>, term: string)
    ensures NameMatches(a + b, term) == NameMatches(a, term) + NameMatches(b, term)
    decreases |b|
  {
    if b == [] {
      assert a + b == a;
    } else {
      var init := b[..|b| - 1];
      NameMatchesAppend(a, init, term);
      assert (a + b)[..|a + b| - 1] == a + init;
      assert (a + b)[|a + b| - 1] == b[|b| - 1];
    }
  }

  datatype ThresholdError = NotAThreshold | NegativeThreshold

  class Inventory {
    var items: seq<Item>

    constructor (loaded: seq<Item>)
      ensures items == loaded
    {
      items := loaded;
    }

    /** `kiem_tra_ma_sp_ton_tai`. */
    method CodeExists(code: string) returns (found: bool)
      ensures found == HasCode(items, code)
    {
      for i := 0 to |items|
        invariant forall j :: 0 <= j < i ==> items[j].code != code
      {
        if items[i].code == code {
          return true;
        }
      }
      return false;
    }

    /** `tim_san_pham_theo_ma_sp`: the position of the first product with the code. */
    method FindProduct(code: string) returns (index: Option<nat>)
      ensures index == FirstIndex(items, code)
    {
      for i := 0 to |items|
        invariant forall j :: 0 <= j < i ==> items[j].code != code
      {
        if items[i].code == code {
          return Some(i);
        }
      }
      return None;
    }

    /** `them_san_pham_moi`: the five prompts, then one append. */
    method AddProduct(answers: DialogAnswers) returns (added: bool)
      modifies this
      ensures added <==> DialogItem(old(items), answers).Some?
      ensures items == if added then old(items) + [DialogItem(old(items), answers).value] else old(items)
    {
      var list := items;
      var c := Ask(answers.codes, CodeAnswer(list));
      var n := Ask(answers.names, NameAccepted);
      var u := Ask(answers.units, UnitAccepted);
      var s := AskNumber(answers.stocks, 0);
      var p := AskNumber(answers.prices, 0);
      if c.None? || n.None? || u.None? || s.None? || p.None? {
        return false;
      }
      items := list + [Item(Strip(c.value), Strip(n.value), Strip(u.value), s.value, p.value)];
      return true;
    }

    /** `nhap_hang_cho_san_pham`: the stripped code, then the receipt. */
    method ManualInbound(codeAnswer: string, quantityAnswers: seq<string>) returns (outcome: ManualOutcome)
      modifies this
      ensures Manual(items, outcome) == Receive(old(items), Strip(codeAnswer), quantityAnswers)
    {
      outcome := ReceiveCode(Strip(codeAnswer), quantityAnswers);
    }

    /** The receipt once the code is read: the lookup, then the quantity prompt. */
    method ReceiveCode(code: string, quantityAnswers: seq<string>) returns (outcome: ManualOutcome)
      modifies this
      ensures Manual(items, outcome) == Receive(old(items), code, quantityAnswers)
    {
      var found := FindProduct(code);
      if found.None? {
        return NoSuchProduct(code);
      }
      var q := AskNumber(quantityAnswers, 1);
      if q.None? {
        return NoQuantity;
      }
      var i := found.value;
      items := WithStock(items, i, items[i].stock + q.value);
      return Moved(i, q.value);
    }

    /** `xuat_hang_khoi_kho`: the stripped code, then the shipment. */
    method ManualOutbound(codeAnswer: string, quantityAnswers: seq<string>) returns (outcome: ManualOutcome)
      modifies this
      ensures Manual(items, outcome) == Ship(old(items), Strip(codeAnswer), quantityAnswers)
    {
      outcome := ShipCode(Strip(codeAnswer), quantityAnswers);
    }

    /** The shipment once the code is read: the lookup, the quantity prompt, then the
        stock check. */
    method ShipCode(code: string, quantityAnswers: seq<string>) returns (outcome: ManualOutcome)
      modifies this
      ensures Manual(items, outcome) == Ship(old(items), code, quantityAnswers)
    {
      var found := FindProduct(code);
      if found.None? {
        return NoSuchProduct(code);
      }
      var q := AskNumber(quantityAnswers, 1);
      if q.None? {
        return NoQuantity;
      }
      var i := found.value;
      if q.value > items[i].stock {
        return NotEnoughStock(items[i].stock, q.value);
      }
      items := WithStock(items, i, items[i].stock - q.value);
      return Moved(i, q.value);
    }

    /** `_xu_ly_giao_dich_tu_file_internal`: the header check, then one pass over the
        data lines that changes stocks as it goes. */
    method ProcessTransactionFile(fileExists: bool, lines: seq<seq<string>>, kind: string, expectedColumn: string)
      returns (tally: Option<Tally>)
      modifies this
      ensures var r := ProcessFile(old(items), fileExists, lines, kind, expectedColumn);
              && (r.None? ==> tally.None? && items == old(items))
              && (r.Some? ==> tally == Some(r.value.tally) && items == r.value.items)
    {
      if !fileExists {
        return None;
      }
      var rejected := HeaderCheck(lines, kind, expectedColumn);
      if rejected.Some? {
        return Some(Tally(1, 0, 1, [rejected.value]));
      }
      var t := ProcessRequests(Requests(lines[1..]), kind);
      return Some(t);
    }

    /** The loop over the data lines, once read. */
    method ProcessRequests(requests: seq<Request>, kind: string) returns (t: Tally)
      modifies this
      ensures Run(items, t) == RunRequests(old(items), requests, kind)
    {
      ghost var start := items;
      t := Tally(0, 0, 0, []);
      for k := 0 to |requests|
        invariant Run(items, t) == RunRequests(start, requests[..k], kind)
      {
        assert requests[..k + 1][..k] == requests[..k];
        t := ProcessRow(requests[k], k + 2, kind, t);
      }
      assert requests[..|requests|] == requests;
    }

    /** One data line, once its cells are read: the counters, the log entry and the
        stock change. */
    method ProcessRow(request: Request, line: nat, kind: string, t: Tally) returns (next: Tally)
      modifies this
      ensures Run(items, next) == Apply(Run(old(items), t), request, line, kind)
    {
      var total := t.total + 1;
      match request {
        case ShortRow =>
          return Tally(total, t.succeeded, t.failed + 1, t.log + [TooFewCells(line)]);
        case Unreadable(code, cell) =>
          return Tally(total, t.succeeded, t.failed + 1, t.log + [NotANumber(line, code, cell)]);
        case NonPositive(code, q) =>
          return Tally(total, t.succeeded, t.failed + 1, t.log + [NotPositive(line, code, q)]);
        case Movement(code, q) =>
          var found := FindProduct(code);
          if found.None? {
            return Tally(total, t.succeeded, t.failed + 1, t.log + [UnknownProduct(line, code)]);
          }
          var i := found.value;
          var stock := items[i].stock;
          if kind == "nhap" {
            items := WithStock(items, i, stock + q);
            return Tally(total, t.succeeded + 1, t.failed, t.log + [Received(line, code, q, stock + q)]);
          } else if kind == "xuat" {
            if q > stock {
              return Tally(total, t.succeeded, t.failed + 1, t.log + [OutOfStock(line, code, q, stock)]);
            }
            items := WithStock(items, i, stock - q);
            return Tally(total, t.succeeded + 1, t.failed, t.log + [Shipped(line, code, q, stock - q)]);
          }
          return Tally(total, t.succeeded, t.failed, t.log);
      }
    }

    /** `nhap_hang_tu_file`: the stripped path, or the default one when it is empty. */
    method ImportFromFile(pathAnswer: string, fileExists: bool, lines: seq<seq<string>>)
      returns (path: string, tally: Option<Tally>)
      modifies this
      ensures path == (if Strip(pathAnswer) == "" then DefaultImportFile else Strip(pathAnswer))
      ensures var r := ProcessFile(old(items), fileExists, lines, "nhap", "soLuongNhap");
              && (r.None? ==> tally.None? && items == old(items))
              && (r.Some? ==> tally == Some(r.value.tally) && items == r.value.items)
    {
      path := Strip(pathAnswer);
      if path == "" {
        path := DefaultImportFile;
      }
      tally := ProcessTransactionFile(fileExists, lines, "nhap", "soLuongNhap");
    }

    /** `xuat_hang_tu_file`. */
    method ExportFromFile(pathAnswer: string, fileExists: bool, lines: seq<seq<string>>)
      returns (path: string, tally: Option<Tally>)
      modifies this
      ensures path == (if Strip(pathAnswer) == "" then DefaultExportFile else Strip(pathAnswer))
      ensures var r := ProcessFile(old(items), fileExists, lines, "xuat", "soLuongXuat");
              && (r.None? ==> tally.None? && items == old(items))
              && (r.Some? ==> tally == Some(r.value.tally) && items == r.value.items)
    {
      path := Strip(pathAnswer);
      if path == "" {
        path := DefaultExportFile;
      }
      tally := ProcessTransactionFile(fileExists, lines, "xuat", "soLuongXuat");
    }

    /** `tim_kiem_san_pham_theo_ma`: the product with the stripped code, if any. */
    method SearchByCode(answer: string) returns (found: Option<Item>)
      ensures found.Some? <==> HasCode(items, Strip(answer))
      ensures found.Some? ==> found.value in items && found.value.code == Strip(answer)
      ensures found.Some? ==> found.value == items[FirstIndex(items, Strip(answer)).value]
    {
      var index := FindProduct(Strip(answer));
      if index.None? {
        return None;
      }
      return Some(items[index.value]);
    }

    /** `tim_kiem_san_pham_theo_ten`: nothing for an empty term, otherwise the products
        whose name contains it regardless of case. */
    method SearchByName(answer: string) returns (found: Option<seq<Item>>)
      ensures Strip(answer) == "" <==> found.None?
      ensures found.Some? ==> found.value == NameMatches(items, Strip(answer))
    {
      var term := Strip(answer);
      if term == "" {
        return None;
      }
      var matches: seq<Item> := [];
      for i := 0 to |items|
        invariant matches == NameMatches(items[..i], term)
      {
        assert items[..i + 1][..i] == items[..i];
        if Contains(Lower(items[i].name), Lower(term)) {
          matches := matches + [items[i]];
        }
      }
      assert items[..|items|] == items;
      return Some(matches);
    }

    /** `liet_ke_san_pham_sap_het_hang`: a threshold `int()` rejects or that is negative
        is an error, otherwise the products whose stock is at most the threshold. */
    method LowStock(answer: string) returns (r: Result<seq<Item>, ThresholdError>)
      ensures ParseInt(answer).None? <==> r == Err(NotAThreshold)
      ensures ParseInt(answer).Some? && ParseInt(answer).value < 0 <==> r == Err(NegativeThreshold)
      ensures r.Ok? ==> r.value == StockAtMost(items, ParseInt(answer).value)
    {
      var threshold := ParseInt(answer);
      if threshold.None? {
        return Err(NotAThreshold);
      }
      if threshold.value < 0 {
        return Err(NegativeThreshold);
      }
      var low: seq<Item> := [];
      for i := 0 to |items|
        invariant low == StockAtMost(items[..i], threshold.value)
      {
        assert items[..i + 1][..i] == items[..i];
        if items[i].stock <= threshold.value {
          low := low + [items[i]];
        }
      }
      assert items[..|items|] == items;
      return Ok(low);
    }
  }
}
