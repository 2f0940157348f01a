/** GET /api/receipt (functions/api/receipt.ts): look a transaction up by business date and
    receipt number and render its receipt from the stored header and item rows. */
module Receipt {
  import opened Wrappers
  import opened Text
  import opened Shared
  import opened Store
  import T = Transactions

  /** One line of the receipt: the columns selected from `transaction_items`. */
  datatype ReceiptItem = ReceiptItem(
    product_name: string, qty: int, price_excl: int, line_amount_excl: int, tax_rate: TaxRate)

  /** One entry of `tax_summary`. */
  datatype TaxLine = TaxLine(tax_rate: TaxRate, subtotal_excl: int, tax_amount: int, subtotal_incl: int)

  datatype Receipt = Receipt(
    transaction_id: string, receipt_no: string, registered_at_jst: string,
    items: seq<ReceiptItem>, tax_summary: seq<TaxLine>, total_incl: int)

  /** The handler's answer: 200 with the receipt, 400 with a message, or 404. */
  datatype ReadResponse = Found(receipt: Receipt) | BadRequest(message: string) | NotFound
  {
    function Status(): int {
      match this
      case Found(_) => 200
      case BadRequest(_) => 400
      case NotFound => 404
    }
  }

  const ParamsRequiredError := "date and receipt_no are required"
  const DateFormatError := "date must be YYYY-MM-DD"

  /** `replaceAll("-", "")`. */
  function RemoveDashes(s: string): (r: string)
    ensures |r| <= |s|
    ensures forall k :: 0 <= k < |r| ==> r[k] != '-'
  {
    if s == [] then [] else (if s[0] == '-' then [] else [s[0]]) + RemoveDashes(s[1..])
  }

  lemma {:induction false} RemoveDashesAppend(a: string, b: string)
    ensures RemoveDashes(a + b) == RemoveDashes(a) + RemoveDashes(b)
    decreases |a|
  {
    if a != [] {
      assert (a + b)[1..] == a[1..] + b;
      RemoveDashesAppend(a[1..], b);
    } else {
      assert a + b == b;
    }
  }

  lemma {:induction false} RemoveDashesOfDigits(s: string)
    requires AllDigits(s)
    ensures RemoveDashes(s) == s
  {
    if s != [] {
      RemoveDashesOfDigits(s[1..]);
    }
  }

  /** On a `YYYY-MM-DD` string, removing the dashes keeps the three digit groups. */
  lemma DateWithoutDashes(d: string)
    requires IsDateLiteral(d)
    ensures RemoveDashes(d) == d[..4] + d[5..7] + d[8..]
  {
    DateLiteralDigits(d);
    assert d == d[..4] + "-" + d[5..7] + "-" + d[8..];
    RemoveDashesAppend(d[..4] + "-" + d[5..7] + "-", d[8..]);
    RemoveDashesAppend(d[..4] + "-" + d[5..7], "-");
    RemoveDashesAppend(d[..4] + "-", d[5..7]);
    RemoveDashesAppend(d[..4], "-");
    assert d[..4] == d[0..4];
    RemoveDashesOfDigits(d[..4]);
    RemoveDashesOfDigits(d[5..7]);
    RemoveDashesOfDigits(d[8..]);
    assert RemoveDashes("-") == [];
  }

  /** `${date.replaceAll("-", "")}_${sanitizeReceiptNo(receiptNo)}`. */
  function ReadTransactionId(date: string, receiptNo: string): string {
    RemoveDashes(date) + "_" + SanitizeReceiptNo(receiptNo)
  }

  /** The read path and the write path derive the same id: for a registered_at string the
      date part is its first ten characters. */
  lemma SameIdOnBothPaths(registeredAtJst: string, receiptNo: string)
    requires RegisteredAtShape(registeredAtJst)
    ensures ReadTransactionId(registeredAtJst[..10], receiptNo) ==
            T.WriteTransactionId(YyyymmddFromRegisteredAtJst(registeredAtJst).value, receiptNo)
  {
    var s := registeredAtJst;
    var d := s[..10];
    DateWithoutDashes(d);
    var y := YyyymmddFromRegisteredAtJst(s).value;
    assert d[..4] == s[..4] && d[5..7] == s[5..7] && d[8..] == s[8..10];
    assert y == y[..4] + y[4..6] + y[6..];
  }

  function ItemOf(row: ItemRow): ReceiptItem {
    ReceiptItem(row.product_name, row.qty, row.price_excl, row.line_amount_excl, row.tax_rate)
  }

  /** The selected columns of each row, in row order. */
  function ItemsOf(rows: seq<ItemRow>): (items: seq<ReceiptItem>)
    ensures |items| == |rows|
    ensures forall k :: 0 <= k < |rows| ==> items[k] == ItemOf(rows[k])
  {
    seq(|rows|, k requires 0 <= k < |rows| => ItemOf(rows[k]))
  }

  /** The two-entry `tax_summary`, copied from the header's stored totals. */
  function TaxSummary(t: Totals): (lines: seq<TaxLine>)
    ensures |lines| == 2 && lines[0].tax_rate == 8 && lines[1].tax_rate == 10
    ensures lines[0].subtotal_excl == t.subtotal_excl_8 && lines[0].tax_amount == t.tax_8
    ensures lines[0].subtotal_incl == t.subtotal_incl_8
    ensures lines[1].subtotal_excl == t.subtotal_excl_10 && lines[1].tax_amount == t.tax_10
    ensures lines[1].subtotal_incl == t.subtotal_incl_10
  {
    [TaxLine(8, t.subtotal_excl_8, t.tax_8, t.subtotal_incl_8),
     TaxLine(10, t.subtotal_excl_10, t.tax_10, t.subtotal_incl_10)]
  }

  /** The handler `onRequest` for GET: `date` and `receipt_no` are the query parameters,
      `None` when absent. */
  function Read(s: StoreState, date: Option<string>, receiptNo: Option<string>): (r: ReadResponse)
    ensures var d, n := Trim(date.GetOr("")), Trim(receiptNo.GetOr(""));
      && (r == BadRequest(ParamsRequiredError) <==> d == [] || n == [])
      && (r == BadRequest(DateFormatError) <==> d != [] && n != [] && !IsDateLiteral(d))
      && (r.NotFound? <==> d != [] && n != [] && IsDateLiteral(d) && ReadTransactionId(d, n) !in s.headers)
      && (r.Found? <==> d != [] && n != [] && IsDateLiteral(d) && ReadTransactionId(d, n) in s.headers)
      && (r.Found? ==>
            var id := ReadTransactionId(d, n);
            var h := s.headers[id];
            r.receipt == Receipt(h.transaction_id, h.receipt_no, h.registered_at_jst,
                                 ItemsOf(RowsOf(s.rows, id)), TaxSummary(h.totals), h.totals.total_incl))
  {
    var d := Trim(date.GetOr(""));
    var n := Trim(receiptNo.GetOr(""));
    if d == [] || n == [] then BadRequest(ParamsRequiredError)
    else if !IsDateLiteral(d) then BadRequest(DateFormatError)
    else
      var id := ReadTransactionId(d, n);
      if id !in s.headers then NotFound
      else
        var h := s.headers[id];
        Found(Receipt(h.transaction_id, h.receipt_no, h.registered_at_jst,
                      ItemsOf(RowsOf(s.rows, id)), TaxSummary(h.totals), h.totals.total_incl))
  }

  /** The HTTP status of a lookup: 400 for missing parameters or a malformed date, 404 for
      an id without a header, 200 for a stored transaction. */
  lemma ReadStatus(s: StoreState, date: Option<string>, receiptNo: Option<string>)
    ensures var d, n, r := Trim(date.GetOr("")), Trim(receiptNo.GetOr("")), Read(s, date, receiptNo);
      && (r.Status() == 400 <==> d == [] || n == [] || !IsDateLiteral(d))
      && (r.Status() == 404 <==> d != [] && n != [] && IsDateLiteral(d) && ReadTransactionId(d, n) !in s.headers)
      && (r.Status() == 200 <==> d != [] && n != [] && IsDateLiteral(d) && ReadTransactionId(d, n) in s.headers)
  {
  }

  /** After a commit, reading the receipt by a date and receipt number that lead to the new
      id finds the stored header and exactly the committed items, in input order. */
  lemma ReadAfterCommit(s: StoreState, p: T.Prepared, createdAtUtc: string, date: string, receiptNo: string)
    requires Consistent(s) && p.transaction_id !in s.headers
    requires Trim(receiptNo) != [] && IsDateLiteral(Trim(date))
    requires ReadTransactionId(Trim(date), Trim(receiptNo)) == p.transaction_id
    ensures var r := Read(T.Commit(s, p, createdAtUtc), Some(date), Some(receiptNo));
      && r == Found(Receipt(p.transaction_id, p.receipt_no, p.registered_at_jst,
                            ItemsOf(T.RowsFor(p.transaction_id, p.items, createdAtUtc)),
                            TaxSummary(p.totals), p.totals.total_incl))
      && |r.receipt.items| == |p.items|
      && forall k :: 0 <= k < |p.items| ==>
           r.receipt.items[k] == ReceiptItem(p.items[k].product_name, p.items[k].qty, p.items[k].price_excl,
                                             p.items[k].line_amount_excl, p.items[k].tax_rate)
  {
    var id := p.transaction_id;
    var next := T.Commit(s, p, createdAtUtc);
    var added := T.RowsFor(id, p.items, createdAtUtc);
    var r := Read(next, Some(date), Some(receiptNo));
    assert r == Found(Receipt(p.transaction_id, p.receipt_no, p.registered_at_jst, ItemsOf(added),
                              TaxSummary(p.totals), p.totals.total_incl)) by {
      NewIdHasOnlyCommittedRows(s, p, createdAtUtc);
      assert next.headers[id] == T.HeaderOf(p, createdAtUtc);
    }
  }

  /** In a consistent store an id without a header has no rows, so after the commit its rows
      are exactly the committed ones. */
  lemma NewIdHasOnlyCommittedRows(s: StoreState, p: T.Prepared, createdAtUtc: string)
    requires Consistent(s) && p.transaction_id !in s.headers
    ensures RowsOf(T.Commit(s, p, createdAtUtc).rows, p.transaction_id) ==
            T.RowsFor(p.transaction_id, p.items, createdAtUtc)
  {
    var id := p.transaction_id;
    var added := T.RowsFor(id, p.items, createdAtUtc);
    assert T.Commit(s, p, createdAtUtc).rows == s.rows + added;
    assert RowsOf(s.rows, id) == [] by {
      forall k | 0 <= k < |s.rows| ensures s.rows[k].transaction_id != id {
      }
      RowsOfNone(s.rows, id);
    }
    assert RowsOf(added, id) == added by {
      RowsOfAll(added, id);
    }
    RowsOfAppend(s.rows, added, id);
    assert [] + added == added;
  }

  /** A receipt registered through POST /api/transactions can be read back with the date
      part of its registered_at_jst and its receipt number. */
  lemma ReadAfterWrite(s: StoreState, body: T.BodyIn, createdAtUtc: string, date: string, receiptNo: string)
    requires Consistent(s)
    requires T.RegisterStep(s, body, createdAtUtc, None).response.Registered?
    requires Trim(date) == Trim(body.registered_at_jst.s)[..10]
    requires Trim(receiptNo) == Trim(body.receipt_no.s)
    ensures var p := T.Prepare(body).value;
      Read(T.RegisterStep(s, body, createdAtUtc, None).state, Some(date), Some(receiptNo)) ==
        Found(Receipt(p.transaction_id, p.receipt_no, p.registered_at_jst,
                      ItemsOf(T.RowsFor(p.transaction_id, p.items, createdAtUtc)),
                      TaxSummary(p.totals), p.totals.total_incl))
  {
    T.SuccessfulRegistration(s, body, createdAtUtc, None);
    var p := T.Prepare(body).value;
    SameIdOnBothPaths(p.registered_at_jst, p.receipt_no);
    IdArgumentsReadBack(p, date, receiptNo);
    ReadAfterCommit(s, p, createdAtUtc, date, receiptNo);
  }

  lemma IdArgumentsReadBack(p: T.Prepared, date: string, receiptNo: string)
    requires RegisteredAtShape(p.registered_at_jst) && p.receipt_no != []
    requires Trim(date) == p.registered_at_jst[..10] && Trim(receiptNo) == p.receipt_no
    ensures Trim(receiptNo) != [] && IsDateLiteral(Trim(date))
  {
  }

  /** The tax summary of a registered transaction adds up to its total. */
  lemma TaxSummaryAddsUp(items: seq<T.Item>)
    ensures var t := T.ComputeTotals(items); var lines := TaxSummary(t);
      lines[0].subtotal_incl + lines[1].subtotal_incl == t.total_incl
      && lines[0].subtotal_excl + lines[0].tax_amount == lines[0].subtotal_incl
      && lines[1].subtotal_excl + lines[1].tax_amount == lines[1].subtotal_incl
  {
  }
}
