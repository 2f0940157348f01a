/** scripts/seed_products.js: turn the parsed records of the product master into an SQL script
    of `INSERT OR REPLACE INTO products` lines between `BEGIN;` and `COMMIT;`, one line per
    record that passes the filter, in record order. */
module SeedProducts {
  import opened Wrappers
  import opened Text
  import opened Shared
  import opened SeedSql

  const CodeColumn := "商品コード"
  const CategoryColumn := "商品分類"
  const NameColumn := "商品名"
  const CostColumn := "POS原価"
  const PriceColumn := "売価（抜）"
  const RateColumn := "税率"

  // ---------------------------------------------------------------------------------------
  // Cell conversions
  // ---------------------------------------------------------------------------------------

  /** `s.replace(/,/g, "")`: the thousands separators removed, everything else kept. */
  function RemoveCommas(s: string): (r: string)
    ensures |r| <= |s|
    ensures forall k :: 0 <= k < |r| ==> r[k] != ','
    ensures (forall k :: 0 <= k < |s| ==> s[k] != ',') ==> r == s
  {
    if s == [] then [] else (if s[0] == ',' then [] else [s[0]]) + RemoveCommas(s[1..])
  }

  /** `toIntOrNull`: a blank cell is null; otherwise the cell without commas goes to `number`,
      which stands for `Math.trunc(Number(t))` when that is finite and for None otherwise. */
  function ToIntOrNull(v: string, number: string -> Option<int>): (r: Option<int>)
    ensures Trim(v) == [] ==> r == None
  {
    var s := Trim(v);
    if s == [] then None else number(RemoveCommas(s))
  }

  /** Thousands separators do not change the number a cell reads as. */
  lemma ToIntOrNullIgnoresCommas(a: string, b: string, number: string -> Option<int>)
    requires Trim(a) != [] && Trim(b) != []
    requires RemoveCommas(Trim(a)) == RemoveCommas(Trim(b))
    ensures ToIntOrNull(a, number) == ToIntOrNull(b, number)
  {
  }

  /** The spellings of 8 % that are accepted as written. */
  predicate IsEightSpelling(s: string) {
    s == "8" || s == "8%" || s == "0.08" || s == "0.080" || s == "8.0"
  }

  /** The spellings of 10 % that are accepted as written. */
  predicate IsTenSpelling(s: string) {
    s == "10" || s == "10%" || s == "0.1" || s == "0.10" || s == "0.100" || s == "10.0"
  }

  /** `toTaxRate`: blank is null, the listed spellings are 8 or 10, and any other text goes
      to `numeric`, which stands for the floating-point fallback (8 or 10 when `Number(s)` is
      8, 10, or within 1e-9 of 0.08 or 0.10, None otherwise). */
  function ToTaxRate(v: string, numeric: string -> Option<TaxRate>): (r: Option<TaxRate>)
    ensures Trim(v) == [] ==> r == None
    ensures IsEightSpelling(Trim(v)) ==> r == Some(8)
    ensures IsTenSpelling(Trim(v)) ==> r == Some(10)
  {
    var s := Trim(v);
    if s == [] then None
    else if IsEightSpelling(s) then Some(8)
    else if IsTenSpelling(s) then Some(10)
    else numeric(s)
  }

  /** A listed spelling decides the rate whatever the numeric fallback says, and no spelling
      is listed for both rates. */
  lemma SpellingsDecideRate(v: string, f: string -> Option<TaxRate>, g: string -> Option<TaxRate>)
    requires IsEightSpelling(Trim(v)) || IsTenSpelling(Trim(v))
    ensures ToTaxRate(v, f) == ToTaxRate(v, g)
    ensures !(IsEightSpelling(Trim(v)) && IsTenSpelling(Trim(v)))
  {
  }

  // ---------------------------------------------------------------------------------------
  // Record filter
  // ---------------------------------------------------------------------------------------

  /** The values one accepted record contributes to its INSERT line. */
  datatype ProductRow = ProductRow(
    code: string, category: string, name: string, cost: Option<int>, priceExcl: int, rate: TaxRate)

  /** Lines 65-78: the trimmed code is 1-13 digits, the trimmed name is non-empty, the price
      reads as a number and the rate is 8 or 10. */
  predicate Accepted(r: Record, number: string -> Option<int>, numeric: string -> Option<TaxRate>) {
    && IsProductCode(Trim(Field(r, CodeColumn)))
    && Trim(Field(r, NameColumn)) != []
    && ToIntOrNull(Field(r, PriceColumn), number).Some?
    && ToTaxRate(Field(r, RateColumn), numeric).Some?
  }

  /** The row a record contributes, if it passes the filter. */
  function RowOf(r: Record, number: string -> Option<int>, numeric: string -> Option<TaxRate>)
    : Option<ProductRow>
  {
    var code := Trim(Field(r, CodeColumn));
    if code == [] || !IsProductCode(code) then None
    else
      var name := Trim(Field(r, NameColumn));
      if name == [] then None
      else
        var priceExcl := ToIntOrNull(Field(r, PriceColumn), number);
        if priceExcl.None? then None
        else
          var rate := ToTaxRate(Field(r, RateColumn), numeric);
          if rate.None? then None
          else
            var cost := ToIntOrNull(Field(r, CostColumn), number);
            Some(ProductRow(code, Trim(Field(r, CategoryColumn)), name, cost, priceExcl.value, rate.value))
  }

  /** A record yields a row exactly when it passes the filter, and the row holds the trimmed
      code, category and name and the converted cost, price and rate. */
  lemma RowOfAccepted(r: Record, number: string -> Option<int>, numeric: string -> Option<TaxRate>)
    ensures RowOf(r, number, numeric).Some? <==> Accepted(r, number, numeric)
    ensures RowOf(r, number, numeric).Some? ==>
      var p := RowOf(r, number, numeric).value;
      && p.code == Trim(Field(r, CodeColumn)) && IsProductCode(p.code)
      && p.category == Trim(Field(r, CategoryColumn))
      && p.name == Trim(Field(r, NameColumn)) && p.name != []
      && p.cost == ToIntOrNull(Field(r, CostColumn), number)
      && Some(p.priceExcl) == ToIntOrNull(Field(r, PriceColumn), number)
      && Some(p.rate) == ToTaxRate(Field(r, RateColumn), numeric)
  {
  }

  // ---------------------------------------------------------------------------------------
  // SQL lines
  // ---------------------------------------------------------------------------------------

  /** `costSql`: the literal NULL for a missing cost, the decimal number otherwise. */
  function CostSql(cost: Option<int>): (t: string)
    ensures t == "NULL" <==> cost.None?
  {
    if cost.None? then "NULL" else IntToDecimal(cost.value)
  }

  const InsertHead :=
    "INSERT OR REPLACE INTO products (product_code, product_category, product_name, pos_cost, price_excl, tax_rate, updated_at_utc) VALUES ("

  /** The statement one accepted record becomes, stamped with the run's `now`. */
  function InsertLine(p: ProductRow, now: string): string
  {
    InsertHead + "'" + Escape(p.code) + AfterCode(p, now)
  }

  /** The rest of the statement after the product code. */
  function AfterCode(p: ProductRow, now: string): string
  {
    "', '" + Escape(p.category) + "', '" + Escape(p.name) + "', " + CostSql(p.cost) + ", "
      + IntToDecimal(p.priceExcl) + ", " + IntToDecimal(p.rate) + ", '" + now + "');"
  }

  /** The product code sits right after the fixed head and an opening quote, escaped, so an
      SQL reader gets the code back exactly and the literal closes right after it. */
  lemma InsertLineCarriesCode(p: ProductRow, now: string)
    ensures var l := InsertLine(p, now); var h := |InsertHead| + 1; var e := h + |Escape(p.code)|;
      && e < |l| && l[..h] == InsertHead + "'"
      && Unescape(l[h..e]) == p.code && QuotesPaired(l[h..e])
      && l[e] == '\''
  {
    var tail := AfterCode(p, now);
    assert tail[0] == '\'';
    assert InsertLine(p, now) == (InsertHead + "'") + Escape(p.code) + tail;
    ThreeParts(InsertHead + "'", Escape(p.code), tail);
    UnescapeEscape(p.code);
    EscapePairsQuotes(p.code);
  }

  /** What each record contributes, record by record. */
  function RowsOfEach(records: seq<Record>, number: string -> Option<int>,
                      numeric: string -> Option<TaxRate>): (o: seq<Option<ProductRow>>)
    ensures |o| == |records|
  {
    seq(|records|, k requires 0 <= k < |records| => RowOf(records[k], number, numeric))
  }

  /** The rows of the accepted records, in record order. */
  function Rows(records: seq<Record>, number: string -> Option<int>,
                numeric: string -> Option<TaxRate>): seq<ProductRow>
  {
    Keep(RowsOfEach(records, number, numeric))
  }

  /** One INSERT line per row. */
  function Render(rows: seq<ProductRow>, now: string): (ls: seq<string>)
    ensures |ls| == |rows|
    ensures forall k :: 0 <= k < |rows| ==> ls[k] == InsertLine(rows[k], now)
  {
    seq(|rows|, k requires 0 <= k < |rows| => InsertLine(rows[k], now))
  }

  /** The whole script the loop writes. */
  function Script(records: seq<Record>, now: string, number: string -> Option<int>,
                  numeric: string -> Option<TaxRate>): seq<string>
  {
    ["BEGIN;"] + Render(Rows(records, number, numeric), now) + ["COMMIT;"]
  }

  lemma RowsOfEachAppend(a: seq<Record>, b: seq<Record>,
                         number: string -> Option<int>, numeric: string -> Option<TaxRate>)
    ensures RowsOfEach(a + b, number, numeric) == RowsOfEach(a, number, numeric) + RowsOfEach(b, number, numeric)
  {
    var l := RowsOfEach(a + b, number, numeric);
    var r := RowsOfEach(a, number, numeric) + RowsOfEach(b, number, numeric);
    forall k | 0 <= k < |l| ensures l[k] == r[k] {
      if k < |a| {
        assert (a + b)[k] == a[k];
      } else {
        assert (a + b)[k] == b[k - |a|];
      }
    }
  }

  /** The filter looks at each record alone: the rows of a concatenation are the rows of
      its parts, in order. */
  lemma RowsAppend(a: seq<Record>, b: seq<Record>,
                   number: string -> Option<int>, numeric: string -> Option<TaxRate>)
    ensures Rows(a + b, number, numeric) == Rows(a, number, numeric) + Rows(b, number, numeric)
  {
    RowsOfEachAppend(a, b, number, numeric);
    KeepAppend(RowsOfEach(a, number, numeric), RowsOfEach(b, number, numeric));
  }

  /** A single record gives its row when it passes the filter and nothing otherwise. */
  lemma RowsOfOne(r: Record, number: string -> Option<int>, numeric: string -> Option<TaxRate>)
    ensures Accepted(r, number, numeric) ==> Rows([r], number, numeric) == [RowOf(r, number, numeric).value]
    ensures !Accepted(r, number, numeric) ==> Rows([r], number, numeric) == []
  {
    RowOfAccepted(r, number, numeric);
    RowsOfEachOne(r, number, numeric);
    KeepOne(RowOf(r, number, numeric));
  }

  /** Every row is the contribution of some record of the input. */
  lemma RowsFromRecords(records: seq<Record>, number: string -> Option<int>,
                        numeric: string -> Option<TaxRate>)
    ensures forall p :: p in Rows(records, number, numeric) ==> Some(p) in RowsOfEach(records, number, numeric)
  {
    KeepFrom(RowsOfEach(records, number, numeric));
  }

  /** When every record passes the filter, each gives one row. */
  lemma AllAcceptedAllKept(records: seq<Record>, number: string -> Option<int>,
                           numeric: string -> Option<TaxRate>)
    requires forall j :: 0 <= j < |records| ==> Accepted(records[j], number, numeric)
    ensures |Rows(records, number, numeric)| == |records|
  {
    var o := RowsOfEach(records, number, numeric);
    forall j | 0 <= j < |records| ensures o[j].Some? {
      RowOfAccepted(records[j], number, numeric);
    }
    KeepFrom(o);
  }

  /** `BEGIN;` opens the script, `COMMIT;` closes it and every line strictly between is the
      INSERT of one row, in order. */
  lemma ScriptFraming(records: seq<Record>, now: string, number: string -> Option<int>,
                      numeric: string -> Option<TaxRate>)
    ensures var s := Script(records, now, number, numeric); var rows := Rows(records, number, numeric);
      && |s| == |rows| + 2
      && s[0] == "BEGIN;" && s[|s| - 1] == "COMMIT;"
      && forall k :: 0 < k < |s| - 1 ==> s[k] == InsertLine(rows[k - 1], now)
  {
    var rows := Rows(records, number, numeric);
    var body := Render(rows, now);
    Framing(body);
    assert Script(records, now, number, numeric) == ["BEGIN;"] + body + ["COMMIT;"];
  }

  lemma RowsOfEachOne(r: Record, number: string -> Option<int>, numeric: string -> Option<TaxRate>)
    ensures RowsOfEach([r], number, numeric) == [RowOf(r, number, numeric)]
  {
  }

  lemma RowsOfEachSnoc(records: seq<Record>, i: nat, number: string -> Option<int>,
                       numeric: string -> Option<TaxRate>)
    requires i < |records|
    ensures RowsOfEach(records[..i + 1], number, numeric)
      == RowsOfEach(records[..i], number, numeric) + [RowOf(records[i], number, numeric)]
  {
    assert records[..i + 1] == records[..i] + [records[i]];
    RowsOfEachAppend(records[..i], [records[i]], number, numeric);
    RowsOfEachOne(records[i], number, numeric);
  }

  /** The loop's step for a record the filter drops. */
  lemma SkipStep(records: seq<Record>, i: nat, number: string -> Option<int>,
                 numeric: string -> Option<TaxRate>)
    requires i < |records| && RowOf(records[i], number, numeric).None?
    ensures Rows(records[..i + 1], number, numeric) == Rows(records[..i], number, numeric)
  {
    RowsOfEachSnoc(records, i, number, numeric);
    KeepSnoc(RowsOfEach(records[..i], number, numeric), RowOf(records[i], number, numeric));
  }

  /** The loop's step for a record the filter keeps: its row comes after the others. */
  lemma KeepStep(records: seq<Record>, i: nat, number: string -> Option<int>,
                 numeric: string -> Option<TaxRate>, p: ProductRow)
    requires i < |records| && RowOf(records[i], number, numeric) == Some(p)
    ensures Rows(records[..i + 1], number, numeric) == Rows(records[..i], number, numeric) + [p]
  {
    RowsOfEachSnoc(records, i, number, numeric);
    KeepSnoc(RowsOfEach(records[..i], number, numeric), RowOf(records[i], number, numeric));
  }

  /** The loop's append: the line of one more row comes after the lines already written. */
  lemma LinesSnoc(lines: seq<string>, rows: seq<ProductRow>, p: ProductRow, now: string)
    requires lines == ["BEGIN;"] + Render(rows, now)
    ensures lines + [InsertLine(p, now)] == ["BEGIN;"] + Render(rows + [p], now)
  {
    RenderSnoc(rows, p, now);
  }

  lemma RenderSnoc(rows: seq<ProductRow>, p: ProductRow, now: string)
    ensures Render(rows + [p], now) == Render(rows, now) + [InsertLine(p, now)]
  {
    var l := Render(rows + [p], now);
    var r := Render(rows, now) + [InsertLine(p, now)];
    forall k | 0 <= k < |l| ensures l[k] == r[k] {
      if k < |rows| {
        assert (rows + [p])[k] == rows[k];
      } else {
        assert (rows + [p])[k] == p;
      }
    }
  }

  // ---------------------------------------------------------------------------------------
  // The main loop (lines 59-89)
  // ---------------------------------------------------------------------------------------

  /** The checks of one pass of the loop (lines 65-80), in the source's order: a record that
      fails one is passed over. */
  method CheckRecord(r: Record, number: string -> Option<int>, numeric: string -> Option<TaxRate>)
    returns (row: Option<ProductRow>)
    ensures row == RowOf(r, number, numeric)
  {
    var code := Trim(Field(r, CodeColumn));
    if code == [] {
      return None;
    }
    if !IsProductCode(code) {
      return None;
    }
    var cat := Trim(Field(r, CategoryColumn));
    var name := Trim(Field(r, NameColumn));
    if name == [] {
      return None;
    }
    var cost := ToIntOrNull(Field(r, CostColumn), number);
    var priceExcl := ToIntOrNull(Field(r, PriceColumn), number);
    if priceExcl.None? {
      return None;
    }
    var rate := ToTaxRate(Field(r, RateColumn), numeric);
    if rate.None? {
      return None;
    }
    return Some(ProductRow(code, cat, name, cost, priceExcl.value, rate.value));
  }

  /** Builds the script line by line, as the loop of the source does, and counts the rows;
      `now` is the run's timestamp. */
  method SeedProductsSql(records: seq<Record>, now: string, number: string -> Option<int>,
                         numeric: string -> Option<TaxRate>) returns (lines: seq<string>, count: nat)
    ensures lines == Script(records, now, number, numeric)
    ensures count == |Rows(records, number, numeric)|
  {
    lines := ["BEGIN;"];
    count := 0;
    ghost var rows: seq<ProductRow> := [];
    for i := 0 to |records|
      invariant rows == Rows(records[..i], number, numeric)
      invariant lines == ["BEGIN;"] + Render(rows, now)
      invariant count == |rows|
    {
      var row := CheckRecord(records[i], number, numeric);
      if row.None? {
        SkipStep(records, i, number, numeric);
        continue;
      }
      KeepStep(records, i, number, numeric, row.value);
      LinesSnoc(lines, rows, row.value, now);
      rows := rows + [row.value];
      lines := lines + [InsertLine(row.value, now)];
      count := count + 1;
    }
    assert records[..|records|] == records;
    lines := lines + ["COMMIT;"];
  }
}
