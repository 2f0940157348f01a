/** POST /api/transactions (functions/api/transactions.ts): validate the body, derive the
    transaction id, aggregate tax per rate bucket, reject duplicates and write the header and
    its item rows in one batch. */
module Transactions {
  import opened Wrappers
  import opened Text
  import opened Shared
  import opened Store

  // ---------------------------------------------------------------------------------------
  // Request body

  /** One element of `items` as it arrives; an absent field is `Undefined`. */
  datatype ItemIn = ItemIn(
    product_code: Value, product_category: Value, product_name: Value, pos_cost: Value,
    price_excl: Value, tax_rate: Value, qty: Value)

  /** The `items` field: an array, or anything `Array.isArray` rejects. */
  datatype ItemsIn = NotAnArray | Elements(elems: seq<ItemIn>)

  datatype BodyIn = BodyIn(receipt_no: Value, registered_at_jst: Value, cashier_name: Value, items: ItemsIn)

  /** A validated line item. */
  datatype Item = Item(
    product_code: string, product_category: Option<string>, product_name: string,
    pos_cost: Option<int>, price_excl: int, tax_rate: TaxRate, qty: int, line_amount_excl: int)

  // ---------------------------------------------------------------------------------------
  // Item validation (transactions.ts:58-85)

  function ItemPrefix(idx: nat): string {
    "items[" + NatToDecimal(idx) + "]"
  }

  /** The field name `items[<idx>].<name>` used in error messages. */
  function ItemField(idx: nat, name: string): (f: string)
    ensures ItemPrefix(idx) <= f
  {
    ItemPrefix(idx) + "." + name
  }

  lemma PrefixOfAppend(p: string, f: string, suffix: string)
    requires p <= f
    ensures p <= f + suffix
  {
    assert (f + suffix)[..|p|] == f[..|p|];
  }

  /** An input item that passes every check. */
  predicate ItemAcceptable(it: ItemIn) {
    && it.product_code.Str? && IsProductCode(Trim(it.product_code.s))
    && IsNonBlankString(it.product_name)
    && it.price_excl.Int? && it.price_excl.n >= 0
    && it.qty.Int? && it.qty.n >= 1
    && (it.tax_rate == Int(8) || it.tax_rate == Int(10))
    && (it.pos_cost.Null? || it.pos_cost.Undefined? || it.pos_cost.Int?)
  }

  /** The invariants of a stored line item. */
  predicate WellFormedItem(i: Item) {
    && IsProductCode(i.product_code) && i.product_name != []
    && i.qty >= 1 && i.price_excl >= 0
    && i.line_amount_excl == i.price_excl * i.qty
  }

  /** The validated item carries the input's values, trimmed where the source trims. */
  predicate ItemFromInput(i: Item, it: ItemIn) {
    && it.product_code.Str? && i.product_code == Trim(it.product_code.s)
    && it.product_name.Str? && i.product_name == Trim(it.product_name.s)
    && i.product_category == (if it.product_category.Str? then Some(it.product_category.s) else None)
    && (i.pos_cost.None? <==> it.pos_cost.Null? || it.pos_cost.Undefined?)
    && (i.pos_cost.Some? ==> it.pos_cost == Int(i.pos_cost.value))
    && it.price_excl == Int(i.price_excl) && it.qty == Int(i.qty) && it.tax_rate == Int(i.tax_rate)
  }

  /** `pos_cost`: null when null or absent, otherwise it must be an integer. */
  function AsOptionalInt(v: Value, field: string): (r: Result<Option<int>>)
    ensures r.Ok? <==> v.Null? || v.Undefined? || v.Int?
    ensures r.Ok? ==> (r.value.None? <==> v.Null? || v.Undefined?)
    ensures r.Ok? && r.value.Some? ==> v == Int(r.value.value)
    ensures r.Err? ==> r.error == NotInteger(field)
  {
    if v.Null? || v.Undefined? then Ok(None)
    else
      var c :- AsInt(v, field);
      Ok(Some(c))
  }

  /** The callback of `body.items.map`: the checks of one item, in the source's order. */
  function ValidateItem(it: ItemIn, idx: nat): (r: Result<Item>)
    ensures r.Ok? <==> ItemAcceptable(it)
    ensures r.Ok? ==> WellFormedItem(r.value) && ItemFromInput(r.value, it)
    ensures r.Err? ==> ItemPrefix(idx) <= r.error
  {
    var codeField, nameField := ItemField(idx, "product_code"), ItemField(idx, "product_name");
    var priceField, qtyField := ItemField(idx, "price_excl"), ItemField(idx, "qty");
    var rateField, costField := ItemField(idx, "tax_rate"), ItemField(idx, "pos_cost");
    PrefixOfAppend(ItemPrefix(idx), codeField, " is required");
    PrefixOfAppend(ItemPrefix(idx), codeField, " must be 1-13 digits");
    PrefixOfAppend(ItemPrefix(idx), nameField, " is required");
    PrefixOfAppend(ItemPrefix(idx), priceField, " must be an integer");
    PrefixOfAppend(ItemPrefix(idx), priceField, " must be >= 0");
    PrefixOfAppend(ItemPrefix(idx), qtyField, " must be an integer");
    PrefixOfAppend(ItemPrefix(idx), qtyField, " must be >= 1");
    PrefixOfAppend(ItemPrefix(idx), rateField, " must be an integer");
    PrefixOfAppend(ItemPrefix(idx), rateField, " must be 8 or 10");
    PrefixOfAppend(ItemPrefix(idx), costField, " must be an integer");
    var productCode :- AsNonEmptyString(it.product_code, codeField);
    if !IsProductCode(productCode) then Err(codeField + " must be 1-13 digits")
    else
      var productName :- AsNonEmptyString(it.product_name, nameField);
      var productCategory := if it.product_category.Str? then Some(it.product_category.s) else None;
      var priceExcl :- AsInt(it.price_excl, priceField);
      var qty :- AsInt(it.qty, qtyField);
      if qty < 1 then Err(qtyField + " must be >= 1")
      else if priceExcl < 0 then Err(priceField + " must be >= 0")
      else
        var taxRate :- AsTaxRate(it.tax_rate, rateField);
        var posCost :- AsOptionalInt(it.pos_cost, costField);
        Ok(Item(productCode, productCategory, productName, posCost, priceExcl, taxRate, qty, priceExcl * qty))
  }

  /** The results of the `map` callback, one per element, each knowing its index. */
  function ValidateEach(elems: seq<ItemIn>): (rs: seq<Result<Item>>)
    ensures |rs| == |elems|
    ensures forall j :: 0 <= j < |elems| ==> rs[j] == ValidateItem(elems[j], j)
  {
    seq(|elems|, j requires 0 <= j < |elems| => ValidateItem(elems[j], j))
  }

  /** The values of a list of results in order, or the error of the first that failed. */
  function Collect<T>(rs: seq<Result<T>>): (r: Result<seq<T>>)
    ensures r.Ok? <==> forall j :: 0 <= j < |rs| ==> rs[j].Ok?
    ensures r.Ok? ==> |r.value| == |rs| && forall j :: 0 <= j < |rs| ==> rs[j] == Ok(r.value[j])
    ensures r.Err? ==> exists j :: 0 <= j < |rs| && rs[j] == Err(r.error)
                                   && forall i :: 0 <= i < j ==> rs[i].Ok?
  {
    if rs == [] then Ok([])
    else
      match rs[0]
      case Err(e) => Err(e)
      case Ok(v) =>
        match Collect(rs[1..])
        case Err(e) =>
          assert forall j :: 1 <= j < |rs| ==> rs[j] == rs[1..][j - 1];
          Err(e)
        case Ok(rest) => Ok([v] + rest)
  }

  /** `body.items.map(...)`: the validated items in input order, or the message of the first
      item that fails (the callback throws, so the first failing element ends the `map`). */
  function ValidateItems(elems: seq<ItemIn>): (r: Result<seq<Item>>)
    ensures r.Ok? <==> forall k :: 0 <= k < |elems| ==> ItemAcceptable(elems[k])
    ensures r.Ok? ==> |r.value| == |elems|
    ensures r.Ok? ==> forall k :: 0 <= k < |elems| ==> ValidateItem(elems[k], k) == Ok(r.value[k])
    ensures r.Err? ==> exists j :: 0 <= j < |elems| && ValidateItem(elems[j], j) == Err(r.error)
                                   && forall i :: 0 <= i < j ==> ValidateItem(elems[i], i).Ok?
  {
    Collect(ValidateEach(elems))
  }

  /** Checking quantity comes before checking price: an item with both wrong reports the
      quantity. */
  lemma QtyCheckedBeforePrice(it: ItemIn, idx: nat)
    requires it.product_code.Str? && IsProductCode(Trim(it.product_code.s))
    requires IsNonBlankString(it.product_name)
    requires it.qty == Int(0) && it.price_excl == Int(-1)
    ensures ValidateItem(it, idx) == Err(ItemField(idx, "qty") + " must be >= 1")
  {
  }

  /** The product code passed its two checks. */
  predicate CodeChecked(it: ItemIn) {
    IsNonBlankString(it.product_code) && IsProductCode(Trim(it.product_code.s))
  }

  /** The checks up to the product name passed. */
  predicate NameChecked(it: ItemIn) {
    CodeChecked(it) && IsNonBlankString(it.product_name)
  }

  /** The checks up to the two amounts passed. */
  predicate AmountsChecked(it: ItemIn) {
    && NameChecked(it) && it.price_excl.Int? && it.qty.Int?
    && it.qty.n >= 1 && it.price_excl.n >= 0
  }

  /** The checks of one item run in the source's order, and the first one that fails gives
      the message: code required, code 1-13 digits, name required, price an integer, qty an
      integer, qty >= 1, price >= 0, tax_rate an integer, tax_rate 8 or 10, pos_cost an
      integer. */
  lemma ItemValidationOrder(it: ItemIn, idx: nat)
    ensures !IsNonBlankString(it.product_code) ==>
      ValidateItem(it, idx) == Err(Required(ItemField(idx, "product_code")))
    ensures IsNonBlankString(it.product_code) && !IsProductCode(Trim(it.product_code.s)) ==>
      ValidateItem(it, idx) == Err(ItemField(idx, "product_code") + " must be 1-13 digits")
    ensures CodeChecked(it) && !IsNonBlankString(it.product_name) ==>
      ValidateItem(it, idx) == Err(Required(ItemField(idx, "product_name")))
    ensures NameChecked(it) && !it.price_excl.Int? ==>
      ValidateItem(it, idx) == Err(NotInteger(ItemField(idx, "price_excl")))
    ensures NameChecked(it) && it.price_excl.Int? && !it.qty.Int? ==>
      ValidateItem(it, idx) == Err(NotInteger(ItemField(idx, "qty")))
    ensures NameChecked(it) && it.price_excl.Int? && it.qty.Int? && it.qty.n < 1 ==>
      ValidateItem(it, idx) == Err(ItemField(idx, "qty") + " must be >= 1")
    ensures NameChecked(it) && it.price_excl.Int? && it.qty.Int? && it.qty.n >= 1 && it.price_excl.n < 0 ==>
      ValidateItem(it, idx) == Err(ItemField(idx, "price_excl") + " must be >= 0")
    ensures AmountsChecked(it) && !it.tax_rate.Int? ==>
      ValidateItem(it, idx) == Err(NotInteger(ItemField(idx, "tax_rate")))
    ensures AmountsChecked(it) && it.tax_rate.Int? && it.tax_rate.n != 8 && it.tax_rate.n != 10 ==>
      ValidateItem(it, idx) == Err(NotTaxRate(ItemField(idx, "tax_rate")))
    ensures AmountsChecked(it) && (it.tax_rate == Int(8) || it.tax_rate == Int(10)) &&
            !(it.pos_cost.Null? || it.pos_cost.Undefined? || it.pos_cost.Int?) ==>
      ValidateItem(it, idx) == Err(NotInteger(ItemField(idx, "pos_cost")))
  {
  }

  // ---------------------------------------------------------------------------------------
  // Tax aggregation (transactions.ts:88-96)

  /** `items.filter(i => i.tax_rate === rate)`. */
  function Bucket(items: seq<Item>, rate: TaxRate): (b: seq<Item>)
    ensures |b| <= |items|
    ensures forall k :: 0 <= k < |b| ==> b[k].tax_rate == rate && b[k] in items
  {
    if items == [] then []
    else
      var init := Bucket(items[..|items| - 1], rate);
      assert forall x :: x in items[..|items| - 1] ==> x in items;
      var last := items[|items| - 1];
      if last.tax_rate == rate then init + [last] else init
  }

  /** `reduce((a, b) => a + b.line_amount_excl, 0)`. */
  function SumLineAmounts(items: seq<Item>): int {
    if items == [] then 0 else SumLineAmounts(items[..|items| - 1]) + items[|items| - 1].line_amount_excl
  }

  /** The two buckets split the items, so their subtotals add up to the sum of all lines. */
  lemma {:induction false} BucketsPartitionLines(items: seq<Item>)
    ensures SumLineAmounts(Bucket(items, 8)) + SumLineAmounts(Bucket(items, 10)) == SumLineAmounts(items)
  {
    if items != [] {
      var init, last := items[..|items| - 1], items[|items| - 1];
      BucketsPartitionLines(init);
      if last.tax_rate == 8 {
        assert (Bucket(init, 8) + [last])[..|Bucket(init, 8)|] == Bucket(init, 8);
      } else {
        assert (Bucket(init, 10) + [last])[..|Bucket(init, 10)|] == Bucket(init, 10);
      }
    }
  }

  /** A rate no item has gives an empty bucket. */
  lemma {:induction false} BucketWithoutRate(items: seq<Item>, rate: TaxRate)
    ensures (forall k :: 0 <= k < |items| ==> items[k].tax_rate != rate) ==> Bucket(items, rate) == []
  {
    if items != [] {
      BucketWithoutRate(items[..|items| - 1], rate);
    }
  }

  /** The filter looks at each item alone: the bucket of a concatenation is the buckets of
      its parts, in order. */
  lemma {:induction false} BucketAppend(a: seq<Item>, b: seq<Item>, rate: TaxRate)
    ensures Bucket(a + b, rate) == Bucket(a, rate) + Bucket(b, rate)
    decreases |b|
  {
    if b == [] {
      assert a + b == a;
    } else {
      var b' := b[..|b| - 1];
      assert (a + b)[..|a + b| - 1] == a + b';
      BucketAppend(a, b', rate);
    }
  }

  /** One item is kept exactly when it has the rate, so every item of the rate is kept, once,
      in place. */
  lemma BucketOfOne(i: Item, rate: TaxRate)
    ensures Bucket([i], rate) == if i.tax_rate == rate then [i] else []
  {
    assert [i][..0] == [];
  }

  lemma {:induction false} SumOfWellFormedIsNonNegative(items: seq<Item>)
    requires forall k :: 0 <= k < |items| ==> WellFormedItem(items[k])
    ensures SumLineAmounts(items) >= 0
  {
    if items != [] {
      SumOfWellFormedIsNonNegative(items[..|items| - 1]);
      var last := items[|items| - 1];
      assert last.price_excl * last.qty >= 0;
    }
  }

  /** The totals of a transaction: per bucket a subtotal, its tax rounded up once, and their
      sum; the grand total adds both buckets. */
  function ComputeTotals(items: seq<Item>): (t: Totals)
    ensures t.subtotal_excl_8 + t.subtotal_excl_10 == SumLineAmounts(items)
    ensures t.subtotal_excl_8 == SumLineAmounts(Bucket(items, 8))
    ensures t.subtotal_excl_10 == SumLineAmounts(Bucket(items, 10))
    ensures 100 * t.tax_8 >= 8 * t.subtotal_excl_8 > 100 * (t.tax_8 - 1)
    ensures 100 * t.tax_10 >= 10 * t.subtotal_excl_10 > 100 * (t.tax_10 - 1)
    ensures t.subtotal_incl_8 == t.subtotal_excl_8 + t.tax_8
    ensures t.subtotal_incl_10 == t.subtotal_excl_10 + t.tax_10
    ensures t.total_incl == t.subtotal_incl_8 + t.subtotal_incl_10
    ensures (forall k :: 0 <= k < |items| ==> items[k].tax_rate != 8) ==> t.subtotal_excl_8 == 0 && t.tax_8 == 0
    ensures (forall k :: 0 <= k < |items| ==> items[k].tax_rate != 10) ==> t.subtotal_excl_10 == 0 && t.tax_10 == 0
  {
    BucketsPartitionLines(items);
    BucketWithoutRate(items, 8);
    BucketWithoutRate(items, 10);
    var subtotalExcl8 := SumLineAmounts(Bucket(items, 8));
    var subtotalExcl10 := SumLineAmounts(Bucket(items, 10));
    var tax8 := CalcTaxCeil(subtotalExcl8, 8);
    var tax10 := CalcTaxCeil(subtotalExcl10, 10);
    var subtotalIncl8 := subtotalExcl8 + tax8;
    var subtotalIncl10 := subtotalExcl10 + tax10;
    Totals(subtotalExcl8, tax8, subtotalIncl8, subtotalExcl10, tax10, subtotalIncl10, subtotalIncl8 + subtotalIncl10)
  }

  /** Well-formed items never give a negative amount. */
  lemma TotalsNonNegative(items: seq<Item>)
    requires forall k :: 0 <= k < |items| ==> WellFormedItem(items[k])
    ensures var t := ComputeTotals(items);
      t.subtotal_excl_8 >= 0 && t.tax_8 >= 0 && t.subtotal_excl_10 >= 0 && t.tax_10 >= 0 && t.total_incl >= 0
  {
    forall r: TaxRate ensures forall k :: 0 <= k < |Bucket(items, r)| ==> WellFormedItem(Bucket(items, r)[k]) {
    }
    SumOfWellFormedIsNonNegative(Bucket(items, 8));
    SumOfWellFormedIsNonNegative(Bucket(items, 10));
  }

  /** 100 x 2 at 8% and 300 x 1 at 10%: 200 / 16 / 216 and 300 / 30 / 330, 546 in all. */
  lemma ExampleTotals(a: Item, b: Item)
    requires a.price_excl == 100 && a.qty == 2 && a.tax_rate == 8 && a.line_amount_excl == 200
    requires b.price_excl == 300 && b.qty == 1 && b.tax_rate == 10 && b.line_amount_excl == 300
    ensures ComputeTotals([a, b]) == Totals(200, 16, 216, 300, 30, 330, 546)
  {
    var t := ComputeTotals([a, b]);
    assert t.subtotal_excl_8 == 200 && t.subtotal_excl_10 == 300 by {
      BucketsOfPair(a, b);
    }
    assert t.tax_8 == 16 && t.tax_10 == 30;
  }

  lemma BucketsOfPair(a: Item, b: Item)
    requires a.tax_rate == 8 && b.tax_rate == 10
    ensures SumLineAmounts(Bucket([a, b], 8)) == a.line_amount_excl
    ensures SumLineAmounts(Bucket([a, b], 10)) == b.line_amount_excl
  {
    var items := [a, b];
    assert items[..1] == [a] && [a][..0] == [] && [b][..0] == [];
    assert Bucket(items, 8) == [a];
    assert Bucket(items, 10) == [b];
  }

  // ---------------------------------------------------------------------------------------
  // Identity (transactions.ts:53-55)

  /** `${yyyymmdd}_${sanitizeReceiptNo(receiptNo)}`. */
  function WriteTransactionId(yyyymmdd: string, receiptNo: string): string {
    yyyymmdd + "_" + SanitizeReceiptNo(receiptNo)
  }

  /** The date part has a fixed width, so the id determines both the date and the sanitized
      receipt number. */
  lemma TransactionIdInjective(d1: string, r1: string, d2: string, r2: string)
    requires |d1| == 8 && |d2| == 8
    ensures WriteTransactionId(d1, r1) == WriteTransactionId(d2, r2) <==>
            d1 == d2 && SanitizeReceiptNo(r1) == SanitizeReceiptNo(r2)
  {
    var a, b := WriteTransactionId(d1, r1), WriteTransactionId(d2, r2);
    if a == b {
      assert d1 == a[..8] && d2 == b[..8];
      assert SanitizeReceiptNo(r1) == a[9..] && SanitizeReceiptNo(r2) == b[9..];
    }
  }

  // ---------------------------------------------------------------------------------------
  // The whole body (transactions.ts:44-96)

  datatype Prepared = Prepared(
    transaction_id: string, yyyymmdd: string, receipt_no: string, registered_at_jst: string,
    cashier_name: string, items: seq<Item>, totals: Totals)

  /** A body every check accepts. */
  predicate BodyAcceptable(body: BodyIn) {
    && IsNonBlankString(body.receipt_no)
    && IsNonBlankString(body.registered_at_jst)
    && IsNonBlankString(body.cashier_name)
    && body.items.Elements? && |body.items.elems| > 0
    && RegisteredAtShape(Trim(body.registered_at_jst.s))
    && forall k :: 0 <= k < |body.items.elems| ==> ItemAcceptable(body.items.elems[k])
  }

  const ItemsRequiredError := "items must be a non-empty array"

  /** Lines 44-96: every check, the id and the totals, or the message of the first failure. */
  function Prepare(body: BodyIn): (r: Result<Prepared>)
    ensures r.Ok? <==> BodyAcceptable(body)
    ensures r.Ok? ==> var p := r.value;
      && p.receipt_no == Trim(body.receipt_no.s)
      && p.registered_at_jst == Trim(body.registered_at_jst.s)
      && p.cashier_name == Trim(body.cashier_name.s)
      && YyyymmddFromRegisteredAtJst(p.registered_at_jst) == Ok(p.yyyymmdd)
      && p.transaction_id == WriteTransactionId(p.yyyymmdd, p.receipt_no)
      && |body.items.elems| > 0 && ValidateItems(body.items.elems) == Ok(p.items)
      && p.totals == ComputeTotals(p.items)
  {
    var receiptNo :- AsNonEmptyString(body.receipt_no, "receipt_no");
    var registeredAtJst :- AsNonEmptyString(body.registered_at_jst, "registered_at_jst");
    var cashierName :- AsNonEmptyString(body.cashier_name, "cashier_name");
    if !body.items.Elements? || |body.items.elems| == 0 then Err(ItemsRequiredError)
    else
      var yyyymmdd :- YyyymmddFromRegisteredAtJst(registeredAtJst);
      var transactionId := WriteTransactionId(yyyymmdd, receiptNo);
      var items :- ValidateItems(body.items.elems);
      Ok(Prepared(transactionId, yyyymmdd, receiptNo, registeredAtJst, cashierName, items, ComputeTotals(items)))
  }

  /** The checks run in a fixed order and the first failure is the one reported. */
  lemma ValidationOrder(body: BodyIn)
    ensures !IsNonBlankString(body.receipt_no) ==> Prepare(body) == Err(Required("receipt_no"))
    ensures (IsNonBlankString(body.receipt_no) && !IsNonBlankString(body.registered_at_jst)) ==>
      Prepare(body) == Err(Required("registered_at_jst"))
    ensures (IsNonBlankString(body.receipt_no) && IsNonBlankString(body.registered_at_jst) &&
             !IsNonBlankString(body.cashier_name)) ==>
      Prepare(body) == Err(Required("cashier_name"))
    ensures (IsNonBlankString(body.receipt_no) && IsNonBlankString(body.registered_at_jst) &&
             IsNonBlankString(body.cashier_name) && !(body.items.Elements? && |body.items.elems| > 0)) ==>
      Prepare(body) == Err(ItemsRequiredError)
    ensures (IsNonBlankString(body.receipt_no) && IsNonBlankString(body.registered_at_jst) &&
             IsNonBlankString(body.cashier_name) && body.items.Elements? && |body.items.elems| > 0 &&
             !RegisteredAtShape(Trim(body.registered_at_jst.s))) ==>
      Prepare(body) == Err(RegisteredAtFormatError)
  {
  }

  /** Once the header fields pass, the message is that of the first item that fails, and it
      names that item's index. */
  lemma FirstFailingItemReported(body: BodyIn, j: nat)
    requires IsNonBlankString(body.receipt_no) && IsNonBlankString(body.registered_at_jst)
    requires IsNonBlankString(body.cashier_name) && body.items.Elements?
    requires RegisteredAtShape(Trim(body.registered_at_jst.s))
    requires j < |body.items.elems| && ValidateItem(body.items.elems[j], j).Err?
    requires forall i :: 0 <= i < j ==> ValidateItem(body.items.elems[i], i).Ok?
    ensures Prepare(body) == Err(ValidateItem(body.items.elems[j], j).error)
    ensures ItemPrefix(j) <= Prepare(body).error
  {
    FirstFailingItem(body.items.elems, j);
  }

  lemma FirstFailingItem(elems: seq<ItemIn>, j: nat)
    requires j < |elems| && ValidateItem(elems[j], j).Err?
    requires forall i :: 0 <= i < j ==> ValidateItem(elems[i], i).Ok?
    ensures ValidateItems(elems) == Err(ValidateItem(elems[j], j).error)
  {
    var v := ValidateItems(elems);
    assert v.Err?;
    var j' :| 0 <= j' < |elems| && ValidateItem(elems[j'], j') == Err(v.error)
              && forall i :: 0 <= i < j' ==> ValidateItem(elems[i], i).Ok?;
    assert j' == j;
  }

  // ---------------------------------------------------------------------------------------
  // Registration (transactions.ts:98-164)

  /** The handler's answer: 200 with the totals, 400 with a message, or 409. */
  datatype Response =
    | Registered(transaction_id: string, totals: Totals)
    | BadRequest(message: string)
    | AlreadyRegistered(transaction_id: string)
  {
    function Status(): int {
      match this
      case Registered(_, _) => 200
      case BadRequest(_) => 400
      case AlreadyRegistered(_) => 409
    }
  }

  /** The header row that functions/api/transactions.ts:113-126 binds into the transactions insert. */
  function HeaderOf(p: Prepared, createdAtUtc: string): Header {
    Header(p.transaction_id, p.yyyymmdd, p.receipt_no, p.registered_at_jst, p.cashier_name,
           p.totals, createdAtUtc)
  }

  /** The item row that functions/api/transactions.ts:130-143 binds into each transaction_items insert. */
  function RowOf(id: string, i: Item, createdAtUtc: string): ItemRow {
    ItemRow(id, i.product_code, i.product_category, i.product_name, i.pos_cost, i.price_excl,
            i.qty, i.line_amount_excl, i.tax_rate, createdAtUtc)
  }

  function RowsFor(id: string, items: seq<Item>, createdAtUtc: string): (rows: seq<ItemRow>)
    ensures |rows| == |items|
    ensures forall k :: 0 <= k < |items| ==> rows[k] == RowOf(id, items[k], createdAtUtc)
  {
    seq(|items|, k requires 0 <= k < |items| => RowOf(id, items[k], createdAtUtc))
  }

  function ItemStmts(rows: seq<ItemRow>): (stmts: seq<Stmt>)
    ensures |stmts| == |rows|
    ensures forall k :: 0 <= k < |rows| ==> stmts[k] == InsertItem(rows[k])
  {
    seq(|rows|, k requires 0 <= k < |rows| => InsertItem(rows[k]))
  }

  /** The batch `stmts`: the header insert, then one item insert per item in input order. */
  function Statements(p: Prepared, createdAtUtc: string): seq<Stmt> {
    [InsertHeader(HeaderOf(p, createdAtUtc))] + ItemStmts(RowsFor(p.transaction_id, p.items, createdAtUtc))
  }

  lemma {:induction false} ApplyItemStmts(s: StoreState, rows: seq<ItemRow>)
    ensures ApplyAll(s, ItemStmts(rows)) == s.(rows := s.rows + rows)
    decreases |rows|
  {
    if rows == [] {
      assert s.rows + rows == s.rows;
    } else {
      var stmts := ItemStmts(rows);
      assert stmts[1..] == ItemStmts(rows[1..]);
      ApplyItemStmts(Apply(s, stmts[0]), rows[1..]);
      assert s.rows + [rows[0]] + rows[1..] == s.rows + rows;
    }
  }

  /** The store after a committed registration: the header under its id and the item rows
      appended in order. */
  function Commit(s: StoreState, p: Prepared, createdAtUtc: string): StoreState {
    StoreState(s.headers[p.transaction_id := HeaderOf(p, createdAtUtc)],
               s.rows + RowsFor(p.transaction_id, p.items, createdAtUtc))
  }

  /** Running the batch statement by statement has exactly the effect of `Commit`. */
  lemma BatchEffect(s: StoreState, p: Prepared, createdAtUtc: string)
    ensures ApplyAll(s, Statements(p, createdAtUtc)) == Commit(s, p, createdAtUtc)
  {
    var h := HeaderOf(p, createdAtUtc);
    var stmts := Statements(p, createdAtUtc);
    assert stmts[1..] == ItemStmts(RowsFor(p.transaction_id, p.items, createdAtUtc));
    ApplyItemStmts(Apply(s, InsertHeader(h)), RowsFor(p.transaction_id, p.items, createdAtUtc));
  }

  datatype Step = Step(response: Response, state: StoreState)

  /** What the handler does once the body checks have produced `prepared`: 400 with the
      message, 409 for a stored id, 400 with the store's error, or the committed batch.
      `failure` is the error the store raises for the batch, if it raises one. */
  function Decide(s: StoreState, prepared: Result<Prepared>, createdAtUtc: string, failure: Option<string>): Step {
    match prepared
    case Err(m) => Step(BadRequest(m), s)
    case Ok(p) =>
      if p.transaction_id in s.headers then Step(AlreadyRegistered(p.transaction_id), s)
      else if failure.Some? then Step(BadRequest(failure.value), s)
      else Step(Registered(p.transaction_id, p.totals), Commit(s, p, createdAtUtc))
  }

  /** One registration as a transition of the store: the response and the store after it. */
  function RegisterStep(s: StoreState, body: BodyIn, createdAtUtc: string, failure: Option<string>): Step {
    Decide(s, Prepare(body), createdAtUtc, failure)
  }

  /** Lines 98-164 after the checks: the duplicate lookup, the batch built statement by
      statement (header first, then one insert per item), and the store's verdict. */
  method Persist(db: Database, p: Prepared, createdAtUtc: string, failure: Option<string>)
    returns (resp: Response)
    modifies db
    ensures Step(resp, db.State()) == Decide(old(db.State()), Ok(p), createdAtUtc, failure)
  {
    var existing := db.FindHeader(p.transaction_id);
    if existing.Some? {
      return AlreadyRegistered(p.transaction_id);
    }
    var header := HeaderOf(p, createdAtUtc);
    var stmts := [InsertHeader(header)];
    for i := 0 to |p.items|
      invariant stmts == [InsertHeader(header)] + ItemStmts(RowsFor(p.transaction_id, p.items[..i], createdAtUtc))
    {
      stmts := stmts + [InsertItem(RowOf(p.transaction_id, p.items[i], createdAtUtc))];
      assert p.items[..i + 1][..i] == p.items[..i];
    }
    assert p.items[..|p.items|] == p.items;
    BatchEffect(db.State(), p, createdAtUtc);
    var err := db.Batch(stmts, failure);
    if err.Some? {
      return BadRequest(err.value);
    }
    resp := Registered(p.transaction_id, p.totals);
  }

  /** The handler `onRequestPost`. */
  method Register(db: Database, body: BodyIn, createdAtUtc: string, failure: Option<string>)
    returns (resp: Response)
    modifies db
    ensures Step(resp, db.State()) == RegisterStep(old(db.State()), body, createdAtUtc, failure)
  {
    var prepared := Prepare(body);
    if prepared.Err? {
      return BadRequest(prepared.error);
    }
    resp := Persist(db, prepared.value, createdAtUtc, failure);
  }

  // ---------------------------------------------------------------------------------------
  // Properties of a registration

  /** A rejected body answers 400 with the first failure and leaves the store as it was. */
  lemma RejectedBodyLeavesStore(s: StoreState, r: Result<Prepared>, createdAtUtc: string, failure: Option<string>)
    requires r.Err?
    ensures Decide(s, r, createdAtUtc, failure) == Step(BadRequest(r.error), s)
    ensures Decide(s, r, createdAtUtc, failure).response.Status() == 400
  {
  }

  /** An accepted body whose id is already stored answers 409 with that id and changes
      nothing, whatever the store would have said about the batch. */
  lemma DuplicateRejected(s: StoreState, r: Result<Prepared>, createdAtUtc: string, failure: Option<string>)
    requires r.Ok? && r.value.transaction_id in s.headers
    ensures Decide(s, r, createdAtUtc, failure) == Step(AlreadyRegistered(r.value.transaction_id), s)
    ensures Decide(s, r, createdAtUtc, failure).response.Status() == 409
  {
  }

  /** A failing batch answers 400 with the store's message and leaves the store unchanged. */
  lemma StoreFailureLeavesStore(s: StoreState, r: Result<Prepared>, createdAtUtc: string, message: string)
    requires r.Ok? && r.value.transaction_id !in s.headers
    ensures Decide(s, r, createdAtUtc, Some(message)) == Step(BadRequest(message), s)
    ensures Decide(s, r, createdAtUtc, Some(message)).response.Status() == 400
  {
  }

  /** Only a committed batch answers 200, and every answer other than 200 leaves the store
      as it was. */
  lemma OnlySuccessChangesStore(s: StoreState, r: Result<Prepared>, createdAtUtc: string, failure: Option<string>)
    ensures var next := Decide(s, r, createdAtUtc, failure);
      (next.response.Registered? <==> r.Ok? && r.value.transaction_id !in s.headers && failure.None?)
      && (!next.response.Registered? ==> next.state == s)
  {
  }

  /** A commit adds exactly one header and one row per item, in order, all with the new id
      and the one creation time, and leaves every other id's rows alone. */
  lemma CommitEffect(s: StoreState, p: Prepared, createdAtUtc: string)
    ensures var next := Commit(s, p, createdAtUtc);
      var added := next.rows[|s.rows|..];
      && next.headers == s.headers[p.transaction_id := HeaderOf(p, createdAtUtc)]
      && |s.rows| <= |next.rows| && next.rows[..|s.rows|] == s.rows
      && |added| == |p.items|
      && (forall k :: 0 <= k < |added| ==>
            && added[k] == RowOf(p.transaction_id, p.items[k], createdAtUtc)
            && added[k].transaction_id == p.transaction_id
            && added[k].created_at_utc == createdAtUtc)
      && RowsOf(next.rows, p.transaction_id) == RowsOf(s.rows, p.transaction_id) + added
      && (forall id :: id != p.transaction_id ==> RowsOf(next.rows, id) == RowsOf(s.rows, id))
  {
    var added := RowsFor(p.transaction_id, p.items, createdAtUtc);
    var next := Commit(s, p, createdAtUtc);
    assert next.rows[|s.rows|..] == added;
    assert next.rows[..|s.rows|] == s.rows;
    RowsOfAppend(s.rows, added, p.transaction_id);
    RowsOfAll(added, p.transaction_id);
    forall id | id != p.transaction_id
      ensures RowsOf(next.rows, id) == RowsOf(s.rows, id)
    {
      RowsOfAppend(s.rows, added, id);
      RowsOfNone(added, id);
      assert RowsOf(s.rows, id) + [] == RowsOf(s.rows, id);
    }
  }

  /** A successful registration answers 200 with the id and the totals it stored, and the
      store afterwards is the commit of the checked body. */
  lemma SuccessfulRegistration(s: StoreState, body: BodyIn, createdAtUtc: string, failure: Option<string>)
    requires RegisterStep(s, body, createdAtUtc, failure).response.Registered?
    ensures BodyAcceptable(body) && failure.None?
    ensures var p := Prepare(body).value;
      var next := RegisterStep(s, body, createdAtUtc, failure);
      && p.transaction_id !in s.headers
      && next == Step(Registered(p.transaction_id, p.totals), Commit(s, p, createdAtUtc))
      && next.state.headers[p.transaction_id].receipt_no == Trim(body.receipt_no.s)
      && next.state.headers[p.transaction_id].totals == next.response.totals
      && |next.state.rows| == |s.rows| + |body.items.elems|
  {
    var r := Prepare(body);
    assert RegisterStep(s, body, createdAtUtc, failure) == Decide(s, r, createdAtUtc, failure);
  }

  /** A commit keeps the store consistent: headers under their own id, no orphan rows. */
  lemma CommitPreservesConsistency(s: StoreState, p: Prepared, createdAtUtc: string)
    requires Consistent(s)
    ensures Consistent(Commit(s, p, createdAtUtc))
  {
    var next := Commit(s, p, createdAtUtc);
    forall k | 0 <= k < |next.rows|
      ensures next.rows[k].transaction_id in next.headers
    {
      if k >= |s.rows| {
        assert next.rows[k] == RowsFor(p.transaction_id, p.items, createdAtUtc)[k - |s.rows|];
      }
    }
  }

  /** Registration keeps the store consistent. */
  lemma RegistrationPreservesConsistency(s: StoreState, body: BodyIn, createdAtUtc: string, failure: Option<string>)
    requires Consistent(s)
    ensures Consistent(RegisterStep(s, body, createdAtUtc, failure).state)
  {
    var r := Prepare(body);
    if r.Ok? {
      CommitPreservesConsistency(s, r.value, createdAtUtc);
    }
  }

  /** Whatever the outcome of the checks, stored headers stay as they were and old rows stay
      in place. */
  lemma DecideOnlyGrows(s: StoreState, r: Result<Prepared>, createdAtUtc: string, failure: Option<string>)
    ensures var next := Decide(s, r, createdAtUtc, failure).state;
      && (forall id :: id in s.headers ==> id in next.headers && next.headers[id] == s.headers[id])
      && |s.rows| <= |next.rows| && next.rows[..|s.rows|] == s.rows
  {
    if r.Ok? && r.value.transaction_id !in s.headers && failure.None? {
      CommitEffect(s, r.value, createdAtUtc);
    }
  }

  /** The ledger only grows: a registration never alters a stored header or an old row. */
  lemma LedgerOnlyGrows(s: StoreState, body: BodyIn, createdAtUtc: string, failure: Option<string>)
    ensures var next := RegisterStep(s, body, createdAtUtc, failure).state;
      && (forall id :: id in s.headers ==> id in next.headers && next.headers[id] == s.headers[id])
      && |s.rows| <= |next.rows| && next.rows[..|s.rows|] == s.rows
  {
    DecideOnlyGrows(s, Prepare(body), createdAtUtc, failure);
  }

  /** Sanitizing re-trims, so sanitizing a trimmed string is sanitizing the original. */
  lemma SanitizeOfTrimmed(s: string)
    ensures SanitizeReceiptNo(Trim(s)) == SanitizeReceiptNo(s)
  {
    TrimIdempotent(s);
  }

  /** Two accepted bodies with the same date and the same sanitized receipt number get the
      same transaction id. */
  lemma SameDateAndReceiptSameId(first: BodyIn, second: BodyIn)
    requires BodyAcceptable(first) && BodyAcceptable(second)
    requires Trim(second.registered_at_jst.s)[..10] == Trim(first.registered_at_jst.s)[..10]
    requires SanitizeReceiptNo(second.receipt_no.s) == SanitizeReceiptNo(first.receipt_no.s)
    ensures Prepare(first).value.transaction_id == Prepare(second).value.transaction_id
  {
    SanitizeOfTrimmed(first.receipt_no.s);
    SanitizeOfTrimmed(second.receipt_no.s);
    YyyymmddDependsOnDatePart(Trim(first.registered_at_jst.s), Trim(second.registered_at_jst.s));
  }

  /** Submitting the same date and receipt number again is rejected as a duplicate and does
      not touch the first record. */
  lemma SecondSubmissionRejected(s: StoreState, first: BodyIn, second: BodyIn, c1: string, c2: string,
                                 failure: Option<string>)
    requires RegisterStep(s, first, c1, None).response.Registered?
    requires BodyAcceptable(second)
    requires Trim(second.registered_at_jst.s)[..10] == Trim(first.registered_at_jst.s)[..10]
    requires SanitizeReceiptNo(second.receipt_no.s) == SanitizeReceiptNo(first.receipt_no.s)
    ensures var s1 := RegisterStep(s, first, c1, None).state;
      var id := Prepare(first).value.transaction_id;
      && RegisterStep(s1, second, c2, failure) == Step(AlreadyRegistered(id), s1)
      && id in s1.headers && s1.headers[id] == HeaderOf(Prepare(first).value, c1)
  {
    SuccessfulRegistration(s, first, c1, None);
    SameDateAndReceiptSameId(first, second);
  }
}
