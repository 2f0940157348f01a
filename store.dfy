/** The relational store the API writes to and reads from, reduced to what the core uses:
    the `transactions` header table keyed by transaction id, and the `transaction_items`
    table in insertion (autoincrement id) order. */
module Store {
  import opened Wrappers
  import opened Shared

  /** The per-rate aggregate columns of a header. */
  datatype Totals = Totals(
    subtotal_excl_8: int, tax_8: int, subtotal_incl_8: int,
    subtotal_excl_10: int, tax_10: int, subtotal_incl_10: int,
    total_incl: int)

  /** A row of `transactions`. */
  datatype Header = Header(
    transaction_id: string, yyyymmdd: string, receipt_no: string, registered_at_jst: string,
    cashier_name: string, totals: Totals, created_at_utc: string)

  /** A row of `transaction_items`. */
  datatype ItemRow = ItemRow(
    transaction_id: string, product_code: string, product_category: Option<string>,
    product_name: string, pos_cost: Option<int>, price_excl: int, qty: int,
    line_amount_excl: int, tax_rate: TaxRate, created_at_utc: string)

  /** The contents of both tables; a row's position in `rows` is the order of its id. */
  datatype StoreState = StoreState(headers: map<string, Header>, rows: seq<ItemRow>)

  /** A prepared INSERT statement. */
  datatype Stmt = InsertHeader(header: Header) | InsertItem(row: ItemRow)

  function Apply(s: StoreState, stmt: Stmt): StoreState {
    match stmt
    case InsertHeader(h) => s.(headers := s.headers[h.transaction_id := h])
    case InsertItem(row) => s.(rows := s.rows + [row])
  }

  /** The statements of a batch applied in order. */
  function ApplyAll(s: StoreState, stmts: seq<Stmt>): StoreState
    decreases |stmts|
  {
    if stmts == [] then s else ApplyAll(Apply(s, stmts[0]), stmts[1..])
  }

  /** No header is filed under another id, and no item row is orphaned: every row belongs
      to a stored header. */
  ghost predicate Consistent(s: StoreState) {
    && (forall id :: id in s.headers ==> s.headers[id].transaction_id == id)
    && (forall k :: 0 <= k < |s.rows| ==> s.rows[k].transaction_id in s.headers)
  }

  /** `SELECT ... FROM transaction_items WHERE transaction_id = ? ORDER BY id ASC`. */
  function RowsOf(rows: seq<ItemRow>, id: string): (r: seq<ItemRow>)
    ensures |r| <= |rows|
    ensures forall k :: 0 <= k < |r| ==> r[k].transaction_id == id && r[k] in rows
  {
    if rows == [] then []
    else
      var init := RowsOf(rows[..|rows| - 1], id);
      assert forall x :: x in rows[..|rows| - 1] ==> x in rows;
      if rows[|rows| - 1].transaction_id == id then init + [rows[|rows| - 1]] else init
  }

  /** The selection distributes over appending rows, so rows keep their relative order. */
  lemma {:induction false} RowsOfAppend(a: seq<ItemRow>, b: seq<ItemRow>, id: string)
    ensures RowsOf(a + b, id) == RowsOf(a, id) + RowsOf(b, id)
    decreases |b|
  {
    if b != [] {
      var b' := b[..|b| - 1];
      assert (a + b)[..|a + b| - 1] == a + b';
      RowsOfAppend(a, b', id);
    } else {
      assert a + b == a;
    }
  }

  lemma {:induction false} RowsOfNone(rows: seq<ItemRow>, id: string)
    requires forall k :: 0 <= k < |rows| ==> rows[k].transaction_id != id
    ensures RowsOf(rows, id) == []
  {
    if rows != [] {
      RowsOfNone(rows[..|rows| - 1], id);
    }
  }

  lemma {:induction false} RowsOfAll(rows: seq<ItemRow>, id: string)
    requires forall k :: 0 <= k < |rows| ==> rows[k].transaction_id == id
    ensures RowsOf(rows, id) == rows
  {
    if rows != [] {
      RowsOfAll(rows[..|rows| - 1], id);
    }
  }

  /** The D1 database binding seen by one request. */
  class Database {
    var headers: map<string, Header>
    var rows: seq<ItemRow>

    constructor (initial: StoreState)
      ensures State() == initial
    {
      headers := initial.headers;
      rows := initial.rows;
    }

    function State(): StoreState
      reads this
    {
      StoreState(headers, rows)
    }

    /** `SELECT transaction_id FROM transactions WHERE transaction_id = ?` with `.first()`. */
    method FindHeader(id: string) returns (h: Option<Header>)
      ensures h.Some? <==> id in headers
      ensures h.Some? ==> h.value == headers[id]
    {
      h := if id in headers then Some(headers[id]) else None;
    }

    /** `db.batch(stmts)`: every statement takes effect, or, when the store reports `failure`,
        none does. Atomicity is D1's promise; here it is a single assignment. */
    method Batch(stmts: seq<Stmt>, failure: Option<string>) returns (err: Option<string>)
      modifies this
      ensures err == failure
      ensures State() == if failure.Some? then old(State()) else ApplyAll(old(State()), stmts)
    {
      err := failure;
      if failure.None? {
        var next := ApplyAll(State(), stmts);
        headers, rows := next.headers, next.rows;
      }
    }
  }
}
