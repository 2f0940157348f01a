/** What the two seed scripts (scripts/seed_products.js, scripts/seed_cashiers.js) share: a
    CSV record after parsing, and `sqlEscape`, the text placed between single quotes in an SQL
    string literal with every quote doubled. */
module SeedSql {
  import opened Wrappers

  /** A parsed CSV record: column header to cell text. A column the row lacks is absent. */
  type Record = map<string, string>

  /** `String(r[column] ?? "")`: the cell, or "" when the record has no such column. */
  function Field(r: Record, column: string): (v: string)
    ensures column !in r ==> v == ""
  {
    if column in r then r[column] else ""
  }

  const Quote: char := '\''

  /** How many single quotes `s` holds. */
  function QuoteCount(s: string): nat
  {
    if s == [] then 0 else (if s[0] == Quote then 1 else 0) + QuoteCount(s[1..])
  }

  /** `String(s).replace(/'/g, "''")`. */
  function Escape(s: string): (r: string)
    ensures |r| == |s| + QuoteCount(s)
  {
    if s == [] then [] else (if s[0] == Quote then [Quote, Quote] else [s[0]]) + Escape(s[1..])
  }

  /** Reading an SQL string literal's body back: a doubled quote stands for one quote. */
  function Unescape(t: string): (r: string)
    ensures |r| <= |t|
  {
    if t == [] then []
    else if |t| >= 2 && t[0] == Quote && t[1] == Quote then [Quote] + Unescape(t[2..])
    else [t[0]] + Unescape(t[1..])
  }

  /** Every quote of `t` is the first of an adjacent pair, so `t` cannot close a quoted literal. */
  predicate QuotesPaired(t: string)
  {
    if t == [] then true
    else if t[0] == Quote then |t| >= 2 && t[1] == Quote && QuotesPaired(t[2..])
    else QuotesPaired(t[1..])
  }

  /** The SQL reader recovers exactly the escaped text. */
  lemma {:induction false} UnescapeEscape(s: string)
    ensures Unescape(Escape(s)) == s
  {
    if s != [] {
      var e := Escape(s);
      UnescapeEscape(s[1..]);
      if s[0] == Quote {
        assert e[2..] == Escape(s[1..]);
      } else {
        assert e[1..] == Escape(s[1..]);
      }
    }
  }

  /** Escaped text never ends the literal it is placed in. */
  lemma {:induction false} EscapePairsQuotes(s: string)
    ensures QuotesPaired(Escape(s))
  {
    if s != [] {
      var e := Escape(s);
      EscapePairsQuotes(s[1..]);
      if s[0] == Quote {
        assert e[2..] == Escape(s[1..]);
      } else {
        assert e[1..] == Escape(s[1..]);
      }
    }
  }

  /** Escaping works character by character: it distributes over concatenation. */
  lemma {:induction false} EscapeAppend(a: string, b: string)
    ensures Escape(a + b) == Escape(a) + Escape(b)
  {
    if a != [] {
      assert (a + b)[1..] == a[1..] + b;
      EscapeAppend(a[1..], b);
    } else {
      assert a + b == b;
    }
  }

  /** Text without quotes is left exactly as it is. */
  lemma {:induction false} EscapeWithoutQuotes(s: string)
    requires forall k :: 0 <= k < |s| ==> s[k] != Quote
    ensures Escape(s) == s
  {
    if s != [] {
      EscapeWithoutQuotes(s[1..]);
    }
  }

  // ---------------------------------------------------------------------------------------
  // The filter shape of both loops: each record yields at most one value, kept in order
  // ---------------------------------------------------------------------------------------

  /** The present values, in order. */
  function Keep<T>(opts: seq<Option<T>>): (r: seq<T>)
    ensures |r| <= |opts|
  {
    if opts == [] then []
    else Keep(opts[..|opts| - 1]) + (if opts[|opts| - 1].Some? then [opts[|opts| - 1].value] else [])
  }

  /** Keeping works element by element: it distributes over concatenation. */
  lemma {:induction false} KeepAppend<T>(a: seq<Option<T>>, b: seq<Option<T>>)
    ensures Keep(a + b) == Keep(a) + Keep(b)
  {
    if b == [] {
      assert a + b == a;
    } else {
      assert (a + b)[..|a + b| - 1] == a + b[..|b| - 1];
      KeepAppend(a, b[..|b| - 1]);
    }
  }

  /** One more element adds its value, if present, after the others. */
  lemma KeepSnoc<T>(opts: seq<Option<T>>, o: Option<T>)
    ensures Keep(opts + [o]) == Keep(opts) + if o.Some? then [o.value] else []
  {
    assert (opts + [o])[..|opts|] == opts;
  }

  /** A single element is kept exactly when present. */
  lemma KeepOne<T>(o: Option<T>)
    ensures Keep([o]) == if o.Some? then [o.value] else []
  {
    assert [o][..0] == [];
  }

  /** Every kept value is present somewhere in the input, and when every element is present
      nothing is dropped. */
  lemma {:induction false} KeepFrom<T>(opts: seq<Option<T>>)
    ensures forall x :: x in Keep(opts) ==> Some(x) in opts
    ensures (forall j :: 0 <= j < |opts| ==> opts[j].Some?) ==> |Keep(opts)| == |opts|
  {
    if opts != [] {
      var init := opts[..|opts| - 1];
      KeepFrom(init);
      forall x | x in Keep(opts) ensures Some(x) in opts {
        if x in Keep(init) {
          assert Some(x) in init;
        }
      }
      if forall j :: 0 <= j < |opts| ==> opts[j].Some? {
        assert forall j :: 0 <= j < |init| ==> init[j] == opts[j];
      }
    }
  }

  /** A literal written between a fixed head and a tail sits at a known place. */
  lemma ThreeParts(h: string, e: string, t: string)
    requires t != []
    ensures var l := h + e + t;
      && |h| + |e| < |l| && l[..|h|] == h && l[|h|..|h| + |e|] == e && l[|h| + |e|] == t[0]
  {
    var l := h + e + t;
    assert l[..|h|] == h;
    assert l[|h|..|h| + |e|] == e;
  }

  /** A script is its body between `BEGIN;` and `COMMIT;`. */
  lemma Framing(body: seq<string>)
    ensures var s := ["BEGIN;"] + body + ["COMMIT;"];
      && |s| == |body| + 2 && s[0] == "BEGIN;" && s[|s| - 1] == "COMMIT;"
      && forall k :: 0 < k < |s| - 1 ==> s[k] == body[k - 1]
  {
  }

  /** A property every present element has, every kept value has. */
  lemma KeepAll<T>(opts: seq<Option<T>>, P: T -> bool)
    requires forall j :: 0 <= j < |opts| && opts[j].Some? ==> P(opts[j].value)
    ensures forall x :: x in Keep(opts) ==> P(x)
  {
    KeepFrom(opts);
    forall x | x in Keep(opts) ensures P(x) {
      var j :| 0 <= j < |opts| && opts[j] == Some(x);
    }
  }

  /** How many elements are present. */
  function PresentCount<T>(opts: seq<Option<T>>): nat
  {
    if opts == [] then 0 else PresentCount(opts[..|opts| - 1]) + (if opts[|opts| - 1].Some? then 1 else 0)
  }

  /** One kept value per present element. */
  lemma {:induction false} KeepCount<T>(opts: seq<Option<T>>)
    ensures |Keep(opts)| == PresentCount(opts)
  {
    if opts != [] {
      KeepCount(opts[..|opts| - 1]);
    }
  }
}
