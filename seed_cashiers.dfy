/** scripts/seed_cashiers.js: turn the parsed records of the cashier list into an SQL script of
    `INSERT OR IGNORE INTO cashiers` lines between `BEGIN;` and `COMMIT;`, one line per record
    with a non-blank name, in record order. */
module SeedCashiers {
  import opened Wrappers
  import opened Text
  import opened SeedSql

  const NameColumn := "cashier_name"

  /** `(r.cashier_name || "").trim()`: a missing cell reads as "". */
  function NameOf(r: Record): string
  {
    Trim(Field(r, NameColumn))
  }

  /** What a record contributes: its trimmed name, unless that is blank. */
  function Contribution(r: Record): Option<string>
  {
    var name := NameOf(r);
    if name == [] then None else Some(name)
  }

  const InsertHead := "INSERT OR IGNORE INTO cashiers (cashier_name, updated_at_utc) VALUES ('"

  /** The statement for one name, stamped with the run's `now`. */
  function InsertLine(name: string, now: string): string
  {
    InsertHead + Escape(name) + "', '" + now + "');"
  }

  /** The name sits right after the fixed head, escaped, so an SQL reader gets the name back
      exactly and no quote in it can end the literal early. */
  lemma InsertLineCarriesName(name: string, now: string)
    ensures var l := InsertLine(name, now); var e := |InsertHead| + |Escape(name)|;
      && e < |l| && l[..|InsertHead|] == InsertHead
      && Unescape(l[|InsertHead|..e]) == name && QuotesPaired(l[|InsertHead|..e])
      && l[e] == '\''
  {
    var tail := "', '" + now + "');";
    assert InsertLine(name, now) == InsertHead + Escape(name) + tail;
    ThreeParts(InsertHead, Escape(name), tail);
    UnescapeEscape(name);
    EscapePairsQuotes(name);
  }

  /** Each record's contribution, record by record. */
  function ContributionsOf(records: seq<Record>): (o: seq<Option<string>>)
    ensures |o| == |records|
  {
    seq(|records|, k requires 0 <= k < |records| => Contribution(records[k]))
  }

  /** The names that get a line, in record order. */
  function Names(records: seq<Record>): seq<string>
  {
    Keep(ContributionsOf(records))
  }

  /** One INSERT line per name. */
  function Render(names: seq<string>, now: string): (ls: seq<string>)
    ensures |ls| == |names|
    ensures forall k :: 0 <= k < |names| ==> ls[k] == InsertLine(names[k], now)
  {
    seq(|names|, k requires 0 <= k < |names| => InsertLine(names[k], now))
  }

  /** The whole script the loop writes. */
  function Script(records: seq<Record>, now: string): seq<string>
  {
    ["BEGIN;"] + Render(Names(records), now) + ["COMMIT;"]
  }

  lemma ContributionsAppend(a: seq<Record>, b: seq<Record>)
    ensures ContributionsOf(a + b) == ContributionsOf(a) + ContributionsOf(b)
  {
    var l := ContributionsOf(a + b);
    var r := ContributionsOf(a) + ContributionsOf(b);
    forall k | 0 <= k < |l| ensures l[k] == r[k] {
      if k < |a| {
        assert (a + b)[k] == a[k];
      } else {
        assert (a + b)[k] == b[k - |a|];
      }
    }
  }

  /** Each record is looked at alone: the names of a concatenation are the names of its
      parts, in order. */
  lemma NamesAppend(a: seq<Record>, b: seq<Record>)
    ensures Names(a + b) == Names(a) + Names(b)
  {
    ContributionsAppend(a, b);
    KeepAppend(ContributionsOf(a), ContributionsOf(b));
  }

  /** A record with a missing or blank name contributes nothing; any other contributes its
      trimmed name. */
  lemma NamesOfOne(r: Record)
    ensures NameOf(r) == [] ==> Names([r]) == []
    ensures NameOf(r) != [] ==> Names([r]) == [NameOf(r)]
  {
    assert ContributionsOf([r]) == [Contribution(r)];
    KeepOne(Contribution(r));
  }

  /** A name as it reaches the table: non-blank, with no whitespace at either end. */
  predicate IsCleanName(n: string) {
    n != [] && !IsWs(n[0]) && !IsWs(n[|n| - 1])
  }

  lemma ContributionIsClean(r: Record)
    ensures Contribution(r).Some? ==> IsCleanName(Contribution(r).value)
  {
  }

  /** Every name that gets a line is non-blank and has no whitespace at its ends. */
  lemma NamesAreTrimmed(records: seq<Record>)
    ensures forall n :: n in Names(records) ==> IsCleanName(n)
  {
    var o := ContributionsOf(records);
    forall j | 0 <= j < |o| && o[j].Some? ensures IsCleanName(o[j].value) {
      ContributionIsClean(records[j]);
    }
    KeepAll(o, IsCleanName);
  }

  /** One line per record with a non-blank name. */
  lemma NamesCounted(records: seq<Record>)
    ensures |Names(records)| == PresentCount(ContributionsOf(records))
  {
    KeepCount(ContributionsOf(records));
  }

  /** `BEGIN;` opens the script, `COMMIT;` closes it and every line strictly between is the
      INSERT of one name, in order. */
  lemma ScriptFraming(records: seq<Record>, now: string)
    ensures var s := Script(records, now); var names := Names(records);
      && |s| == |names| + 2
      && s[0] == "BEGIN;" && s[|s| - 1] == "COMMIT;"
      && forall k :: 0 < k < |s| - 1 ==> s[k] == InsertLine(names[k - 1], now)
  {
    var names := Names(records);
    var body := Render(names, now);
    Framing(body);
    assert Script(records, now) == ["BEGIN;"] + body + ["COMMIT;"];
  }

  lemma ContributionsSnoc(records: seq<Record>, i: nat)
    requires i < |records|
    ensures ContributionsOf(records[..i + 1]) == ContributionsOf(records[..i]) + [Contribution(records[i])]
  {
    assert records[..i + 1] == records[..i] + [records[i]];
    ContributionsAppend(records[..i], [records[i]]);
    assert ContributionsOf([records[i]]) == [Contribution(records[i])];
  }

  /** The loop's step for a record whose name is blank. */
  lemma SkipStep(records: seq<Record>, i: nat)
    requires i < |records| && Contribution(records[i]).None?
    ensures Names(records[..i + 1]) == Names(records[..i])
  {
    ContributionsSnoc(records, i);
    KeepSnoc(ContributionsOf(records[..i]), Contribution(records[i]));
  }

  /** The loop's step for a record with a name: the name comes after the others. */
  lemma KeepStep(records: seq<Record>, i: nat, name: string)
    requires i < |records| && Contribution(records[i]) == Some(name)
    ensures Names(records[..i + 1]) == Names(records[..i]) + [name]
  {
    ContributionsSnoc(records, i);
    KeepSnoc(ContributionsOf(records[..i]), Contribution(records[i]));
  }

  lemma RenderSnoc(names: seq<string>, name: string, now: string)
    ensures Render(names + [name], now) == Render(names, now) + [InsertLine(name, now)]
  {
    var l := Render(names + [name], now);
    var r := Render(names, now) + [InsertLine(name, now)];
    forall k | 0 <= k < |l| ensures l[k] == r[k] {
      if k < |names| {
        assert (names + [name])[k] == names[k];
      } else {
        assert (names + [name])[k] == name;
      }
    }
  }

  /** The loop's append: the line of one more name comes after the lines already written. */
  lemma LinesSnoc(lines: seq<string>, names: seq<string>, name: string, now: string)
    requires lines == ["BEGIN;"] + Render(names, now)
    ensures lines + [InsertLine(name, now)] == ["BEGIN;"] + Render(names + [name], now)
  {
    RenderSnoc(names, name, now);
  }

  // ---------------------------------------------------------------------------------------
  // The main loop (lines 39-47)
  // ---------------------------------------------------------------------------------------

  /** Builds the script line by line, as the loop of the source does; `now` is the run's
      timestamp. */
  method SeedCashiersSql(records: seq<Record>, now: string) returns (lines: seq<string>)
    ensures lines == Script(records, now)
  {
    lines := ["BEGIN;"];
    ghost var names: seq<string> := [];
    for i := 0 to |records|
      invariant names == Names(records[..i])
      invariant lines == ["BEGIN;"] + Render(names, now)
    {
      var name := Trim(Field(records[i], NameColumn));
      if name == [] {
        SkipStep(records, i);
        continue;
      }
      KeepStep(records, i, name);
      LinesSnoc(lines, names, name, now);
      names := names + [name];
      lines := lines + [InsertLine(name, now)];
    }
    assert records[..|records|] == records;
    lines := lines + ["COMMIT;"];
  }
}
