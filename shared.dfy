/** The validation, identity and tax helpers of functions/_shared.ts. */
module Shared {
  import opened Wrappers
  import opened Text

  /** An untyped field of a parsed JSON request body. `Fraction` is a finite number that is
      not an integer; `Undefined` is an absent field; `Other` is a boolean, array or object. */
  datatype Value = Str(s: string) | Int(n: int) | Fraction | Null | Undefined | Other

  /** The two supported consumption-tax rates, in percent. */
  type TaxRate = r: int | r == 8 || r == 10 witness 8

  /** A product code as both the API and the product seed script test it: `/^\d{1,13}$/`. */
  predicate IsProductCode(s: string) {
    1 <= |s| <= 13 && AllDigits(s)
  }

  function Required(field: string): string { field + " is required" }
  function NotInteger(field: string): string { field + " must be an integer" }
  function NotTaxRate(field: string): string { field + " must be 8 or 10" }

  /** A string with at least one non-whitespace character. */
  predicate IsNonBlankString(v: Value) {
    v.Str? && !AllWs(v.s)
  }

  /** `asNonEmptyString`: the trimmed string, or "<field> is required" for a non-string or a
      blank string. */
  function AsNonEmptyString(v: Value, field: string): (r: Result<string>)
    ensures r.Ok? <==> IsNonBlankString(v)
    ensures r.Ok? ==> r.value == Trim(v.s) && r.value != []
    ensures r.Err? ==> r.error == Required(field)
  {
    match v
    case Str(s) =>
      var t := Trim(s);
      if t == [] then Err(Required(field)) else Ok(t)
    case _ => Err(Required(field))
  }

  /** `asInt`: accepts exactly the finite integral numbers and returns them unchanged. */
  function AsInt(v: Value, field: string): (r: Result<int>)
    ensures r.Ok? <==> v.Int?
    ensures r.Ok? ==> v == Int(r.value)
    ensures r.Err? ==> r.error == NotInteger(field)
  {
    match v
    case Int(n) => Ok(n)
    case _ => Err(NotInteger(field))
  }

  /** `asTaxRate`: accepts exactly the integers 8 and 10. */
  function AsTaxRate(v: Value, field: string): (r: Result<TaxRate>)
    ensures r.Ok? <==> v == Int(8) || v == Int(10)
    ensures r.Ok? ==> v == Int(r.value)
    ensures !v.Int? ==> r == Err(NotInteger(field))
    ensures v.Int? && v.n != 8 && v.n != 10 ==> r == Err(NotTaxRate(field))
  {
    var n :- AsInt(v, field);
    if n != 8 && n != 10 then Err(NotTaxRate(field)) else Ok(n)
  }

  // ---------------------------------------------------------------------------------------
  // sanitizeReceiptNo

  /** The characters `[A-Za-z0-9_-]` that a receipt number keeps. */
  predicate IsReceiptChar(c: char) {
    ('A' <= c <= 'Z') || ('a' <= c <= 'z') || ('0' <= c <= '9') || c == '_' || c == '-'
  }

  predicate IsBmp(c: char) {
    c as int <= 0xFFFF
  }

  /** The length of `s` in UTF-16 code units, which is JavaScript's `length`. */
  function Utf16Length(s: string): nat {
    if s == [] then 0 else (if IsBmp(s[0]) then 1 else 2) + Utf16Length(s[1..])
  }

  /** `replace(/[^A-Za-z0-9_-]/g, "_")`. Without the `u` flag the regex sees UTF-16 code
      units, so a character outside the Basic Multilingual Plane becomes two underscores. */
  function ReplaceDisallowed(t: string): (r: string)
    ensures |r| == Utf16Length(t)
    ensures forall k :: 0 <= k < |r| ==> IsReceiptChar(r[k])
  {
    if t == [] then []
    else
      (if IsReceiptChar(t[0]) then [t[0]] else if IsBmp(t[0]) then "_" else "__")
        + ReplaceDisallowed(t[1..])
  }

  /** `sanitizeReceiptNo`: trim, then replace every character outside `[A-Za-z0-9_-]`. */
  function SanitizeReceiptNo(s: string): (r: string)
    ensures |r| == Utf16Length(Trim(s))
    ensures forall k :: 0 <= k < |r| ==> IsReceiptChar(r[k])
  {
    ReplaceDisallowed(Trim(s))
  }

  /** On code points of the Basic Multilingual Plane the replacement works in place: allowed
      characters stay where they are and every other character becomes `_`. */
  lemma {:induction false} ReplaceDisallowedInPlace(t: string)
    requires forall k :: 0 <= k < |t| ==> IsBmp(t[k])
    ensures |ReplaceDisallowed(t)| == |t|
    ensures forall k :: 0 <= k < |t| ==>
      ReplaceDisallowed(t)[k] == if IsReceiptChar(t[k]) then t[k] else '_'
  {
    if t != [] {
      ReplaceDisallowedInPlace(t[1..]);
      var r := ReplaceDisallowed(t);
      assert r == [if IsReceiptChar(t[0]) then t[0] else '_'] + ReplaceDisallowed(t[1..]);
    }
  }

  lemma SanitizeInPlace(s: string)
    requires forall k :: 0 <= k < |Trim(s)| ==> IsBmp(Trim(s)[k])
    ensures |SanitizeReceiptNo(s)| == |Trim(s)|
    ensures forall k :: 0 <= k < |Trim(s)| ==>
      SanitizeReceiptNo(s)[k] == if IsReceiptChar(Trim(s)[k]) then Trim(s)[k] else '_'
  {
    ReplaceDisallowedInPlace(Trim(s));
  }

  lemma {:induction false} ReplaceAllowedIsIdentity(t: string)
    requires forall k :: 0 <= k < |t| ==> IsReceiptChar(t[k])
    ensures ReplaceDisallowed(t) == t
  {
    if t != [] {
      ReplaceAllowedIsIdentity(t[1..]);
    }
  }

  /** Sanitizing twice is sanitizing once. */
  lemma SanitizeIdempotent(s: string)
    ensures SanitizeReceiptNo(SanitizeReceiptNo(s)) == SanitizeReceiptNo(s)
  {
    var r := SanitizeReceiptNo(s);
    TrimOfTrimmed(r);
    ReplaceAllowedIsIdentity(r);
  }

  /** Receipt numbers that differ only where one has a disallowed character and the other an
      underscore sanitize to the same string, so they share a transaction id. */
  lemma DisallowedCollidesWithUnderscore(a: string, b: string)
    requires |a| == |b|
    requires a != [] ==> !IsWs(a[0]) && !IsWs(a[|a| - 1])
    requires b != [] ==> !IsWs(b[0]) && !IsWs(b[|b| - 1])
    requires forall k :: 0 <= k < |a| ==> IsBmp(a[k]) && IsBmp(b[k])
    requires forall k :: 0 <= k < |a| ==> a[k] == b[k] || (!IsReceiptChar(a[k]) && b[k] == '_')
    ensures SanitizeReceiptNo(a) == SanitizeReceiptNo(b)
  {
    assert Trim(a) == a by { TrimOfTrimmed(a); }
    assert Trim(b) == b by { TrimOfTrimmed(b); }
    ReplaceCollides(a, b);
  }

  lemma ReplaceCollides(a: string, b: string)
    requires |a| == |b|
    requires forall k :: 0 <= k < |a| ==> IsBmp(a[k]) && IsBmp(b[k])
    requires forall k :: 0 <= k < |a| ==> a[k] == b[k] || (!IsReceiptChar(a[k]) && b[k] == '_')
    ensures ReplaceDisallowed(a) == ReplaceDisallowed(b)
  {
    ReplaceDisallowedInPlace(a);
    ReplaceDisallowedInPlace(b);
    var ra, rb := ReplaceDisallowed(a), ReplaceDisallowed(b);
    forall k | 0 <= k < |a| ensures ra[k] == rb[k] {
      assert IsReceiptChar('_');
    }
  }

  /** "A/1" and "A_1" both sanitize to "A_1". */
  lemma SanitizeMergesPunctuation(a: string, b: string)
    requires a == "A/1" && b == "A_1"
    ensures SanitizeReceiptNo(a) == SanitizeReceiptNo(b) == b
  {
    assert !IsWs(a[0]) && !IsWs(a[2]) && !IsWs(b[0]) && !IsWs(b[2]);
    DisallowedCollidesWithUnderscore(a, b);
    TrimOfTrimmed(b);
    assert IsReceiptChar(b[0]) && IsReceiptChar(b[1]) && IsReceiptChar(b[2]);
    ReplaceAllowedIsIdentity(b);
  }

  // ---------------------------------------------------------------------------------------
  // The registered_at_jst pattern /^\d{4}-\d{2}-\d{2}\s+\d{2}:\d{2}:\d{2}$/

  /** `\d{4}-\d{2}-\d{2}` matching a whole string. */
  predicate IsDateLiteral(d: string) {
    && |d| == 10
    && AllDigits(d[..4]) && d[4] == '-' && AllDigits(d[5..7]) && d[7] == '-' && AllDigits(d[8..])
  }

  /** `\d{2}:\d{2}:\d{2}` matching a whole string. */
  predicate IsTimeLiteral(t: string) {
    |t| == 8 && AllDigits(t[..2]) && t[2] == ':' && AllDigits(t[3..5]) && t[5] == ':' && AllDigits(t[6..])
  }

  /** `\s*\d{2}:\d{2}:\d{2}$`, matched the way a backtracking regex engine tries it. */
  predicate WsThenTime(t: string) {
    IsTimeLiteral(t) || (|t| > 0 && IsWs(t[0]) && WsThenTime(t[1..]))
  }

  /** The regex test at functions/_shared.ts:90 and :135: a date, at least one whitespace
      character, then a time ending the string. */
  predicate MatchesRegisteredAtPattern(s: string) {
    |s| > 10 && IsDateLiteral(s[..10]) && IsWs(s[10]) && WsThenTime(s[11..])
  }

  /** The same language described by positions: a date in the first ten characters, a time
      in the last eight, and only whitespace (at least one) between them. */
  predicate RegisteredAtShape(s: string) {
    && |s| >= 19
    && IsDateLiteral(s[..10])
    && IsTimeLiteral(s[|s| - 8..])
    && forall k :: 10 <= k < |s| - 8 ==> IsWs(s[k])
  }

  lemma {:induction false} WsThenTimeShape(t: string)
    ensures WsThenTime(t) <==>
      |t| >= 8 && IsTimeLiteral(t[|t| - 8..]) && forall k :: 0 <= k < |t| - 8 ==> IsWs(t[k])
  {
    if |t| > 0 {
      var u := t[1..];
      WsThenTimeShape(u);
      if |t| > 8 {
        assert u[|u| - 8..] == t[|t| - 8..];
        assert forall k :: 0 <= k < |u| - 8 ==> u[k] == t[k + 1];
        if IsWs(t[0]) && WsThenTime(u) {
          forall k | 0 <= k < |t| - 8 ensures IsWs(t[k]) {
            if k > 0 { assert t[k] == u[k - 1]; }
          }
        }
      } else if |t| == 8 {
        assert t[|t| - 8..] == t;
      }
    }
  }

  /** The regex and the positional description accept exactly the same strings. */
  lemma PatternIsShape(s: string)
    ensures MatchesRegisteredAtPattern(s) <==> RegisteredAtShape(s)
  {
    if |s| > 10 {
      var t := s[11..];
      WsThenTimeShape(t);
      if |s| >= 19 {
        assert t[|t| - 8..] == s[|s| - 8..];
        assert forall k :: 0 <= k < |t| - 8 ==> t[k] == s[k + 11];
        if MatchesRegisteredAtPattern(s) {
          forall k | 10 <= k < |s| - 8 ensures IsWs(s[k]) {
            if k > 10 { assert s[k] == t[k - 11]; }
          }
        }
      }
    }
  }

  /** The digits of a date literal with its two dashes removed. */
  lemma DateLiteralDigits(d: string)
    requires IsDateLiteral(d)
    ensures AllDigits(d[..4]) && AllDigits(d[5..7]) && AllDigits(d[8..])
    ensures AllDigits(d[..4] + d[5..7] + d[8..])
  {
    var r := d[..4] + d[5..7] + d[8..];
    forall k | 0 <= k < |r| ensures IsDigit(r[k]) {
      if k < 4 { assert r[k] == d[..4][k]; }
      else if k < 6 { assert r[k] == d[5..7][k - 4]; }
      else { assert r[k] == d[8..][k - 6]; }
    }
  }

  const RegisteredAtFormatError := "registered_at_jst must be 'YYYY-MM-DD HH:mm:ss' (JST)"

  /** `yyyymmddFromRegisteredAtJst`: the eight digits at positions 0-3, 5-6 and 8-9 of a
      string of the registered_at shape, and the format error for any other string. */
  function YyyymmddFromRegisteredAtJst(s: string): (r: Result<string>)
    ensures r.Ok? <==> RegisteredAtShape(s)
    ensures r.Ok? ==> |r.value| == 8 && AllDigits(r.value)
    ensures r.Ok? ==> r.value[..4] == s[..4] && r.value[4..6] == s[5..7] && r.value[6..] == s[8..10]
    ensures r.Err? ==> r.error == RegisteredAtFormatError
  {
    PatternIsShape(s);
    if !MatchesRegisteredAtPattern(s) then Err(RegisteredAtFormatError)
    else
      var d := s[..10];
      DateLiteralDigits(d);
      assert d[..4] == s[0..4] && d[5..7] == s[5..7] && d[8..] == s[8..10];
      var r := s[0..4] + s[5..7] + s[8..10];
      assert r[..4] == s[..4] && r[4..6] == s[5..7] && r[6..] == s[8..10];
      Ok(r)
  }

  /** The business date depends on the first ten characters only. */
  lemma YyyymmddDependsOnDatePart(s1: string, s2: string)
    requires RegisteredAtShape(s1) && RegisteredAtShape(s2) && s1[..10] == s2[..10]
    ensures YyyymmddFromRegisteredAtJst(s1) == YyyymmddFromRegisteredAtJst(s2)
  {
    var r1, r2 := YyyymmddFromRegisteredAtJst(s1).value, YyyymmddFromRegisteredAtJst(s2).value;
    assert s1[..4] == s1[..10][..4] == s2[..10][..4] == s2[..4];
    assert s1[5..7] == s1[..10][5..7] == s2[..10][5..7] == s2[5..7];
    assert s1[8..10] == s1[..10][8..10] == s2[..10][8..10] == s2[8..10];
    assert r1 == r1[..4] + r1[4..6] + r1[6..];
    assert r2 == r2[..4] + r2[4..6] + r2[6..];
  }

  // ---------------------------------------------------------------------------------------
  // utcIsoFromRegisteredAtJst

  /** The arguments that utcIsoFromRegisteredAtJst passes to `Date.UTC` (JST is UTC+9, so the
      hour is shifted by -9; the month is zero-based). */
  datatype UtcArgs = UtcArgs(year: int, monthIndex: int, day: int, hour: int, minute: int, second: int)

  const InvalidDatetimeError := "registered_at_jst must be a valid datetime"

  predicate IsClockChars(t: string) {
    forall k :: 0 <= k < |t| ==> IsDigit(t[k]) || IsWs(t[k]) || t[k] == ':'
  }

  /** JavaScript `Number(t)` on a two-character string made of digits, whitespace and colons:
      `Number` trims whitespace, reads what is left in base ten, gives 0 for a blank string and
      NaN (None) when a colon is left. */
  function NumberOfPair(t: string): (r: Option<int>)
    requires |t| == 2 && IsClockChars(t)
    ensures AllDigits(t) ==> r == Some(DecimalValue(t))
    ensures r.None? <==> t[0] == ':' || t[1] == ':'
  {
    if IsDigit(t[0]) && IsDigit(t[1]) then Some(DecimalValue(t))
    else if IsWs(t[0]) && IsWs(t[1]) then Some(0)
    else if IsDigit(t[0]) && IsWs(t[1]) then Some(DigitValue(t[0]))
    else if IsWs(t[0]) && IsDigit(t[1]) then Some(DigitValue(t[1]))
    else None
  }

  /** Every slice of a registered_at string taken at or after its eleventh character holds
      only digits, whitespace and colons; the date fields hold only digits. */
  lemma ShapeSlices(s: string)
    requires RegisteredAtShape(s)
    ensures AllDigits(s[0..4]) && AllDigits(s[5..7]) && AllDigits(s[8..10])
    ensures forall k :: 10 <= k < |s| ==> IsDigit(s[k]) || IsWs(s[k]) || s[k] == ':'
  {
    var d := s[..10];
    DateLiteralDigits(d);
    assert d[..4] == s[0..4] && d[5..7] == s[5..7] && d[8..] == s[8..10];
    var t := s[|s| - 8..];
    assert forall k :: 10 <= k < |s| ==> IsDigit(s[k]) || IsWs(s[k]) || s[k] == ':' by {
      forall k | 10 <= k < |s| ensures IsDigit(s[k]) || IsWs(s[k]) || s[k] == ':' {
        if k >= |s| - 8 {
          var j := k - (|s| - 8);
          assert s[k] == t[j];
          if j < 2 { assert t[j] == t[..2][j]; }
          else if 3 <= j < 5 { assert t[j] == t[3..5][j - 3]; }
          else if j >= 6 { assert t[j] == t[6..][j - 6]; }
        }
      }
    }
  }

  lemma ClockSlice(s: string, i: nat)
    requires RegisteredAtShape(s) && 10 <= i && i + 2 <= |s|
    ensures IsClockChars(s[i..i + 2])
  {
    ShapeSlices(s);
    assert s[i..i + 2][0] == s[i] && s[i..i + 2][1] == s[i + 1];
  }

  /** The `Date.UTC` arguments read from a registered_at string, with the hour, minute and
      second taken as two-character slices starting at `h`, `m` and `sec`; a slice that
      `Number` turns into NaN makes the datetime invalid. */
  function ReadUtcArgs(s: string, h: nat, m: nat, sec: nat): (r: Result<UtcArgs>)
    requires RegisteredAtShape(s)
    requires 10 <= h && h + 2 <= |s| && 10 <= m && m + 2 <= |s| && 10 <= sec && sec + 2 <= |s|
    ensures AllDigits(s[0..4]) && AllDigits(s[5..7]) && AllDigits(s[8..10])
    ensures AllDigits(s[h..h + 2]) && AllDigits(s[m..m + 2]) && AllDigits(s[sec..sec + 2]) ==>
      r == Ok(UtcArgs(DecimalValue(s[0..4]), DecimalValue(s[5..7]) - 1, DecimalValue(s[8..10]),
                      DecimalValue(s[h..h + 2]) - 9, DecimalValue(s[m..m + 2]), DecimalValue(s[sec..sec + 2])))
  {
    ShapeSlices(s);
    ClockSlice(s, h);
    ClockSlice(s, m);
    ClockSlice(s, sec);
    // the date fields are digits only, which `Number` reads in base ten
    var y, mo, d := DecimalValue(s[0..4]), DecimalValue(s[5..7]), DecimalValue(s[8..10]);
    var hh, mm, ss := NumberOfPair(s[h..h + 2]), NumberOfPair(s[m..m + 2]), NumberOfPair(s[sec..sec + 2]);
    // Date.UTC with a NaN argument yields NaN, which the source reports as invalid
    if hh.None? || mm.None? || ss.None? then Err(InvalidDatetimeError)
    else Ok(UtcArgs(y, mo - 1, d, hh.value - 9, mm.value, ss.value))
  }

  /** utcIsoFromRegisteredAtJst as written (functions/_shared.ts:134-149): after the pattern
      test it reads the time at the fixed offsets 11, 14 and 17, which is where the time
      stands only when exactly one whitespace character separates it from the date. */
  function UtcArgsAsWritten(s: string): (r: Result<UtcArgs>)
    ensures r.Ok? ==> RegisteredAtShape(s)
    ensures !RegisteredAtShape(s) ==> r == Err(RegisteredAtFormatError)
  {
    PatternIsShape(s);
    if !MatchesRegisteredAtPattern(s) then Err(RegisteredAtFormatError)
    else ReadUtcArgs(s, 11, 14, 17)
  }

  /** A string of the registered_at shape whose minute slice at the fixed offset 14 holds a
      colon is rejected by the as-written conversion. */
  lemma AsWrittenRejectsColonAtMinute(s: string)
    requires RegisteredAtShape(s) && (s[14] == ':' || s[15] == ':')
    ensures UtcArgsAsWritten(s) == Err(InvalidDatetimeError)
  {
    AsWrittenReadsFixedOffsets(s);
    ClockSlice(s, 11);
    ClockSlice(s, 14);
    ClockSlice(s, 17);
    assert s[14..16][0] == s[14] && s[14..16][1] == s[15];
  }

  /** "2024-05-01  12:34:56" has the registered_at shape, and offset 14 holds a colon. */
  lemma TwoSpacesHasShape(s: string)
    requires s == "2024-05-01  12:34:56"
    ensures RegisteredAtShape(s) && s[14] == ':'
  {
    assert s[..10] == "2024-05-01" && s[|s| - 8..] == "12:34:56";
  }

  /** Two spaces between date and time pass the pattern, so yyyymmddFromRegisteredAtJst
      accepts the string, yet the as-written conversion rejects it. */
  lemma AsWrittenRejectsTwoSpaces(s: string)
    requires s == "2024-05-01  12:34:56"
    ensures YyyymmddFromRegisteredAtJst(s).Ok?
    ensures UtcArgsAsWritten(s) == Err(InvalidDatetimeError)
  {
    TwoSpacesHasShape(s);
    AsWrittenRejectsColonAtMinute(s);
  }

  /** A string of the registered_at shape whose fixed offsets 11, 14 and 17 land on "  ",
      "12" and "34" is accepted by the as-written conversion with hour 0, minute 12 and
      second 34. */
  lemma AsWrittenReadsShiftedClock(s: string)
    requires RegisteredAtShape(s)
    requires s[11..13] == "  " && s[14..16] == "12" && s[17..19] == "34"
    ensures UtcArgsAsWritten(s).Ok?
    ensures UtcArgsAsWritten(s).value.hour == 0 - 9 && UtcArgsAsWritten(s).value.minute == 12
    ensures UtcArgsAsWritten(s).value.second == 34
  {
    AsWrittenReadsFixedOffsets(s);
    var blank, mm, ss := s[11..13], s[14..16], s[17..19];
    ClockSlice(s, 11);
    ClockSlice(s, 14);
    ClockSlice(s, 17);
    assert NumberOfPair(blank) == Some(0);
    assert DecimalValue(ss) == 34 by {
      assert ss[..1] == "3" && ss[..1][..0] == "";
      assert DecimalValue(ss[..1]) == 3;
      assert DigitValue(ss[1]) == 4;
    }
    assert NumberOfPair(ss) == Some(34);
    assert DecimalValue(mm) == 12 by {
      assert mm[..1] == "1" && mm[..1][..0] == "";
      assert DecimalValue(mm[..1]) == 1;
      assert DigitValue(mm[1]) == 2;
    }
    assert NumberOfPair(mm) == Some(12);
  }

  /** "2024-05-01    12:34:56" has the registered_at shape. */
  lemma FourSpacesHasShape(s: string)
    requires s == "2024-05-01    12:34:56"
    ensures RegisteredAtShape(s)
    ensures s[11..13] == "  " && s[14..16] == "12" && s[17..19] == "34"
  {
    assert s[..10] == "2024-05-01" && s[|s| - 8..] == "12:34:56";
    assert s[11..13] == [s[11], s[12]] && s[14..16] == [s[14], s[15]] && s[17..19] == [s[17], s[18]];
  }

  /** With four spaces the as-written conversion accepts the string but reads 12:34:56 as
      00:12:34. */
  lemma AsWrittenMisreadsFourSpaces(s: string)
    requires s == "2024-05-01    12:34:56"
    ensures UtcArgsAsWritten(s).Ok?
    ensures UtcArgsAsWritten(s).value.hour == 0 - 9 && UtcArgsAsWritten(s).value.minute == 12
    ensures UtcArgsAsWritten(s).value.second == 34
  {
    FourSpacesHasShape(s);
    AsWrittenReadsShiftedClock(s);
  }

  lemma AsWrittenReadsFixedOffsets(s: string)
    requires RegisteredAtShape(s)
    ensures UtcArgsAsWritten(s) == ReadUtcArgs(s, 11, 14, 17)
  {
    PatternIsShape(s);
  }

  /** utcIsoFromRegisteredAtJst as intended: the same pattern test, then the time read from
      the last eight characters, where the pattern put it. */
  function UtcFromRegisteredAtJst(s: string): (r: Result<UtcArgs>)
    ensures r.Ok? <==> YyyymmddFromRegisteredAtJst(s).Ok?
    ensures !r.Ok? ==> r == Err(RegisteredAtFormatError)
    ensures r.Ok? ==> var n := |s|;
      && AllDigits(s[n - 8..n - 6]) && AllDigits(s[n - 5..n - 3]) && AllDigits(s[n - 2..n])
      && r.value.hour == DecimalValue(s[n - 8..n - 6]) - 9
      && r.value.minute == DecimalValue(s[n - 5..n - 3])
      && r.value.second == DecimalValue(s[n - 2..n])
  {
    PatternIsShape(s);
    if !MatchesRegisteredAtPattern(s) then Err(RegisteredAtFormatError)
    else
      var n := |s|;
      var t := s[n - 8..];
      ShapeSlices(s);
      assert t[..2] == s[n - 8..n - 6] && t[3..5] == s[n - 5..n - 3] && t[6..] == s[n - 2..n];
      ReadUtcArgs(s, n - 8, n - 5, n - 2)
  }

  /** With exactly one separating whitespace character the as-written and the intended
      conversion agree. */
  lemma AsWrittenAgreesOnSingleSpace(s: string)
    requires |s| == 19
    ensures UtcArgsAsWritten(s) == UtcFromRegisteredAtJst(s)
  {
  }

  // ---------------------------------------------------------------------------------------
  // calcTaxCeil

  /** `calcTaxCeil`: `ceil(subtotal * rate / 100)` as integer arithmetic, i.e. the least tax
      amount that is at least `rate` percent of the subtotal. */
  function CalcTaxCeil(subtotalExcl: int, rate: TaxRate): (t: int)
    ensures 100 * t >= subtotalExcl * rate
    ensures 100 * (t - 1) < subtotalExcl * rate
    ensures subtotalExcl >= 0 ==> t >= 0
  {
    if rate == 8 then (8 * subtotalExcl + 99) / 100 else (10 * subtotalExcl + 99) / 100
  }

  lemma TaxCeilBoundaries()
    ensures CalcTaxCeil(0, 8) == 0 && CalcTaxCeil(1, 8) == 1 && CalcTaxCeil(0, 10) == 0
    ensures CalcTaxCeil(200, 8) == 16 && CalcTaxCeil(300, 10) == 30
  {
  }
}
