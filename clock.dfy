/**
 * The `"HH:MM"` parameters of the gap pass: Python's `s.split(':')` and the
 * unpacking `h, m = map(int, parts)`, which succeeds only when there are exactly
 * two parts and both convert to integers. Integer conversion is modelled for
 * plain decimal digit strings (leading zeros allowed, as `int("07")` is 7).
 */
module Clock {
  import opened Common

  /** A wall-clock time of day as the gap pass compares it. No range check is made. */
  datatype ClockTime = ClockTime(hour: int, minute: int)

  const Colon: char := ':'

  /** Python's `str.split(sep)`: the pieces between separators, never an empty list. */
  function Split(s: string, sep: char): (parts: seq<string>)
    ensures |parts| >= 1
  {
    if s == [] then [""]
    else
      var rest := Split(s[1..], sep);
      if s[0] == sep then [""] + rest
      else [[s[0]] + rest[0]] + rest[1..]
  }

  /** `sep.join(parts)`, the inverse of `Split`. */
  function Join(parts: seq<string>, sep: char): string
  {
    if parts == [] then ""
    else if |parts| == 1 then parts[0]
    else parts[0] + [sep] + Join(parts[1..], sep)
  }

  /** Joining the pieces again gives back the original string. */
  lemma {:induction false} SplitJoin(s: string, sep: char)
    ensures Join(Split(s, sep), sep) == s
  {
    if s != [] {
      var rest := Split(s[1..], sep);
      SplitJoin(s[1..], sep);
      if s[0] != sep && |rest| > 1 {
        var parts := [[s[0]] + rest[0]] + rest[1..];
        assert parts[1..] == rest[1..];
        assert Join(parts, sep) == [s[0]] + (rest[0] + [sep] + Join(rest[1..], sep));
      }
    }
  }

  /** No piece contains the separator. */
  lemma {:induction false} SplitPiecesFree(s: string, sep: char)
    ensures forall p :: p in Split(s, sep) ==> sep !in p
  {
    if s != [] {
      SplitPiecesFree(s[1..], sep);
      var rest := Split(s[1..], sep);
      assert rest[0] in rest;
      if s[0] != sep {
        forall p | p in Split(s, sep) ensures sep !in p {
          if p != [s[0]] + rest[0] {
            assert p in rest[1..];
          }
        }
      }
    }
  }

  /** A string without the separator splits into itself alone. */
  lemma {:induction false} SplitWithoutSeparator(s: string, sep: char)
    requires sep !in s
    ensures Split(s, sep) == [s]
  {
    if s != [] {
      SplitWithoutSeparator(s[1..], sep);
      assert [s[0]] + s[1..] == s;
    }
  }

  /** A string with exactly one separator splits into the text before and after it. */
  lemma {:induction false} SplitAround(a: string, b: string, sep: char)
    requires sep !in a && sep !in b
    ensures Split(a + [sep] + b, sep) == [a, b]
  {
    var s := a + [sep] + b;
    if a == [] {
      assert s == [sep] + b && s[1..] == b;
      SplitWithoutSeparator(b, sep);
    } else {
      assert s[1..] == a[1..] + [sep] + b;
      assert sep !in a[1..] by {
        forall k | 0 <= k < |a[1..]| ensures a[1..][k] != sep { assert a[1..][k] == a[k + 1]; }
      }
      SplitAround(a[1..], b, sep);
      assert [a[0]] + a[1..] == a;
    }
  }

  predicate IsDigit(c: char)
  {
    '0' <= c <= '9'
  }

  predicate AllDigits(p: string)
  {
    forall k :: 0 <= k < |p| ==> IsDigit(p[k])
  }

  /** What `int(p)` accepts in this model: a non-empty run of decimal digits. */
  predicate IsDigits(p: string)
  {
    |p| > 0 && AllDigits(p)
  }

  function Pow10(n: nat): (r: nat)
    ensures r >= 1
  {
    if n == 0 then 1 else 10 * Pow10(n - 1)
  }

  /** The value of a decimal digit string, read most significant digit first: below `10^|p|`. */
  function DigitsValue(p: string): (v: nat)
    requires AllDigits(p)
    ensures v < Pow10(|p|)
  {
    if p == [] then 0
    else DigitsValue(p[..|p| - 1]) * 10 + (p[|p| - 1] as int - '0' as int)
  }

  function DigitChar(d: nat): (c: char)
    requires d < 10
    ensures IsDigit(c) && c as int - '0' as int == d
  {
    ('0' as int + d) as char
  }

  /** The decimal numeral of `n`, without leading zeros. */
  function NatToDigits(n: nat): (p: string)
    ensures IsDigits(p)
  {
    if n < 10 then [DigitChar(n)] else NatToDigits(n / 10) + [DigitChar(n % 10)]
  }

  /** Reading back a numeral gives the number. */
  lemma {:induction false} DigitsRoundTrip(n: nat)
    ensures DigitsValue(NatToDigits(n)) == n
  {
    var p := NatToDigits(n);
    if n >= 10 {
      assert p[..|p| - 1] == NatToDigits(n / 10);
      DigitsRoundTrip(n / 10);
    } else {
      assert p[..|p| - 1] == [];
    }
  }

  /** A leading zero does not change the value, as with `int("07")`. */
  lemma {:induction false} LeadingZero(p: string)
    requires AllDigits(p)
    ensures AllDigits("0" + p) && DigitsValue("0" + p) == DigitsValue(p)
  {
    var q := "0" + p;
    assert AllDigits(q) by {
      forall k | 0 <= k < |q| ensures IsDigit(q[k]) { if k > 0 { assert q[k] == p[k - 1]; } }
    }
    if p != [] {
      assert q[..|q| - 1] == "0" + p[..|p| - 1];
      assert q[|q| - 1] == p[|p| - 1];
      LeadingZero(p[..|p| - 1]);
    }
  }

  /** Parses a `"HH:MM"` parameter; `None` where the source's `try` fails. */
  function ParseTime(s: string): (t: Option<ClockTime>)
    ensures t.Some? ==> t.value.hour >= 0 && t.value.minute >= 0
  {
    var parts := Split(s, Colon);
    if |parts| == 2 && IsDigits(parts[0]) && IsDigits(parts[1]) then
      Some(ClockTime(DigitsValue(parts[0]), DigitsValue(parts[1])))
    else
      None
  }

  /**
   * A parsed time came from a string with exactly one colon, with a digit run on
   * each side of it, and its two values are those of the digit runs.
   */
  lemma ParseTimeAccepted(s: string)
    requires ParseTime(s).Some?
    ensures exists k :: (
      && 0 < k < |s| - 1 && s[k] == Colon
      && (forall m :: 0 <= m < |s| && m != k ==> IsDigit(s[m]))
      && ParseTime(s).value == ClockTime(DigitsValue(s[..k]), DigitsValue(s[k + 1..])))
  {
    var parts := Split(s, Colon);
    SplitJoin(s, Colon);
    assert parts[1..] == [parts[1]];
    assert s == parts[0] + [Colon] + parts[1];
    var k := |parts[0]|;
    assert s[..k] == parts[0] && s[k] == Colon && s[k + 1..] == parts[1];
    forall m | 0 <= m < |s| && m != k ensures IsDigit(s[m]) {
      if m < k { assert s[m] == parts[0][m]; } else { assert s[m] == parts[1][m - k - 1]; }
    }
  }

  /** The text shape `int` accepts on both sides of a single colon: digits, one colon, digits. */
  predicate IsClockText(s: string)
  {
    exists k :: 0 < k < |s| - 1 && s[k] == Colon && forall m :: 0 <= m < |s| && m != k ==> IsDigit(s[m])
  }

  /** Any other text is rejected, so the parameter stays unset. */
  lemma ParseTimeRejects(s: string)
    requires !IsClockText(s)
    ensures ParseTime(s) == None
  {
    if ParseTime(s).Some? {
      ParseTimeAccepted(s);
      assert false;
    }
  }

  /** Two digit runs around a colon always parse, to their two values. */
  lemma ParseTimeOfDigits(a: string, b: string)
    requires IsDigits(a) && IsDigits(b)
    ensures ParseTime(a + [Colon] + b) == Some(ClockTime(DigitsValue(a), DigitsValue(b)))
  {
    forall k | 0 <= k < |a| ensures a[k] != Colon { }
    forall k | 0 <= k < |b| ensures b[k] != Colon { }
    SplitAround(a, b, Colon);
  }

  /** A string without a colon is rejected, so the parameter stays unset. */
  lemma ParseTimeNeedsColon(s: string)
    requires Colon !in s
    ensures ParseTime(s) == None
  {
    SplitWithoutSeparator(s, Colon);
  }

  /** Two-digit rendering with a leading zero, as a user types `"07:00"`. */
  function TwoDigits(n: nat): (p: string)
    ensures IsDigits(p) && |p| >= 2
  {
    if n < 10 then "0" + NatToDigits(n) else NatToDigits(n)
  }

  function FormatClock(t: ClockTime): string
    requires t.hour >= 0 && t.minute >= 0
  {
    TwoDigits(t.hour) + [Colon] + TwoDigits(t.minute)
  }

  /** Every time of day written as `"HH:MM"` parses back to itself. */
  lemma ParseFormatRoundTrip(t: ClockTime)
    requires t.hour >= 0 && t.minute >= 0
    ensures ParseTime(FormatClock(t)) == Some(t)
  {
    TwoDigitsValue(t.hour);
    TwoDigitsValue(t.minute);
    ParseTimeOfDigits(TwoDigits(t.hour), TwoDigits(t.minute));
  }

  lemma TwoDigitsValue(n: nat)
    ensures DigitsValue(TwoDigits(n)) == n
  {
    DigitsRoundTrip(n);
    if n < 10 {
      LeadingZero(NatToDigits(n));
    }
  }
}
