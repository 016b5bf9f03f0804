/**
 * `strconv.ParseUint(s, 10, 32)`, the parse every handler applies to its `{id}` path segment, and
 * `strconv.FormatUint(n, 10)`, its inverse, which renders an id as a path segment.
 */
module Strconv {
  import opened Wrappers

  const MaxUint32: nat := 0xFFFF_FFFF

  predicate IsDigit(c: char) { '0' <= c <= '9' }

  function DigitValue(c: char): nat
    requires IsDigit(c)
  {
    c as int - '0' as int
  }

  /** A non-empty string of decimal digits: the only syntax `ParseUint` accepts in base 10 (no sign, no underscores). */
  predicate IsDecimal(s: string) {
    |s| > 0 && forall i | 0 <= i < |s| :: IsDigit(s[i])
  }

  /** The number a string of decimal digits denotes, most significant digit first; leading zeros are allowed. */
  function DecimalValue(s: string): nat
    requires forall i | 0 <= i < |s| :: IsDigit(s[i])
  {
    if s == [] then 0 else DecimalValue(s[..|s| - 1]) * 10 + DigitValue(s[|s| - 1])
  }

  /**
   * `strconv.ParseUint(s, 10, 32)`: it succeeds exactly on non-empty digit strings whose value fits in
   * 32 bits, and then yields that value. Like Go's loop it scans left to right and stops at the first
   * character that is not a digit or at the first digit that overflows.
   */
  function ParseUint32(s: string): (r: Option<nat>)
    ensures r.Some? <==> IsDecimal(s) && DecimalValue(s) <= MaxUint32
    ensures r.Some? ==> r.value == DecimalValue(s) && r.value <= MaxUint32
  {
    if s == [] then None
    else
      ScanCorrect(s, 0, 0);
      Scan(s, 0, 0)
  }

  /** Go's loop from position `i` on, with `acc` the value read so far. */
  function Scan(s: string, i: nat, acc: nat): (r: Option<nat>)
    requires i <= |s|
    ensures r.Some? ==> forall k | i <= k < |s| :: IsDigit(s[k])
    ensures r.Some? ==> acc <= r.value
    ensures r.Some? && acc <= MaxUint32 ==> r.value <= MaxUint32
    decreases |s| - i
  {
    if i == |s| then Some(acc)
    else if !IsDigit(s[i]) then None
    else
      var n := acc * 10 + DigitValue(s[i]);
      if n > MaxUint32 then None else Scan(s, i + 1, n)
  }

  lemma {:induction false} PrefixValueStep(s: string, i: nat)
    requires i < |s|
    requires forall k | 0 <= k <= i :: IsDigit(s[k])
    ensures DecimalValue(s[..i + 1]) == DecimalValue(s[..i]) * 10 + DigitValue(s[i])
  {
    assert s[..i + 1][..i] == s[..i];
  }

  /** Appending digits never makes the value smaller. */
  lemma {:induction false} PrefixValueBelow(s: string, i: nat)
    requires i <= |s|
    requires forall k | 0 <= k < |s| :: IsDigit(s[k])
    ensures DecimalValue(s[..i]) <= DecimalValue(s)
    decreases |s| - i
  {
    if i < |s| {
      PrefixValueStep(s, i);
      PrefixValueBelow(s, i + 1);
    } else {
      assert s[..i] == s;
    }
  }

  lemma {:induction false} ScanCorrect(s: string, i: nat, acc: nat)
    requires i <= |s|
    requires forall k | 0 <= k < i :: IsDigit(s[k])
    requires acc == DecimalValue(s[..i]) && acc <= MaxUint32
    ensures Scan(s, i, acc) ==
      if (forall k | 0 <= k < |s| :: IsDigit(s[k])) && DecimalValue(s) <= MaxUint32
      then Some(DecimalValue(s)) else None
    decreases |s| - i
  {
    if i == |s| {
      assert s[..i] == s;
    } else if !IsDigit(s[i]) {
    } else {
      PrefixValueStep(s, i);
      var n := acc * 10 + DigitValue(s[i]);
      if n > MaxUint32 {
        if forall k | 0 <= k < |s| :: IsDigit(s[k]) {
          PrefixValueBelow(s, i + 1);
        }
      } else {
        ScanCorrect(s, i + 1, n);
      }
    }
  }

  function DigitChar(d: nat): (c: char)
    requires d < 10
    ensures IsDigit(c) && DigitValue(c) == d
  {
    ('0' as int + d) as char
  }

  /** `strconv.FormatUint(n, 10)`: the shortest decimal rendering of `n`. */
  function FormatUint(n: nat): (s: string)
    decreases n
  {
    if n < 10 then [DigitChar(n)] else FormatUint(n / 10) + [DigitChar(n % 10)]
  }

  lemma {:induction false} FormatUintDecimal(n: nat)
    ensures IsDecimal(FormatUint(n)) && DecimalValue(FormatUint(n)) == n
    decreases n
  {
    if n >= 10 {
      FormatUintDecimal(n / 10);
      var s := FormatUint(n);
      assert s[..|s| - 1] == FormatUint(n / 10);
    }
  }

  /** Round trip: every 32-bit id, rendered as a path segment, parses back to itself. */
  lemma ParseFormatRoundTrip(n: nat)
    requires n <= MaxUint32
    ensures ParseUint32(FormatUint(n)) == Some(n)
  {
    FormatUintDecimal(n);
  }

  /** A leading sign is a syntax error for `ParseUint`, so "-123" is rejected. */
  lemma ParseRejectsSign(s: string)
    requires |s| > 0 && (s[0] == '-' || s[0] == '+')
    ensures ParseUint32(s) == None
  {
    assert !IsDigit(s[0]);
  }

  /** Range check: the decimal rendering of any value beyond 32 bits is refused. */
  lemma ParseFormatOverflow(n: nat)
    requires n > MaxUint32
    ensures ParseUint32(FormatUint(n)) == None
  {
    FormatUintDecimal(n);
  }
}
