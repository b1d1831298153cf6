/**
  The parts of Go's `strconv` package the environment overlay relies on:
  `ParseUint(s, 10, 64)`, `ParseInt(s, 10, 64)` and `ParseBool(s)`, given
  exactly (base 10 with no prefix and no underscores, 64-bit range checks,
  the error kind a `*NumError` carries), together with the decimal
  formatting that inverts them.
*/
module Strconv {

  const MaxUint64: nat := 0xFFFF_FFFF_FFFF_FFFF
  const MaxInt64: int := 0x7FFF_FFFF_FFFF_FFFF
  const MinInt64: int := -0x8000_0000_0000_0000

  /** The `Err` field of Go's `*strconv.NumError`. */
  datatype NumError = ErrSyntax | ErrRange

  /** The outcome of a parse: a value, or the kind of `*NumError`. */
  datatype Parsed<+T> = Ok(value: T) | Err(kind: NumError)

  predicate IsDigit(c: char) {
    '0' <= c <= '9'
  }

  function DigitValue(c: char): (d: nat)
    requires IsDigit(c)
    ensures d < 10
  {
    (c as int) - ('0' as int)
  }

  function DigitChar(d: nat): (c: char)
    requires d < 10
    ensures IsDigit(c) && DigitValue(c) == d
  {
    (('0' as int) + d) as char
  }

  predicate AllDigits(s: string) {
    forall i :: 0 <= i < |s| ==> IsDigit(s[i])
  }

  /** The number a string of decimal digits denotes, read most significant digit first. */
  function DecimalValue(s: string): nat
    requires AllDigits(s)
  {
    if s == [] then 0 else 10 * DecimalValue(s[..|s| - 1]) + DigitValue(s[|s| - 1])
  }

  /**
    The digit loop of `ParseUint` from position `i` on, with `n` the value
    read so far: a non-digit is a syntax error, and a value that would
    exceed 2^64 - 1 is a range error at the digit that causes it, before
    any later character is looked at.
  */
  function ScanDigits(s: string, i: nat, n: nat): (r: Parsed<nat>)
    requires i <= |s|
    ensures r.Ok? ==> n <= r.value
    ensures r.Ok? && i < |s| ==> r.value <= MaxUint64
    decreases |s| - i
  {
    if i == |s| then Ok(n)
    else if !IsDigit(s[i]) then Err(ErrSyntax)
    else if 10 * n + DigitValue(s[i]) > MaxUint64 then Err(ErrRange)
    else ScanDigits(s, i + 1, 10 * n + DigitValue(s[i]))
  }

  /** `strconv.ParseUint(s, 10, 64)`: no sign, at least one digit. */
  function ParseUint(s: string): (r: Parsed<nat>)
    ensures r.Ok? ==> r.value <= MaxUint64
    ensures s == "" || !IsDigit(s[0]) ==> r == Err(ErrSyntax)
  {
    if s == "" then Err(ErrSyntax) else ScanDigits(s, 0, 0)
  }

  /** What `ParseInt` hands to `ParseUint`: the string without its leading sign, if any. */
  function Magnitude(s: string): (m: string)
    ensures |m| <= |s| && m == s[|s| - |m|..]
  {
    if |s| > 0 && (s[0] == '+' || s[0] == '-') then s[1..] else s
  }

  /**
    `strconv.ParseInt(s, 10, 64)`: an optional `+` or `-`, then the digits
    as `ParseUint` reads them; a magnitude outside the int64 range is a
    range error.
  */
  function ParseInt(s: string): (r: Parsed<int>)
    ensures r.Ok? ==> MinInt64 <= r.value <= MaxInt64
  {
    if s == "" then Err(ErrSyntax)
    else
      var neg := s[0] == '-';
      match ParseUint(Magnitude(s))
      case Err(e) => Err(e)
      case Ok(u) =>
        if !neg && u > MaxInt64 then Err(ErrRange)
        else if neg && u > -MinInt64 then Err(ErrRange)
        else Ok(if neg then -(u as int) else u as int)
  }

  const TrueLiterals: set<string> := {"1", "t", "T", "TRUE", "true", "True"}
  const FalseLiterals: set<string> := {"0", "f", "F", "FALSE", "false", "False"}

  /** `strconv.ParseBool(s)`: exactly twelve literals are accepted. */
  function ParseBool(s: string): (r: Parsed<bool>)
    ensures r.Ok? <==> s in TrueLiterals + FalseLiterals
    ensures r.Ok? ==> (r.value <==> s in TrueLiterals)
    ensures r.Err? ==> r.kind == ErrSyntax
  {
    if s in TrueLiterals then Ok(true)
    else if s in FalseLiterals then Ok(false)
    else Err(ErrSyntax)
  }

  /** `strconv.FormatUint(n, 10)`. */
  function FormatUint(n: nat): string {
    if n < 10 then [DigitChar(n)] else FormatUint(n / 10) + [DigitChar(n % 10)]
  }

  /** `strconv.FormatInt(x, 10)`. */
  function FormatInt(x: int): string {
    if x < 0 then "-" + FormatUint(-x) else FormatUint(x)
  }

  /** `strconv.FormatBool(b)`. */
  function FormatBool(b: bool): string {
    if b then "true" else "false"
  }

  /** A string of the shape `ParseInt` reads: an optional sign and at least one digit. */
  predicate IsSignedDecimal(s: string) {
    Magnitude(s) != "" && AllDigits(Magnitude(s))
  }

  /** The integer a signed decimal string denotes, without any range limit. */
  function SignedValue(s: string): int
    requires IsSignedDecimal(s)
  {
    if s[0] == '-' then -(DecimalValue(s[1..]) as int)
    else if s[0] == '+' then DecimalValue(s[1..])
    else DecimalValue(s)
  }

  /** The first `k` characters are digits and already exceed 2^64 - 1. */
  predicate OverflowsAt(s: string, k: nat) {
    1 <= k <= |s| && AllDigits(s[..k]) && DecimalValue(s[..k]) > MaxUint64
  }

  // ---------------------------------------------------------------------
  // Lemmas

  lemma {:induction false} DecimalValueOfPrefix(s: string, k: nat)
    requires AllDigits(s) && k <= |s|
    ensures AllDigits(s[..k]) && DecimalValue(s[..k]) <= DecimalValue(s)
    decreases |s|
  {
    if k < |s| {
      var init := s[..|s| - 1];
      assert init[..k] == s[..k];
      DecimalValueOfPrefix(init, k);
    } else {
      assert s[..k] == s;
    }
  }

  lemma {:induction false} DecimalValueSnoc(s: string, i: nat)
    requires i < |s| && AllDigits(s[..i]) && IsDigit(s[i])
    ensures AllDigits(s[..i + 1])
    ensures DecimalValue(s[..i + 1]) == 10 * DecimalValue(s[..i]) + DigitValue(s[i])
  {
    assert s[..i + 1][..i] == s[..i];
  }

  /** The digit loop accepts exactly the digit strings of value at most 2^64 - 1. */
  lemma {:induction false} ScanDigitsCorrect(s: string, i: nat, n: nat)
    requires i <= |s| && AllDigits(s[..i]) && n == DecimalValue(s[..i]) && n <= MaxUint64
    ensures ScanDigits(s, i, n).Ok? <==> AllDigits(s) && DecimalValue(s) <= MaxUint64
    ensures ScanDigits(s, i, n).Ok? ==> ScanDigits(s, i, n).value == DecimalValue(s)
    ensures ScanDigits(s, i, n) == Err(ErrRange) <==> exists k :: i < k <= |s| && OverflowsAt(s, k)
    decreases |s| - i
  {
    if i == |s| {
      assert s[..i] == s;
    } else if !IsDigit(s[i]) {
      assert !AllDigits(s);
      forall k | i < k <= |s| ensures !OverflowsAt(s, k) {
        assert s[..k][i] == s[i];
      }
    } else {
      DecimalValueSnoc(s, i);
      var n' := 10 * n + DigitValue(s[i]);
      if n' > MaxUint64 {
        assert OverflowsAt(s, i + 1);
        if AllDigits(s) {
          DecimalValueOfPrefix(s, i + 1);
        }
      } else {
        ScanDigitsCorrect(s, i + 1, n');
        if exists k :: i < k <= |s| && OverflowsAt(s, k) {
          var k :| i < k <= |s| && OverflowsAt(s, k);
          assert k != i + 1;
        }
      }
    }
  }

  /**
    `ParseUint` succeeds exactly on non-empty digit strings whose value fits
    in 64 bits, and returns that value; it reports a range error exactly when
    some all-digit prefix already overflows, and a syntax error otherwise.
  */
  lemma ParseUintCorrect(s: string)
    ensures ParseUint(s).Ok? <==> s != "" && AllDigits(s) && DecimalValue(s) <= MaxUint64
    ensures ParseUint(s).Ok? ==> ParseUint(s).value == DecimalValue(s) <= MaxUint64
    ensures ParseUint(s) == Err(ErrRange) <==> exists k :: OverflowsAt(s, k)
  {
    if s != "" {
      assert s[..0] == [];
      ScanDigitsCorrect(s, 0, 0);
    }
  }

  /**
    `ParseInt` succeeds exactly on signed decimal strings whose value lies in
    the int64 range, and returns that value.
  */
  lemma ParseIntCorrect(s: string)
    ensures ParseInt(s).Ok? <==> IsSignedDecimal(s) && MinInt64 <= SignedValue(s) <= MaxInt64
    ensures ParseInt(s).Ok? ==> ParseInt(s).value == SignedValue(s)
    ensures ParseInt(s) == Err(ErrRange) <==>
      (exists k :: OverflowsAt(Magnitude(s), k)) ||
      (IsSignedDecimal(s) && !(MinInt64 <= SignedValue(s) <= MaxInt64))
  {
    var m := Magnitude(s);
    ParseUintCorrect(m);
    if IsSignedDecimal(s) && DecimalValue(m) > MaxUint64 {
      assert m[..|m|] == m;
      assert OverflowsAt(m, |m|);
    }
  }

  /** `ParseInt` fails with a range error on every all-digit input above the int64 range. */
  lemma ParseIntRange(s: string)
    requires s != "" && AllDigits(s) && DecimalValue(s) > MaxInt64
    ensures ParseInt(s) == Err(ErrRange)
  {
    ParseUintCorrect(s);
    assert s[..|s|] == s;
    if DecimalValue(s) > MaxUint64 {
      assert OverflowsAt(s, |s|);
    }
  }

  lemma {:induction false} FormatUintDigits(n: nat)
    ensures FormatUint(n) != "" && AllDigits(FormatUint(n))
    ensures DecimalValue(FormatUint(n)) == n
  {
    if n >= 10 {
      FormatUintDigits(n / 10);
      var s := FormatUint(n);
      assert s[..|s| - 1] == FormatUint(n / 10);
    }
  }

  /** Formatting then parsing an unsigned 64-bit value gives it back. */
  lemma ParseUintFormat(n: nat)
    requires n <= MaxUint64
    ensures ParseUint(FormatUint(n)) == Ok(n)
  {
    FormatUintDigits(n);
    ParseUintCorrect(FormatUint(n));
  }

  /** Formatting then parsing a signed 64-bit value gives it back. */
  lemma ParseIntFormat(x: int)
    requires MinInt64 <= x <= MaxInt64
    ensures ParseInt(FormatInt(x)) == Ok(x)
  {
    var s := FormatInt(x);
    if x < 0 {
      FormatUintDigits(-x);
      assert s[1..] == FormatUint(-x);
    } else {
      FormatUintDigits(x);
    }
    ParseIntCorrect(s);
  }

  /** Formatting then parsing a boolean gives it back. */
  lemma ParseBoolFormat(b: bool)
    ensures ParseBool(FormatBool(b)) == Ok(b)
  {
  }
}
