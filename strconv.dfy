/**
  Go's `strconv.Atoi` on a 64-bit platform, used by the handlers to read the
  `:id` path parameter, and `strconv.Itoa`, its inverse on the int64 range.

  Atoi accepts an optional '+' or '-' followed by one or more ASCII decimal
  digits (leading zeros allowed, no underscores, no spaces) whose value fits
  in int64; everything else is an error.
*/
module Strconv {
  import opened Wrappers

  const MinInt64: int := -0x8000_0000_0000_0000
  const MaxInt64: int := 0x7fff_ffff_ffff_ffff

  predicate InInt64(n: int) {
    MinInt64 <= n <= MaxInt64
  }

  predicate IsDigit(c: char) {
    '0' <= c <= '9'
  }

  predicate AllDigits(s: string) {
    forall i :: 0 <= i < |s| ==> IsDigit(s[i])
  }

  /** The value of a string of decimal digits, most significant first. */
  function DecimalValue(s: string): nat
    requires AllDigits(s)
    decreases |s|
  {
    if s == [] then 0
    else DecimalValue(s[..|s| - 1]) * 10 + ((s[|s| - 1] as int) - ('0' as int))
  }

  /** Splits an optional leading sign off: (negative?, rest). */
  function SplitSign(s: string): (bool, string) {
    if |s| > 0 && (s[0] == '+' || s[0] == '-') then (s[0] == '-', s[1..]) else (false, s)
  }

  function Atoi(s: string): (r: Option<int>)
    ensures r.Some? ==> InInt64(r.value)
    ensures r.Some? ==> s != [] && IsDigit(s[|s| - 1])
  {
    var (negative, digits) := SplitSign(s);
    if digits == [] || !AllDigits(digits) then None
    else
      var magnitude: int := DecimalValue(digits);
      var v: int := if negative then -magnitude else magnitude;
      if InInt64(v) then Some(v) else None
  }

  function DigitChar(d: nat): char
    requires d < 10
  {
    (('0' as int) + d) as char
  }

  /** Decimal digits of a natural number, without leading zeros. */
  function Digits(n: nat): (s: string)
    ensures s != [] && AllDigits(s)
    decreases n
  {
    if n < 10 then [DigitChar(n)] else Digits(n / 10) + [DigitChar(n % 10)]
  }

  /** `strconv.Itoa`. */
  function Itoa(n: int): string {
    if n < 0 then "-" + Digits(-n) else Digits(n)
  }

  lemma {:induction false} DecimalValueOfDigits(n: nat)
    ensures DecimalValue(Digits(n)) == n
    decreases n
  {
    var s := Digits(n);
    if n >= 10 {
      DecimalValueOfDigits(n / 10);
      assert s[..|s| - 1] == Digits(n / 10);
    }
  }

  /** Parsing what Itoa prints gives the number back, for every int64. */
  lemma AtoiItoa(n: int)
    requires InInt64(n)
    ensures Atoi(Itoa(n)) == Some(n)
  {
    DecimalValueOfDigits(if n < 0 then -n else n);
    if n < 0 {
      var s := Itoa(n);
      assert SplitSign(s) == (true, Digits(-n));
    } else {
      var d := Digits(n);
      assert SplitSign(d) == (false, d);
    }
  }

  /** The error cases: nothing, a bare sign, any character that is not a digit. */
  lemma AtoiRejects(s: string, k: nat)
    requires k < |s| && !IsDigit(s[k]) && (k > 0 || (s[0] != '+' && s[0] != '-'))
    ensures Atoi(s).None?
  {
    var (negative, digits) := SplitSign(s);
    if |s| > 0 && (s[0] == '+' || s[0] == '-') {
      assert !IsDigit(digits[k - 1]);
    } else {
      assert !IsDigit(digits[k]);
    }
  }

  lemma AtoiRejectsEmptyAndBareSign()
    ensures Atoi("") == None && Atoi("+") == None && Atoi("-") == None
  {
  }

  /** A decimal numeral outside the int64 range is an error, not a wrapped value. */
  lemma AtoiOutOfRange(n: int)
    requires !InInt64(n)
    ensures Atoi(Itoa(n)) == None
  {
    DecimalValueOfDigits(if n < 0 then -n else n);
    if n < 0 {
      assert SplitSign(Itoa(n)) == (true, Digits(-n));
    } else {
      assert SplitSign(Digits(n)) == (false, Digits(n));
    }
  }
}
