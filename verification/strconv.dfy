/** Go's `strconv.Atoi` on a 64-bit platform, and `strconv.Itoa` as its inverse. */
module StrConv {
  import opened Wrappers
  import opened Errors

  const MinInt64: int := -0x8000_0000_0000_0000
  const MaxInt64: int := 0x7fff_ffff_ffff_ffff

  predicate IsDigit(c: char)
  {
    '0' <= c <= '9'
  }

  predicate AllDigits(s: string)
  {
    forall k | 0 <= k < |s| :: IsDigit(s[k])
  }

  /** The value of a decimal digit string, most significant digit first. */
  function DigitsValue(s: string): nat
    requires AllDigits(s)
  {
    if |s| == 0 then 0 else DigitsValue(s[..|s| - 1]) * 10 + ((s[|s| - 1] as int) - ('0' as int))
  }

  /** A string Atoi accepts: an optional sign followed by one or more decimal digits. */
  predicate Numeral(s: string)
  {
    if |s| > 0 && (s[0] == '+' || s[0] == '-') then |s| > 1 && AllDigits(s[1..]) else |s| > 0 && AllDigits(s)
  }

  /** The number a numeral denotes: its digits' value, negated after a `-`. */
  function SignedValue(s: string): int
    requires Numeral(s)
  {
    if s[0] == '-' then -(DigitsValue(s[1..]) as int)
    else if s[0] == '+' then DigitsValue(s[1..])
    else DigitsValue(s)
  }

  /**
   * `strconv.Atoi`: an optional `+` or `-`, then decimal digits only (no
   * spaces, no underscores), with a value in the int64 range.
   */
  function Atoi(s: string): (r: Result<int, Error>)
    ensures r.Success? ==> Numeral(s) && MinInt64 <= r.value <= MaxInt64
    ensures !Numeral(s) ==> r == Failure(NotAnInteger(s))
    ensures r.Failure? ==> r.error == NotAnInteger(s)
    ensures r.Success? ==> (r.value < 0 <==> s[0] == '-' && r.value != 0)
    ensures Numeral(s) ==> (r.Success? <==> MinInt64 <= SignedValue(s) <= MaxInt64)
    ensures r.Success? ==> r.value == SignedValue(s)
  {
    var signed := |s| > 0 && (s[0] == '+' || s[0] == '-');
    var digits := if signed then s[1..] else s;
    if |digits| == 0 || !AllDigits(digits) then Failure(NotAnInteger(s))
    else
      var magnitude: int := DigitsValue(digits);
      var v := if s[0] == '-' then -magnitude else magnitude;
      if v < MinInt64 || v > MaxInt64 then Failure(NotAnInteger(s)) else Success(v)
  }

  /** The decimal digits of a natural number, without leading zeros. */
  function Digits(n: nat): (s: string)
    ensures |s| > 0 && AllDigits(s)
    decreases n
  {
    if n < 10 then [('0' as int + n) as char]
    else Digits(n / 10) + [('0' as int + n % 10) as char]
  }

  /** `strconv.Itoa`: a minus sign for negatives, then the digits of the magnitude. */
  function Itoa(n: int): string
  {
    if n < 0 then "-" + Digits(-n) else Digits(n)
  }

  lemma {:induction false} DigitsValueOfDigits(n: nat)
    ensures DigitsValue(Digits(n)) == n
    decreases n
  {
    var s := Digits(n);
    if n >= 10 {
      assert s[..|s| - 1] == Digits(n / 10);
      DigitsValueOfDigits(n / 10);
    }
  }

  /** Atoi reads back every int64 Itoa writes. */
  lemma AtoiItoa(n: int)
    requires MinInt64 <= n <= MaxInt64
    ensures Atoi(Itoa(n)) == Success(n)
  {
    var s := Itoa(n);
    if n < 0 {
      assert s[1..] == Digits(-n);
      DigitsValueOfDigits(-n);
    } else {
      assert IsDigit(s[0]);
      DigitsValueOfDigits(n);
    }
  }
}
