/** Decimal printing and parsing of Go's 64-bit `int`: strconv.Itoa and
    strconv.Atoi, the pair the merge engine uses for its occurrence counter,
    and the digit string every "%d" in the adapters produces. */
module Decimal {
  import opened Api

  const MinInt64: int := -0x8000_0000_0000_0000
  const MaxInt64: int := 0x7fff_ffff_ffff_ffff

  predicate IsInt64(n: int) {
    MinInt64 <= n <= MaxInt64
  }

  predicate IsDigit(c: char) {
    '0' <= c <= '9'
  }

  predicate AllDigits(s: string) {
    forall i :: 0 <= i < |s| ==> IsDigit(s[i])
  }

  function DigitChar(d: nat): (c: char)
    requires d < 10
    ensures IsDigit(c)
  {
    ('0' as int + d) as char
  }

  function DigitValue(c: char): (d: nat)
    requires IsDigit(c)
    ensures d < 10 && DigitChar(d) == c
  {
    c as int - '0' as int
  }

  /** The number a string of decimal digits denotes (leading zeros allowed). */
  function ValueOf(s: string): nat
    requires AllDigits(s)
    decreases |s|
  {
    if s == [] then 0 else ValueOf(s[..|s| - 1]) * 10 + DigitValue(s[|s| - 1])
  }

  /** The decimal digits of n, most significant first. */
  function Digits(n: nat): (s: string)
    ensures |s| >= 1 && AllDigits(s)
    decreases n
  {
    if n < 10 then [DigitChar(n)] else Digits(n / 10) + [DigitChar(n % 10)]
  }

  function Pow10(k: nat): (p: nat)
    ensures p >= 1
  {
    if k == 0 then 1 else 10 * Pow10(k - 1)
  }

  /** Digits never starts with a redundant zero. */
  lemma {:induction false} DigitsNoLeadingZero(n: nat)
    ensures |Digits(n)| > 1 ==> Digits(n)[0] != '0'
    ensures n > 0 ==> Digits(n)[0] != '0'
    decreases n
  {
    if n >= 10 {
      DigitsNoLeadingZero(n / 10);
    }
  }

  /** Reading the digits back gives the number. */
  lemma {:induction false} ValueOfDigits(n: nat)
    ensures ValueOf(Digits(n)) == n
    decreases n
  {
    if n >= 10 {
      var s := Digits(n);
      ValueOfDigits(n / 10);
      assert s[..|s| - 1] == Digits(n / 10);
    }
  }

  /** Peeling the last digit off a positive number. */
  lemma DigitsStep(m: nat)
    requires m > 0
    ensures m / 10 > 0 ==> Digits(m) == Digits(m / 10) + [DigitChar(m % 10)]
    ensures m / 10 == 0 ==> Digits(m) == [DigitChar(m % 10)]
  {
  }

  /** A number below 10^k has at most k digits. */
  lemma {:induction false} DigitsLength(n: nat, k: nat)
    requires k >= 1 && n < Pow10(k)
    ensures |Digits(n)| <= k
    decreases k
  {
    if n >= 10 {
      assert Pow10(1) == 10;
      assert n / 10 < Pow10(k - 1);
      DigitsLength(n / 10, k - 1);
    }
  }

  lemma Int64Digits(n: nat)
    requires n <= MaxInt64 + 1
    ensures |Digits(n)| <= 19
  {
    assert Pow10(1) == 10;
    assert Pow10(2) == 100;
    assert Pow10(3) == 1000;
    assert Pow10(4) == 10000;
    assert Pow10(5) == 100000;
    assert Pow10(6) == 1000000;
    assert Pow10(7) == 10000000;
    assert Pow10(8) == 100000000;
    assert Pow10(9) == 1000000000;
    assert Pow10(10) == 10000000000;
    assert Pow10(11) == 100000000000;
    assert Pow10(12) == 1000000000000;
    assert Pow10(13) == 10000000000000;
    assert Pow10(14) == 100000000000000;
    assert Pow10(15) == 1000000000000000;
    assert Pow10(16) == 10000000000000000;
    assert Pow10(17) == 100000000000000000;
    assert Pow10(18) == 1000000000000000000;
    assert Pow10(19) == 10000000000000000000;
    DigitsLength(n, 19);
  }

  /** strconv.Itoa: an optional '-' followed by the digits of the magnitude. */
  function FormatInt(n: int): (s: string)
  {
    if n < 0 then "-" + Digits(-n) else Digits(n)
  }

  /** strconv.Atoi: an optional sign, then one or more decimal digits whose
      value fits in 64 bits; anything else is an error (None). */
  function ParseInt(s: string): (r: Option<int>)
    ensures r.Some? ==> IsInt64(r.value)
    ensures s == "" ==> r == None
  {
    var signed := |s| > 0 && (s[0] == '-' || s[0] == '+');
    var body := if signed then s[1..] else s;
    if body == [] || !AllDigits(body) then None
    else
      var v: int := if signed && s[0] == '-' then -(ValueOf(body) as int) else ValueOf(body);
      if IsInt64(v) then Some(v) else None
  }

  /** Printing then parsing is the identity on 64-bit integers. */
  lemma ParseFormat(n: int)
    requires IsInt64(n)
    ensures ParseInt(FormatInt(n)) == Some(n)
  {
    if n < 0 {
      ValueOfDigits(-n);
      ParseNegated(Digits(-n));
    } else {
      ValueOfDigits(n);
      ParseUnsigned(Digits(n));
    }
  }

  /** An unsigned digit string in range parses to its value. */
  lemma ParseUnsigned(s: string)
    requires |s| >= 1 && AllDigits(s) && ValueOf(s) <= MaxInt64
    ensures ParseInt(s) == Some(ValueOf(s) as int)
  {
    assert IsDigit(s[0]);
  }

  /** A '-' before a digit string in range parses to minus its value. */
  lemma ParseNegated(body: string)
    requires |body| >= 1 && AllDigits(body) && ValueOf(body) <= MaxInt64 + 1
    ensures ParseInt("-" + body) == Some(-(ValueOf(body) as int))
  {
    assert ("-" + body)[1..] == body;
  }

  /** Itoa of a non-negative number is a canonical digit string: digits only,
      no leading zero unless the number is 0. */
  lemma FormatNonNegative(n: int)
    requires n >= 0
    ensures AllDigits(FormatInt(n)) && |FormatInt(n)| >= 1
    ensures (FormatInt(n)[0] == '0') <==> n == 0
    ensures n == 0 ==> FormatInt(n) == "0"
  {
    DigitsNoLeadingZero(n);
  }

  /** Itoa of a negative number is "-" followed by Itoa of its magnitude. */
  lemma FormatNegative(n: int)
    requires n < 0
    ensures FormatInt(n) == "-" + FormatInt(-n)
  {
  }
}
