/** Decimal numerals: the value both digit loops compute, and the digits `%d` prints. */
module Decimal {
  import opened CText

  predicate AllDigits(s: string) {
    forall i :: 0 <= i < |s| ==> IsDigit(s[i])
  }

  function DigitValue(c: char): (v: nat)
    ensures v < 10
  {
    if IsDigit(c) then c as int - '0' as int else 0
  }

  function DigitChar(v: nat): (c: char)
    requires v < 10
    ensures IsDigit(c) && DigitValue(c) == v
  {
    ('0' as int + v) as char
  }

  /** The value of a digit string, most significant digit first. */
  function Value(s: string): nat {
    if s == "" then 0 else Value(s[..|s| - 1]) * 10 + DigitValue(s[|s| - 1])
  }

  /** The decimal digits of `n`, without leading zeros. */
  function Digits(n: nat): (s: string)
    ensures |s| > 0 && AllDigits(s)
    ensures |s| > 1 ==> s[0] != '0'
    decreases n
  {
    if n < 10 then [DigitChar(n)] else Digits(n / 10) + [DigitChar(n % 10)]
  }

  function Pow10(k: nat): (p: nat)
    ensures p > 0
  {
    if k == 0 then 1 else 10 * Pow10(k - 1)
  }

  lemma {:induction false} ValueOfDigits(n: nat)
    ensures Value(Digits(n)) == n
    decreases n
  {
    var s := Digits(n);
    if n < 10 {
      assert s[..0] == "";
    } else {
      ValueOfDigits(n / 10);
      assert s[..|s| - 1] == Digits(n / 10);
    }
  }

  /** A numeral of at most `k` digits is below 10^k. */
  lemma {:induction false} DigitsLength(n: nat, k: nat)
    requires 0 < k && n < Pow10(k)
    ensures |Digits(n)| <= k
    decreases k
  {
    if n >= 10 {
      assert Pow10(k) == 10 * Pow10(k - 1);
      DigitsLength(n / 10, k - 1);
    }
  }

  /** `n` without its last `k` decimal digits. */
  function DropDigits(n: nat, k: nat): nat {
    if k == 0 then n else DropDigits(n / 10, k - 1)
  }

  lemma {:induction false} DropDigitsIsDivision(n: nat, k: nat)
    ensures DropDigits(n, k) == n / Pow10(k)
    decreases k
  {
    if k > 0 {
      DropDigitsIsDivision(n / 10, k - 1);
      DivTen(n, Pow10(k - 1));
    }
  }

  lemma DivTen(a: nat, p: nat)
    requires p > 0
    ensures (a / 10) / p == a / (10 * p)
  {
    var b, t := a / 10, a % 10;
    var q, r := b / p, b % p;
    assert 10 * (p * q + r) + t == (10 * p) * q + (10 * r + t);
    EuclidUnique(10 * p, q, 10 * r + t, a / (10 * p), a % (10 * p));
  }

  /** Quotients are unique. */
  lemma EuclidUnique(d: nat, q: int, r: nat, q': int, r': nat)
    requires r < d && r' < d
    requires d * q + r == d * q' + r'
    ensures q == q'
  {
    assert d * (q - q') == r' - r && d * (q' - q) == r - r';
    if q > q' {
      MulAtLeast(d, q - q');
    } else if q < q' {
      MulAtLeast(d, q' - q);
    }
  }

  lemma MulAtLeast(d: nat, x: nat)
    requires x >= 1
    ensures d * x >= d
  {
  }

  /** Cutting characters off a numeral drops digits of its value. */
  lemma {:induction false} ValueOfCut(s: string, n: nat)
    requires n <= |s|
    ensures Value(s[..n]) == DropDigits(Value(s), |s| - n)
    decreases |s|
  {
    if n == |s| {
      assert s[..n] == s;
    } else {
      var t := s[..|s| - 1];
      ValueOfCut(t, n);
      assert t[..n] == s[..n];
      assert Value(s) / 10 == Value(t);
    }
  }
}
