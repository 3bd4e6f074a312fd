/** Decimal numerals as strings: their values, and comparing them without converting them. */
module Decimal {

  predicate IsDigit(c: char) {
    '0' <= c <= '9'
  }

  predicate AllDigits(s: string) {
    forall i | 0 <= i < |s| :: IsDigit(s[i])
  }

  function DigitValue(c: char): nat
    requires IsDigit(c)
  {
    c as int - '0' as int
  }

  function Pow10(n: nat): (p: nat)
    ensures p > 0
  {
    if n == 0 then 1 else 10 * Pow10(n - 1)
  }

  /** The number a digit string denotes. */
  function Value(s: string): nat
    requires AllDigits(s)
  {
    if s == [] then 0 else 10 * Value(s[..|s| - 1]) + DigitValue(s[|s| - 1])
  }

  /** Digits without leading zeros. */
  predicate Canonical(s: string) {
    s != [] && AllDigits(s) && (|s| > 1 ==> s[0] != '0')
  }

  function Numeral(n: nat): string
    decreases n
  {
    var last := ['0' + (n % 10) as char];
    if n < 10 then last else Numeral(n / 10) + last
  }

  lemma {:induction false} NumeralIsExact(n: nat)
    ensures Canonical(Numeral(n)) && Value(Numeral(n)) == n
    ensures n > 0 ==> Numeral(n)[0] != '0'
    decreases n
  {
    if n >= 10 {
      NumeralIsExact(n / 10);
      var front, last := Numeral(n / 10), ['0' + (n % 10) as char];
      assert (front + last)[..|front|] == front;
    } else {
      assert Numeral(n)[..0] == [];
    }
  }

  /** Reading from the front: the first digit counts as many tens as digits follow. */
  lemma {:induction false} ValueFromFront(s: string)
    requires AllDigits(s) && s != []
    ensures Value(s) == DigitValue(s[0]) * Pow10(|s| - 1) + Value(s[1..])
    decreases |s|
  {
    var n := |s| - 1;
    if n == 0 {
      assert s[..0] == [] && s[1..] == [];
    } else {
      ValueFromFront(s[..n]);
      assert s[..n][1..] == s[1..][..n - 1];
      assert s[1..][n - 1] == s[n];
      TenTimes(DigitValue(s[0]), Pow10(n - 1), Value(s[1..][..n - 1]));
    }
  }

  lemma TenTimes(d: nat, p: nat, v: nat)
    ensures 10 * (d * p + v) == d * (10 * p) + 10 * v
  {
  }

  lemma {:induction false} ValueBelow(s: string)
    requires AllDigits(s)
    ensures Value(s) < Pow10(|s|)
    decreases |s|
  {
    if s != [] {
      ValueBelow(s[..|s| - 1]);
    }
  }

  lemma {:induction false} Pow10Grows(m: nat, n: nat)
    requires m <= n
    ensures Pow10(m) <= Pow10(n)
    decreases n
  {
    if m < n {
      Pow10Grows(m, n - 1);
    }
  }

  lemma ValueAtLeast(s: string)
    requires Canonical(s) && s[0] != '0'
    ensures Pow10(|s| - 1) <= Value(s)
  {
    ValueFromFront(s);
    MultipleAtLeast(DigitValue(s[0]), Pow10(|s| - 1));
  }

  lemma MultipleAtLeast(d: nat, p: nat)
    requires d >= 1
    ensures d * p >= p
  {
  }

  // ----- comparing as strings -----

  /** Lexicographic order by character code. */
  predicate Less(a: string, b: string) {
    if a == [] then b != []
    else if b == [] then false
    else a[0] < b[0] || (a[0] == b[0] && Less(a[1..], b[1..]))
  }

  lemma {:induction false} LessIsStrict(a: string, b: string)
    ensures !(Less(a, b) && Less(b, a)) && !Less(a, a)
    ensures a == b || Less(a, b) || Less(b, a)
    decreases |a|
  {
    if a != [] {
      LessIsStrict(a[1..], a[1..]);
      if b != [] && a[0] == b[0] {
        LessIsStrict(a[1..], b[1..]);
        assert a[1..] == b[1..] ==> a == [a[0]] + a[1..] == b;
      }
    }
  }

  lemma {:induction false} LessTransitive(a: string, b: string, c: string)
    requires Less(a, b) && Less(b, c)
    ensures Less(a, c)
    decreases |a|
  {
    if a != [] && a[0] == b[0] == c[0] {
      LessTransitive(a[1..], b[1..], c[1..]);
    }
  }

  lemma {:induction false} LessOfOneLength(a: string, b: string)
    requires AllDigits(a) && AllDigits(b) && |a| == |b|
    ensures Less(a, b) <==> Value(a) < Value(b)
    decreases |a|
  {
    if a != [] {
      ValueFromFront(a);
      ValueFromFront(b);
      ValueBelow(a[1..]);
      ValueBelow(b[1..]);
      LessOfOneLength(a[1..], b[1..]);
      LeadingDigitDecides(DigitValue(a[0]), Value(a[1..]), DigitValue(b[0]), Value(b[1..]), Pow10(|a| - 1));
    }
  }

  lemma LeadingDigitDecides(d: nat, x: nat, e: nat, y: nat, p: nat)
    requires x < p && y < p
    ensures d < e ==> d * p + x < e * p + y
    ensures e < d ==> e * p + y < d * p + x
  {
    if d < e {
      MultipleAtLeast(e - d, p);
    } else if e < d {
      MultipleAtLeast(d - e, p);
    }
  }

  /** Comparing lengths first and characters second. */
  predicate Shorter(a: string, b: string) {
    |a| < |b| || (|a| == |b| && Less(a, b))
  }

  /** Without leading zeros, that is comparing the numbers. */
  lemma ShorterIsSmaller(a: string, b: string)
    requires Canonical(a) && Canonical(b)
    ensures Shorter(a, b) <==> Value(a) < Value(b)
    ensures Value(a) == Value(b) ==> a == b
  {
    if |a| < |b| {
      LongerIsLarger(a, b);
    } else if |b| < |a| {
      LongerIsLarger(b, a);
    } else {
      LessOfOneLength(a, b);
      LessOfOneLength(b, a);
      LessIsStrict(a, b);
    }
  }

  lemma LongerIsLarger(a: string, b: string)
    requires Canonical(a) && Canonical(b) && |a| < |b|
    ensures Value(a) < Value(b)
  {
    ValueBelow(a);
    ValueAtLeast(b);
    Pow10Grows(|a|, |b| - 1);
  }

  /** A number has one numeral without leading zeros. */
  lemma CanonicalIsNumeral(s: string)
    requires Canonical(s)
    ensures s == Numeral(Value(s))
  {
    NumeralIsExact(Value(s));
    ShorterIsSmaller(s, Numeral(Value(s)));
  }

  // ----- leading zeros -----

  /** Drops zeros in front of further digits. */
  function StripZeros(s: string): string {
    if |s| > 1 && s[0] == '0' then StripZeros(s[1..]) else s
  }

  lemma {:induction false} StripZerosIsCanonical(s: string)
    requires s != [] && AllDigits(s)
    ensures Canonical(StripZeros(s)) && Value(StripZeros(s)) == Value(s)
    decreases |s|
  {
    if |s| > 1 && s[0] == '0' {
      StripZerosIsCanonical(s[1..]);
      ValueFromFront(s);
    }
  }

  lemma StrippedIsNumeral(s: string)
    requires s != [] && AllDigits(s)
    ensures StripZeros(s) == Numeral(Value(s))
  {
    StripZerosIsCanonical(s);
    CanonicalIsNumeral(StripZeros(s));
  }
}
