/** Decimal digit strings: atoi, apr_itoa and the zero-padding printf conversion "%0*d". */
module Decimal {
  import opened Text

  function Pow10(k: nat): (p: nat)
    ensures p > 0
  {
    if k == 0 then 1 else 10 * Pow10(k - 1)
  }

  function DigitChar(d: nat): (c: char)
    requires d < 10
    ensures IsDigit(c)
  {
    '0' + d as char
  }

  /** atoi on a string of digits whose value fits the C int. */
  function Value(s: string): nat
    requires AllDigits(s)
  {
    if s == [] then 0
    else 10 * Value(s[..|s| - 1]) + (s[|s| - 1] as int - '0' as int)
  }

  /** apr_itoa on a non-negative int: no leading zeros. */
  function Itoa(n: nat): (s: string)
    ensures |s| > 0 && AllDigits(s)
  {
    if n < 10 then [DigitChar(n)] else Itoa(n / 10) + [DigitChar(n % 10)]
  }

  /** The last w decimal digits of n. */
  function Digits(w: nat, n: nat): (s: string)
    ensures |s| == w && AllDigits(s)
  {
    if w == 0 then [] else Digits(w - 1, n / 10) + [DigitChar(n % 10)]
  }

  function Zeros(k: nat): (s: string)
    ensures |s| == k && AllDigits(s) && forall i :: 0 <= i < k ==> s[i] == '0'
  {
    seq(k, _ => '0')
  }

  /** printf "%0*d" with width w and n >= 0: never truncates. */
  function Padded(w: nat, n: nat): string {
    if |Itoa(n)| >= w then Itoa(n) else Zeros(w - |Itoa(n)|) + Itoa(n)
  }

  lemma {:induction false} DigitsOfValue(s: string)
    requires AllDigits(s)
    ensures Value(s) < Pow10(|s|)
    ensures Digits(|s|, Value(s)) == s
  {
    if s != [] {
      var t := s[..|s| - 1];
      DigitsOfValue(t);
      assert s == t + [s[|s| - 1]];
      assert Value(s) / 10 == Value(t);
    }
  }

  lemma {:induction false} ValueOfDigits(w: nat, n: nat)
    requires n < Pow10(w)
    ensures Value(Digits(w, n)) == n
  {
    if w > 0 {
      ValueOfDigits(w - 1, n / 10);
      var s := Digits(w, n);
      assert s[..|s| - 1] == Digits(w - 1, n / 10);
    }
  }

  lemma {:induction false} ValueOfConcat(a: string, b: string)
    requires AllDigits(a) && AllDigits(b)
    ensures AllDigits(a + b)
    ensures Value(a + b) == Value(a) * Pow10(|b|) + Value(b)
  {
    if b == [] {
      assert a + b == a;
    } else {
      var t := b[..|b| - 1];
      ValueOfConcat(a, t);
      assert (a + b)[..|a + b| - 1] == a + t;
      assert Value(a + b) == 10 * Value(a + t) + (b[|t|] as int - '0' as int);
      TimesTen(Value(a), Pow10(|t|));
    }
  }

  lemma TimesTen(x: int, y: int)
    ensures 10 * (x * y) == x * (10 * y)
  {
  }

  /** A leading zero changes nothing. */
  lemma {:induction false} DigitsLeadingZero(w: nat, n: nat)
    requires n < Pow10(w)
    ensures Digits(w + 1, n) == "0" + Digits(w, n)
  {
    if w > 0 {
      DigitsLeadingZero(w - 1, n / 10);
    }
  }

  lemma {:induction false} DigitsLeadingZeros(k: nat, w: nat, n: nat)
    requires n < Pow10(w)
    ensures n < Pow10(k + w)
    ensures Digits(k + w, n) == Zeros(k) + Digits(w, n)
  {
    hide Pow10, Digits, Zeros;
    Pow10Monotone(w, k + w);
    if k > 0 {
      DigitsLeadingZeros(k - 1, w, n);
      DigitsLeadingZero(k - 1 + w, n);
      assert Zeros(k) == "0" + Zeros(k - 1);
    } else {
      assert Zeros(0) + Digits(w, n) == Digits(w, n);
    }
  }

  /** apr_itoa prints the shortest digit string. */
  lemma {:induction false} ItoaIsShortest(n: nat)
    ensures n < Pow10(|Itoa(n)|)
    ensures Itoa(n) == Digits(|Itoa(n)|, n)
    ensures |Itoa(n)| > 1 ==> Pow10(|Itoa(n)| - 1) <= n
  {
    if n >= 10 {
      ItoaIsShortest(n / 10);
    } else {
      assert Digits(1, n) == Digits(0, n / 10) + [DigitChar(n)];
    }
  }

  lemma {:induction false} Pow10Monotone(a: nat, b: nat)
    requires a <= b
    ensures Pow10(a) <= Pow10(b)
  {
    if a < b {
      Pow10Monotone(a, b - 1);
    }
  }

  /** A number below 10^w needs at most w digits. */
  lemma ItoaFits(w: nat, n: nat)
    requires w > 0 && n < Pow10(w)
    ensures |Itoa(n)| <= w
  {
    ItoaIsShortest(n);
    if |Itoa(n)| > w {
      Pow10Monotone(w, |Itoa(n)| - 1);
    }
  }

  lemma ItoaLengthMonotone(m: nat, n: nat)
    requires m <= n
    ensures |Itoa(m)| <= |Itoa(n)|
  {
    ItoaIsShortest(n);
    ItoaFits(|Itoa(n)|, m);
  }

  lemma DigitsAreZerosThenItoa(w: nat, n: nat)
    requires w > 0 && n < Pow10(w)
    ensures |Itoa(n)| <= w && Digits(w, n) == Zeros(w - |Itoa(n)|) + Itoa(n)
  {
    hide *;
    ItoaIsShortest(n);
    ItoaFits(w, n);
    var m := |Itoa(n)|;
    DigitsLeadingZeros(w - m, m, n);
    assert w - m + m == w;
  }

  /** "%0*d" of a number that fits its width prints exactly the width. */
  lemma PaddedIsDigits(w: nat, n: nat)
    requires w > 0 && n < Pow10(w)
    ensures Padded(w, n) == Digits(w, n)
  {
    DigitsAreZerosThenItoa(w, n);
  }

  lemma {:induction false} ZerosValue(k: nat)
    ensures Value(Zeros(k)) == 0
  {
    if k > 0 {
      ZerosValue(k - 1);
      assert Zeros(k)[..k - 1] == Zeros(k - 1);
    }
  }

  lemma NoLeadingZero(n: nat)
    ensures Value(Itoa(n)) == n && (|Itoa(n)| > 1 ==> Itoa(n)[0] != '0')
  {
    hide Digits, Pow10, Value, Itoa;
    var s := Itoa(n);
    ItoaIsShortest(n);
    ValueOfDigits(|s|, n);
    if |s| > 1 && s[0] == '0' {
      assert s == "0" + s[1..];
      ValueOfConcat("0", s[1..]);
      ValueOfZero();
      DigitsOfValue(s[1..]);
    }
  }

  lemma ValueOfZero()
    ensures Value("0") == 0
  {
    ZerosValue(1);
    assert Zeros(1) == "0";
  }

  /** "%0*d" prints n with at least w digits, and with more than w only as many as n needs. */
  lemma PaddedText(w: nat, n: nat)
    requires w > 0
    ensures AllDigits(Padded(w, n)) && Value(Padded(w, n)) == n && |Padded(w, n)| >= w
    ensures |Padded(w, n)| > w ==> Padded(w, n)[0] != '0'
  {
    hide Value, Itoa, Zeros, Pow10;
    NoLeadingZero(n);
    if |Itoa(n)| < w {
      ValueOfConcat(Zeros(w - |Itoa(n)|), Itoa(n));
      ZerosValue(w - |Itoa(n)|);
    }
  }

  /** Splitting a fixed-width number into leading and trailing digits. */
  lemma DigitsSplit(lead: string, w: nat, n: nat)
    requires AllDigits(lead) && n < Pow10(w)
    ensures Digits(|lead| + w, Value(lead) * Pow10(w) + n) == lead + Digits(w, n)
  {
    hide Pow10, Value, Digits;
    var s := lead + Digits(w, n);
    ValueOfConcat(lead, Digits(w, n));
    ValueOfDigits(w, n);
    DigitsOfValue(s);
  }

  lemma {:induction false} ItoaInjective(m: nat, n: nat)
    requires Itoa(m) == Itoa(n)
    ensures m == n
  {
    hide Itoa, Digits, Value, Pow10;
    ItoaIsShortest(m);
    ItoaIsShortest(n);
    ValueOfDigits(|Itoa(m)|, m);
    ValueOfDigits(|Itoa(n)|, n);
  }
}
