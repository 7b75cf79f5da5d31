/** Number ranges: the printed suffix (ignore_common_prefix) and its expansion
    (range_from_rangeparts). */
module RangeExpand {
  import opened Text
  import opened Decimal
  import opened NodeParts
  import opened NodeRange

  function CommonLength(a: string, b: string): (n: nat)
    ensures n <= |a| && n <= |b| && a[..n] == b[..n]
    ensures n < |a| && n < |b| ==> a[n] != b[n]
  {
    if a == "" || b == "" || a[0] != b[0] then 0
    else
      assert forall k :: 1 <= k <= |a| && k <= |b| && a[1..][..k - 1] == b[1..][..k - 1] ==> a[..k] == b[..k] by {
        forall k | 1 <= k <= |a| && k <= |b| && a[1..][..k - 1] == b[1..][..k - 1]
          ensures a[..k] == b[..k]
        {
          assert a[..k] == [a[0]] + a[1..][..k - 1] && b[..k] == [b[0]] + b[1..][..k - 1];
        }
      }
      1 + CommonLength(a[1..], b[1..])
  }

  /** The digits of n2 that follow the digits it shares with n1. */
  function Suffix(n1: nat, n2: nat): (x: string)
    ensures AllDigits(x)
  {
    if |Itoa(n1)| < |Itoa(n2)| then Itoa(n2)
    else Itoa(n2)[CommonLength(Itoa(n1), Itoa(n2))..]
  }

  method IgnoreCommonPrefix(n1: nat, n2: nat) returns (x: string)
    ensures x == Suffix(n1, n2)
  {
    hide Itoa;
    var s1, s2 := Itoa(n1), Itoa(n2);
    if |s1| < |s2| {
      return s2;
    }
    var n := 0;
    while n < |s1| && n < |s2| && s1[n] == s2[n]
      invariant n <= |s1| && n <= |s2|
      invariant forall i :: 0 <= i < n ==> s1[i] == s2[i]
    {
      n := n + 1;
    }
    var c := CommonLength(s1, s2);
    assert forall i :: 0 <= i < c ==> s1[i] == s1[..c][i] == s2[..c][i] == s2[i];
    x := s2[n..];
  }

  /** How many trailing digits of first the last number replaces. */
  function Width(r: RangeParts): nat {
    if |r.first| > |r.last| then |r.last| else |r.first|
  }

  function Pad(r: RangeParts): string {
    r.first[..|r.first| - Width(r)]
  }

  function From(r: RangeParts): nat {
    Atoi(r.first[|r.first| - Width(r)..])
  }

  function To(r: RangeParts): nat {
    Atoi(r.last)
  }

  /** The loop counter of range_from_rangeparts, a C int, is never stepped past INT_MAX. */
  predicate InInt(p: RangeParts) {
    From(p) <= INT_MAX && To(p) < INT_MAX
  }

  /** The names range_from_rangeparts adds, in order, when its loop counter stays within the int;
      otherwise C gives the range no value. */
  function Expansion(r: RangeParts): seq<string> {
    seq(if From(r) <= To(r) then To(r) - From(r) + 1 else 0,
        i requires 0 <= i => r.prefix + Pad(r) + Padded(Width(r), From(r) + i) + r.domain)
  }

  lemma SuffixOfStrings(w: nat, s1: string, s2: string, x: string)
    requires 0 < |s1| <= |s2| <= w && s1 != s2
    requires x == if |s1| < |s2| then s2 else s2[CommonLength(s1, s2)..]
    ensures 0 < |x| <= w
    ensures Zeros(w - |s2|) + s2 == (Zeros(w - |s1|) + s1)[..w - |x|] + x
  {
    hide CommonLength;
    if |s1| < |s2| {
      ZerosPrefix(w - |s2|, w - |s1|, s1);
    } else {
      var c := CommonLength(s1, s2);
      assert s1[..|s1|] == s1 && s2[..|s2|] == s2;
      ReplaceTail(Zeros(w - |s1|), s1, s2, c);
    }
  }

  lemma ZerosPrefix(k: nat, m: nat, s: string)
    requires k <= m
    ensures (Zeros(m) + s)[..k] == Zeros(k)
  {
  }

  lemma ReplaceTail(z: string, s1: string, s2: string, c: nat)
    requires c <= |s1| == |s2| && s1[..c] == s2[..c]
    ensures z + s2 == (z + s1)[..|z| + c] + s2[c..]
  {
    assert s2 == s2[..c] + s2[c..];
    assert (z + s1)[..|z| + c] == z + s1[..c];
  }

  lemma WidthPositive(w: nat, n: nat)
    requires 0 < n < Pow10(w)
    ensures w > 0
  {
  }

  /** Replacing the trailing digits of the W-digit n1 by the suffix gives the W-digit n2. */
  lemma SuffixRebuilds(w: nat, n1: nat, n2: nat)
    requires n1 < n2 < Pow10(w)
    ensures var x := Suffix(n1, n2);
            0 < |x| <= w && AllDigits(x) && Digits(w, n2) == Digits(w, n1)[..w - |x|] + x
  {
    hide Digits, Itoa, Pow10, Zeros, CommonLength, AllDigits, Value;
    WidthPositive(w, n2);
    DigitsAreZerosThenItoa(w, n1);
    DigitsAreZerosThenItoa(w, n2);
    ItoaLengthMonotone(n1, n2);
    if Itoa(n1) == Itoa(n2) {
      ItoaInjective(n1, n2);
    }
    SuffixOfStrings(w, Itoa(n1), Itoa(n2), Suffix(n1, n2));
  }

  /** The suffix begins at the first digit that differs, or is the whole number if that is longer. */
  lemma SuffixIsShortest(n1: nat, n2: nat) returns (k: nat)
    requires n1 < n2
    ensures var first, last := Itoa(n1), Itoa(n2);
            && k < |last| && Suffix(n1, n2) == last[k..]
            && (if |first| < |last| then k == 0
                else |first| == |last| && first[..k] == last[..k] && first[k] != last[k])
  {
    hide Itoa;
    var first, last := Itoa(n1), Itoa(n2);
    ItoaLengthMonotone(n1, n2);
    if first == last {
      ItoaInjective(n1, n2);
    }
    if |first| < |last| {
      k := 0;
    } else {
      k := CommonLength(first, last);
      assert first[..|first|] == first && last[..|last|] == last;
    }
  }

  /** The W-digit numbers from n1 to n2 with prefix and domain around them. */
  function NumberRun(p: string, w: nat, n1: nat, n2: nat, d: string): seq<string> {
    seq(if n1 <= n2 then n2 - n1 + 1 else 0, i requires 0 <= i => p + Digits(w, n1 + i) + d)
  }

  lemma LongerBounds(r: RangeParts)
    requires AllDigits(r.first) && AllDigits(r.last) && |r.first| <= |r.last|
    ensures Width(r) == |r.first| && Pad(r) == "" && From(r) == Value(r.first) && To(r) == Value(r.last)
  {
    hide Value;
    assert r.first[0..] == r.first;
  }

  lemma NameAt(r: RangeParts, i: nat)
    requires i < |Expansion(r)| && Pad(r) == ""
    ensures Expansion(r)[i] == r.prefix + Padded(Width(r), From(r) + i) + r.domain
  {
    hide Padded, Width, From, To;
    assert r.prefix + "" == r.prefix;
  }

  /** The names of a range whose last number is as long as the first or longer: every number from
      the first to the last, with at least as many digits as the first, and no zeros beyond these. */
  lemma ExpansionNames(p: string, first: string, last: string, d: string, i: nat) returns (num: string)
    requires AllDigits(first) && AllDigits(last) && 0 < |first| <= |last|
    ensures var names := Expansion(RangeParts(p, first, last, d));
            && |names| == (if Value(first) <= Value(last) then Value(last) - Value(first) + 1 else 0)
            && (i < |names| ==> names[i] == p + num + d)
    ensures AllDigits(num) && Value(num) == Value(first) + i
    ensures |num| >= |first| && (|num| > |first| ==> num[0] != '0')
  {
    hide Padded, Value, Width, Pad, From, To;
    var r := RangeParts(p, first, last, d);
    LongerBounds(r);
    num := Padded(|first|, Value(first) + i);
    PaddedText(|first|, Value(first) + i);
    if i < |Expansion(r)| {
      NameAt(r, i);
    }
  }

  /** The bounds of the expansion, without the digits both ends share. */
  lemma ExpansionBounds(r: RangeParts) returns (base: nat)
    requires AllDigits(r.first) && AllDigits(r.last) && 0 < |r.last| <= |r.first|
    ensures base == Value(Pad(r)) * Pow10(Width(r))
    ensures Value(r.first) == base + From(r) && Value(Pad(r) + r.last) == base + To(r)
    ensures To(r) < Pow10(Width(r))
  {
    hide Pow10, Value, Digits;
    var low := r.first[|r.first| - Width(r)..];
    assert r.first == Pad(r) + low;
    ValueOfConcat(Pad(r), low);
    ValueOfConcat(Pad(r), r.last);
    DigitsOfValue(r.last);
    base := Value(Pad(r)) * Pow10(Width(r));
  }

  lemma ExpansionAt(r: RangeParts, n: nat)
    requires AllDigits(r.first) && AllDigits(r.last) && 0 < |r.last| <= |r.first|
    requires n < Pow10(Width(r))
    ensures r.prefix + Pad(r) + Padded(Width(r), n) + r.domain
         == r.prefix + Digits(|r.first|, Value(Pad(r)) * Pow10(Width(r)) + n) + r.domain
  {
    PaddedIsDigits(Width(r), n);
    DigitsSplit(Pad(r), Width(r), n);
    assert r.prefix + Pad(r) + Padded(Width(r), n) == r.prefix + (Pad(r) + Padded(Width(r), n));
  }

  lemma ExpansionIsNumbered(r: RangeParts, n1: nat, n2: nat)
    requires AllDigits(r.first) && AllDigits(r.last) && 0 < |r.last| <= |r.first|
    requires Value(r.first) == n1 && Value(Pad(r) + r.last) == n2
    ensures Expansion(r) == NumberRun(r.prefix, |r.first|, n1, n2, r.domain)
  {
    hide Digits, Padded, Pow10, Value, Width, Pad;
    var base := ExpansionBounds(r);
    forall i | 0 <= i < |Expansion(r)|
      ensures Expansion(r)[i] == NumberRun(r.prefix, |r.first|, n1, n2, r.domain)[i]
    {
      ExpansionAt(r, From(r) + i);
    }
  }

  // How large the printed suffix is.

  lemma WithoutLast(digit: nat, p: nat, n: nat)
    requires digit * (10 * p) <= n < (digit + 1) * (10 * p)
    ensures digit * p <= n / 10 < (digit + 1) * p
  {
    TimesTen(digit, p);
    TimesTen(digit + 1, p);
    var low, high := digit * p, (digit + 1) * p;
    assert 10 * low <= n < 10 * high;
  }

  lemma {:induction false} Leading(digit: nat, k: nat, n: nat)
    requires 0 < digit < 10 && digit * Pow10(k) <= n < (digit + 1) * Pow10(k)
    ensures |Itoa(n)| == k + 1 && Itoa(n)[0] == DigitChar(digit)
  {
    if k > 0 {
      assert Pow10(k) == 10 * Pow10(k - 1);
      WithoutLast(digit, Pow10(k - 1), n);
      Leading(digit, k - 1, n / 10);
    }
  }

  lemma TenDigits()
    ensures Pow10(9) == 1_000_000_000
  {
    assert Pow10(4) == 10_000;
    assert Pow10(8) == 100_000_000;
  }

  lemma FewDigits(n: nat)
    requires n < 1_000_000_000
    ensures |Itoa(n)| <= 9
  {
    TenDigits();
    ItoaFits(9, n);
  }

  lemma SuffixOfBillions(n1: nat, n2: nat)
    requires 2_000_000_000 <= n1 < n2 <= INT_MAX
    ensures Atoi(Suffix(n1, n2)) < 1_000_000_000
  {
    TenDigits();
    Leading(2, 9, n1);
    Leading(2, 9, n2);
    var x := Suffix(n1, n2);
    assert |x| <= 9;
    DigitsOfValue(x);
    Pow10Monotone(|x|, 9);
  }

  lemma ItoaValue(n: nat)
    ensures Atoi(Itoa(n)) == n
  {
    ItoaIsShortest(n);
    ValueOfDigits(|Itoa(n)|, n);
  }

  /** The printed suffix is no larger than the number. */
  lemma SuffixNotLarger(n1: nat, n2: nat)
    ensures Atoi(Suffix(n1, n2)) <= n2
  {
    hide Itoa, CommonLength, Value;
    var s := Itoa(n2);
    ItoaValue(n2);
    if |Itoa(n1)| >= |s| {
      var c := CommonLength(Itoa(n1), s);
      TailNotLarger(s[..c], s[c..]);
      assert s == s[..c] + s[c..];
    }
  }

  lemma TailNotLarger(a: string, b: string)
    requires AllDigits(a) && AllDigits(b)
    ensures AllDigits(a + b) && Value(b) <= Value(a + b)
  {
    hide Value, Pow10;
    ValueOfConcat(a, b);
    assert Value(a) * Pow10(|b|) >= 0;
  }

  /** The suffix is the whole number when the leading digit, or the number of digits, changes. */
  lemma SuffixIsWhole(n1: nat)
    requires n1 <= 1_999_999_999
    ensures Suffix(n1, INT_MAX) == Itoa(INT_MAX)
  {
    TenDigits();
    Leading(2, 9, INT_MAX);
    if n1 < 1_000_000_000 {
      FewDigits(n1);
    } else {
      Leading(1, 9, n1);
      assert DigitChar(1) != DigitChar(2);
    }
  }

  lemma SuffixInInt(n1: nat, n2: nat)
    requires n1 < n2 <= INT_MAX
    ensures Atoi(Suffix(n1, n2)) < INT_MAX <==> !(n2 == INT_MAX && n1 <= 1_999_999_999)
  {
    hide Atoi, Suffix, Itoa;
    SuffixNotLarger(n1, n2);
    if n1 <= 1_999_999_999 {
      SuffixIsWhole(n1);
      ItoaValue(INT_MAX);
    } else {
      SuffixOfBillions(n1, n2);
    }
  }

  /** Suffix arithmetic: the dropped digits and the zero padding are rebuilt exactly, and the loop
      counter stays within the int unless the last number is INT_MAX and printed in full. */
  lemma SuffixExpands(p: string, w: nat, n1: nat, n2: nat, d: string)
    requires n1 < n2 < Pow10(w)
    ensures var r := RangeParts(p, Digits(w, n1), Suffix(n1, n2), d);
            && Expansion(r) == NumberRun(p, w, n1, n2, d)
            && (n2 <= INT_MAX ==> (InInt(r) <==> !(n2 == INT_MAX && n1 <= 1_999_999_999)))
  {
    hide Digits, Suffix, Value, Pow10, Expansion, NumberRun;
    SuffixRebuilds(w, n1, n2);
    ValueOfDigits(w, n1);
    ValueOfDigits(w, n2);
    var r := RangeParts(p, Digits(w, n1), Suffix(n1, n2), d);
    ExpansionIsNumbered(r, n1, n2);
    var base := ExpansionBounds(r);
    if n2 <= INT_MAX {
      SuffixInInt(n1, n2);
    }
  }

  /** node1000..99 means node1000..1099: a shorter last number borrows the leading digits. The
      full form stays within the int exactly when both of its numbers do, the last one below
      INT_MAX, and then so does the short form. */
  lemma AutoPadding(p: string, first: string, last: string, d: string)
    requires AllDigits(first) && AllDigits(last) && 0 < |last| < |first|
    ensures var lead := first[..|first| - |last|] + last;
            var short, full := RangeParts(p, first, last, d), RangeParts(p, first, lead, d);
            && AllDigits(lead)
            && Expansion(short) == Expansion(full)
            && (InInt(full) <==> Value(first) <= INT_MAX && Value(lead) < INT_MAX)
            && (InInt(full) ==> InInt(short))
  {
    hide Value, Pow10, Expansion;
    var lead := first[..|first| - |last|] + last;
    var short, full := RangeParts(p, first, last, d), RangeParts(p, first, lead, d);
    var n1, n2 := Value(first), Value(lead);
    ExpansionIsNumbered(short, n1, n2);
    assert Pad(full) + lead == lead && first[0..] == first;
    ExpansionIsNumbered(full, n1, n2);
    var base := ExpansionBounds(short);
  }

  /** The converse fails: node2147483600..47 stands for 48 names, but C gives its full form
      node2147483600..2147483647 no value. */
  lemma PaddedPastInt(p: string, d: string)
    ensures var short := RangeParts(p, "2147483600", "47", d);
            var full := RangeParts(p, "2147483600", "2147483647", d);
            Expansion(short) == Expansion(full) && |Expansion(short)| == 48 && InInt(short) && !InInt(full)
  {
    hide Expansion, From, To, Value, AllDigits;
    var first, last, lead := "2147483600", "47", "2147483647";
    TwoDigits('4', '7');
    FiveDigits('2', '1', '4', '7', '4');
    FiveDigits('8', '3', '6', '0', '0');
    DigitsJoin("21474", "83600");
    assert "21474" + "83600" == first;
    assert first[..8] == "21474836" && "21474836" + last == lead;
    AutoPadding(p, first, last, d);
    ExpansionDistinct(RangeParts(p, first, last, d));
    Bounds(RangeParts(p, first, last, d));
    Bounds(RangeParts(p, first, lead, d));
  }

  lemma DigitsJoin(a: string, b: string)
    requires AllDigits(a) && AllDigits(b)
    ensures AllDigits(a + b)
  {
  }

  lemma ValueSnoc(s: string, c: char)
    requires AllDigits(s) && IsDigit(c)
    ensures AllDigits(s + [c]) && Value(s + [c]) == 10 * Value(s) + (c as int - '0' as int)
  {
    assert (s + [c])[..|s|] == s;
  }

  lemma FiveDigits(a: char, b: char, c: char, d: char, e: char)
    requires IsDigit(a) && IsDigit(b) && IsDigit(c) && IsDigit(d) && IsDigit(e)
    ensures AllDigits([a, b, c, d, e])
    ensures Value([a, b, c, d, e]) == 10_000 * (a as int) + 1000 * (b as int) + 100 * (c as int) + 10 * (d as int)
                                      + e as int - 11_111 * ('0' as int)
  {
    hide Value;
    NoDigits();
    ValueSnoc([], a);
    ValueSnoc([a], b);
    ValueSnoc([a, b], c);
    ValueSnoc([a, b, c], d);
    ValueSnoc([a, b, c, d], e);
    assert [] + [a] == [a] && [a] + [b] == [a, b] && [a, b] + [c] == [a, b, c] && [a, b, c] + [d] == [a, b, c, d];
    assert [a, b, c, d] + [e] == [a, b, c, d, e];
  }

  lemma NoDigits()
    ensures AllDigits([]) && Value([]) == 0
  {
  }

  lemma TwoDigits(a: char, b: char)
    requires IsDigit(a) && IsDigit(b)
    ensures AllDigits([a, b]) && Value([a, b]) == 10 * (a as int) + b as int - 11 * ('0' as int)
  {
    hide Value;
    NoDigits();
    ValueSnoc([], a);
    ValueSnoc([a], b);
    assert [] + [a] == [a] && [a] + [b] == [a, b];
  }

  lemma FivePowers()
    ensures Pow10(5) == 100_000
  {
    assert Pow10(3) == 1000;
  }

  lemma IntMaxDigits()
    ensures AllDigits("2147483647") && Value("2147483647") == INT_MAX
  {
    hide Value, Pow10;
    FiveDigits('2', '1', '4', '7', '4');
    FiveDigits('8', '3', '6', '4', '7');
    FivePowers();
    ValueOfConcat("21474", "83647");
    assert "21474" + "83647" == "2147483647";
  }

  lemma Bounds(r: RangeParts)
    requires r.first == "2147483600" && (r.last == "47" || r.last == "2147483647")
    ensures r.last == "47" ==> From(r) == 0 && To(r) == 47
    ensures r.last == "2147483647" ==> To(r) == INT_MAX
  {
    hide Value;
    TwoDigits('0', '0');
    TwoDigits('4', '7');
    IntMaxDigits();
    assert r.last == "47" ==> Width(r) == 2 && r.first[8..] == "00";
  }

  /** "%0*d" never prints two numbers alike, whether or not they fit the width. */
  lemma PaddedInjective(w: nat, m: nat, n: nat)
    requires Padded(w, m) == Padded(w, n)
    ensures m == n
  {
    hide Padded;
    PaddedValue(w, m);
    PaddedValue(w, n);
  }

  lemma PaddedValue(w: nat, n: nat)
    ensures AllDigits(Padded(w, n)) && Value(Padded(w, n)) == n
  {
    hide Pow10, Value, Digits;
    ItoaIsShortest(n);
    var k := |Itoa(n)|;
    if k >= w {
      ValueOfDigits(k, n);
    } else {
      Pow10Monotone(k, w);
      PaddedIsDigits(w, n);
      ValueOfDigits(w, n);
    }
  }

  lemma MiddleEqual(a: string, x: string, y: string, b: string)
    requires a + x + b == a + y + b
    ensures x == y
  {
    assert |x| == |y|;
    assert (a + x + b)[|a|..|a| + |x|] == x && (a + y + b)[|a|..|a| + |y|] == y;
  }

  /** An expansion holds max(0, l - f + 1) names, all different; the loop adds them all when it
      stays within the int. */
  lemma ExpansionDistinct(r: RangeParts)
    ensures |Expansion(r)| == if From(r) <= To(r) then To(r) - From(r) + 1 else 0
    ensures forall i, j :: 0 <= i < j < |Expansion(r)| ==> Expansion(r)[i] != Expansion(r)[j]
  {
    hide Padded, From, To, Width, Pad;
    forall i, j | 0 <= i < j < |Expansion(r)|
      ensures Expansion(r)[i] != Expansion(r)[j]
    {
      var x, y := Padded(Width(r), From(r) + i), Padded(Width(r), From(r) + j);
      if Expansion(r)[i] == Expansion(r)[j] {
        MiddleEqual(r.prefix + Pad(r), x, y, r.domain);
        PaddedInjective(Width(r), From(r) + i, From(r) + j);
      }
    }
  }
}
