/** Positional numerals: the reference meaning of the alphabet codecs.

    A digit sequence is read most significant digit first. `Val` gives its value,
    `Digits` the canonical digits of a natural number, and `Rebase` changes the base
    of a sequence while keeping one leading zero digit per leading zero digit. */
module Numerals {

  type Byte = x: int | 0 <= x < 256

  function Pow(base: nat, exponent: nat): nat {
    if exponent == 0 then 1 else base * Pow(base, exponent - 1)
  }

  ghost predicate AreDigits(s: seq<int>, base: nat) {
    forall i | 0 <= i < |s| :: 0 <= s[i] < base
  }

  function Val(s: seq<int>, base: nat): int {
    if s == [] then 0 else Val(s[..|s| - 1], base) * base + s[|s| - 1]
  }

  /** The digits of `n`, most significant first, without a leading zero; none for zero. */
  function Digits(n: nat, base: nat): seq<int>
    requires 2 <= base
  {
    if n == 0 then [] else Digits(n / base, base) + [n % base]
  }

  function Zeros(k: nat): (s: seq<int>)
    ensures |s| == k
  {
    seq(k, _ => 0)
  }

  function LeadingZeros(s: seq<int>): (z: nat)
    ensures z <= |s|
    ensures forall i | 0 <= i < z :: s[i] == 0
    ensures z < |s| ==> s[z] != 0
  {
    if s == [] || s[0] != 0 then 0 else 1 + LeadingZeros(s[1..])
  }

  function Strip(s: seq<int>): seq<int> {
    s[LeadingZeros(s)..]
  }

  function Rebase(s: seq<int>, from: nat, to: nat): seq<int>
    requires 2 <= to && AreDigits(s, from)
  {
    ValNonNegative(s, from);
    Zeros(LeadingZeros(s)) + Digits(Val(s, from), to)
  }

  /** The value of a numeral whose digits before `s` have value `high`. */
  function ValFrom(high: int, s: seq<int>, base: nat): int {
    if s == [] then high else ValFrom(high, s[..|s| - 1], base) * base + s[|s| - 1]
  }

  lemma {:induction false} ValFromCons(high: int, first: int, s: seq<int>, base: nat)
    ensures ValFrom(high, [first] + s, base) == ValFrom(high * base + first, s, base)
  {
    if s == [] {
      assert ([first] + s)[..0] == [];
    } else {
      assert ([first] + s)[..|s|] == [first] + s[..|s| - 1];
      ValFromCons(high, first, s[..|s| - 1], base);
    }
  }

  lemma {:induction false} ValFromZero(s: seq<int>, base: nat)
    ensures ValFrom(0, s, base) == Val(s, base)
  {
    if s != [] {
      ValFromZero(s[..|s| - 1], base);
    }
  }

  lemma {:induction false} ValNonNegative(s: seq<int>, base: nat)
    requires AreDigits(s, base)
    ensures 0 <= Val(s, base)
  {
    if s != [] {
      ValNonNegative(s[..|s| - 1], base);
    }
  }

  lemma PowPositive(base: nat, exponent: nat)
    requires 0 < base
    ensures 0 < Pow(base, exponent)
  {
  }

  lemma MulMonotone(a: int, b: int, c: nat)
    requires a <= b
    ensures a * c <= b * c
  {
    assert (b - a) * c >= 0;
  }

  lemma BelowProduct(x: nat, digit: nat, p: nat, base: nat)
    requires x < p && digit < base
    ensures 0 <= x * base + digit < base * p
  {
    MulMonotone(x + 1, p, base);
    MulMonotone(0, x, base);
  }

  lemma MulDistribute(a: int, b: int, c: int)
    ensures (a + b) * c == a * c + b * c
  {
  }

  lemma MulSwap(a: int, b: int, c: int)
    ensures (a * b) * c == (a * c) * b
  {
  }

  /** A numeral of k digits is below base^k. */
  lemma {:induction false} ValBound(s: seq<int>, base: nat)
    requires AreDigits(s, base)
    ensures 0 <= Val(s, base) < Pow(base, |s|)
  {
    if s != [] {
      var init := s[..|s| - 1];
      ValBound(init, base);
      BelowProduct(Val(init, base), s[|s| - 1], Pow(base, |s| - 1), base);
    }
  }

  /** A leading zero digit carries no value. */
  lemma {:induction false} ValZeroPrefix(s: seq<int>, base: nat)
    ensures Val([0] + s, base) == Val(s, base)
  {
    if s != [] {
      assert ([0] + s)[..|s|] == [0] + s[..|s| - 1];
      ValZeroPrefix(s[..|s| - 1], base);
    } else {
      assert ([0] + s)[..0] == [];
    }
  }

  lemma {:induction false} ValStrip(s: seq<int>, base: nat)
    ensures Val(Strip(s), base) == Val(s, base)
  {
    if s != [] && s[0] == 0 {
      assert s == [0] + s[1..];
      ValZeroPrefix(s[1..], base);
      ValStrip(s[1..], base);
      assert Strip(s) == Strip(s[1..]);
    } else {
      assert Strip(s) == s;
    }
  }

  /** A canonical numeral (no leading zero) of k digits is at least base^(k-1). */
  lemma {:induction false} ValLowerBound(s: seq<int>, base: nat)
    requires AreDigits(s, base) && s != [] && s[0] != 0
    ensures Pow(base, |s| - 1) <= Val(s, base)
  {
    var init := s[..|s| - 1];
    if init != [] {
      ValLowerBound(init, base);
      MulMonotone(Pow(base, |s| - 2), Val(init, base), base);
    } else {
      assert Val(s, base) == s[0];
    }
  }

  /** Division with remainder by the base is unique. */
  lemma DivModUnique(q: int, r: int, base: int)
    requires 0 <= r < base
    ensures (q * base + r) / base == q && (q * base + r) % base == r
  {
    var n := q * base + r;
    var d, m := n / base, n % base;
    assert n == d * base + m;
    if d < q {
      MulMonotone(d + 1, q, base);
    } else if q < d {
      MulMonotone(q + 1, d, base);
    }
  }

  lemma LeadingZerosAppend(s: seq<int>, last: int)
    requires LeadingZeros(s) == 0
    requires s == [] ==> last != 0
    ensures LeadingZeros(s + [last]) == 0
  {
    assert (s + [last])[0] != 0;
  }

  /** `Digits` gives canonical digits whose value is the number. */
  lemma {:induction false} DigitsMeaning(n: nat, base: nat)
    requires 2 <= base
    ensures AreDigits(Digits(n, base), base)
    ensures Val(Digits(n, base), base) == n
    ensures LeadingZeros(Digits(n, base)) == 0
  {
    if n != 0 {
      var q, r := n / base, n % base;
      assert q < n && n == q * base + r by { DivModFacts(n, base); }
      DigitsMeaning(q, base);
      DigitsExtend(q, r, base, Digits(q, base));
    }
  }

  lemma DivModFacts(n: nat, base: nat)
    requires 2 <= base && n != 0
    ensures 0 <= n / base < n && n == n / base * base + n % base
  {
    if n / base >= n {
      MulMonotone(2, base, n / base);
    }
  }

  lemma DigitsExtend(q: nat, r: nat, base: nat, s: seq<int>)
    requires r < base && AreDigits(s, base) && Val(s, base) == q && LeadingZeros(s) == 0
    requires q == 0 ==> s == []
    requires q * base + r != 0
    ensures AreDigits(s + [r], base)
    ensures Val(s + [r], base) == q * base + r
    ensures LeadingZeros(s + [r]) == 0
  {
    assert (s + [r])[..|s|] == s;
    LeadingZerosAppend(s, r);
  }

  lemma DigitsSnoc(quotient: nat, remainder: nat, base: nat)
    requires 2 <= base && remainder < base && (0 < quotient || 0 < remainder)
    ensures 0 < quotient * base + remainder
    ensures Digits(quotient * base + remainder, base) == Digits(quotient, base) + [remainder]
  {
    DivModUnique(quotient, remainder, base);
    MulMonotone(0, quotient, base);
    if quotient > 0 {
      MulMonotone(1, quotient, base);
    }
  }

  lemma ValPositive(s: seq<int>, base: nat)
    requires 0 < base && AreDigits(s, base) && s != [] && s[0] != 0
    ensures 0 < Val(s, base)
  {
    hide Val, Pow;
    ValLowerBound(s, base);
    PowPositive(base, |s| - 1);
  }

  /** Canonical digits are determined by their value. */
  lemma {:induction false} DigitsOfVal(s: seq<int>, base: nat)
    requires 2 <= base && AreDigits(s, base) && LeadingZeros(s) == 0
    ensures 0 <= Val(s, base) && Digits(Val(s, base), base) == s
  {
    if s != [] {
      hide Digits;
      var init, last := s[..|s| - 1], s[|s| - 1];
      assert init != [] ==> init[0] == s[0];
      DigitsOfVal(init, base);
      if init != [] {
        ValPositive(init, base);
      }
      DigitsSnoc(Val(init, base), last, base);
      assert s == init + [last];
    }
  }

  /** Stripping the zeros of a numeral leaves the canonical digits of its value. */
  lemma StripIsDigits(s: seq<int>, base: nat)
    requires 2 <= base && AreDigits(s, base)
    ensures 0 <= Val(s, base) && Strip(s) == Digits(Val(s, base), base)
  {
    ValStrip(s, base);
    var t := Strip(s);
    assert t == [] || t[0] != 0;
    DigitsOfVal(t, base);
  }

  lemma {:induction false} LeadingZerosOfPadded(k: nat, s: seq<int>)
    requires LeadingZeros(s) == 0
    ensures LeadingZeros(Zeros(k) + s) == k
    ensures Strip(Zeros(k) + s) == s
  {
    if k != 0 {
      LeadingZerosOfPadded(k - 1, s);
      assert (Zeros(k) + s)[1..] == Zeros(k - 1) + s;
    } else {
      assert Zeros(0) + s == s;
    }
  }

  /** What `Rebase` keeps: the value and the number of leading zeros. */
  lemma RebaseMeaning(s: seq<int>, from: nat, to: nat)
    requires 2 <= to && AreDigits(s, from)
    ensures AreDigits(Rebase(s, from, to), to)
    ensures Val(Rebase(s, from, to), to) == Val(s, from)
    ensures LeadingZeros(Rebase(s, from, to)) == LeadingZeros(s)
  {
    ValNonNegative(s, from);
    var d := Digits(Val(s, from), to);
    DigitsMeaning(Val(s, from), to);
    LeadingZerosOfPadded(LeadingZeros(s), d);
    ValStrip(Zeros(LeadingZeros(s)) + d, to);
  }

  /** Changing the base and changing it back is the identity, leading zeros included. */
  lemma RebaseRoundTrip(s: seq<int>, from: nat, to: nat)
    requires 2 <= from && 2 <= to && AreDigits(s, from)
    ensures AreDigits(Rebase(s, from, to), to)
    ensures Rebase(Rebase(s, from, to), to, from) == s
  {
    RebaseMeaning(s, from, to);
    StripIsDigits(s, from);
    assert s == Zeros(LeadingZeros(s)) + Strip(s);
  }

  /** A number below base^k has at most k digits. */
  lemma {:induction false} DigitsLength(n: nat, base: nat, k: nat)
    requires 2 <= base && n < Pow(base, k)
    ensures |Digits(n, base)| <= k
  {
    DigitsMeaning(n, base);
    var d := Digits(n, base);
    if |d| > k {
      ValLowerBound(d, base);
      PowMonotone(base, k, |d| - 1);
    }
  }

  lemma {:induction false} PowMonotone(base: nat, low: nat, high: nat)
    requires 1 <= base && low <= high
    ensures Pow(base, low) <= Pow(base, high)
  {
    if low < high {
      PowMonotone(base, low, high - 1);
      PowPositive(base, high - 1);
      MulMonotone(1, base, Pow(base, high - 1));
    }
  }

  lemma {:induction false} PowBaseMonotone(low: nat, high: nat, exponent: nat)
    requires low <= high
    ensures Pow(low, exponent) <= Pow(high, exponent)
  {
    if exponent != 0 {
      PowBaseMonotone(low, high, exponent - 1);
      MulMonotone(low, high, Pow(low, exponent - 1));
      MulMonotone(Pow(low, exponent - 1), Pow(high, exponent - 1), high);
    }
  }

  lemma {:induction false} PowSum(base: nat, m: nat, n: nat)
    ensures Pow(base, m + n) == Pow(base, m) * Pow(base, n)
  {
    if m != 0 {
      PowSum(base, m - 1, n);
      assert base * (Pow(base, m - 1) * Pow(base, n)) == (base * Pow(base, m - 1)) * Pow(base, n);
    }
  }

  lemma {:induction false} PowOfPow(base: nat, m: nat, n: nat)
    ensures Pow(Pow(base, m), n) == Pow(base, m * n)
  {
    if n != 0 {
      PowOfPow(base, m, n - 1);
      assert m * n == m + m * (n - 1);
      PowSum(base, m, m * (n - 1));
    }
  }

  lemma {:induction false} PowStrict(low: nat, high: nat, exponent: nat)
    requires low < high && 0 < exponent
    ensures Pow(low, exponent) < Pow(high, exponent)
  {
    if exponent > 1 {
      PowStrict(low, high, exponent - 1);
      StrictProduct(low, high, Pow(low, exponent - 1), Pow(high, exponent - 1));
    }
  }

  lemma StrictProduct(a: nat, b: nat, c: nat, d: nat)
    requires a < b && c < d
    ensures a * c < b * d
  {
    MulMonotone(a, b, c);
    MulMonotone(c + 1, d, b);
  }
}
