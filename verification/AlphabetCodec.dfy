/** Base58 and Base62: base conversion by repeated in-place long division, with a
    pre-sized output buffer filled from the right (codec/alphabet.go). */
module AlphabetCodec {
  import opened Wrappers
  import opened Numerals

  /** `indexes` inverts `alphabet` on the 128 ASCII codes, with -1 elsewhere. */
  datatype Encoding = Encoding(name: string, alphabet: seq<Byte>, indexes: seq<int>) {
    ghost predicate Valid() {
      && 2 <= |alphabet|
      && |indexes| == 128
      && (forall i | 0 <= i < |alphabet| :: alphabet[i] < 128 && indexes[alphabet[i]] == i)
      && (forall c | 0 <= c < 128 ::
            -1 <= indexes[c] < |alphabet| && (0 <= indexes[c] ==> alphabet[indexes[c]] == c))
    }
  }

  datatype AlphabetError = TooShort | NotAscii | Duplicate

  datatype EncodeError = BufferOverrun

  datatype DecodeError = InvalidCharacter(letter: Byte, position: nat)

  ghost predicate WellFormedAlphabet(alphabet: seq<Byte>) {
    && 2 <= |alphabet|
    && (forall i | 0 <= i < |alphabet| :: alphabet[i] < 128)
    && (forall i, j | 0 <= i < j < |alphabet| :: alphabet[i] != alphabet[j])
  }

  /** Builds the index table; the panics of the source are the error results. */
  method NewAlphabetEncoding(name: string, alphabet: seq<Byte>) returns (r: Result<Encoding, AlphabetError>)
    ensures r.Ok? <==> WellFormedAlphabet(alphabet)
    ensures r.Ok? ==> r.value.Valid() && r.value.alphabet == alphabet && r.value.name == name
    ensures r == Err(TooShort) <==> |alphabet| < 2
    ensures r == Err(NotAscii) ==> exists i | 0 <= i < |alphabet| :: alphabet[i] >= 128
    ensures r == Err(Duplicate) ==> exists i, j | 0 <= i < j < |alphabet| :: alphabet[i] == alphabet[j]
  {
    if |alphabet| < 2 {
      return Err(TooShort);
    }
    var indexes := new int[128](_ => -1);
    for index := 0 to |alphabet|
      invariant forall i | 0 <= i < index :: alphabet[i] < 128 && indexes[alphabet[i]] == i
      invariant forall c | 0 <= c < 128 ::
          -1 <= indexes[c] < index && (0 <= indexes[c] ==> alphabet[indexes[c]] == c)
    {
      var letter := alphabet[index];
      if letter >= 128 {
        return Err(NotAscii);
      }
      if indexes[letter] >= 0 {
        return Err(Duplicate);
      }
      indexes[letter] := index;
    }
    return Ok(Encoding(name, alphabet, indexes[..]));
  }

  // ---- Specification ----

  function Letters(alphabet: seq<Byte>, digits: seq<int>): (s: seq<Byte>)
    requires AreDigits(digits, |alphabet|)
    ensures |s| == |digits|
  {
    seq(|digits|, i requires 0 <= i < |digits| => alphabet[digits[i]])
  }

  predicate IsLetter(e: Encoding, c: Byte)
    requires |e.indexes| == 128
  {
    c < 128 && 0 <= e.indexes[c]
  }

  ghost predicate OverAlphabet(e: Encoding, s: seq<Byte>)
    requires |e.indexes| == 128
  {
    forall i | 0 <= i < |s| :: IsLetter(e, s[i])
  }

  function Indexes(e: Encoding, s: seq<Byte>): (digits: seq<int>)
    requires e.Valid() && OverAlphabet(e, s)
    ensures |digits| == |s| && AreDigits(digits, |e.alphabet|)
  {
    seq(|s|, i requires 0 <= i < |s| => e.indexes[s[i]])
  }

  /** What encoding a byte string must produce: its digits in the alphabet's base. */
  function Encoded(e: Encoding, input: seq<Byte>): seq<Byte>
    requires e.Valid()
  {
    RebaseMeaning(input, 256, |e.alphabet|);
    Letters(e.alphabet, Rebase(input, 256, |e.alphabet|))
  }

  /** What decoding a string over the alphabet must produce. */
  function Decoded(e: Encoding, input: seq<Byte>): seq<Byte>
    requires e.Valid() && OverAlphabet(e, input)
  {
    RebaseMeaning(Indexes(e, input), |e.alphabet|, 256);
    Rebase(Indexes(e, input), |e.alphabet|, 256)
  }

  // ---- Division in place ----

  lemma QuotientDigit(remainder: nat, digit: nat, base: nat, divisor: nat)
    requires 0 < divisor && remainder < divisor && digit < base
    ensures 0 <= (remainder * base + digit) / divisor < base
  {
    var temp := remainder * base + digit;
    BelowProduct(remainder, digit, divisor, base);
    if temp / divisor >= base {
      MulMonotone(base, temp / divisor, divisor);
    }
  }

  lemma DivisionStep(v: int, q: int, remainder: int, digit: int, base: int, divisor: int, qd: int, md: int)
    requires v == q * divisor + remainder
    requires remainder * base + digit == qd * divisor + md
    ensures v * base + digit == (q * base + qd) * divisor + md
  {
    MulDistribute(q * divisor, remainder, base);
    MulDistribute(q * base, qd, divisor);
    MulSwap(q, divisor, base);
  }

  /** One step of long division: the next quotient digit and the next remainder. */
  function DivideDigit(remainder: nat, digit: nat, base: nat, divisor: nat): (r: (nat, nat))
    requires remainder < divisor && digit < base
    ensures r.0 < base && r.1 < divisor
    ensures remainder * base + digit == r.0 * divisor + r.1
  {
    var temp := remainder * base + digit;
    QuotientDigit(remainder, digit, base, divisor);
    Euclid(temp, divisor);
    (temp / divisor, temp % divisor)
  }

  lemma Euclid(n: int, d: nat)
    requires 0 < d
    ensures n == n / d * d + n % d
  {
  }

  /** Long division of a digit sequence: the quotient digits and the remainder. */
  function LongDivision(s: seq<int>, base: nat, divisor: nat): (r: (seq<int>, nat))
    requires 1 <= divisor && AreDigits(s, base)
    ensures |r.0| == |s| && AreDigits(r.0, base) && r.1 < divisor
  {
    if s == [] then ([], 0) else
      var (quotient, remainder) := LongDivision(s[..|s| - 1], base, divisor);
      var (next, rest) := DivideDigit(remainder, s[|s| - 1], base, divisor);
      (quotient + [next], rest)
  }

  lemma LongDivisionEmpty(base: nat, divisor: nat)
    requires 1 <= divisor
    ensures LongDivision([], base, divisor) == ([], 0)
  {
  }

  lemma LongDivisionSnoc(s: seq<int>, digit: int, base: nat, divisor: nat)
    requires 1 <= divisor && AreDigits(s, base) && 0 <= digit < base
    ensures var (quotient, remainder) := LongDivision(s, base, divisor);
            var (next, rest) := DivideDigit(remainder, digit, base, divisor);
            LongDivision(s + [digit], base, divisor) == (quotient + [next], rest)
  {
    hide DivideDigit;
    assert (s + [digit])[..|s|] == s;
  }

  /** Long division is division of the numbers denoted. */
  lemma {:induction false} LongDivisionMeaning(s: seq<int>, base: nat, divisor: nat)
    requires 1 <= divisor && AreDigits(s, base)
    ensures var (q, r) := LongDivision(s, base, divisor); Val(s, base) == Val(q, base) * divisor + r
  {
    hide DivideDigit;
    if s != [] {
      var init, digit := s[..|s| - 1], s[|s| - 1];
      LongDivisionMeaning(init, base, divisor);
      var (quotient, remainder) := LongDivision(init, base, divisor);
      var (q, r) := LongDivision(s, base, divisor);
      assert q[..|q| - 1] == quotient;
      DivisionStep(Val(init, base), Val(quotient, base), remainder, digit, base, divisor, q[|q| - 1], r);
    }
  }

  /** The digits `now` when the first `k` of the digits `was` are divided. */
  ghost predicate Dividing(was: seq<int>, now: seq<int>, k: nat, base: nat, divisor: nat, remainder: int)
    requires 1 <= divisor && AreDigits(was, base)
  {
    && k <= |was| == |now| && now[k..] == was[k..]
    && (now[..k], remainder) == LongDivision(was[..k], base, divisor)
  }

  lemma DivideNext(was: seq<int>, now: seq<int>, k: nat, base: nat, divisor: nat, remainder: int)
    requires 1 <= divisor && AreDigits(was, base) && k < |was| && Dividing(was, now, k, base, divisor, remainder)
    ensures 0 <= remainder < divisor && 0 <= now[k] < base
    ensures var (next, rest) := DivideDigit(remainder, now[k], base, divisor);
            Dividing(was, now[k := next], k + 1, base, divisor, rest)
  {
    hide DivideDigit, LongDivision;
    assert now[k] == now[k..][0] == was[k..][0] == was[k];
    var (next, rest) := DivideDigit(remainder, now[k], base, divisor);
    var after := now[k := next];
    LongDivisionSnoc(was[..k], was[k], base, divisor);
    assert was[..k + 1] == was[..k] + [was[k]];
    assert after[..k + 1] == now[..k] + [next];
    assert after[k + 1..] == now[k..][1..] == was[k..][1..] == was[k + 1..];
  }

  lemma DivideFrom(was: seq<int>, base: nat, divisor: nat)
    requires 1 <= divisor && AreDigits(was, base)
    ensures Dividing(was, was, 0, base, divisor, 0)
  {
    hide LongDivision;
    LongDivisionEmpty(base, divisor);
    assert was[..0] == [];
  }

  lemma DivideAll(was: seq<int>, now: seq<int>, base: nat, divisor: nat, remainder: int)
    requires 1 <= divisor && AreDigits(was, base) && Dividing(was, now, |was|, base, divisor, remainder)
    ensures (now, remainder) == LongDivision(was, base, divisor)
  {
    hide LongDivision;
    assert was[..|was|] == was && now[..|now|] == now;
  }

  /** Divides the number held in `number[firstDigit..]` by `divisor`, leaving the quotient there.
      The truncation to a byte never loses anything, because a quotient digit is below `base`. */
  method DivMod(number: array<Byte>, firstDigit: nat, base: nat, divisor: nat) returns (remainder: nat)
    requires firstDigit <= number.Length
    requires base <= 256 && 1 <= divisor
    requires AreDigits(number[firstDigit..], base)
    modifies number
    ensures number[..firstDigit] == old(number[..firstDigit])
    ensures (number[firstDigit..], remainder) == LongDivision(old(number[firstDigit..]), base, divisor)
  {
    hide DivideDigit, LongDivision, Dividing, AreDigits;
    ghost var was := number[firstDigit..];
    ghost var prefix := number[..firstDigit];
    remainder := 0;
    DivideFrom(was, base, divisor);
    for index := firstDigit to number.Length
      invariant number[..firstDigit] == prefix
      invariant Dividing(was, number[firstDigit..], index - firstDigit, base, divisor, remainder)
    {
      ghost var now: seq<int> := number[firstDigit..];
      DivideNext(was, now, index - firstDigit, base, divisor, remainder);
      var (next, rest) := DivideDigit(remainder, number[index], base, divisor);
      number[index] := next % 256;
      remainder := rest;
      assert number[firstDigit..] == now[index - firstDigit := next];
    }
    DivideAll(was, number[firstDigit..], base, divisor, remainder);
  }

  // ---- The output buffer suffices ----

  function BufferLength(inputLength: nat): nat {
    inputLength * 138 / 100 + 2
  }

  /** The digits of a byte string and one digit per leading zero byte fit the encoder's buffer. */
  ghost predicate Fits(input: seq<Byte>, base: nat)
    requires 2 <= base
  {
    |Rebase(input, 256, base)| <= BufferLength(|input|)
  }

  lemma SmallPowers()
    ensures Pow(55, 7) == 1522435234375 && Pow(55, 8) == 83733937890625
    ensures Pow(56, 10) == 303305489096114176
    ensures Pow(256, 7) == 72057594037927936 && Pow(256, 8) == 18446744073709551616
  {
  }

  /** Two fractions on either side of 1.38: 40/29 is enough in base 56, 29/21 is not in base 55. */
  lemma BytesAgainstDigits()
    ensures Pow(256, 29) <= Pow(56, 40)
    ensures Pow(55, 29) < Pow(256, 21)
  {
    hide Pow;
    SmallPowers();
    PowSum(55, 7, 7);
    PowSum(55, 7, 8);
    PowSum(55, 14, 15);
    PowSum(56, 10, 10);
    PowSum(56, 20, 20);
    PowSum(256, 7, 7);
    PowSum(256, 14, 7);
    PowSum(256, 21, 8);
  }

  /** So many base-56 digits hold as many values as `m` bytes. */
  lemma BytesFit(m: nat, k: nat)
    requires 40 * m <= 29 * k
    ensures Pow(256, m) <= Pow(56, k)
  {
    hide Pow;
    BytesAgainstDigits();
    PowBaseMonotone(Pow(256, 29), Pow(56, 40), m);
    PowOfPow(256, 29, m);
    PowOfPow(56, 40, m);
    PowMonotone(56, 40 * m, k * 29);
    PowOfPow(256, m, 29);
    PowOfPow(56, k, 29);
    if Pow(256, m) > Pow(56, k) {
      PowStrict(Pow(56, k), Pow(256, m), 29);
    }
  }

  /** In every base from 56 on, every byte string fits. */
  lemma BufferSuffices(input: seq<Byte>, base: nat)
    requires 56 <= base
    ensures Fits(input, base)
  {
    hide Val, Digits, Pow;
    var z := LeadingZeros(input);
    var significant := input[z..];
    ValStrip(input, 256);
    ValBound(significant, 256);
    var k := (40 * |significant| + 28) / 29;
    BytesFit(|significant|, k);
    PowBaseMonotone(56, base, k);
    DigitsLength(Val(input, 256), base, k);
  }

  lemma {:induction false} ValOfMaximalBytes(n: nat)
    ensures Val(seq(n, _ => 255), 256) == Pow(256, n) - 1
  {
    var s := seq(n, _ => 255);
    if n != 0 {
      assert s[..n - 1] == seq(n - 1, _ => 255);
      ValOfMaximalBytes(n - 1);
    }
  }

  /** In every smaller base, long strings of maximal bytes do not fit. */
  lemma BufferOverflows(base: nat, m: nat)
    requires 2 <= base <= 55 && 100 <= m
    ensures !Fits(seq(21 * m, _ => 255), base)
  {
    hide Val, Digits, Pow;
    var input: seq<Byte> := seq(21 * m, _ => 255);
    var n := Pow(256, 21 * m) - 1;
    ValOfMaximalBytes(21 * m);
    BytesAgainstDigits();
    PowStrict(Pow(55, 29), Pow(256, 21), m);
    PowOfPow(55, 29, m);
    PowOfPow(256, 21, m);
    PowBaseMonotone(base, 55, 29 * m);
    DigitsMeaning(n, base);
    var digits := Digits(n, base);
    ValBound(digits, base);
    if |digits| <= 29 * m {
      PowMonotone(base, |digits|, 29 * m);
    }
    assert Rebase(input, 256, base) == Zeros(LeadingZeros(input)) + digits;
  }

  /** The buffer is long enough for every input exactly for the alphabets of 56 letters or more. */
  lemma BufferSufficesFrom56(base: nat)
    requires 2 <= base
    ensures (forall input: seq<Byte> :: Fits(input, base)) <==> 56 <= base
  {
    hide Fits;
    if base >= 56 {
      forall input: seq<Byte> ensures Fits(input, base) {
        BufferSuffices(input, base);
      }
    } else {
      var m: nat :| m == 100;
      BufferOverflows(base, m);
    }
  }

  // ---- Encoding and decoding ----

  /** Dividing a number without leading zero digit by at most its base leaves at most one. */
  lemma QuotientLeadingZeros(s: seq<int>, q: seq<int>, base: nat, divisor: nat, remainder: nat)
    requires AreDigits(s, base) && AreDigits(q, base) && |s| == |q| && s != [] && s[0] != 0
    requires 1 <= divisor <= base && remainder < divisor
    requires Val(s, base) == Val(q, base) * divisor + remainder
    ensures q[0] != 0 || |q| == 1 || q[1] != 0
  {
    if q[0] == 0 && |q| > 1 && q[1] == 0 {
      var rest := q[2..];
      assert q[1..] == [0] + rest && q == [0] + q[1..];
      ValZeroPrefix(rest, base);
      ValZeroPrefix(q[1..], base);
      ValBound(rest, base);
      ValLowerBound(s, base);
      ProductBound(Val(q, base), Pow(base, |rest|), divisor, base, remainder);
    }
  }

  lemma ProductBound(x: nat, p: nat, divisor: nat, base: nat, remainder: nat)
    requires x < p && remainder < divisor <= base
    ensures x * divisor + remainder < base * p
  {
    MulMonotone(x + 1, p, divisor);
    MulMonotone(divisor, base, p);
  }

  /** One more digit of the long division. */
  lemma LongDivisionStep(current: nat, quotient: nat, remainder: nat, base: nat, digits: seq<int>)
    requires 2 <= base && remainder < base && current == quotient * base + remainder && 0 < current
    ensures Strip(Digits(quotient, base) + ([remainder] + digits)) == Strip(Digits(current, base) + digits)
  {
    hide Digits, Strip;
    DigitsSnoc(quotient, remainder, base);
    assert Digits(quotient, base) + ([remainder] + digits) == Digits(current, base) + digits;
  }

  lemma LettersCons(alphabet: seq<Byte>, d: int, digits: seq<int>)
    requires 0 <= d < |alphabet| && AreDigits(digits, |alphabet|)
    ensures AreDigits([d] + digits, |alphabet|)
    ensures Letters(alphabet, [d] + digits) == [alphabet[d]] + Letters(alphabet, digits)
  {
  }

  method CountLeadingZeros(s: seq<int>) returns (zeros: nat)
    ensures zeros == LeadingZeros(s)
  {
    zeros := 0;
    while zeros < |s| && s[zeros] == 0
      invariant zeros <= |s|
      invariant forall i | 0 <= i < zeros :: s[i] == 0
    {
      zeros := zeros + 1;
    }
    LeadingZerosUnique(s, zeros);
  }

  lemma LeadingZerosUnique(s: seq<int>, z: nat)
    requires z <= |s| && (forall i | 0 <= i < z :: s[i] == 0) && (z < |s| ==> s[z] != 0)
    ensures LeadingZeros(s) == z
  {
  }

  /** An ASCII alphabet without duplicates has at most 128 letters. */
  lemma AlphabetSize(e: Encoding)
    requires e.Valid()
    ensures |e.alphabet| <= 128
  {
    DistinctBelow(e.alphabet, 128);
  }

  lemma {:induction false} DistinctBelow(s: seq<int>, k: nat)
    requires forall i | 0 <= i < |s| :: 0 <= s[i] < k
    requires forall i, j | 0 <= i < j < |s| :: s[i] != s[j]
    ensures |s| <= k
  {
    if s != [] {
      assert 0 <= s[0] < k;
      if i :| 0 <= i < |s| && s[i] == k - 1 {
        DistinctBelow(s[..i] + s[i + 1..], k - 1);
      } else {
        DistinctBelow(s, k - 1);
      }
    }
  }

  /** Where the encoder stands: the number `n` is what `rest` still denotes followed by the finished
      `digits`, and no zero digit is in front of `rest`. */
  ghost predicate Progress(n: nat, base: nat, rest: seq<int>, digits: seq<int>)
    requires 2 <= base
  {
    && AreDigits(rest, 256) && (rest != [] ==> rest[0] != 0) && AreDigits(digits, base)
    && 0 <= Val(rest, 256) && Strip(Digits(Val(rest, 256), base) + digits) == Digits(n, base)
  }

  /** The bytes that remain after one division. */
  ghost function Remaining(after: seq<int>): seq<int>
    requires after != []
  {
    if after[0] == 0 then after[1..] else after
  }

  /** One pass of the encoder: the finished digits are a proper suffix of the result, and the number
      shrinks. */
  lemma EncodeStep(n: nat, base: nat, before: seq<int>, digits: seq<int>)
    requires 2 <= base <= 256 && before != [] && Progress(n, base, before, digits)
    ensures var (after, remainder) := LongDivision(before, 256, base);
            && |digits| < |Digits(n, base)|
            && Progress(n, base, Remaining(after), [remainder] + digits)
            && 0 <= Val(Remaining(after), 256) < Val(before, 256)
  {
    hide LongDivision, Val, Digits;
    var (after, remainder) := LongDivision(before, 256, base);
    LongDivisionMeaning(before, 256, base);
    CurrentFits(before, base, digits, n);
    ValNonNegative(after, 256);
    QuotientLeadingZeros(before, after, 256, base, remainder);
    QuotientSmaller(Val(after, 256), remainder, base, Val(before, 256));
    LongDivisionStep(Val(before, 256), Val(after, 256), remainder, base, digits);
    if after[0] == 0 {
      assert after == [0] + after[1..];
      ValZeroPrefix(after[1..], 256);
    }
  }

  lemma CurrentFits(source: seq<int>, base: nat, digits: seq<int>, n: nat)
    requires 2 <= base && AreDigits(source, 256) && source != [] && source[0] != 0
    requires 0 <= Val(source, 256)
    requires Strip(Digits(Val(source, 256), base) + digits) == Digits(n, base)
    ensures 0 < Val(source, 256)
    ensures |digits| < |Digits(n, base)|
  {
    ValLowerBound(source, 256);
    PowPositive(256, |source| - 1);
    var front := Digits(Val(source, 256), base);
    DigitsMeaning(Val(source, 256), base);
    assert front != [] && front[0] != 0;
    assert (front + digits)[0] != 0;
  }

  lemma QuotientSmaller(quotient: nat, remainder: nat, base: nat, current: nat)
    requires 2 <= base && current == quotient * base + remainder && 0 < current
    ensures quotient < current
  {
    MulMonotone(2, base, quotient);
  }

  /** Writes one more letter in front of the digits written. */
  method PushLetter(alphabet: seq<Byte>, encoded: array<Byte>, start: nat, digit: int, ghost digits: seq<int>)
    returns (outputStart: nat)
    requires 0 <= digit < |alphabet| && AreDigits(digits, |alphabet|) && 0 < start == encoded.Length - |digits|
    requires encoded[start..] == Letters(alphabet, digits)
    modifies encoded
    ensures outputStart == start - 1 && AreDigits([digit] + digits, |alphabet|)
    ensures encoded[outputStart..] == Letters(alphabet, [digit] + digits)
  {
    ghost var written := encoded[start..];
    outputStart := start - 1;
    encoded[outputStart] := alphabet[digit];
    LettersCons(alphabet, digit, digits);
    assert encoded[outputStart..] == [alphabet[digit]] + written;
  }

  /** The division loop of the encoder: letters appear at the right end of the buffer, until it is full
      or the number is used up. It is full only when not even the digits of the number fit. */
  method EncodeDigits(e: Encoding, input: seq<Byte>, zeros: nat, source: array<Byte>, encoded: array<Byte>)
    returns (ok: bool, outputStart: nat, ghost digits: seq<int>)
    requires e.Valid()
    requires source != encoded && source[..] == input && encoded.Length == BufferLength(|input|)
    requires zeros == LeadingZeros(input)
    modifies source, encoded
    ensures 0 <= Val(input, 256)
    ensures AreDigits(digits, |e.alphabet|) && outputStart == encoded.Length - |digits|
    ensures encoded[outputStart..] == Letters(e.alphabet, digits)
    ensures !ok ==> encoded.Length < |Digits(Val(input, 256), |e.alphabet|)|
    ensures ok ==> Strip(digits) == Digits(Val(input, 256), |e.alphabet|)
  {
    hide LongDivision, Val, Digits, LeadingZeros, Progress, Letters, Remaining, AreDigits;
    var base := |e.alphabet|;
    AlphabetSize(e);
    outputStart := encoded.Length;
    var inputStart := zeros;
    digits := [];
    ghost var n := Val(input, 256);
    EncodeStart(input, e.alphabet);
    assert encoded[outputStart..] == [];
    while inputStart < source.Length
      invariant zeros <= inputStart <= source.Length && outputStart == encoded.Length - |digits|
      invariant Progress(n, base, source[inputStart..], digits)
      invariant AreDigits(digits, base) && encoded[outputStart..] == Letters(e.alphabet, digits)
      decreases Val(source[inputStart..], 256)
    {
      EncodeStep(n, base, source[inputStart..], digits);
      AllBytes(source[inputStart..]);
      var remainder := DivMod(source, inputStart, 256, base);
      if outputStart == 0 {
        return false, outputStart, digits;
      }
      outputStart := PushLetter(e.alphabet, encoded, outputStart, remainder, digits);
      digits := [remainder] + digits;
      RemainingFrom(source[..], inputStart);
      if source[inputStart] == 0 {
        inputStart := inputStart + 1;
      }
    }
    assert source[inputStart..] == [];
    EncodeEnd(n, base, digits);
    ok := true;
  }

  lemma AllBytes(s: seq<Byte>)
    ensures AreDigits(s, 256)
  {
  }

  lemma RemainingFrom(source: seq<int>, i: nat)
    requires i < |source|
    ensures Remaining(source[i..]) == if source[i] == 0 then source[i + 1..] else source[i..]
  {
    assert source[i..][1..] == source[i + 1..];
  }

  lemma EncodeEnd(n: nat, base: nat, digits: seq<int>)
    requires 2 <= base && Progress(n, base, [], digits)
    ensures Strip(digits) == Digits(n, base)
  {
    assert Digits(0, base) + digits == digits;
  }

  lemma EncodeStart(input: seq<Byte>, alphabet: seq<Byte>)
    requires 2 <= |alphabet|
    ensures 0 <= Val(input, 256) && Progress(Val(input, 256), |alphabet|, Strip(input), [])
    ensures AreDigits([], |alphabet|) && Letters(alphabet, []) == []
  {
    hide Val, Digits;
    ValStrip(input, 256);
    ValNonNegative(input, 256);
    DigitsMeaning(Val(input, 256), |alphabet|);
    assert Digits(Val(input, 256), |alphabet|) + [] == Digits(Val(input, 256), |alphabet|);
  }

  /** Skips letters that stand for leading zero digits. */
  method SkipZeroLetters(e: Encoding, encoded: array<Byte>, start: nat, ghost digits: seq<int>)
    returns (outputStart: nat)
    requires e.Valid() && AreDigits(digits, |e.alphabet|) && start == encoded.Length - |digits|
    requires encoded[start..] == Letters(e.alphabet, digits)
    ensures outputStart == encoded.Length - |Strip(digits)|
    ensures encoded[outputStart..] == Letters(e.alphabet, Strip(digits))
  {
    outputStart := start;
    while outputStart < encoded.Length && encoded[outputStart] == e.alphabet[0]
      invariant start <= outputStart <= encoded.Length
      invariant forall i | 0 <= i < outputStart - start :: digits[i] == 0
    {
      assert encoded[outputStart] == encoded[start..][outputStart - start] == e.alphabet[digits[outputStart - start]];
      outputStart := outputStart + 1;
    }
    if outputStart < encoded.Length {
      assert encoded[outputStart] == encoded[start..][outputStart - start] == e.alphabet[digits[outputStart - start]];
    }
    LeadingZerosUnique(digits, outputStart - start);
    assert encoded[outputStart..] == encoded[start..][outputStart - start..];
  }

  /** Writes one zero letter per leading zero byte in front of the digits, if there is room. */
  method PrependZeroLetters(e: Encoding, encoded: array<Byte>, start: nat, zeros: nat, ghost digits: seq<int>)
    returns (ok: bool, outputStart: nat)
    requires e.Valid() && AreDigits(digits, |e.alphabet|) && start == encoded.Length - |digits|
    requires encoded[start..] == Letters(e.alphabet, digits)
    modifies encoded
    ensures ok <==> zeros <= start
    ensures ok ==> outputStart <= encoded.Length && AreDigits(Zeros(zeros) + digits, |e.alphabet|)
    ensures ok ==> encoded[outputStart..] == Letters(e.alphabet, Zeros(zeros) + digits)
  {
    hide Letters, Zeros, AreDigits;
    outputStart := start;
    MoreZeros(0, digits);
    for done := 0 to zeros
      invariant outputStart == start - done && AreDigits(Zeros(done) + digits, |e.alphabet|)
      invariant encoded[outputStart..] == Letters(e.alphabet, Zeros(done) + digits)
    {
      if outputStart == 0 {
        return false, outputStart;
      }
      MoreZeros(done, digits);
      outputStart := PushLetter(e.alphabet, encoded, outputStart, 0, Zeros(done) + digits);
    }
    ok := true;
  }

  lemma MoreZeros(k: nat, digits: seq<int>)
    ensures Zeros(0) + digits == digits
    ensures Zeros(k + 1) + digits == [0] + (Zeros(k) + digits)
  {
  }

  /** Encodes by dividing a copy of the input by the alphabet size until it is used up. Running out of
      the buffer is a panic in the source and an error here; it happens exactly when the text does not
      fit. */
  method Encode(e: Encoding, input: seq<Byte>) returns (r: Result<seq<Byte>, EncodeError>)
    requires e.Valid()
    ensures r.Ok? <==> Fits(input, |e.alphabet|)
    ensures r.Ok? ==> r.value == Encoded(e, input)
    ensures r.Ok? ==>
      && OverAlphabet(e, r.value) && Val(Indexes(e, r.value), |e.alphabet|) == Val(input, 256)
      && LeadingZeros(Indexes(e, r.value)) == LeadingZeros(input)
    ensures 56 <= |e.alphabet| ==> r.Ok?
  {
    hide LeadingZeros, Val, Digits, Letters, Indexes, OverAlphabet;
    EncodedMeaning(e, input);
    if 56 <= |e.alphabet| {
      BufferSuffices(input, |e.alphabet|);
    }
    if |input| == 0 {
      EmptyText(e);
      return Ok([]);
    }
    var zeros := CountLeadingZeros(input);
    var source := new Byte[|input|](i requires 0 <= i < |input| => input[i]);
    assert source[..] == input;
    var encoded := new Byte[|input| * 138 / 100 + 2](_ => 0);
    ghost var digits;
    var ok, outputStart;
    ok, outputStart, digits := EncodeDigits(e, input, zeros, source, encoded);
    if !ok {
      return Err(BufferOverrun);
    }
    outputStart := SkipZeroLetters(e, encoded, outputStart, digits);
    DigitsMeaning(Val(input, 256), |e.alphabet|);
    ok, outputStart := PrependZeroLetters(e, encoded, outputStart, zeros, Strip(digits));
    if !ok {
      return Err(BufferOverrun);
    }
    return Ok(encoded[outputStart..]);
  }

  /** The text is over the alphabet and denotes, most significant letter first, the number that the bytes
      denote; and it has a zero letter in front for each leading zero byte. */
  lemma EncodedMeaning(e: Encoding, input: seq<Byte>)
    requires e.Valid()
    ensures OverAlphabet(e, Encoded(e, input))
    ensures Val(Indexes(e, Encoded(e, input)), |e.alphabet|) == Val(input, 256)
    ensures LeadingZeros(Indexes(e, Encoded(e, input))) == LeadingZeros(input)
  {
    hide Rebase, Val, LeadingZeros;
    RebaseMeaning(input, 256, |e.alphabet|);
    IndexesOfLetters(e, Rebase(input, 256, |e.alphabet|));
  }

  /** The bytes denote, most significant byte first, the number that the text denotes. */
  lemma DecodedMeaning(e: Encoding, input: seq<Byte>)
    requires e.Valid() && OverAlphabet(e, input)
    ensures Val(Decoded(e, input), 256) == Val(Indexes(e, input), |e.alphabet|)
    ensures LeadingZeros(Decoded(e, input)) == LeadingZeros(Indexes(e, input))
  {
    hide Rebase, Val, LeadingZeros;
    RebaseMeaning(Indexes(e, input), |e.alphabet|, 256);
  }

  lemma EmptyText(e: Encoding)
    requires e.Valid()
    ensures Encoded(e, []) == [] && Fits([], |e.alphabet|)
    ensures OverAlphabet(e, []) && Decoded(e, []) == []
  {
    assert Indexes(e, []) == [];
  }

  /** The first position that is not a letter, if any, is where decoding stops. */
  ghost predicate FailsAt(e: Encoding, input: seq<Byte>, position: nat)
    requires e.Valid()
  {
    && position < |input| && !IsLetter(e, input[position])
    && forall i | 0 <= i < position :: IsLetter(e, input[i])
  }

  /** The division loop of the decoder. Each pass uses up one source digit, because the base of
      the source digits is smaller than 256; leading zero bytes may be produced and are skipped. */
  method DecodeDigits(base: nat, ghost letters: seq<int>, zeros: nat, source: array<Byte>, decoded: array<Byte>)
    returns (outputStart: nat)
    requires 2 <= base <= 256 && AreDigits(letters, base)
    requires source != decoded && source[..] == letters && decoded.Length == |letters|
    requires zeros == LeadingZeros(letters)
    modifies source, decoded
    ensures 0 <= Val(letters, base)
    ensures zeros <= outputStart <= decoded.Length
    ensures Strip(decoded[outputStart..]) == Digits(Val(letters, base), 256)
  {
    hide LongDivision, Val, ValFrom, Digits;
    outputStart := decoded.Length;
    var inputStart := zeros;
    DecodeStart(letters, base);
    assert decoded[outputStart..] == [];
    while inputStart < source.Length
      invariant zeros <= inputStart <= source.Length
      invariant outputStart == decoded.Length - (inputStart - zeros)
      invariant AreDigits(source[inputStart..], base)
      invariant Val(letters, base) == ValFrom(Val(source[inputStart..], base), decoded[outputStart..], 256)
    {
      DecodeStep(source[inputStart..], base, decoded[outputStart..]);
      ghost var written := decoded[outputStart..];
      var remainder := DivMod(source, inputStart, base, 256);
      ghost var after := source[inputStart..];
      outputStart := outputStart - 1;
      decoded[outputStart] := remainder;
      assert decoded[outputStart..] == [remainder] + written;
      if source[inputStart] == 0 {
        assert source[inputStart + 1..] == after[1..];
        inputStart := inputStart + 1;
      }
    }
    assert source[inputStart..] == [];
    DecodeEnd(decoded[outputStart..], base);
  }

  lemma DecodeStart(letters: seq<int>, base: nat)
    requires AreDigits(letters, base)
    ensures 0 <= Val(letters, base) == ValFrom(Val(Strip(letters), base), [], 256)
  {
    ValStrip(letters, base);
    ValNonNegative(letters, base);
  }

  lemma DecodeEnd(digits: seq<Byte>, base: nat)
    ensures 0 <= ValFrom(Val([], base), digits, 256)
    ensures Strip(digits) == Digits(ValFrom(Val([], base), digits, 256), 256)
  {
    ValFromZero(digits, 256);
    StripIsDigits(digits, 256);
  }

  /** Dividing by at least the base clears the leading digit. */
  lemma QuotientLeadsWithZero(s: seq<int>, q: seq<int>, base: nat, remainder: nat)
    requires AreDigits(s, base) && AreDigits(q, base) && |s| == |q| && q != []
    requires 2 <= base <= 256
    requires Val(s, base) == Val(q, base) * 256 + remainder
    ensures q[0] == 0
  {
    if q[0] != 0 {
      ValBound(s, base);
      ValLowerBound(q, base);
      MulMonotone(base, 256, Pow(base, |q| - 1));
    }
  }

  /** One pass of the decoder keeps the number and clears one source digit. */
  lemma DecodeStep(before: seq<int>, base: nat, digits: seq<int>)
    requires 2 <= base <= 256 && AreDigits(before, base) && before != []
    ensures var (after, remainder) := LongDivision(before, base, 256);
            && after[0] == 0 && AreDigits(after[1..], base)
            && ValFrom(Val(before, base), digits, 256) == ValFrom(Val(after[1..], base), [remainder] + digits, 256)
  {
    hide LongDivision, Val, ValFrom;
    var (after, remainder) := LongDivision(before, base, 256);
    LongDivisionMeaning(before, base, 256);
    QuotientLeadsWithZero(before, after, base, remainder);
    assert after == [0] + after[1..];
    ValZeroPrefix(after[1..], base);
    ValFromCons(Val(after[1..], base), remainder, digits, 256);
  }

  /** The indexes of all letters, or the first byte that is not a letter. */
  method ReadLetters(e: Encoding, input: seq<Byte>) returns (r: Result<array<Byte>, DecodeError>)
    requires e.Valid()
    ensures r.Ok? <==> OverAlphabet(e, input)
    ensures r.Ok? ==> fresh(r.value) && r.value[..] == Indexes(e, input)
    ensures r.Err? ==> FailsAt(e, input, r.error.position) && r.error.letter == input[r.error.position]
  {
    AlphabetSize(e);
    var source := new Byte[|input|](_ => 0);
    for index := 0 to |input|
      invariant forall i | 0 <= i < index :: IsLetter(e, input[i]) && source[i] == e.indexes[input[i]]
    {
      var letter := input[index];
      if letter >= 128 || e.indexes[letter] < 0 {
        return Err(InvalidCharacter(letter, index));
      }
      source[index] := e.indexes[letter];
    }
    assert source[..] == Indexes(e, input);
    return Ok(source);
  }

  /** Decodes, or names the first byte that is not a letter. */
  method Decode(e: Encoding, input: seq<Byte>) returns (r: Result<seq<Byte>, DecodeError>)
    requires e.Valid()
    ensures r.Ok? <==> OverAlphabet(e, input)
    ensures r.Ok? ==> r.value == Decoded(e, input)
    ensures r.Ok? ==>
      && Val(r.value, 256) == Val(Indexes(e, input), |e.alphabet|)
      && LeadingZeros(r.value) == LeadingZeros(Indexes(e, input))
    ensures r.Err? ==> FailsAt(e, input, r.error.position) && r.error.letter == input[r.error.position]
  {
    hide LeadingZeros, Val, Digits, Indexes, FailsAt, OverAlphabet, Decoded;
    r := DecodeLetters(e, input);
    if r.Ok? {
      DecodedMeaning(e, input);
    }
  }

  method DecodeLetters(e: Encoding, input: seq<Byte>) returns (r: Result<seq<Byte>, DecodeError>)
    requires e.Valid()
    ensures r.Ok? <==> OverAlphabet(e, input)
    ensures r.Ok? ==> r.value == Decoded(e, input)
    ensures r.Err? ==> FailsAt(e, input, r.error.position) && r.error.letter == input[r.error.position]
  {
    hide LeadingZeros, Val, Digits, Indexes, FailsAt, OverAlphabet;
    if |input| == 0 {
      EmptyText(e);
      return Ok([]);
    }
    AlphabetSize(e);
    var read := ReadLetters(e, input);
    if read.Err? {
      return Err(read.error);
    }
    var source := read.value;
    ghost var letters := Indexes(e, input);
    var zeros := CountLeadingZeros(source[..]);
    var decoded := new Byte[|input|](_ => 0);
    var outputStart := DecodeDigits(|e.alphabet|, letters, zeros, source, decoded);
    var skipped := CountLeadingZeros(decoded[outputStart..]);
    ghost var stripped := Strip(decoded[outputStart..]);
    outputStart := outputStart + skipped;
    assert decoded[outputStart..] == stripped;
    var padding: seq<Byte> := seq(zeros, _ => 0);
    assert padding == Zeros(zeros);
    return Ok(padding + decoded[outputStart..]);
  }

  // ---- The codec is a bijection ----

  lemma LettersOfIndexes(e: Encoding, s: seq<Byte>)
    requires e.Valid() && OverAlphabet(e, s)
    ensures Letters(e.alphabet, Indexes(e, s)) == s
  {
    assert forall i | 0 <= i < |s| :: IsLetter(e, s[i]);
  }

  lemma IndexesOfLetters(e: Encoding, digits: seq<int>)
    requires e.Valid() && AreDigits(digits, |e.alphabet|)
    ensures OverAlphabet(e, Letters(e.alphabet, digits))
    ensures Indexes(e, Letters(e.alphabet, digits)) == digits
  {
  }

  /** Decoding inverts encoding on every byte string, leading zero bytes included. */
  lemma DecodeInvertsEncode(e: Encoding, input: seq<Byte>)
    requires e.Valid()
    ensures OverAlphabet(e, Encoded(e, input))
    ensures Decoded(e, Encoded(e, input)) == input
  {
    hide Rebase;
    var digits := Rebase(input, 256, |e.alphabet|);
    RebaseRoundTrip(input, 256, |e.alphabet|);
    IndexesOfLetters(e, digits);
  }

  /** Encoding inverts decoding on every string over the alphabet. */
  lemma EncodeInvertsDecode(e: Encoding, input: seq<Byte>)
    requires e.Valid() && OverAlphabet(e, input)
    ensures Encoded(e, Decoded(e, input)) == input
  {
    hide Rebase;
    RebaseRoundTrip(Indexes(e, input), |e.alphabet|, 256);
    LettersOfIndexes(e, input);
  }

  // ---- The two alphabets ----

  /** The bytes of the characters from `first` to `last`. */
  function Run(first: char, last: char): (s: seq<Byte>)
    requires first <= last < 128 as char
    ensures |s| == last as int - first as int + 1
  {
    seq(last as int - first as int + 1, i requires 0 <= i < last as int - first as int + 1 => first as int + i)
  }

  /** Digits and letters without 0, I, O and l. */
  function Base58Alphabet(): (s: seq<Byte>)
    ensures |s| == 58
  {
    Run('1', '9') + Run('A', 'H') + Run('J', 'N') + Run('P', 'Z') + Run('a', 'k') + Run('m', 'z')
  }

  function Base62Alphabet(): (s: seq<Byte>)
    ensures |s| == 62
  {
    Run('0', '9') + Run('A', 'Z') + Run('a', 'z')
  }

  ghost predicate Ascending(s: seq<Byte>) {
    forall i, j | 0 <= i < j < |s| :: s[i] < s[j]
  }

  lemma AppendRun(s: seq<Byte>, first: char, last: char)
    requires Ascending(s) && first <= last < 128 as char && (s != [] ==> s[|s| - 1] < first as int)
    ensures Ascending(s + Run(first, last))
    ensures (s + Run(first, last))[|s + Run(first, last)| - 1] == last as int
  {
  }

  lemma Base58IsWellFormed()
    ensures WellFormedAlphabet(Base58Alphabet())
  {
    assert Ascending([]);
    hide Run, Ascending;
    var s: seq<Byte> := [];
    AppendRun(s, '1', '9');
    assert s + Run('1', '9') == Run('1', '9');
    s := Run('1', '9');
    AppendRun(s, 'A', 'H');
    s := s + Run('A', 'H');
    AppendRun(s, 'J', 'N');
    s := s + Run('J', 'N');
    AppendRun(s, 'P', 'Z');
    s := s + Run('P', 'Z');
    AppendRun(s, 'a', 'k');
    s := s + Run('a', 'k');
    AppendRun(s, 'm', 'z');
    AscendingIsWellFormed(s + Run('m', 'z'));
  }

  lemma Base62IsWellFormed()
    ensures WellFormedAlphabet(Base62Alphabet())
  {
    hide Run;
    AppendRun([], '0', '9');
    assert [] + Run('0', '9') == Run('0', '9');
    AppendRun(Run('0', '9'), 'A', 'Z');
    AppendRun(Run('0', '9') + Run('A', 'Z'), 'a', 'z');
    AscendingIsWellFormed(Base62Alphabet());
  }

  lemma AscendingIsWellFormed(s: seq<Byte>)
    requires 2 <= |s| && Ascending(s) && s[|s| - 1] < 128
    ensures WellFormedAlphabet(s)
  {
  }

  /** The bytes of a text of ASCII characters. */
  function Bytes(text: string): (s: seq<Byte>)
    ensures |s| == |text| && forall i | 0 <= i < |s| :: s[i] == text[i] as int % 256
  {
    seq(|text|, i requires 0 <= i < |text| => text[i] as int % 256)
  }

  lemma RunLetters()
    ensures Run('1', '9') == Bytes("123456789") && Run('0', '9') == Bytes("0123456789")
    ensures Run('A', 'H') == Bytes("ABCDEFGH") && Run('J', 'N') == Bytes("JKLMN")
    ensures Run('P', 'Z') == Bytes("PQRSTUVWXYZ") && Run('a', 'k') == Bytes("abcdefghijk")
    ensures Run('m', 'z') == Bytes("mnopqrstuvwxyz")
  {
  }

  lemma LongRunLetters()
    ensures Run('A', 'Z') == Bytes("ABCDEFGHIJKLM") + Bytes("NOPQRSTUVWXYZ")
    ensures Run('a', 'z') == Bytes("abcdefghijklm") + Bytes("nopqrstuvwxyz")
  {
  }

  /** The alphabets, letter by letter. */
  lemma AlphabetLetters()
    ensures Base58Alphabet() == Bytes("123456789") + Bytes("ABCDEFGH") + Bytes("JKLMN") + Bytes("PQRSTUVWXYZ")
                              + Bytes("abcdefghijk") + Bytes("mnopqrstuvwxyz")
    ensures Base62Alphabet() == Bytes("0123456789") + (Bytes("ABCDEFGHIJKLM") + Bytes("NOPQRSTUVWXYZ"))
                              + (Bytes("abcdefghijklm") + Bytes("nopqrstuvwxyz"))
  {
    hide Run, Bytes;
    RunLetters();
    LongRunLetters();
  }

  /** Bytes 1 and 0 are 256, which is 4 times 58 and 24: the letters 5 and R. */
  lemma TwoLetters(e: Encoding)
    requires e.Valid() && e.alphabet == Base58Alphabet()
    ensures Encoded(e, [1, 0]) == Bytes("5R")
  {
    hide Rebase, Base58Alphabet, Encoding.Valid;
    TwoDigits();
    assert Base58Alphabet()[4] == '5' as int && Base58Alphabet()[24] == 'R' as int by { SomeLetters(); }
  }

  lemma TwoDigits()
    ensures Rebase([1, 0], 256, 58) == [4, 24]
  {
    assert [1, 0][..1] == [1] && [1][..0] == [];
    assert Val([1], 256) == 1 && Val([1, 0], 256) == 256;
    assert LeadingZeros([1, 0]) == 0;
    assert Digits(4, 58) == [4] && Digits(256, 58) == [4, 24];
  }

  lemma SomeLetters()
    ensures Base58Alphabet()[4] == '5' as int && Base58Alphabet()[24] == 'R' as int
  {
  }

  /** Both alphabets are accepted, and they are long enough for the encoder's buffer. */
  method StandardEncodings() returns (base58: Encoding, base62: Encoding)
    ensures base58.Valid() && base58.alphabet == Base58Alphabet()
    ensures base62.Valid() && base62.alphabet == Base62Alphabet()
  {
    Base58IsWellFormed();
    Base62IsWellFormed();
    var r58 := NewAlphabetEncoding("Base58", Base58Alphabet());
    var r62 := NewAlphabetEncoding("Base62", Base62Alphabet());
    return r58.value, r62.value;
  }
}
