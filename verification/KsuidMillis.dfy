/** KSUID with millisecond timestamps: a variable-length Base62 code over a bit stream
    (id/ksuid_millis.go). Bytes are `bv8`, the source's small integers `bv16`, and its
    64-bit timestamps `bv64`, so masks, shifts and wrap-around are the source's own. */
module KsuidMillis {
  import opened Wrappers

  const COMPACT_MASK: bv16 := 0x1e
  const MASK_5_BITS: bv16 := 0x1f
  const EPOCH: bv64 := 1_400_000_000_000
  const TIMESTAMP_BYTES := 8
  const TOTAL_BYTES := 20
  const ENCODED_LENGTH := 27

  // ---- Bits ----

  function BitAt(b: bv16, i: bv4): bool {
    (b >> i) & 1 == 1
  }

  /** A shift count as a bit vector; the same as `i as bv4`, by cases. */
  function Nib(i: nat): bv4
    requires i < 16
  {
    match i
    case 0 => 0 case 1 => 1 case 2 => 2 case 3 => 3 case 4 => 4 case 5 => 5 case 6 => 6 case 7 => 7
    case 8 => 8 case 9 => 9 case 10 => 10 case 11 => 11 case 12 => 12 case 13 => 13 case 14 => 14 case 15 => 15
  }

  function Bit(b: bv16, i: nat): bool
    requires i < 16
  {
    BitAt(b, Nib(i))
  }

  function ByteBit(b: bv8, i: nat): bool
    requires i < 8
  {
    Bit(b as bv16, i)
  }

  /** Bit `i` of a byte string, least significant bit of the first byte first; false past the end. */
  function StreamBit(bytes: seq<bv8>, i: nat): bool {
    i / 8 < |bytes| && ByteBit(bytes[i / 8], i % 8)
  }

  function Bits(bytes: seq<bv8>): (s: seq<bool>)
    ensures |s| == 8 * |bytes|
  {
    seq(8 * |bytes|, i requires 0 <= i => StreamBit(bytes, i))
  }

  function At(bits: seq<bool>, i: nat): bool {
    i < |bits| && bits[i]
  }

  function LowBits(v: bv16, count: nat): (s: seq<bool>)
    requires count <= 16
    ensures |s| == count
  {
    seq(count, k requires 0 <= k < count => Bit(v, k))
  }

  lemma BitsDetermine(a: bv16, b: bv16)
    requires a < 256 && b < 256
    requires forall k: nat | k < 8 :: Bit(a, k) == Bit(b, k)
    ensures a == b
  {
    assert Bit(a, 0) == Bit(b, 0) && Bit(a, 1) == Bit(b, 1) && Bit(a, 2) == Bit(b, 2) && Bit(a, 3) == Bit(b, 3);
    assert Bit(a, 4) == Bit(b, 4) && Bit(a, 5) == Bit(b, 5) && Bit(a, 6) == Bit(b, 6) && Bit(a, 7) == Bit(b, 7);
  }

  lemma ByteDetermines(a: bv8, b: bv8)
    requires forall k: nat | k < 8 :: ByteBit(a, k) == ByteBit(b, k)
    ensures a == b
  {
    hide Bit;
    var x, y := a as bv16, b as bv16;
    forall k: nat | k < 8 ensures Bit(x, k) == Bit(y, k) {
      assert ByteBit(a, k) == ByteBit(b, k);
    }
    BitsDetermine(a as bv16, b as bv16);
  }

  lemma StreamOfByte(bytes: seq<bv8>, j: nat, k: nat)
    requires j < |bytes| && k < 8
    ensures StreamBit(bytes, 8 * j + k) == ByteBit(bytes[j], k)
  {
    hide ByteBit;
    assert (8 * j + k) / 8 == j && (8 * j + k) % 8 == k;
  }

  /** A byte string is determined by its length and its bits. */
  lemma BytesDetermine(a: seq<bv8>, b: seq<bv8>)
    requires |a| == |b|
    requires forall i: nat | i < 8 * |a| :: StreamBit(a, i) == StreamBit(b, i)
    ensures a == b
  {
    hide ByteBit, StreamBit;
    forall j | 0 <= j < |a| ensures a[j] == b[j] {
      forall k: nat | k < 8 ensures ByteBit(a[j], k) == ByteBit(b[j], k) {
        StreamOfByte(a, j, k);
        StreamOfByte(b, j, k);
      }
      ByteDetermines(a[j], b[j]);
    }
  }

  lemma ZeroBit(k: nat)
    requires k < 16
    ensures !Bit(0, k)
  {
  }

  lemma SmallNumbers(a: nat, b: nat)
    requires a < 8 && b <= 8
    ensures Nib(a) < 8 && Nib(b) <= 8
    ensures Nib(a) + Nib(b) == Nib(a + b)
    ensures Nib(a) < Nib(b) <==> a < b
    ensures a + b <= 8 <==> Nib(b) <= 8 - Nib(a)
    ensures b <= a ==> Nib(a) - Nib(b) == Nib(a - b)
    ensures a + b < 8 <==> Nib(a) + Nib(b) < 8
    ensures 8 <= a + b ==> Nib(a + b - 8) == Nib(a) + Nib(b) - 8
  {
  }

  /** The word `readBits` assembles: `f` bits of one byte from bit `n` on, then `s` bits of the next. */
  function ReadWord(first: bv16, second: bv16, n: bv4, f: bv4, s: bv4): bv16 {
    ((first & (((1 << f) - 1) << n)) >> n) | ((second & ((1 << s) - 1)) << f)
  }

  lemma ReadMask(first: bv16, second: bv16, n: bv4, f: bv4, s: bv4, k: bv4)
    requires first < 256 && second < 256 && k < 8
    requires n < 8 && 0 < f <= 8 - n && s < 8 && f + s < 8 && (s == 0 || f == 8 - n)
    ensures ReadWord(first, second, n, f, s) < 256
    ensures BitAt(ReadWord(first, second, n, f, s), k)
         == (k < f + s && if n + k < 8 then BitAt(first, n + k) else BitAt(second, n + k - 8))
  {
  }

  /** The bytes `writeBits` leaves behind: the low `f` bits go to one byte from bit `n` on, the rest to the next. */
  function WriteFirst(first: bv16, bits: bv16, n: bv4, f: bv4): bv16 {
    first | ((bits & ((1 << f) - 1)) << n)
  }

  function WriteSecond(second: bv16, bits: bv16, f: bv4, s: bv4): bv16 {
    second | ((bits >> f) & ((1 << s) - 1))
  }

  lemma WriteFirstMask(first: bv16, bits: bv16, n: bv4, f: bv4, k: bv4)
    requires first < 256 && k < 8 && n < 8 && f <= 8 - n
    ensures WriteFirst(first, bits, n, f) < 256
    ensures BitAt(WriteFirst(first, bits, n, f), k) == (BitAt(first, k) || (n <= k < n + f && BitAt(bits, k - n)))
  {
  }

  lemma WriteSecondMask(second: bv16, bits: bv16, f: bv4, s: bv4, k: bv4)
    requires second < 256 && k < 8 && f <= 8 && s < 8
    ensures WriteSecond(second, bits, f, s) < 256
    ensures BitAt(WriteSecond(second, bits, f, s), k) == (BitAt(second, k) || (k < s && BitAt(bits, f + k)))
  {
  }

  lemma StreamIndex(offset: nat, k: nat)
    requires k < 8
    ensures offset % 8 + k < 8 ==> (offset + k) / 8 == offset / 8 && (offset + k) % 8 == offset % 8 + k
    ensures offset % 8 + k >= 8 ==> (offset + k) / 8 == offset / 8 + 1 && (offset + k) % 8 == offset % 8 + k - 8
  {
  }

  // ---- Reading bits ----

  lemma ReadWordBit(first: bv16, second: bv16, bitNum: nat, firstRead: nat, secondRead: nat, k: nat)
    requires first < 256 && second < 256 && k < 8
    requires bitNum < 8 && 0 < firstRead <= 8 - bitNum && firstRead + secondRead < 8
    requires secondRead == 0 || firstRead == 8 - bitNum
    ensures var result := ReadWord(first, second, Nib(bitNum), Nib(firstRead), Nib(secondRead));
            result < 256 && Bit(result, k) ==
            (&& k < firstRead + secondRead
             && if bitNum + k < 8 then Bit(first, bitNum + k) else Bit(second, bitNum + k - 8))
  {
    hide ReadWord, BitAt, Nib;
    SmallNumbers(bitNum, firstRead);
    SmallNumbers(secondRead, firstRead);
    SmallNumbers(bitNum, k);
    SmallNumbers(k, firstRead + secondRead);
    ReadMask(first, second, Nib(bitNum), Nib(firstRead), Nib(secondRead), Nib(k));
  }

  lemma ReadBitMeaning(bytes: seq<bv8>, next: bv16, offset: nat, firstRead: nat, secondRead: nat, k: nat)
    requires offset < 8 * |bytes| && k < 8
    requires next == if |bytes| > offset / 8 + 1 then bytes[offset / 8 + 1] as bv16 else 0
    requires 0 < firstRead <= 8 - offset % 8 && firstRead + secondRead < 8
    requires secondRead == 0 || firstRead == 8 - offset % 8
    ensures var result := ReadWord(bytes[offset / 8] as bv16, next, Nib(offset % 8), Nib(firstRead), Nib(secondRead));
            result < 256 && Bit(result, k) == (k < firstRead + secondRead && StreamBit(bytes, offset + k))
  {
    hide ReadWord, Bit, Nib;
    ReadWordBit(bytes[offset / 8] as bv16, next, offset % 8, firstRead, secondRead, k);
    StreamIndex(offset, k);
    ZeroBit((offset + k) % 8);
  }

  class BitInput {
    const bytes: seq<bv8>
    const bitLength: nat
    var offset: nat

    constructor (data: seq<bv8>)
      ensures bytes == data && bitLength == 8 * |data| && offset == 0
    {
      bytes := data;
      bitLength := |data| * 8;
      offset := 0;
    }

    predicate HasMore()
      reads this
    {
      offset < bitLength
    }

    method SeekBit(pos: int)
      requires 0 <= offset + pos
      modifies this
      ensures offset == old(offset) + pos
    {
      offset := offset + pos;
    }

    /** Reads the next bits of the stream; bits past the end read as zero. */
    method ReadBits(count: nat) returns (result: bv16)
      requires offset < 8 * |bytes| && 0 < count <= 7
      modifies this
      ensures offset == old(offset) + count
      ensures result < 256
      ensures forall k: nat | k < 8 :: Bit(result, k) == (k < count && StreamBit(bytes, old(offset) + k))
    {
      hide ReadWord, Bit, Nib;
      var bitNum, byteNum := offset % 8, offset / 8;
      var firstRead := if 8 - bitNum < count then 8 - bitNum else count;
      var secondRead := count - firstRead;
      var next: bv16 := if |bytes| > byteNum + 1 then bytes[byteNum + 1] as bv16 else 0;
      result := ReadWord(bytes[byteNum] as bv16, next, Nib(bitNum), Nib(firstRead), Nib(secondRead));
      ReadBitMeaning(bytes, next, offset, firstRead, secondRead, 0);
      forall k: nat | k < 8
        ensures Bit(result, k) == (k < count && StreamBit(bytes, offset + k))
      {
        ReadBitMeaning(bytes, next, offset, firstRead, secondRead, k);
      }
      offset := offset + count;
    }
  }

  // ---- Writing bits ----

  lemma WriteFirstMeaning(first: bv16, bits: bv16, bitNum: nat, firstWrite: nat, k: nat)
    requires first < 256 && k < 8 && bitNum < 8 && firstWrite <= 8 - bitNum
    ensures var one := WriteFirst(first, bits, Nib(bitNum), Nib(firstWrite));
            && one < 256
            && Bit(one, k) == (Bit(first, k) || (bitNum <= k < bitNum + firstWrite && Bit(bits, k - bitNum)))
  {
    hide WriteFirst, BitAt, Nib;
    SmallNumbers(bitNum, firstWrite);
    SmallNumbers(k, bitNum);
    SmallNumbers(k, bitNum + firstWrite);
    WriteFirstMask(first, bits, Nib(bitNum), Nib(firstWrite), Nib(k));
  }

  lemma WriteSecondMeaning(second: bv16, bits: bv16, firstWrite: nat, secondWrite: nat, k: nat)
    requires second < 256 && k < 8 && firstWrite <= 8 && firstWrite + secondWrite < 8
    ensures var two := WriteSecond(second, bits, Nib(firstWrite), Nib(secondWrite));
            && two < 256
            && Bit(two, k) == (Bit(second, k) || (k < secondWrite && Bit(bits, firstWrite + k)))
  {
    hide WriteSecond, BitAt, Nib;
    SmallNumbers(k, secondWrite);
    SmallNumbers(k, firstWrite);
    SmallNumbers(secondWrite, 0);
    WriteSecondMask(second, bits, Nib(firstWrite), Nib(secondWrite), Nib(k));
  }

  /** The two bytes of a write, as bytes. */
  function FirstByte(b: bv8, bits: bv16, bitNum: nat, firstWrite: nat): (r: bv8)
    requires bitNum < 8 && firstWrite <= 8 - bitNum
    ensures r as bv16 == WriteFirst(b as bv16, bits, Nib(bitNum), Nib(firstWrite))
  {
    WriteFirstMeaning(b as bv16, bits, bitNum, firstWrite, 0);
    WriteFirst(b as bv16, bits, Nib(bitNum), Nib(firstWrite)) as bv8
  }

  function SecondByte(b: bv8, bits: bv16, firstWrite: nat, secondWrite: nat): (r: bv8)
    requires firstWrite <= 8 && firstWrite + secondWrite < 8
    ensures r as bv16 == WriteSecond(b as bv16, bits, Nib(firstWrite), Nib(secondWrite))
  {
    WriteSecondMeaning(b as bv16, bits, firstWrite, secondWrite, 0);
    WriteSecond(b as bv16, bits, Nib(firstWrite), Nib(secondWrite)) as bv8
  }

  lemma FirstByteBit(b: bv8, bits: bv16, bitNum: nat, firstWrite: nat, k: nat)
    requires bitNum < 8 && firstWrite <= 8 - bitNum && k < 8
    ensures ByteBit(FirstByte(b, bits, bitNum, firstWrite), k)
         == (ByteBit(b, k) || (bitNum <= k < bitNum + firstWrite && Bit(bits, k - bitNum)))
  {
    hide WriteFirst, Bit, Nib, FirstByte;
    WriteFirstMeaning(b as bv16, bits, bitNum, firstWrite, k);
  }

  lemma SecondByteBit(b: bv8, bits: bv16, firstWrite: nat, secondWrite: nat, k: nat)
    requires firstWrite <= 8 && firstWrite + secondWrite < 8 && k < 8
    ensures ByteBit(SecondByte(b, bits, firstWrite, secondWrite), k)
         == (ByteBit(b, k) || (k < secondWrite && Bit(bits, firstWrite + k)))
  {
    hide WriteSecond, Bit, Nib, SecondByte;
    WriteSecondMeaning(b as bv16, bits, firstWrite, secondWrite, k);
  }

  class BitOutput {
    const bytes: array<bv8>
    var offset: nat

    constructor (capacity: nat)
      ensures fresh(bytes) && bytes.Length == (capacity + 7) / 8 && offset == 0 && Clear()
    {
      bytes := new bv8[(capacity + 7) / 8](_ => 0);
      offset := 0;
      new;
      forall i: nat ensures !StreamBit(bytes[..], i) {
        if i / 8 < bytes.Length {
          ZeroBit(i % 8);
        }
      }
    }

    /** Nothing is written from `offset` on. */
    ghost predicate Clear()
      reads this, bytes
    {
      forall i: nat | offset <= i :: !StreamBit(bytes[..], i)
    }

    function BitsCountUpToByte(): nat
      reads this
    {
      (8 - offset % 8) % 8
    }

    /** Appends the low `count` bits of `bits` to the stream. */
    method WriteBits(count: nat, bits: bv16)
      requires count <= 7 && offset + count <= 8 * bytes.Length && Clear()
      modifies this, bytes
      ensures offset == old(offset) + count && Clear()
      ensures forall i: nat | i < old(offset) :: StreamBit(bytes[..], i) == old(StreamBit(bytes[..], i))
      ensures forall k: nat | k < count :: StreamBit(bytes[..], old(offset) + k) == Bit(bits, k)
    {
      hide Bit, ByteBit, StreamBit, FirstByte, SecondByte;
      if count == 0 {
        return;
      }
      ghost var was := bytes[..];
      var bitNum, byteNum := offset % 8, offset / 8;
      var firstWrite := if 8 - bitNum < count then 8 - bitNum else count;
      var secondWrite := count - firstWrite;
      bytes[byteNum] := FirstByte(bytes[byteNum], bits, bitNum, firstWrite);
      if secondWrite > 0 {
        bytes[byteNum + 1] := SecondByte(bytes[byteNum + 1], bits, firstWrite, secondWrite);
      }
      assert bytes[..] == WrittenBytes(was, bits, byteNum, bitNum, firstWrite, secondWrite);
      forall i: nat ensures StreamBit(bytes[..], i) ==
          (if offset <= i < offset + count then Bit(bits, i - offset) else StreamBit(was, i))
      {
        WriteStream(was, bits, offset, firstWrite, secondWrite, i);
      }
      offset := offset + count;
    }

    /** The written bits, as whole bytes. */
    method ToArray() returns (result: seq<bv8>)
      requires offset <= 8 * bytes.Length && Clear()
      ensures |result| == (offset + 7) / 8
      ensures forall i: nat :: StreamBit(result, i) == StreamBit(bytes[..], i)
    {
      hide ByteBit;
      var size := offset / 8;
      if offset % 8 != 0 {
        size := size + 1;
      }
      result := bytes[..size];
      forall i: nat ensures StreamBit(result, i) == StreamBit(bytes[..], i) {
        if i / 8 < size {
          assert result[i / 8] == bytes[..][i / 8];
        } else {
          assert offset <= i;
        }
      }
    }
  }

  /** The bytes after a write to byte `byteNum` and, if bits are left over, the next. */
  function WrittenBytes(was: seq<bv8>, bits: bv16, byteNum: nat, bitNum: nat, firstWrite: nat, secondWrite: nat)
    : (now: seq<bv8>)
    requires byteNum < |was| && (secondWrite > 0 ==> byteNum + 1 < |was|)
    requires bitNum < 8 && firstWrite <= 8 - bitNum && firstWrite + secondWrite < 8
    ensures |now| == |was|
  {
    var first := was[byteNum := FirstByte(was[byteNum], bits, bitNum, firstWrite)];
    if secondWrite == 0 then first
    else first[byteNum + 1 := SecondByte(was[byteNum + 1], bits, firstWrite, secondWrite)]
  }

  /** Bit `k` of byte `j` after that write. */
  lemma WriteByte(was: seq<bv8>, bits: bv16, byteNum: nat, bitNum: nat, firstWrite: nat, secondWrite: nat,
                  j: nat, k: nat)
    requires byteNum < |was| && (secondWrite > 0 ==> byteNum + 1 < |was|) && j < |was| && k < 8
    requires bitNum < 8 && 0 < firstWrite <= 8 - bitNum && firstWrite + secondWrite < 8
    requires secondWrite == 0 || firstWrite == 8 - bitNum
    requires byteNum < j || (j == byteNum && bitNum <= k) ==> !ByteBit(was[j], k)
    ensures var at := 8 * (j - byteNum) + k - bitNum;
            var now := WrittenBytes(was, bits, byteNum, bitNum, firstWrite, secondWrite);
            ByteBit(now[j], k) == if 0 <= at < firstWrite + secondWrite then Bit(bits, at) else ByteBit(was[j], k)
  {
    hide Bit, ByteBit, FirstByte, SecondByte;
    if j == byteNum {
      FirstByteBit(was[j], bits, bitNum, firstWrite, k);
    } else if j == byteNum + 1 && secondWrite > 0 {
      SecondByteBit(was[j], bits, firstWrite, secondWrite, k);
    }
  }

  /** Bit `i` of the stream after a write at `offset`, of which `firstWrite` bits fit the first byte. */
  lemma WriteStream(was: seq<bv8>, bits: bv16, offset: nat, firstWrite: nat, secondWrite: nat, i: nat)
    requires 0 < firstWrite <= 8 - offset % 8 && firstWrite + secondWrite < 8
    requires secondWrite == 0 || firstWrite == 8 - offset % 8
    requires offset / 8 < |was| && (secondWrite > 0 ==> offset / 8 + 1 < |was|)
    requires offset <= i ==> !StreamBit(was, i)
    ensures StreamBit(WrittenBytes(was, bits, offset / 8, offset % 8, firstWrite, secondWrite), i)
         == if offset <= i < offset + firstWrite + secondWrite then Bit(bits, i - offset) else StreamBit(was, i)
  {
    hide Bit, ByteBit, WrittenBytes;
    var byteNum, bitNum, j, k := offset / 8, offset % 8, i / 8, i % 8;
    assert offset == 8 * byteNum + bitNum && i == 8 * j + k;
    if j < |was| {
      WriteByte(was, bits, byteNum, bitNum, firstWrite, secondWrite, j, k);
    }
  }

  // ---- The code, on bit sequences ----

  /** The six bits from position `o` on, padded with zeros. */
  function Window(bits: seq<bool>, o: nat): bv16 {
    (if At(bits, o) then 1 else 0) | (if At(bits, o + 1) then 2 else 0) | (if At(bits, o + 2) then 4 else 0)
    | (if At(bits, o + 3) then 8 else 0) | (if At(bits, o + 4) then 16 else 0) | (if At(bits, o + 5) then 32 else 0)
  }

  lemma WindowBits(bits: seq<bool>, o: nat)
    ensures Window(bits, o) < 64
    ensures forall k: nat | k < 8 :: Bit(Window(bits, o), k) == (k < 6 && At(bits, o + k))
  {
    forall k: nat | k < 8 ensures Bit(Window(bits, o), k) == (k < 6 && At(bits, o + k)) {
      match k { case 0 => case 1 => case 2 => case 3 => case 4 => case 5 => case 6 => case 7 => }
    }
  }

  /** Symbols 30 and 31 take five bits, all others six. */
  predicate Compact(v: bv16) {
    v & COMPACT_MASK == COMPACT_MASK
  }

  function Symbols(bits: seq<bool>, o: nat): (s: seq<bv16>)
    decreases |bits| - o
  {
    if o >= |bits| then [] else
      var raw := Window(bits, o);
      if Compact(raw) then [raw & MASK_5_BITS] + Symbols(bits, o + 5) else [raw] + Symbols(bits, o + 6)
  }

  /** The number of bits the decoder takes from symbol `v`, `written` bits being written already. */
  function Width(v: bv16, isLast: bool, written: nat): (n: nat)
    ensures n <= 7
  {
    if Compact(v) then 5 else if isLast then (8 - written % 8) % 8 else 6
  }

  function Written(symbols: seq<bv16>, sofar: seq<bool>): seq<bool> {
    if symbols == [] then sofar
    else Written(symbols[1..], sofar + LowBits(symbols[0], Width(symbols[0], |symbols| == 1, |sofar|)))
  }

  /** A symbol holds the next bits of the stream, and its width tells how many of them. */
  lemma SymbolHolds(bits: seq<bool>, o: nat)
    requires o < |bits|
    ensures var raw := Window(bits, o);
            && (Compact(raw) ==>
                  && o + 5 <= |bits| && Compact(raw & MASK_5_BITS)
                  && LowBits(raw & MASK_5_BITS, 5) == bits[o..o + 5])
            && (forall n: nat | n <= 6 && o + n <= |bits| :: LowBits(raw, n) == bits[o..o + n])
  {
    var raw := Window(bits, o);
    WindowBits(bits, o);
    if Compact(raw) {
      CompactBits(raw);
      assert At(bits, o + 4);
      hide Bit, Compact;
      var low := raw & MASK_5_BITS;
      assert forall k: nat | k < 5 :: Bit(low, k) == Bit(raw, k) == bits[o + k];
    }
  }

  lemma CompactBits(raw: bv16)
    ensures Compact(raw) ==> Bit(raw, 4) && Compact(raw & MASK_5_BITS) && raw & MASK_5_BITS < 32
    ensures forall k: nat | k < 5 :: Bit(raw & MASK_5_BITS, k) == Bit(raw, k)
  {
    forall k: nat | k < 5 ensures Bit(raw & MASK_5_BITS, k) == Bit(raw, k) {
      match k { case 0 => case 1 => case 2 => case 3 => case 4 => }
    }
  }

  /** The first symbol, and what is left after it. */
  lemma FirstSymbol(bits: seq<bool>, o: nat)
    requires o < |bits|
    ensures var raw := Window(bits, o);
            var width := if Compact(raw) then 5 else 6;
            && Symbols(bits, o) != []
            && Symbols(bits, o)[1..] == Symbols(bits, o + width)
            && Compact(Symbols(bits, o)[0]) == Compact(raw)
            && (Compact(raw) ==> o + width <= |bits|)
            && (o + width <= |bits| ==> LowBits(Symbols(bits, o)[0], width) == bits[o..o + width])
  {
    hide Bit, LowBits, Window, Compact;
    SymbolHolds(bits, o);
  }

  /** Reading one symbol back that is not the last. */
  lemma WrittenStep(symbols: seq<bv16>, sofar: seq<bool>)
    requires |symbols| > 1
    ensures Written(symbols, sofar)
         == Written(symbols[1..], sofar + LowBits(symbols[0], if Compact(symbols[0]) then 5 else 6))
  {
    hide LowBits, Compact;
  }

  lemma BoundaryAhead(length: nat, o: nat)
    requires length % 8 == 0 && o < length < o + 8
    ensures (8 - o % 8) % 8 == length - o
  {
    var m, q, r := length / 8, o / 8, o % 8;
    assert length == 8 * m && o == 8 * q + r;
    assert m == q + 1 && r != 0;
  }

  lemma WrittenNone(bits: seq<bool>)
    ensures Written(Symbols(bits, |bits|), bits[..|bits|]) == bits
  {
    assert bits[..|bits|] == bits;
  }

  /** Reading back a last symbol that is not compact stops at the byte boundary. */
  lemma WrittenLast(bits: seq<bool>, o: nat)
    requires |bits| % 8 == 0 && o < |bits| <= o + 6 && !Compact(Window(bits, o))
    ensures Written(Symbols(bits, o), bits[..o]) == bits
  {
    hide Bit, Compact, LowBits, Window;
    SymbolHolds(bits, o);
    var raw := Window(bits, o);
    assert Symbols(bits, o) == [raw];
    BoundaryAhead(|bits|, o);
    var written := bits[..o] + LowBits(raw, |bits| - o);
    assert written == bits;
    assert [raw][1..] == [];
    assert Written([raw], bits[..o]) == Written([], written) == written;
  }

  /** Reading back a last symbol that is compact takes its five bits. */
  lemma WrittenLastCompact(bits: seq<bool>, o: nat)
    requires o + 5 == |bits| && Compact(Window(bits, o))
    ensures Written(Symbols(bits, o), bits[..o]) == bits
  {
    hide Bit, Compact, LowBits, Window;
    SymbolHolds(bits, o);
    var symbol := Window(bits, o) & MASK_5_BITS;
    assert Symbols(bits, o) == [symbol];
    var written := bits[..o] + LowBits(symbol, 5);
    assert written == bits;
    assert [symbol][1..] == [];
    assert Written([symbol], bits[..o]) == Written([], written) == written;
  }

  /** The code is uniquely decodable: reading the symbols back, the last one up to the next byte
      boundary, restores every bit sequence of whole bytes. */
  lemma {:induction false} WrittenInvertsSymbols(bits: seq<bool>, o: nat)
    requires |bits| % 8 == 0 && o <= |bits|
    ensures Written(Symbols(bits, o), bits[..o]) == bits
    decreases |bits| - o
  {
    hide Bit, Compact, LowBits, Window, Symbols, Written;
    if o == |bits| {
      WrittenNone(bits);
    } else {
      FirstSymbol(bits, o);
      var width := if Compact(Window(bits, o)) then 5 else 6;
      if o + width < |bits| {
        SymbolsEnd(bits, o + width);
        WrittenStep(Symbols(bits, o), bits[..o]);
        assert bits[..o + width] == bits[..o] + bits[o..o + width];
        WrittenInvertsSymbols(bits, o + width);
      } else if width == 5 {
        WrittenLastCompact(bits, o);
      } else {
        WrittenLast(bits, o);
      }
    }
  }

  lemma WrittenExtends(symbol: bv16, sofar: seq<bool>)
    ensures sofar <= Written([symbol], sofar)
  {
    hide LowBits, Width;
    var written := sofar + LowBits(symbol, Width(symbol, true, |sofar|));
    assert [symbol][1..] == [];
    assert Written([symbol], sofar) == Written([], written) == written;
  }

  /** Cut after `m` symbols, everything before the last of them is still restored. */
  lemma {:induction false} WrittenPrefix(bits: seq<bool>, o: nat, m: nat)
    requires o <= |bits| && 1 <= m <= |Symbols(bits, o)|
    ensures var safe := o + 5 * (m - 1);
            var written := Written(Symbols(bits, o)[..m], bits[..o]);
            safe <= |bits| && safe <= |written| && written[..safe] == bits[..safe]
    decreases m
  {
    hide Bit, Compact, LowBits, Window, Written, Symbols;
    SymbolsEnd(bits, o);
    var symbols := Symbols(bits, o);
    if m == 1 {
      assert symbols[..1] == [symbols[0]];
      WrittenExtends(symbols[0], bits[..o]);
    } else {
      FirstSymbol(bits, o);
      var width := if Compact(Window(bits, o)) then 5 else 6;
      SymbolsEnd(bits, o + width);
      assert bits[..o + width] == bits[..o] + bits[o..o + width];
      assert symbols[..m][1..] == symbols[1..][..m - 1];
      WrittenStep(symbols[..m], bits[..o]);
      WrittenPrefix(bits, o + width, m - 1);
      PrefixShrink(Written(symbols[..m], bits[..o]), bits, o + width + 5 * (m - 2), o + 5 * (m - 1));
    }
  }

  lemma PrefixShrink(a: seq<bool>, b: seq<bool>, long: nat, short: nat)
    requires short <= long <= |a| && long <= |b| && a[..long] == b[..long]
    ensures a[..short] == b[..short]
  {
    assert a[..short] == a[..long][..short] && b[..short] == b[..long][..short];
  }

  /** Between a sixth and a fifth of the bits, rounded up. */
  lemma {:induction false} SymbolCount(bits: seq<bool>, o: nat)
    requires o <= |bits| + 5
    ensures 6 * |Symbols(bits, o)| >= |bits| - o
    ensures 5 * (|Symbols(bits, o)| - 1) < |bits| - o || o >= |bits|
    decreases |bits| + 6 - o
  {
    hide Compact, Window;
    if o < |bits| {
      SymbolCount(bits, if Compact(Window(bits, o)) then o + 5 else o + 6);
    }
  }

  // ---- Text ----

  /** Letters A-Z, a-z and 0-9 stand for 0 to 61. */
  function Letter(v: bv16): bv8
    requires v < 62
  {
    if v < 26 then (65 + v) as bv8 else if v < 52 then (71 + v) as bv8 else (v - 4) as bv8
  }

  function DecodedBits(letter: bv8): Option<bv16> {
    if 65 <= letter <= 90 then Some((letter - 65) as bv16)
    else if 97 <= letter <= 122 then Some((letter - 97) as bv16 + 26)
    else if 48 <= letter <= 57 then Some((letter - 48) as bv16 + 52)
    else None
  }

  lemma LetterRoundTrip(v: bv16)
    requires v < 62
    ensures DecodedBits(Letter(v)) == Some(v)
  {
  }

  /** The table: three runs of consecutive characters, from A, a and 0 on. */
  lemma LetterTable(v: bv16)
    requires v < 62
    ensures Letter(0) == 65 && Letter(25) == 90 && Letter(26) == 97 && Letter(51) == 122
    ensures Letter(52) == 48 && Letter(61) == 57
    ensures v != 25 && v != 51 && v != 61 ==> Letter(v + 1) == Letter(v) + 1
  {
  }

  ghost predicate AreSymbols(s: seq<bv16>) {
    forall i | 0 <= i < |s| :: s[i] < 62
  }

  function Text(symbols: seq<bv16>): (s: seq<bv8>)
    requires AreSymbols(symbols)
    ensures |s| == |symbols|
  {
    seq(|symbols|, i requires 0 <= i < |symbols| => Letter(symbols[i]))
  }

  lemma SymbolRange(raw: bv16)
    requires raw < 64
    ensures !Compact(raw) ==> raw < 62
    ensures raw & MASK_5_BITS < 62
  {
  }

  lemma {:induction false} SymbolsAreSymbols(bits: seq<bool>, o: nat)
    ensures AreSymbols(Symbols(bits, o))
    decreases |bits| - o
  {
    hide Compact, Window;
    if o < |bits| {
      WindowBits(bits, o);
      SymbolRange(Window(bits, o));
      SymbolsAreSymbols(bits, if Compact(Window(bits, o)) then o + 5 else o + 6);
    }
  }

  function Limited(symbols: seq<bv16>, limit: nat): seq<bv16> {
    if limit == 0 || |symbols| <= limit then symbols else symbols[..limit]
  }

  function Encoded(data: seq<bv8>, limit: nat): seq<bv8> {
    var symbols := Symbols(Bits(data), 0);
    SymbolsAreSymbols(Bits(data), 0);
    Text(Limited(symbols, limit))
  }

  lemma WindowIsRead(data: seq<bv8>, o: nat, raw: bv16)
    requires raw < 256
    requires forall k: nat | k < 8 :: Bit(raw, k) == (k < 6 && StreamBit(data, o + k))
    ensures raw == Window(Bits(data), o)
  {
    hide Bit, Window, StreamBit, ByteBit;
    WindowBits(Bits(data), o);
    forall i: nat ensures At(Bits(data), i) == StreamBit(data, i) {
      PastTheEnd(data, i);
    }
    forall k: nat | k < 8 ensures Bit(raw, k) == Bit(Window(Bits(data), o), k) {
    }
    BitsDetermine(raw, Window(Bits(data), o));
  }

  lemma PastTheEnd(data: seq<bv8>, i: nat)
    ensures i >= 8 * |data| ==> !StreamBit(data, i)
  {
  }

  /** `dst` is the text of the symbols before bit `o`. */
  ghost predicate TextSofar(bits: seq<bool>, all: seq<bv16>, o: nat, dst: seq<bv8>) {
    AreSymbols(all) && |dst| <= |all| && all[|dst|..] == Symbols(bits, o) && dst == Text(all[..|dst|])
  }

  lemma TextStart(bits: seq<bool>)
    ensures TextSofar(bits, Symbols(bits, 0), 0, [])
  {
    hide Window, Compact, Letter;
    SymbolsAreSymbols(bits, 0);
  }

  lemma NextSymbol(bits: seq<bool>, all: seq<bv16>, o: nat, dst: seq<bv8>)
    requires o < |bits| && TextSofar(bits, all, o, dst)
    ensures var raw := Window(bits, o);
            var symbol := if Compact(raw) then raw & MASK_5_BITS else raw;
            && |dst| < |all| && symbol < 62
            && TextSofar(bits, all, if Compact(raw) then o + 5 else o + 6, dst + [Letter(symbol)])
  {
    hide Window, Compact, Letter;
    var n := |dst|;
    assert all[n] == all[n..][0];
    assert all[n + 1..] == all[n..][1..];
  }

  lemma TextEnd(bits: seq<bool>, all: seq<bv16>, o: nat, dst: seq<bv8>, limit: nat)
    requires TextSofar(bits, all, o, dst) && (limit == 0 || |dst| <= limit)
    requires o >= |bits| || 0 < limit == |dst|
    ensures dst == Text(Limited(all, limit))
  {
    hide Letter;
    SymbolsEnd(bits, o);
    assert |dst| == |all| ==> all[..|dst|] == all;
  }

  lemma SymbolsEnd(bits: seq<bool>, o: nat)
    ensures |Symbols(bits, o)| == 0 <==> o >= |bits|
  {
  }

  /** Reads symbols off the bit stream until it ends or `limit` letters are written (0: no limit). */
  method EncodePrefix(data: seq<bv8>, limit: nat) returns (dst: seq<bv8>)
    ensures dst == Encoded(data, limit)
  {
    hide Bit, ByteBit, StreamBit, Window, Compact, Letter, Bits, Text, Symbols, AreSymbols, TextSofar, Limited;
    var input := new BitInput(data);
    ghost var bits := Bits(data);
    ghost var all := Symbols(bits, 0);
    dst := [];
    TextStart(bits);
    while input.HasMore() && (limit == 0 || |dst| < limit)
      invariant input.bytes == data && input.bitLength == |bits|
      invariant |dst| <= |all| && (limit == 0 || |dst| <= limit)
      invariant TextSofar(bits, all, input.offset, dst)
      decreases |all| - |dst|
    {
      var rawBits := input.ReadBits(6);
      ghost var o := input.offset - 6;
      WindowIsRead(data, o, rawBits);
      NextSymbol(bits, all, o, dst);
      var symbol := rawBits;
      if Compact(rawBits) {
        symbol := rawBits & MASK_5_BITS;
        input.SeekBit(-1);
      }
      dst := dst + [Letter(symbol)];
    }
    TextEnd(bits, all, input.offset, dst, limit);
  }

  /** One byte 1 is read lowest bit first: symbol 1, then the two bits that are left. One byte 255 starts
      with a compact symbol, 31. */
  lemma OneByte()
    ensures Encoded([1], 0) == [66, 65] && Encoded([255], 0) == [102, 72]
  {
    OneByteSymbols();
    SymbolsAreSymbols(Bits([1]), 0);
    SymbolsAreSymbols(Bits([255]), 0);
  }

  lemma OneByteSymbols()
    ensures Symbols(Bits([1]), 0) == [1, 0] && Symbols(Bits([255]), 0) == [31, 7]
  {
    hide Symbols, Bits;
    BitsOfByte(1);
    BitsOfByte(255);
    var one := [true, false, false, false, false, false, false, false];
    var all := [true, true, true, true, true, true, true, true];
    assert Bits([1]) == one && Bits([255]) == all;
    SymbolsOf(one, all);
  }

  lemma SymbolsOf(one: seq<bool>, all: seq<bool>)
    requires one == [true, false, false, false, false, false, false, false]
    requires all == [true, true, true, true, true, true, true, true]
    ensures Symbols(one, 0) == [1, 0] && Symbols(all, 0) == [31, 7]
  {
    assert Window(one, 0) == 1 && Window(one, 6) == 0 && Window(all, 0) == 63 && Window(all, 5) == 7;
    assert Symbols(one, 12) == [] && Symbols(one, 6) == [0];
    assert Symbols(all, 11) == [] && Symbols(all, 5) == [7];
  }

  lemma BitsOfByte(b: bv8)
    ensures Bits([b]) == [ByteBit(b, 0), ByteBit(b, 1), ByteBit(b, 2), ByteBit(b, 3),
                          ByteBit(b, 4), ByteBit(b, 5), ByteBit(b, 6), ByteBit(b, 7)]
  {
    hide ByteBit;
  }

  // ---- Decoding ----

  datatype DecodeError = InvalidLetter(letter: bv8, position: nat) | NegativeLength | WrongLength

  ghost predicate IsText(value: seq<bv8>) {
    forall i | 0 <= i < |value| :: DecodedBits(value[i]).Some?
  }

  function Values(value: seq<bv8>): (s: seq<bv16>)
    requires IsText(value)
    ensures |s| == |value|
  {
    seq(|value|, i requires 0 <= i < |value| => DecodedBits(value[i]).value)
  }

  lemma ValuesOfText(symbols: seq<bv16>)
    requires AreSymbols(symbols)
    ensures IsText(Text(symbols)) && Values(Text(symbols)) == symbols
  {
    hide Letter, DecodedBits;
    forall i | 0 <= i < |symbols| ensures DecodedBits(Text(symbols)[i]) == Some(symbols[i]) {
      LetterRoundTrip(symbols[i]);
    }
  }

  /** `bytes` holds the bits written for `value`, cut or padded with zeros to the expected length. */
  ghost predicate DecodesTo(value: seq<bv8>, expectedBytes: nat, bytes: seq<bv8>)
    requires IsText(value)
  {
    && |bytes| == expectedBytes
    && forall i: nat | i < 8 * expectedBytes :: StreamBit(bytes, i) == At(Written(Values(value), []), i)
  }

  /** What is known when the bits of the first `index` letters are written. */
  ghost predicate WrittenSofar(value: seq<bv8>, index: nat, sofar: seq<bool>)
    requires index <= |value|
  {
    IsText(value) ==> Written(Values(value)[index..], sofar) == Written(Values(value), [])
  }

  lemma WrittenStart(value: seq<bv8>)
    ensures WrittenSofar(value, 0, [])
  {
    hide DecodedBits, Written;
    if IsText(value) {
      assert Values(value)[0..] == Values(value);
    }
  }

  lemma WrittenNext(value: seq<bv8>, index: nat, sofar: seq<bool>, bits: bv16)
    requires index < |value| && DecodedBits(value[index]) == Some(bits) && WrittenSofar(value, index, sofar)
    ensures WrittenSofar(value, index + 1, sofar + LowBits(bits, Width(bits, index + 1 == |value|, |sofar|)))
  {
    hide DecodedBits, LowBits, Width;
    if IsText(value) {
      var symbols := Values(value);
      assert symbols[index] == bits;
      assert symbols[index..][1..] == symbols[index + 1..];
    }
  }

  lemma WrittenAll(value: seq<bv8>, sofar: seq<bool>)
    requires IsText(value) && WrittenSofar(value, |value|, sofar)
    ensures Written(Values(value), []) == sofar
  {
    hide DecodedBits;
    assert Values(value)[|value|..] == [];
  }

  /** The stream in the buffer is `sofar`. */
  ghost predicate Buffered(bytes: seq<bv8>, sofar: seq<bool>) {
    forall i: nat | i < |sofar| :: StreamBit(bytes, i) == sofar[i]
  }

  lemma BufferedNext(before: seq<bv8>, after: seq<bv8>, sofar: seq<bool>, bits: bv16, count: nat)
    requires count <= 16 && Buffered(before, sofar)
    requires forall i: nat | i < |sofar| :: StreamBit(after, i) == StreamBit(before, i)
    requires forall k: nat | k < count :: StreamBit(after, |sofar| + k) == Bit(bits, k)
    ensures Buffered(after, sofar + LowBits(bits, count))
  {
    hide Bit, StreamBit;
    var longer := sofar + LowBits(bits, count);
    forall i: nat | i < |longer| ensures StreamBit(after, i) == longer[i] {
      if i >= |sofar| {
        assert StreamBit(after, |sofar| + (i - |sofar|)) == Bit(bits, i - |sofar|);
      }
    }
  }

  /** Writes the bits of every letter, the last one only up to the next byte boundary. */
  method DecodeText(value: seq<bv8>, expectedBytes: int) returns (r: Result<seq<bv8>, DecodeError>)
    ensures value == [] ==> r == Ok([])
    ensures value != [] ==> (r.Ok? <==> 0 <= expectedBytes && IsText(value))
    ensures value != [] && r.Ok? ==> DecodesTo(value, expectedBytes, r.value)
    ensures r.Err? && r.error.InvalidLetter? ==>
      && r.error.position < |value| && value[r.error.position] == r.error.letter
      && DecodedBits(r.error.letter).None? && IsText(value[..r.error.position])
  {
    hide Bit, ByteBit, StreamBit, Compact, DecodedBits, Written, WrittenSofar, Buffered, LowBits;
    if value == [] {
      return Ok([]);
    }
    if expectedBytes < 0 {
      return Err(NegativeLength);
    }
    var output := new BitOutput(|value| * 6);
    ghost var sofar: seq<bool> := [];
    var index := 0;
    WrittenStart(value);
    assert Buffered(output.bytes[..], sofar) by { NothingBuffered(output.bytes[..]); }
    while index < |value|
      invariant 0 <= index <= |value| && fresh(output) && fresh(output.bytes)
      invariant output.bytes.Length == (|value| * 6 + 7) / 8 && output.Clear()
      invariant output.offset == |sofar| && (index < |value| ==> |sofar| <= 6 * index)
      invariant |sofar| <= 8 * output.bytes.Length
      invariant forall i | 0 <= i < index :: DecodedBits(value[i]).Some?
      invariant Buffered(output.bytes[..], sofar) && WrittenSofar(value, index, sofar)
    {
      var decoded := DecodedBits(value[index]);
      if decoded.None? {
        return Err(InvalidLetter(value[index], index));
      }
      var bits := decoded.value;
      var bitsCount := 6;
      if Compact(bits) {
        bitsCount := 5;
      } else if index == |value| - 1 {
        bitsCount := output.BitsCountUpToByte();
      }
      WrittenNext(value, index, sofar, bits);
      RoomLeft(|value|, index, |sofar|, bitsCount);
      ghost var before := output.bytes[..];
      output.WriteBits(bitsCount, bits);
      BufferedNext(before, output.bytes[..], sofar, bits, bitsCount);
      sofar := sofar + LowBits(bits, bitsCount);
      index := index + 1;
    }
    WrittenAll(value, sofar);
    var decoded := output.ToArray();
    FitBuffered(decoded, output.bytes[..], sofar, expectedBytes);
    r := Ok(Fit(decoded, expectedBytes));
  }

  lemma NothingBuffered(bytes: seq<bv8>)
    ensures Buffered(bytes, [])
  {
  }

  lemma FitBuffered(decoded: seq<bv8>, bytes: seq<bv8>, sofar: seq<bool>, length: nat)
    requires Buffered(bytes, sofar) && (forall i: nat | |sofar| <= i :: !StreamBit(bytes, i))
    requires forall i: nat :: StreamBit(decoded, i) == StreamBit(bytes, i)
    ensures forall i: nat | i < 8 * length :: StreamBit(Fit(decoded, length), i) == At(sofar, i)
  {
    hide StreamBit, Fit;
    forall i: nat | i < 8 * length ensures StreamBit(Fit(decoded, length), i) == At(sofar, i) {
      FitBits(decoded, length, i);
      assert StreamBit(decoded, i) == StreamBit(bytes, i);
    }
  }

  lemma RoundUp(n: nat, m: nat)
    ensures n <= 8 * ((n + 7) / 8)
    ensures 8 * m <= n + 7 ==> m <= (n + 7) / 8
  {
  }

  lemma UpToByte(written: nat)
    ensures var count := (8 - written % 8) % 8;
            count <= 7 && 8 * ((written + count) / 8) == written + count
  {
  }

  /** The buffer of six bits per letter suffices. */
  lemma RoomLeft(length: nat, index: nat, written: nat, count: nat)
    requires index < length && written <= 6 * index
    requires count <= 6 || (index + 1 == length && count == (8 - written % 8) % 8)
    ensures written + count <= 8 * ((length * 6 + 7) / 8)
    ensures index + 1 < length && count <= 6 ==> written + count <= 6 * (index + 1)
  {
    if count <= 6 {
      RoundUp(length * 6, 0);
    } else {
      UpToByte(written);
      RoundUp(length * 6, (written + count) / 8);
    }
  }

  function Fit(bytes: seq<bv8>, length: nat): (r: seq<bv8>)
    ensures |r| == length
  {
    if |bytes| >= length then bytes[..length] else bytes + seq(length - |bytes|, _ => 0)
  }

  lemma FitBits(bytes: seq<bv8>, length: nat, i: nat)
    requires i < 8 * length
    ensures StreamBit(Fit(bytes, length), i) == StreamBit(bytes, i)
  {
    hide Bit;
    ZeroBit(i % 8);
  }

  lemma DecodesUniquely(value: seq<bv8>, a: seq<bv8>, b: seq<bv8>)
    requires IsText(value) && DecodesTo(value, |a|, a) && DecodesTo(value, |a|, b)
    ensures a == b
  {
    hide StreamBit;
    BytesDetermine(a, b);
  }

  /** Every byte string is the only decoding of its whole encoding. */
  lemma CodeRoundTrip(data: seq<bv8>, decoded: seq<bv8>)
    ensures IsText(Encoded(data, 0))
    ensures DecodesTo(Encoded(data, 0), |data|, decoded) <==> decoded == data
  {
    hide StreamBit;
    var bits := Bits(data);
    SymbolsAreSymbols(bits, 0);
    ValuesOfText(Symbols(bits, 0));
    WrittenInvertsSymbols(bits, 0);
    assert bits[..0] == [];
    assert DecodesTo(Encoded(data, 0), |data|, data);
    if DecodesTo(Encoded(data, 0), |data|, decoded) {
      DecodesUniquely(Encoded(data, 0), data, decoded);
    }
  }

  // ---- Generated identifiers ----

  function BigEndian(v: bv64): (s: seq<bv8>)
    ensures |s| == TIMESTAMP_BYTES
  {
    [((v >> 56) & 0xff) as bv8, ((v >> 48) & 0xff) as bv8, ((v >> 40) & 0xff) as bv8, ((v >> 32) & 0xff) as bv8,
     ((v >> 24) & 0xff) as bv8, ((v >> 16) & 0xff) as bv8, ((v >> 8) & 0xff) as bv8, (v & 0xff) as bv8]
  }

  function FromBigEndian(s: seq<bv8>): bv64
    requires |s| == TIMESTAMP_BYTES
  {
    (s[0] as bv64 << 56) | (s[1] as bv64 << 48) | (s[2] as bv64 << 40) | (s[3] as bv64 << 32)
    | (s[4] as bv64 << 24) | (s[5] as bv64 << 16) | (s[6] as bv64 << 8) | s[7] as bv64
  }

  lemma BigEndianRoundTrip(v: bv64)
    ensures FromBigEndian(BigEndian(v)) == v
  {
  }

  lemma PackedBytes(a: bv64, b: bv64, c: bv64, d: bv64, e: bv64, f: bv64, g: bv64, h: bv64)
    requires a < 256 && b < 256 && c < 256 && d < 256 && e < 256 && f < 256 && g < 256 && h < 256
    ensures var v := (a << 56) | (b << 48) | (c << 40) | (d << 32) | (e << 24) | (f << 16) | (g << 8) | h;
            && (v >> 56) & 0xff == a && (v >> 48) & 0xff == b && (v >> 40) & 0xff == c && (v >> 32) & 0xff == d
            && (v >> 24) & 0xff == e && (v >> 16) & 0xff == f && (v >> 8) & 0xff == g && v & 0xff == h
  {
  }

  lemma BigEndianInverse(s: seq<bv8>)
    requires |s| == TIMESTAMP_BYTES
    ensures BigEndian(FromBigEndian(s)) == s
  {
    PackedBytes(s[0] as bv64, s[1] as bv64, s[2] as bv64, s[3] as bv64,
                s[4] as bv64, s[5] as bv64, s[6] as bv64, s[7] as bv64);
  }

  /** The last byte is the lowest, and dropping it is a shift: the most significant byte comes first. */
  lemma BigEndianShift(v: bv64)
    ensures BigEndian(v)[7] as bv64 == v & 0xff
    ensures BigEndian(v >> 8)[0] == 0 && BigEndian(v >> 8)[1..] == BigEndian(v)[..7]
  {
  }

  /** At the first byte where they differ, the smaller one comes first. */
  ghost predicate LexLess(a: seq<bv8>, b: seq<bv8>) {
    exists i | 0 <= i < |a| && i < |b| :: a[..i] == b[..i] && a[i] < b[i]
  }

  lemma LexAt(a: seq<bv8>, b: seq<bv8>, i: nat)
    requires i < |a| && i < |b| && (forall j | 0 <= j < i :: a[j] == b[j]) && a[i] < b[i]
    ensures LexLess(a, b)
  {
    assert a[..i] == b[..i];
  }

  lemma LexExtend(a: seq<bv8>, b: seq<bv8>, x: seq<bv8>, y: seq<bv8>)
    requires LexLess(a, b)
    ensures LexLess(a + x, b + y)
  {
    var i :| 0 <= i < |a| && i < |b| && a[..i] == b[..i] && a[i] < b[i];
    forall j | 0 <= j < i ensures (a + x)[j] == (b + y)[j] {
      assert a[..i][j] == b[..i][j];
    }
    LexAt(a + x, b + y, i);
  }

  // The most significant byte of a number, and the number without it.

  function Top(v: bv64): bv8 {
    ((v >> 56) & 0xff) as bv8
  }

  function Rest(v: bv64): bv64 {
    v << 8
  }

  predicate Less(a: bv64, b: bv64) {
    a < b
  }

  lemma TopOrder(a: bv64, b: bv64)
    requires Less(a, b)
    ensures Top(a) <= Top(b)
  {
  }

  lemma RestOrder(a: bv64, b: bv64)
    requires Less(a, b) && Top(a) == Top(b)
    ensures Less(Rest(a), Rest(b))
  {
  }

  lemma StrictByte(x: bv8, y: bv8)
    requires x <= y && x != y
    ensures x < y
  {
  }

  function Shifted(v: bv64, n: nat): bv64
    decreases n
  {
    if n == 0 then v else Shifted(Rest(v), n - 1)
  }

  lemma ShiftedStep(v: bv64, n: nat)
    ensures n > 0 ==> Shifted(v, n) == Shifted(Rest(v), n - 1)
    ensures n == 0 ==> Shifted(v, n) == v
  {
    hide Rest;
  }

  lemma Irreflexive(v: bv64)
    ensures !Less(v, v)
  {
  }

  lemma EightRests(v: bv64)
    ensures Rest(Rest(Rest(Rest(Rest(Rest(Rest(Rest(v)))))))) == 0
  {
  }

  lemma AllShifted(v: bv64)
    ensures Shifted(v, 8) == 0
  {
    hide *;
    EightRests(v);
    var a, b, c := Rest(v), Rest(Rest(v)), Rest(Rest(Rest(v)));
    var d, e, f := Rest(c), Rest(Rest(c)), Rest(Rest(Rest(c)));
    ShiftedStep(v, 8);
    ShiftedStep(a, 7);
    ShiftedStep(b, 6);
    ShiftedStep(c, 5);
    ShiftedStep(d, 4);
    ShiftedStep(e, 3);
    ShiftedStep(f, 2);
    ShiftedStep(Rest(f), 1);
    ShiftedStep(Rest(Rest(f)), 0);
  }

  lemma TopComesFirst(v: bv64)
    ensures BigEndian(v) == [Top(v)] + BigEndian(Rest(v))[..7]
  {
  }

  lemma FirstBytes(v: bv64, n: nat)
    requires 0 < n <= 8
    ensures BigEndian(v)[..n] == [Top(v)] + BigEndian(Rest(v))[..n - 1]
  {
    hide BigEndian, Top, Rest;
    TopComesFirst(v);
    assert BigEndian(v)[..n] == BigEndian(v)[..1] + BigEndian(v)[1..n];
  }

  lemma LexCons(x: bv8, a: seq<bv8>, b: seq<bv8>)
    requires LexLess(a, b)
    ensures LexLess([x] + a, [x] + b)
  {
    var i :| 0 <= i < |a| && i < |b| && a[..i] == b[..i] && a[i] < b[i];
    forall j | 0 <= j < i + 1 ensures ([x] + a)[j] == ([x] + b)[j] {
      assert j > 0 ==> a[..i][j - 1] == b[..i][j - 1];
    }
    LexAt([x] + a, [x] + b, i + 1);
  }

  /** Numbers that differ only in their first `n` bytes are ordered as these bytes. */
  lemma {:induction false} FirstBytesOrder(a: bv64, b: bv64, n: nat)
    requires n <= 8 && Less(a, b) && Shifted(a, n) == Shifted(b, n)
    ensures LexLess(BigEndian(a)[..n], BigEndian(b)[..n])
    decreases n
  {
    hide BigEndian, Top, Rest, Less, Shifted, LexLess;
    ShiftedStep(a, n);
    ShiftedStep(b, n);
    if n == 0 {
      Irreflexive(a);
    } else {
      FirstBytes(a, n);
      FirstBytes(b, n);
      if Top(a) == Top(b) {
        RestOrder(a, b);
        FirstBytesOrder(Rest(a), Rest(b), n - 1);
        LexCons(Top(a), BigEndian(Rest(a))[..n - 1], BigEndian(Rest(b))[..n - 1]);
      } else {
        TopOrder(a, b);
        StrictByte(Top(a), Top(b));
        LexAt(BigEndian(a)[..n], BigEndian(b)[..n], 0);
      }
    }
  }

  /** Big-endian bytes are ordered as their numbers. */
  lemma BigEndianOrder(a: bv64, b: bv64)
    requires a < b
    ensures LexLess(BigEndian(a), BigEndian(b))
  {
    hide BigEndian, LexLess, Shifted;
    AllShifted(a);
    AllShifted(b);
    FirstBytesOrder(a, b, 8);
    assert BigEndian(a)[..8] == BigEndian(a) && BigEndian(b)[..8] == BigEndian(b);
  }

  datatype GenerateError = EntropyError

  type Payload = s: seq<bv8> | |s| == TOTAL_BYTES - TIMESTAMP_BYTES witness seq(12, _ => 0)

  function Raw(nowMillis: bv64, payload: Payload): (raw: seq<bv8>)
    ensures |raw| == TOTAL_BYTES
  {
    BigEndian(nowMillis - EPOCH) + payload
  }

  /** The milliseconds since the epoch, most significant byte first, and then the payload. */
  lemma RawLayout(nowMillis: bv64, payload: Payload)
    ensures FromBigEndian(Raw(nowMillis, payload)[..8]) + 1_400_000_000_000 == nowMillis
    ensures Raw(nowMillis, payload)[8..] == payload
  {
    hide BigEndian, FromBigEndian;
    assert Raw(nowMillis, payload)[..TIMESTAMP_BYTES] == BigEndian(nowMillis - EPOCH);
    BigEndianRoundTrip(nowMillis - EPOCH);
  }

  /** A later clock makes greater raw bytes, whatever the payloads are. */
  lemma RawOrder(earlier: bv64, later: bv64, a: Payload, b: Payload)
    requires earlier - EPOCH < later - EPOCH
    ensures LexLess(Raw(earlier, a), Raw(later, b))
  {
    hide BigEndian, LexLess;
    BigEndianOrder(earlier - EPOCH, later - EPOCH);
    LexExtend(BigEndian(earlier - EPOCH), BigEndian(later - EPOCH), a, b);
  }

  /** Generates an identifier from the clock and twelve random bytes, if the entropy source gives them. */
  method NextString(nowMillis: bv64, entropy: Option<Payload>) returns (r: Result<seq<bv8>, GenerateError>)
    ensures entropy.None? <==> r.Err?
    ensures r.Ok? ==> r.value == Encoded(Raw(nowMillis, entropy.value), ENCODED_LENGTH)
  {
    if entropy.None? {
      return Err(EntropyError);
    }
    var encoded := EncodePrefix(Raw(nowMillis, entropy.value), ENCODED_LENGTH);
    return Ok(encoded);
  }

  method DecodeKsuid(value: seq<bv8>) returns (r: Result<seq<bv8>, DecodeError>)
    ensures r.Ok? <==> |value| == ENCODED_LENGTH && IsText(value)
    ensures r.Ok? ==> DecodesTo(value, TOTAL_BYTES, r.value)
  {
    if |value| != ENCODED_LENGTH {
      return Err(WrongLength);
    }
    r := DecodeText(value, TOTAL_BYTES);
  }

  /** The millisecond in an identifier, as a two's complement 64-bit number; for a generated
      identifier it is the clock value it was generated at. */
  method KsuidTime(value: seq<bv8>) returns (r: Result<bv64, DecodeError>)
    ensures r.Ok? <==> |value| == ENCODED_LENGTH && IsText(value)
    ensures r.Ok? ==> exists raw ::
      DecodesTo(value, TOTAL_BYTES, raw) && r.value == FromBigEndian(raw[..TIMESTAMP_BYTES]) + EPOCH
    ensures forall nowMillis, payload | value == Encoded(Raw(nowMillis, payload), ENCODED_LENGTH) :: r == Ok(nowMillis)
  {
    hide Encoded, Raw, FromBigEndian, DecodesTo, IsText;
    var raw := DecodeKsuid(value);
    forall nowMillis, payload | value == Encoded(Raw(nowMillis, payload), ENCODED_LENGTH)
      ensures raw.Ok? && FromBigEndian(raw.value[..TIMESTAMP_BYTES]) + EPOCH == nowMillis
    {
      GeneratedIdentifier(nowMillis, payload, if raw.Ok? then raw.value else []);
    }
    if raw.Err? {
      return Err(raw.error);
    }
    return Ok(FromBigEndian(raw.value[..TIMESTAMP_BYTES]) + EPOCH);
  }

  /** Every generated identifier has 27 letters, parses, and gives back its first 16 bytes although it
      is cut; so its time is the millisecond it was made at, for every 64-bit clock value. */
  lemma GeneratedIdentifier(nowMillis: bv64, payload: Payload, raw: seq<bv8>)
    ensures var value := Encoded(Raw(nowMillis, payload), ENCODED_LENGTH);
            && |value| == ENCODED_LENGTH && IsText(value)
            && (DecodesTo(value, TOTAL_BYTES, raw) ==>
                  && raw[..16] == Raw(nowMillis, payload)[..16]
                  && FromBigEndian(raw[..TIMESTAMP_BYTES]) + EPOCH == nowMillis)
  {
    hide StreamBit, BigEndian, FromBigEndian, Encoded;
    var data := Raw(nowMillis, payload);
    var value := Encoded(data, ENCODED_LENGTH);
    CutEncoding(data);
    if DecodesTo(value, TOTAL_BYTES, raw) {
      forall i: nat | i < 128 ensures StreamBit(raw[..16], i) == StreamBit(data[..16], i) {
        TakeBits(raw, 16, i);
        TakeBits(data, 16, i);
      }
      BytesDetermine(raw[..16], data[..16]);
      assert raw[..TIMESTAMP_BYTES] == raw[..16][..TIMESTAMP_BYTES];
      assert data[..16][..TIMESTAMP_BYTES] == BigEndian(nowMillis - EPOCH);
      BigEndianRoundTrip(nowMillis - EPOCH);
    }
  }

  /** Twenty bytes make at least 27 symbols, and the first 26 of them hold at least 128 bits. */
  lemma CutEncoding(data: seq<bv8>)
    requires |data| == TOTAL_BYTES
    ensures var value := Encoded(data, ENCODED_LENGTH);
            && |value| == ENCODED_LENGTH && IsText(value)
            && forall i: nat | i < 128 :: At(Written(Values(value), []), i) == StreamBit(data, i)
  {
    hide StreamBit;
    var bits := Bits(data);
    SymbolsAreSymbols(bits, 0);
    SymbolCount(bits, 0);
    var cut := Symbols(bits, 0)[..ENCODED_LENGTH];
    assert Limited(Symbols(bits, 0), ENCODED_LENGTH) == cut;
    ValuesOfText(cut);
    WrittenPrefix(bits, 0, ENCODED_LENGTH);
    assert bits[..0] == [];
    var written := Written(cut, []);
    forall i: nat | i < 128 ensures At(written, i) == StreamBit(data, i) {
      assert written[..130][i] == bits[..130][i];
    }
  }

  lemma TakeBits(bytes: seq<bv8>, n: nat, i: nat)
    requires n <= |bytes| && i < 8 * n
    ensures StreamBit(bytes[..n], i) == StreamBit(bytes, i)
  {
  }
}
