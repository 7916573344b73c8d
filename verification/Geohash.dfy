/** Geohash cells by interval bisection (geo/geohash.go, geo/bounds.go). Every midpoint the source
    computes is a dyadic number it represents exactly, so coordinates are real numbers here. */
module Geohash {
  import opened Wrappers

  datatype Point = Point(latitude: real, longitude: real) {
    predicate Valid() {
      -90.0 <= latitude <= 90.0 && -180.0 <= longitude <= 180.0
    }
  }

  datatype Bounds = Bounds(west: real, south: real, east: real, north: real) {
    predicate Valid() {
      && -180.0 <= west <= 180.0 && -90.0 <= south <= 90.0
      && -180.0 <= east <= 180.0 && -90.0 <= north <= 90.0 && south <= north
    }

    /** East below west means the bounds cross the antimeridian. */
    predicate ContainsLongitude(longitude: real) {
      if east < west then longitude >= west || longitude <= east else west <= longitude <= east
    }

    predicate ContainsValidPoint(p: Point) {
      && south <= p.latitude <= north
      && (ContainsLongitude(p.longitude)
          || (p.longitude == -180.0 && ContainsLongitude(180.0))
          || (p.longitude == 180.0 && ContainsLongitude(-180.0)))
    }

    predicate Contains(p: Point) {
      Valid() && p.Valid() && ContainsValidPoint(p)
    }
  }

  datatype Cell = Cell(center: Point, bounds: Bounds, precision: int) {
    predicate Valid() {
      1 <= precision <= 12 && center.Valid() && bounds.Valid() && bounds.ContainsValidPoint(center)
    }
  }

  datatype GeoError = InvalidPoint | InvalidPrecision | InvalidLength | InvalidCharacter | InvalidCell

  // ---- Bisection ----

  const WORLD := Bounds(-180.0, -90.0, 180.0, 90.0)

  function SelectHalf(minimum: real, maximum: real, upper: bool): (real, real) {
    var midpoint := (minimum + maximum) / 2.0;
    if upper then (midpoint, maximum) else (minimum, midpoint)
  }

  /** One bisection: longitude on even bits, latitude on odd ones. */
  function Halve(b: Bounds, even: bool, upper: bool): Bounds {
    if even then
      var (west, east) := SelectHalf(b.west, b.east, upper);
      Bounds(west, b.south, east, b.north)
    else
      var (south, north) := SelectHalf(b.south, b.north, upper);
      Bounds(b.west, south, b.east, north)
  }

  function BoxOf(bits: seq<bool>): Bounds {
    if bits == [] then WORLD
    else
      var init := bits[..|bits| - 1];
      Halve(BoxOf(init), |init| % 2 == 0, bits[|init|])
  }

  lemma NextBox(bits: seq<bool>, upper: bool)
    ensures BoxOf(bits + [upper]) == Halve(BoxOf(bits), |bits| % 2 == 0, upper)
  {
    hide Halve;
    var longer := bits + [upper];
    assert longer[..|longer| - 1] == bits;
  }

  predicate BitFor(p: Point, b: Bounds, even: bool) {
    if even then p.longitude >= (b.west + b.east) / 2.0 else p.latitude >= (b.south + b.north) / 2.0
  }

  /** The first `n` bits of a point: on each bisection the half that holds it, the upper one on a tie. */
  function BitsOf(p: Point, n: nat): (bits: seq<bool>)
    ensures |bits| == n
  {
    if n == 0 then [] else BitsOf(p, n - 1) + [BitFor(p, BoxOf(BitsOf(p, n - 1)), (n - 1) % 2 == 0)]
  }

  ghost predicate Inside(p: Point, b: Bounds) {
    b.west < p.longitude < b.east && b.south < p.latitude < b.north
  }

  lemma {:induction false} BoxIsProper(bits: seq<bool>)
    ensures var b := BoxOf(bits);
            -180.0 <= b.west < b.east <= 180.0 && -90.0 <= b.south < b.north <= 90.0
  {
    if bits != [] {
      BoxIsProper(bits[..|bits| - 1]);
    }
  }

  /** The box of a point's own bits contains the point. */
  lemma {:induction false} BoxContainsPoint(p: Point, n: nat)
    requires p.Valid()
    ensures var b := BoxOf(BitsOf(p, n)); b.west <= p.longitude <= b.east && b.south <= p.latitude <= b.north
  {
    if n != 0 {
      BoxContainsPoint(p, n - 1);
      assert BitsOf(p, n)[..n - 1] == BitsOf(p, n - 1);
    }
  }

  /** A point strictly inside a half of a proper box is strictly inside the box, on the half's side. */
  lemma InsideHalf(p: Point, b: Bounds, even: bool, upper: bool)
    requires b.west < b.east && b.south < b.north && Inside(p, Halve(b, even, upper))
    ensures Inside(p, b) && BitFor(p, b, even) == upper
  {
  }

  /** Every point strictly inside a box has the box's bits. */
  lemma {:induction false} InsideDeterminesBits(p: Point, bits: seq<bool>)
    requires Inside(p, BoxOf(bits))
    ensures BitsOf(p, |bits|) == bits
  {
    hide Inside, Halve, BitFor;
    if bits != [] {
      var init, last := bits[..|bits| - 1], bits[|bits| - 1];
      BoxIsProper(init);
      InsideHalf(p, BoxOf(init), |init| % 2 == 0, last);
      InsideDeterminesBits(p, init);
      assert bits == init + [last];
    }
  }

  /** Inside, or on the west or south edge. */
  ghost predicate Within(p: Point, b: Bounds) {
    b.west <= p.longitude < b.east && b.south <= p.latitude < b.north
  }

  lemma WithinHalf(p: Point, b: Bounds, even: bool, upper: bool)
    requires b.west < b.east && b.south < b.north
    ensures Within(p, Halve(b, even, upper)) <==> Within(p, b) && BitFor(p, b, even) == upper
  {
  }

  /** Below the north pole and west of the antimeridian, cells with their west and south edges partition
      the world: a point has exactly the bits of the box that holds it in this sense. */
  lemma {:induction false} HalfOpenCells(p: Point, bits: seq<bool>)
    requires -180.0 <= p.longitude < 180.0 && -90.0 <= p.latitude < 90.0
    ensures BitsOf(p, |bits|) == bits <==> Within(p, BoxOf(bits))
  {
    if bits != [] {
      hide Within, Halve, BitFor;
      var init, last := bits[..|bits| - 1], bits[|bits| - 1];
      assert bits == init + [last];
      BoxIsProper(init);
      HalfOpenCells(p, init);
      WithinHalf(p, BoxOf(init), |init| % 2 == 0, last);
      assert BitsOf(p, |bits|)[..|init|] == BitsOf(p, |init|);
    }
  }

  function CenterOf(b: Bounds): Point {
    Point((b.south + b.north) / 2.0, (b.west + b.east) / 2.0)
  }

  /** Two different bit strings of the same length have boxes without a common inner point. */
  lemma DisjointInteriors(a: seq<bool>, b: seq<bool>, p: Point)
    requires |a| == |b| && Inside(p, BoxOf(a)) && Inside(p, BoxOf(b))
    ensures a == b
  {
    InsideDeterminesBits(p, a);
    InsideDeterminesBits(p, b);
  }

  lemma CenterIsInside(bits: seq<bool>)
    ensures Inside(CenterOf(BoxOf(bits)), BoxOf(bits))
  {
    BoxIsProper(bits);
  }

  lemma {:induction false} BitsOfPrefix(p: Point, n: nat, m: nat)
    requires n <= m
    ensures BitsOf(p, m)[..n] == BitsOf(p, n)
    decreases m
  {
    if n < m {
      BitsOfPrefix(p, n, m - 1);
      assert BitsOf(p, m)[..n] == BitsOf(p, m - 1)[..n];
    }
  }

  // ---- Boxes, by number ----

  /** The bits at even positions, and those at odd positions, in order. */
  function Evens(bits: seq<bool>): seq<bool> {
    if bits == [] then []
    else if |bits| % 2 == 0 then Evens(bits[..|bits| - 1])
    else Evens(bits[..|bits| - 1]) + [bits[|bits| - 1]]
  }

  function Odds(bits: seq<bool>): seq<bool> {
    if bits == [] then []
    else if |bits| % 2 == 0 then Odds(bits[..|bits| - 1]) + [bits[|bits| - 1]]
    else Odds(bits[..|bits| - 1])
  }

  /** The number a bit string denotes, the first bit the heaviest. */
  function Number(bits: seq<bool>): (n: nat)
    ensures n < PowerOfTwo(|bits|)
  {
    if bits == [] then 0 else 2 * Number(bits[..|bits| - 1]) + if bits[|bits| - 1] then 1 else 0
  }

  function PowerOfTwo(n: nat): nat {
    if n == 0 then 1 else 2 * PowerOfTwo(n - 1)
  }

  /** [minimum, maximum] is cell number `n` of `count` equal cells of the interval of this length from
      `origin` on. */
  ghost predicate IsCell(minimum: real, maximum: real, origin: real, length: real, n: nat, count: nat) {
    && (minimum - origin) * count as real == length * n as real
    && (maximum - origin) * count as real == length * (n + 1) as real
  }

  /** Halving a cell doubles the count; the halves have the next two numbers. */
  lemma HalfCell(minimum: real, maximum: real, origin: real, length: real, n: nat, count: nat)
    requires IsCell(minimum, maximum, origin, length, n, count)
    ensures var (low, high) := SelectHalf(minimum, maximum, false);
            IsCell(low, high, origin, length, 2 * n, 2 * count)
    ensures var (low, high) := SelectHalf(minimum, maximum, true);
            IsCell(low, high, origin, length, 2 * n + 1, 2 * count)
  {
    var midpoint, c := (minimum + maximum) / 2.0, count as real;
    var a, b := minimum - origin, maximum - origin;
    assert (2 * count) as real == 2.0 * c && (2 * n) as real == 2.0 * n as real;
    assert (n + 1) as real == n as real + 1.0 && (2 * n + 1) as real == 2.0 * n as real + 1.0;
    assert (2 * n + 2) as real == 2.0 * n as real + 2.0;
    Doubled(a, c, length * n as real);
    Doubled(b, c, length * (n + 1) as real);
    Midway(a, b, c);
    assert midpoint - origin == (a + b) / 2.0;
    Spread(length, n as real);
  }

  lemma Doubled(a: real, c: real, x: real)
    requires a * c == x
    ensures a * (2.0 * c) == 2.0 * x
  {
    assert a * (2.0 * c) == 2.0 * (a * c);
  }

  lemma Midway(a: real, b: real, c: real)
    ensures ((a + b) / 2.0) * (2.0 * c) == a * c + b * c
  {
    assert ((a + b) / 2.0) * (2.0 * c) == (a + b) * c;
  }

  lemma Spread(length: real, n: real)
    ensures length * (2.0 * n) == 2.0 * (length * n)
    ensures length * (2.0 * n + 1.0) == length * n + length * (n + 1.0)
    ensures length * (2.0 * n + 2.0) == 2.0 * (length * (n + 1.0))
  {
  }

  /** The columns of the world are numbered by the even bits, its rows by the odd ones. */
  ghost predicate IsNumbered(b: Bounds, bits: seq<bool>) {
    && |Evens(bits)| == (|bits| + 1) / 2 && |Odds(bits)| == |bits| / 2
    && IsCell(b.west, b.east, -180.0, 360.0, Number(Evens(bits)), PowerOfTwo((|bits| + 1) / 2))
    && IsCell(b.south, b.north, -90.0, 180.0, Number(Odds(bits)), PowerOfTwo(|bits| / 2))
  }

  lemma NextColumn(b: Bounds, bits: seq<bool>, last: bool)
    requires IsNumbered(b, bits) && |bits| % 2 == 0
    ensures IsNumbered(Halve(b, true, last), bits + [last])
  {
    hide IsCell, SelectHalf, Number, PowerOfTwo, Evens, Odds;
    DealtBits(bits, last);
    HalfCell(b.west, b.east, -180.0, 360.0, Number(Evens(bits)), PowerOfTwo((|bits| + 1) / 2));
    MoreBits(Evens(bits), last);
  }

  lemma NextRow(b: Bounds, bits: seq<bool>, last: bool)
    requires IsNumbered(b, bits) && |bits| % 2 == 1
    ensures IsNumbered(Halve(b, false, last), bits + [last])
  {
    hide IsCell, SelectHalf, Number, PowerOfTwo, Evens, Odds;
    DealtBits(bits, last);
    HalfCell(b.south, b.north, -90.0, 180.0, Number(Odds(bits)), PowerOfTwo(|bits| / 2));
    MoreBits(Odds(bits), last);
  }

  lemma {:induction false} DealtBits(bits: seq<bool>, last: bool)
    ensures Evens(bits + [last]) == if |bits| % 2 == 0 then Evens(bits) + [last] else Evens(bits)
    ensures Odds(bits + [last]) == if |bits| % 2 == 0 then Odds(bits) else Odds(bits) + [last]
  {
    var longer := bits + [last];
    assert longer[..|longer| - 1] == bits && longer[|longer| - 1] == last;
  }

  /** The even bits number the columns of the world from west to east, the odd bits its rows from south
      to north; the first bit halves the longitudes. */
  lemma {:induction false} BoxByNumber(bits: seq<bool>)
    ensures |Evens(bits)| == (|bits| + 1) / 2 && |Odds(bits)| == |bits| / 2
    ensures var b := BoxOf(bits);
            && IsCell(b.west, b.east, -180.0, 360.0, Number(Evens(bits)), PowerOfTwo((|bits| + 1) / 2))
            && IsCell(b.south, b.north, -90.0, 180.0, Number(Odds(bits)), PowerOfTwo(|bits| / 2))
  {
    hide IsCell, Number, PowerOfTwo, Halve;
    NumberedBox(bits);
  }

  lemma {:induction false} NumberedBox(bits: seq<bool>)
    ensures IsNumbered(BoxOf(bits), bits)
  {
    hide IsCell, Number, PowerOfTwo, Halve;
    if bits == [] {
      WholeWorld();
    } else {
      hide IsNumbered;
      var init, last := bits[..|bits| - 1], bits[|bits| - 1];
      NumberedBox(init);
      assert init + [last] == bits;
      if |init| % 2 == 0 {
        NextColumn(BoxOf(init), init, last);
      } else {
        NextRow(BoxOf(init), init, last);
      }
    }
  }

  lemma WholeWorld()
    ensures IsCell(-180.0, 180.0, -180.0, 360.0, Number([]), PowerOfTwo(0))
    ensures IsCell(-90.0, 90.0, -90.0, 180.0, Number([]), PowerOfTwo(0))
  {
  }

  lemma {:induction false} MoreBits(bits: seq<bool>, last: bool)
    ensures Number(bits + [last]) == 2 * Number(bits) + if last then 1 else 0
    ensures PowerOfTwo(|bits| + 1) == 2 * PowerOfTwo(|bits|)
  {
    assert (bits + [last])[..|bits|] == bits;
  }

  /** Longitude comes first: the point a quarter of the way round on the equator has bits 11100. */
  lemma QuarterWayRound()
    ensures BitsOf(Point(0.0, 90.0), 5) == [true, true, true, false, false]
    ensures HashFor(Point(0.0, 90.0), 1) == ['w' as bv8]
  {
    hide BitsOf, HashOf, Group;
    QuarterBits();
    var none, five := [], [true, true, true, false, false];
    GroupOfFive(true, true, true, false, false);
    EmptyHash();
    HashSnoc(none, five);
    assert none + five == five;
  }

  lemma QuarterBits()
    ensures BitsOf(Point(0.0, 90.0), 5) == [true, true, true, false, false]
  {
    hide BitsOf, BoxOf;
    var p, none: seq<bool> := Point(0.0, 90.0), [];
    EmptyBox();
    NextBit(p, none);
    assert none + [true] == [true];
    NextBit(p, [true]);
    NextBit(p, [true, true]);
    NextBit(p, [true, true, true]);
    NextBit(p, [true, true, true, false]);
  }

  // ---- Letters ----

  /** The alphabet 0-9, b-h, j, k, m, n, p-z. */
  function Letter(v: bv8): bv8
    requires v < 32
  {
    if v < 10 then 48 + v else if v < 17 then 88 + v else if v < 19 then 89 + v else if v < 21 then 90 + v else 91 + v
  }

  function IndexOf(letter: bv8): Option<bv8> {
    if 48 <= letter <= 57 then Some(letter - 48)
    else if 98 <= letter <= 104 then Some(letter - 88)
    else if 106 <= letter <= 107 then Some(letter - 89)
    else if 109 <= letter <= 110 then Some(letter - 90)
    else if 112 <= letter <= 122 then Some(letter - 91)
    else None
  }

  lemma LetterInverse(v: bv8)
    requires v < 32
    ensures IndexOf(Letter(v)) == Some(v)
  {
  }

  lemma IndexInverse(letter: bv8)
    requires IndexOf(letter).Some?
    ensures IndexOf(letter).value < 32 && Letter(IndexOf(letter).value) == letter
  {
  }

  /** The table: five runs of consecutive characters, from 0, b, j, m and p on. */
  lemma LetterTable(v: bv8)
    requires v < 32
    ensures Letter(0) == 48 && Letter(10) == 98 && Letter(17) == 106 && Letter(19) == 109 && Letter(21) == 112
    ensures v != 9 && v != 16 && v != 18 && v != 20 && v != 31 ==> Letter(v + 1) == Letter(v) + 1
  {
  }

  function Mask(i: nat): bv8
    requires i < 5
  {
    match i case 0 => 16 case 1 => 8 case 2 => 4 case 3 => 2 case 4 => 1
  }

  /** Up to five bits as a letter index, the first bit the heaviest. */
  function Group(bits: seq<bool>): bv8
    requires |bits| <= 5
  {
    if bits == [] then 0
    else Group(bits[..|bits| - 1]) | if bits[|bits| - 1] then Mask(|bits| - 1) else 0
  }

  function Five(v: bv8): (bits: seq<bool>)
    ensures |bits| == 5
  {
    [v & 16 != 0, v & 8 != 0, v & 4 != 0, v & 2 != 0, v & 1 != 0]
  }

  lemma GroupOfFive(a: bool, b: bool, c: bool, d: bool, e: bool)
    ensures Group([a, b, c, d, e]) == (if a then 16 else 0) | (if b then 8 else 0) | (if c then 4 else 0)
                                     | (if d then 2 else 0) | (if e then 1 else 0)
  {
    assert [a, b, c, d, e][..4] == [a, b, c, d];
    assert [a, b, c, d][..3] == [a, b, c];
    assert [a, b, c][..2] == [a, b];
    assert [a, b][..1] == [a];
    assert [a][..0] == [];
    assert Group([a]) == Group([]) | if a then 16 else 0;
    assert Group([a, b]) == Group([a]) | if b then 8 else 0;
    assert Group([a, b, c]) == Group([a, b]) | if c then 4 else 0;
    assert Group([a, b, c, d]) == Group([a, b, c]) | if d then 2 else 0;
    assert Group([a, b, c, d, e]) == Group([a, b, c, d]) | if e then 1 else 0;
  }

  lemma FiveOfGroup(bits: seq<bool>)
    requires |bits| == 5
    ensures Group(bits) < 32 && Five(Group(bits)) == bits
  {
    hide Group;
    var a, b, c, d, e := bits[0], bits[1], bits[2], bits[3], bits[4];
    assert bits == [a, b, c, d, e];
    GroupOfFive(a, b, c, d, e);
  }

  lemma GroupOfBits(v: bv8)
    requires v < 32
    ensures Group(Five(v)) == v
  {
    hide Group;
    GroupOfFive(v & 16 != 0, v & 8 != 0, v & 4 != 0, v & 2 != 0, v & 1 != 0);
  }

  function HashOf(bits: seq<bool>): (hash: seq<bv8>)
    requires |bits| % 5 == 0
    ensures |hash| == |bits| / 5
  {
    if bits == [] then []
    else
      FiveOfGroup(bits[|bits| - 5..]);
      HashOf(bits[..|bits| - 5]) + [Letter(Group(bits[|bits| - 5..]))]
  }

  ghost predicate IsHash(hash: seq<bv8>) {
    forall i | 0 <= i < |hash| :: IndexOf(hash[i]).Some?
  }

  function BitsOfHash(hash: seq<bv8>): (bits: seq<bool>)
    requires IsHash(hash)
    ensures |bits| == 5 * |hash|
  {
    if hash == [] then [] else BitsOfHash(hash[..|hash| - 1]) + Five(IndexOf(hash[|hash| - 1]).value)
  }

  lemma {:induction false} HashOfInverts(hash: seq<bv8>)
    requires IsHash(hash)
    ensures HashOf(BitsOfHash(hash)) == hash
  {
    hide Five, Group, Letter, IndexOf;
    if hash != [] {
      var init, last := hash[..|hash| - 1], hash[|hash| - 1];
      HashOfInverts(init);
      IndexInverse(last);
      var bits := BitsOfHash(hash);
      assert bits[..|bits| - 5] == BitsOfHash(init);
      assert bits[|bits| - 5..] == Five(IndexOf(last).value);
      GroupOfBits(IndexOf(last).value);
    }
  }

  lemma {:induction false} BitsOfHashInverts(bits: seq<bool>)
    requires |bits| % 5 == 0
    ensures IsHash(HashOf(bits)) && BitsOfHash(HashOf(bits)) == bits
  {
    hide Five, Group, Letter, IndexOf;
    if bits != [] {
      var init, last := bits[..|bits| - 5], bits[|bits| - 5..];
      BitsOfHashInverts(init);
      FiveOfGroup(last);
      LetterInverse(Group(last));
      var hash := HashOf(bits);
      assert hash[..|hash| - 1] == HashOf(init);
      assert bits == init + last;
    }
  }

  // ---- Encode and Decode ----

  lemma Multiples(n: nat)
    ensures 5 * n % 5 == 0 && 5 * n / 5 == n
  {
  }

  function HashFor(p: Point, precision: nat): seq<bv8> {
    Multiples(precision);
    HashOf(BitsOf(p, 5 * precision))
  }

  lemma GroupSnoc(bits: seq<bool>, bit: bool)
    requires |bits| < 5
    ensures Group(bits + [bit]) == if bit then Group(bits) | Mask(|bits|) else Group(bits)
  {
    hide Mask;
    assert (bits + [bit])[..|bits|] == bits;
    OrZero(Group(bits));
  }

  lemma HashSnoc(whole: seq<bool>, five: seq<bool>)
    requires |whole| % 5 == 0 && |five| == 5
    ensures |whole + five| % 5 == 0 && Group(five) < 32
    ensures HashOf(whole + five) == HashOf(whole) + [Letter(Group(five))]
  {
    hide Letter, Group;
    FiveOfGroup(five);
    var bits := whole + five;
    assert bits[..|bits| - 5] == whole && bits[|bits| - 5..] == five;
  }

  /** The bits are the point's own, and the interval bounds and the next direction belong to them. */
  ghost predicate Placed(p: Point, bits: seq<bool>, box: Bounds, evenBit: bool) {
    bits == BitsOf(p, |bits|) && BoxOf(bits) == box && evenBit == (|bits| % 2 == 0)
  }

  lemma PlacedStep(p: Point, bits: seq<bool>, box: Bounds, evenBit: bool)
    requires Placed(p, bits, box, evenBit)
    ensures var upper := BitFor(p, box, evenBit); Placed(p, bits + [upper], Halve(box, evenBit, upper), !evenBit)
  {
    hide BoxOf, BitsOf, BitFor, Halve;
    NextBit(p, bits);
  }

  /** Where the encoder stands: the bits in `whole` make the letters so far, those in `part` the next. */
  ghost predicate Encoding(p: Point, whole: seq<bool>, part: seq<bool>, box: Bounds, evenBit: bool,
                           encoded: seq<bv8>, character: bv8) {
    && |part| < 5 && |whole| % 5 == 0 && encoded == HashOf(whole) && character == Group(part)
    && Placed(p, whole + part, box, evenBit)
  }

  lemma EncodingStart(p: Point)
    ensures Encoding(p, [], [], WORLD, true, [], 0)
  {
    var none: seq<bool> := [];
    assert none + none == none;
  }

  lemma EncodingStep(p: Point, whole: seq<bool>, part: seq<bool>, box: Bounds, evenBit: bool,
                     encoded: seq<bv8>, character: bv8)
    requires Encoding(p, whole, part, box, evenBit, encoded, character)
    ensures var upper := BitFor(p, box, evenBit);
            var next := if upper then character | Mask(|part|) else character;
            if |part| == 4
            then && next < 32
                 && Encoding(p, whole + (part + [upper]), [], Halve(box, evenBit, upper), !evenBit,
                             encoded + [Letter(next)], 0)
            else Encoding(p, whole, part + [upper], Halve(box, evenBit, upper), !evenBit, encoded, next)
  {
    hide HashOf, Group, Letter, Mask, BitFor, Halve, Placed;
    var upper := BitFor(p, box, evenBit);
    var longer := part + [upper];
    PlacedStep(p, whole + part, box, evenBit);
    GroupSnoc(part, upper);
    assert (whole + part) + [upper] == whole + longer;
    if |part| == 4 {
      HashSnoc(whole, longer);
      EmptyHash();
      assert (whole + longer) + [] == whole + longer;
    }
  }

  method Encode(p: Point, precision: int) returns (r: Result<seq<bv8>, GeoError>)
    ensures r.Ok? <==> p.Valid() && 1 <= precision <= 12
    ensures r.Ok? ==> r.value == HashFor(p, precision)
    ensures r.Err? ==> r.error == if p.Valid() then InvalidPrecision else InvalidPoint
  {
    hide Encoding, HashOf, Letter, Mask, BitsOf, BitFor, Halve;
    if !p.Valid() {
      return Err(InvalidPoint);
    }
    if precision < 1 || precision > 12 {
      return Err(InvalidPrecision);
    }
    var box := WORLD;
    var encoded: seq<bv8> := [];
    var evenBit, bitIndex, character := true, 0, 0 as bv8;
    ghost var whole: seq<bool>, part: seq<bool> := [], [];
    EncodingStart(p);
    while |encoded| < precision
      invariant Encoding(p, whole, part, box, evenBit, encoded, character)
      invariant bitIndex == |part| < 5 && |encoded| <= precision && (|encoded| == precision ==> bitIndex == 0)
      decreases precision - |encoded|, 5 - bitIndex
    {
      EncodingStep(p, whole, part, box, evenBit, encoded, character);
      var upper;
      upper, box := Bisect(p, box, evenBit);
      if upper {
        character := character | Mask(bitIndex);
      }
      part := part + [upper];
      evenBit := !evenBit;
      bitIndex := bitIndex + 1;
      if bitIndex == 5 {
        encoded := encoded + [Letter(character)];
        bitIndex, character := 0, 0;
        whole, part := whole + part, [];
      }
    }
    EncodingEnd(p, whole, box, evenBit, encoded, character);
    return Ok(encoded);
  }

  lemma EncodingEnd(p: Point, whole: seq<bool>, box: Bounds, evenBit: bool, encoded: seq<bv8>, character: bv8)
    requires Encoding(p, whole, [], box, evenBit, encoded, character)
    ensures encoded == HashFor(p, |encoded|)
  {
    hide HashOf, BitsOf;
    assert whole + [] == whole;
    assert |whole| == 5 * |encoded|;
  }

  /** One pass of the encoder: compares the point with a midpoint and keeps the half that holds it. */
  method Bisect(p: Point, before: Bounds, evenBit: bool) returns (upper: bool, box: Bounds)
    ensures upper == BitFor(p, before, evenBit) && box == Halve(before, evenBit, upper)
  {
    var Bounds(longitudeMinimum, latitudeMinimum, longitudeMaximum, latitudeMaximum) := before;
    if evenBit {
      var midpoint := (longitudeMinimum + longitudeMaximum) / 2.0;
      upper := p.longitude >= midpoint;
      if upper {
        longitudeMinimum := midpoint;
      } else {
        longitudeMaximum := midpoint;
      }
    } else {
      var midpoint := (latitudeMinimum + latitudeMaximum) / 2.0;
      upper := p.latitude >= midpoint;
      if upper {
        latitudeMinimum := midpoint;
      } else {
        latitudeMaximum := midpoint;
      }
    }
    box := Bounds(longitudeMinimum, latitudeMinimum, longitudeMaximum, latitudeMaximum);
  }

  lemma NextBit(p: Point, bits: seq<bool>)
    requires bits == BitsOf(p, |bits|)
    ensures var upper := BitFor(p, BoxOf(bits), |bits| % 2 == 0);
            && bits + [upper] == BitsOf(p, |bits| + 1)
            && BoxOf(bits + [upper]) == Halve(BoxOf(bits), |bits| % 2 == 0, upper)
  {
    hide Halve, BitFor, BoxOf;
    NextBox(bits, BitFor(p, BoxOf(bits), |bits| % 2 == 0));
  }

  lemma EmptyBox()
    ensures BoxOf([]) == WORLD && forall p :: BitsOf(p, 0) == []
  {
  }

  lemma EmptyHash()
    ensures HashOf([]) == [] && Group([]) == 0
  {
  }

  lemma OrZero(v: bv8)
    ensures v | 0 == v
  {
  }

  method Decode(hash: seq<bv8>) returns (r: Result<Cell, GeoError>)
    ensures r.Ok? <==> 1 <= |hash| <= 12 && IsHash(hash)
    ensures r.Err? ==> r.error == if 1 <= |hash| <= 12 then InvalidCharacter else InvalidLength
    ensures r.Ok? ==> r.value.Valid() && r.value.precision == |hash|
    ensures r.Ok? ==> r.value.bounds == BoxOf(BitsOfHash(hash)) && r.value.center == CenterOf(r.value.bounds)
  {
    hide BoxOf, Halve, IndexOf, Mask, Five;
    if |hash| < 1 || |hash| > 12 {
      return Err(InvalidLength);
    }
    var box := WORLD;
    var evenBit := true;
    EmptyBox();
    for index := 0 to |hash|
      invariant IsHash(hash[..index])
      invariant evenBit == (index % 2 == 0)
      invariant box == BoxOf(BitsOfHash(hash[..index]))
    {
      var value := IndexOf(hash[index]);
      if value.None? {
        return Err(InvalidCharacter);
      }
      assert hash[..index + 1] == hash[..index] + [hash[index]];
      box, evenBit := Narrow(box, evenBit, value.value, BitsOfHash(hash[..index]));
      assert hash[..index + 1][..index] == hash[..index];
    }
    assert hash[..|hash|] == hash;
    var center := Point((box.south + box.north) / 2.0, (box.west + box.east) / 2.0);
    var cell := Cell(center, box, |hash|);
    BoxIsProper(BitsOfHash(hash));
    if !cell.Valid() {
      assert false;
      return Err(InvalidCell);
    }
    return Ok(cell);
  }

  /** The five bisections of one letter. */
  method Narrow(before: Bounds, evenBefore: bool, value: bv8, ghost bits: seq<bool>)
    returns (box: Bounds, evenBit: bool)
    requires before == BoxOf(bits) && evenBefore == (|bits| % 2 == 0)
    ensures box == BoxOf(bits + Five(value)) && evenBit != evenBefore
  {
    hide BoxOf, Halve, Mask, Five;
    box, evenBit := before, evenBefore;
    ghost var five := Five(value);
    assert bits + five[..0] == bits;
    for i := 0 to 5
      invariant box == BoxOf(bits + five[..i])
      invariant evenBit == ((|bits| + i) % 2 == 0)
    {
      var upper := value & Mask(i) != 0;
      MaskedBit(value, i);
      NextBox(bits + five[..i], upper);
      assert bits + five[..i + 1] == (bits + five[..i]) + [upper];
      box := Halve(box, evenBit, upper);
      evenBit := !evenBit;
    }
    assert five[..5] == five;
  }

  lemma MaskedBit(v: bv8, i: nat)
    requires i < 5
    ensures (v & Mask(i) != 0) == Five(v)[i]
  {
  }

  // ---- The laws ----

  /** The cell of a point's hash contains the point, at every precision. */
  lemma CellContainsPoint(p: Point, precision: nat)
    requires p.Valid()
    ensures IsHash(HashFor(p, precision))
    ensures BoxOf(BitsOfHash(HashFor(p, precision))).Contains(p)
  {
    hide BoxOf, BitsOf, HashOf, BitsOfHash, IndexOf;
    var bits := BitsOf(p, 5 * precision);
    BitsOfHashInverts(bits);
    BoxContainsPoint(p, 5 * precision);
    BoxIsProper(bits);
  }

  /** Encoding the center of a hash's cell gives the hash back. */
  lemma CenterEncodesBack(hash: seq<bv8>)
    requires IsHash(hash)
    ensures CenterOf(BoxOf(BitsOfHash(hash))).Valid()
    ensures HashFor(CenterOf(BoxOf(BitsOfHash(hash))), |hash|) == hash
  {
    var bits := BitsOfHash(hash);
    BoxIsProper(bits);
    CenterIsInside(bits);
    InsideDeterminesBits(CenterOf(BoxOf(bits)), bits);
    HashOfInverts(hash);
  }

  /** A shorter hash of a point is a prefix of a longer one. */
  lemma {:induction false} ShorterIsPrefix(p: Point, n: nat, m: nat)
    requires n <= m
    ensures HashFor(p, n) <= HashFor(p, m)
    decreases m
  {
    hide BitsOf, HashOf;
    if n < m {
      ShorterIsPrefix(p, n, m - 1);
      BitsOfPrefix(p, 5 * (m - 1), 5 * m);
      HashPrefix(BitsOf(p, 5 * m));
    }
  }

  lemma HashPrefix(bits: seq<bool>)
    requires |bits| % 5 == 0 && bits != []
    ensures HashOf(bits[..|bits| - 5]) <= HashOf(bits)
  {
    hide Letter, Group;
  }

  /** Different hashes of the same length have cells without a common inner point. */
  lemma CellsAreDisjoint(g: seq<bv8>, h: seq<bv8>, p: Point)
    requires IsHash(g) && IsHash(h) && |g| == |h| && g != h
    ensures !(Inside(p, BoxOf(BitsOfHash(g))) && Inside(p, BoxOf(BitsOfHash(h))))
  {
    HashOfInverts(g);
    HashOfInverts(h);
    if Inside(p, BoxOf(BitsOfHash(g))) && Inside(p, BoxOf(BitsOfHash(h))) {
      DisjointInteriors(BitsOfHash(g), BitsOfHash(h), p);
    }
  }
}
