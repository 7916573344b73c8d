/** The UUID version 7 generator (id/uuid.go): a logical tick of 48 bits of milliseconds and 12 bits
    below them that never goes back, whatever the clock shows. Bytes are numbers below 256. */
module UuidV7 {
  import opened Wrappers
  import opened Numerals

  const MAX_MILLI := 0xffff_ffff_ffff
  const MAX_TICK := MAX_MILLI * 4096 + 0xfff

  /** A clock reading: milliseconds since the epoch and the nanoseconds below the millisecond. */
  datatype Clock = Clock(milli: int, subMilliNanos: nat) {
    ghost predicate Valid() {
      subMilliNanos < 1_000_000
    }
  }

  datatype UuidError = BeforeEpoch | OutOfRange | EntropyFailed

  type Uuid = s: seq<Byte> | |s| == 16 witness seq(16, _ => 0)

  /** The tick of a clock reading: a unit is 256 nanoseconds, so the fraction stays below 4096. */
  function TickOf(now: Clock): (r: Result<nat, UuidError>)
    requires now.Valid()
    ensures r.Ok? <==> 0 <= now.milli <= MAX_MILLI
    ensures r.Err? ==> r.error == if now.milli < 0 then BeforeEpoch else OutOfRange
    ensures r.Ok? ==> r.value <= MAX_TICK && r.value / 4096 == now.milli && r.value % 4096 == now.subMilliNanos / 256
  {
    if now.milli < 0 then Err(BeforeEpoch)
    else if now.milli > MAX_MILLI then Err(OutOfRange)
    else Ok(now.milli * 4096 + now.subMilliNanos / 256 % 4096)
  }

  function BigEndian(n: nat, length: nat): (s: seq<Byte>)
    ensures |s| == length
  {
    if length == 0 then [] else BigEndian(n / 256, length - 1) + [n % 256]
  }

  /** Six bytes of milliseconds, the version nibble before four bits, eight bits, the variant, and
      random bytes. */
  function Layout(tick: nat, random: Uuid): Uuid
    requires tick <= MAX_TICK
  {
    BigEndian(tick / 4096, 6) + Tail(tick % 4096, random)
  }

  /** What follows the milliseconds. */
  function Tail(sequence: nat, random: Uuid): (s: seq<Byte>)
    requires sequence < 4096
    ensures |s| == 10
  {
    [0x70 + sequence / 256, sequence % 256, random[8] % 64 + 0x80] + random[9..]
  }

  ghost predicate LexLess(a: seq<int>, b: seq<int>) {
    exists i | 0 <= i < |a| && i < |b| :: a[..i] == b[..i] && a[i] < b[i]
  }

  lemma LexExtend(a: seq<int>, b: seq<int>, x: seq<int>, y: seq<int>)
    requires LexLess(a, b)
    ensures LexLess(a + x, b + y)
  {
    var i :| 0 <= i < |a| && i < |b| && a[..i] == b[..i] && a[i] < b[i];
    assert (a + x)[..i] == a[..i] && (b + y)[..i] == b[..i];
    assert (a + x)[..i] == (b + y)[..i] && (a + x)[i] < (b + y)[i];
  }

  lemma LexSame(front: seq<int>, a: seq<int>, b: seq<int>)
    requires LexLess(a, b)
    ensures LexLess(front + a, front + b)
  {
    var i :| 0 <= i < |a| && i < |b| && a[..i] == b[..i] && a[i] < b[i];
    var j := |front| + i;
    assert (front + a)[..j] == front + a[..i] && (front + b)[..j] == front + b[..i];
    assert (front + a)[..j] == (front + b)[..j] && (front + a)[j] < (front + b)[j];
  }

  lemma LexLast(a: seq<int>, x: int, y: int)
    requires x < y
    ensures LexLess(a + [x], a + [y])
  {
    var i := |a|;
    assert (a + [x])[..i] == a == (a + [y])[..i];
    assert (a + [x])[i] < (a + [y])[i];
  }

  /** Big-endian bytes of the same length are ordered as their numbers. */
  lemma {:induction false} BigEndianOrder(m: nat, n: nat, length: nat)
    requires m < n < Pow(256, length)
    ensures LexLess(BigEndian(m, length), BigEndian(n, length))
  {
    if length != 0 {
      if m / 256 < n / 256 {
        BigEndianOrder(m / 256, n / 256, length - 1);
        LexExtend(BigEndian(m / 256, length - 1), BigEndian(n / 256, length - 1), [m % 256], [n % 256]);
      } else {
        LexLast(BigEndian(m / 256, length - 1), m % 256, n % 256);
      }
    }
  }

  lemma TailOrder(earlier: nat, later: nat, a: Uuid, b: Uuid)
    requires earlier < later < 4096
    ensures LexLess(Tail(earlier, a), Tail(later, b))
  {
    var x, y := Tail(earlier, a), Tail(later, b);
    if earlier / 256 < later / 256 {
      assert x[..0] == y[..0] && x[0] < y[0];
    } else {
      assert x[..1] == [x[0]] && y[..1] == [y[0]];
      assert x[..1] == y[..1] && x[1] < y[1];
    }
  }

  lemma TickOrder(earlier: nat, later: nat)
    requires earlier < later
    ensures earlier / 4096 < later / 4096 || (earlier / 4096 == later / 4096 && earlier % 4096 < later % 4096)
  {
  }

  /** A later tick gives a greater UUID, whatever the random bytes are. */
  lemma LayoutOrder(earlier: nat, later: nat, a: Uuid, b: Uuid)
    requires earlier < later <= MAX_TICK
    ensures LexLess(Layout(earlier, a), Layout(later, b))
  {
    hide BigEndian, Tail, LexLess;
    TickOrder(earlier, later);
    var m, n := earlier / 4096, later / 4096;
    if m < n {
      assert Pow(256, 6) == MAX_MILLI + 1;
      BigEndianOrder(m, n, 6);
      LexExtend(BigEndian(m, 6), BigEndian(n, 6), Tail(earlier % 4096, a), Tail(later % 4096, b));
    } else {
      TailOrder(earlier % 4096, later % 4096, a, b);
      LexSame(BigEndian(m, 6), Tail(earlier % 4096, a), Tail(later % 4096, b));
    }
  }

  lemma {:induction false} BigEndianValue(n: nat, length: nat)
    requires n < Pow(256, length)
    ensures Val(BigEndian(n, length), 256) == n
  {
    if length != 0 {
      BigEndianValue(n / 256, length - 1);
      assert BigEndian(n, length)[..length - 1] == BigEndian(n / 256, length - 1);
    }
  }

  /** The layout of section 5.7 of RFC 9562: timestamp, version 7, variant 10. */
  lemma LayoutFields(tick: nat, random: Uuid)
    requires tick <= MAX_TICK
    ensures var uuid := Layout(tick, random);
            var high: int, low: int := uuid[6], uuid[7];
            && Val(uuid[..6], 256) == tick / 4096
            && high / 16 == 7 && high % 16 * 256 + low == tick % 4096
            && uuid[8] / 64 == 2 && uuid[8] % 64 == random[8] % 64 && uuid[9..] == random[9..]
  {
    assert Pow(256, 6) == MAX_MILLI + 1;
    BigEndianValue(tick / 4096, 6);
    assert Layout(tick, random)[..6] == BigEndian(tick / 4096, 6);
  }

  // ---- The generator ----

  datatype Input = Input(now: Clock, entropy: Option<Uuid>)

  /** One call: the tick afterwards and the result. A failed call leaves the tick as it was. */
  function Advance(last: int, input: Input): (r: (int, Result<Uuid, UuidError>))
    requires -1 <= last <= MAX_TICK && input.now.Valid()
    ensures last <= r.0 <= MAX_TICK
    ensures r.1.Err? ==> r.0 == last
    ensures r.1.Ok? ==> last < r.0 && input.entropy.Some? && r.1.value == Layout(r.0, input.entropy.value)
    ensures r.1.Ok? ==>
      && TickOf(input.now).Ok?
      && (r.0 == TickOf(input.now).value || r.0 == last + 1 > TickOf(input.now).value)
    ensures r.1.Ok? <==> TickOf(input.now).Ok? && input.entropy.Some? && last < MAX_TICK
    ensures r.1 == Err(BeforeEpoch) <==> input.now.milli < 0
    ensures r.1 == Err(OutOfRange) <==> input.now.milli > MAX_MILLI || (0 <= input.now.milli && last == MAX_TICK)
  {
    var clock := TickOf(input.now);
    if clock.Err? then (last, Err(clock.error))
    else
      var tick := if clock.value <= last then last + 1 else clock.value;
      if tick > MAX_TICK then (last, Err(OutOfRange))
      else if input.entropy.None? then (last, Err(EntropyFailed))
      else (tick, Ok(Layout(tick, input.entropy.value)))
  }

  class Generator {
    var lastTick: int

    constructor ()
      ensures Valid() && lastTick == -1
    {
      lastTick := -1;
    }

    ghost predicate Valid()
      reads this
    {
      -1 <= lastTick <= MAX_TICK
    }

    method NextV7(now: Clock, entropy: Option<Uuid>) returns (r: Result<Uuid, UuidError>)
      requires Valid() && now.Valid()
      modifies this
      ensures Valid() && (lastTick, r) == Advance(old(lastTick), Input(now, entropy))
    {
      hide Layout;
      var clock := TickOf(now);
      if clock.Err? {
        return Err(clock.error);
      }
      var tick := clock.value;
      if tick <= lastTick {
        tick := lastTick + 1;
      }
      if tick > MAX_TICK {
        return Err(OutOfRange);
      }
      if entropy.None? {
        return Err(EntropyFailed);
      }
      lastTick := tick;
      var uuid := Pack(tick, entropy.value);
      return Ok(uuid);
    }
  }

  /** Writes the tick, the version and the variant over the random bytes. */
  method Pack(tick: nat, random: Uuid) returns (uuid: Uuid)
    requires tick <= MAX_TICK
    ensures uuid == Layout(tick, random)
  {
    hide BigEndian;
    var milli, sequence := tick / 4096, tick % 4096;
    SixBytes(milli);
    uuid := random;
    uuid := uuid[0 := milli / 0x100_0000_0000 % 256];
    uuid := uuid[1 := milli / 0x1_0000_0000 % 256];
    uuid := uuid[2 := milli / 0x100_0000 % 256];
    uuid := uuid[3 := milli / 0x1_0000 % 256];
    uuid := uuid[4 := milli / 0x100 % 256];
    uuid := uuid[5 := milli % 256];
    uuid := uuid[6 := 0x70 + sequence / 256];
    uuid := uuid[7 := sequence % 256];
    uuid := uuid[8 := uuid[8] % 64 + 0x80];
    assert uuid[..6] == BigEndian(milli, 6);
    assert uuid == uuid[..6] + Tail(sequence, random);
  }

  lemma SixBytes(n: nat)
    ensures BigEndian(n, 6) == [n / 0x100_0000_0000 % 256, n / 0x1_0000_0000 % 256, n / 0x100_0000 % 256,
                                n / 0x1_0000 % 256, n / 0x100 % 256, n % 256]
  {
    var a := n / 256;
    var b := a / 256;
    var c := b / 256;
    var d := c / 256;
    var e := d / 256;
    assert b == n / 0x1_0000 && c == n / 0x100_0000 && d == n / 0x1_0000_0000 && e == n / 0x100_0000_0000;
    assert BigEndian(e, 1) == [e % 256];
    assert BigEndian(d, 2) == BigEndian(e, 1) + [d % 256];
    assert BigEndian(c, 3) == BigEndian(d, 2) + [c % 256];
    assert BigEndian(b, 4) == BigEndian(c, 3) + [b % 256];
    assert BigEndian(a, 5) == BigEndian(b, 4) + [a % 256];
    assert BigEndian(n, 6) == BigEndian(a, 5) + [n % 256];
  }

  ghost predicate ValidInputs(inputs: seq<Input>) {
    forall i | 0 <= i < |inputs| :: inputs[i].now.Valid()
  }

  datatype Made = Made(tick: nat, uuid: Uuid)

  /** The tick after a run and the UUIDs it returned, in order, each with the tick it was made from. */
  function RunFrom(last: int, inputs: seq<Input>): (r: (int, seq<Made>))
    requires -1 <= last <= MAX_TICK && ValidInputs(inputs)
    ensures last <= r.0 <= MAX_TICK
  {
    if inputs == [] then (last, [])
    else
      var (tick, sofar) := RunFrom(last, inputs[..|inputs| - 1]);
      var (next, result) := Advance(tick, inputs[|inputs| - 1]);
      (next, if result.Ok? then sofar + [Made(next, result.value)] else sofar)
  }

  ghost predicate HasLayout(made: Made) {
    made.tick <= MAX_TICK && exists random: Uuid :: made.uuid == Layout(made.tick, random)
  }

  ghost predicate Increasing(last: int, made: seq<Made>, tick: int) {
    && (forall i | 0 <= i < |made| :: last < made[i].tick <= tick && HasLayout(made[i]))
    && forall i, j | 0 <= i < j < |made| :: made[i].tick < made[j].tick
  }

  lemma {:induction false} TicksIncrease(last: int, inputs: seq<Input>)
    requires -1 <= last <= MAX_TICK && ValidInputs(inputs)
    ensures Increasing(last, RunFrom(last, inputs).1, RunFrom(last, inputs).0)
  {
    hide Layout;
    if inputs != [] {
      TicksIncrease(last, inputs[..|inputs| - 1]);
      var (tick, sofar) := RunFrom(last, inputs[..|inputs| - 1]);
      var (next, result) := Advance(tick, inputs[|inputs| - 1]);
      var (_, made) := RunFrom(last, inputs);
      if result.Ok? {
        assert made == sofar + [Made(next, result.value)];
        assert HasLayout(made[|sofar|]);
      } else {
        assert made == sofar;
      }
    }
  }

  /** One generator's UUIDs strictly increase over every run, for clocks that repeat, jump or go back
      and calls that fail in between. */
  lemma StrictlyIncreasing(inputs: seq<Input>, i: nat, j: nat)
    requires ValidInputs(inputs) && i < j < |RunFrom(-1, inputs).1|
    ensures LexLess(RunFrom(-1, inputs).1[i].uuid, RunFrom(-1, inputs).1[j].uuid)
  {
    hide RunFrom, LexLess, Layout;
    TicksIncrease(-1, inputs);
    var made := RunFrom(-1, inputs).1;
    assert HasLayout(made[i]) && HasLayout(made[j]);
    var a: Uuid :| made[i].uuid == Layout(made[i].tick, a);
    var b: Uuid :| made[j].uuid == Layout(made[j].tick, b);
    LayoutOrder(made[i].tick, made[j].tick, a, b);
  }
}
