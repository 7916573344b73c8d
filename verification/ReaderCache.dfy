/** The cache of verified JWT readers in front of a rotating provider (jwt/cached_provider.go), as a
    state machine: parse calls, key rotations, clears and evictions in any interleaving. Each event is
    one atomic access to the cache backend, the epoch counter or the key ring. A clear bumps the epoch
    first and empties the backend later; storing an entry compares the epoch and writes in one event,
    and never between the two halves of a clear, because both hold the mutex. Clocks may show anything
    at any step. */
module ReaderCache {
  import opened Wrappers
  import opened KeyRing

  type CacheKey = string

  datatype Reader = Reader(kid: string, algorithm: string, expiresAt: Option<int>) {
    predicate IsExpired(now: int) {
      expiresAt.Some? && expiresAt.value <= now
    }
  }

  /** A cached reader; `parsedAt` is history: the position of the event that parsed it. */
  datatype Entry = Entry(reader: Reader, parsedAt: nat)

  datatype Phase =
    | Getting
    | Got(reader: Reader, parsedAt: nat)
    | Loading
    | Joined(other: nat)
    | Flying(epoch: nat)
    | FlightGot(epoch: nat, reader: Reader, parsedAt: nat)
    | Parsing(epoch: nat)
    | Parsed(epoch: nat, reader: Reader, parsedAt: nat)
    | Hit(reader: Reader, parsedAt: nat, now: int, at: nat)
    | Loaded(reader: Reader, parsedAt: nat)
    | Failed

  datatype Call = Call(cacheKey: CacheKey, phase: Phase)

  datatype State = State(epoch: nat, locked: bool, cache: map<CacheKey, Entry>, keys: seq<Key>, calls: map<nat, Call>)

  datatype Event =
    | Rotate(key: Key)
    | BumpEpoch | Cleared | ClearFails(remaining: set<CacheKey>)
    | Evict(cacheKey: CacheKey)
    | Begin(id: nat, cacheKey: CacheKey)
    | Get(id: nat)
    | Revalidate(id: nat, now: int, providerNow: int)
    | LoadEpoch(id: nat)
    | Join(id: nat, other: nat) | Receive(id: nat) | Retry(id: nat)
    | Parse(id: nat, now: int, reader: Reader)
    | Set(id: nat) | SetFails(id: nat, stored: bool)
    | Uncached(id: nat)
    | Abort(id: nat)

  datatype Config = Config(algorithm: string, capacity: nat)

  /** What revalidation asks of a cached reader: its key is in the ring, alive, of the right algorithm.
      The cache and the provider look at their own clocks. */
  predicate Fresh(c: Config, keys: seq<Key>, reader: Reader, now: int, providerNow: int) {
    && reader.algorithm == c.algorithm && !reader.IsExpired(now)
    && var key := Find(keys, reader.kid, providerNow);
    && key.Ok? && key.value.algorithm == c.algorithm && key.value.algorithm == reader.algorithm
    && !key.value.Expired(now)
  }

  /** What the provider can have parsed: a token signed with a key the ring resolves now. */
  predicate Parses(c: Config, keys: seq<Key>, reader: Reader, now: int) {
    && reader.algorithm == c.algorithm
    && var key := Find(keys, reader.kid, now);
    && key.Ok? && key.value.algorithm == c.algorithm
  }

  predicate InFlight(phase: Phase) {
    phase.Flying? || phase.FlightGot? || phase.Parsing? || phase.Parsed?
  }

  predicate Finished(phase: Phase) {
    phase.Hit? || phase.Loaded? || phase.Failed?
  }

  predicate Enabled(c: Config, s: State, e: Event) {
    match e
    case Rotate(_) => true
    case BumpEpoch => !s.locked
    case Cleared => s.locked
    case ClearFails(_) => s.locked
    case Evict(_) => true
    case Begin(id, _) => id !in s.calls
    case Get(id) => id in s.calls && (s.calls[id].phase.Getting? || s.calls[id].phase.Flying?)
    case Revalidate(id, _, _) => id in s.calls && (s.calls[id].phase.Got? || s.calls[id].phase.FlightGot?)
    case LoadEpoch(id) => id in s.calls && s.calls[id].phase.Loading?
    case Join(id, other) =>
      && id in s.calls && s.calls[id].phase.Loading? && other in s.calls && InFlight(s.calls[other].phase)
      && s.calls[other].cacheKey == s.calls[id].cacheKey
    case Receive(id) =>
      && id in s.calls && s.calls[id].phase.Joined? && s.calls[id].phase.other in s.calls
      && Finished(s.calls[s.calls[id].phase.other].phase)
    case Retry(id) => id in s.calls && s.calls[id].phase.Failed?
    case Parse(id, now, reader) => id in s.calls && s.calls[id].phase.Parsing? && Parses(c, s.keys, reader, now)
    case Set(id) => id in s.calls && s.calls[id].phase.Parsed? && !s.locked
    case SetFails(id, _) => id in s.calls && s.calls[id].phase.Parsed? && !s.locked
    case Uncached(id) => id in s.calls && s.calls[id].phase.Parsed?
    case Abort(id) => id in s.calls
  }

  function At(s: State, id: nat, phase: Phase): map<nat, Call>
    requires id in s.calls
  {
    s.calls[id := s.calls[id].(phase := phase)]
  }

  /** The guarded write: only a load that began in the current epoch reaches the cache. */
  function Stored(s: State, id: nat): map<CacheKey, Entry>
    requires id in s.calls && s.calls[id].phase.Parsed?
  {
    var p := s.calls[id].phase;
    if p.epoch == s.epoch then s.cache[s.calls[id].cacheKey := Entry(p.reader, p.parsedAt)] else s.cache
  }

  /** The state after event `e`, which is event number `n`. */
  function Next(c: Config, s: State, e: Event, n: nat): State
    requires Enabled(c, s, e)
  {
    match e
    case Rotate(key) => s.(keys := Prepend(s.keys, key, c.capacity))
    case BumpEpoch => s.(epoch := s.epoch + 1, locked := true)
    case Cleared => s.(cache := map[], locked := false)
    case ClearFails(remaining) => s.(cache := map k | k in s.cache && k in remaining :: s.cache[k], locked := false)
    case Evict(k) => s.(cache := s.cache - {k})
    case Begin(id, k) => s.(calls := s.calls[id := Call(k, Getting)])
    case Get(id) =>
      var call := s.calls[id];
      var hit := call.cacheKey in s.cache;
      var phase :=
        if call.phase.Getting? then
          if hit then Got(s.cache[call.cacheKey].reader, s.cache[call.cacheKey].parsedAt) else Loading
        else
          if hit then FlightGot(call.phase.epoch, s.cache[call.cacheKey].reader, s.cache[call.cacheKey].parsedAt)
          else Parsing(call.phase.epoch);
      s.(calls := At(s, id, phase))
    case Revalidate(id, now, providerNow) =>
      var call := s.calls[id];
      if Fresh(c, s.keys, call.phase.reader, now, providerNow) then
        s.(calls := At(s, id, Hit(call.phase.reader, call.phase.parsedAt, now, n)))
      else
        s.(cache := s.cache - {call.cacheKey},
           calls := At(s, id, if call.phase.Got? then Loading else Parsing(call.phase.epoch)))
    case LoadEpoch(id) => s.(calls := At(s, id, Flying(s.epoch)))
    case Join(id, other) => s.(calls := At(s, id, Joined(other)))
    case Receive(id) => s.(calls := At(s, id, s.calls[s.calls[id].phase.other].phase))
    case Retry(id) => s.(calls := At(s, id, Loading))
    case Parse(id, _, reader) => s.(calls := At(s, id, Parsed(s.calls[id].phase.epoch, reader, n)))
    case Set(id) =>
      s.(cache := Stored(s, id), calls := At(s, id, Loaded(s.calls[id].phase.reader, s.calls[id].phase.parsedAt)))
    case SetFails(id, stored) =>
      s.(cache := if stored then Stored(s, id) else s.cache, calls := At(s, id, Failed))
    case Uncached(id) => s.(calls := At(s, id, Loaded(s.calls[id].phase.reader, s.calls[id].phase.parsedAt)))
    case Abort(id) => s.(calls := At(s, id, Failed))
  }

  const INITIAL := State(0, false, map[], [], map[])

  predicate IsTrace(c: Config, trace: seq<Event>)
    decreases |trace|, 0
  {
    trace == [] ||
    (IsTrace(c, trace[..|trace| - 1]) && Enabled(c, After(c, trace[..|trace| - 1]), trace[|trace| - 1]))
  }

  function After(c: Config, trace: seq<Event>): State
    requires IsTrace(c, trace)
    decreases |trace|, 1
  {
    if trace == [] then INITIAL
    else Next(c, After(c, trace[..|trace| - 1]), trace[|trace| - 1], |trace| - 1)
  }

  // ---- What every step keeps ----

  /** Event `at` of the trace parsed this reader for a call with this cache key, with a key the ring
      resolved at that moment. */
  ghost predicate ParsedFor(c: Config, trace: seq<Event>, k: CacheKey, reader: Reader, at: nat)
    requires IsTrace(c, trace)
  {
    && at < |trace| && trace[at].Parse? && trace[at].reader == reader && IsTrace(c, trace[..at])
    && var s := After(c, trace[..at]);
    && Parses(c, s.keys, reader, trace[at].now)
    && trace[at].id in s.calls && s.calls[trace[at].id].cacheKey == k
  }

  ghost predicate NoBumpSince(trace: seq<Event>, at: nat) {
    forall i | at <= i < |trace| :: trace[i] != BumpEpoch
  }

  /** No clear that bumped the epoch at or after `at` has emptied the backend yet. */
  ghost predicate NoClearSince(trace: seq<Event>, at: nat) {
    forall bumped, done | at <= bumped < done < |trace| && trace[bumped] == BumpEpoch :: trace[done] != Cleared
  }

  ghost predicate ValidatedBy(c: Config, trace: seq<Event>, reader: Reader, now: int, at: nat)
    requires IsTrace(c, trace)
  {
    && at < |trace| && trace[at].Revalidate? && trace[at].now == now
    && IsTrace(c, trace[..at]) && Fresh(c, After(c, trace[..at]).keys, reader, now, trace[at].providerNow)
  }

  ghost predicate CallInv(c: Config, trace: seq<Event>, epoch: nat, call: Call)
    requires IsTrace(c, trace)
  {
    match call.phase
    case Got(reader, parsedAt) => ParsedFor(c, trace, call.cacheKey, reader, parsedAt)
    case Flying(e) => e <= epoch
    case FlightGot(e, reader, parsedAt) => e <= epoch && ParsedFor(c, trace, call.cacheKey, reader, parsedAt)
    case Parsing(e) => e <= epoch
    case Parsed(e, reader, parsedAt) =>
      && e <= epoch && ParsedFor(c, trace, call.cacheKey, reader, parsedAt)
      && (e == epoch ==> NoBumpSince(trace, parsedAt))
    case Hit(reader, parsedAt, now, at) =>
      ParsedFor(c, trace, call.cacheKey, reader, parsedAt) && ValidatedBy(c, trace, reader, now, at)
    case Loaded(reader, parsedAt) => ParsedFor(c, trace, call.cacheKey, reader, parsedAt)
    case _ => true
  }

  /** A call that joined a flight has the flight's cache key. */
  ghost predicate JoinsMatch(calls: map<nat, Call>) {
    forall id | id in calls && calls[id].phase.Joined? ::
      calls[id].phase.other in calls && calls[calls[id].phase.other].cacheKey == calls[id].cacheKey
  }

  ghost predicate EntryInv(c: Config, trace: seq<Event>, k: CacheKey, entry: Entry)
    requires IsTrace(c, trace)
  {
    ParsedFor(c, trace, k, entry.reader, entry.parsedAt) && NoClearSince(trace, entry.parsedAt)
  }

  ghost predicate Inv(c: Config, trace: seq<Event>)
    requires IsTrace(c, trace)
  {
    var s := After(c, trace);
    && |s.keys| <= c.capacity
    && JoinsMatch(s.calls)
    && (forall k | k in s.cache :: EntryInv(c, trace, k, s.cache[k]))
    && (forall id | id in s.calls :: CallInv(c, trace, s.epoch, s.calls[id]))
  }

  lemma Extend(c: Config, trace: seq<Event>, e: Event)
    requires IsTrace(c, trace) && Enabled(c, After(c, trace), e)
    ensures IsTrace(c, trace + [e])
    ensures After(c, trace + [e]) == Next(c, After(c, trace), e, |trace|)
  {
    hide Enabled, Next;
    assert (trace + [e])[..|trace|] == trace;
  }

  lemma ParsedForExtends(c: Config, trace: seq<Event>, e: Event, k: CacheKey, reader: Reader, at: nat)
    requires IsTrace(c, trace) && IsTrace(c, trace + [e]) && ParsedFor(c, trace, k, reader, at)
    ensures ParsedFor(c, trace + [e], k, reader, at)
  {
    hide IsTrace, After;
    assert (trace + [e])[..at] == trace[..at];
  }

  lemma CallExtends(c: Config, trace: seq<Event>, e: Event, epoch: nat, call: Call)
    requires IsTrace(c, trace) && IsTrace(c, trace + [e]) && CallInv(c, trace, epoch, call)
    ensures e != BumpEpoch ==> CallInv(c, trace + [e], epoch, call)
    ensures CallInv(c, trace + [e], epoch + 1, call)
  {
    hide IsTrace, After, Fresh, ParsedFor;
    var k := call.cacheKey;
    match call.phase {
      case Got(reader, at) => ParsedForExtends(c, trace, e, k, reader, at);
      case FlightGot(_, reader, at) => ParsedForExtends(c, trace, e, k, reader, at);
      case Parsed(_, reader, at) => ParsedForExtends(c, trace, e, k, reader, at);
      case Loaded(reader, at) => ParsedForExtends(c, trace, e, k, reader, at);
      case Hit(reader, parsedAt, _, at) =>
        ParsedForExtends(c, trace, e, k, reader, parsedAt);
        assert (trace + [e])[..at] == trace[..at];
      case _ =>
    }
  }

  /** Cache keys of calls never change. */
  lemma KeyStays(c: Config, s: State, e: Event, n: nat, id: nat)
    requires Enabled(c, s, e) && id in s.calls
    ensures id in Next(c, s, e, n).calls && Next(c, s, e, n).calls[id].cacheKey == s.calls[id].cacheKey
  {
    hide Fresh, Parses, Prepend;
  }

  /** A joined call has just joined a call with its key, or had joined before. */
  lemma JoinOrigin(c: Config, s: State, e: Event, n: nat, id: nat)
    requires Enabled(c, s, e) && id in Next(c, s, e, n).calls && Next(c, s, e, n).calls[id].phase.Joined?
    ensures var call := Next(c, s, e, n).calls[id];
            || (id in s.calls && s.calls[id] == call)
            || (call.phase.other in s.calls && s.calls[call.phase.other].cacheKey == call.cacheKey)
  {
    hide Fresh, Parses, Prepend;
  }

  lemma JoinStep(c: Config, s: State, e: Event, n: nat)
    requires Enabled(c, s, e) && JoinsMatch(s.calls)
    ensures JoinsMatch(Next(c, s, e, n).calls)
  {
    hide Enabled, Next;
    var calls := Next(c, s, e, n).calls;
    forall id | id in calls && calls[id].phase.Joined?
      ensures calls[id].phase.other in calls && calls[calls[id].phase.other].cacheKey == calls[id].cacheKey
    {
      JoinOrigin(c, s, e, n, id);
      KeyStays(c, s, e, n, calls[id].phase.other);
    }
  }

  /** What one event does to the call it belongs to. */
  lemma OwnCallStep(c: Config, trace: seq<Event>, e: Event, id: nat)
    requires IsTrace(c, trace) && Inv(c, trace) && Enabled(c, After(c, trace), e) && IsTrace(c, trace + [e])
    requires var s, s' := After(c, trace), Next(c, After(c, trace), e, |trace|);
             id in s'.calls && (id !in s.calls || s'.calls[id] != s.calls[id])
    ensures var s' := Next(c, After(c, trace), e, |trace|); CallInv(c, trace + [e], s'.epoch, s'.calls[id])
  {
    hide IsTrace, After, Fresh, Parses, ParsedFor;
    var s := After(c, trace);
    if e.Receive? {
      CallExtends(c, trace, e, s.epoch, s.calls[s.calls[id].phase.other]);
    } else if e.Parse? {
      ParseStep(c, trace, e);
    } else if id in s.calls {
      OtherOwnStep(c, trace, e, id);
    }
  }

  lemma ParseStep(c: Config, trace: seq<Event>, e: Event)
    requires IsTrace(c, trace) && Enabled(c, After(c, trace), e) && IsTrace(c, trace + [e]) && e.Parse?
    ensures ParsedFor(c, trace + [e], After(c, trace).calls[e.id].cacheKey, e.reader, |trace|)
    ensures NoBumpSince(trace + [e], |trace|)
  {
    hide IsTrace, After;
    assert (trace + [e])[..|trace|] == trace;
  }

  lemma OtherOwnStep(c: Config, trace: seq<Event>, e: Event, id: nat)
    requires IsTrace(c, trace) && Inv(c, trace) && Enabled(c, After(c, trace), e) && IsTrace(c, trace + [e])
    requires !e.Receive? && !e.Parse? && id in After(c, trace).calls && id in Next(c, After(c, trace), e, |trace|).calls
    requires Next(c, After(c, trace), e, |trace|).calls[id] != After(c, trace).calls[id]
    ensures var s' := Next(c, After(c, trace), e, |trace|); CallInv(c, trace + [e], s'.epoch, s'.calls[id])
  {
    hide IsTrace, After, Fresh, Parses, ParsedFor, Prepend, NoClearSince, JoinsMatch;
    var s := After(c, trace);
    var call := s.calls[id];
    assert (trace + [e])[..|trace|] == trace;
    CallExtends(c, trace, e, s.epoch, call);
    if e.Get? && call.cacheKey in s.cache {
      var entry := s.cache[call.cacheKey];
      ParsedForExtends(c, trace, e, call.cacheKey, entry.reader, entry.parsedAt);
    }
  }

  /** Where an entry that is in the cache after an event comes from: it was there before, or a load that
      began in the current epoch stores it. */
  lemma EntryOrigin(c: Config, s: State, e: Event, n: nat, k: CacheKey)
    requires Enabled(c, s, e) && k in Next(c, s, e, n).cache
    ensures var entry := Next(c, s, e, n).cache[k];
            && e != Cleared
            && ((k in s.cache && s.cache[k] == entry)
                || (e != BumpEpoch && exists id :: id in s.calls && StoredBy(s.calls[id], s.epoch, k, entry)))
  {
    hide Fresh, Parses, Prepend;
    var entry := Next(c, s, e, n).cache[k];
    if !(k in s.cache && s.cache[k] == entry) {
      assert StoredBy(s.calls[e.id], s.epoch, k, entry);
    }
  }

  predicate StoredBy(call: Call, epoch: nat, k: CacheKey, entry: Entry) {
    && call.cacheKey == k && call.phase.Parsed? && call.phase.epoch == epoch
    && entry == Entry(call.phase.reader, call.phase.parsedAt)
  }

  /** What one event does to the cache. */
  lemma CacheStep(c: Config, trace: seq<Event>, e: Event, k: CacheKey)
    requires IsTrace(c, trace) && Inv(c, trace) && Enabled(c, After(c, trace), e) && IsTrace(c, trace + [e])
    requires k in Next(c, After(c, trace), e, |trace|).cache
    ensures EntryInv(c, trace + [e], k, Next(c, After(c, trace), e, |trace|).cache[k])
  {
    hide IsTrace, After, Enabled, Next, ParsedFor;
    var s := After(c, trace);
    EntryOrigin(c, s, e, |trace|, k);
    var entry := Next(c, s, e, |trace|).cache[k];
    if k !in s.cache || s.cache[k] != entry {
      var id :| id in s.calls && StoredBy(s.calls[id], s.epoch, k, entry);
      assert CallInv(c, trace, s.epoch, s.calls[id]);
    }
    ParsedForExtends(c, trace, e, k, entry.reader, entry.parsedAt);
  }

  lemma EpochStep(c: Config, s: State, e: Event, n: nat)
    requires Enabled(c, s, e) && |s.keys| <= c.capacity
    ensures var s' := Next(c, s, e, n);
            && |s'.keys| <= c.capacity
            && s'.epoch == if e.BumpEpoch? then s.epoch + 1 else s.epoch
  {
    hide Fresh, Parses;
  }

  lemma StepKeepsInv(c: Config, trace: seq<Event>, e: Event)
    requires IsTrace(c, trace) && Inv(c, trace) && Enabled(c, After(c, trace), e)
    ensures IsTrace(c, trace + [e]) && Inv(c, trace + [e])
  {
    Extend(c, trace, e);
    EpochStep(c, After(c, trace), e, |trace|);
    JoinStep(c, After(c, trace), e, |trace|);
    hide IsTrace, After, EntryInv, CallInv, Enabled, Next, JoinsMatch;
    var s, s' := After(c, trace), After(c, trace + [e]);
    forall k | k in s'.cache ensures EntryInv(c, trace + [e], k, s'.cache[k]) {
      CacheStep(c, trace, e, k);
    }
    forall id | id in s'.calls ensures CallInv(c, trace + [e], s'.epoch, s'.calls[id]) {
      if id in s.calls && s'.calls[id] == s.calls[id] {
        CallExtends(c, trace, e, s.epoch, s.calls[id]);
      } else {
        OwnCallStep(c, trace, e, id);
      }
    }
  }

  lemma {:induction false} TraceKeepsInv(c: Config, trace: seq<Event>)
    requires IsTrace(c, trace)
    ensures Inv(c, trace)
  {
    hide Enabled, Next;
    if trace != [] {
      var init, e := trace[..|trace| - 1], trace[|trace| - 1];
      assert trace == init + [e];
      TraceKeepsInv(c, init);
      StepKeepsInv(c, init, e);
    }
  }

  /** Whatever parse calls are in flight: after a successful clear, every entry in the cache comes from
      a parse later than that clear's epoch bump, and so later than every rotation before it. */
  lemma EntriesAreNewerThanClears(c: Config, trace: seq<Event>, bumped: nat, done: nat, k: CacheKey)
    requires IsTrace(c, trace) && bumped < done < |trace| && trace[bumped] == BumpEpoch && trace[done] == Cleared
    requires k in After(c, trace).cache
    ensures var entry := After(c, trace).cache[k];
            bumped < entry.parsedAt && ParsedFor(c, trace, k, entry.reader, entry.parsedAt)
  {
    hide IsTrace, After, ParsedFor;
    TraceKeepsInv(c, trace);
    assert EntryInv(c, trace, k, After(c, trace).cache[k]);
  }

  /** A caller only ever gets a reader that was parsed for its own cache key, by itself or by another
      call, with a key that the ring resolved then. */
  lemma ReadersAreTheirOwn(c: Config, trace: seq<Event>, id: nat)
    requires IsTrace(c, trace) && id in After(c, trace).calls
    requires After(c, trace).calls[id].phase.Hit? || After(c, trace).calls[id].phase.Loaded?
    ensures var call := After(c, trace).calls[id];
            ParsedFor(c, trace, call.cacheKey, call.phase.reader, call.phase.parsedAt)
  {
    hide IsTrace, After, ParsedFor;
    TraceKeepsInv(c, trace);
    assert CallInv(c, trace, After(c, trace).epoch, After(c, trace).calls[id]);
  }

  /** A warm hit was revalidated: at that event the ring's lookup returned a live key of the right
      algorithm for its id. */
  lemma WarmHitsAreFresh(c: Config, trace: seq<Event>, id: nat)
    requires IsTrace(c, trace) && id in After(c, trace).calls && After(c, trace).calls[id].phase.Hit?
    ensures var hit := After(c, trace).calls[id].phase;
            && hit.at < |trace| && trace[hit.at].Revalidate? && IsTrace(c, trace[..hit.at])
            && var key := Find(After(c, trace[..hit.at]).keys, hit.reader.kid, trace[hit.at].providerNow);
            && key.Ok? && key.value.algorithm == c.algorithm == hit.reader.algorithm
            && !key.value.Expired(hit.now) && !hit.reader.IsExpired(hit.now)
  {
    hide IsTrace, After;
    TraceKeepsInv(c, trace);
    assert CallInv(c, trace, After(c, trace).epoch, After(c, trace).calls[id]);
  }

  /** The ring never grows beyond its capacity. */
  lemma RingIsBounded(c: Config, trace: seq<Event>)
    requires IsTrace(c, trace)
    ensures |After(c, trace).keys| <= c.capacity
  {
    TraceKeepsInv(c, trace);
  }
}
