/** The calls of a caching JWT provider (jwt/cached_provider.go), shown to be runs of the reader cache's
    state machine. Other callers may move between any two accesses to shared state, in any way. What a
    call itself meets is given: errors of the backend, cancellations, clocks, and what the token holds. */
module CachedProvider {
  import opened Wrappers
  import opened KeyRing
  import opened ReaderCache

  /** The call an event belongs to. */
  function Owner(e: Event): Option<nat> {
    match e
    case Rotate(_) => None
    case BumpEpoch => None
    case Cleared => None
    case ClearFails(_) => None
    case Evict(_) => None
    case Begin(id, _) => Some(id)
    case Get(id) => Some(id)
    case Revalidate(id, _, _) => Some(id)
    case LoadEpoch(id) => Some(id)
    case Join(id, _) => Some(id)
    case Receive(id) => Some(id)
    case Retry(id) => Some(id)
    case Parse(id, _, _) => Some(id)
    case Set(id) => Some(id)
    case SetFails(id, _) => Some(id)
    case Uncached(id) => Some(id)
    case Abort(id) => Some(id)
  }

  /** What others may do while a call is at some point and perhaps holds the mutex. */
  predicate Foreign(e: Event, id: Option<nat>, holdsLock: bool) {
    (id.Some? ==> Owner(e) != id) && (holdsLock ==> !e.Cleared? && !e.ClearFails?)
  }

  lemma ForeignKeeps(c: Config, s: State, e: Event, n: nat, id: Option<nat>, holdsLock: bool)
    requires Enabled(c, s, e) && Foreign(e, id, holdsLock)
    ensures var s' := Next(c, s, e, n);
            && (id.Some? && id.value in s.calls ==> id.value in s'.calls && s'.calls[id.value] == s.calls[id.value])
            && (holdsLock && s.locked ==> s'.locked)
            && s.epoch <= s'.epoch
  {
    hide Fresh, Parses, Prepend;
  }

  /** An event of the trace, with the state it met. */
  datatype Sight = Sight(at: nat, event: Event, state: State)

  ghost predicate Saw(c: Config, trace: seq<Event>, g: Sight) {
    && g.at < |trace| && trace[g.at] == g.event
    && IsTrace(c, trace[..g.at]) && After(c, trace[..g.at]) == g.state
  }

  /** What happened stays as it was. */
  lemma SawStays(c: Config, trace: seq<Event>, longer: seq<Event>, g: Sight)
    requires Saw(c, trace, g) && trace <= longer
    ensures Saw(c, longer, g) && g.at < |trace|
  {
    hide IsTrace, After;
    assert longer[..g.at] == trace[..g.at];
  }

  // ---- What a call meets ----

  /** On revalidating: a cancelled context, the clocks of the cache and of the provider, and whether
      deleting a stale entry fails. */
  datatype Check = Check(cancelled: bool, now: int, providerNow: int, deleteFails: bool)

  /** On parsing: what the token holds, if it can be verified, the provider's clock, whether the time to
      live can be computed and is positive, and how storing turns out. */
  datatype Fetch = Fetch(token: Reader, parseFails: bool, now: int, ttlFails: bool, cacheable: bool,
                         setFails: bool, stored: bool)

  /** In a flight the call leads. */
  datatype Lead = Lead(cancelled: bool, getFails: bool, check: Check, fetch: Fetch)

  /** One round of the loop: the flight of another call is joined if there is one for the same cache key,
      and perhaps not waited for; else the call leads. */
  datatype Attempt = Attempt(joins: Option<nat>, gaveUp: bool, lead: Lead)

  /** A call goes on to the next attempt when one fails and another is left: the flight was cancelled by
      the caller that led it. */
  datatype Outcomes = Outcomes(getFails: bool, check: Check, first: Attempt, more: seq<Attempt>)

  /** The accesses of a flight: the epoch, the second look, its revalidation, parsing, and storing. */
  datatype FlightView = FlightView(epoch: Sight, get: Sight, check: Sight, parse: Sight, store: Sight)

  datatype AttemptView = Waited(join: Sight, wait: Sight) | Led(flight: FlightView)

  /** The accesses of a whole call: the first look, its revalidation, and one view per attempt made. */
  datatype View = View(get: Sight, check: Sight, attempts: seq<AttemptView>)

  /** Cache, epoch and key ring as all callers share them, with everything that happened so far. */
  class World {
    const c: Config
    var state: State
    var events: nat
    ghost var trace: seq<Event>

    constructor (c: Config)
      ensures Valid() && this.c == c && state == INITIAL
    {
      this.c := c;
      state := INITIAL;
      events := 0;
      trace := [];
    }

    ghost predicate Valid()
      reads this
    {
      IsTrace(c, trace) && state == After(c, trace) && events == |trace|
    }

    method Do(e: Event)
      requires Valid() && Enabled(c, state, e)
      modifies this
      ensures Valid() && trace == old(trace) + [e]
      ensures state == Next(c, old(state), e, |old(trace)|)
    {
      hide Enabled, Next;
      Extend(c, trace, e);
      state := Next(c, state, e, events);
      events := events + 1;
      trace := trace + [e];
    }

    /** Does an event and notes the state it met. */
    method DoSeen(e: Event) returns (ghost g: Sight)
      requires Valid() && Enabled(c, state, e)
      modifies this
      ensures Valid() && trace == old(trace) + [e]
      ensures state == Next(c, old(state), e, |old(trace)|)
      ensures Saw(c, trace, g) && g == Sight(|old(trace)|, e, old(state))
    {
      hide Enabled, Next, IsTrace, After;
      g := Sight(|trace|, e, state);
      Do(e);
      assert trace[..g.at] == old(trace);
    }

    /** Whatever other callers do before the next access. */
    method Others(id: Option<nat>, holdsLock: bool)
      requires Valid() && (id.Some? ==> id.value in state.calls) && (holdsLock ==> state.locked)
      modifies this
      ensures Valid() && old(trace) <= trace && (holdsLock ==> state.locked) && old(state.epoch) <= state.epoch
      ensures id.Some? ==> id.value in state.calls && state.calls[id.value] == old(state.calls[id.value])
    {
      hide Enabled, Next, IsTrace, After, Foreign;
      var steps: int := *;
      while steps > 0
        invariant Valid() && old(trace) <= trace && (holdsLock ==> state.locked) && old(state.epoch) <= state.epoch
        invariant id.Some? ==> id.value in state.calls && state.calls[id.value] == old(state.calls[id.value])
      {
        var e: Event := *;
        if Enabled(c, state, e) && Foreign(e, id, holdsLock) {
          ForeignKeeps(c, state, e, |trace|, id, holdsLock);
          Do(e);
        }
        steps := steps - 1;
      }
    }

    /** Waits for the mutex: a clear that holds it comes to an end, one way or the other. */
    method AwaitLock(id: Option<nat>)
      requires Valid() && (id.Some? ==> id.value in state.calls)
      modifies this
      ensures Valid() && old(trace) <= trace && !state.locked && old(state.epoch) <= state.epoch
      ensures id.Some? ==> id.value in state.calls && state.calls[id.value] == old(state.calls[id.value])
    {
      hide IsTrace, After;
      Others(id, false);
      if state.locked {
        var fails: bool, remaining: set<CacheKey> := *, *;
        Do(if fails then ClearFails(remaining) else Cleared);
      }
    }
  }

  ghost predicate IsAt(w: World, id: nat, phase: Phase)
    reads w
  {
    w.Valid() && id in w.state.calls && w.state.calls[id].phase == phase
  }

  /** Bumps the epoch and empties the backend under the mutex. After a success every entry was parsed
      after this call began. */
  method ClearCache(w: World, fails: bool, remaining: set<CacheKey>) returns (ok: bool)
    requires w.Valid()
    modifies w
    ensures w.Valid() && old(w.trace) <= w.trace && old(w.state.epoch) < w.state.epoch
    ensures ok <==> !fails
    ensures ok ==> forall k | k in w.state.cache :: |old(w.trace)| <= w.state.cache[k].parsedAt
  {
    hide IsTrace, After;
    w.AwaitLock(None);
    ghost var bumped := |w.trace|;
    w.Do(BumpEpoch);
    w.Others(None, true);
    if fails {
      w.Do(ClearFails(remaining));
      return false;
    }
    ghost var done := |w.trace|;
    w.Do(Cleared);
    w.Others(None, false);
    forall k | k in w.state.cache ensures bumped < w.state.cache[k].parsedAt {
      EntriesAreNewerThanClears(w.c, w.trace, bumped, done, k);
    }
    ok := true;
  }

  /** Rotates and clears: after a success every entry was parsed after the new key was in the ring. */
  method ForcedRotate(w: World, created: Option<Key>, fails: bool, remaining: set<CacheKey>)
    returns (ok: bool, ghost rotated: nat)
    requires w.Valid()
    modifies w
    ensures w.Valid() && old(w.trace) <= w.trace
    ensures ok <==> created.Some? && !fails
    ensures created.None? ==> w.trace == old(w.trace)
    ensures created.Some? ==> |old(w.trace)| <= rotated < |w.trace| && w.trace[rotated] == Rotate(created.value)
    ensures ok ==> forall k | k in w.state.cache :: rotated < w.state.cache[k].parsedAt
  {
    hide IsTrace, After;
    rotated := 0;
    if created.None? {
      return false, 0;
    }
    w.Others(None, false);
    rotated := |w.trace|;
    w.Do(Rotate(created.value));
    ok := ClearCache(w, fails, remaining);
  }

  /** The reader a call ended with, if it ended well. */
  function ResultOf(phase: Phase): Option<Reader> {
    if phase.Hit? || phase.Loaded? then Some(phase.reader) else None
  }

  /** Revalidation ends well, finds the entry stale and deletes it, or is an error. */
  datatype Verdict = Valid | Stale | Error

  function VerdictOn(c: Config, k: Check, reader: Reader, s: State): Verdict {
    if k.cancelled then Error
    else if Fresh(c, s.keys, reader, k.now, k.providerNow) then Valid
    else if k.deleteFails then Error
    else Stale
  }

  /** Revalidates what was found in the cache; a stale entry is deleted and the call goes on. */
  method RevalidateCached(w: World, id: nat, k: Check) returns (r: Option<Reader>, ghost g: Sight)
    requires w.Valid() && id in w.state.calls && (w.state.calls[id].phase.Got? || w.state.calls[id].phase.FlightGot?)
    modifies w
    ensures w.Valid() && old(w.trace) <= w.trace && id in w.state.calls
    ensures w.state.calls[id].cacheKey == old(w.state.calls[id].cacheKey)
    ensures |old(w.trace)| <= g.at && Saw(w.c, w.trace, g)
    ensures var before, after := old(w.state.calls[id].phase), w.state.calls[id].phase;
            && r == ResultOf(after)
            && match VerdictOn(w.c, k, before.reader, g.state) {
                 case Valid => after == Hit(before.reader, before.parsedAt, k.now, g.at)
                 case Error => after == Failed
                 case Stale =>
                   && after == (if before.Got? then Loading else Parsing(before.epoch))
                   && w.state.cache == g.state.cache - {w.state.calls[id].cacheKey}
               }
  {
    hide IsTrace, After, Fresh, Parses, Prepend, Saw;
    w.Others(Some(id), false);
    var reader := w.state.calls[id].phase.reader;
    if k.cancelled || (k.deleteFails && !Fresh(w.c, w.state.keys, reader, k.now, k.providerNow)) {
      g := w.DoSeen(Abort(id));
      return None, g;
    }
    g := w.DoSeen(Revalidate(id, k.now, k.providerNow));
    r := ResultOf(w.state.calls[id].phase);
  }

  /** Parsing gives a reader: the token can be verified, with a key the ring resolves. */
  predicate Fetches(c: Config, f: Fetch, s: State) {
    !f.parseFails && !f.ttlFails && Parses(c, s.keys, f.token, f.now)
  }

  /** The cache after a load that saw `epoch` before and stores in state `s`, and what the load returns. */
  function StoredIn(f: Fetch, k: CacheKey, epoch: nat, parsedAt: nat, s: State)
    : (map<CacheKey, Entry>, Option<Reader>)
  {
    if !f.cacheable || s.epoch != epoch then (s.cache, Some(f.token))
    else if f.setFails then (if f.stored then s.cache[k := Entry(f.token, parsedAt)] else s.cache, None)
    else (s.cache[k := Entry(f.token, parsedAt)], Some(f.token))
  }

  /** Parses the token and stores the reader if the epoch is still the one seen before. */
  method Load(w: World, id: nat, f: Fetch) returns (r: Option<Reader>, ghost parse: Sight, ghost store: Sight)
    requires w.Valid() && id in w.state.calls && w.state.calls[id].phase.Parsing?
    modifies w
    ensures w.Valid() && old(w.trace) <= w.trace && id in w.state.calls
    ensures w.state.calls[id].cacheKey == old(w.state.calls[id].cacheKey)
    ensures |old(w.trace)| <= parse.at && Saw(w.c, w.trace, parse)
    ensures r == ResultOf(w.state.calls[id].phase)
    ensures if Fetches(w.c, f, parse.state) then
              var k, epoch := w.state.calls[id].cacheKey, old(w.state.calls[id].phase.epoch);
              && parse.event == Parse(id, f.now, f.token) && Saw(w.c, w.trace, store) && parse.at < store.at
              && (w.state.cache, r) == StoredIn(f, k, epoch, parse.at, store.state)
              && w.state.calls[id].phase == if r.Some? then Loaded(f.token, parse.at) else Failed
            else w.state.calls[id].phase == Failed
  {
    hide IsTrace, After, Fresh, Parses, Prepend, Saw;
    w.Others(Some(id), false);
    if !Fetches(w.c, f, w.state) {
      parse := w.DoSeen(Abort(id));
      return None, parse, parse;
    }
    parse := w.DoSeen(Parse(id, f.now, f.token));
    ghost var parsed := w.trace;
    w.AwaitLock(Some(id));
    if !f.cacheable {
      store := w.DoSeen(Uncached(id));
    } else if f.setFails && w.state.epoch == w.state.calls[id].phase.epoch {
      store := w.DoSeen(SetFails(id, f.stored));
    } else {
      store := w.DoSeen(Set(id));
    }
    SawStays(w.c, parsed, w.trace, parse);
    r := ResultOf(w.state.calls[id].phase);
  }

  /** What a flight that saw these states returns. */
  function FlightResult(c: Config, o: Lead, k: CacheKey, v: FlightView): Option<Reader> {
    if o.cancelled || o.getFails then None
    else if k in v.get.state.cache then
      match VerdictOn(c, o.check, v.get.state.cache[k].reader, v.check.state)
      case Valid => Some(v.get.state.cache[k].reader)
      case Error => None
      case Stale => LoadResult(c, o, k, v)
    else LoadResult(c, o, k, v)
  }

  function LoadResult(c: Config, o: Lead, k: CacheKey, v: FlightView): Option<Reader> {
    if Fetches(c, o.fetch, v.parse.state)
    then StoredIn(o.fetch, k, v.epoch.state.epoch, v.parse.at, v.store.state).1 else None
  }

  /** The flight parses: it is not cancelled, and neither it nor the entry it finds gives a reader first. */
  predicate Goes(c: Config, o: Lead, k: CacheKey, v: FlightView) {
    && !o.cancelled && !o.getFails
    && (k in v.get.state.cache ==> VerdictOn(c, o.check, v.get.state.cache[k].reader, v.check.state).Stale?)
  }

  /** These are the accesses of the flight of call `id`, as far as it gets. */
  ghost predicate FlightSaw(c: Config, trace: seq<Event>, id: nat, o: Lead, k: CacheKey, v: FlightView) {
    && Saw(c, trace, v.epoch) && v.epoch.event == LoadEpoch(id)
    && (!o.cancelled && !o.getFails ==>
          && Saw(c, trace, v.get) && v.get.event == Get(id) && v.epoch.at < v.get.at
          && (k in v.get.state.cache ==> Saw(c, trace, v.check) && v.get.at < v.check.at))
    && (Goes(c, o, k, v) ==>
          && Saw(c, trace, v.parse) && v.get.at < v.parse.at
          && (Fetches(c, o.fetch, v.parse.state) ==>
                && v.parse.event == Parse(id, o.fetch.now, o.fetch.token)
                && Saw(c, trace, v.store) && v.parse.at < v.store.at))
  }

  lemma FlightSawStays(c: Config, trace: seq<Event>, longer: seq<Event>, id: nat, o: Lead, k: CacheKey, v: FlightView)
    requires FlightSaw(c, trace, id, o, k, v) && trace <= longer
    ensures FlightSaw(c, longer, id, o, k, v)
  {
    hide Saw, VerdictOn, Fetches;
    forall g | g in {v.epoch, v.get, v.check, v.parse, v.store} && Saw(c, trace, g) ensures Saw(c, longer, g) {
      SawStays(c, trace, longer, g);
    }
  }

  /** The cache after a flight that parsed. */
  ghost predicate FlightStored(c: Config, o: Lead, k: CacheKey, v: FlightView, cache: map<CacheKey, Entry>) {
    Goes(c, o, k, v) && Fetches(c, o.fetch, v.parse.state) ==>
      cache == StoredIn(o.fetch, k, v.epoch.state.epoch, v.parse.at, v.store.state).0
  }

  /** A flight: note the epoch, look again, else parse and store under that epoch. */
  method Flight(w: World, id: nat, o: Lead) returns (r: Option<Reader>, ghost v: FlightView)
    requires IsAt(w, id, Loading)
    modifies w
    ensures w.Valid() && old(w.trace) <= w.trace && id in w.state.calls && Finished(w.state.calls[id].phase)
    ensures w.state.calls[id].cacheKey == old(w.state.calls[id].cacheKey)
    ensures r == ResultOf(w.state.calls[id].phase)
    ensures FlightSaw(w.c, w.trace, id, o, w.state.calls[id].cacheKey, v) && v.epoch.state == old(w.state)
    ensures r == FlightResult(w.c, o, w.state.calls[id].cacheKey, v)
    ensures FlightStored(w.c, o, w.state.calls[id].cacheKey, v, w.state.cache)
  {
    hide IsTrace, After, Fresh, Parses, Prepend, Saw, VerdictOn, Fetches, StoredIn;
    ghost var g := w.DoSeen(LoadEpoch(id));
    v := FlightView(g, g, g, g, g);
    ghost var began := w.trace;
    w.Others(Some(id), false);
    if o.cancelled || o.getFails {
      w.Do(Abort(id));
      SawStays(w.c, began, w.trace, v.epoch);
      return None, v;
    }
    g := w.DoSeen(Get(id));
    SawStays(w.c, began, w.trace, v.epoch);
    v := v.(get := g);
    ghost var looked := w.trace;
    if w.state.calls[id].phase.FlightGot? {
      r, g := RevalidateCached(w, id, o.check);
      v := v.(check := g);
      SawStays(w.c, looked, w.trace, v.epoch);
      SawStays(w.c, looked, w.trace, v.get);
      if Finished(w.state.calls[id].phase) {
        return;
      }
    }
    r, v := EndFlight(w, id, o, v);
  }

  /** The rest of a flight that found nothing. */
  method EndFlight(w: World, id: nat, o: Lead, ghost sofar: FlightView) returns (r: Option<Reader>, ghost v: FlightView)
    requires IsAt(w, id, Parsing(sofar.epoch.state.epoch)) && Goes(w.c, o, w.state.calls[id].cacheKey, sofar)
    requires Saw(w.c, w.trace, sofar.epoch) && sofar.epoch.event == LoadEpoch(id)
    requires Saw(w.c, w.trace, sofar.get) && sofar.get.event == Get(id) && sofar.epoch.at < sofar.get.at
    requires w.state.calls[id].cacheKey in sofar.get.state.cache ==>
      Saw(w.c, w.trace, sofar.check) && sofar.get.at < sofar.check.at
    modifies w
    ensures w.Valid() && old(w.trace) <= w.trace && id in w.state.calls && Finished(w.state.calls[id].phase)
    ensures w.state.calls[id].cacheKey == old(w.state.calls[id].cacheKey)
    ensures r == ResultOf(w.state.calls[id].phase)
    ensures v == sofar.(parse := v.parse, store := v.store)
    ensures FlightSaw(w.c, w.trace, id, o, w.state.calls[id].cacheKey, v)
    ensures r == LoadResult(w.c, o, w.state.calls[id].cacheKey, v)
    ensures FlightStored(w.c, o, w.state.calls[id].cacheKey, v, w.state.cache)
  {
    hide IsTrace, After, Fresh, Parses, Prepend, Saw, VerdictOn, Fetches, StoredIn;
    ghost var began := w.trace;
    ghost var parse, store;
    r, parse, store := Load(w, id, o.fetch);
    v := sofar.(parse := parse, store := store);
    SawStays(w.c, began, w.trace, sofar.epoch);
    SawStays(w.c, began, w.trace, sofar.get);
    if Saw(w.c, began, sofar.check) {
      SawStays(w.c, began, w.trace, sofar.check);
    }
  }

  /** Waits for the flight of another call with the same cache key, or gives up. */
  method Wait(w: World, id: nat, gaveUp: bool) returns (r: Option<Reader>, ghost g: Sight)
    requires w.Valid() && id in w.state.calls && w.state.calls[id].phase.Joined?
    modifies w
    ensures w.Valid() && old(w.trace) <= w.trace && id in w.state.calls && Finished(w.state.calls[id].phase)
    ensures w.state.calls[id].cacheKey == old(w.state.calls[id].cacheKey)
    ensures r == ResultOf(w.state.calls[id].phase)
    ensures |old(w.trace)| <= g.at && Saw(w.c, w.trace, g)
    ensures r == WaitResult(old(w.state.calls[id].phase.other), gaveUp, g.state)
  {
    hide IsTrace, After, Fresh, Parses, Prepend, Saw;
    w.Others(Some(id), false);
    g := w.DoSeen(if !gaveUp && Enabled(w.c, w.state, Receive(id)) then Receive(id) else Abort(id));
    r := ResultOf(w.state.calls[id].phase);
  }

  /** What a call gets that waits for call `other`: its result, once it has one. */
  function WaitResult(other: nat, gaveUp: bool, s: State): Option<Reader> {
    if !gaveUp && other in s.calls && Finished(s.calls[other].phase) then ResultOf(s.calls[other].phase) else None
  }

  /** What one attempt met and what it returns. It leads exactly if there is no flight it can join. */
  ghost predicate AttemptGives(c: Config, trace: seq<Event>, id: nat, k: CacheKey, a: Attempt, v: AttemptView,
                               r: Option<Reader>) {
    match v
    case Waited(join, wait) =>
      && a.joins.Some? && Saw(c, trace, join) && join.event == Join(id, a.joins.value)
      && Saw(c, trace, wait) && join.at < wait.at && r == WaitResult(a.joins.value, a.gaveUp, wait.state)
    case Led(flight) =>
      && (a.joins.Some? ==> !Enabled(c, flight.epoch.state, Join(id, a.joins.value)))
      && FlightSaw(c, trace, id, a.lead, k, flight) && r == FlightResult(c, a.lead, k, flight)
  }

  lemma AttemptStays(c: Config, trace: seq<Event>, longer: seq<Event>, id: nat, k: CacheKey, a: Attempt, v: AttemptView,
                     r: Option<Reader>)
    requires AttemptGives(c, trace, id, k, a, v, r) && trace <= longer
    ensures AttemptGives(c, longer, id, k, a, v, r)
  {
    hide Saw, FlightSaw, FlightResult, Enabled;
    match v {
      case Waited(join, wait) =>
        SawStays(c, trace, longer, join);
        SawStays(c, trace, longer, wait);
      case Led(flight) => FlightSawStays(c, trace, longer, id, a.lead, k, flight);
    }
  }

  /** Joins the flight of another call for the same cache key, or leads one. */
  method TryOnce(w: World, id: nat, a: Attempt) returns (r: Option<Reader>, ghost v: AttemptView)
    requires IsAt(w, id, Loading)
    modifies w
    ensures w.Valid() && old(w.trace) <= w.trace && id in w.state.calls && Finished(w.state.calls[id].phase)
    ensures w.state.calls[id].cacheKey == old(w.state.calls[id].cacheKey)
    ensures r == ResultOf(w.state.calls[id].phase)
    ensures AttemptGives(w.c, w.trace, id, w.state.calls[id].cacheKey, a, v, r)
    ensures v.Led? ==> FlightStored(w.c, a.lead, w.state.calls[id].cacheKey, v.flight, w.state.cache)
  {
    hide IsTrace, After, Fresh, Parses, Prepend, Saw, FlightSaw, FlightResult, FlightStored;
    w.Others(Some(id), false);
    if a.joins.Some? && Enabled(w.c, w.state, Join(id, a.joins.value)) {
      ghost var join := w.DoSeen(Join(id, a.joins.value));
      ghost var joined, wait := w.trace, join;
      r, wait := Wait(w, id, a.gaveUp);
      SawStays(w.c, joined, w.trace, join);
      v := Waited(join, wait);
    } else {
      ghost var flight;
      r, flight := Flight(w, id, a.lead);
      v := Led(flight);
    }
  }

  /** One view per attempt made; all but the last attempt failed, and the last one gives the result. */
  ghost predicate AttemptsGive(c: Config, trace: seq<Event>, id: nat, k: CacheKey, attempts: seq<Attempt>,
                               views: seq<AttemptView>, r: Option<Reader>) {
    && |views| <= |attempts|
    && forall i | 0 <= i < |views| ::
         AttemptGives(c, trace, id, k, attempts[i], views[i], if i == |views| - 1 then r else None)
  }

  lemma OneMoreAttempt(c: Config, trace: seq<Event>, longer: seq<Event>, id: nat, k: CacheKey, attempts: seq<Attempt>,
                       views: seq<AttemptView>, v: AttemptView, r: Option<Reader>)
    requires trace <= longer && AttemptsGive(c, trace, id, k, attempts, views, None) && |views| < |attempts|
    requires AttemptGives(c, longer, id, k, attempts[|views|], v, r)
    ensures AttemptsGive(c, longer, id, k, attempts, views + [v], r)
  {
    hide AttemptGives;
    var more := views + [v];
    forall i | 0 <= i < |more|
      ensures AttemptGives(c, longer, id, k, attempts[i], more[i], if i == |more| - 1 then r else None)
    {
      if i < |views| {
        AttemptStays(c, trace, longer, id, k, attempts[i], views[i], None);
      }
    }
  }

  /** Leads or joins a flight; a flight cancelled by another caller is tried again. */
  method LoadShared(w: World, id: nat, attempts: seq<Attempt>)
    returns (r: Option<Reader>, ghost views: seq<AttemptView>)
    requires IsAt(w, id, Loading) && attempts != []
    modifies w
    ensures w.Valid() && old(w.trace) <= w.trace && id in w.state.calls && Finished(w.state.calls[id].phase)
    ensures w.state.calls[id].cacheKey == old(w.state.calls[id].cacheKey)
    ensures r == ResultOf(w.state.calls[id].phase)
    ensures views != [] && AttemptsGive(w.c, w.trace, id, w.state.calls[id].cacheKey, attempts, views, r)
    ensures r.None? ==> |views| == |attempts|
    ensures var n := |views| - 1;
            views[n].Led? ==>
              FlightStored(w.c, attempts[n].lead, w.state.calls[id].cacheKey, views[n].flight, w.state.cache)
  {
    hide IsTrace, After, Fresh, Parses, Prepend, Enabled, Next, AttemptGives, AttemptsGive, FlightStored;
    ghost var k := w.state.calls[id].cacheKey;
    var n := 0;
    views := [];
    NoAttempts(w.c, w.trace, id, k, attempts);
    while true
      invariant IsAt(w, id, Loading) && old(w.trace) <= w.trace && w.state.calls[id].cacheKey == k
      invariant |views| == n < |attempts| && AttemptsGive(w.c, w.trace, id, k, attempts, views, None)
      decreases |attempts| - n
    {
      ghost var before := w.trace;
      ghost var v;
      r, v := TryOnce(w, id, attempts[n]);
      OneMoreAttempt(w.c, before, w.trace, id, k, attempts, views, v, r);
      views := views + [v];
      n := n + 1;
      if r.Some? || n == |attempts| {
        return;
      }
      Again(w, id, attempts, views);
    }
  }

  method Again(w: World, id: nat, ghost attempts: seq<Attempt>, ghost views: seq<AttemptView>)
    requires IsAt(w, id, Failed) && AttemptsGive(w.c, w.trace, id, w.state.calls[id].cacheKey, attempts, views, None)
    modifies w
    ensures old(w.trace) <= w.trace && IsAt(w, id, Loading)
    ensures w.state.calls[id].cacheKey == old(w.state.calls[id].cacheKey)
    ensures AttemptsGive(w.c, w.trace, id, w.state.calls[id].cacheKey, attempts, views, None)
  {
    hide IsTrace, After, AttemptGives;
    ghost var before := w.trace;
    w.Do(Retry(id));
    forall i | 0 <= i < |views|
      ensures AttemptGives(w.c, w.trace, id, w.state.calls[id].cacheKey, attempts[i], views[i], None)
    {
      AttemptStays(w.c, before, w.trace, id, w.state.calls[id].cacheKey, attempts[i], views[i], None);
    }
  }

  lemma NoAttempts(c: Config, trace: seq<Event>, id: nat, k: CacheKey, attempts: seq<Attempt>)
    ensures AttemptsGive(c, trace, id, k, attempts, [], None)
  {
  }

  /** What a whole call met and what it returns. */
  ghost predicate CallGives(c: Config, trace: seq<Event>, id: nat, k: CacheKey, o: Outcomes, v: View,
                            r: Option<Reader>) {
    if o.getFails then r == None
    else
      && Saw(c, trace, v.get) && v.get.event == Get(id)
      && var goesOn := v.attempts != [] && AttemptsGive(c, trace, id, k, [o.first] + o.more, v.attempts, r);
      if k in v.get.state.cache then
        && Saw(c, trace, v.check) && v.get.at < v.check.at
        && match VerdictOn(c, o.check, v.get.state.cache[k].reader, v.check.state) {
             case Valid => r == Some(v.get.state.cache[k].reader)
             case Error => r == None
             case Stale => goesOn
           }
      else goesOn
  }

  /** The cache after a call whose last attempt was a flight that parsed. */
  ghost predicate CallStored(c: Config, k: CacheKey, o: Outcomes, v: View, cache: map<CacheKey, Entry>) {
    0 < |v.attempts| <= 1 + |o.more| && v.attempts[|v.attempts| - 1].Led? ==>
      FlightStored(c, ([o.first] + o.more)[|v.attempts| - 1].lead, k, v.attempts[|v.attempts| - 1].flight, cache)
  }

  method Lookup(w: World, id: nat, cacheKey: CacheKey, o: Outcomes) returns (r: Option<Reader>, ghost v: View)
    requires w.Valid() && id !in w.state.calls
    modifies w
    ensures w.Valid() && old(w.trace) <= w.trace && id in w.state.calls && Finished(w.state.calls[id].phase)
    ensures w.state.calls[id].cacheKey == cacheKey
    ensures r == ResultOf(w.state.calls[id].phase)
    ensures CallGives(w.c, w.trace, id, cacheKey, o, v, r)
    ensures CallStored(w.c, cacheKey, o, v, w.state.cache)
  {
    hide IsTrace, After, Fresh, Parses, Prepend, Saw, VerdictOn, AttemptsGive, FlightStored;
    w.Do(Begin(id, cacheKey));
    w.Others(Some(id), false);
    if o.getFails {
      ghost var g := w.DoSeen(Abort(id));
      return None, View(g, g, []);
    }
    ghost var get := w.DoSeen(Get(id));
    ghost var looked, check := w.trace, get;
    v := View(get, check, []);
    if w.state.calls[id].phase.Got? {
      r, check := RevalidateCached(w, id, o.check);
      SawStays(w.c, looked, w.trace, get);
      v := View(get, check, []);
      if Finished(w.state.calls[id].phase) {
        return;
      }
    }
    ghost var checked, views := w.trace, [];
    r, views := LoadShared(w, id, [o.first] + o.more);
    SawStays(w.c, checked, w.trace, get);
    SawStays(w.c, checked, w.trace, check);
    v := View(get, check, views);
  }

  /** Parsing through the cache. A reader that comes back was parsed for this very cache key, at event
      `parsedAt`, with a key that the ring resolved then; a warm hit, at event `hitAt`, was also
      revalidated against the ring. */
  method ParseWithCache(w: World, id: nat, cacheKey: CacheKey, o: Outcomes)
    returns (r: Option<Reader>, ghost parsedAt: nat, ghost hitAt: Option<nat>, ghost v: View)
    requires w.Valid() && id !in w.state.calls
    modifies w
    ensures w.Valid() && old(w.trace) <= w.trace
    ensures r.Some? ==> ParsedFor(w.c, w.trace, cacheKey, r.value, parsedAt)
    ensures r.Some? && hitAt.Some? ==> exists now :: ValidatedBy(w.c, w.trace, r.value, now, hitAt.value)
    ensures r.Some? && hitAt.None? ==> id in w.state.calls && w.state.calls[id].phase == Loaded(r.value, parsedAt)
    ensures CallGives(w.c, w.trace, id, cacheKey, o, v, r)
    ensures !o.getFails ==> WarmHit(w.c, cacheKey, o, v, r)
    ensures !o.getFails ==> ColdLoad(w.c, cacheKey, o, v, r, w.state.cache)
  {
    hide IsTrace, After, Fresh, Parses, Prepend, ParsedFor, ValidatedBy, CallGives, CallStored;
    r, v := Lookup(w, id, cacheKey, o);
    TraceKeepsInv(w.c, w.trace);
    ghost var phase := w.state.calls[id].phase;
    assert CallInv(w.c, w.trace, w.state.epoch, w.state.calls[id]);
    parsedAt := if r.Some? then phase.parsedAt else 0;
    hitAt := if phase.Hit? then Some(phase.at) else None;
    if !o.getFails {
      WarmHits(w.c, w.trace, id, cacheKey, o, v, r);
      ColdLoads(w.c, w.trace, id, cacheKey, o, v, r, w.state.cache);
    }
  }

  /** A call that finds an entry gets it without parsing if the entry is of the right algorithm and not
      expired, and the ring resolves its key, of that algorithm and not expired. */
  ghost predicate WarmHit(c: Config, k: CacheKey, o: Outcomes, v: View, r: Option<Reader>) {
    k in v.get.state.cache && !o.check.cancelled ==>
      var reader := v.get.state.cache[k].reader;
      var key := Find(v.check.state.keys, reader.kid, o.check.providerNow);
      && reader.algorithm == c.algorithm && (reader.expiresAt.None? || o.check.now < reader.expiresAt.value)
      && key.Ok? && key.value.algorithm == c.algorithm
      && (key.value.expiresAt.None? || o.check.now < key.value.expiresAt.value) ==>
        r == Some(reader)
  }

  /** A call that finds nothing, twice, and leads gets what the token holds if that can be verified; and
      unless the cache was cleared in the meantime, it is in the cache afterwards. */
  ghost predicate ColdLoad(c: Config, k: CacheKey, o: Outcomes, v: View, r: Option<Reader>,
                           cache: map<CacheKey, Entry>) {
    var lead := o.first.lead;
    k !in v.get.state.cache && o.first.joins.None? && !lead.cancelled && !lead.getFails ==>
      && v.attempts != [] && v.attempts[0].Led?
      && var f := v.attempts[0].flight;
      && var token := lead.fetch.token;
      && var key := Find(f.parse.state.keys, token.kid, lead.fetch.now);
      && (k !in f.get.state.cache && !lead.fetch.parseFails && !lead.fetch.ttlFails && !lead.fetch.setFails
          && token.algorithm == c.algorithm && key.Ok? && key.value.algorithm == c.algorithm ==>
            && r == Some(token)
            && (lead.fetch.cacheable && f.store.state.epoch == f.epoch.state.epoch ==>
                  cache == f.store.state.cache[k := Entry(token, f.parse.at)]))
  }

  lemma WarmHits(c: Config, trace: seq<Event>, id: nat, k: CacheKey, o: Outcomes, v: View, r: Option<Reader>)
    requires CallGives(c, trace, id, k, o, v, r) && !o.getFails
    ensures WarmHit(c, k, o, v, r)
  {
    hide Saw, AttemptsGive, Find;
  }

  lemma ColdLoads(c: Config, trace: seq<Event>, id: nat, k: CacheKey, o: Outcomes, v: View, r: Option<Reader>,
                  cache: map<CacheKey, Entry>)
    requires CallGives(c, trace, id, k, o, v, r) && !o.getFails && CallStored(c, k, o, v, cache)
    ensures ColdLoad(c, k, o, v, r, cache)
  {
    hide Saw, Find, FlightSaw;
    if k !in v.get.state.cache && o.first.joins.None? {
      var attempts := [o.first] + o.more;
      assert attempts[0] == o.first;
      assert AttemptGives(c, trace, id, k, attempts[0], v.attempts[0], if |v.attempts| == 1 then r else None);
    }
  }
}
