/** Key rotation by any number of clients that share one Redis (jwt/redis_repository.go), as a state
    machine. A rotating client runs the current script, creates a candidate when the current key is
    missing or expired, and runs the rotate script with the id it observed. A forced rotation creates
    and stores without looking. Candidate ids are fresh; nothing is deleted and nothing expires in
    Redis itself. Clients bring their own clocks. */
module RedisRotation {
  import opened Wrappers
  import opened RedisStore

  datatype Client =
    | Reading(now: int)
    | Creating(now: int, forced: bool, observed: Option<Kid>)
    | Storing(now: int, forced: bool, observed: Option<Kid>, key: Key)
    | Kept(key: Key)
    | Won(key: Key)
    | Lost(observed: Option<Kid>, key: Key, seen: nat)
    | Failed

  /** One key that became current, and the id its client had observed before. */
  datatype Install = Install(forced: bool, observed: Option<Kid>, key: Key)

  /** `created` and `installs` are history: no step reads the latter. */
  datatype World = World(state: State, clients: map<nat, Client>, created: set<Kid>, installs: seq<Install>)

  datatype Event =
    | BeginRotate(now: int) | BeginForced(now: int)
    | ReadCurrent
    | Create(key: Key) | CreateFails
    | RunRotate(keep: set<Kid>, answered: bool) | RunStore(keep: set<Kid>, answered: bool)
    | CallFails

  const INITIAL := World(EMPTY, map[], {}, [])

  predicate Trims(w: World, key: Key, capacity: nat, keep: set<Kid>) {
    IsTrim(w.state.order[key.kid := key.createdAt], key.kid, capacity, keep)
  }

  predicate Enabled(w: World, capacity: nat, id: nat, e: Event) {
    if id !in w.clients then e.BeginRotate? || e.BeginForced?
    else
      var c := w.clients[id];
      match e
      case ReadCurrent => c.Reading?
      case Create(key) => c.Creating? && key.kid !in w.created && !key.Expired(c.now)
      case CreateFails => c.Creating?
      case RunRotate(keep, _) =>
        c.Storing? && !c.forced && (Loses(w.state, c.observed) || Trims(w, c.key, capacity, keep))
      case RunStore(keep, _) => c.Storing? && c.forced && Trims(w, c.key, capacity, keep)
      case CallFails => c.Reading? || c.Storing?
      case BeginRotate(_) => false
      case BeginForced(_) => false
  }

  /** A script that ran is an error to a client that gets no answer, or for which the returned key is
      expired. */
  function Accept(now: int, answered: bool, key: Key, result: Client): Client {
    if !answered || key.Expired(now) then Failed else result
  }

  function Next(w: World, capacity: nat, id: nat, e: Event): World
    requires Enabled(w, capacity, id, e)
  {
    match e
    case BeginRotate(now) => w.(clients := w.clients[id := Reading(now)])
    case BeginForced(now) => w.(clients := w.clients[id := Creating(now, true, None)])
    case ReadCurrent =>
      var now := w.clients[id].now;
      var (payload, kid) := CurrentOf(w.state);
      var c := if payload.Some? && !payload.value.Expired(now) then Kept(payload.value) else Creating(now, false, kid);
      w.(clients := w.clients[id := c])
    case Create(key) =>
      var c := w.clients[id];
      w.(clients := w.clients[id := Storing(c.now, c.forced, c.observed, key)], created := w.created + {key.kid})
    case CreateFails => w.(clients := w.clients[id := Failed])
    case CallFails => w.(clients := w.clients[id := Failed])
    case RunRotate(keep, answered) =>
      var c := w.clients[id];
      if Loses(w.state, c.observed) then
        var current := w.state.keys[w.state.current.value];
        w.(clients := w.clients[id := Accept(c.now, answered, current, Lost(c.observed, current, |w.installs|))])
      else Installing(w, id, c, keep, answered)
    case RunStore(keep, answered) => Installing(w, id, w.clients[id], keep, answered)
  }

  function Installing(w: World, id: nat, c: Client, keep: set<Kid>, answered: bool): World
    requires c.Storing?
  {
    World(RedisStore.Installed(w.state, c.key, keep), w.clients[id := Accept(c.now, answered, c.key, Won(c.key))],
          w.created, w.installs + [Install(c.forced, c.observed, c.key)])
  }

  // ---- What every step keeps ----

  /** The pointer after the first `n` installs. */
  function Pointer(installs: seq<Install>, n: nat): Option<Kid>
    requires n <= |installs|
  {
    if n == 0 then None else Some(installs[n - 1].key.kid)
  }

  ghost predicate InstallsInv(w: World) {
    && w.state.current == Pointer(w.installs, |w.installs|)
    && (w.installs != [] ==> CurrentOf(w.state).0 == Some(w.installs[|w.installs| - 1].key))
    && (forall i | 0 <= i < |w.installs| :: w.installs[i].key.kid in w.created)
    && DistinctInstalls(w.installs)
    && RotationsFollow(w.installs)
  }

  ghost predicate DistinctInstalls(installs: seq<Install>) {
    forall i, j | 0 <= i < j < |installs| :: installs[i].key.kid != installs[j].key.kid
  }

  /** Every rotation that installed its key had observed the key current just before. */
  ghost predicate RotationsFollow(installs: seq<Install>) {
    forall i | 0 <= i < |installs| && !installs[i].forced :: installs[i].observed == Pointer(installs, i)
  }

  lemma OneMoreInstall(installs: seq<Install>, more: Install)
    requires DistinctInstalls(installs) && NotInstalled(installs, more.key.kid)
    ensures DistinctInstalls(installs + [more])
  {
  }

  lemma OneMoreRotation(installs: seq<Install>, more: Install)
    requires RotationsFollow(installs) && (more.forced || more.observed == Pointer(installs, |installs|))
    ensures RotationsFollow(installs + [more])
  {
    var longer := installs + [more];
    forall i | 0 <= i < |longer| && !longer[i].forced ensures longer[i].observed == Pointer(longer, i) {
      assert Pointer(longer, i) == Pointer(installs, i);
    }
  }

  ghost predicate WasCurrent(installs: seq<Install>, observed: Option<Kid>, before: nat) {
    exists p | 0 <= p < before && p <= |installs| :: Pointer(installs, p) == observed
  }

  ghost predicate NotInstalled(installs: seq<Install>, kid: Kid) {
    forall i | 0 <= i < |installs| :: installs[i].key.kid != kid
  }

  ghost predicate ClientInv(w: World, c: Client) {
    match c
    case Creating(_, forced, observed) => !forced ==> WasCurrent(w.installs, observed, |w.installs| + 1)
    case Storing(_, forced, observed, key) =>
      && (!forced ==> WasCurrent(w.installs, observed, |w.installs| + 1))
      && key.kid in w.created && NotInstalled(w.installs, key.kid)
    case Lost(observed, key, seen) =>
      && 0 < seen <= |w.installs| && key == w.installs[seen - 1].key
      && WasCurrent(w.installs, observed, seen)
    case _ => true
  }

  ghost predicate DistinctCandidates(clients: map<nat, Client>) {
    forall a, b | a in clients && b in clients && a != b && clients[a].Storing? && clients[b].Storing? ::
      clients[a].key.kid != clients[b].key.kid
  }

  ghost predicate Inv(w: World, capacity: nat) {
    && Consistent(w.state, capacity)
    && InstallsInv(w)
    && DistinctCandidates(w.clients)
    && forall id | id in w.clients :: ClientInv(w, w.clients[id])
  }

  lemma WasCurrentGrows(installs: seq<Install>, more: Install, observed: Option<Kid>, before: nat)
    requires WasCurrent(installs, observed, before)
    ensures WasCurrent(installs + [more], observed, before)
    ensures WasCurrent(installs + [more], observed, before + 1)
  {
    var p :| 0 <= p < before && p <= |installs| && Pointer(installs, p) == observed;
    assert Pointer(installs + [more], p) == observed;
  }

  /** The compare step succeeds exactly when the pointer still is what the client observed. */
  lemma WinnerObservedPointer(w: World, capacity: nat, c: Client)
    requires Consistent(w.state, capacity) && InstallsInv(w) && ClientInv(w, c)
    requires c.Storing? && !c.forced
    ensures !Loses(w.state, c.observed) <==> c.observed == w.state.current
  {
    if w.state.current.None? {
      assert |w.installs| == 0;
    }
  }

  lemma InstallKeepsInv(w: World, capacity: nat, id: nat, keep: set<Kid>, answered: bool)
    requires 1 <= capacity && Inv(w, capacity) && id in w.clients && w.clients[id].Storing?
    requires Trims(w, w.clients[id].key, capacity, keep)
    requires !w.clients[id].forced ==> !Loses(w.state, w.clients[id].observed)
    ensures Inv(Installing(w, id, w.clients[id], keep, answered), capacity)
  {
    hide IsTrim, Consistent;
    var c := w.clients[id];
    var w' := Installing(w, id, c, keep, answered);
    InstalledIsConsistent(w.state, c.key, capacity, keep);
    if !c.forced {
      WinnerObservedPointer(w, capacity, c);
    }
    InstallKeepsInstalls(w, w', c);
    forall other | other in w'.clients ensures ClientInv(w', w'.clients[other]) {
      if other != id {
        InstallKeepsClient(w, w', w.installs, Install(c.forced, c.observed, c.key), w.clients[other]);
      }
    }
  }

  lemma InstallKeepsInstalls(w: World, w': World, c: Client)
    requires InstallsInv(w) && ClientInv(w, c) && c.Storing?
    requires !c.forced ==> c.observed == w.state.current
    requires w'.installs == w.installs + [Install(c.forced, c.observed, c.key)]
    requires w'.created == w.created && CurrentOf(w'.state) == (Some(c.key), Some(c.key.kid))
    ensures InstallsInv(w')
  {
    hide DistinctInstalls, RotationsFollow, NotInstalled, WasCurrent;
    OneMoreInstall(w.installs, Install(c.forced, c.observed, c.key));
    OneMoreRotation(w.installs, Install(c.forced, c.observed, c.key));
  }

  lemma InstallKeepsClient(w: World, w': World, installs: seq<Install>, more: Install, c: Client)
    requires ClientInv(w, c) && installs == w.installs && w'.installs == installs + [more] && w'.created == w.created
    requires c.Storing? ==> c.key.kid != more.key.kid
    ensures ClientInv(w', c)
  {
    match c {
      case Creating(_, forced, observed) =>
        if !forced { WasCurrentGrows(installs, more, observed, |installs| + 1); }
      case Storing(_, forced, observed, _) =>
        if !forced { WasCurrentGrows(installs, more, observed, |installs| + 1); }
      case Lost(observed, _, seen) => WasCurrentGrows(installs, more, observed, seen);
      case _ =>
    }
  }

  lemma LoserKeepsInv(w: World, capacity: nat, id: nat, keep: set<Kid>, answered: bool)
    requires Inv(w, capacity) && Enabled(w, capacity, id, RunRotate(keep, answered))
    requires Loses(w.state, w.clients[id].observed)
    ensures Inv(Next(w, capacity, id, RunRotate(keep, answered)), capacity)
  {
    hide IsTrim, Consistent, DistinctCandidates, DistinctInstalls, RotationsFollow, NotInstalled;
    var c := w.clients[id];
    assert ClientInv(w, c);
    ObservedBefore(w.installs, c.observed, w.state.current);
    ClientStep(w, capacity, id, RunRotate(keep, answered));
  }

  /** What was once current but is not now was current before the last install. */
  lemma ObservedBefore(installs: seq<Install>, observed: Option<Kid>, current: Option<Kid>)
    requires WasCurrent(installs, observed, |installs| + 1) && current == Pointer(installs, |installs|) != observed
    ensures WasCurrent(installs, observed, |installs|)
  {
    var p :| 0 <= p < |installs| + 1 && Pointer(installs, p) == observed;
  }

  /** What a step does to the clients when it neither installs nor changes the store. */
  lemma ClientStays(w: World, capacity: nat, id: nat, e: Event, other: nat)
    requires Enabled(w, capacity, id, e) && other in Next(w, capacity, id, e).clients && other != id
    ensures other in w.clients && Next(w, capacity, id, e).clients[other] == w.clients[other]
    ensures w.created <= Next(w, capacity, id, e).created
  {
    hide IsTrim, Loses;
  }

  /** A client that comes to hold a candidate holds one that nobody has. */
  lemma NewCandidate(w: World, capacity: nat, id: nat, e: Event)
    requires Enabled(w, capacity, id, e) && id in Next(w, capacity, id, e).clients
    requires Next(w, capacity, id, e).clients[id].Storing?
    ensures Next(w, capacity, id, e).clients[id].key.kid !in w.created
  {
    hide IsTrim, Loses;
  }

  lemma CandidatesStayDistinct(w: World, capacity: nat, id: nat, e: Event)
    requires Inv(w, capacity) && Enabled(w, capacity, id, e)
    ensures DistinctCandidates(Next(w, capacity, id, e).clients)
  {
    hide IsTrim, Consistent, WasCurrent, NotInstalled, InstallsInv, Enabled, Next;
    var clients := Next(w, capacity, id, e).clients;
    forall a, b | a in clients && b in clients && a != b && clients[a].Storing? && clients[b].Storing?
      ensures clients[a].key.kid != clients[b].key.kid
    {
      if a != id {
        ClientStays(w, capacity, id, e, a);
        assert ClientInv(w, w.clients[a]);
      }
      if b != id {
        ClientStays(w, capacity, id, e, b);
        assert ClientInv(w, w.clients[b]);
      }
      if a == id || b == id {
        NewCandidate(w, capacity, id, e);
      }
    }
  }

  /** Steps that only change one client. */
  lemma ClientStep(w: World, capacity: nat, id: nat, e: Event)
    requires Inv(w, capacity) && Enabled(w, capacity, id, e)
    requires Next(w, capacity, id, e).state == w.state && Next(w, capacity, id, e).installs == w.installs
    requires id in Next(w, capacity, id, e).clients
    requires ClientInv(Next(w, capacity, id, e), Next(w, capacity, id, e).clients[id])
    requires w.created <= Next(w, capacity, id, e).created
    ensures Inv(Next(w, capacity, id, e), capacity)
  {
    hide IsTrim, Consistent, WasCurrent, NotInstalled, Enabled, Next, DistinctCandidates;
    var w' := Next(w, capacity, id, e);
    CandidatesStayDistinct(w, capacity, id, e);
    forall other | other in w'.clients ensures ClientInv(w', w'.clients[other]) {
      if other != id {
        ClientStays(w, capacity, id, e, other);
        assert ClientInv(w, w.clients[other]);
      }
    }
  }

  /** One script or call of one client keeps the invariant. */
  lemma StepKeepsInv(w: World, capacity: nat, id: nat, e: Event)
    requires 1 <= capacity && Inv(w, capacity) && Enabled(w, capacity, id, e)
    ensures Inv(Next(w, capacity, id, e), capacity)
  {
    hide IsTrim, Consistent;
    match e {
      case RunStore(keep, answered) => InstallKeepsInv(w, capacity, id, keep, answered);
      case RunRotate(keep, answered) =>
        if Loses(w.state, w.clients[id].observed) {
          LoserKeepsInv(w, capacity, id, keep, answered);
        } else {
          InstallKeepsInv(w, capacity, id, keep, answered);
        }
      case ReadCurrent =>
        assert Pointer(w.installs, |w.installs|) == w.state.current;
        assert WasCurrent(w.installs, w.state.current, |w.installs| + 1);
        ClientStep(w, capacity, id, e);
      case Create(_) =>
        assert ClientInv(w, w.clients[id]);
        ClientStep(w, capacity, id, e);
      case _ => ClientStep(w, capacity, id, e);
    }
  }

  // ---- Every interleaving ----

  ghost predicate IsTrace(capacity: nat, trace: seq<(nat, Event)>)
    decreases |trace|, 0
  {
    trace == [] ||
    var (id, e) := trace[|trace| - 1];
    IsTrace(capacity, trace[..|trace| - 1]) && Enabled(After(capacity, trace[..|trace| - 1]), capacity, id, e)
  }

  ghost function After(capacity: nat, trace: seq<(nat, Event)>): World
    requires IsTrace(capacity, trace)
    decreases |trace|, 1
  {
    if trace == [] then INITIAL
    else
      var (id, e) := trace[|trace| - 1];
      Next(After(capacity, trace[..|trace| - 1]), capacity, id, e)
  }

  lemma LastStep(capacity: nat, trace: seq<(nat, Event)>)
    requires IsTrace(capacity, trace) && trace != []
    ensures var init, last := trace[..|trace| - 1], trace[|trace| - 1];
            && IsTrace(capacity, init) && Enabled(After(capacity, init), capacity, last.0, last.1)
            && After(capacity, trace) == Next(After(capacity, init), capacity, last.0, last.1)
  {
    hide Enabled, Next;
  }

  lemma {:induction false} TraceKeepsInv(capacity: nat, trace: seq<(nat, Event)>)
    requires 1 <= capacity && IsTrace(capacity, trace)
    ensures Inv(After(capacity, trace), capacity)
  {
    hide Enabled, Next;
    if trace == [] {
      assert Inv(INITIAL, capacity);
    } else {
      var init := trace[..|trace| - 1];
      TraceKeepsInv(capacity, init);
      StepKeepsInv(After(capacity, init), capacity, trace[|trace| - 1].0, trace[|trace| - 1].1);
    }
  }

  /** In every reachable state the hash, the sorted set and the pointer agree and the capacity holds. */
  lemma ReachableIsConsistent(capacity: nat, trace: seq<(nat, Event)>)
    requires 1 <= capacity && IsTrace(capacity, trace)
    ensures Consistent(After(capacity, trace).state, capacity)
  {
    TraceKeepsInv(capacity, trace);
  }

  /** Rotation converges: of all calls that observed the same current id (or none), at most one
      installs its key by rotation. */
  lemma AtMostOneWinner(capacity: nat, trace: seq<(nat, Event)>, i: nat, j: nat)
    requires 1 <= capacity && IsTrace(capacity, trace)
    requires i < j < |After(capacity, trace).installs|
    requires !After(capacity, trace).installs[i].forced && !After(capacity, trace).installs[j].forced
    ensures After(capacity, trace).installs[i].observed != After(capacity, trace).installs[j].observed
  {
    hide Consistent, IsTrace, After, Enabled, Next, DistinctCandidates, ClientInv;
    TraceKeepsInv(capacity, trace);
    var w := After(capacity, trace);
    if Pointer(w.installs, i) == Pointer(w.installs, j) {
      PointerIsUnique(w, i, j);
    }
  }

  /** A loser returns a key that became current with or after the winner of the id both observed. */
  lemma LoserReturnsWinnerOrLater(capacity: nat, trace: seq<(nat, Event)>, loser: nat, i: nat)
    requires 1 <= capacity && IsTrace(capacity, trace)
    requires loser in After(capacity, trace).clients && After(capacity, trace).clients[loser].Lost?
    requires i < |After(capacity, trace).installs| && !After(capacity, trace).installs[i].forced
    requires After(capacity, trace).installs[i].observed == After(capacity, trace).clients[loser].observed
    ensures var w := After(capacity, trace);
            var lost := w.clients[loser];
            i < lost.seen <= |w.installs| && lost.key == w.installs[lost.seen - 1].key
  {
    hide Consistent, IsTrace, After, Enabled, Next, DistinctCandidates, InstallsInv, ClientInv;
    TraceKeepsInv(capacity, trace);
    LoserAfterWinner(After(capacity, trace), After(capacity, trace).clients[loser], i);
  }

  lemma LoserAfterWinner(w: World, lost: Client, i: nat)
    requires InstallsInv(w) && ClientInv(w, lost) && lost.Lost?
    requires i < |w.installs| && !w.installs[i].forced && w.installs[i].observed == lost.observed
    ensures i < lost.seen <= |w.installs| && lost.key == w.installs[lost.seen - 1].key
  {
    hide DistinctInstalls;
    var p :| 0 <= p < lost.seen && p <= |w.installs| && Pointer(w.installs, p) == lost.observed;
    PointerIsUnique(w, i, p);
  }

  /** No id is current twice. */
  lemma PointerIsUnique(w: World, i: nat, p: nat)
    requires InstallsInv(w) && i <= |w.installs| && p <= |w.installs|
    requires Pointer(w.installs, i) == Pointer(w.installs, p)
    ensures i == p
  {
  }

  /** A client that lost ran its rotate script at some event `n`. That left Redis as it was, and what the
      client returns is the payload that was current then, not one with the id it had observed. */
  lemma {:induction false} LoserReturnsCurrent(capacity: nat, trace: seq<(nat, Event)>, id: nat) returns (n: nat)
    requires 1 <= capacity && IsTrace(capacity, trace)
    requires id in After(capacity, trace).clients && After(capacity, trace).clients[id].Lost?
    ensures n < |trace| && trace[n].0 == id && trace[n].1.RunRotate?
    ensures IsTrace(capacity, trace[..n]) && IsTrace(capacity, trace[..n + 1])
    ensures var lost := After(capacity, trace).clients[id];
            var before, after := After(capacity, trace[..n]).state, After(capacity, trace[..n + 1]).state;
            && before == after && CurrentOf(before) == (Some(lost.key), Some(lost.key.kid))
            && Some(lost.key.kid) != lost.observed
    decreases |trace|
  {
    hide IsTrace, After, Enabled, Next, Inv;
    NoClientsAtStart(capacity);
    var init := trace[..|trace| - 1];
    var (other, e) := trace[|trace| - 1];
    LastStep(capacity, trace);
    var w := After(capacity, init);
    if id in w.clients && w.clients[id] == After(capacity, trace).clients[id] {
      n := LoserReturnsCurrent(capacity, init, id);
      SamePrefix(trace, n);
      SamePrefix(trace, n + 1);
    } else {
      TraceKeepsInv(capacity, init);
      n := |trace| - 1;
      assert trace[..n + 1] == trace;
      BecomesLost(w, capacity, other, e, id);
    }
  }

  lemma NoClientsAtStart(capacity: nat)
    ensures IsTrace(capacity, []) && After(capacity, []).clients == map[]
  {
  }

  lemma SamePrefix<T>(s: seq<T>, n: nat)
    requires n < |s|
    ensures s[..|s| - 1][..n] == s[..n]
  {
  }

  /** Only losing the compare step makes a client lose. */
  lemma BecomesLost(w: World, capacity: nat, other: nat, e: Event, id: nat)
    requires Inv(w, capacity) && Enabled(w, capacity, other, e)
    requires id in Next(w, capacity, other, e).clients && Next(w, capacity, other, e).clients[id].Lost?
    requires id !in w.clients || w.clients[id] != Next(w, capacity, other, e).clients[id]
    ensures id == other && e.RunRotate? && Next(w, capacity, other, e).state == w.state
    ensures var lost := Next(w, capacity, other, e).clients[id];
            CurrentOf(w.state) == (Some(lost.key), Some(lost.key.kid)) && Some(lost.key.kid) != lost.observed
  {
    hide IsTrim, InstallsInv, ClientInv, DistinctCandidates;
  }
}
