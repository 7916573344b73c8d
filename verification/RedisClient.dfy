/** The calls of clients that share one Redis (jwt/redis_repository.go), shown to be runs of the rotation
    protocol: every script runs on the server, and is a step of the state machine. Other clients may
    move between any two calls, in any way. What the calls of the client itself meet, errors of the
    connection, a lost answer and the key that is created, is given; a created key has a fresh id. */
module RedisClient {
  import opened Wrappers
  import opened RedisStore
  import opened RedisRotation

  /** The server and all its clients, with everything that happened so far. */
  class Cluster {
    const capacity: nat
    const server: Server
    var clients: map<nat, Client>
    var created: set<Kid>
    var installs: seq<Install>
    ghost var trace: seq<(nat, Event)>

    constructor (capacity: nat)
      requires 1 <= capacity
      ensures Valid() && fresh(server) && this.capacity == capacity && trace == [] && clients == map[]
    {
      this.capacity := capacity;
      server := new Server();
      clients, created, installs, trace := map[], {}, [], [];
    }

    ghost function Value(): World
      reads this, server
    {
      World(server.Value(), clients, created, installs)
    }

    ghost predicate Valid()
      reads this, server
    {
      1 <= capacity && IsTrace(capacity, trace) && Value() == After(capacity, trace)
    }

    /** A step of client `id` that changes nothing on the server. */
    method Call(id: nat, e: Event)
      requires Valid() && Enabled(Value(), capacity, id, e) && !e.RunRotate? && !e.RunStore?
      modifies this
      ensures Valid() && trace == old(trace) + [(id, e)]
      ensures Value() == Next(old(Value()), capacity, id, e)
    {
      hide IsTrace, After, IsTrim;
      Extend(capacity, trace, id, e);
      match e {
        case BeginRotate(now) => clients := clients[id := Reading(now)];
        case BeginForced(now) => clients := clients[id := Creating(now, true, None)];
        case ReadCurrent =>
          var now, current := clients[id].now, server.current;
          if current.Some? && current.value in server.keys && !server.keys[current.value].Expired(now) {
            clients := clients[id := Kept(server.keys[current.value])];
          } else {
            clients := clients[id := Creating(now, false, current)];
          }
        case Create(key) =>
          var c := clients[id];
          clients := clients[id := Storing(c.now, c.forced, c.observed, key)];
          created := created + {key.kid};
        case CreateFails => clients := clients[id := Failed];
        case CallFails => clients := clients[id := Failed];
      }
      trace := trace + [(id, e)];
    }

    /** Sends a client's script to the server. */
    method Execute(c: Client) returns (won: bool, payload: Key)
      requires 1 <= capacity && c.Storing? && Consistent(server.Value(), capacity)
      modifies server
      ensures won <==> c.forced || !Loses(old(server.Value()), c.observed)
      ensures won ==> payload == c.key && server.Value() == Installed(old(server.Value()), c.key, server.keys.Keys)
      ensures won ==> IsTrim(old(server.order)[c.key.kid := c.key.createdAt], c.key.kid, capacity, server.keys.Keys)
      ensures !won ==> server.Value() == old(server.Value())
      ensures !won ==> payload == old(server.keys)[old(server.current).value]
      ensures CurrentOf(server.Value()) == (Some(payload), Some(payload.kid))
    {
      hide IsTrim;
      ghost var before := server.Value();
      var kid;
      won := true;
      if c.forced {
        kid, payload := server.StoreScript(c.key, capacity);
      } else {
        won, payload, kid := server.RotateCasScript(c.observed, c.key, capacity);
      }
      if won {
        InstalledIsConsistent(before, c.key, capacity, server.keys.Keys);
      }
    }

    /** Runs the script of client `id` on the server. The payload it answers with is current afterwards. */
    method RunScript(id: nat, answered: bool) returns (payload: Key, ghost e: Event)
      requires Valid() && id in clients && clients[id].Storing?
      modifies this, server
      ensures Valid() && trace == old(trace) + [(id, e)]
      ensures Enabled(old(Value()), capacity, id, e) && Value() == Next(old(Value()), capacity, id, e)
      ensures if old(clients[id].forced) then e.RunStore? && e.answered == answered
              else e.RunRotate? && e.answered == answered
      ensures Ran(old(clients[id]), capacity, old(server.Value()), server.Value(), payload)
      ensures CurrentOf(server.Value()).0 == Some(payload)
      ensures id in clients && (clients[id].Failed? <==> !answered || payload.Expired(old(clients[id].now)))
      ensures !clients[id].Failed? ==> Returned(clients[id]) == Some(payload)
    {
      hide IsTrace, After, IsTrim, Enabled, Next, InstallsInv, ClientInv, DistinctCandidates, Consistent;
      TraceKeepsInv(capacity, trace);
      ghost var before := Value();
      var c := clients[id];
      var won;
      won, payload := Execute(c);
      e := if c.forced then RunStore(server.keys.Keys, answered) else RunRotate(server.keys.Keys, answered);
      if won {
        installs := installs + [Install(c.forced, c.observed, c.key)];
        clients := clients[id := Accept(c.now, answered, c.key, Won(c.key))];
      } else {
        clients := clients[id := Accept(c.now, answered, payload, Lost(c.observed, payload, |installs|))];
      }
      ScriptStep(before, capacity, id, server.keys.Keys, answered);
      Extend(capacity, trace, id, e);
      trace := trace + [(id, e)];
    }

    /** Whatever other clients do before the next call of client `id`; the id of its candidate is its own. */
    method Others(id: nat, candidate: Option<Key>)
      requires Valid() && id in clients
      modifies this, server
      ensures Valid() && old(trace) <= trace
      ensures id in clients && clients[id] == old(clients[id])
      ensures Unused(old(created), candidate) ==> Unused(created, candidate)
    {
      hide IsTrace, After, Enabled, Next;
      var steps: int := *;
      while steps > 0
        invariant Valid() && old(trace) <= trace
        invariant id in clients && clients[id] == old(clients[id])
        invariant Unused(old(created), candidate) ==> Unused(created, candidate)
      {
        var other: nat, e: Event := *, *;
        var state := State(server.current, server.keys, server.order);
        var taken := e.Create? && candidate.Some? && e.key.kid == candidate.value.kid;
        if other != id && !taken && Enabled(World(state, clients, created, installs), capacity, other, e) {
          Other(other, e, id);
        }
        steps := steps - 1;
      }
    }

    method Other(other: nat, e: Event, ghost id: nat)
      requires Valid() && Enabled(Value(), capacity, other, e) && other != id && id in clients
      modifies this, server
      ensures Valid() && old(trace) <= trace
      ensures id in clients && clients[id] == old(clients[id])
      ensures created == if e.Create? then old(created) + {e.key.kid} else old(created)
    {
      hide IsTrace, After, Enabled, Next;
      ghost var before := Value();
      if e.RunRotate? || e.RunStore? {
        var payload;
        ghost var done;
        OtherStays(before, capacity, other, e, id);
        payload, done := RunScript(other, e.answered);
        OtherStays(before, capacity, other, done, id);
      } else {
        Call(other, e);
        OtherStays(before, capacity, other, e, id);
      }
    }
  }

  lemma Extend(capacity: nat, trace: seq<(nat, Event)>, id: nat, e: Event)
    requires IsTrace(capacity, trace) && Enabled(After(capacity, trace), capacity, id, e)
    ensures IsTrace(capacity, trace + [(id, e)])
    ensures After(capacity, trace + [(id, e)]) == Next(After(capacity, trace), capacity, id, e)
  {
    hide Enabled, Next;
    assert (trace + [(id, e)])[..|trace|] == trace;
  }

  /** The step of the machine that running a script is. */
  lemma ScriptStep(w: World, capacity: nat, id: nat, keep: set<Kid>, answered: bool)
    requires id in w.clients && w.clients[id].Storing?
    ensures var c := w.clients[id];
            && (c.forced && Trims(w, c.key, capacity, keep) ==>
                  && Enabled(w, capacity, id, RunStore(keep, answered))
                  && Next(w, capacity, id, RunStore(keep, answered)) == Installing(w, id, c, keep, answered))
            && (!c.forced && !Loses(w.state, c.observed) && Trims(w, c.key, capacity, keep) ==>
                  && Enabled(w, capacity, id, RunRotate(keep, answered))
                  && Next(w, capacity, id, RunRotate(keep, answered)) == Installing(w, id, c, keep, answered))
            && (!c.forced && Loses(w.state, c.observed) ==>
                  && Enabled(w, capacity, id, RunRotate(keep, answered))
                  && var current := w.state.keys[w.state.current.value];
                  var result := Accept(c.now, answered, current, Lost(c.observed, current, |w.installs|));
                  Next(w, capacity, id, RunRotate(keep, answered)) == w.(clients := w.clients[id := result]))
  {
    hide IsTrim;
  }

  /** A step of one client leaves the others as they are. */
  lemma OtherStays(w: World, capacity: nat, other: nat, e: Event, id: nat)
    requires Enabled(w, capacity, other, e) && other != id && id in w.clients
    ensures id in Next(w, capacity, other, e).clients && Next(w, capacity, other, e).clients[id] == w.clients[id]
    ensures Next(w, capacity, other, e).created == if e.Create? then w.created + {e.key.kid} else w.created
    ensures e.RunRotate? || e.RunStore? ==> other in w.clients && w.clients[other].Storing?
  {
    hide IsTrim;
  }

  ghost predicate Unused(created: set<Kid>, candidate: Option<Key>) {
    candidate.Some? ==> candidate.value.kid !in created
  }

  /** What the script of a client does to the state it meets, and the payload it answers with: the stored
      candidate, or the current key if that is not the observed one and can still be read. */
  ghost predicate Ran(c: Client, capacity: nat, met: State, left: State, payload: Key)
    requires c.Storing?
  {
    if !c.forced && met.current.Some? && met.current != c.observed && met.current.value in met.keys
    then left == met && payload == met.keys[met.current.value]
    else
      && payload == c.key && left == Installed(met, c.key, left.keys.Keys)
      && IsTrim(met.order[c.key.kid := c.key.createdAt], c.key.kid, capacity, left.keys.Keys)
  }

  /** What a client that is done returns. */
  function Returned(c: Client): Option<Key> {
    match c
    case Kept(key) => Some(key)
    case Won(key) => Some(key)
    case Lost(_, key, _) => Some(key)
    case _ => None
  }

  /** What the calls of one client meet: errors of the connection on reading and on sending the script,
      the key that is created, if one is, and whether the answer of the script arrives. */
  datatype Outcomes = Outcomes(readFails: bool, candidate: Option<Key>, sendFails: bool, answered: bool)

  /** Where the two scripts of a rotation ran in the trace, and the state each of them met. */
  datatype View = View(readAt: nat, seen: State, ranAt: nat, met: State)

  /** Event `n` is one of client `id`, and it met state `s`. */
  ghost predicate Met(capacity: nat, trace: seq<(nat, Event)>, n: nat, id: nat, s: State) {
    n < |trace| && trace[n].0 == id && IsTrace(capacity, trace[..n]) && After(capacity, trace[..n]).state == s
  }

  lemma MetNow(capacity: nat, before: seq<(nat, Event)>, id: nat, e: Event)
    requires IsTrace(capacity, before)
    ensures Met(capacity, before + [(id, e)], |before|, id, After(capacity, before).state)
  {
    hide IsTrace, After;
    assert (before + [(id, e)])[..|before|] == before;
  }

  /** What happened stays as it was. */
  lemma MetStays(capacity: nat, trace: seq<(nat, Event)>, longer: seq<(nat, Event)>, n: nat, id: nat, s: State)
    requires Met(capacity, trace, n, id, s) && trace <= longer
    ensures Met(capacity, longer, n, id, s) && longer[n] == trace[n]
  {
    hide IsTrace, After;
    assert longer[..n] == trace[..n];
  }

  /** The key a rotation would keep: the current one, if it can be read and is not expired. */
  function Alive(s: State, now: int): Option<Key> {
    if s.current.Some? && s.current.value in s.keys && !s.keys[s.current.value].Expired(now)
    then Some(s.keys[s.current.value]) else None
  }

  /** The script is sent: a key was created that is not expired, and the connection holds. */
  predicate Sent(o: Outcomes, now: int) {
    o.candidate.Some? && !o.candidate.value.Expired(now) && !o.sendFails
  }

  /** What a client gets whose script met state `s`. */
  function Answer(o: Outcomes, now: int, forced: bool, observed: Option<Kid>, s: State): Result<Key, RotateError>
    requires Sent(o, now)
  {
    if !o.answered then Err(RotateError)
    else if !forced && s.current.Some? && s.current != observed && s.current.value in s.keys then
      if s.keys[s.current.value].Expired(now) then Err(RotateError) else Ok(s.keys[s.current.value])
    else Ok(o.candidate.value)
  }

  datatype RotateError = RotateError

  /** Creates a candidate and runs the script that stores it. */
  method Store(w: Cluster, id: nat, o: Outcomes) returns (r: Result<Key, RotateError>, ghost at: nat, ghost met: State)
    requires w.Valid() && id in w.clients && w.clients[id].Creating? && Unused(w.created, o.candidate)
    modifies w, w.server
    ensures w.Valid() && old(w.trace) <= w.trace && id in w.clients
    ensures r.Ok? ==> Returned(w.clients[id]) == Some(r.value) && !r.value.Expired(old(w.clients[id].now))
    ensures r.Ok? && old(w.clients[id].forced) ==> w.clients[id] == Won(r.value)
    ensures r.Err? <==> w.clients[id].Failed?
    ensures var c := old(w.clients[id]);
            if Sent(o, c.now) then
              && |old(w.trace)| < at == |w.trace| - 1 && Met(w.capacity, w.trace, at, id, met)
              && (if c.forced then w.trace[at].1.RunStore? else w.trace[at].1.RunRotate?)
              && r == Answer(o, c.now, c.forced, c.observed, met)
              && var storing := Storing(c.now, c.forced, c.observed, o.candidate.value);
              exists payload :: Ran(storing, w.capacity, met, w.server.Value(), payload)
            else r.Err?
  {
    hide IsTrace, After, IsTrim, Met, Ran;
    at, met := 0, EMPTY;
    w.Others(id, o.candidate);
    var c := w.clients[id];
    if o.candidate.None? || o.candidate.value.Expired(c.now) {
      w.Call(id, CreateFails);
      return Err(RotateError), at, met;
    }
    var key := o.candidate.value;
    w.Call(id, Create(key));
    w.Others(id, None);
    if o.sendFails {
      w.Call(id, CallFails);
      return Err(RotateError), at, met;
    }
    ghost var before := w.trace;
    at, met := |before|, w.server.Value();
    var payload;
    ghost var e;
    payload, e := w.RunScript(id, o.answered);
    MetNow(w.capacity, before, id, e);
    RanAnswer(o, c, w.capacity, met, w.server.Value(), payload);
    if w.clients[id].Failed? {
      return Err(RotateError), at, met;
    }
    return Ok(payload), at, met;
  }

  lemma RanAnswer(o: Outcomes, c: Client, capacity: nat, met: State, left: State, payload: Key)
    requires c.Creating? && Sent(o, c.now)
    requires Ran(Storing(c.now, c.forced, c.observed, o.candidate.value), capacity, met, left, payload)
    ensures Answer(o, c.now, c.forced, c.observed, met)
         == if !o.answered || payload.Expired(c.now) then Err(RotateError) else Ok(payload)
  {
    hide IsTrim, Installed;
  }

  /** Rotate: reads the current key, and creates and stores a candidate when that is missing or expired.
      The result is determined by what its calls meet and by the states its two scripts find; the
      protocol's theorems apply to the trace it leaves. */
  method Rotate(w: Cluster, id: nat, now: int, o: Outcomes) returns (r: Result<Key, RotateError>, ghost v: View)
    requires w.Valid() && id !in w.clients && Unused(w.created, o.candidate)
    modifies w, w.server
    ensures w.Valid() && old(w.trace) <= w.trace && id in w.clients
    ensures r.Ok? ==> Returned(w.clients[id]) == Some(r.value) && !r.value.Expired(now)
    ensures r.Err? <==> w.clients[id].Failed?
    ensures o.readFails ==> r.Err?
    ensures !o.readFails ==> |old(w.trace)| < v.readAt && Met(w.capacity, w.trace, v.readAt, id, v.seen)
    ensures !o.readFails ==> w.trace[v.readAt].1 == ReadCurrent
    ensures !o.readFails && Alive(v.seen, now).Some? ==> r == Ok(Alive(v.seen, now).value)
    ensures !o.readFails && Alive(v.seen, now).None? && !Sent(o, now) ==> r.Err?
    ensures !o.readFails && Alive(v.seen, now).None? && Sent(o, now) ==>
      && v.readAt < v.ranAt && Met(w.capacity, w.trace, v.ranAt, id, v.met) && w.trace[v.ranAt].1.RunRotate?
      && r == Answer(o, now, false, v.seen.current, v.met)
  {
    hide IsTrace, After, IsTrim, Met, Sent, Answer, Ran;
    v := View(0, EMPTY, 0, EMPTY);
    w.Call(id, BeginRotate(now));
    w.Others(id, o.candidate);
    if o.readFails {
      w.Call(id, CallFails);
      return Err(RotateError), v;
    }
    ghost var before, seen := w.trace, w.server.Value();
    w.Call(id, ReadCurrent);
    MetNow(w.capacity, before, id, ReadCurrent);
    v := View(|before|, seen, 0, EMPTY);
    if w.clients[id].Kept? {
      return Ok(w.clients[id].key), v;
    }
    ghost var read := w.trace;
    ghost var at, met;
    r, at, met := Store(w, id, o);
    MetStays(w.capacity, read, w.trace, |before|, id, seen);
    v := View(|before|, seen, at, met);
  }

  /** ForcedRotate: creates and stores without looking. */
  method ForcedRotate(w: Cluster, id: nat, now: int, o: Outcomes)
    returns (r: Result<Key, RotateError>, ghost at: nat, ghost met: State)
    requires w.Valid() && id !in w.clients && Unused(w.created, o.candidate)
    modifies w, w.server
    ensures w.Valid() && old(w.trace) <= w.trace && id in w.clients
    ensures r.Ok? <==> Sent(o, now) && o.answered
    ensures r.Ok? ==> r.value == o.candidate.value && w.clients[id] == Won(r.value)
    ensures r.Err? <==> w.clients[id].Failed?
    ensures Sent(o, now) ==>
      && |old(w.trace)| < at == |w.trace| - 1 && Met(w.capacity, w.trace, at, id, met) && w.trace[at].1.RunStore?
      && w.server.Value() == Installed(met, o.candidate.value, w.server.keys.Keys)
      && CurrentOf(w.server.Value()) == (o.candidate, Some(o.candidate.value.kid))
  {
    hide IsTrace, After, IsTrim, Met;
    w.Call(id, BeginForced(now));
    r, at, met := Store(w, id, o);
    if Sent(o, now) {
      var c := Storing(now, true, None, o.candidate.value);
      ghost var payload :| Ran(c, w.capacity, met, w.server.Value(), payload);
      ForcedIsCurrent(c, w.capacity, met, w.server.Value(), payload);
    }
  }

  /** A key stored by force is current with its own payload. */
  lemma ForcedIsCurrent(c: Client, capacity: nat, met: State, left: State, payload: Key)
    requires c.Storing? && c.forced && Ran(c, capacity, met, left, payload)
    ensures left == Installed(met, c.key, left.keys.Keys) && CurrentOf(left) == (Some(c.key), Some(c.key.kid))
  {
    assert c.key.kid in left.keys.Keys;
  }
}
