/** The Redis state behind a shared JWT key ring and the Lua scripts that change it
    (jwt/redis_scripts.go). A script runs as one atomic step. The state is a current pointer, a hash
    of payloads and a sorted set of scores; key ids are numbers here, whose order stands for the byte
    order Redis breaks score ties with. */
module RedisStore {
  import opened Wrappers

  type Kid = nat

  /** A key chain as stored: its id, its creation time (the score) and its expiry, if it has one. */
  datatype Key = Key(kid: Kid, createdAt: int, expiresAt: Option<int>) {
    predicate Expired(now: int) {
      expiresAt.Some? && expiresAt.value <= now
    }
  }

  datatype State = State(current: Option<Kid>, keys: map<Kid, Key>, order: map<Kid, int>)

  const EMPTY := State(None, map[], map[])

  // ---- Sorted sets ----

  predicate Newer(order: map<Kid, int>, a: Kid, b: Kid)
    requires a in order && b in order
  {
    order[a] > order[b] || (order[a] == order[b] && a > b)
  }

  predicate IsNewest(order: map<Kid, int>, k: Kid) {
    k in order && forall j | j in order && j != k :: Newer(order, k, j)
  }

  lemma {:induction false} NewestExists(order: map<Kid, int>)
    requires |order| > 0
    ensures exists k :: IsNewest(order, k)
    decreases |order|
  {
    assert order.Keys != {};
    var k :| k in order;
    var rest := order - {k};
    if |rest| == 0 {
      assert forall j | j in order :: j == k || j in rest;
      assert IsNewest(order, k);
    } else {
      NewestExists(rest);
      var m :| IsNewest(rest, m);
      var best := if Newer(order, k, m) then k else m;
      forall j | j in order && j != best ensures Newer(order, best, j) {
        if j != k && j != m {
          assert j in rest && Newer(rest, m, j);
        }
      }
      assert IsNewest(order, best);
    }
  }

  lemma NewestInPart(order: map<Kid, int>, part: map<Kid, int>, k: Kid)
    requires part.Keys <= order.Keys && (forall j | j in part :: part[j] == order[j]) && IsNewest(part, k)
    ensures forall j | j in part && j != k :: Newer(order, k, j)
  {
    forall j | j in part && j != k ensures Newer(order, k, j) {
      assert Newer(part, k, j);
    }
  }

  ghost predicate Sorted(order: map<Kid, int>, s: seq<Kid>) {
    && (forall k | k in s :: k in order)
    && forall i, j | 0 <= i < j < |s| :: Newer(order, s[i], s[j])
  }

  /** ZREVRANGE 0 -1: every member once, newest first. */
  method NewestFirst(order: map<Kid, int>) returns (s: seq<Kid>)
    ensures Sorted(order, s)
    ensures forall k :: k in s <==> k in order
    ensures forall i, j | 0 <= i < j < |s| ::
      order[s[i]] > order[s[j]] || (order[s[i]] == order[s[j]] && s[i] > s[j])
  {
    s := [];
    var rest := order;
    while |rest| > 0
      invariant rest.Keys <= order.Keys && forall k | k in rest :: rest[k] == order[k]
      invariant Sorted(order, s)
      invariant forall k | k in order :: k in s || k in rest
      invariant forall i, k | 0 <= i < |s| && k in rest :: Newer(order, s[i], k)
      decreases |rest|
    {
      hide Newer, IsNewest;
      NewestExists(rest);
      var k :| k in rest && IsNewest(rest, k);
      NewestInPart(order, rest, k);
      s := s + [k];
      rest := rest - {k};
    }
    assert rest.Keys == {};
    SortedScores(order, s);
  }

  lemma SortedScores(order: map<Kid, int>, s: seq<Kid>)
    requires Sorted(order, s)
    ensures forall i, j | 0 <= i < j < |s| ::
      s[i] in order && s[j] in order && (order[s[i]] > order[s[j]] || (order[s[i]] == order[s[j]] && s[i] > s[j]))
  {
    forall i, j | 0 <= i < j < |s|
      ensures s[i] in order && s[j] in order
      ensures order[s[i]] > order[s[j]] || (order[s[i]] == order[s[j]] && s[i] > s[j])
    {
      assert Newer(order, s[i], s[j]);
    }
  }

  // ---- What the scripts do ----

  /** A trim to `capacity` keeps the candidate and exactly the newest others. */
  predicate IsTrim(order: map<Kid, int>, candidate: Kid, capacity: nat, keep: set<Kid>) {
    && candidate in keep && keep <= order.Keys
    && (|order| <= capacity ==> keep == order.Keys)
    && (|order| > capacity ==>
          && |keep| == capacity
          && Dominates(order, candidate, keep))
  }

  predicate Dominates(order: map<Kid, int>, candidate: Kid, keep: set<Kid>)
    requires keep <= order.Keys
  {
    forall a, b | a in keep && a != candidate && b in order && b !in keep :: Newer(order, a, b)
  }

  /** A trim on the scores themselves: what goes has a lower score than what stays, or the same score
      and a lower id; only the candidate stays whatever its score is. */
  lemma TrimScores(order: map<Kid, int>, candidate: Kid, capacity: nat, keep: set<Kid>)
    requires 1 <= capacity && IsTrim(order, candidate, capacity, keep)
    ensures candidate in keep && |keep| == if |order| <= capacity then |order| else capacity
    ensures forall a, b | a in keep && a != candidate && b in order && b !in keep ::
      order[b] < order[a] || (order[b] == order[a] && b < a)
  {
    assert |order| == |order.Keys|;
    forall a, b | a in keep && a != candidate && b in order && b !in keep
      ensures order[b] < order[a] || (order[b] == order[a] && b < a)
    {
      assert Newer(order, a, b);
    }
  }

  function Restrict<V>(m: map<Kid, V>, keep: set<Kid>): map<Kid, V> {
    map k | k in m && k in keep :: m[k]
  }

  /** The state after a key became current and others were trimmed down to `keep`. */
  function Installed(s: State, key: Key, keep: set<Kid>): State {
    State(Some(key.kid), Restrict(s.keys[key.kid := key], keep), Restrict(s.order[key.kid := key.createdAt], keep))
  }

  /** What the current script reports: the current id, and its payload when there is one. */
  function CurrentOf(s: State): (Option<Key>, Option<Kid>) {
    if s.current.None? then (None, None)
    else if s.current.value in s.keys then (Some(s.keys[s.current.value]), s.current)
    else (None, s.current)
  }

  /** The compare step of the rotate script: another key that can still be read is current. */
  predicate Loses(s: State, observed: Option<Kid>) {
    s.current.Some? && s.current != observed && s.current.value in s.keys
  }

  /** Hash and sorted set hold the same ids, the pointer is among them, and there are not too many. */
  ghost predicate Consistent(s: State, capacity: nat) {
    && s.keys.Keys == s.order.Keys
    && (s.current.Some? ==> s.current.value in s.keys)
    && |s.keys| <= capacity
    && forall k | k in s.keys :: s.keys[k].kid == k && s.keys[k].createdAt == s.order[k]
  }

  lemma InstalledIsConsistent(s: State, key: Key, capacity: nat, keep: set<Kid>)
    requires 1 <= capacity && Consistent(s, capacity)
    requires IsTrim(s.order[key.kid := key.createdAt], key.kid, capacity, keep)
    ensures Consistent(Installed(s, key, keep), capacity)
    ensures Installed(s, key, keep).keys.Keys == keep
    ensures CurrentOf(Installed(s, key, keep)) == (Some(key), Some(key.kid))
  {
    var next := Installed(s, key, keep);
    assert next.keys.Keys == keep;
    assert next.order.Keys == keep;
    var order := s.order[key.kid := key.createdAt];
    assert |keep| <= capacity by {
      if |order| <= capacity {
        assert keep == order.Keys;
      }
    }
    assert |next.keys| == |next.keys.Keys|;
  }

  class Server {
    var current: Option<Kid>
    var keys: map<Kid, Key>
    var order: map<Kid, int>

    constructor ()
      ensures Value() == EMPTY
    {
      current, keys, order := None, map[], map[];
    }

    ghost function Value(): State
      reads this
    {
      State(current, keys, order)
    }

    /** The trim block of both storing scripts: the `keep` table is filled from the newest down, then
        every id outside it is removed from the hash and from the sorted set. */
    method Trim(candidate: Kid, capacity: nat)
      requires 1 <= capacity && candidate in order && keys.Keys == order.Keys
      modifies this
      ensures current == old(current)
      ensures IsTrim(old(order), candidate, capacity, order.Keys)
      ensures keys == Restrict(old(keys), order.Keys) && order == Restrict(old(order), order.Keys)
      ensures candidate in order && |order| == if |old(order)| <= capacity then |old(order)| else capacity
      ensures forall k | k in order :: k in old(order) && order[k] == old(order)[k] && keys[k] == old(keys)[k]
      ensures forall a, b | a in order && a != candidate && b in old(order) && b !in order ::
        old(order)[b] < old(order)[a] || (old(order)[b] == old(order)[a] && b < a)
    {
      hide Newer, Dominates;
      var count := |order|;
      if count > capacity {
        var newest := NewestFirst(order);
        assert Members(newest) == order.Keys;
        var keep := FillKeep(order, newest, candidate, capacity);
        RemoveStale(newest, keep);
      } else {
        assert order == Restrict(order, order.Keys) && keys == Restrict(keys, order.Keys);
      }
      TrimScores(old(order), candidate, capacity, order.Keys);
    }

    /** Removes every id outside `keep`, oldest first. */
    method RemoveStale(newest: seq<Kid>, keep: set<Kid>)
      requires keys.Keys == order.Keys && keep <= order.Keys
      requires forall k | k in order :: k in newest
      modifies this
      ensures current == old(current) && order.Keys == keep
      ensures keys == Restrict(old(keys), keep) && order == Restrict(old(order), keep)
    {
      ghost var gone: set<Kid> := {};
      var i := |newest|;
      assert newest[..i] == newest;
      while i > 0
        invariant 0 <= i <= |newest| && current == old(current)
        invariant keys == old(keys) - gone && order == old(order) - gone
        invariant gone !! keep
        invariant forall k | k in old(order) :: k in keep || k in gone || k in newest[..i]
      {
        i := i - 1;
        var stale := newest[i];
        assert newest[..i + 1] == newest[..i] + [stale];
        if stale !in keep {
          keys := keys - {stale};
          order := order - {stale};
          gone := gone + {stale};
        }
      }
    }

    /** HSET, ZADD and SET, then the trim: the whole of the store script. */
    method StoreScript(key: Key, capacity: nat) returns (kid: Kid, payload: Key)
      requires 1 <= capacity && Consistent(Value(), capacity)
      modifies this
      ensures Consistent(Value(), capacity)
      ensures IsTrim(old(order)[key.kid := key.createdAt], key.kid, capacity, keys.Keys)
      ensures Value() == Installed(old(Value()), key, keys.Keys)
      ensures kid == key.kid && payload == key
      ensures key.kid in keys && keys[key.kid] == key && current == Some(key.kid)
      ensures |keys| == if |old(keys).Keys + {key.kid}| <= capacity then |old(keys).Keys + {key.kid}| else capacity
      ensures forall k | k in keys && k != key.kid ::
        k in old(keys) && keys[k] == old(keys)[k] && order[k] == old(order)[k]
      ensures forall a, b | a in keys && a != key.kid && b in old(keys) && b !in keys ::
        old(order)[b] < old(order)[a] || (old(order)[b] == old(order)[a] && b < a)
    {
      keys := keys[key.kid := key];
      order := order[key.kid := key.createdAt];
      current := Some(key.kid);
      Trim(key.kid, capacity);
      InstalledIsConsistent(old(Value()), key, capacity, order.Keys);
      assert old(order)[key.kid := key.createdAt].Keys == old(keys).Keys + {key.kid};
      return key.kid, key;
    }

    /** The rotate script: stores the candidate only if the current key is still the observed one. */
    method RotateCasScript(observed: Option<Kid>, key: Key, capacity: nat) returns (won: bool, payload: Key, kid: Kid)
      requires 1 <= capacity && Consistent(Value(), capacity)
      modifies this
      ensures Consistent(Value(), capacity)
      ensures won <==> !Loses(old(Value()), observed)
      ensures !won ==> Value() == old(Value()) && CurrentOf(Value()) == (Some(payload), Some(kid))
      ensures won ==> IsTrim(old(order)[key.kid := key.createdAt], key.kid, capacity, keys.Keys)
      ensures won ==> Value() == Installed(old(Value()), key, keys.Keys) && payload == key && kid == key.kid
      ensures !won <==> old(current).Some? && old(current) != observed && old(current).value in old(keys)
      ensures !won ==> kid == old(current).value && payload == old(keys)[kid]
      ensures won ==> key.kid in keys && keys[key.kid] == key && current == Some(key.kid)
      ensures won ==>
        |keys| == if |old(keys).Keys + {key.kid}| <= capacity then |old(keys).Keys + {key.kid}| else capacity
      ensures won ==> forall k | k in keys && k != key.kid ::
        k in old(keys) && keys[k] == old(keys)[k] && order[k] == old(order)[k]
      ensures won ==> forall a, b | a in keys && a != key.kid && b in old(keys) && b !in keys ::
        old(order)[b] < old(order)[a] || (old(order)[b] == old(order)[a] && b < a)
    {
      if current.Some? && current != observed {
        if current.value in keys {
          return false, keys[current.value], current.value;
        }
      }
      kid, payload := StoreScript(key, capacity);
      won := true;
    }
  }

  ghost function Members(s: seq<Kid>): set<Kid> {
    set k | k in s
  }

  /** The `keep` table when the ids in `seen`, newest first, were considered. */
  ghost predicate Keeping(order: map<Kid, int>, candidate: Kid, capacity: nat, seen: set<Kid>, keep: set<Kid>,
                          retained: nat) {
    && candidate in keep && keep <= order.Keys && keep <= seen + {candidate}
    && |keep| == 1 + retained && retained <= capacity - 1
    && (retained < capacity - 1 ==> seen <= keep)
    && Dominates(order, candidate, keep)
  }

  lemma KeepOne(order: map<Kid, int>, newest: seq<Kid>, i: nat, candidate: Kid, capacity: nat, keep: set<Kid>,
                retained: nat)
    requires Sorted(order, newest) && Members(newest) == order.Keys && i < |newest|
    requires Keeping(order, candidate, capacity, Members(newest[..i]), keep, retained)
    ensures var kid := newest[i];
            if kid != candidate && retained < capacity - 1
            then Keeping(order, candidate, capacity, Members(newest[..i + 1]), keep + {kid}, retained + 1)
            else Keeping(order, candidate, capacity, Members(newest[..i + 1]), keep, retained)
  {
    hide Newer, Dominates, Sorted, Members;
    NextMember(order, newest, i);
    if newest[i] != candidate && retained < capacity - 1 {
      KeepNext(order, newest, i, candidate, keep);
    }
  }

  lemma KeepIsTrim(order: map<Kid, int>, candidate: Kid, capacity: nat, keep: set<Kid>, retained: nat)
    requires 1 <= capacity < |order| && Keeping(order, candidate, capacity, order.Keys, keep, retained)
    ensures IsTrim(order, candidate, capacity, keep)
  {
    hide Newer, Dominates;
    assert retained < capacity - 1 ==> keep == order.Keys;
    assert |order.Keys| == |order|;
  }

  /** Fills the `keep` table: the candidate, and the first `capacity - 1` other ids, newest first. */
  method FillKeep(order: map<Kid, int>, newest: seq<Kid>, candidate: Kid, capacity: nat) returns (keep: set<Kid>)
    requires 1 <= capacity < |order| && candidate in order
    requires Sorted(order, newest) && Members(newest) == order.Keys
    ensures IsTrim(order, candidate, capacity, keep)
    ensures candidate in keep && |keep| == capacity
    ensures forall a, b | a in keep && a != candidate && b in order && b !in keep ::
      order[b] < order[a] || (order[b] == order[a] && b < a)
  {
    keep := {candidate};
    var retained := 0;
    MembersEmpty(newest);
    assert Keeping(order, candidate, capacity, Members(newest[..0]), keep, retained);
    hide Newer, Dominates, Sorted, Members, Keeping, IsTrim;
    for i := 0 to |newest|
      invariant Keeping(order, candidate, capacity, Members(newest[..i]), keep, retained)
    {
      var kid := newest[i];
      KeepOne(order, newest, i, candidate, capacity, keep, retained);
      if kid != candidate && retained < capacity - 1 {
        keep := keep + {kid};
        retained := retained + 1;
      }
    }
    assert newest[..|newest|] == newest;
    KeepIsTrim(order, candidate, capacity, keep, retained);
    TrimScores(order, candidate, capacity, keep);
  }

  lemma MembersEmpty(s: seq<Kid>)
    ensures Members(s[..0]) == {}
  {
  }

  lemma NextMember(order: map<Kid, int>, newest: seq<Kid>, i: nat)
    requires Sorted(order, newest) && i < |newest|
    ensures newest[i] in order
    ensures Members(newest[..i + 1]) == Members(newest[..i]) + {newest[i]}
    ensures newest[i] !in Members(newest[..i])
  {
    assert newest[..i + 1] == newest[..i] + [newest[i]];
    assert forall j | 0 <= j < i :: Newer(order, newest[j], newest[i]);
  }

  lemma KeepNext(order: map<Kid, int>, newest: seq<Kid>, i: nat, candidate: Kid, keep: set<Kid>)
    requires Sorted(order, newest) && Members(newest) == order.Keys
    requires i < |newest| && keep <= order.Keys && Dominates(order, candidate, keep)
    requires Members(newest[..i]) <= keep
    ensures newest[i] in order
    ensures Dominates(order, candidate, keep + {newest[i]})
  {
    hide Newer;
    var kid := newest[i];
    forall b | b in order && b !in keep && b != kid ensures Newer(order, kid, b) {
      assert b in newest;
      var j :| 0 <= j < |newest| && newest[j] == b;
      assert forall k | 0 <= k < i :: newest[..i][k] in Members(newest[..i]);
    }
  }
}
