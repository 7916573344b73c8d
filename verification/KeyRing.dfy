/** The in-memory key ring of a JWT provider (jwt/repository.go): newest key first, bounded. */
module KeyRing {
  import opened Wrappers

  datatype Key = Key(kid: string, algorithm: string, expiresAt: Option<int>) {
    predicate Expired(now: int) {
      expiresAt.Some? && expiresAt.value <= now
    }
  }

  datatype KeyError = KeyNotFound | InvalidKey | CreateError | CapacityOutOfBounds

  const DEFAULT_SIZE := 10
  const MIN_SIZE := 2
  const MAX_SIZE := 1000

  /** The ring with `key` in front, cut to its capacity. */
  function Prepend(keys: seq<Key>, key: Key, capacity: nat): seq<Key> {
    var longer := [key] + keys;
    if |longer| > capacity then longer[..capacity] else longer
  }

  /** Looking up an id: the newest key with it decides, and an expired one is an error. */
  function Find(keys: seq<Key>, kid: string, now: int): (r: Result<Key, KeyError>)
    ensures forall i | 0 <= i < |keys| && keys[i].kid == kid && (forall j | 0 <= j < i :: keys[j].kid != kid) ::
      r == if keys[i].Expired(now) then Err(InvalidKey) else Ok(keys[i])
    ensures r.Ok? ==> r.value in keys && r.value.kid == kid && !r.value.Expired(now)
    ensures (forall key | key in keys :: key.kid != kid) <==> r == Err(KeyNotFound)
  {
    if keys == [] then Err(KeyNotFound)
    else if keys[0].kid == kid then if keys[0].Expired(now) then Err(InvalidKey) else Ok(keys[0])
    else Find(keys[1..], kid, now)
  }

  class Repository {
    const capacity: nat
    var keys: seq<Key>

    constructor (capacity: nat)
      requires MIN_SIZE <= capacity <= MAX_SIZE
      ensures this.capacity == capacity && keys == [] && Valid()
    {
      this.capacity := capacity;
      keys := [];
    }

    ghost predicate Valid()
      reads this
    {
      MIN_SIZE <= capacity <= MAX_SIZE && |keys| <= capacity
    }

    method Lookup(kid: string, now: int) returns (r: Result<Key, KeyError>)
      ensures r == if kid == "" then Err(KeyNotFound) else Find(keys, kid, now)
    {
      if kid == "" {
        return Err(KeyNotFound);
      }
      assert keys[0..] == keys;
      for i := 0 to |keys|
        invariant Find(keys[i..], kid, now) == Find(keys, kid, now)
      {
        assert keys[i..][1..] == keys[i + 1..];
        if keys[i].kid == kid {
          if keys[i].Expired(now) {
            return Err(InvalidKey);
          }
          return Ok(keys[i]);
        }
      }
      return Err(KeyNotFound);
    }

    /** The newest key that is not expired. */
    method Current(now: int) returns (r: Result<Key, KeyError>)
      ensures r.Ok? ==> exists i | 0 <= i < |keys| ::
        keys[i] == r.value && !keys[i].Expired(now) && forall j | 0 <= j < i :: keys[j].Expired(now)
      ensures r.Err? ==> r.error == KeyNotFound && forall j | 0 <= j < |keys| :: keys[j].Expired(now)
    {
      for i := 0 to |keys|
        invariant forall j | 0 <= j < i :: keys[j].Expired(now)
      {
        if !keys[i].Expired(now) {
          return Ok(keys[i]);
        }
      }
      return Err(KeyNotFound);
    }

    /** Adds the created key only when every key is expired. */
    method Rotate(created: Option<Key>, now: int) returns (r: Result<Key, KeyError>)
      requires Valid()
      modifies this
      ensures Valid()
      ensures (exists j | 0 <= j < |old(keys)| :: !old(keys)[j].Expired(now)) ==>
        && keys == old(keys) && r.Ok?
        && exists i | 0 <= i < |keys| ::
             keys[i] == r.value && !keys[i].Expired(now) && forall j | 0 <= j < i :: keys[j].Expired(now)
      ensures (forall j | 0 <= j < |old(keys)| :: old(keys)[j].Expired(now)) ==>
        if created.None? then keys == old(keys) && r == Err(CreateError)
        else && r == Ok(created.value) && keys == Prepend(old(keys), created.value, capacity)
             && keys[0] == created.value && keys[1..] == old(keys)[..|keys| - 1]
             && |keys| == if |old(keys)| < capacity then |old(keys)| + 1 else capacity
    {
      r := Current(now);
      if r.Ok? {
        return r;
      }
      if created.None? {
        return Err(CreateError);
      }
      PrependLocked(created.value);
      return Ok(created.value);
    }

    method ForceRotate(created: Option<Key>) returns (r: Result<Key, KeyError>)
      requires Valid()
      modifies this
      ensures Valid()
      ensures created.None? ==> keys == old(keys) && r == Err(CreateError)
      ensures created.Some? ==>
        && r == Ok(created.value) && keys == Prepend(old(keys), created.value, capacity)
        && keys[0] == created.value && keys[1..] == old(keys)[..|keys| - 1]
        && |keys| == if |old(keys)| < capacity then |old(keys)| + 1 else capacity
    {
      if created.None? {
        return Err(CreateError);
      }
      PrependLocked(created.value);
      return Ok(created.value);
    }

    method PrependLocked(key: Key)
      modifies this
      ensures keys == Prepend(old(keys), key, capacity) && |keys| <= capacity
      ensures 1 <= capacity ==> keys[0] == key && keys[1..] == old(keys)[..|keys| - 1]
      ensures |keys| == if |old(keys)| + 1 <= capacity then |old(keys)| + 1 else capacity
    {
      keys := [key] + keys;
      if |keys| > capacity {
        keys := keys[..capacity];
      }
    }
  }

  /** A ring of the requested capacity, ten if it is not given. */
  method NewRepository(capacity: int) returns (r: Result<Repository, KeyError>)
    ensures r.Ok? <==> capacity == 0 || 2 <= capacity <= 1000
    ensures r.Ok? ==> r.value.Valid() && r.value.keys == [] && fresh(r.value)
    ensures r.Ok? ==> r.value.capacity == if capacity == 0 then 10 else capacity
    ensures r.Err? ==> r.error == CapacityOutOfBounds
  {
    var size := if capacity == 0 then DEFAULT_SIZE else capacity;
    if size < MIN_SIZE || size > MAX_SIZE {
      return Err(CapacityOutOfBounds);
    }
    var ring := new Repository(size);
    return Ok(ring);
  }

  /** A rotated-in key is found at once, and the other keys that stay are found as before. */
  lemma PrependLookup(keys: seq<Key>, key: Key, capacity: nat, kid: string, now: int)
    requires 1 <= capacity
    ensures !key.Expired(now) ==> Find(Prepend(keys, key, capacity), key.kid, now) == Ok(key)
    ensures kid != key.kid && Find(Prepend(keys, key, capacity), kid, now).Ok? ==>
      Find(Prepend(keys, key, capacity), kid, now) == Find(keys, kid, now)
  {
    var next := Prepend(keys, key, capacity);
    assert next[0] == key;
    var rest := next[1..];
    assert rest <= keys;
    if Find(rest, kid, now) != Err(KeyNotFound) {
      PrefixLookup(rest, keys, kid, now);
    }
  }

  lemma {:induction false} PrefixLookup(prefix: seq<Key>, keys: seq<Key>, kid: string, now: int)
    requires prefix <= keys && Find(prefix, kid, now) != Err(KeyNotFound)
    ensures Find(keys, kid, now) == Find(prefix, kid, now)
  {
    if prefix != [] && prefix[0].kid != kid {
      PrefixLookup(prefix[1..], keys[1..], kid, now);
    }
  }
}
