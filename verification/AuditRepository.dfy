/** The in-memory audit repository and histories (audit/memory_repository.go, audit/history.go). */
module AuditRepository {
  import opened Wrappers

  /** Revisions are 64-bit unsigned numbers; adding one wraps around. */
  const REVISIONS := 0x1_0000_0000_0000_0000

  type Revision = x: int | 0 <= x < REVISIONS

  datatype Aggregate = Aggregate(typ: string, id: string) {
    predicate Valid() {
      !Blank(typ) && !Blank(id)
    }
  }

  predicate Blank(s: string) {
    forall i | 0 <= i < |s| :: s[i] == ' ' || '\t' <= s[i] <= '\r'
  }

  datatype Event = Event(eventId: string, idempotencyKey: string, aggregate: Aggregate, revision: Revision,
                         recordedAt: int)

  /** `wellFormed` stands for the checks on text, time and JSON fields that no rule below looks at. */
  datatype Entry = Entry(aggregate: Aggregate, revision: Revision, event: Event, hasSnapshot: bool, wellFormed: bool) {
    predicate Valid() {
      wellFormed && aggregate.Valid() && revision != 0 && event.aggregate == aggregate && event.revision == revision
    }
  }

  datatype AuditError = Cancelled | InvalidEntry | MixedAggregate | RevisionConflict | InvalidRevision | InvalidQuery

  datatype History = History(aggregate: Aggregate, entries: seq<Entry>, head: Revision)

  // ---- Specification ----

  function Of(entries: seq<Entry>, aggregate: Aggregate): seq<Entry> {
    if entries == [] then []
    else
      var last := entries[|entries| - 1];
      Of(entries[..|entries| - 1], aggregate) + if last.aggregate == aggregate then [last] else []
  }

  ghost predicate Numbered(entries: seq<Entry>, first: int) {
    forall i | 0 <= i < |entries| :: entries[i].revision == first + i
  }

  ghost predicate DistinctEvents(entries: seq<Entry>) {
    forall i, j | 0 <= i < j < |entries| ::
      && entries[i].event.eventId != entries[j].event.eventId
      && entries[i].event.idempotencyKey != entries[j].event.idempotencyKey
  }

  ghost predicate AllValid(entries: seq<Entry>) {
    forall i | 0 <= i < |entries| :: entries[i].Valid()
  }

  ghost predicate SameAggregate(entries: seq<Entry>, aggregate: Aggregate) {
    forall i | 0 <= i < |entries| :: entries[i].aggregate == aggregate
  }

  /** Every aggregate's entries, in append order, have revisions 1, 2, 3 and so on; event ids and
      idempotency keys are unique in the whole repository. */
  ghost predicate Inv(entries: seq<Entry>) {
    AllValid(entries) && DistinctEvents(entries) && forall a: Aggregate :: Numbered(Of(entries, a), 1)
  }

  /** What a batch must be to be appended. */
  ghost predicate Acceptable(entries: seq<Entry>, batch: seq<Entry>)
    requires batch != []
  {
    && AllValid(batch) && SameAggregate(batch, batch[0].aggregate)
    && Numbered(batch, |Of(entries, batch[0].aggregate)| + 1)
    && DistinctEvents(entries + batch)
  }

  ghost predicate IsHistory(entries: seq<Entry>) {
    entries != [] && AllValid(entries) && SameAggregate(entries, entries[0].aggregate)
    && Numbered(entries, 1) && DistinctEvents(entries)
  }

  lemma {:induction false} OfConcat(a: seq<Entry>, b: seq<Entry>, aggregate: Aggregate)
    ensures Of(a + b, aggregate) == Of(a, aggregate) + Of(b, aggregate)
  {
    if b == [] {
      assert a + b == a;
    } else {
      assert (a + b)[..|a + b| - 1] == a + b[..|b| - 1];
      OfConcat(a, b[..|b| - 1], aggregate);
    }
  }

  lemma {:induction false} OfSame(entries: seq<Entry>, own: Aggregate, aggregate: Aggregate)
    requires SameAggregate(entries, own)
    ensures Of(entries, aggregate) == if aggregate == own then entries else []
  {
    if entries != [] {
      OfSame(entries[..|entries| - 1], own, aggregate);
    }
  }

  /** An appended batch keeps the repository right. */
  lemma AppendKeepsInv(entries: seq<Entry>, batch: seq<Entry>)
    requires Inv(entries) && batch != [] && Acceptable(entries, batch)
    ensures Inv(entries + batch)
  {
    hide Of, DistinctEvents;
    var own := batch[0].aggregate;
    forall a: Aggregate ensures Numbered(Of(entries + batch, a), 1) {
      OfConcat(entries, batch, a);
      OfSame(batch, own, a);
      assert Numbered(Of(entries, a), 1);
    }
  }

  lemma {:induction false} OfIsPart(entries: seq<Entry>, aggregate: Aggregate)
    ensures SameAggregate(Of(entries, aggregate), aggregate)
    ensures forall e | e in Of(entries, aggregate) :: e in entries
    ensures AllValid(entries) ==> AllValid(Of(entries, aggregate))
    ensures DistinctEvents(entries) ==> DistinctEvents(Of(entries, aggregate))
  {
    if entries != [] {
      var init := entries[..|entries| - 1];
      OfIsPart(init, aggregate);
      assert forall i | 0 <= i < |init| :: entries[i] == init[i];
      if DistinctEvents(entries) {
        assert DistinctEvents(init);
        var part, all := Of(init, aggregate), Of(entries, aggregate);
        forall i, j | 0 <= i < j < |all|
          ensures all[i].event.eventId != all[j].event.eventId
          ensures all[i].event.idempotencyKey != all[j].event.idempotencyKey
        {
          if j == |part| {
            assert part[i] in init;
          }
        }
      }
    }
  }

  /** What is stored for an aggregate is a history. */
  lemma StoredIsHistory(entries: seq<Entry>, aggregate: Aggregate)
    requires Inv(entries) && Of(entries, aggregate) != []
    ensures IsHistory(Of(entries, aggregate))
  {
    OfIsPart(entries, aggregate);
  }

  // ---- Sorting ----

  ghost predicate ByRevision(entries: seq<Entry>) {
    forall i, j | 0 <= i < j < |entries| :: entries[i].revision <= entries[j].revision
  }

  method SortByRevision(entries: seq<Entry>) returns (ordered: seq<Entry>)
    ensures ByRevision(ordered) && multiset(ordered) == multiset(entries)
  {
    ordered := [];
    for i := 0 to |entries|
      invariant ByRevision(ordered) && multiset(ordered) == multiset(entries[..i])
    {
      assert entries[..i + 1] == entries[..i] + [entries[i]];
      ordered := Insert(ordered, entries[i]);
    }
    assert entries[..|entries|] == entries;
  }

  method Insert(sorted: seq<Entry>, e: Entry) returns (r: seq<Entry>)
    requires ByRevision(sorted)
    ensures ByRevision(r) && multiset(r) == multiset(sorted) + multiset{e}
  {
    var k := |sorted|;
    while k > 0 && sorted[k - 1].revision > e.revision
      invariant 0 <= k <= |sorted|
      invariant forall i | k <= i < |sorted| :: sorted[i].revision > e.revision
    {
      k := k - 1;
    }
    r := sorted[..k] + [e] + sorted[k..];
    InsertKeepsOrder(sorted, k, e);
  }

  lemma InsertKeepsOrder(sorted: seq<Entry>, k: nat, e: Entry)
    requires ByRevision(sorted) && k <= |sorted|
    requires k > 0 ==> sorted[k - 1].revision <= e.revision
    requires forall i | k <= i < |sorted| :: e.revision <= sorted[i].revision
    ensures ByRevision(sorted[..k] + [e] + sorted[k..])
    ensures multiset(sorted[..k] + [e] + sorted[k..]) == multiset(sorted) + multiset{e}
  {
    assert sorted == sorted[..k] + sorted[k..];
    InsertedMultiset(sorted[..k], e, sorted[k..]);
    forall i | 0 <= i < k ensures sorted[i].revision <= e.revision {
      assert i == k - 1 || sorted[i].revision <= sorted[k - 1].revision;
    }
    OrderedParts(sorted[..k], e, sorted[k..]);
  }

  lemma InsertedMultiset<T>(front: seq<T>, e: T, back: seq<T>)
    ensures multiset(front + [e] + back) == multiset(front + back) + multiset{e}
  {
  }

  lemma OrderedParts(front: seq<Entry>, e: Entry, back: seq<Entry>)
    requires ByRevision(front + back)
    requires forall i | 0 <= i < |front| :: front[i].revision <= e.revision
    requires forall i | 0 <= i < |back| :: e.revision <= back[i].revision
    ensures ByRevision(front + [e] + back)
  {
    var all, r := front + back, front + [e] + back;
    forall i, j | 0 <= i < j < |r| ensures r[i].revision <= r[j].revision {
      var x, y := if i <= |front| then i else i - 1, if j <= |front| then j else j - 1;
      assert i != |front| ==> r[i] == all[x];
      assert j != |front| ==> r[j] == all[y];
    }
  }

  lemma TailMultiset<T>(s: seq<T>)
    requires s != []
    ensures multiset(s[1..]) == multiset(s) - multiset{s[0]}
  {
    assert s == [s[0]] + s[1..];
  }

  /** A numbered sequence is the only sorted arrangement of its entries. */
  lemma {:induction false} SortIsUnique(a: seq<Entry>, b: seq<Entry>, first: int)
    requires multiset(a) == multiset(b) && Numbered(a, first) && ByRevision(b)
    ensures a == b
  {
    assert |multiset(a)| == |a| && |multiset(b)| == |b|;
    if a != [] {
      SmallestComesFirst(a, b, first);
      TailMultiset(a);
      TailMultiset(b);
      SortIsUnique(a[1..], b[1..], first + 1);
    }
  }

  lemma SmallestComesFirst(a: seq<Entry>, b: seq<Entry>, first: int)
    requires multiset(a) == multiset(b) && Numbered(a, first) && ByRevision(b) && a != [] && b != []
    ensures a[0] == b[0]
  {
    assert a[0] in multiset(b) && b[0] in multiset(a);
    var i :| 0 <= i < |a| && a[i] == b[0];
    var j :| 0 <= j < |b| && b[j] == a[0];
    assert j > 0 ==> b[0].revision <= b[j].revision;
    assert a[i].revision == first + i;
  }

  // ---- The seen-maps ----

  ghost function EventIds(entries: seq<Entry>): set<string> {
    set e | e in entries :: e.event.eventId
  }

  ghost function Keys(entries: seq<Entry>): set<string> {
    set e | e in entries :: e.event.idempotencyKey
  }

  /** The two maps after these entries were entered. */
  ghost predicate Seen(entries: seq<Entry>, ids: set<string>, keys: map<string, string>) {
    ids == EventIds(entries) && keys.Keys == Keys(entries) && forall k | k in keys :: keys[k] in ids
  }

  /** An entry clashes when its event id is known, or its idempotency key is known from another event. */
  predicate Clashes(ids: set<string>, keys: map<string, string>, e: Entry) {
    e.event.eventId in ids || (e.event.idempotencyKey in keys && keys[e.event.idempotencyKey] != e.event.eventId)
  }

  lemma SeenSnoc(entries: seq<Entry>, e: Entry, ids: set<string>, keys: map<string, string>)
    requires Seen(entries, ids, keys)
    ensures Seen(entries + [e], ids + {e.event.eventId}, keys[e.event.idempotencyKey := e.event.eventId])
  {
    assert EventIds(entries + [e]) == EventIds(entries) + {e.event.eventId} by {
      assert forall x :: x in entries + [e] <==> x in entries || x == e;
    }
    assert Keys(entries + [e]) == Keys(entries) + {e.event.idempotencyKey} by {
      assert forall x :: x in entries + [e] <==> x in entries || x == e;
    }
  }

  lemma ClashMeaning(entries: seq<Entry>, e: Entry, ids: set<string>, keys: map<string, string>)
    requires Seen(entries, ids, keys)
    ensures Clashes(ids, keys, e) <==> exists i | 0 <= i < |entries| ::
      entries[i].event.eventId == e.event.eventId || entries[i].event.idempotencyKey == e.event.idempotencyKey
  {
    if e.event.eventId in ids {
      var x :| x in entries && x.event.eventId == e.event.eventId;
      var i :| 0 <= i < |entries| && entries[i] == x;
    }
    if e.event.idempotencyKey in keys {
      var x :| x in entries && x.event.idempotencyKey == e.event.idempotencyKey;
      var i :| 0 <= i < |entries| && entries[i] == x;
    }
    if i :| 0 <= i < |entries|
            && (entries[i].event.eventId == e.event.eventId
                || entries[i].event.idempotencyKey == e.event.idempotencyKey)
    {
      assert entries[i] in entries;
      assert entries[i].event.eventId in ids && entries[i].event.idempotencyKey in keys;
    }
  }

  lemma DistinctSnoc(entries: seq<Entry>, e: Entry, ids: set<string>, keys: map<string, string>)
    requires Seen(entries, ids, keys)
    ensures DistinctEvents(entries + [e]) <==> DistinctEvents(entries) && !Clashes(ids, keys, e)
  {
    hide Seen, Clashes;
    ClashMeaning(entries, e, ids, keys);
    var all := entries + [e];
    assert forall i | 0 <= i < |entries| :: all[i] == entries[i];
    assert all[|entries|] == e;
  }

  /** What a check of one more entry adds to what is known of the entries before it. */
  lemma OneMore(entries: seq<Entry>, n: nat, own: Aggregate, first: int)
    requires n < |entries|
    ensures AllValid(entries[..n + 1]) <==> AllValid(entries[..n]) && entries[n].Valid()
    ensures SameAggregate(entries[..n + 1], own) <==> SameAggregate(entries[..n], own) && entries[n].aggregate == own
    ensures Numbered(entries[..n + 1], first) <==> Numbered(entries[..n], first) && entries[n].revision == first + n
  {
    assert entries[..n + 1] == entries[..n] + [entries[n]];
  }

  /** A rule broken by the first entries is broken by all. */
  lemma PartOfAll(entries: seq<Entry>, n: nat, own: Aggregate, first: int)
    requires n <= |entries|
    ensures AllValid(entries) ==> AllValid(entries[..n])
    ensures SameAggregate(entries, own) ==> SameAggregate(entries[..n], own)
    ensures Numbered(entries, first) ==> Numbered(entries[..n], first)
    ensures DistinctEvents(entries) ==> DistinctEvents(entries[..n])
  {
    assert forall i | 0 <= i < n :: entries[..n][i] == entries[i];
  }

  /** No rule is broken by no entries. */
  lemma NothingYet(entries: seq<Entry>, own: Aggregate, first: int)
    ensures AllValid(entries[..0]) && SameAggregate(entries[..0], own) && Numbered(entries[..0], first)
    ensures DistinctEvents(entries[..0]) && Seen(entries[..0], {}, map[])
  {
  }

  // ---- Histories ----

  /** Checks an ordered, non-empty sequence. */
  method CheckHistory(ordered: seq<Entry>) returns (r: Option<AuditError>)
    requires ordered != []
    ensures r.None? <==> IsHistory(ordered)
    ensures r == Some(InvalidEntry) ==> !AllValid(ordered)
    ensures r == Some(MixedAggregate) ==> !SameAggregate(ordered, ordered[0].aggregate)
    ensures r == Some(RevisionConflict) ==> !(Numbered(ordered, 1) && DistinctEvents(ordered))
    ensures r.Some? ==> r.value in {InvalidEntry, MixedAggregate, RevisionConflict}
  {
    hide Seen, DistinctEvents, AllValid, SameAggregate, Numbered, Clashes;
    var aggregate := ordered[0].aggregate;
    NothingYet(ordered, aggregate, 1);
    var seenEventIds: set<string> := {};
    var seenKeys: map<string, string> := map[];
    for i := 0 to |ordered|
      invariant AllValid(ordered[..i]) && SameAggregate(ordered[..i], aggregate) && Numbered(ordered[..i], 1)
      invariant DistinctEvents(ordered[..i]) && Seen(ordered[..i], seenEventIds, seenKeys)
    {
      var entry := ordered[i];
      OneMore(ordered, i, aggregate, 1);
      PartOfAll(ordered, i + 1, aggregate, 1);
      if !entry.Valid() {
        return Some(InvalidEntry);
      }
      if entry.aggregate != aggregate {
        return Some(MixedAggregate);
      }
      if entry.revision != i + 1 || entry.revision != entry.event.revision {
        return Some(RevisionConflict);
      }
      assert ordered[..i + 1] == ordered[..i] + [entry];
      DistinctSnoc(ordered[..i], entry, seenEventIds, seenKeys);
      if Clashes(seenEventIds, seenKeys, entry) {
        return Some(RevisionConflict);
      }
      SeenSnoc(ordered[..i], entry, seenEventIds, seenKeys);
      seenEventIds := seenEventIds + {entry.event.eventId};
      seenKeys := seenKeys[entry.event.idempotencyKey := entry.event.eventId];
    }
    assert ordered[..|ordered|] == ordered;
    return None;
  }

  /** Builds a history out of entries in any order, if some order of them is one. */
  method NewHistory(entries: seq<Entry>) returns (r: Result<History, AuditError>)
    ensures r.Ok? ==>
      && IsHistory(r.value.entries) && multiset(r.value.entries) == multiset(entries)
      && r.value.aggregate == r.value.entries[0].aggregate && r.value.head == |r.value.entries|
    ensures r.Ok? <==> exists ordered :: multiset(ordered) == multiset(entries) && IsHistory(ordered)
    ensures IsHistory(entries) ==> r.Ok? && r.value.entries == entries
  {
    if |entries| == 0 {
      forall ordered | multiset(ordered) == multiset(entries) ensures !IsHistory(ordered) {
        assert |multiset(ordered)| == |ordered| == 0;
      }
      return Err(InvalidEntry);
    }
    var ordered := SortByRevision(entries);
    assert |multiset(ordered)| == |ordered| && |multiset(entries)| == |entries|;
    var failure := CheckHistory(ordered);
    forall other | multiset(other) == multiset(entries) && IsHistory(other) ensures other == ordered {
      SortIsUnique(other, ordered, 1);
    }
    if failure.Some? {
      return Err(failure.value);
    }
    return Ok(History(ordered[0].aggregate, ordered, ordered[|ordered| - 1].revision));
  }

  // ---- Appending ----

  ghost predicate IsBatch(batch: seq<Entry>) {
    && batch != [] && SameAggregate(batch, batch[0].aggregate)
    && Numbered(batch, batch[0].revision) && DistinctEvents(batch)
  }

  function Successor(r: Revision): Revision {
    (r + 1) % REVISIONS
  }

  /** Wrapping around never makes a valid revision follow another. */
  lemma SuccessorMeaning(r: Revision, next: Revision)
    requires next != 0
    ensures next == Successor(r) <==> next == r + 1
  {
  }

  method ValidateAppendBatch(batch: seq<Entry>) returns (r: Option<AuditError>)
    requires batch != [] && AllValid(batch)
    ensures r.None? <==> IsBatch(batch)
    ensures r == Some(MixedAggregate) ==> !SameAggregate(batch, batch[0].aggregate)
    ensures r == Some(RevisionConflict) ==> !(Numbered(batch, batch[0].revision) && DistinctEvents(batch))
    ensures r.Some? ==> r.value in {MixedAggregate, RevisionConflict}
  {
    hide Seen, DistinctEvents, SameAggregate, Numbered, Clashes, Successor;
    var aggregate := batch[0].aggregate;
    NothingYet(batch, aggregate, batch[0].revision);
    ghost var first := batch[0].revision;
    var seenEventIds: set<string> := {};
    var seenKeys: map<string, string> := map[];
    for i := 0 to |batch|
      invariant SameAggregate(batch[..i], aggregate) && Numbered(batch[..i], first)
      invariant DistinctEvents(batch[..i]) && Seen(batch[..i], seenEventIds, seenKeys)
    {
      var entry := batch[i];
      OneMore(batch, i, aggregate, first);
      PartOfAll(batch, i + 1, aggregate, first);
      if entry.aggregate != aggregate {
        return Some(MixedAggregate);
      }
      assert entry.Valid();
      if i > 0 {
        OneMore(batch, i - 1, aggregate, first);
        SuccessorMeaning(batch[i - 1].revision, entry.revision);
      }
      if i > 0 && entry.revision != Successor(batch[i - 1].revision) {
        return Some(RevisionConflict);
      }
      assert batch[..i + 1] == batch[..i] + [entry];
      DistinctSnoc(batch[..i], entry, seenEventIds, seenKeys);
      if Clashes(seenEventIds, seenKeys, entry) {
        return Some(RevisionConflict);
      }
      SeenSnoc(batch[..i], entry, seenEventIds, seenKeys);
      seenEventIds := seenEventIds + {entry.event.eventId};
      seenKeys := seenKeys[entry.event.idempotencyKey := entry.event.eventId];
    }
    assert batch[..|batch|] == batch;
    return None;
  }

  lemma DistinctConcat(a: seq<Entry>, b: seq<Entry>, ids: set<string>, keys: map<string, string>)
    requires Seen(a, ids, keys) && DistinctEvents(a) && DistinctEvents(b)
    ensures DistinctEvents(a + b) <==> forall i | 0 <= i < |b| :: !Clashes(ids, keys, b[i])
  {
    hide Seen, Clashes;
    var all := a + b;
    assert forall i | 0 <= i < |b| :: all[|a| + i] == b[i];
    if DistinctEvents(all) {
      forall i | 0 <= i < |b| ensures !Clashes(ids, keys, b[i]) {
        ClashMeaning(a, b[i], ids, keys);
        assert forall k | 0 <= k < |a| :: all[k] == a[k] && k < |a| + i;
        assert forall k | 0 <= k < |a| :: all[k].event.eventId != all[|a| + i].event.eventId;
      }
    }
    if forall i | 0 <= i < |b| :: !Clashes(ids, keys, b[i]) {
      forall i, j | 0 <= i < j < |all|
        ensures all[i].event.eventId != all[j].event.eventId
        ensures all[i].event.idempotencyKey != all[j].event.idempotencyKey
      {
        if i < |a| <= j {
          ClashMeaning(a, b[j - |a|], ids, keys);
        }
      }
    }
  }

  /** Enters every stored entry into the maps and collects those of the batch's aggregate. */
  method Existing(entries: seq<Entry>, aggregate: Aggregate)
    returns (existing: seq<Entry>, ids: set<string>, keys: map<string, string>)
    ensures existing == Of(entries, aggregate) && Seen(entries, ids, keys)
  {
    existing, ids, keys := [], {}, map[];
    for i := 0 to |entries|
      invariant existing == Of(entries[..i], aggregate) && Seen(entries[..i], ids, keys)
    {
      hide Seen;
      var entry := entries[i];
      assert entries[..i + 1] == entries[..i] + [entry];
      assert entries[..i + 1][..i] == entries[..i];
      SeenSnoc(entries[..i], entry, ids, keys);
      ids := ids + {entry.event.eventId};
      keys := keys[entry.event.idempotencyKey := entry.event.eventId];
      if entry.aggregate == aggregate {
        existing := existing + [entry];
      }
    }
    assert entries[..|entries|] == entries;
  }

  method ValidateContinuation(entries: seq<Entry>, batch: seq<Entry>) returns (r: Option<AuditError>)
    requires Inv(entries) && AllValid(batch) && IsBatch(batch)
    ensures r.None? <==> Acceptable(entries, batch)
    ensures r.Some? ==> r.value in {RevisionConflict, InvalidRevision}
    ensures r == Some(InvalidRevision) ==> |Of(entries, batch[0].aggregate)| == REVISIONS - 1
  {
    hide Seen, DistinctEvents, Clashes;
    var aggregate := batch[0].aggregate;
    var existing, ids, keys := Existing(entries, aggregate);
    DistinctConcat(entries, batch, ids, keys);
    for i := 0 to |batch|
      invariant forall k | 0 <= k < i :: !Clashes(ids, keys, batch[k])
    {
      if Clashes(ids, keys, batch[i]) {
        return Some(RevisionConflict);
      }
    }
    var head: Revision := 0;
    if |existing| > 0 {
      StoredIsHistory(entries, aggregate);
      var history := NewHistory(existing);
      head := history.value.head;
    }
    var want: Revision := 1;
    if head != 0 {
      if head == REVISIONS - 1 {
        return Some(InvalidRevision);
      }
      want := head + 1;
    }
    if batch[0].revision != want {
      return Some(RevisionConflict);
    }
    return None;
  }

  // ---- Queries ----

  datatype Query = Query(aggregate: Option<Aggregate>, aggregateType: string,
                         fromRevision: Revision, toRevision: Revision,
                         fromRecordedAt: Option<int>, toRecordedAt: Option<int>, newestFirst: bool, limit: int) {
    predicate Valid() {
      && (aggregate.Some? ==> aggregate.value.Valid())
      && !(fromRevision != 0 && toRevision != 0 && fromRevision > toRevision)
      && !(fromRecordedAt.Some? && toRecordedAt.Some? && fromRecordedAt.value > toRecordedAt.value)
      && 0 <= limit
    }
  }

  predicate MatchesQuery(e: Entry, q: Query) {
    && (q.aggregate.Some? ==> e.aggregate == q.aggregate.value)
    && (q.aggregateType != "" ==> e.aggregate.typ == q.aggregateType)
    && (q.fromRevision != 0 ==> q.fromRevision <= e.revision)
    && (q.toRevision != 0 ==> e.revision <= q.toRevision)
    && (q.fromRecordedAt.Some? ==> q.fromRecordedAt.value <= e.event.recordedAt)
    && (q.toRecordedAt.Some? ==> e.event.recordedAt <= q.toRecordedAt.value)
  }

  function Matching(entries: seq<Entry>, q: Query): seq<Entry> {
    if entries == [] then []
    else
      var last := entries[|entries| - 1];
      Matching(entries[..|entries| - 1], q) + if MatchesQuery(last, q) then [last] else []
  }

  lemma MeetsBounds(e: Entry, q: Query)
    ensures MatchesQuery(e, q) <==>
      && (q.aggregate == None || q.aggregate == Some(e.aggregate))
      && (q.aggregateType == "" || q.aggregateType == e.aggregate.typ)
      && (q.fromRevision == 0 || e.revision >= q.fromRevision)
      && (q.toRevision == 0 || e.revision <= q.toRevision)
      && (q.fromRecordedAt == None || e.event.recordedAt >= q.fromRecordedAt.value)
      && (q.toRecordedAt == None || e.event.recordedAt <= q.toRecordedAt.value)
  {
  }

  /** What a query selects: the entries at exactly the positions that meet every bound it gives, in order.
      A bound is given unless it is absent, the empty text or revision zero; bounds include their ends. */
  lemma {:induction false} MatchingPositions(entries: seq<Entry>, q: Query) returns (at: seq<int>)
    ensures |Matching(entries, q)| == |at|
    ensures forall i, j | 0 <= i < j < |at| :: at[i] < at[j]
    ensures forall i | 0 <= i < |at| :: 0 <= at[i] < |entries| && Matching(entries, q)[i] == entries[at[i]]
    ensures forall k | 0 <= k < |entries| ::
      var e := entries[k];
      k in at <==>
        && (q.aggregate == None || q.aggregate == Some(e.aggregate))
        && (q.aggregateType == "" || q.aggregateType == e.aggregate.typ)
        && (q.fromRevision == 0 || e.revision >= q.fromRevision)
        && (q.toRevision == 0 || e.revision <= q.toRevision)
        && (q.fromRecordedAt == None || e.event.recordedAt >= q.fromRecordedAt.value)
        && (q.toRecordedAt == None || e.event.recordedAt <= q.toRecordedAt.value)
  {
    hide MatchesQuery;
    if entries == [] {
      at := [];
    } else {
      var init, n := entries[..|entries| - 1], |entries| - 1;
      var before := MatchingPositions(init, q);
      MeetsBounds(entries[n], q);
      at := before + if MatchesQuery(entries[n], q) then [n] else [];
      assert forall k | 0 <= k < n :: init[k] == entries[k] && (k in at <==> k in before);
      assert n !in before;
    }
  }

  /** Cuts a numbered history to the revisions from `from` to `until`, where zero is no bound. */
  function Between(s: seq<Entry>, from: int, until: int): seq<Entry>
    requires 0 <= from && 0 <= until
  {
    var high := if until == 0 || until > |s| then |s| else until;
    var low := if from == 0 then 0 else if from - 1 > high then high else from - 1;
    s[low..high]
  }

  lemma BetweenSnoc(s: seq<Entry>, e: Entry, from: int, until: int)
    requires 0 <= from && 0 <= until && e.revision == |s| + 1
    ensures Between(s + [e], from, until)
         == Between(s, from, until)
          + if (from == 0 || e.revision >= from) && (until == 0 || e.revision <= until) then [e] else []
  {
  }

  /** Asking for a range of an aggregate's revisions gives just that part of its history. */
  lemma {:induction false} MatchingRange(entries: seq<Entry>, aggregate: Aggregate, from: Revision, until: Revision)
    requires Numbered(Of(entries, aggregate), 1)
    ensures Matching(entries, Query(Some(aggregate), "", from, until, None, None, false, 0))
         == Between(Of(entries, aggregate), from, until)
  {
    if entries != [] {
      hide Between;
      var init, last := entries[..|entries| - 1], entries[|entries| - 1];
      var before := Of(init, aggregate);
      if last.aggregate == aggregate {
        assert Of(entries, aggregate) == before + [last];
        assert forall i | 0 <= i < |before| :: Of(entries, aggregate)[i] == before[i];
        assert Of(entries, aggregate)[|before|] == last;
        BetweenSnoc(before, last, from, until);
      } else {
        assert Of(entries, aggregate) == before;
      }
      MatchingRange(init, aggregate, from, until);
    }
  }

  function Reversed(s: seq<Entry>): (r: seq<Entry>)
    ensures |r| == |s| && forall i | 0 <= i < |s| :: r[i] == s[|s| - 1 - i]
  {
    seq(|s|, i requires 0 <= i < |s| => s[|s| - 1 - i])
  }

  /** What is returned of the entries found: the first or, from the end, the last, up to the limit. */
  function Arranged(found: seq<Entry>, newestFirst: bool, limit: nat): (r: seq<Entry>)
    ensures |r| == if limit == 0 || |found| <= limit then |found| else limit
    ensures newestFirst ==> forall i | 0 <= i < |r| :: r[i] == found[|found| - 1 - i]
    ensures !newestFirst ==> forall i | 0 <= i < |r| :: r[i] == found[i]
  {
    var ordered := if newestFirst then Reversed(found) else found;
    if 0 < limit < |ordered| then ordered[..limit] else ordered
  }

  function ForAggregate(aggregate: Aggregate, newestFirst: bool, limit: int): Query {
    Query(Some(aggregate), "", 0, 0, None, None, newestFirst, limit)
  }

  lemma {:induction false} MatchingAggregate(entries: seq<Entry>, aggregate: Aggregate, newestFirst: bool, limit: int)
    ensures Matching(entries, ForAggregate(aggregate, newestFirst, limit)) == Of(entries, aggregate)
  {
    if entries != [] {
      MatchingAggregate(entries[..|entries| - 1], aggregate, newestFirst, limit);
    }
  }

  /** An entry with a snapshot, below revision `before` unless that is zero. */
  predicate IsCandidate(e: Entry, before: int) {
    e.hasSnapshot && (before != 0 ==> e.revision < before)
  }

  /** Swaps from both ends towards the middle. */
  method ReverseEntries(a: array<Entry>)
    modifies a
    ensures a[..] == Reversed(old(a[..]))
  {
    var i, j := 0, a.Length - 1;
    while i < j
      invariant 0 <= i <= j + 2 && j == a.Length - 1 - i
      invariant forall k | 0 <= k < a.Length :: a[k] == if i <= k <= j then old(a[k]) else old(a[a.Length - 1 - k])
    {
      a[i], a[j] := a[j], a[i];
      i, j := i + 1, j - 1;
    }
  }

  /** The entries that match, in order. */
  method Select(entries: seq<Entry>, q: Query) returns (matched: seq<Entry>)
    ensures matched == Matching(entries, q)
  {
    hide MatchesQuery;
    matched := [];
    for i := 0 to |entries|
      invariant matched == Matching(entries[..i], q)
    {
      assert entries[..i + 1][..i] == entries[..i];
      if MatchesQuery(entries[i], q) {
        matched := matched + [entries[i]];
      }
    }
    assert entries[..|entries|] == entries;
  }

  method Backwards(found: seq<Entry>) returns (reversed: seq<Entry>)
    ensures reversed == Reversed(found)
  {
    hide Reversed;
    var buffer := new Entry[|found|](i requires 0 <= i < |found| => found[i]);
    assert buffer[..] == found;
    ReverseEntries(buffer);
    reversed := buffer[..];
  }

  /** Reversed if the newest come first, and cut to the limit if there is one. */
  method Arrange(found: seq<Entry>, newestFirst: bool, limit: nat) returns (matched: seq<Entry>)
    ensures matched == Arranged(found, newestFirst, limit)
  {
    hide Reversed;
    matched := found;
    if newestFirst {
      matched := Backwards(found);
    }
    if limit > 0 && |matched| > limit {
      matched := matched[..limit];
    }
  }

  // ---- The repository ----

  class MemoryRepository {
    var entries: seq<Entry>

    constructor ()
      ensures Valid() && entries == []
    {
      entries := [];
    }

    ghost predicate Valid()
      reads this
    {
      Inv(entries)
    }

    /** Appends the whole batch or nothing. `cancelled` and `cancelledLate` are the two context checks. */
    method Append(cancelled: bool, cancelledLate: bool, batch: seq<Entry>) returns (r: Option<AuditError>)
      requires Valid()
      modifies this
      ensures Valid()
      ensures r.Some? ==> entries == old(entries)
      ensures r.None? ==> entries == old(entries) + batch
      ensures r.None? <==> !cancelled && (batch == [] || (!cancelledLate && Acceptable(old(entries), batch)))
      ensures r == Some(Cancelled) <==> cancelled || (cancelledLate && AllValid(batch) && IsBatch(batch))
      ensures r == Some(InvalidEntry) <==> !cancelled && !AllValid(batch)
      ensures r == Some(MixedAggregate) ==> batch != [] && !SameAggregate(batch, batch[0].aggregate)
      ensures r.None? ==> forall i | 0 <= i < |batch| ::
        && batch[i].aggregate == batch[0].aggregate
        && batch[i].revision == |Of(old(entries), batch[0].aggregate)| + 1 + i
    {
      hide Inv, DistinctEvents;
      if cancelled {
        return Some(Cancelled);
      }
      if |batch| == 0 {
        assert entries + batch == entries;
        return None;
      }
      for i := 0 to |batch|
        invariant forall k | 0 <= k < i :: batch[k].Valid()
      {
        if !batch[i].Valid() {
          return Some(InvalidEntry);
        }
      }
      var failure := ValidateAppendBatch(batch);
      if Acceptable(entries, batch) {
        AcceptableIsBatch(entries, batch);
      }
      if failure.Some? {
        return failure;
      }
      if cancelledLate {
        return Some(Cancelled);
      }
      failure := ValidateContinuation(entries, batch);
      if failure.Some? {
        return failure;
      }
      AppendKeepsInv(entries, batch);
      entries := entries + batch;
      return None;
    }

    method Find(cancelled: bool, cancelledLate: bool, q: Query) returns (r: Result<seq<Entry>, AuditError>)
      ensures r.Ok? <==> !cancelled && !cancelledLate && q.Valid()
      ensures r.Ok? ==> r.value == Arranged(Matching(entries, q), q.newestFirst, q.limit)
      ensures r.Err? ==> r.error == if !cancelled && !q.Valid() then InvalidQuery else Cancelled
      ensures !cancelled ==>
        (r == Err(InvalidQuery) <==>
         || (q.aggregate.Some? && (Blank(q.aggregate.value.typ) || Blank(q.aggregate.value.id)))
         || 0 < q.toRevision < q.fromRevision
         || (q.fromRecordedAt.Some? && q.toRecordedAt.Some? && q.toRecordedAt.value < q.fromRecordedAt.value)
         || q.limit < 0)
    {
      hide Matching, Blank;
      if cancelled {
        return Err(Cancelled);
      }
      if !q.Valid() {
        return Err(InvalidQuery);
      }
      if cancelledLate {
        return Err(Cancelled);
      }
      var found := Select(entries, q);
      var matched := Arrange(found, q.newestFirst, q.limit);
      return Ok(matched);
    }

    /** Loading a history never fails on its own: what is stored always is one. */
    method LoadHistory(cancelled: bool, cancelledLate: bool, aggregate: Aggregate)
      returns (r: Result<Option<History>, AuditError>)
      requires Valid()
      ensures r.Err? <==> cancelled || cancelledLate || !aggregate.Valid()
      ensures r.Err? ==> r.error == if aggregate.Valid() then Cancelled else InvalidQuery
      ensures r.Ok? ==> (r.value.None? <==> Of(entries, aggregate) == [])
      ensures r.Ok? && r.value.Some? ==>
        var h := r.value.value;
        h.aggregate == aggregate && h.entries == Of(entries, aggregate) && h.head == |Of(entries, aggregate)|
    {
      hide Of, Matching, Blank, Numbered;
      if !aggregate.Valid() {
        return Err(InvalidQuery);
      }
      MatchingAggregate(entries, aggregate, false, 0);
      var found := Find(cancelled, cancelledLate, ForAggregate(aggregate, false, 0));
      if found.Err? {
        return Err(found.error);
      }
      if |found.value| == 0 {
        return Ok(None);
      }
      assert found.value == Of(entries, aggregate);
      StoredIsHistory(entries, aggregate);
      OfIsPart(entries, aggregate);
      var history := NewHistory(found.value);
      return Ok(Some(history.value));
    }

    /** The newest entry of an aggregate is the head of its history. */
    method Latest(cancelled: bool, cancelledLate: bool, aggregate: Aggregate)
      returns (r: Result<Option<Entry>, AuditError>)
      requires Valid()
      ensures r.Err? <==> cancelled || cancelledLate || !aggregate.Valid()
      ensures r.Err? ==> r.error == if aggregate.Valid() then Cancelled else InvalidQuery
      ensures r.Ok? ==> (r.value.None? <==> Of(entries, aggregate) == [])
      ensures r.Ok? && r.value.Some? ==>
        var all := Of(entries, aggregate); r.value.value == all[|all| - 1] && r.value.value.revision == |all|
    {
      hide Of, Matching, Blank;
      if !aggregate.Valid() {
        return Err(InvalidQuery);
      }
      MatchingAggregate(entries, aggregate, true, 1);
      var found := Find(cancelled, cancelledLate, ForAggregate(aggregate, true, 1));
      if found.Err? {
        return Err(found.error);
      }
      if |found.value| == 0 {
        return Ok(None);
      }
      assert Numbered(Of(entries, aggregate), 1);
      return Ok(Some(found.value[0]));
    }

    /** The newest entry with a snapshot, below revision `before` unless that is zero. */
    method FindSnapshot(cancelled: bool, cancelledLate: bool, aggregate: Aggregate, before: Revision)
      returns (r: Result<Option<Entry>, AuditError>)
      requires Valid()
      ensures r.Err? <==> cancelled || cancelledLate || !aggregate.Valid()
      ensures r.Err? ==> r.error == if aggregate.Valid() then Cancelled else InvalidQuery
      ensures r.Ok? && r.value.Some? ==>
        var e := r.value.value;
        && e in Of(entries, aggregate) && IsCandidate(e, before)
        && forall x | x in Of(entries, aggregate) && IsCandidate(x, before) :: x.revision <= e.revision
      ensures r.Ok? && r.value.None? ==>
        forall x | x in Of(entries, aggregate) :: !IsCandidate(x, before)
    {
      hide Of, Matching, MatchesQuery, Blank;
      if !aggregate.Valid() {
        return Err(InvalidQuery);
      }
      MatchingAggregate(entries, aggregate, true, 0);
      var found := Find(cancelled, cancelledLate, ForAggregate(aggregate, true, 0));
      if found.Err? {
        return Err(found.error);
      }
      var newest := found.value;
      ghost var all := Of(entries, aggregate);
      assert newest == Reversed(all) && Numbered(all, 1);
      var snapshot := FirstCandidate(newest, before, all);
      return Ok(snapshot);
    }
  }

  /** The first entry of a newest-first list that has a snapshot below the bound. */
  method FirstCandidate(newest: seq<Entry>, before: Revision, ghost all: seq<Entry>) returns (r: Option<Entry>)
    requires newest == Reversed(all) && Numbered(all, 1)
    ensures r.Some? ==>
      && r.value in all && IsCandidate(r.value, before)
      && forall x | x in all && IsCandidate(x, before) :: x.revision <= r.value.revision
    ensures r.None? ==> forall x | x in all :: !IsCandidate(x, before)
  {
    for i := 0 to |newest|
      invariant forall k | 0 <= k < i :: !IsCandidate(newest[k], before)
    {
      var entry := newest[i];
      if (before == 0 || entry.revision < before) && entry.hasSnapshot {
        NewestSnapshot(all, i, before);
        return Some(entry);
      }
    }
    forall x | x in all ensures !IsCandidate(x, before) {
      var k :| 0 <= k < |all| && all[k] == x;
      assert newest[|all| - 1 - k] == x;
    }
    return None;
  }

  lemma NewestSnapshot(all: seq<Entry>, i: nat, before: int)
    requires Numbered(all, 1) && i < |all|
    requires forall k | 0 <= k < i :: !IsCandidate(Reversed(all)[k], before)
    ensures Reversed(all)[i] in all
    ensures forall x | x in all && IsCandidate(x, before) :: x.revision <= Reversed(all)[i].revision
  {
    assert Reversed(all)[i] == all[|all| - 1 - i];
    forall x | x in all && IsCandidate(x, before) ensures x.revision <= Reversed(all)[i].revision {
      var k :| 0 <= k < |all| && all[k] == x;
      assert Reversed(all)[|all| - 1 - k] == x;
    }
  }

  lemma AcceptableIsBatch(entries: seq<Entry>, batch: seq<Entry>)
    requires batch != [] && Acceptable(entries, batch)
    ensures IsBatch(batch)
  {
    assert forall i | 0 <= i < |batch| :: (entries + batch)[|entries| + i] == batch[i];
    assert Numbered(batch, batch[0].revision);
    assert DistinctEvents(batch);
  }

  // ---- Every run ----

  /** The entries after these append calls, each of which takes effect or not as a whole. */
  ghost function AfterAppends(batches: seq<seq<Entry>>): seq<Entry> {
    if batches == [] then []
    else
      var sofar, batch := AfterAppends(batches[..|batches| - 1]), batches[|batches| - 1];
      if batch != [] && Acceptable(sofar, batch) then sofar + batch else sofar
  }

  /** Appends accept every batch that goes on where the aggregate's entries end, with events of its own
      aggregate and revision, and ids and keys that are nowhere else. */
  lemma ContinuationIsAcceptable(entries: seq<Entry>, batch: seq<Entry>)
    requires batch != [] && batch[0].aggregate.Valid()
    requires forall i | 0 <= i < |batch| ::
      var e := batch[i];
      && e.wellFormed && e.aggregate == batch[0].aggregate == e.event.aggregate
      && e.revision == e.event.revision == |Of(entries, batch[0].aggregate)| + 1 + i
    requires var all := entries + batch;
             forall i, j | 0 <= i < j < |all| ::
               && all[i].event.eventId != all[j].event.eventId
               && all[i].event.idempotencyKey != all[j].event.idempotencyKey
    ensures Acceptable(entries, batch)
  {
    hide Of;
    assert forall i | 0 <= i < |batch| :: batch[i].aggregate == batch[0].aggregate && batch[i].Valid();
  }

  /** Over every sequence of appends, each aggregate has revisions 1 to n and a loadable history. */
  lemma {:induction false} EveryRunKeepsInv(batches: seq<seq<Entry>>, aggregate: Aggregate)
    ensures Inv(AfterAppends(batches))
    ensures Of(AfterAppends(batches), aggregate) == [] || IsHistory(Of(AfterAppends(batches), aggregate))
    ensures forall i | 0 <= i < |Of(AfterAppends(batches), aggregate)| ::
      var e := Of(AfterAppends(batches), aggregate)[i];
      && e.aggregate == aggregate && e.revision == i + 1
      && e.wellFormed && !Blank(e.aggregate.typ) && !Blank(e.aggregate.id)
      && e.event.aggregate == aggregate && e.event.revision == e.revision
    ensures var all := AfterAppends(batches);
            forall i, j | 0 <= i < j < |all| ::
              && all[i].event.eventId != all[j].event.eventId
              && all[i].event.idempotencyKey != all[j].event.idempotencyKey
  {
    if batches != [] {
      var sofar, batch := AfterAppends(batches[..|batches| - 1]), batches[|batches| - 1];
      EveryRunKeepsInv(batches[..|batches| - 1], aggregate);
      if batch != [] && Acceptable(sofar, batch) {
        AppendKeepsInv(sofar, batch);
      }
    }
    if Of(AfterAppends(batches), aggregate) != [] {
      StoredIsHistory(AfterAppends(batches), aggregate);
      OfIsPart(AfterAppends(batches), aggregate);
    }
  }
}
