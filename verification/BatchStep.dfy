/** The atomic run loop of a batch step (batch/atomic_step.go), shown to be a run of the shared state
    machine and, as long as no other run commits, to do exactly what the outcomes of its calls make of
    the input. */
module BatchStep {
  import opened Wrappers
  import opened AtomicBatch
  import opened BatchOutcomes

  /** The store shared by all runs of one key, with everything that happened so far. */
  class World<O(!new)> {
    const c: Config
    const processor: (nat, Decision<O>) -> bool
    var state: State<O>
    ghost var trace: seq<(nat, Event<O>)>

    constructor (c: Config, processor: (nat, Decision<O>) -> bool)
      ensures Valid() && this.c == c && this.processor == processor && state == Initial() && trace == []
    {
      this.c := c;
      this.processor := processor;
      state := Initial();
      trace := [];
    }

    ghost predicate Valid()
      reads this
    {
      IsTrace(c, processor, trace) && state == After(c, processor, trace)
    }

    /** One call of run `id`. */
    method Do(id: nat, e: Event<O>)
      requires Valid() && Enabled(c, processor, state, id, e)
      modifies this
      ensures Valid() && trace == old(trace) + [(id, e)] && |old(state).store.history| > 0
      ensures state == Next(c, processor, old(state), id, e)
      ensures state.runs == old(state).runs[id := NextRun(c, old(state), RunOf(old(state), id), e)]
      ensures Advances(old(state).store, state.store)
      ensures !e.Commit? && !e.LateCommit? ==> state.store == old(state).store
    {
      hide Enabled, NextRun;
      state := Next(c, processor, state, id, e);
      trace := trace + [(id, e)];
      assert trace[..|trace| - 1] == old(trace);
    }

    /** Whatever other runs do before the next call of run `id`. */
    method Others(id: nat)
      requires Valid() && id in state.runs
      modifies this
      ensures Valid() && old(trace) <= trace
      ensures id in state.runs && state.runs[id] == old(state.runs[id])
      ensures Advances(old(state.store), state.store)
    {
      hide Enabled, NextRun, Next, IsTrace, After;
      var steps: int := *;
      while steps > 0
        invariant Valid() && old(trace) <= trace
        invariant id in state.runs && state.runs[id] == old(state.runs[id])
        invariant Advances(old(state.store), state.store)
      {
        var other: nat := *;
        var e: Event<O> := *;
        if other != id && Enabled(c, processor, state, other, e) {
          Do(other, e);
        }
        steps := steps - 1;
      }
    }
  }

  function RunOf<O>(s: State<O>, id: nat): Run<O> {
    if id in s.runs then s.runs[id] else Fresh()
  }

  /** Nothing changes a store without a new version. */
  ghost predicate Advances<O>(before: Store<O>, after: Store<O>) {
    before == after || before.version < after.version
  }

  // ---- Outcomes ----

  /** How a commit turns out, if the version still is the expected one. With an unclear outcome the
      commit may have taken effect, or may do so later; `marked` tells whether the error says so. */
  datatype Commitment = Accepted | Refused(failure: Failure) | Unclear(failure: Failure, marked: bool)

  function CommitStatus(k: Commitment): Status {
    match k
    case Accepted => Failed
    case Refused(f) => StatusFor(f)
    case Unclear(f, marked) => if marked then Failed else StatusFor(f)
  }

  /** How the calls of one run turn out: at a position of the reader, processing also by attempt. */
  datatype Outcomes<!O> = Outcomes(
    open: Option<Failure>, load: Option<Failure>, restore: Option<Failure>, cancelled: nat -> bool,
    read: nat -> Option<Failure>, process: (nat, nat) -> Attempt<O>, commit: nat -> Commitment, closeFails: bool)

  /** The variables of the run loop. */
  datatype Progress<O> = Progress(position: nat, expected: nat, pending: seq<O>, progressCount: nat, report: Report)

  /** What run `id` looks like to the state machine while its loop holds these variables. */
  ghost predicate Holds<O(!new)>(w: World<O>, id: nat, phase: Phase, p: Progress<O>)
    reads w
  {
    && w.Valid() && id in w.state.runs
    && var r := w.state.runs[id];
    && r.phase == phase && r.position == p.position && r.expected == p.expected && r.pending == p.pending
    && r.progressCount == p.progressCount && r.report == p.report && r.lost.None?
  }

  /** Run `id` has ended with this status, these counters and this version as the last it knew. */
  ghost predicate Ended<O(!new)>(w: World<O>, id: nat, status: Status, report: Report, expected: nat)
    reads w
  {
    && w.Valid() && id in w.state.runs
    && var r := w.state.runs[id];
    r.phase == Done(status) && r.report == report && r.expected == expected
  }

  /** The processor may decide every item as the outcomes say. */
  ghost predicate Permits<O>(c: Config, processor: (nat, Decision<O>) -> bool, process: (nat, nat) -> Attempt<O>)
    requires 0 < c.maxAttempts
  {
    forall i: nat | DecisionAt(c, process, i).Some? :: processor(i, DecisionAt(c, process, i).value)
  }

  // ---- The calls ----

  /** The store that event `at` of run `id` loaded. */
  ghost function LoadedStore<O(!new)>(w: World<O>, at: nat): Store<O>
    requires at <= |w.trace| && IsTrace(w.c, w.processor, w.trace[..at])
    reads w
  {
    After(w.c, w.processor, w.trace[..at]).store
  }

  /** Event `at` is the load of run `id`. */
  ghost predicate LoadsAt<O(!new)>(w: World<O>, id: nat, at: nat)
    reads w
  {
    at < |w.trace| && w.trace[at] == (id, Load) && IsTrace(w.c, w.processor, w.trace[..at])
  }

  /** Opens the reader, loads the checkpoint and restores the reader to it. */
  method StartAtomic<O(!new)>(w: World<O>, id: nat, o: Outcomes<O>)
    returns (started: bool, status: Status, position: nat, expected: nat, ghost loadedAt: nat)
    requires w.Valid() && id !in w.state.runs
    modifies w
    ensures w.Valid() && old(w.trace) <= w.trace
    ensures o.open.Some? || o.load.Some? ==>
      !started && status == StatusFor((if o.open.Some? then o.open else o.load).value)
    ensures o.open.None? && o.load.None? ==>
      && |old(w.trace)| <= loadedAt && LoadsAt(w, id, loadedAt)
      && (started <==> LoadedStore(w, loadedAt).version == 0 || o.restore.None?)
      && (!started ==> status == StatusFor(o.restore.value))
    ensures started ==>
      && Advances(LoadedStore(w, loadedAt), w.state.store) && expected == LoadedStore(w, loadedAt).version
      && position == (if expected == 0 then 0 else LoadedStore(w, loadedAt).checkpoint)
      && Holds(w, id, Reading, Progress(position, expected, [], 0, Report(0, 0, 0, 0, 0)))
    ensures !started ==> Ended(w, id, status, Report(0, 0, 0, 0, 0), 0)
  {
    hide IsTrace, After, Next;
    started, position, expected, loadedAt, status := false, 0, 0, 0, Failed;
    w.Do(id, Begin);
    if o.open.Some? {
      status := StatusFor(o.open.value);
      w.Do(id, LoadFails(status));
      return;
    }
    w.Others(id);
    if o.load.Some? {
      status := StatusFor(o.load.value);
      w.Do(id, LoadFails(status));
      return;
    }
    var found, checkpoint, version := w.state.store.version > 0, w.state.store.checkpoint, w.state.store.version;
    ghost var before := w.trace;
    loadedAt := |before|;
    w.Do(id, Load);
    assert w.trace[loadedAt] == (id, Load);
    started := true;
    if found {
      started, position, expected, status := RestoreReader(w, id, o, checkpoint, version);
    }
    assert w.trace[..loadedAt] == before;
  }

  method RestoreReader<O(!new)>(w: World<O>, id: nat, o: Outcomes<O>, checkpoint: nat, version: nat)
    returns (started: bool, position: nat, expected: nat, status: Status)
    requires Holds(w, id, Restoring(version, checkpoint), Progress(0, 0, [], 0, Report(0, 0, 0, 0, 0)))
    modifies w
    ensures w.Valid() && old(w.trace) < w.trace && Advances(old(w.state.store), w.state.store)
    ensures started <==> o.restore.None?
    ensures started ==>
      && position == checkpoint && expected == version
      && Holds(w, id, Reading, Progress(position, expected, [], 0, Report(0, 0, 0, 0, 0)))
    ensures !started ==> status == StatusFor(o.restore.value) && Ended(w, id, status, Report(0, 0, 0, 0, 0), 0)
  {
    hide IsTrace, After, Next;
    started, position, expected, status := true, checkpoint, version, Failed;
    w.Others(id);
    if o.restore.Some? {
      status := StatusFor(o.restore.value);
      w.Do(id, RestoreFails(status));
      return false, 0, 0, status;
    }
    w.Do(id, Restore);
  }

  /** Reads the next item, or finds the end of the input. */
  method ReadItem<O(!new)>(w: World<O>, id: nat, o: Outcomes<O>, p: Progress<O>) returns (read: bool, status: Status)
    requires Holds(w, id, Reading, p)
    modifies w
    ensures w.Valid() && old(w.trace) <= w.trace && Advances(old(w.state.store), w.state.store)
    ensures read <==> !o.cancelled(p.position) && o.read(p.position).None?
    ensures !read ==> Ended(w, id, status, p.report, p.expected)
    ensures !read ==> status == if o.cancelled(p.position) then Cancelled else StatusFor(o.read(p.position).value)
    ensures read && p.position < w.c.inputLength ==>
      Holds(w, id, Processing(1), p.(position := p.position + 1, progressCount := p.progressCount + 1,
                                     report := p.report.(readCount := p.report.readCount + 1)))
    ensures read && p.position >= w.c.inputLength ==>
      Holds(w, id, if p.progressCount > 0 then Committing(true) else Done(Completed), p)
  {
    hide IsTrace, After, Next;
    status := Failed;
    w.Others(id);
    if o.cancelled(p.position) {
      w.Do(id, CancelledBeforeRead);
      return false, Cancelled;
    }
    if o.read(p.position).Some? {
      status := StatusFor(o.read(p.position).value);
      w.Do(id, ReadFails(status));
      return false, status;
    }
    w.Do(id, Read);
    read := true;
  }

  function WithRetries(report: Report, retries: nat): Report {
    report.(retryCount := report.retryCount + retries)
  }

  /** The attempts at the item just read. Afterwards the run still holds it, after so many retries. */
  method Process<O(!new)>(w: World<O>, id: nat, o: Outcomes<O>, p: Progress<O>)
    returns (last: Attempt<O>, report: Report)
    requires Holds(w, id, Processing(1), p) && 0 < p.position && 0 < w.c.maxAttempts
    modifies w
    ensures w.Valid() && old(w.trace) <= w.trace && Advances(old(w.state.store), w.state.store)
    ensures last == LastAttempt(w.c, o.process, p.position - 1)
    ensures report == WithRetries(p.report, ItemRetries(w.c, o.process, p.position - 1))
    ensures exists attempt :: Holds(w, id, Processing(attempt), p.(report := report))
  {
    hide *;
    report := p.report;
    var attempt := 1;
    ghost var failures, store := ItemFailures(o.process, p.position - 1), w.state.store;
    AdvancesStep(store, store, store);
    assert p == p.(report := report);
    while true
      invariant 1 <= attempt <= w.c.maxAttempts && old(w.trace) <= w.trace
      invariant forall j | 1 <= j < attempt :: Retried(w.c, failures, j)
      invariant report == p.report.(retryCount := p.report.retryCount + attempt - 1)
      invariant Holds(w, id, Processing(attempt), p.(report := report)) && Advances(store, w.state.store)
      decreases w.c.maxAttempts - attempt
    {
      ghost var before := w.state.store;
      WaitHolding(w, id, Processing(attempt), p.(report := report));
      AdvancesStep(store, before, w.state.store);
      last := o.process(p.position - 1, attempt);
      RetriedMeans(w.c, o.process, p.position - 1, attempt);
      if !(last.Fails? && ShouldRetry(w.c, last.failure, attempt)) {
        SettledAfter(w.c, o.process, p.position - 1, attempt - 1);
        assert report == WithRetries(p.report, attempt - 1) by { RetriesAdd(p.report, attempt - 1); }
        return;
      }
      RetryBound(w.c, last.failure, attempt);
      RetryItem(w, id, attempt, p.(report := report));
      AdvancesStep(store, before, w.state.store);
      report := report.(retryCount := report.retryCount + 1);
      attempt := attempt + 1;
    }
  }

  lemma RetriesAdd(report: Report, k: nat)
    ensures WithRetries(report, k) == report.(retryCount := report.retryCount + k)
  {
  }

  lemma RetryBound(c: Config, f: Failure, attempt: nat)
    requires ShouldRetry(c, f, attempt)
    ensures attempt < c.maxAttempts
  {
  }

  lemma RetriedMeans<O>(c: Config, process: (nat, nat) -> Attempt<O>, i: nat, attempt: nat)
    ensures Retried(c, ItemFailures(process, i), attempt) <==>
      process(i, attempt).Fails? && ShouldRetry(c, process(i, attempt).failure, attempt)
  {
  }

  /** Others move; the run still is where it was. */
  method WaitHolding<O(!new)>(w: World<O>, id: nat, phase: Phase, p: Progress<O>)
    requires Holds(w, id, phase, p)
    modifies w
    ensures w.Valid() && old(w.trace) <= w.trace && Advances(old(w.state.store), w.state.store)
    ensures Holds(w, id, phase, p)
  {
    hide IsTrace, After, Next;
    w.Others(id);
  }

  /** One more attempt. */
  method RetryItem<O(!new)>(w: World<O>, id: nat, attempt: nat, p: Progress<O>)
    requires Holds(w, id, Processing(attempt), p) && attempt < w.c.maxAttempts
    modifies w
    ensures old(w.trace) <= w.trace && w.state.store == old(w.state.store)
    ensures Holds(w, id, Processing(attempt + 1), p.(report := p.report.(retryCount := p.report.retryCount + 1)))
  {
    hide IsTrace, After, Next;
    w.Do(id, Retry);
  }

  /** What one decision adds to the counters. */
  function Counted<O>(report: Report, d: Decision<O>): Report {
    match d
    case Kept(_) => report
    case Filtered => report.(filterCount := report.filterCount + 1)
    case Skipped => report.(skipCount := report.skipCount + 1)
  }

  /** Processes the item just read and counts what it came to. */
  method HandleItem<O(!new)>(w: World<O>, id: nat, o: Outcomes<O>, before: Progress<O>)
    returns (decided: bool, status: Status, p: Progress<O>)
    requires Holds(w, id, Processing(1), before) && 0 < before.position && 0 < w.c.maxAttempts
    requires Permits(w.c, w.processor, o.process)
    modifies w
    ensures w.Valid() && old(w.trace) <= w.trace && Advances(old(w.state.store), w.state.store)
    ensures var d := DecisionAt(w.c, o.process, before.position - 1);
            decided <==> d.Some? && (d.value.Skipped? ==> SkipBudget(w.c, before.report.skipCount, 1))
    ensures var report := WithRetries(before.report, ItemRetries(w.c, o.process, before.position - 1));
            && (decided ==>
                  var d := DecisionAt(w.c, o.process, before.position - 1).value;
                  p == before.(pending := before.pending + KeptOf([d]), report := Counted(report, d)))
            && (!decided ==> status != Completed && Ended(w, id, status, report, before.expected))
    ensures !decided ==>
      var last := LastAttempt(w.c, o.process, before.position - 1); last.Fails? && status == StatusFor(last.failure)
    ensures decided ==> Holds(w, id, if p.progressCount == w.c.chunkSize then Committing(false) else Reading, p)
  {
    hide IsTrace, After, Next, Enabled, KeptOf, LastAttempt, ItemRetries;
    status, p := Failed, before;
    var last, report := Process(w, id, o, before);
    p := p.(report := report);
    var d: Decision<O>;
    match last {
      case Value(output) => d := Kept(output);
      case Drop => d := Filtered;
      case Fails(f) =>
        if !ShouldSkip(w.c, f, report.skipCount, 1) {
          status := StatusFor(f);
          MayFail(w, id, status);
          w.Do(id, ProcessFails(status));
          return false, status, p;
        }
        d := Skipped;
    }
    assert DecisionAt(w.c, o.process, before.position - 1) == Some(d);
    MayDecide(w, id, before.position, d);
    w.Do(id, Decide(d));
    KeptOfOne(d);
    match d {
      case Skipped => p := p.(report := p.report.(skipCount := p.report.skipCount + 1));
      case Filtered => p := p.(report := p.report.(filterCount := p.report.filterCount + 1));
      case Kept(output) => p := p.(pending := p.pending + [output]);
    }
    decided := true;
  }

  lemma AdvancesStep<O>(a: Store<O>, b: Store<O>, c: Store<O>)
    ensures Advances(a, a)
    ensures Advances(a, b) && Advances(b, c) ==> Advances(a, c)
  {
  }

  lemma MayFail<O(!new)>(w: World<O>, id: nat, status: Status)
    requires id in w.state.runs && w.state.runs[id].phase.Processing? && status != Completed
    ensures Enabled(w.c, w.processor, w.state, id, ProcessFails(status))
  {
  }

  lemma MayDecide<O(!new)>(w: World<O>, id: nat, position: nat, d: Decision<O>)
    requires id in w.state.runs && w.state.runs[id].phase.Processing? && w.state.runs[id].position == position > 0
    requires w.processor(position - 1, d) && (d.Skipped? ==> SkipBudget(w.c, w.state.runs[id].report.skipCount, 1))
    ensures Enabled(w.c, w.processor, w.state, id, Decide(d))
  {
  }

  lemma KeptOfOne<O>(d: Decision<O>)
    ensures KeptOf([d]) == if d.Kept? then [d.output] else []
  {
    assert [d][..0] == [];
  }

  /** The store just before the last event. */
  ghost function StoreBeforeLast<O(!new)>(w: World<O>): Store<O>
    requires w.Valid() && w.trace != []
    reads w
  {
    After(w.c, w.processor, w.trace[..|w.trace| - 1]).store
  }

  /** Commits the pending results and the reader's position under the expected version. */
  method CommitAtomic<O(!new)>(w: World<O>, id: nat, o: Outcomes<O>, atEnd: bool, before: Progress<O>)
    returns (committed: bool, status: Status, p: Progress<O>)
    requires Holds(w, id, Committing(atEnd), before)
    modifies w
    ensures w.Valid() && old(w.trace) < w.trace && Advances(old(w.state.store), StoreBeforeLast(w))
    ensures committed <==> o.commit(before.position).Accepted? && StoreBeforeLast(w).version == before.expected
    ensures committed ==>
      p == before.(expected := before.expected + 1, pending := [], progressCount := 0,
                   report := before.report.(writeCount := before.report.writeCount + |before.pending|))
    ensures committed && !atEnd ==> Holds(w, id, Reading, p)
    ensures committed && atEnd ==> Ended(w, id, Completed, p.report, p.expected)
    ensures committed ==>
      && w.state.store.version == p.expected && w.state.store.checkpoint == before.position
      && w.state.store.output == StoreBeforeLast(w).output + before.pending
    ensures !committed ==>
      && p == before && status == CommitStatus(o.commit(before.position)) && status != Completed
      && Ended(w, id, status, before.report, before.expected) && w.state.store == StoreBeforeLast(w)
  {
    hide IsTrace, After, Enabled;
    committed, p, status := false, before, CommitStatus(o.commit(before.position));
    w.Others(id);
    ghost var start := w.trace;
    CommitSteps(w, id, status);
    if o.commit(before.position).Refused? {
      w.Do(id, CommitFails(status));
    } else if o.commit(before.position).Unclear? {
      w.Do(id, CommitUnknown(status));
    } else if w.state.store.version != before.expected {
      w.Do(id, CommitFails(status));
    } else {
      w.Do(id, Commit);
      p := Progress(before.position, w.state.store.version, [], 0,
                    before.report.(writeCount := before.report.writeCount + |before.pending|));
      committed := true;
    }
    assert w.trace[..|w.trace| - 1] == start;
  }

  lemma CommitSteps<O(!new)>(w: World<O>, id: nat, status: Status)
    requires id in w.state.runs && w.state.runs[id].phase.Committing? && status != Completed
    ensures Enabled(w.c, w.processor, w.state, id, CommitFails(status))
    ensures Enabled(w.c, w.processor, w.state, id, CommitUnknown(status))
    ensures w.state.store.version == w.state.runs[id].expected ==> Enabled(w.c, w.processor, w.state, id, Commit)
  {
  }

  // ---- The run ----

  /** The position of the last commit when position `p` is reached from `from`: a multiple of the chunk
      size further. */
  function LastCommit(c: Config, from: nat, p: nat): (q: nat)
    requires from <= p
    ensures from <= q <= p
    decreases p
  {
    if p == from then from
    else
      var q := LastCommit(c, from, p - 1);
      if p - q == c.chunkSize then p else q
  }

  lemma {:induction false} LastCommitMeaning(c: Config, from: nat, p: nat) returns (k: nat)
    requires from <= p && 0 < c.chunkSize
    ensures LastCommit(c, from, p) == from + k * c.chunkSize && p - LastCommit(c, from, p) < c.chunkSize
    decreases p
  {
    if p == from {
      k := 0;
    } else {
      k := LastCommitMeaning(c, from, p - 1);
      if LastCommit(c, from, p) == p {
        assert (k + 1) * c.chunkSize == k * c.chunkSize + c.chunkSize;
        k := k + 1;
      }
    }
  }

  /** Nothing stops the run from `from` before it reads at position `p`. */
  ghost predicate Reaches<O>(c: Config, o: Outcomes<O>, from: nat, p: nat)
    requires 0 < c.maxAttempts && from <= p
  {
    && (forall i | from <= i < p :: !o.cancelled(i) && o.read(i).None?)
    && Decided(c, o.process, from, p) && SkipCount(DecisionsOf(c, o.process, from, p)) <= c.maxSkips
    && (forall q | from < q <= p && LastCommit(c, from, q) == q :: o.commit(q).Accepted?)
  }

  /** Nothing stops the run from `from` at all: no cancellation, every read and commit succeeds, every item
      is decided, and the skips are within the budget. */
  ghost predicate Smooth<O>(c: Config, o: Outcomes<O>, from: nat)
    requires 0 < c.maxAttempts && from <= c.inputLength
  {
    var end := c.inputLength;
    && Reaches(c, o, from, end) && !o.cancelled(end) && o.read(end).None?
    && (LastCommit(c, from, end) < end ==> o.commit(end).Accepted?)
  }

  /** The counters when `position` is reached and everything before `committed` is committed. */
  ghost function ReportAt<O>(c: Config, o: Outcomes<O>, from: nat, committed: nat, position: nat): Report
    requires 0 < c.maxAttempts && from <= committed <= position && Decided(c, o.process, from, position)
  {
    var ds := DecisionsOf(c, o.process, from, position);
    Report(position - from, |KeptOf(DecisionsOf(c, o.process, from, committed))|, FilterCount(ds), SkipCount(ds),
           RetrySum(c, o.process, from, position))
  }

  /** The loop's variables at position `p.position`. */
  ghost predicate Underway<O>(c: Config, o: Outcomes<O>, from: nat, p: Progress<O>)
    requires 0 < c.maxAttempts
  {
    && from <= p.position <= c.inputLength && Reaches(c, o, from, p.position)
    && var committed := LastCommit(c, from, p.position);
    && p.progressCount == p.position - committed < c.chunkSize
    && p.pending == KeptOf(DecisionsOf(c, o.process, committed, p.position))
    && p.report == ReportAt(c, o, from, committed, p.position)
  }

  /** The store when this run alone changed the loaded one, up to position `committed`. */
  ghost predicate WrittenUpTo<O>(c: Config, o: Outcomes<O>, from: nat, loaded: Store<O>, store: Store<O>,
                                 committed: nat)
    requires 0 < c.maxAttempts
  {
    && from <= committed && Decided(c, o.process, from, committed)
    && store.checkpoint == committed
    && store.output == loaded.output + KeptOf(DecisionsOf(c, o.process, from, committed))
  }

  lemma UnderwayStart<O>(c: Config, o: Outcomes<O>, from: nat, expected: nat)
    requires 0 < c.maxAttempts && 0 < c.chunkSize && from <= c.inputLength
    ensures Underway(c, o, from, Progress(from, expected, [], 0, Report(0, 0, 0, 0, 0)))
  {
  }

  /** A smooth run is not stopped at any position. */
  lemma SmoothAt<O>(c: Config, o: Outcomes<O>, from: nat, p: nat)
    requires 0 < c.maxAttempts && from <= p <= c.inputLength && Smooth(c, o, from)
    ensures !o.cancelled(p) && o.read(p).None?
    ensures p < c.inputLength ==> DecisionAt(c, o.process, p).Some?
    ensures p < c.inputLength && DecisionAt(c, o.process, p).value.Skipped? ==>
      Decided(c, o.process, from, p) && SkipCount(DecisionsOf(c, o.process, from, p)) + 1 <= c.maxSkips
    ensures from < p && LastCommit(c, from, p) == p ==> o.commit(p).Accepted?
  {
    hide DecisionAt, SkipCount, DecisionsOf, LastCommit;
    if p < c.inputLength {
      SkipsGrow(c, o.process, from, p + 1, c.inputLength);
      DecisionsSnoc(c, o.process, from, p);
    }
  }

  /** The loop's variables when an item is dealt with and a commit may be due. */
  ghost predicate Handled<O>(c: Config, o: Outcomes<O>, from: nat, committed: nat, p: Progress<O>)
    requires 0 < c.maxAttempts
  {
    && from <= committed <= p.position <= c.inputLength && p.progressCount == p.position - committed
    && (forall i | from <= i < p.position :: !o.cancelled(i) && o.read(i).None?)
    && Decided(c, o.process, from, p.position) && SkipCount(DecisionsOf(c, o.process, from, p.position)) <= c.maxSkips
    && p.pending == KeptOf(DecisionsOf(c, o.process, committed, p.position))
    && p.report == ReportAt(c, o, from, committed, p.position)
  }

  lemma ItemHandled<O>(c: Config, o: Outcomes<O>, from: nat, p: Progress<O>, p': Progress<O>)
    requires 0 < c.maxAttempts && Underway(c, o, from, p) && p.position < c.inputLength
    requires !o.cancelled(p.position) && o.read(p.position).None? && DecisionAt(c, o.process, p.position).Some?
    requires
      var d := DecisionAt(c, o.process, p.position).value;
      && (d.Skipped? ==> SkipBudget(c, p.report.skipCount, 1))
      && var read := p.report.(readCount := p.report.readCount + 1);
      p' == Progress(p.position + 1, p.expected, p.pending + KeptOf([d]), p.progressCount + 1,
                     Counted(WithRetries(read, ItemRetries(c, o.process, p.position)), d))
    ensures Handled(c, o, from, LastCommit(c, from, p.position), p')
  {
    hide DecisionAt, SkipCount, FilterCount, KeptOf, ItemRetries;
    var d, committed := DecisionAt(c, o.process, p.position).value, LastCommit(c, from, p.position);
    DecisionsSnoc(c, o.process, from, p.position);
    DecisionsSnoc(c, o.process, committed, p.position);
    KeptOfOne(d);
  }

  /** No commit is due. */
  lemma StillUnderway<O>(c: Config, o: Outcomes<O>, from: nat, p: Progress<O>, p': Progress<O>)
    requires 0 < c.maxAttempts && 0 < c.chunkSize && Underway(c, o, from, p) && p'.position == p.position + 1
    requires Handled(c, o, from, LastCommit(c, from, p.position), p') && p'.progressCount < c.chunkSize
    ensures Underway(c, o, from, p')
  {
    hide DecisionAt, SkipCount, FilterCount, KeptOf, DecisionsOf, ReportAt;
  }

  /** A due commit has succeeded. */
  lemma CommitDone<O>(c: Config, o: Outcomes<O>, from: nat, p: Progress<O>, p': Progress<O>, expected: nat)
    requires 0 < c.maxAttempts && 0 < c.chunkSize && Underway(c, o, from, p) && p'.position == p.position + 1
    requires Handled(c, o, from, LastCommit(c, from, p.position), p') && p'.progressCount == c.chunkSize
    requires o.commit(p'.position).Accepted?
    ensures LastCommit(c, from, p'.position) == p'.position
    ensures Underway(c, o, from, Progress(p'.position, expected, [], 0,
                                          p'.report.(writeCount := p'.report.writeCount + |p'.pending|)))
  {
    hide DecisionAt, SkipCount, FilterCount, RetrySum, KeptOf, DecisionsOf;
    AllWritten(c, o, from, LastCommit(c, from, p.position), p'.position);
    NothingPending(c, o, p'.position);
  }

  lemma NothingPending<O>(c: Config, o: Outcomes<O>, position: nat)
    requires 0 < c.maxAttempts
    ensures KeptOf(DecisionsOf(c, o.process, position, position)) == []
  {
  }

  /** What is committed and what is pending make up everything kept. */
  lemma AllWritten<O>(c: Config, o: Outcomes<O>, from: nat, committed: nat, position: nat)
    requires 0 < c.maxAttempts && from <= committed <= position && Decided(c, o.process, from, position)
    ensures KeptOf(DecisionsOf(c, o.process, from, position))
         == KeptOf(DecisionsOf(c, o.process, from, committed)) + KeptOf(DecisionsOf(c, o.process, committed, position))
  {
    hide DecisionAt, KeptOf;
    DecisionsSplit(c, o.process, from, committed, position);
    KeptOfConcat(DecisionsOf(c, o.process, from, committed), DecisionsOf(c, o.process, committed, position));
  }

  /** Nobody but run `id` has committed since it loaded. */
  ghost predicate Alone<O(!new)>(w: World<O>, id: nat)
    requires id in w.state.runs
    reads w
  {
    w.state.store.version == w.state.runs[id].expected
  }

  /** What is known of the store when the run expects version `expected` and last committed there. */
  ghost predicate StoreSeen<O>(c: Config, o: Outcomes<O>, from: nat, loaded: Store<O>, store: Store<O>,
                               expected: nat, committed: nat)
    requires 0 < c.maxAttempts
  {
    expected <= store.version && (store.version == expected ==> WrittenUpTo(c, o, from, loaded, store, committed))
  }

  lemma StoreStillSeen<O>(c: Config, o: Outcomes<O>, from: nat, loaded: Store<O>, before: Store<O>, after: Store<O>,
                          expected: nat, committed: nat)
    requires 0 < c.maxAttempts && StoreSeen(c, o, from, loaded, before, expected, committed) && Advances(before, after)
    ensures StoreSeen(c, o, from, loaded, after, expected, committed)
  {
  }

  /** A commit that found the expected version has written the pending results. */
  lemma StoreCommitted<O>(c: Config, o: Outcomes<O>, from: nat, loaded: Store<O>, before: Store<O>, after: Store<O>,
                          expected: nat, committed: nat, position: nat)
    requires 0 < c.maxAttempts && StoreSeen(c, o, from, loaded, before, expected, committed)
    requires before.version == expected && committed <= position && Decided(c, o.process, from, position)
    requires after.version == expected + 1 && after.checkpoint == position
    requires after.output == before.output + KeptOf(DecisionsOf(c, o.process, committed, position))
    ensures StoreSeen(c, o, from, loaded, after, expected + 1, position)
  {
    hide DecisionAt, KeptOf, DecisionsOf;
    AllWritten(c, o, from, committed, position);
  }

  /** A run starts where the loaded store ends. */
  lemma LoadedIsSeen<O(!new)>(w: World<O>, o: Outcomes<O>, at: nat, position: nat, store: Store<O>)
    requires 0 < w.c.chunkSize && 0 < w.c.maxAttempts && at <= |w.trace| && IsTrace(w.c, w.processor, w.trace[..at])
    requires
      var loaded := LoadedStore(w, at);
      position == (if loaded.version == 0 then 0 else loaded.checkpoint) && Advances(loaded, store)
    ensures position == LoadedStore(w, at).checkpoint <= w.c.inputLength
    ensures StoreSeen(w.c, o, position, LoadedStore(w, at), store, LoadedStore(w, at).version, position)
  {
    hide IsTrace, After, DecisionAt;
    TraceKeepsInv(w.c, w.processor, w.trace[..at]);
    var loaded := LoadedStore(w, at);
    NothingPending(w.c, o, position);
    assert loaded.output + [] == loaded.output;
  }

  /** The loop of an atomic run over these outcomes. It completes exactly when nothing stops it; what it
      leaves in the store, if it was alone, are the loaded output and the kept results of the positions
      from the loaded checkpoint on. */
  method LoopAtomic<O(!new)>(w: World<O>, id: nat, o: Outcomes<O>)
    returns (status: Status, report: Report, ghost started: bool, ghost from: nat, ghost loadedAt: nat)
    requires w.Valid() && id !in w.state.runs && 0 < w.c.chunkSize && 0 < w.c.maxAttempts
    requires Permits(w.c, w.processor, o.process)
    modifies w
    ensures w.Valid() && old(w.trace) <= w.trace
    ensures id in w.state.runs && w.state.runs[id].phase == Done(status) && w.state.runs[id].report == report
    ensures o.open.None? && o.load.None? ==>
      && |old(w.trace)| <= loadedAt && LoadsAt(w, id, loadedAt)
      && (started <==> LoadedStore(w, loadedAt).version == 0 || o.restore.None?)
    ensures started ==> o.open.None? && o.load.None? && from == LoadedStore(w, loadedAt).checkpoint <= w.c.inputLength
    ensures status == Completed ==>
      && started && Smooth(w.c, o, from) && report == ReportAt(w.c, o, from, w.c.inputLength, w.c.inputLength)
    ensures started ==> w.state.runs[id].expected <= w.state.store.version
    ensures started && Alone(w, id) ==> (status == Completed <==> Smooth(w.c, o, from))
    ensures started && Alone(w, id) ==>
      WrittenUpTo(w.c, o, from, LoadedStore(w, loadedAt), w.state.store, w.state.store.checkpoint)
    ensures started && Alone(w, id) && status == Completed ==> w.state.store.checkpoint == w.c.inputLength
  {
    hide IsTrace, After, Next, Enabled, NextRun, Underway, Smooth, DecisionAt, KeptOf, ReportAt, StoreSeen, Handled;
    var position, expected, ready;
    ready, status, position, expected, loadedAt := StartAtomic(w, id, o);
    started, from, report := ready, position, Report(0, 0, 0, 0, 0);
    if !ready {
      return;
    }
    ghost var loaded, begun := LoadedStore(w, loadedAt), w.trace;
    LoadedIsSeen(w, o, loadedAt, position, w.state.store);
    UnderwayStart(w.c, o, from, expected);
    var p := Progress(position, expected, [], 0, report);
    while true
      invariant begun <= w.trace && Holds(w, id, Reading, p) && Underway(w.c, o, from, p)
      invariant from <= p.position <= w.c.inputLength
      invariant StoreSeen(w.c, o, from, loaded, w.state.store, p.expected, LastCommit(w.c, from, p.position))
      decreases w.c.inputLength - p.position
    {
      var done;
      done, status, p := Pass(w, id, o, p, from, loaded);
      if done {
        report := p.report;
        assert w.trace[..loadedAt] == begun[..loadedAt] && w.trace[loadedAt] == begun[loadedAt];
        return;
      }
    }
  }

  /** How a pass of the loop or a part of it may end the run. */
  ghost predicate EndsRight<O(!new)>(w: World<O>, id: nat, o: Outcomes<O>, from: nat, loaded: Store<O>,
                                     status: Status, p: Progress<O>)
    requires 0 < w.c.maxAttempts && from <= w.c.inputLength
    reads w
  {
    && Ended(w, id, status, p.report, p.expected) && p.expected <= w.state.store.version
    && (status == Completed ==>
          Smooth(w.c, o, from) && p.report == ReportAt(w.c, o, from, w.c.inputLength, w.c.inputLength))
    && (Alone(w, id) ==>
          && (Smooth(w.c, o, from) ==> status == Completed)
          && WrittenUpTo(w.c, o, from, loaded, w.state.store, w.state.store.checkpoint)
          && (status == Completed ==> w.state.store.checkpoint == w.c.inputLength))
  }

  lemma EndsEarly<O(!new)>(w: World<O>, id: nat, o: Outcomes<O>, from: nat, loaded: Store<O>, status: Status,
                           p: Progress<O>, committed: nat)
    requires 0 < w.c.maxAttempts && from <= w.c.inputLength && status != Completed
    requires Ended(w, id, status, p.report, p.expected)
    requires StoreSeen(w.c, o, from, loaded, w.state.store, p.expected, committed)
    requires Alone(w, id) ==> !Smooth(w.c, o, from)
    ensures EndsRight(w, id, o, from, loaded, status, p)
  {
    hide Smooth, DecisionAt, KeptOf, ReportAt;
  }

  lemma SmoothEnd<O>(c: Config, o: Outcomes<O>, from: nat, p: Progress<O>)
    requires 0 < c.maxAttempts && Underway(c, o, from, p) && p.position == c.inputLength
    requires !o.cancelled(p.position) && o.read(p.position).None?
    requires p.progressCount > 0 ==> o.commit(p.position).Accepted?
    ensures Smooth(c, o, from)
    ensures p.report.(writeCount := p.report.writeCount + |p.pending|) == ReportAt(c, o, from, p.position, p.position)
    ensures p.pending == KeptOf(DecisionsOf(c, o.process, LastCommit(c, from, p.position), p.position))
    ensures p.progressCount == 0 ==> LastCommit(c, from, p.position) == p.position && p.pending == []
    ensures Decided(c, o.process, from, p.position)
  {
    hide DecisionAt, KeptOf, SkipCount, FilterCount, RetrySum, DecisionsOf;
    AllWritten(c, o, from, LastCommit(c, from, p.position), p.position);
    NothingPending(c, o, p.position);
  }

  lemma UnderwayMeans<O>(c: Config, o: Outcomes<O>, from: nat, p: Progress<O>)
    requires 0 < c.maxAttempts && Underway(c, o, from, p)
    ensures from <= p.position <= c.inputLength && p.progressCount == p.position - LastCommit(c, from, p.position)
    ensures p.progressCount < c.chunkSize && Decided(c, o.process, from, p.position)
    ensures p.report.skipCount == SkipCount(DecisionsOf(c, o.process, from, p.position))
  {
  }

  /** The end of the input: what is pending is committed and the run is complete. */
  method EndRun<O(!new)>(w: World<O>, id: nat, o: Outcomes<O>, before: Progress<O>, ghost from: nat,
                         ghost loaded: Store<O>)
    returns (status: Status, p: Progress<O>)
    requires 0 < w.c.maxAttempts && Underway(w.c, o, from, before) && from <= before.position == w.c.inputLength
    requires !o.cancelled(before.position) && o.read(before.position).None?
    requires Holds(w, id, if before.progressCount > 0 then Committing(true) else Done(Completed), before)
    requires StoreSeen(w.c, o, from, loaded, w.state.store, before.expected, LastCommit(w.c, from, before.position))
    modifies w
    ensures w.Valid() && old(w.trace) <= w.trace && EndsRight(w, id, o, from, loaded, status, p)
  {
    hide IsTrace, After, Next, Enabled, NextRun, Underway, Smooth, DecisionAt, KeptOf, ReportAt, DecisionsOf, StoreSeen;
    ghost var committed := LastCommit(w.c, from, before.position);
    UnderwayMeans(w.c, o, from, before);
    p, status := before, Completed;
    if before.progressCount > 0 {
      ghost var store := w.state.store;
      var accepted;
      accepted, status, p := CommitAtomic(w, id, o, true, before);
      StoreStillSeen(w.c, o, from, loaded, store, StoreBeforeLast(w), before.expected, committed);
      if !accepted {
        if Smooth(w.c, o, from) {
          SmoothCommits(w.c, o, from);
        }
        EndsEarly(w, id, o, from, loaded, status, p, committed);
        return;
      }
      SmoothEnd(w.c, o, from, before);
      StoreCommitted(w.c, o, from, loaded, StoreBeforeLast(w), w.state.store, before.expected, committed,
                     before.position);
      status := Completed;
    } else {
      SmoothEnd(w.c, o, from, before);
    }
    SeenIsWritten(w.c, o, from, loaded, w.state.store, p.expected, before.position);
  }

  lemma SmoothCommits<O>(c: Config, o: Outcomes<O>, from: nat)
    requires 0 < c.maxAttempts && from <= c.inputLength && Smooth(c, o, from)
    ensures LastCommit(c, from, c.inputLength) < c.inputLength ==> o.commit(c.inputLength).Accepted?
  {
  }

  lemma SeenIsWritten<O>(c: Config, o: Outcomes<O>, from: nat, loaded: Store<O>, store: Store<O>, expected: nat,
                         committed: nat)
    requires 0 < c.maxAttempts && StoreSeen(c, o, from, loaded, store, expected, committed)
    ensures expected <= store.version
    ensures store.version == expected ==> WrittenUpTo(c, o, from, loaded, store, committed)
  {
  }

  /** A full chunk is committed. */
  method CommitChunk<O(!new)>(w: World<O>, id: nat, o: Outcomes<O>, before: Progress<O>, handled: Progress<O>,
                              ghost from: nat, ghost loaded: Store<O>)
    returns (accepted: bool, status: Status, p: Progress<O>)
    requires 0 < w.c.chunkSize && 0 < w.c.maxAttempts && from <= w.c.inputLength
    requires Underway(w.c, o, from, before) && from <= before.position && handled.position == before.position + 1
    requires Handled(w.c, o, from, LastCommit(w.c, from, before.position), handled)
    requires handled.progressCount == w.c.chunkSize && Holds(w, id, Committing(false), handled)
    requires StoreSeen(w.c, o, from, loaded, w.state.store, handled.expected, LastCommit(w.c, from, before.position))
    modifies w
    ensures w.Valid() && old(w.trace) <= w.trace
    ensures !accepted ==> EndsRight(w, id, o, from, loaded, status, p)
    ensures accepted ==>
      && p.position == handled.position && Holds(w, id, Reading, p) && Underway(w.c, o, from, p)
      && StoreSeen(w.c, o, from, loaded, w.state.store, p.expected, LastCommit(w.c, from, p.position))
  {
    hide IsTrace, After, Next, Enabled, NextRun, Underway, Smooth, DecisionAt, KeptOf, ReportAt, DecisionsOf, StoreSeen;
    hide SkipCount;
    ghost var committed, store := LastCommit(w.c, from, before.position), w.state.store;
    UnderwayMeans(w.c, o, from, before);
    accepted, status, p := CommitAtomic(w, id, o, false, handled);
    StoreStillSeen(w.c, o, from, loaded, store, StoreBeforeLast(w), handled.expected, committed);
    if accepted {
      CommitDone(w.c, o, from, before, handled, p.expected);
      StoreCommitted(w.c, o, from, loaded, StoreBeforeLast(w), w.state.store, handled.expected, committed,
                     handled.position);
    } else {
      if Smooth(w.c, o, from) {
        SmoothAt(w.c, o, from, handled.position);
      }
      EndsEarly(w, id, o, from, loaded, status, p, committed);
    }
  }

  /** One pass of the loop: an item is read and dealt with and a due commit is made, or the run ends. */
  method Pass<O(!new)>(w: World<O>, id: nat, o: Outcomes<O>, before: Progress<O>, ghost from: nat,
                       ghost loaded: Store<O>)
    returns (done: bool, status: Status, p: Progress<O>)
    requires 0 < w.c.chunkSize && 0 < w.c.maxAttempts && Permits(w.c, w.processor, o.process)
    requires Holds(w, id, Reading, before) && Underway(w.c, o, from, before)
    requires from <= before.position <= w.c.inputLength
    requires StoreSeen(w.c, o, from, loaded, w.state.store, before.expected, LastCommit(w.c, from, before.position))
    modifies w
    ensures w.Valid() && old(w.trace) <= w.trace
    ensures !done ==>
      && before.position < p.position <= w.c.inputLength && Holds(w, id, Reading, p) && Underway(w.c, o, from, p)
      && StoreSeen(w.c, o, from, loaded, w.state.store, p.expected, LastCommit(w.c, from, p.position))
    ensures done ==> EndsRight(w, id, o, from, loaded, status, p)
  {
    hide *;
    ghost var committed, store := LastCommit(w.c, from, before.position), w.state.store;
    var read;
    read, status := ReadItem(w, id, o, before);
    StoreStillSeen(w.c, o, from, loaded, store, w.state.store, before.expected, committed);
    p, done := before, true;
    if !read {
      if Smooth(w.c, o, from) {
        SmoothAt(w.c, o, from, before.position);
      }
      EndedStatus(w.c, o, before.position);
      EndsEarly(w, id, o, from, loaded, status, p, committed);
    } else if before.position >= w.c.inputLength {
      status, p := EndRun(w, id, o, before, from, loaded);
    } else {
      done, status, p := DealWith(w, id, o, before, from, loaded);
    }
  }

  lemma EndedStatus<O>(c: Config, o: Outcomes<O>, position: nat)
    ensures o.read(position).Some? ==> StatusFor(o.read(position).value) != Completed
  {
  }

  /** Deals with the item just read, and makes a due commit. */
  method DealWith<O(!new)>(w: World<O>, id: nat, o: Outcomes<O>, before: Progress<O>, ghost from: nat,
                           ghost loaded: Store<O>)
    returns (done: bool, status: Status, p: Progress<O>)
    requires 0 < w.c.chunkSize && 0 < w.c.maxAttempts && Permits(w.c, w.processor, o.process)
    requires Underway(w.c, o, from, before) && from <= before.position < w.c.inputLength
    requires !o.cancelled(before.position) && o.read(before.position).None?
    requires Holds(w, id, Processing(1), before.(position := before.position + 1,
                                                 progressCount := before.progressCount + 1,
                                                 report := before.report.(readCount := before.report.readCount + 1)))
    requires StoreSeen(w.c, o, from, loaded, w.state.store, before.expected, LastCommit(w.c, from, before.position))
    modifies w
    ensures w.Valid() && old(w.trace) <= w.trace
    ensures !done ==>
      && before.position < p.position <= w.c.inputLength && Holds(w, id, Reading, p) && Underway(w.c, o, from, p)
      && StoreSeen(w.c, o, from, loaded, w.state.store, p.expected, LastCommit(w.c, from, p.position))
    ensures done ==> EndsRight(w, id, o, from, loaded, status, p)
  {
    hide *;
    ghost var committed, store := LastCommit(w.c, from, before.position), w.state.store;
    p := before.(position := before.position + 1, progressCount := before.progressCount + 1,
                 report := before.report.(readCount := before.report.readCount + 1));
    var decided;
    decided, status, p := HandleItem(w, id, o, p);
    StoreStillSeen(w.c, o, from, loaded, store, w.state.store, before.expected, committed);
    UnderwayMeans(w.c, o, from, before);
    if !decided {
      if Smooth(w.c, o, from) {
        SmoothAt(w.c, o, from, before.position);
        BudgetLeft(w.c, before.report.skipCount);
      }
      ghost var report := WithRetries(before.report.(readCount := before.report.readCount + 1),
                                      ItemRetries(w.c, o.process, before.position));
      EndedReport(w, id, status, report, before.expected);
      done, p := true, before.(report := w.state.runs[id].report);
      EndsEarly(w, id, o, from, loaded, status, p, committed);
      return;
    }
    ItemHandled(w.c, o, from, before, p);
    done := false;
    if p.progressCount < w.c.chunkSize {
      StillUnderway(w.c, o, from, before, p);
      NoCommit(w.c, from, before.position);
    } else {
      var accepted;
      accepted, status, p := CommitChunk(w, id, o, before, p, from, loaded);
      done := !accepted;
    }
  }

  lemma BudgetLeft(c: Config, used: nat)
    ensures used + 1 <= c.maxSkips ==> SkipBudget(c, used, 1)
  {
  }

  lemma EndedReport<O(!new)>(w: World<O>, id: nat, status: Status, report: Report, expected: nat)
    requires Ended(w, id, status, report, expected)
    ensures id in w.state.runs && w.state.runs[id].report == report
  {
  }

  lemma NoCommit(c: Config, from: nat, p: nat)
    requires from <= p && p + 1 - LastCommit(c, from, p) != c.chunkSize
    ensures LastCommit(c, from, p + 1) == LastCommit(c, from, p)
  {
  }

  /** An atomic run: the loop, then closing the reader, which turns a completed run into a failed one
      when it goes wrong. Whatever rivals do, the run obeys the state machine, so what is proved of all
      interleavings holds; if it was alone since its load, it completes exactly when nothing goes wrong. */
  method RunAtomic<O(!new)>(w: World<O>, id: nat, o: Outcomes<O>)
    returns (status: Status, report: Report, ghost started: bool, ghost from: nat, ghost loadedAt: nat)
    requires w.Valid() && id !in w.state.runs && 0 < w.c.chunkSize && 0 < w.c.maxAttempts
    requires Permits(w.c, w.processor, o.process)
    modifies w
    ensures w.Valid() && old(w.trace) <= w.trace
    ensures id in w.state.runs && w.state.runs[id].phase == Done(status) && w.state.runs[id].report == report
    ensures report.skipCount <= w.c.maxSkips
    ensures status == Completed ==> report.readCount == report.writeCount + report.filterCount + report.skipCount
    ensures status == Completed ==> w.state.store.checkpoint == w.c.inputLength
    ensures o.open.None? && o.load.None? ==>
      && |old(w.trace)| <= loadedAt && LoadsAt(w, id, loadedAt)
      && (started <==> LoadedStore(w, loadedAt).version == 0 || o.restore.None?)
    ensures started ==> o.open.None? && o.load.None? && from == LoadedStore(w, loadedAt).checkpoint <= w.c.inputLength
    ensures status == Completed ==>
      && started && Smooth(w.c, o, from) && report == ReportAt(w.c, o, from, w.c.inputLength, w.c.inputLength)
    ensures started && Alone(w, id) ==> (status == Completed <==> Smooth(w.c, o, from) && !o.closeFails)
    ensures started && Alone(w, id) ==>
      WrittenUpTo(w.c, o, from, LoadedStore(w, loadedAt), w.state.store, w.state.store.checkpoint)
    ensures started && Alone(w, id) && Smooth(w.c, o, from) ==> w.state.store.checkpoint == w.c.inputLength
  {
    hide IsTrace, After, Next, Smooth, ReportAt, KeptOf, DecisionAt, DecisionsOf;
    status, report, started, from, loadedAt := LoopAtomic(w, id, o);
    ghost var looped, store := w.trace, w.state.store;
    w.Others(id);
    if status == Completed && o.closeFails {
      w.Do(id, CloseFails);
      status := Failed;
    }
    assert looped <= w.trace;
    if o.open.None? && o.load.None? {
      assert w.trace[..loadedAt] == looped[..loadedAt] && w.trace[loadedAt] == looped[loadedAt];
    }
    ExactlyOnce(w.c, w.processor, w.trace);
  }

  /** What a smooth run that was alone leaves behind: all input positions are decided, and the output has
      grown by exactly the results that processing kept. */
  lemma SmoothOutput<O>(c: Config, o: Outcomes<O>, from: nat, loaded: Store<O>, store: Store<O>)
    requires 0 < c.maxAttempts && from <= c.inputLength && Smooth(c, o, from)
    requires WrittenUpTo(c, o, from, loaded, store, c.inputLength)
    ensures store.output == loaded.output + KeptOf(DecisionsOf(c, o.process, from, c.inputLength))
    ensures var report := ReportAt(c, o, from, c.inputLength, c.inputLength);
            && report.readCount == c.inputLength - from && |store.output| == |loaded.output| + report.writeCount
            && report.readCount == report.writeCount + report.filterCount + report.skipCount
  {
    CountsAddUp(DecisionsOf(c, o.process, from, c.inputLength));
  }

  /** When nothing is cancelled, every read and commit succeeds and every item is processed at its first
      attempt, a run is smooth, and every position is kept or filtered as that attempt says. */
  lemma PlainRunIsSmooth<O>(c: Config, o: Outcomes<O>, from: nat)
    requires 0 < c.maxAttempts && from <= c.inputLength
    requires forall i: nat :: !o.cancelled(i) && o.read(i).None?
    requires forall i: nat :: o.commit(i).Accepted?
    requires forall i: nat :: !o.process(i, 1).Fails?
    ensures Smooth(c, o, from)
    ensures forall i: nat ::
      DecisionAt(c, o.process, i) == Some(if o.process(i, 1).Drop? then Filtered else Kept(o.process(i, 1).output))
    ensures RetrySum(c, o.process, from, c.inputLength) == 0
  {
    hide DecisionAt, SkipCount, DecisionsOf, LastCommit, ItemRetries;
    forall i: nat
      ensures ItemRetries(c, o.process, i) == 0
      ensures DecisionAt(c, o.process, i) ==
        Some(if o.process(i, 1).Drop? then Filtered else Kept(o.process(i, 1).output))
    {
      PlainItem(c, o.process, i);
    }
    NoSkips(c, o.process, from, c.inputLength);
    NoRetries(c, o.process, from, c.inputLength);
  }
}
