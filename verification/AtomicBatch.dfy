/** Any number of atomic batch runs over one checkpoint key (batch/atomic_step.go), as a state
    machine whose steps are the calls a run makes to its reader, its processor and the shared
    checkpoint writer. Each call may fail; a commit may be reported as failed and still take effect,
    at once or later. Other runs may move between any two calls.

    A run and the store also carry history: which decision was taken for each input position. The
    history is never read by a step, it only lets the properties be stated. */
module AtomicBatch {
  import opened Wrappers

  /** What processing one item came to. */
  datatype Decision<O> = Kept(output: O) | Filtered | Skipped

  datatype Config = Config(inputLength: nat, chunkSize: nat, maxAttempts: nat, maxSkips: nat)

  datatype Report = Report(readCount: nat, writeCount: nat, filterCount: nat, skipCount: nat, retryCount: nat)

  datatype Status = Completed | Failed | Cancelled

  /** Where a run is. `Processing` and `Committing` are between the calls of one loop pass. */
  datatype Phase =
    | Loading
    | Restoring(version: nat, checkpoint: nat)
    | Reading
    | Processing(attempt: nat)
    | Committing(atEnd: bool)
    | Done(status: Status)

  /** A commit whose outcome the run does not know; it may still be applied. */
  datatype Request<O> = Request(expected: nat, items: seq<O>, checkpoint: nat, decisions: seq<Decision<O>>)

  datatype Run<O> = Run(
    phase: Phase, position: nat, expected: nat, pending: seq<O>, progressCount: nat, report: Report,
    lost: Option<Request<O>>, decisions: seq<Decision<O>>)

  /** The store behind the key. `history[v]` holds the decisions behind version `v`. */
  datatype Store<O> = Store(version: nat, checkpoint: nat, output: seq<O>, history: seq<seq<Decision<O>>>)

  datatype State<O> = State(store: Store<O>, runs: map<nat, Run<O>>)

  /** The calls of a run and how they turn out. */
  datatype Event<O> =
    | Begin
    | Load | LoadFails(status: Status)
    | Restore | RestoreFails(status: Status)
    | CancelledBeforeRead
    | Read | ReadFails(status: Status)
    | Decide(decision: Decision<O>)
    | Retry
    | ProcessFails(status: Status)
    | Commit
    | CommitFails(status: Status)
    | CommitUnknown(status: Status)
    | LateCommit
    | CloseFails

  function KeptOf<O>(decisions: seq<Decision<O>>): seq<O> {
    if decisions == [] then []
    else
      var last := decisions[|decisions| - 1];
      KeptOf(decisions[..|decisions| - 1]) + if last.Kept? then [last.output] else []
  }

  // ---- The steps ----

  function Fresh<O>(): Run<O> {
    Run(Loading, 0, 0, [], 0, Report(0, 0, 0, 0, 0), None, [])
  }

  function Initial<O>(): State<O> {
    State(Store(0, 0, [], [[]]), map[])
  }

  /** `processor(i, d)`: processing the item at position `i` may come to `d`. */
  predicate Enabled<O>(c: Config, processor: (nat, Decision<O>) -> bool, s: State<O>, id: nat, e: Event<O>) {
    if id !in s.runs then e.Begin?
    else
      var r := s.runs[id];
      match e
      case Load => r.phase.Loading?
      case LoadFails(status) => r.phase.Loading? && status != Completed
      case Restore => r.phase.Restoring?
      case RestoreFails(status) => r.phase.Restoring? && status != Completed
      case CancelledBeforeRead => r.phase.Reading?
      case Read => r.phase.Reading?
      case ReadFails(status) => r.phase.Reading? && status != Completed
      case Decide(decision) =>
        && r.phase.Processing? && 0 < r.position && processor(r.position - 1, decision)
        && (decision.Skipped? ==> SkipBudget(c, r.report.skipCount, 1))
      case Retry => r.phase.Processing? && r.phase.attempt < c.maxAttempts
      case ProcessFails(status) => r.phase.Processing? && status != Completed
      case Commit => r.phase.Committing? && s.store.version == r.expected
      case CommitFails(status) => r.phase.Committing? && status != Completed
      case CommitUnknown(status) => r.phase.Committing? && status != Completed
      case LateCommit => r.lost.Some? && s.store.version == r.lost.value.expected
      case CloseFails => r.phase == Done(Completed)
      case Begin => false
  }

  predicate SkipBudget(c: Config, used: nat, cost: nat) {
    0 < cost && 0 < c.maxSkips && used + cost <= c.maxSkips
  }

  function AfterDecision<O>(c: Config, r: Run<O>, d: Decision<O>): Run<O> {
    var report := match d
      case Kept(_) => r.report
      case Filtered => r.report.(filterCount := r.report.filterCount + 1)
      case Skipped => r.report.(skipCount := r.report.skipCount + 1);
    r.(report := report,
       pending := if d.Kept? then r.pending + [d.output] else r.pending,
       decisions := r.decisions + [d],
       phase := if r.progressCount == c.chunkSize then Committing(false) else Reading)
  }

  function AfterCommit<O>(r: Run<O>, newVersion: nat): Run<O>
    requires r.phase.Committing?
  {
    var report := r.report.(writeCount := r.report.writeCount + |r.pending|);
    if r.phase.atEnd then r.(report := report, expected := newVersion, pending := [], progressCount := 0,
                             decisions := [], phase := Done(Completed))
    else r.(report := report, expected := newVersion, pending := [], progressCount := 0,
            decisions := [], phase := Reading)
  }

  /** The writer's contract: output and checkpoint change together, under the expected version. */
  function Applied<O>(store: Store<O>, q: Request<O>): Store<O>
    requires |store.history| > 0
  {
    Store(store.version + 1, q.checkpoint, store.output + q.items,
          store.history + [store.history[|store.history| - 1] + q.decisions])
  }

  function RequestOf<O>(r: Run<O>): Request<O> {
    Request(r.expected, r.pending, r.position, r.decisions)
  }

  function NextRun<O>(c: Config, s: State<O>, r: Run<O>, e: Event<O>): Run<O>
    requires e.Commit? ==> r.phase.Committing?
    requires e.Retry? ==> r.phase.Processing?
    requires e.Restore? ==> r.phase.Restoring?
  {
    match e
    case Begin => Fresh()
    case Load =>
      if s.store.version == 0 then r.(phase := Reading, expected := 0, position := 0)
      else r.(phase := Restoring(s.store.version, s.store.checkpoint))
    case Restore => r.(phase := Reading, expected := r.phase.version, position := r.phase.checkpoint)
    case CancelledBeforeRead => r.(phase := Done(Cancelled))
    case Read =>
      if r.position >= c.inputLength then
        r.(phase := if r.progressCount > 0 then Committing(true) else Done(Completed))
      else
        r.(phase := Processing(1), position := r.position + 1, progressCount := r.progressCount + 1,
           report := r.report.(readCount := r.report.readCount + 1))
    case Decide(decision) => AfterDecision(c, r, decision)
    case Retry =>
      r.(phase := Processing(r.phase.attempt + 1), report := r.report.(retryCount := r.report.retryCount + 1))
    case Commit => AfterCommit(r, s.store.version + 1)
    case CommitUnknown(status) => r.(phase := Done(status), lost := Some(RequestOf(r)))
    case LateCommit => r.(lost := None)
    case CloseFails => r.(phase := Done(Failed))
    case LoadFails(status) => r.(phase := Done(status))
    case RestoreFails(status) => r.(phase := Done(status))
    case ReadFails(status) => r.(phase := Done(status))
    case ProcessFails(status) => r.(phase := Done(status))
    case CommitFails(status) => r.(phase := Done(status))
  }

  function Next<O>(c: Config, processor: (nat, Decision<O>) -> bool, s: State<O>, id: nat, e: Event<O>): State<O>
    requires Enabled(c, processor, s, id, e) && |s.store.history| > 0
  {
    var r := if id in s.runs then s.runs[id] else Fresh();
    var store := match e
      case Commit => Applied(s.store, RequestOf(r))
      case LateCommit => Applied(s.store, r.lost.value)
      case _ => s.store;
    State(store, s.runs[id := NextRun(c, s, r, e)])
  }

  // ---- What every step keeps ----

  ghost predicate Allowed<O>(processor: (nat, Decision<O>) -> bool, start: nat, decisions: seq<Decision<O>>) {
    forall i | 0 <= i < |decisions| :: processor(start + i, decisions[i])
  }

  function Latest<O>(store: Store<O>): seq<Decision<O>>
    requires |store.history| > 0
  {
    store.history[|store.history| - 1]
  }

  ghost predicate Chain<O>(history: seq<seq<Decision<O>>>) {
    forall v, w | 0 <= v < w < |history| :: history[v] <= history[w] && |history[v]| < |history[w]|
  }

  /** The committed output is exactly the kept results of the input up to the checkpoint, each
      position of which was decided once, as the processor allows; later versions only extend. */
  ghost predicate StoreInv<O>(c: Config, processor: (nat, Decision<O>) -> bool, store: Store<O>) {
    && |store.history| == store.version + 1
    && store.history[0] == []
    && Chain(store.history)
    && store.checkpoint == |Latest(store)| <= c.inputLength
    && store.output == KeptOf(Latest(store))
    && Allowed(processor, 0, Latest(store))
  }

  ghost predicate RequestInv<O>(c: Config, processor: (nat, Decision<O>) -> bool,
                                history: seq<seq<Decision<O>>>, q: Request<O>) {
    && q.expected < |history|
    && q.decisions != []
    && q.items == KeptOf(q.decisions)
    && q.checkpoint == |history[q.expected]| + |q.decisions| <= c.inputLength
    && Allowed(processor, |history[q.expected]|, q.decisions)
  }

  ghost predicate ProgressInv<O>(c: Config, processor: (nat, Decision<O>) -> bool,
                                 history: seq<seq<Decision<O>>>, r: Run<O>) {
    && r.expected < |history|
    && r.position == |history[r.expected]| + r.progressCount <= c.inputLength
    && r.progressCount == |r.decisions| + (if r.phase.Processing? then 1 else 0)
    && r.pending == KeptOf(r.decisions)
    && Allowed(processor, |history[r.expected]|, r.decisions)
    && (r.phase.Committing? ==> r.progressCount > 0 && (r.phase.atEnd ==> r.position == c.inputLength))
    && (r.phase.Processing? ==> 1 <= r.phase.attempt <= c.maxAttempts)
  }

  ghost predicate AtEnd<O>(c: Config, history: seq<seq<Decision<O>>>) {
    |history| > 0 && |history[|history| - 1]| == c.inputLength
  }

  ghost predicate PhaseInv<O>(c: Config, processor: (nat, Decision<O>) -> bool,
                              history: seq<seq<Decision<O>>>, r: Run<O>) {
    match r.phase
    case Loading => r.progressCount == 0 && r.decisions == [] && r.pending == []
    case Restoring(version, checkpoint) =>
      && r.progressCount == 0 && r.decisions == [] && r.pending == []
      && 0 < version < |history| && checkpoint == |history[version]| <= c.inputLength
    case Done(status) => status == Completed ==> AtEnd(c, history)
    case _ => ProgressInv(c, processor, history, r)
  }

  /** Every item read is written, filtered, skipped, pending, or still being processed. */
  ghost predicate ReportInv<O>(c: Config, r: Run<O>) {
    var p := r.report;
    && p.skipCount <= c.maxSkips
    && p.writeCount + p.filterCount + p.skipCount <= p.readCount
    && (r.phase == Done(Completed) ==> p.readCount == p.writeCount + p.filterCount + p.skipCount)
    && (!r.phase.Done? ==>
          p.readCount == p.writeCount + p.filterCount + p.skipCount + |r.pending|
                         + (if r.phase.Processing? then 1 else 0))
  }

  ghost predicate RunInv<O>(c: Config, processor: (nat, Decision<O>) -> bool,
                            history: seq<seq<Decision<O>>>, r: Run<O>) {
    && PhaseInv(c, processor, history, r)
    && ReportInv(c, r)
    && (r.lost.Some? ==> RequestInv(c, processor, history, r.lost.value))
  }

  ghost predicate Inv<O>(c: Config, processor: (nat, Decision<O>) -> bool, s: State<O>) {
    && StoreInv(c, processor, s.store)
    && forall id | id in s.runs :: RunInv(c, processor, s.store.history, s.runs[id])
  }

  lemma {:induction false} KeptOfConcat<O>(a: seq<Decision<O>>, b: seq<Decision<O>>)
    ensures KeptOf(a + b) == KeptOf(a) + KeptOf(b)
  {
    if b == [] {
      assert a + b == a;
    } else {
      var init := b[..|b| - 1];
      assert (a + b)[..|a + b| - 1] == a + init;
      KeptOfConcat(a, init);
    }
  }

  lemma AllowedConcat<O>(processor: (nat, Decision<O>) -> bool, a: seq<Decision<O>>, b: seq<Decision<O>>)
    requires Allowed(processor, 0, a) && Allowed(processor, |a|, b)
    ensures Allowed(processor, 0, a + b)
  {
    var all := a + b;
    forall i | 0 <= i < |all| ensures processor(0 + i, all[i]) {
      if i < |a| {
        assert processor(0 + i, a[i]);
      } else {
        assert processor(|a| + (i - |a|), b[i - |a|]);
      }
    }
  }

  /** Applying a commit under its expected version keeps the store right. */
  lemma AppliedKeepsStore<O>(c: Config, processor: (nat, Decision<O>) -> bool, store: Store<O>, q: Request<O>)
    requires StoreInv(c, processor, store) && RequestInv(c, processor, store.history, q) && q.expected == store.version
    ensures StoreInv(c, processor, Applied(store, q))
  {
    hide Allowed, KeptOf;
    var latest := Latest(store);
    KeptOfConcat(latest, q.decisions);
    AllowedConcat(processor, latest, q.decisions);
    var next := Applied(store, q);
    forall v, w | 0 <= v < w < |next.history|
      ensures next.history[v] <= next.history[w] && |next.history[v]| < |next.history[w]|
    {
      if w == |next.history| - 1 && v < store.version {
        assert store.history[v] <= latest;
      }
    }
  }

  /** A run's own invariant survives whatever other runs commit. */
  lemma OthersKeepRun<O>(c: Config, processor: (nat, Decision<O>) -> bool, store: Store<O>, q: Request<O>, r: Run<O>)
    requires StoreInv(c, processor, store) && RequestInv(c, processor, store.history, q) && q.expected == store.version
    requires RunInv(c, processor, store.history, r)
    ensures RunInv(c, processor, Applied(store, q).history, r)
  {
  }

  lemma DecisionKeepsRun<O>(c: Config, processor: (nat, Decision<O>) -> bool, history: seq<seq<Decision<O>>>,
                            r: Run<O>, d: Decision<O>)
    requires RunInv(c, processor, history, r) && r.phase.Processing? && processor(r.position - 1, d)
    requires d.Skipped? ==> SkipBudget(c, r.report.skipCount, 1)
    ensures RunInv(c, processor, history, AfterDecision(c, r, d))
  {
    hide KeptOf, Allowed;
    AppendDecision(processor, r.position - r.progressCount, r.decisions, d);
  }

  lemma AppendDecision<O>(processor: (nat, Decision<O>) -> bool, start: nat, decisions: seq<Decision<O>>,
                          d: Decision<O>)
    requires Allowed(processor, start, decisions) && processor(start + |decisions|, d)
    ensures Allowed(processor, start, decisions + [d])
    ensures KeptOf(decisions + [d]) == KeptOf(decisions) + if d.Kept? then [d.output] else []
  {
    var all := decisions + [d];
    forall i | 0 <= i < |all| ensures processor(start + i, all[i]) {
      if i < |decisions| {
        assert all[i] == decisions[i];
      }
    }
    assert Allowed(processor, start, all);
    KeptOfSnoc(decisions, d);
  }

  lemma KeptOfSnoc<O>(decisions: seq<Decision<O>>, d: Decision<O>)
    ensures KeptOf(decisions + [d]) == KeptOf(decisions) + if d.Kept? then [d.output] else []
  {
    assert (decisions + [d])[..|decisions|] == decisions;
  }

  lemma CommitKeepsRun<O>(c: Config, processor: (nat, Decision<O>) -> bool, store: Store<O>, r: Run<O>)
    requires StoreInv(c, processor, store) && RunInv(c, processor, store.history, r)
    requires r.phase.Committing? && r.expected == store.version
    ensures RequestInv(c, processor, store.history, RequestOf(r))
    ensures RunInv(c, processor, Applied(store, RequestOf(r)).history, AfterCommit(r, store.version + 1))
  {
  }

  lemma SettledRun<O>(c: Config, processor: (nat, Decision<O>) -> bool, history: seq<seq<Decision<O>>>, r: Run<O>)
    requires RunInv(c, processor, history, r)
    ensures RunInv(c, processor, history, r.(lost := None))
  {
  }

  /** One call of one run, however it turns out, keeps the invariant. */
  lemma StepKeepsInv<O>(c: Config, processor: (nat, Decision<O>) -> bool, s: State<O>, id: nat, e: Event<O>)
    requires 0 < c.chunkSize && 0 < c.maxAttempts
    requires Inv(c, processor, s) && Enabled(c, processor, s, id, e)
    ensures Inv(c, processor, Next(c, processor, s, id, e))
  {
    hide PhaseInv, ReportInv, ProgressInv, RequestInv, AfterDecision, AfterCommit, Applied, Chain, Allowed;
    var r := if id in s.runs then s.runs[id] else Fresh();
    var s' := Next(c, processor, s, id, e);
    match e {
      case Commit =>
        CommitKeepsRun(c, processor, s.store, r);
        StoreAdvances(c, processor, s, id, RequestOf(r), s');
      case LateCommit =>
        StoreAdvances(c, processor, s, id, r.lost.value, s');
        OthersKeepRun(c, processor, s.store, r.lost.value, r);
        SettledRun(c, processor, s'.store.history, r);
      case Decide(d) =>
        DecisionKeepsRun(c, processor, s.store.history, r, d);
      case _ =>
        QuietStepKeepsRun(c, processor, s, id, r, e);
    }
  }

  lemma StoreAdvances<O>(c: Config, processor: (nat, Decision<O>) -> bool, s: State<O>, id: nat, q: Request<O>,
                         s': State<O>)
    requires Inv(c, processor, s) && RequestInv(c, processor, s.store.history, q) && q.expected == s.store.version
    requires s'.store == Applied(s.store, q)
    requires forall other | other in s'.runs && other != id :: other in s.runs && s'.runs[other] == s.runs[other]
    ensures StoreInv(c, processor, s'.store)
    ensures forall other | other in s'.runs && other != id :: RunInv(c, processor, s'.store.history, s'.runs[other])
  {
    AppliedKeepsStore(c, processor, s.store, q);
    forall other | other in s'.runs && other != id
      ensures RunInv(c, processor, s'.store.history, s'.runs[other])
    {
      OthersKeepRun(c, processor, s.store, q, s.runs[other]);
    }
  }

  /** Ending without completion, perhaps with a commit of unknown outcome. */
  lemma StopKeepsRun<O>(c: Config, processor: (nat, Decision<O>) -> bool, history: seq<seq<Decision<O>>>,
                        r: Run<O>, status: Status)
    requires RunInv(c, processor, history, r) && status != Completed
    ensures RunInv(c, processor, history, r.(phase := Done(status)))
    ensures r.phase.Committing? ==>
      RunInv(c, processor, history, r.(phase := Done(status), lost := Some(RequestOf(r))))
  {
    hide KeptOf, Allowed;
  }

  lemma StartKeepsRun<O>(c: Config, processor: (nat, Decision<O>) -> bool, store: Store<O>, r: Run<O>)
    requires StoreInv(c, processor, store) && RunInv(c, processor, store.history, r)
    ensures r.phase.Loading? && store.version == 0 ==>
      RunInv(c, processor, store.history, r.(phase := Reading, expected := 0, position := 0))
    ensures r.phase.Loading? && store.version != 0 ==>
      RunInv(c, processor, store.history, r.(phase := Restoring(store.version, store.checkpoint)))
    ensures r.phase.Restoring? ==>
      RunInv(c, processor, store.history,
             r.(phase := Reading, expected := r.phase.version, position := r.phase.checkpoint))
  {
    hide Chain;
  }

  lemma ReadKeepsRun<O>(c: Config, processor: (nat, Decision<O>) -> bool, store: Store<O>, r: Run<O>)
    requires 0 < c.maxAttempts
    requires StoreInv(c, processor, store) && RunInv(c, processor, store.history, r) && r.phase.Reading?
    ensures r.position < c.inputLength ==>
      RunInv(c, processor, store.history,
             r.(phase := Processing(1), position := r.position + 1, progressCount := r.progressCount + 1,
                report := r.report.(readCount := r.report.readCount + 1)))
    ensures r.position >= c.inputLength && r.progressCount > 0 ==>
      RunInv(c, processor, store.history, r.(phase := Committing(true)))
    ensures r.position >= c.inputLength && r.progressCount == 0 ==>
      RunInv(c, processor, store.history, r.(phase := Done(Completed)))
  {
    hide Allowed;
    if r.position >= c.inputLength && r.progressCount == 0 {
      EndIsLatest(c, processor, store, r.expected);
    }
  }

  /** No version reaches beyond the input, so one at its end is the latest. */
  lemma EndIsLatest<O>(c: Config, processor: (nat, Decision<O>) -> bool, store: Store<O>, version: nat)
    requires StoreInv(c, processor, store)
    requires version < |store.history| && |store.history[version]| == c.inputLength
    ensures AtEnd(c, store.history)
  {
    hide KeptOf, Allowed;
    var latest := |store.history| - 1;
    assert forall v | 0 <= v < latest :: |store.history[v]| < |store.history[latest]|;
  }

  lemma RetryKeepsRun<O>(c: Config, processor: (nat, Decision<O>) -> bool, history: seq<seq<Decision<O>>>, r: Run<O>)
    requires RunInv(c, processor, history, r) && r.phase.Processing? && r.phase.attempt < c.maxAttempts
    ensures RunInv(c, processor, history,
                   r.(phase := Processing(r.phase.attempt + 1),
                      report := r.report.(retryCount := r.report.retryCount + 1)))
  {
    hide KeptOf, Allowed;
  }

  lemma QuietStepKeepsRun<O>(c: Config, processor: (nat, Decision<O>) -> bool, s: State<O>, id: nat, r: Run<O>,
                             e: Event<O>)
    requires 0 < c.maxAttempts
    requires Inv(c, processor, s) && Enabled(c, processor, s, id, e)
    requires r == if id in s.runs then s.runs[id] else Fresh()
    requires !e.Commit? && !e.LateCommit? && !e.Decide?
    ensures RunInv(c, processor, s.store.history, NextRun(c, s, r, e))
  {
    var history := s.store.history;
    if e.Begin? {
      assert RunInv(c, processor, history, Fresh());
      return;
    }
    hide RunInv, StoreInv;
    match e {
      case Load => StartKeepsRun(c, processor, s.store, r);
      case Restore => StartKeepsRun(c, processor, s.store, r);
      case Read => ReadKeepsRun(c, processor, s.store, r);
      case Retry => RetryKeepsRun(c, processor, history, r);
      case CancelledBeforeRead => StopKeepsRun(c, processor, history, r, Cancelled);
      case CloseFails => StopKeepsRun(c, processor, history, r, Failed);
      case LoadFails(status) => StopKeepsRun(c, processor, history, r, status);
      case RestoreFails(status) => StopKeepsRun(c, processor, history, r, status);
      case ReadFails(status) => StopKeepsRun(c, processor, history, r, status);
      case ProcessFails(status) => StopKeepsRun(c, processor, history, r, status);
      case CommitFails(status) => StopKeepsRun(c, processor, history, r, status);
      case CommitUnknown(status) => StopKeepsRun(c, processor, history, r, status);
    }
  }

  // ---- Every interleaving ----

  predicate IsTrace<O>(c: Config, processor: (nat, Decision<O>) -> bool, trace: seq<(nat, Event<O>)>)
    ensures trace == [] ==> IsTrace(c, processor, trace)
    decreases |trace|, 0
  {
    trace == [] ||
    var (id, e) := trace[|trace| - 1];
    IsTrace(c, processor, trace[..|trace| - 1]) &&
    Enabled(c, processor, After(c, processor, trace[..|trace| - 1]), id, e)
  }

  function After<O>(c: Config, processor: (nat, Decision<O>) -> bool, trace: seq<(nat, Event<O>)>): (s: State<O>)
    requires IsTrace(c, processor, trace)
    ensures |s.store.history| > 0
    decreases |trace|, 1
  {
    if trace == [] then Initial()
    else
      var (id, e) := trace[|trace| - 1];
      Next(c, processor, After(c, processor, trace[..|trace| - 1]), id, e)
  }

  lemma {:induction false} TraceKeepsInv<O>(c: Config, processor: (nat, Decision<O>) -> bool,
                                            trace: seq<(nat, Event<O>)>)
    requires 0 < c.chunkSize && 0 < c.maxAttempts && IsTrace(c, processor, trace)
    ensures Inv(c, processor, After(c, processor, trace))
  {
    if trace != [] {
      var (id, e) := trace[|trace| - 1];
      TraceKeepsInv(c, processor, trace[..|trace| - 1]);
      StepKeepsInv(c, processor, After(c, processor, trace[..|trace| - 1]), id, e);
    }
  }

  /** After any interleaving of any number of runs, whichever calls failed and whichever unknown
      commits took effect: the output is exactly the kept results of the decisions for the input
      prefix up to the checkpoint; a completed run leaves the checkpoint at the end of the input and
      accounts for every item it read; no run exceeds its skip budget. */
  lemma ExactlyOnce<O>(c: Config, processor: (nat, Decision<O>) -> bool, trace: seq<(nat, Event<O>)>)
    requires 0 < c.chunkSize && 0 < c.maxAttempts && IsTrace(c, processor, trace)
    ensures var s := After(c, processor, trace);
            && |Latest(s.store)| == s.store.checkpoint
            && s.store.output == KeptOf(Latest(s.store))
            && Allowed(processor, 0, Latest(s.store))
            && (forall id | id in s.runs && s.runs[id].phase == Done(Completed) ::
                  && s.store.checkpoint == c.inputLength
                  && var p := s.runs[id].report; p.readCount == p.writeCount + p.filterCount + p.skipCount)
            && (forall id | id in s.runs :: s.runs[id].report.skipCount <= c.maxSkips)
            && (forall id | id in s.runs && s.runs[id].phase.Processing? ::
                  1 <= s.runs[id].phase.attempt <= c.maxAttempts)
  {
    hide KeptOf, Allowed, Chain, IsTrace, After;
    TraceKeepsInv(c, processor, trace);
  }

  function ResultsOf<O>(f: nat -> Decision<O>, n: nat): (r: seq<Decision<O>>)
    ensures |r| == n && forall i | 0 <= i < n :: r[i] == f(i)
  {
    seq(n, i requires 0 <= i => f(i))
  }

  /** When processing is a function of the item, the output is that function's kept results. */
  lemma OutputOfFunction<O>(c: Config, processor: (nat, Decision<O>) -> bool, f: nat -> Decision<O>,
                            trace: seq<(nat, Event<O>)>)
    requires 0 < c.chunkSize && 0 < c.maxAttempts && IsTrace(c, processor, trace)
    requires forall i, d | processor(i, d) :: d == f(i)
    ensures var s := After(c, processor, trace);
            && s.store.output == KeptOf(ResultsOf(f, s.store.checkpoint))
            && forall id | id in s.runs && s.runs[id].phase == Done(Completed) ::
                 s.store.output == KeptOf(ResultsOf(f, c.inputLength))
  {
    var s := After(c, processor, trace);
    ExactlyOnce(c, processor, trace);
    var latest := Latest(s.store);
    forall i | 0 <= i < |latest| ensures latest[i] == f(i) {
      assert processor(0 + i, latest[i]);
    }
    assert latest == ResultsOf(f, s.store.checkpoint);
  }

  lemma StepExtendsStore<O>(c: Config, processor: (nat, Decision<O>) -> bool, s: State<O>, id: nat, e: Event<O>)
    requires Enabled(c, processor, s, id, e) && |s.store.history| > 0
    ensures var before, after := s.store, Next(c, processor, s, id, e).store;
            && before.version <= after.version
            && Latest(before) <= Latest(after)
            && before.output <= after.output
  {
  }

  /** Committed work is never taken back or changed by what happens later. */
  lemma {:induction false} CommittedWorkStays<O>(c: Config, processor: (nat, Decision<O>) -> bool,
                                                 trace: seq<(nat, Event<O>)>, n: nat)
    requires 0 < c.chunkSize && 0 < c.maxAttempts && IsTrace(c, processor, trace) && n <= |trace|
    ensures IsTrace(c, processor, trace[..n])
    ensures var before, after := After(c, processor, trace[..n]).store, After(c, processor, trace).store;
            && before.version <= after.version
            && Latest(before) <= Latest(after)
            && before.output <= after.output
    decreases |trace|
  {
    hide Enabled, Next;
    if n == |trace| {
      assert trace[..n] == trace;
    } else {
      var init := trace[..|trace| - 1];
      assert init[..n] == trace[..n];
      CommittedWorkStays(c, processor, init, n);
      var (id, e) := trace[|trace| - 1];
      StepExtendsStore(c, processor, After(c, processor, init), id, e);
    }
  }
}
