/** How the calls of a batch run to its reader, processor, writer and stores turn out, and what that makes
    of one item (batch/policy.go, batch/step.go). The run loops take these outcomes as inputs. */
module BatchOutcomes {
  import opened Wrappers
  import opened AtomicBatch

  /** An error: whether it is one of the context, and what the retry and skip predicates say of it. */
  datatype Failure = Failure(context: bool, retryIf: bool, skipIf: bool)

  function StatusFor(f: Failure): Status {
    if f.context then Cancelled else Failed
  }

  predicate ShouldRetry(c: Config, f: Failure, attempt: nat) {
    attempt < c.maxAttempts && !f.context && f.retryIf
  }

  predicate ShouldSkip(c: Config, f: Failure, used: nat, cost: nat) {
    !f.context && f.skipIf && SkipBudget(c, used, cost)
  }

  /** How one attempt at processing an item turns out. */
  datatype Attempt<O> = Value(output: O) | Drop | Fails(failure: Failure)

  function FailureOf<O>(a: Attempt<O>): Option<Failure> {
    if a.Fails? then Some(a.failure) else None
  }

  /** This attempt fails and is followed by another. */
  predicate Retried(c: Config, failures: nat -> Option<Failure>, attempt: nat) {
    failures(attempt).Some? && ShouldRetry(c, failures(attempt).value, attempt)
  }

  /** The number of retries of a call whose attempts fail like this, from attempt number `attempt` on. */
  function Retries(c: Config, failures: nat -> Option<Failure>, attempt: nat): (k: nat)
    requires 1 <= attempt <= c.maxAttempts
    ensures attempt + k <= c.maxAttempts
    ensures forall j | attempt <= j < attempt + k :: Retried(c, failures, j)
    ensures !Retried(c, failures, attempt + k)
    decreases c.maxAttempts - attempt
  {
    if Retried(c, failures, attempt) then 1 + Retries(c, failures, attempt + 1) else 0
  }

  lemma RetriesAre(c: Config, failures: nat -> Option<Failure>, k: nat)
    requires 0 < c.maxAttempts
    requires (forall j | 1 <= j <= k :: Retried(c, failures, j)) && !Retried(c, failures, k + 1)
    ensures Retries(c, failures, 1) == k
  {
    var n := Retries(c, failures, 1);
    assert !Retried(c, failures, n + 1);
  }

  /** The failures of the attempts at item `i`. */
  function ItemFailures<O>(process: (nat, nat) -> Attempt<O>, i: nat): nat -> Option<Failure> {
    (attempt: nat) => FailureOf(process(i, attempt))
  }

  function ItemRetries<O>(c: Config, process: (nat, nat) -> Attempt<O>, i: nat): nat
    requires 0 < c.maxAttempts
  {
    Retries(c, ItemFailures(process, i), 1)
  }

  function LastAttempt<O>(c: Config, process: (nat, nat) -> Attempt<O>, i: nat): Attempt<O>
    requires 0 < c.maxAttempts
  {
    process(i, ItemRetries(c, process, i) + 1)
  }

  lemma SettledAfter<O>(c: Config, process: (nat, nat) -> Attempt<O>, i: nat, k: nat)
    requires 0 < c.maxAttempts
    requires (forall j | 1 <= j <= k :: Retried(c, ItemFailures(process, i), j))
    requires !Retried(c, ItemFailures(process, i), k + 1)
    ensures ItemRetries(c, process, i) == k && LastAttempt(c, process, i) == process(i, k + 1)
  {
    RetriesAre(c, ItemFailures(process, i), k);
  }

  /** What item `i` comes to, if the skip budget allows it; none if its last attempt ends the run. */
  function DecisionAt<O>(c: Config, process: (nat, nat) -> Attempt<O>, i: nat): Option<Decision<O>>
    requires 0 < c.maxAttempts
  {
    match LastAttempt(c, process, i)
    case Value(output) => Some(Kept(output))
    case Drop => Some(Filtered)
    case Fails(f) => if !f.context && f.skipIf then Some(Skipped) else None
  }

  /** An item is decided by its first attempt that is not retried: its value is kept, a dropped one is
      filtered, and an error is skipped if it may be and otherwise decides nothing. */
  lemma DecisionMeaning<O>(c: Config, process: (nat, nat) -> Attempt<O>, i: nat, k: nat)
    requires 0 < c.maxAttempts
    requires forall j | 1 <= j <= k ::
      && process(i, j).Fails? && j < c.maxAttempts && !process(i, j).failure.context && process(i, j).failure.retryIf
    requires
      var last := process(i, k + 1);
      last.Fails? ==> k + 1 >= c.maxAttempts || last.failure.context || !last.failure.retryIf
    ensures ItemRetries(c, process, i) == k
    ensures forall x :: DecisionAt(c, process, i) == Some(Kept(x)) <==> process(i, k + 1) == Value(x)
    ensures DecisionAt(c, process, i) == Some(Filtered) <==> process(i, k + 1).Drop?
    ensures DecisionAt(c, process, i) == Some(Skipped) <==>
      process(i, k + 1).Fails? && !process(i, k + 1).failure.context && process(i, k + 1).failure.skipIf
  {
    forall j | 1 <= j <= k ensures Retried(c, ItemFailures(process, i), j) {
      assert process(i, j).Fails?;
    }
    RetriesAre(c, ItemFailures(process, i), k);
  }

  ghost predicate Decided<O>(c: Config, process: (nat, nat) -> Attempt<O>, from: nat, until: nat)
    requires 0 < c.maxAttempts
  {
    forall i | from <= i < until :: DecisionAt(c, process, i).Some?
  }

  /** The decisions for the positions from `from` up to `until`. */
  ghost function DecisionsOf<O>(c: Config, process: (nat, nat) -> Attempt<O>, from: nat, until: nat)
    : (ds: seq<Decision<O>>)
    requires 0 < c.maxAttempts && from <= until && Decided(c, process, from, until)
    ensures |ds| == until - from
    ensures forall k | 0 <= k < |ds| :: ds[k] == DecisionAt(c, process, from + k).value
    decreases until
  {
    if from == until then []
    else DecisionsOf(c, process, from, until - 1) + [DecisionAt(c, process, until - 1).value]
  }

  lemma DecisionsSplit<O>(c: Config, process: (nat, nat) -> Attempt<O>, from: nat, mid: nat, until: nat)
    requires 0 < c.maxAttempts && from <= mid <= until && Decided(c, process, from, until)
    ensures Decided(c, process, from, mid) && Decided(c, process, mid, until)
    ensures DecisionsOf(c, process, from, until)
         == DecisionsOf(c, process, from, mid) + DecisionsOf(c, process, mid, until)
  {
    hide DecisionAt;
    var all, front := DecisionsOf(c, process, from, until), DecisionsOf(c, process, from, mid);
    var whole := front + DecisionsOf(c, process, mid, until);
    forall k | 0 <= k < |all| ensures whole[k] == all[k] {
      assert from + k == mid + (k - |front|);
    }
  }

  function SkipCount<O>(ds: seq<Decision<O>>): nat {
    if ds == [] then 0 else SkipCount(ds[..|ds| - 1]) + if ds[|ds| - 1].Skipped? then 1 else 0
  }

  function FilterCount<O>(ds: seq<Decision<O>>): nat {
    if ds == [] then 0 else FilterCount(ds[..|ds| - 1]) + if ds[|ds| - 1].Filtered? then 1 else 0
  }

  /** Every decision is counted once. */
  lemma {:induction false} CountsAddUp<O>(ds: seq<Decision<O>>)
    ensures |KeptOf(ds)| + FilterCount(ds) + SkipCount(ds) == |ds|
  {
    if ds != [] {
      CountsAddUp(ds[..|ds| - 1]);
    }
  }

  lemma CountSnoc<O>(ds: seq<Decision<O>>, d: Decision<O>)
    ensures SkipCount(ds + [d]) == SkipCount(ds) + if d.Skipped? then 1 else 0
    ensures FilterCount(ds + [d]) == FilterCount(ds) + if d.Filtered? then 1 else 0
    ensures KeptOf(ds + [d]) == KeptOf(ds) + if d.Kept? then [d.output] else []
  {
    assert (ds + [d])[..|ds|] == ds;
  }

  function RetrySum<O>(c: Config, process: (nat, nat) -> Attempt<O>, from: nat, until: nat): nat
    requires 0 < c.maxAttempts && from <= until
    decreases until
  {
    if from == until then 0 else RetrySum(c, process, from, until - 1) + ItemRetries(c, process, until - 1)
  }

  /** One more position. */
  lemma DecisionsSnoc<O>(c: Config, process: (nat, nat) -> Attempt<O>, from: nat, until: nat)
    requires 0 < c.maxAttempts && from <= until && Decided(c, process, from, until + 1)
    ensures Decided(c, process, from, until)
    ensures var ds, d := DecisionsOf(c, process, from, until), DecisionAt(c, process, until).value;
            && DecisionsOf(c, process, from, until + 1) == ds + [d]
            && SkipCount(ds + [d]) == SkipCount(ds) + (if d.Skipped? then 1 else 0)
            && FilterCount(ds + [d]) == FilterCount(ds) + (if d.Filtered? then 1 else 0)
            && KeptOf(ds + [d]) == KeptOf(ds) + (if d.Kept? then [d.output] else [])
  {
    hide DecisionAt;
    CountSnoc(DecisionsOf(c, process, from, until), DecisionAt(c, process, until).value);
  }

  lemma NoDecisions<O>(c: Config, process: (nat, nat) -> Attempt<O>, p: nat)
    requires 0 < c.maxAttempts
    ensures DecisionsOf(c, process, p, p) == [] && SkipCount(DecisionsOf(c, process, p, p)) == 0
    ensures KeptOf(DecisionsOf(c, process, p, p)) == [] && FilterCount(DecisionsOf(c, process, p, p)) == 0
  {
  }

  lemma {:induction false} SkipsGrow<O>(c: Config, process: (nat, nat) -> Attempt<O>, from: nat, mid: nat, until: nat)
    requires 0 < c.maxAttempts && from <= mid <= until && Decided(c, process, from, until)
    ensures Decided(c, process, from, mid)
    ensures SkipCount(DecisionsOf(c, process, from, mid)) <= SkipCount(DecisionsOf(c, process, from, until))
    decreases until
  {
    hide DecisionAt, SkipCount, DecisionsOf;
    if mid < until {
      DecisionsSnoc(c, process, from, until - 1);
      SkipsGrow(c, process, from, mid, until - 1);
    }
  }

  lemma {:induction false} NoSkips<O>(c: Config, process: (nat, nat) -> Attempt<O>, from: nat, until: nat)
    requires 0 < c.maxAttempts && from <= until
    requires forall i: nat :: DecisionAt(c, process, i).Some? && !DecisionAt(c, process, i).value.Skipped?
    ensures SkipCount(DecisionsOf(c, process, from, until)) == 0
    decreases until
  {
    hide DecisionAt, SkipCount, DecisionsOf;
    if from < until {
      NoSkips(c, process, from, until - 1);
      DecisionsSnoc(c, process, from, until - 1);
    } else {
      NoDecisions(c, process, from);
    }
  }

  lemma {:induction false} NoRetries<O>(c: Config, process: (nat, nat) -> Attempt<O>, from: nat, until: nat)
    requires 0 < c.maxAttempts && from <= until && forall i: nat :: ItemRetries(c, process, i) == 0
    ensures RetrySum(c, process, from, until) == 0
    decreases until
  {
    hide ItemRetries;
    if from < until {
      NoRetries(c, process, from, until - 1);
    }
  }

  /** An item whose first attempt does not fail is kept or filtered as that attempt says. */
  lemma PlainItem<O>(c: Config, process: (nat, nat) -> Attempt<O>, i: nat)
    requires 0 < c.maxAttempts && !process(i, 1).Fails?
    ensures ItemRetries(c, process, i) == 0
    ensures DecisionAt(c, process, i) ==
      Some(if process(i, 1).Drop? then Filtered else Kept(process(i, 1).output))
  {
    assert !Retried(c, ItemFailures(process, i), 1);
  }
}
