/** The older run loop of a batch step (batch/step.go), which writes and saves checkpoints separately:
    exactly what it does for given outcomes of its calls, and what a restart can lose. */
module LegacyStep {
  import opened Wrappers
  import opened AtomicBatch
  import opened BatchOutcomes

  /** How saving a checkpoint turns out; the reader may have none to save. */
  datatype Saving = Saved | NoCheckpoint | SaveFails(failure: Failure)

  /** How the calls of one run turn out, at a position of the reader; processing and writing also by
      attempt, saving also by whether it follows a write. */
  datatype Outcomes<!O> = Outcomes(
    start: Option<Failure>, cancelled: nat -> bool, read: nat -> Option<Failure>,
    process: (nat, nat) -> Attempt<O>, flushCancelled: nat -> bool, write: (nat, nat) -> Option<Failure>,
    save: (nat, bool) -> Saving, closeFails: bool)

  function WithRetries(report: Report, retries: nat): Report {
    report.(retryCount := report.retryCount + retries)
  }

  // ---- The calls ----

  /** Repeats a call as long as it fails and may be retried. */
  method Attempts(c: Config, failures: nat -> Option<Failure>, before: Report)
    returns (failure: Option<Failure>, report: Report)
    requires 0 < c.maxAttempts
    ensures var k := Retries(c, failures, 1); failure == failures(k + 1) && report == WithRetries(before, k)
  {
    report := before;
    var attempt := 1;
    while true
      invariant 1 <= attempt <= c.maxAttempts && report == WithRetries(before, attempt - 1)
      invariant forall j | 1 <= j < attempt :: Retried(c, failures, j)
      decreases c.maxAttempts - attempt
    {
      failure := failures(attempt);
      if failure.None? || !ShouldRetry(c, failure.value, attempt) {
        RetriesAre(c, failures, attempt - 1);
        return;
      }
      report := report.(retryCount := report.retryCount + 1);
      attempt := attempt + 1;
    }
  }

  /** Saves the reader's position, if there is a store and the reader has a position to report. */
  method SaveCheckpoint(hasStore: bool, saving: Saving, position: nat, before: nat)
    returns (ok: bool, status: Status, saved: nat)
    ensures ok <==> !hasStore || !saving.SaveFails?
    ensures saved == if hasStore && saving.Saved? then position else before
    ensures !ok ==> status == StatusFor(saving.failure)
  {
    ok, status, saved := true, Failed, before;
    if hasStore {
      match saving {
        case Saved => saved := position;
        case NoCheckpoint =>
        case SaveFails(f) => ok, status := false, StatusFor(f);
      }
    }
  }

  function WriteFailures<O>(o: Outcomes<O>, position: nat): nat -> Option<Failure> {
    (attempt: nat) => o.write(position, attempt)
  }

  function WriteRetries<O>(c: Config, o: Outcomes<O>, position: nat): nat
    requires 0 < c.maxAttempts
  {
    Retries(c, WriteFailures(o, position), 1)
  }

  /** How the last attempt at writing the chunk at this position fails, if it does. */
  function WriteFailure<O>(c: Config, o: Outcomes<O>, position: nat): Option<Failure>
    requires 0 < c.maxAttempts
  {
    o.write(position, WriteRetries(c, o, position) + 1)
  }

  predicate SaveOk<O>(o: Outcomes<O>, hasStore: bool, position: nat, afterWrite: bool) {
    hasStore ==> !o.save(position, afterWrite).SaveFails?
  }

  predicate WriteOk<O>(c: Config, o: Outcomes<O>, position: nat)
    requires 0 < c.maxAttempts
  {
    !o.flushCancelled(position) && WriteFailure(c, o, position).None?
  }

  /** Writes one chunk. A failed chunk is skipped as a whole when the budget allows it, but never when
      a checkpoint store is configured: then nothing that was kept may be lost. */
  method Flush<O>(c: Config, o: Outcomes<O>, hasStore: bool, before: Report, chunk: seq<O>, position: nat,
                  savedBefore: nat)
    returns (ok: bool, status: Status, report: Report, written: seq<O>, saved: nat)
    requires 0 < c.maxAttempts
    ensures chunk == [] ==> ok && report == before && written == [] && saved == savedBefore
    ensures chunk != [] && o.flushCancelled(position) ==>
      !ok && status == Cancelled && report == before && written == [] && saved == savedBefore
    ensures chunk != [] && !o.flushCancelled(position) ==>
      var retried, failure := WithRetries(before, WriteRetries(c, o, position)), WriteFailure(c, o, position);
      if failure.None? then
        && report == retried.(writeCount := before.writeCount + |chunk|) && written == chunk
        && (ok <==> SaveOk(o, hasStore, position, true))
        && saved == (if hasStore && o.save(position, true).Saved? then position else savedBefore)
        && (!ok ==> status == StatusFor(o.save(position, true).failure))
      else
        && written == [] && saved == savedBefore
        && (ok <==> !hasStore && ShouldSkip(c, failure.value, before.skipCount, |chunk|))
        && report == (if ok then retried.(skipCount := before.skipCount + |chunk|) else retried)
        && (!ok ==> status == StatusFor(failure.value))
  {
    ok, status, report, written, saved := true, Failed, before, [], savedBefore;
    if |chunk| == 0 {
      return;
    }
    if o.flushCancelled(position) {
      return false, Cancelled, report, [], saved;
    }
    var failure;
    failure, report := Attempts(c, WriteFailures(o, position), report);
    if failure.Some? {
      status := StatusFor(failure.value);
      if ShouldSkip(c, failure.value, report.skipCount, |chunk|) {
        if hasStore {
          return false, Failed, report, [], saved;
        }
        report := report.(skipCount := report.skipCount + |chunk|);
        return;
      }
      ok := false;
      return;
    }
    report := report.(writeCount := report.writeCount + |chunk|);
    ok, status, saved := SaveCheckpoint(hasStore, o.save(position, true), position, saved);
    written := chunk;
  }

  // ---- Output and checkpoint as a function of the decisions ----

  /** Output, saved checkpoint and waiting chunk. */
  datatype Legacy<O> = Legacy(written: seq<O>, saved: nat, chunk: seq<O>)

  /** What dealing with the item at position `position - 1` changes, when every call succeeds;
      `reported` tells whether the reader has a checkpoint to save. */
  function LegacyStep<O>(chunkSize: nat, l: Legacy<O>, d: Decision<O>, position: nat, reported: bool): Legacy<O> {
    if !d.Kept? then l.(saved := if reported then position else l.saved)
    else if |l.chunk| + 1 == chunkSize then
      Legacy(l.written + (l.chunk + [d.output]), if reported then position else l.saved, [])
    else l.(chunk := l.chunk + [d.output])
  }

  /** Where a run stands after it dealt with these items. */
  function LegacyAfter<O>(chunkSize: nat, reported: (nat, bool) -> bool, decisions: seq<Decision<O>>): Legacy<O> {
    if decisions == [] then Legacy([], 0, [])
    else
      var n, d := |decisions|, decisions[|decisions| - 1];
      LegacyStep(chunkSize, LegacyAfter(chunkSize, reported, decisions[..n - 1]), d, n, reported(n, d.Kept?))
  }

  lemma LegacyStart<O>(chunkSize: nat, reported: (nat, bool) -> bool)
    ensures LegacyAfter<O>(chunkSize, reported, []) == Legacy([], 0, [])
  {
  }

  lemma LegacySnoc<O>(chunkSize: nat, reported: (nat, bool) -> bool, decisions: seq<Decision<O>>, d: Decision<O>)
    ensures LegacyAfter(chunkSize, reported, decisions + [d])
         == LegacyStep(chunkSize, LegacyAfter(chunkSize, reported, decisions), d, |decisions| + 1,
                       reported(|decisions| + 1, d.Kept?))
  {
    assert (decisions + [d])[..|decisions|] == decisions;
  }

  /** Written and waiting results are all kept results; full chunks were written; and an empty chunk means
      that the checkpoint is up to date, if the reader always reports one. */
  lemma {:induction false} LegacyAccounts<O>(chunkSize: nat, reported: (nat, bool) -> bool, decisions: seq<Decision<O>>)
    returns (k: nat)
    requires 0 < chunkSize
    ensures var l := LegacyAfter(chunkSize, reported, decisions);
            && l.written + l.chunk == KeptOf(decisions) && l.saved <= |decisions| && |l.chunk| < chunkSize
            && |l.written| == k * chunkSize
            && ((forall n, b :: reported(n, b)) && l.chunk == [] ==> l.saved == |decisions|)
  {
    if decisions == [] {
      k := 0;
    } else {
      var init := decisions[..|decisions| - 1];
      k := LegacyAccounts(chunkSize, reported, init);
      if |LegacyAfter(chunkSize, reported, decisions).written| != |LegacyAfter(chunkSize, reported, init).written| {
        assert (k + 1) * chunkSize == k * chunkSize + chunkSize;
        k := k + 1;
      }
    }
  }

  // ---- The run ----

  /** Whether the reader has a checkpoint to save, `n` positions after `start`. */
  function Reports<O>(o: Outcomes<O>, start: nat): (nat, bool) -> bool {
    (n: nat, afterWrite: bool) => o.save(start + n, afterWrite).Saved?
  }

  /** Where the run stands at position `p`. */
  ghost function StateAt<O>(c: Config, o: Outcomes<O>, start: nat, p: nat): Legacy<O>
    requires 0 < c.maxAttempts && start <= p && Decided(c, o.process, start, p)
  {
    LegacyAfter(c.chunkSize, Reports(o, start), DecisionsOf(c, o.process, start, p))
  }

  lemma StateSnoc<O>(c: Config, o: Outcomes<O>, start: nat, p: nat)
    requires 0 < c.maxAttempts && start <= p && Decided(c, o.process, start, p + 1)
    ensures var d := DecisionAt(c, o.process, p).value;
            && Decided(c, o.process, start, p)
            && StateAt(c, o, start, p + 1) ==
               LegacyStep(c.chunkSize, StateAt(c, o, start, p), d, p + 1 - start, o.save(p + 1, d.Kept?).Saved?)
  {
    hide DecisionAt, LegacyStep, LegacyAfter;
    DecisionsSnoc(c, o.process, start, p);
    LegacySnoc(c.chunkSize, Reports(o, start), DecisionsOf(c, o.process, start, p), DecisionAt(c, o.process, p).value);
  }

  /** No write or save of the item at position `p - 1` fails. */
  ghost predicate ItemOk<O>(c: Config, o: Outcomes<O>, hasStore: bool, start: nat, p: nat)
    requires 0 < c.maxAttempts && start < p && Decided(c, o.process, start, p)
  {
    if !DecisionAt(c, o.process, p - 1).value.Kept? then SaveOk(o, hasStore, p, false)
    else |StateAt(c, o, start, p - 1).chunk| + 1 == c.chunkSize ==> WriteOk(c, o, p) && SaveOk(o, hasStore, p, true)
  }

  /** Nothing goes wrong from `start` before the run reads at position `p`. */
  ghost predicate Reaches<O>(c: Config, o: Outcomes<O>, hasStore: bool, start: nat, p: nat)
    requires 0 < c.maxAttempts && start <= p
  {
    && (forall i | start <= i < p :: !o.cancelled(i) && o.read(i).None?)
    && Decided(c, o.process, start, p) && SkipCount(DecisionsOf(c, o.process, start, p)) <= c.maxSkips
    && (forall q | start < q <= p :: ItemOk(c, o, hasStore, start, q))
  }

  /** Nothing goes wrong at all: no cancellation, every read, write and save succeeds in the end, every
      item is decided, and the skips are within the budget. */
  ghost predicate Smooth<O>(c: Config, o: Outcomes<O>, hasStore: bool, start: nat)
    requires 0 < c.maxAttempts && start <= c.inputLength
  {
    var end := c.inputLength;
    && o.start.None? && Reaches(c, o, hasStore, start, end) && !o.cancelled(end) && o.read(end).None?
    && (StateAt(c, o, start, end).chunk != [] ==> WriteOk(c, o, end) && SaveOk(o, hasStore, end, true))
  }

  lemma SmoothAt<O>(c: Config, o: Outcomes<O>, hasStore: bool, start: nat, p: nat)
    requires 0 < c.maxAttempts && start <= p <= c.inputLength && Smooth(c, o, hasStore, start)
    ensures o.start.None? && !o.cancelled(p) && o.read(p).None?
    ensures p < c.inputLength ==> Decided(c, o.process, start, p + 1) && ItemOk(c, o, hasStore, start, p + 1)
    ensures p < c.inputLength && DecisionAt(c, o.process, p).value.Skipped? ==>
      Decided(c, o.process, start, p) && SkipCount(DecisionsOf(c, o.process, start, p)) + 1 <= c.maxSkips
  {
    hide DecisionAt, SkipCount, ItemOk, DecisionsOf, StateAt, WriteOk, SaveOk;
    if p < c.inputLength {
      assert Decided(c, o.process, start, p + 1);
      SkipsGrow(c, o.process, start, p + 1, c.inputLength);
      DecisionsSnoc(c, o.process, start, p);
    }
  }

  /** What the loop knows at a position. A chunk that could not be written is dropped only without a
      store, and then the run is not smooth. */
  ghost predicate Underway<O>(c: Config, o: Outcomes<O>, hasStore: bool, start: nat, position: nat, report: Report,
                              chunk: seq<O>, written: seq<O>, saved: nat, dropped: bool)
    requires 0 < c.maxAttempts
  {
    && start <= position <= c.inputLength && Decided(c, o.process, start, position)
    && report.readCount == position - start && report.skipCount <= c.maxSkips
    && report.filterCount == FilterCount(DecisionsOf(c, o.process, start, position))
    && report.readCount == report.writeCount + report.filterCount + report.skipCount + |chunk|
    && report.writeCount == |written| && |chunk| < c.chunkSize && (!hasStore ==> saved == start)
    && (dropped ==> !hasStore && !Smooth(c, o, hasStore, start))
    && (!dropped ==>
          var l := StateAt(c, o, start, position);
          && Reaches(c, o, hasStore, start, position) && written == l.written && chunk == l.chunk
          && report.skipCount == SkipCount(DecisionsOf(c, o.process, start, position))
          && (hasStore ==> saved == start + l.saved))
  }

  /** One more position is reached when its item is dealt with and nothing of it fails. */
  lemma ReachesNext<O>(c: Config, o: Outcomes<O>, hasStore: bool, start: nat, p: nat)
    requires 0 < c.maxAttempts && start <= p && Reaches(c, o, hasStore, start, p)
    requires !o.cancelled(p) && o.read(p).None? && Decided(c, o.process, start, p + 1)
    requires SkipCount(DecisionsOf(c, o.process, start, p + 1)) <= c.maxSkips && ItemOk(c, o, hasStore, start, p + 1)
    ensures Reaches(c, o, hasStore, start, p + 1)
  {
    hide DecisionAt, SkipCount, ItemOk, DecisionsOf;
  }

  lemma DecidedNext<O>(c: Config, process: (nat, nat) -> Attempt<O>, start: nat, p: nat)
    requires 0 < c.maxAttempts && start <= p && Decided(c, process, start, p)
    ensures Decided(c, process, start, p + 1) <==> DecisionAt(c, process, p).Some?
  {
    hide DecisionAt;
  }

  /** Processes the item just read, and counts, writes or saves what it comes to. */
  method HandleLegacy<O(0)>(c: Config, o: Outcomes<O>, hasStore: bool, ghost start: nat, position: nat, before: Report,
                            chunkBefore: seq<O>, ghost written: seq<O>, savedBefore: nat, ghost droppedBefore: bool)
    returns (handled: bool, status: Status, report: Report, chunk: seq<O>, last: seq<O>, saved: nat,
             ghost dropped: bool)
    requires 0 < c.chunkSize && 0 < c.maxAttempts && 0 < position <= c.inputLength && 0 < before.readCount
    requires !o.cancelled(position - 1) && o.read(position - 1).None?
    requires Underway(c, o, hasStore, start, position - 1, before.(readCount := before.readCount - 1), chunkBefore,
                      written, savedBefore, droppedBefore)
    ensures handled ==> Underway(c, o, hasStore, start, position, report, chunk, written + last, saved, dropped)
    ensures !handled ==> status != Completed && !Smooth(c, o, hasStore, start) && saved == savedBefore
    ensures report.readCount == before.readCount && report.writeCount == before.writeCount + |last|
    ensures report.writeCount + report.filterCount + report.skipCount <= report.readCount
    ensures report.skipCount <= c.maxSkips
    ensures !handled && hasStore ==> last == [] || (|last| == |chunkBefore| + 1 && chunkBefore <= last)
    ensures
      var d := DecisionAt(c, o.process, position - 1);
      && (d.None? ==> !handled && status == StatusFor(LastAttempt(c, o.process, position - 1).failure))
      && (d.Some? && d.value.Filtered? ==>
            && report.filterCount == before.filterCount + 1
            && (handled <==> SaveOk(o, hasStore, position, false)))
      && (d.Some? && d.value.Skipped? ==>
            (handled <==> SkipBudget(c, before.skipCount, 1) && SaveOk(o, hasStore, position, false)))
      && (d.Some? && d.value.Kept? && |chunkBefore| + 1 < c.chunkSize ==>
            handled && chunk == chunkBefore + [d.value.output] && last == [] && saved == savedBefore)
      && (d.Some? && d.value.Kept? && |chunkBefore| + 1 == c.chunkSize && WriteOk(c, o, position) ==>
            last == chunkBefore + [d.value.output] && (handled <==> SaveOk(o, hasStore, position, true)))
  {
    hide Underway, About, Smooth, Reaches;
    chunk, last, saved, dropped, status := chunkBefore, [], savedBefore, droppedBefore, Failed;
    var failure;
    failure, report := Attempts(c, ItemFailures(o.process, position - 1), before);
    var outcome := o.process(position - 1, report.retryCount - before.retryCount + 1);
    assert outcome == LastAttempt(c, o.process, position - 1) && failure == FailureOf(outcome);
    SameButRetries(c, o, hasStore, start, position - 1, before.(readCount := before.readCount - 1),
                   report.(readCount := report.readCount - 1), chunk, written, saved, dropped);
    if failure.Some? && !ShouldSkip(c, failure.value, report.skipCount, 1) {
      NotSmooth(c, o, hasStore, start, position, report, chunk, written, saved, dropped);
      status, handled := StatusFor(failure.value), false;
      return;
    }
    AboutItem(c, o, hasStore, start, position, report, chunk, written, saved, dropped);
    if outcome.Value? {
      handled, status, report, chunk, last, saved, dropped :=
        Keep(c, o, hasStore, start, position, report, outcome.output, chunk, written, saved, dropped);
    } else {
      handled, status, report, saved :=
        Discard(c, o, hasStore, start, position, report, outcome.Drop?, chunk, written, saved, dropped);
      assert written + last == written;
    }
  }

  /** What is to be known before the item at `position - 1`, which comes to `d`, is dealt with. */
  ghost predicate About<O>(c: Config, o: Outcomes<O>, hasStore: bool, start: nat, position: nat, report: Report,
                           chunk: seq<O>, written: seq<O>, saved: nat, dropped: bool, d: Decision<O>)
    requires 0 < c.maxAttempts
  {
    && 0 < position <= c.inputLength && 0 < report.readCount
    && !o.cancelled(position - 1) && o.read(position - 1).None? && DecisionAt(c, o.process, position - 1) == Some(d)
    && Underway(c, o, hasStore, start, position - 1, report.(readCount := report.readCount - 1), chunk, written, saved,
                dropped)
  }

  /** An item that is not decided, or not within the budget, ends a run that so is not smooth. */
  lemma NotSmooth<O>(c: Config, o: Outcomes<O>, hasStore: bool, start: nat, position: nat, report: Report,
                     chunk: seq<O>, written: seq<O>, saved: nat, dropped: bool)
    requires 0 < c.maxAttempts && 0 < position <= c.inputLength && 0 < report.readCount
    requires DecisionAt(c, o.process, position - 1).Some? ==>
      DecisionAt(c, o.process, position - 1).value.Skipped? && !SkipBudget(c, report.skipCount, 1)
    requires Underway(c, o, hasStore, start, position - 1, report.(readCount := report.readCount - 1), chunk, written,
                      saved, dropped)
    ensures !Smooth(c, o, hasStore, start)
  {
    hide StateAt, SkipCount, FilterCount, DecisionAt, DecisionsOf, Reaches;
    if Smooth(c, o, hasStore, start) {
      hide Smooth;
      SmoothAt(c, o, hasStore, start, position - 1);
    }
  }

  lemma AboutItem<O>(c: Config, o: Outcomes<O>, hasStore: bool, start: nat, position: nat, report: Report,
                     chunk: seq<O>, written: seq<O>, saved: nat, dropped: bool)
    requires 0 < c.maxAttempts && 0 < position <= c.inputLength && 0 < report.readCount
    requires !o.cancelled(position - 1) && o.read(position - 1).None? && DecisionAt(c, o.process, position - 1).Some?
    requires Underway(c, o, hasStore, start, position - 1, report.(readCount := report.readCount - 1), chunk, written,
                      saved, dropped)
    ensures About(c, o, hasStore, start, position, report, chunk, written, saved, dropped,
                  DecisionAt(c, o.process, position - 1).value)
  {
    hide Underway, DecisionAt;
  }

  /** What is known does not depend on the number of retries. */
  lemma SameButRetries<O>(c: Config, o: Outcomes<O>, hasStore: bool, start: nat, position: nat, before: Report,
                          report: Report, chunk: seq<O>, written: seq<O>, saved: nat, dropped: bool)
    requires 0 < c.maxAttempts && report == before.(retryCount := report.retryCount)
    requires Underway(c, o, hasStore, start, position, before, chunk, written, saved, dropped)
    ensures Underway(c, o, hasStore, start, position, report, chunk, written, saved, dropped)
    ensures report.writeCount + report.filterCount + report.skipCount + |chunk| == report.readCount
    ensures report.skipCount <= c.maxSkips && start <= position <= c.inputLength
    ensures Decided(c, o.process, start, position)
    ensures SkipCount(DecisionsOf(c, o.process, start, position)) <= report.skipCount || dropped
  {
    hide StateAt, Smooth, Reaches, SkipCount, FilterCount, DecisionAt, DecisionsOf;
  }

  /** A filtered or skipped item is counted, and the checkpoint is saved. */
  method Discard<O>(c: Config, o: Outcomes<O>, hasStore: bool, ghost start: nat, position: nat, before: Report,
                    filtered: bool, ghost chunk: seq<O>, ghost written: seq<O>, savedBefore: nat, ghost dropped: bool)
    returns (handled: bool, status: Status, report: Report, saved: nat)
    requires 0 < c.chunkSize && 0 < c.maxAttempts && (!filtered ==> SkipBudget(c, before.skipCount, 1))
    requires About(c, o, hasStore, start, position, before, chunk, written, savedBefore, dropped,
                   if filtered then Filtered else Skipped)
    ensures report == if filtered then before.(filterCount := before.filterCount + 1)
                      else before.(skipCount := before.skipCount + 1)
    ensures handled <==> SaveOk(o, hasStore, position, false)
    ensures handled ==> Underway(c, o, hasStore, start, position, report, chunk, written, saved, dropped)
    ensures !handled ==> status != Completed && !Smooth(c, o, hasStore, start) && saved == savedBefore
  {
    hide LegacyAfter, KeptOf, DecisionsOf, StateAt, Smooth, Reaches, SkipCount, FilterCount, DecisionAt, ItemOk;
    report := if filtered then before.(filterCount := before.filterCount + 1)
              else before.(skipCount := before.skipCount + 1);
    handled, status, saved := SaveCheckpoint(hasStore, o.save(position, false), position, savedBefore);
    DecidedNext(c, o.process, start, position - 1);
    StepNotKept(c, o, hasStore, start, position - 1);
    if Smooth(c, o, hasStore, start) {
      SmoothAt(c, o, hasStore, start, position - 1);
    }
    DecisionsSnoc(c, o.process, start, position - 1);
    if handled && !dropped {
      ReachesNext(c, o, hasStore, start, position - 1);
    }
  }

  /** A kept item: it joins the chunk, which is written when it is full. */
  method Keep<O>(c: Config, o: Outcomes<O>, hasStore: bool, ghost start: nat, position: nat, before: Report, output: O,
                 chunkBefore: seq<O>, ghost written: seq<O>, savedBefore: nat, ghost droppedBefore: bool)
    returns (handled: bool, status: Status, report: Report, chunk: seq<O>, last: seq<O>, saved: nat,
             ghost dropped: bool)
    requires 0 < c.chunkSize && 0 < c.maxAttempts
    requires About(c, o, hasStore, start, position, before, chunkBefore, written, savedBefore, droppedBefore,
                   Kept(output))
    ensures handled ==> Underway(c, o, hasStore, start, position, report, chunk, written + last, saved, dropped)
    ensures !handled ==> status != Completed && !Smooth(c, o, hasStore, start) && saved == savedBefore
    ensures report.readCount == before.readCount && report.writeCount == before.writeCount + |last|
    ensures report.writeCount + report.filterCount + report.skipCount <= report.readCount
    ensures report.skipCount <= c.maxSkips
    ensures !handled ==> last == [] || last == chunkBefore + [output]
    ensures |chunkBefore| + 1 < c.chunkSize ==>
      handled && chunk == chunkBefore + [output] && last == [] && saved == savedBefore
    ensures |chunkBefore| + 1 == c.chunkSize && WriteOk(c, o, position) ==>
      last == chunkBefore + [output] && (handled <==> SaveOk(o, hasStore, position, true))
  {
    hide LegacyAfter, KeptOf, DecisionsOf, StateAt, Smooth, Reaches, SkipCount, FilterCount, DecisionAt, ItemOk;
    handled, status, report, last, saved, dropped := true, Failed, before, [], savedBefore, droppedBefore;
    DecidedNext(c, o.process, start, position - 1);
    StepKept(c, o, hasStore, start, position - 1);
    if Smooth(c, o, hasStore, start) {
      SmoothAt(c, o, hasStore, start, position - 1);
    }
    DecisionsSnoc(c, o.process, start, position - 1);
    chunk := chunkBefore + [output];
    if |chunk| == c.chunkSize {
      handled, status, report, last, saved := Flush(c, o, hasStore, report, chunk, position, saved);
      if handled && last == [] {
        dropped := true;
      }
      chunk := if handled then [] else chunk;
    }
    if handled && !dropped {
      ReachesNext(c, o, hasStore, start, position - 1);
    }
  }

  lemma StepNotKept<O>(c: Config, o: Outcomes<O>, hasStore: bool, start: nat, p: nat)
    requires 0 < c.maxAttempts && start <= p && Decided(c, o.process, start, p + 1)
    requires !DecisionAt(c, o.process, p).value.Kept?
    ensures Decided(c, o.process, start, p)
    ensures var l, l' := StateAt(c, o, start, p), StateAt(c, o, start, p + 1);
            && l'.written == l.written && l'.chunk == l.chunk
            && l'.saved == (if o.save(p + 1, false).Saved? then p + 1 - start else l.saved)
    ensures ItemOk(c, o, hasStore, start, p + 1) <==> SaveOk(o, hasStore, p + 1, false)
  {
    hide DecisionAt, StateAt, LegacyAfter, DecisionsOf;
    StateSnoc(c, o, start, p);
  }

  lemma StepKept<O>(c: Config, o: Outcomes<O>, hasStore: bool, start: nat, p: nat)
    requires 0 < c.maxAttempts && start <= p && Decided(c, o.process, start, p + 1)
    requires DecisionAt(c, o.process, p).value.Kept?
    ensures Decided(c, o.process, start, p)
    ensures var l, l' := StateAt(c, o, start, p), StateAt(c, o, start, p + 1);
            var x := DecisionAt(c, o.process, p).value.output;
            if |l.chunk| + 1 == c.chunkSize then
              && l'.written == l.written + (l.chunk + [x]) && l'.chunk == []
              && l'.saved == (if o.save(p + 1, true).Saved? then p + 1 - start else l.saved)
              && (ItemOk(c, o, hasStore, start, p + 1) <==> WriteOk(c, o, p + 1) && SaveOk(o, hasStore, p + 1, true))
            else
              l' == l.(chunk := l.chunk + [x]) && ItemOk(c, o, hasStore, start, p + 1)
  {
    hide DecisionAt, StateAt, LegacyAfter, DecisionsOf;
    StateSnoc(c, o, start, p);
  }

  /** Everything that was kept is written, up to the item being dealt with when the run stopped. */
  ghost predicate WroteAll<O>(read: nat, written: seq<O>, decisions: seq<Decision<O>>) {
    if read == |decisions| then written == KeptOf(decisions)
    else |written| == |KeptOf(decisions)| + 1 && KeptOf(decisions) <= written
  }

  /** The older run loop from the restored reader position `start`, over these outcomes. `written` are the
      results that a writer call accepted and `saved` is the checkpoint in the store. The items before
      position `stop` are dealt with; one more may have been read when the run stopped. */
  method RunLegacy<O(0)>(c: Config, o: Outcomes<O>, hasStore: bool, start: nat)
    returns (status: Status, report: Report, written: seq<O>, saved: nat, ghost stop: nat)
    requires 0 < c.chunkSize && 0 < c.maxAttempts && start <= c.inputLength
    ensures start <= stop <= c.inputLength && Decided(c, o.process, start, stop)
    ensures stop - start <= report.readCount <= stop - start + 1 && start + report.readCount <= c.inputLength
    ensures report.skipCount <= c.maxSkips && report.writeCount == |written|
    ensures report.writeCount + report.filterCount + report.skipCount <= report.readCount
    ensures status == Completed ==>
      && report.readCount == report.writeCount + report.filterCount + report.skipCount == c.inputLength - start
      && stop == c.inputLength && report.filterCount == FilterCount(DecisionsOf(c, o.process, start, stop))
    ensures Smooth(c, o, hasStore, start) ==> status == if o.closeFails then Failed else Completed
    ensures hasStore && status == Completed ==> Smooth(c, o, hasStore, start)
    ensures Smooth(c, o, hasStore, start) ==>
      && stop == c.inputLength && written == KeptOf(DecisionsOf(c, o.process, start, stop))
      && report.skipCount == SkipCount(DecisionsOf(c, o.process, start, stop))
    ensures hasStore && status == Completed && (forall p, b :: o.save(p, b).Saved?) ==> saved == c.inputLength
    ensures o.start.None? && report.readCount == stop - start && stop < c.inputLength ==>
      if o.cancelled(stop) then status == Cancelled
      else o.read(stop).Some? && status == StatusFor(o.read(stop).value)
    ensures hasStore && report.readCount == stop - start && stop < c.inputLength ==>
      written == StateAt(c, o, start, stop).written && saved == start + StateAt(c, o, start, stop).saved
    ensures hasStore ==>
      || written == StateAt(c, o, start, stop).written
      || WroteAll(report.readCount, written, DecisionsOf(c, o.process, start, stop))
    ensures hasStore ==>
      || saved == start + StateAt(c, o, start, stop).saved
      || (saved == c.inputLength == stop && written == KeptOf(DecisionsOf(c, o.process, start, stop)))
  {
    hide LegacyAfter, KeptOf, DecisionsOf, StateAt, Smooth, Reaches, SkipCount, FilterCount, DecisionAt;
    report, written, saved, stop := Report(0, 0, 0, 0, 0), [], start, start;
    UnderwayStart(c, o, hasStore, start);
    if Smooth(c, o, hasStore, start) {
      SmoothAt(c, o, hasStore, start, start);
    }
    if o.start.Some? {
      status := StatusFor(o.start.value);
      return;
    }
    var position := start;
    var chunk: seq<O> := [];
    ghost var dropped := false;
    while true
      invariant Underway(c, o, hasStore, start, position, report, chunk, written, saved, dropped) && stop == position
      decreases c.inputLength - position
    {
      if Smooth(c, o, hasStore, start) {
        SmoothAt(c, o, hasStore, start, position);
      }
      if o.cancelled(position) {
        return Cancelled, report, written, saved, stop;
      }
      if o.read(position).Some? {
        return StatusFor(o.read(position).value), report, written, saved, stop;
      }
      if position == c.inputLength {
        status, report, written, saved := EndLegacy(c, o, hasStore, start, report, chunk, written, saved, dropped);
        break;
      }
      position := position + 1;
      report := report.(readCount := report.readCount + 1);
      var handled, last;
      AllAccounted(c, o, start, stop);
      handled, status, report, chunk, last, saved, dropped :=
        HandleLegacy(c, o, hasStore, start, position, report, chunk, written, saved, dropped);
      written := written + last;
      if !handled {
        return;
      }
      stop := position;
    }
    if status == Completed && o.closeFails {
      status := Failed;
    }
  }

  lemma UnderwayStart<O>(c: Config, o: Outcomes<O>, hasStore: bool, start: nat)
    requires 0 < c.maxAttempts && 0 < c.chunkSize && start <= c.inputLength
    ensures Underway(c, o, hasStore, start, start, Report(0, 0, 0, 0, 0), [], [], start, false)
    ensures StateAt(c, o, start, start) == Legacy([], 0, [])
    ensures KeptOf(DecisionsOf(c, o.process, start, start)) == []
  {
  }

  lemma AllAccounted<O>(c: Config, o: Outcomes<O>, start: nat, p: nat)
    requires 0 < c.maxAttempts && 0 < c.chunkSize && start <= p && Decided(c, o.process, start, p)
    ensures var l := StateAt(c, o, start, p);
            && l.written + l.chunk == KeptOf(DecisionsOf(c, o.process, start, p)) && l.saved <= p - start
            && ((forall n, b :: o.save(n, b).Saved?) && l.chunk == [] ==> l.saved == p - start)
  {
    hide LegacyAfter, KeptOf, DecisionAt;
    var k := LegacyAccounts(c.chunkSize, Reports(o, start), DecisionsOf(c, o.process, start, p));
  }

  /** The end of the input: what waits is written. */
  method EndLegacy<O>(c: Config, o: Outcomes<O>, hasStore: bool, ghost start: nat, before: Report, chunk: seq<O>,
                      writtenBefore: seq<O>, savedBefore: nat, ghost dropped: bool)
    returns (status: Status, report: Report, written: seq<O>, saved: nat)
    requires 0 < c.chunkSize && 0 < c.maxAttempts && start <= c.inputLength && o.start.None?
    requires !o.cancelled(c.inputLength) && o.read(c.inputLength).None?
    requires Underway(c, o, hasStore, start, c.inputLength, before, chunk, writtenBefore, savedBefore, dropped)
    ensures report.readCount == before.readCount && report.filterCount == before.filterCount
    ensures report.writeCount == |written| && report.skipCount <= c.maxSkips
    ensures report.writeCount + report.filterCount + report.skipCount <= report.readCount
    ensures status == Completed ==> report.readCount == report.writeCount + report.filterCount + report.skipCount
    ensures Smooth(c, o, hasStore, start) ==>
      && status == Completed && report.skipCount == before.skipCount && !dropped
      && written == KeptOf(DecisionsOf(c, o.process, start, c.inputLength))
    ensures hasStore && status == Completed ==> Smooth(c, o, hasStore, start)
    ensures hasStore && status == Completed && (forall p, b :: o.save(p, b).Saved?) ==> saved == c.inputLength
    ensures hasStore ==>
      || written == StateAt(c, o, start, c.inputLength).written
      || written == KeptOf(DecisionsOf(c, o.process, start, c.inputLength))
    ensures hasStore ==>
      || saved == start + StateAt(c, o, start, c.inputLength).saved
      || (saved == c.inputLength && written == KeptOf(DecisionsOf(c, o.process, start, c.inputLength)))
  {
    hide LegacyAfter, KeptOf, DecisionsOf, StateAt, Reaches, SkipCount, FilterCount, DecisionAt;
    AllAccounted(c, o, start, c.inputLength);
    var flushed, last;
    flushed, status, report, last, saved := Flush(c, o, hasStore, before, chunk, c.inputLength, savedBefore);
    written := writtenBefore + last;
    status := if flushed then Completed else status;
  }

  /** When nothing is cancelled, every call succeeds and every item is processed at its first attempt, a run
      is smooth. */
  lemma PlainRunIsSmooth<O>(c: Config, o: Outcomes<O>, hasStore: bool, start: nat)
    requires 0 < c.maxAttempts && start <= c.inputLength && o.start.None?
    requires forall i: nat :: !o.cancelled(i) && o.read(i).None?
    requires forall i: nat :: !o.process(i, 1).Fails?
    requires forall i: nat :: !o.flushCancelled(i) && o.write(i, 1).None?
    requires forall i: nat, b :: !o.save(i, b).SaveFails?
    ensures Smooth(c, o, hasStore, start)
  {
    hide DecisionAt, WriteOk, SkipCount, DecisionsOf, StateAt, ItemOk;
    forall i: nat ensures WriteOk(c, o, i) {
      PlainWrite(c, o, i);
    }
    forall i: nat ensures DecisionAt(c, o.process, i).Some? && !DecisionAt(c, o.process, i).value.Skipped? {
      PlainItem(c, o.process, i);
    }
    NoSkips(c, o.process, start, c.inputLength);
    forall q | start < q <= c.inputLength ensures ItemOk(c, o, hasStore, start, q) {
      ItemFine(c, o, hasStore, start, q);
    }
  }

  lemma PlainWrite<O>(c: Config, o: Outcomes<O>, p: nat)
    requires 0 < c.maxAttempts && !o.flushCancelled(p) && o.write(p, 1).None?
    ensures WriteOk(c, o, p)
  {
    assert !Retried(c, WriteFailures(o, p), 1);
  }

  lemma ItemFine<O>(c: Config, o: Outcomes<O>, hasStore: bool, start: nat, p: nat)
    requires 0 < c.maxAttempts && start < p && Decided(c, o.process, start, p)
    requires WriteOk(c, o, p) && !o.save(p, true).SaveFails? && !o.save(p, false).SaveFails?
    ensures ItemOk(c, o, hasStore, start, p)
  {
    hide DecisionAt, WriteOk, StateAt;
  }

  // ---- What the checkpoint promises ----

  /** All results kept before position `n` are written, so that a restart there drops none. */
  ghost predicate WrittenBefore<O>(n: int, written: seq<O>, decisions: seq<Decision<O>>) {
    0 <= n <= |decisions| && KeptOf(decisions[..n]) <= written
  }

  /** Restarting from the saved checkpoint repeats or continues the kept results, and drops none. */
  ghost predicate NothingLost<O>(chunkSize: nat, reported: (nat, bool) -> bool, decisions: seq<Decision<O>>) {
    var l := LegacyAfter(chunkSize, reported, decisions);
    WrittenBefore(l.saved, l.written, decisions)
  }

  function Always(): (nat, bool) -> bool {
    (n: nat, afterWrite: bool) => true
  }

  /** A filtered or skipped item saves the checkpoint past results that still wait in the chunk. */
  lemma LegacyLosesResult<O>(chunkSize: nat, reported: (nat, bool) -> bool, output: O)
    requires 2 <= chunkSize && reported(2, false)
    ensures LegacyAfter(chunkSize, reported, [Kept(output), Filtered]) == Legacy([], 2, [output])
    ensures !NothingLost(chunkSize, reported, [Kept(output), Filtered])
  {
    var first := [Kept(output)];
    var both := [Kept(output), Filtered];
    assert first[..0] == [] && both[..1] == first && both[..2] == both;
    assert LegacyAfter(chunkSize, reported, first) == Legacy([], 0, [output]);
    assert KeptOf(first) == [output];
  }

  lemma MoreWritten<O>(n: int, written: seq<O>, waiting: seq<O>, more: seq<O>, decisions: seq<Decision<O>>)
    requires WrittenBefore(n, written, decisions) && written + waiting <= more
    ensures WrittenBefore(n, more, decisions)
  {
    hide KeptOf;
    assert forall i | 0 <= i < |written| :: written[i] == (written + waiting)[i] == more[i];
  }

  lemma AllWritten<O>(written: seq<O>, decisions: seq<Decision<O>>)
    requires KeptOf(decisions) <= written
    ensures WrittenBefore(|decisions|, written, decisions)
  {
    assert decisions[..|decisions|] == decisions;
  }

  /** What `RunLegacy` leaves behind can be recovered from whenever nothing is lost after its decisions. */
  lemma RecoverableStop<O>(c: Config, o: Outcomes<O>, start: nat, read: nat, written: seq<O>, saved: nat, stop: nat)
    requires 0 < c.chunkSize && 0 < c.maxAttempts && start <= stop && Decided(c, o.process, start, stop)
    requires NothingLost(c.chunkSize, Reports(o, start), DecisionsOf(c, o.process, start, stop))
    requires
      var l, decisions := StateAt(c, o, start, stop), DecisionsOf(c, o.process, start, stop);
      && (written == l.written || WroteAll(read, written, decisions))
      && (saved == start + l.saved || (saved == stop && written == KeptOf(decisions)))
    ensures WrittenBefore(saved - start, written, DecisionsOf(c, o.process, start, stop))
  {
    hide LegacyAfter, KeptOf, WrittenBefore, DecisionsOf, DecisionAt;
    var l, decisions := StateAt(c, o, start, stop), DecisionsOf(c, o.process, start, stop);
    if saved == start + l.saved {
      AllAccounted(c, o, start, stop);
      if written != l.written {
        MoreWritten(l.saved, l.written, l.chunk, written, decisions);
      }
    } else {
      AllWritten(written, decisions);
    }
  }

  /** A run that stops after a kept and a filtered item, as `RunLegacy` describes it, cannot. */
  lemma UnrecoverableStop<O>(c: Config, o: Outcomes<O>, start: nat, output: O, written: seq<O>, saved: nat)
    requires 2 <= c.chunkSize && 0 < c.maxAttempts && o.save(start + 2, false).Saved?
    requires DecisionAt(c, o.process, start) == Some(Kept(output))
    requires DecisionAt(c, o.process, start + 1) == Some(Filtered) && Decided(c, o.process, start, start + 2)
    requires written == StateAt(c, o, start, start + 2).written
    requires saved == start + StateAt(c, o, start, start + 2).saved
    ensures written == [] && saved == start + 2
    ensures !WrittenBefore(saved - start, written, DecisionsOf(c, o.process, start, start + 2))
  {
    hide LegacyAfter, DecisionAt;
    assert DecisionsOf(c, o.process, start, start + 2) == [Kept(output), Filtered];
    LegacyLosesResult(c.chunkSize, Reports(o, start), output);
  }

  ghost predicate AllKept<O>(decisions: seq<Decision<O>>) {
    forall i | 0 <= i < |decisions| :: decisions[i].Kept?
  }

  lemma {:induction false} KeptCount<O>(decisions: seq<Decision<O>>)
    requires AllKept(decisions)
    ensures |KeptOf(decisions)| == |decisions|
  {
    if decisions != [] {
      KeptCount(decisions[..|decisions| - 1]);
    }
  }

  lemma {:induction false} SavedIsWritten<O>(chunkSize: nat, reported: (nat, bool) -> bool, decisions: seq<Decision<O>>)
    requires 0 < chunkSize && AllKept(decisions)
    ensures LegacyAfter(chunkSize, reported, decisions).saved <= |LegacyAfter(chunkSize, reported, decisions).written|
  {
    if decisions != [] {
      var init := decisions[..|decisions| - 1];
      SavedIsWritten(chunkSize, reported, init);
      var k := LegacyAccounts(chunkSize, reported, init);
      KeptCount(init);
    }
  }

  /** A run that neither filters nor skips loses nothing, whatever its chunk size. */
  lemma KeepingLosesNothing<O>(chunkSize: nat, reported: (nat, bool) -> bool, decisions: seq<Decision<O>>)
    requires 0 < chunkSize && AllKept(decisions)
    ensures NothingLost(chunkSize, reported, decisions)
  {
    hide LegacyAfter, KeptOf;
    var l := LegacyAfter(chunkSize, reported, decisions);
    var k := LegacyAccounts(chunkSize, reported, decisions);
    SavedIsWritten(chunkSize, reported, decisions);
    var front, back := decisions[..l.saved], decisions[l.saved..];
    assert decisions == front + back;
    KeptOfConcat(front, back);
    KeptCount(front);
    assert (KeptOf(front) + KeptOf(back))[..l.saved] == KeptOf(front);
    assert (l.written + l.chunk)[..l.saved] == l.written[..l.saved];
  }

  lemma SingleItemsLoseNothing<O>(reported: (nat, bool) -> bool, decisions: seq<Decision<O>>)
    ensures NothingLost(1, reported, decisions)
  {
    hide LegacyAfter, KeptOf;
    var l := LegacyAfter(1, reported, decisions);
    var k := LegacyAccounts(1, reported, decisions);
    var front, back := decisions[..l.saved], decisions[l.saved..];
    assert decisions == front + back;
    KeptOfConcat(front, back);
    assert l.written + l.chunk == l.written;
  }

  /** No run of the older path loses a result exactly when chunks hold a single item or nothing is ever
      filtered or skipped. */
  lemma LegacyIsAtLeastOnce<O(!new)>(chunkSize: nat, mayDrop: bool, output: O)
    requires 0 < chunkSize
    ensures (forall reported: (nat, bool) -> bool, decisions: seq<Decision<O>> | mayDrop || AllKept(decisions) ::
               NothingLost(chunkSize, reported, decisions))
       <==> chunkSize == 1 || !mayDrop
  {
    hide NothingLost;
    if chunkSize == 1 || !mayDrop {
      forall reported: (nat, bool) -> bool, decisions: seq<Decision<O>> | mayDrop || AllKept(decisions)
        ensures NothingLost(chunkSize, reported, decisions)
      {
        if AllKept(decisions) {
          KeepingLosesNothing(chunkSize, reported, decisions);
        } else {
          SingleItemsLoseNothing(reported, decisions);
        }
      }
    } else {
      LegacyLosesResult(chunkSize, Always(), output);
      var lost: seq<Decision<O>> := [Kept(output), Filtered];
      assert !NothingLost(chunkSize, Always(), lost);
    }
  }
}
