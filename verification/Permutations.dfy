/** Lazy permutations by swapping in place (collections/permutations.go). The consumer that pulls the
    results is one that stops after `stopAfter` of them; every consumer is like that. */
module Permutations {

  function Swap<T>(s: seq<T>, i: nat, j: nat): (r: seq<T>)
    requires i < |s| && j < |s|
    ensures |r| == |s| && multiset(r) == multiset(s)
  {
    s[i := s[j]][j := s[i]]
  }

  /** The results for a work slice whose first `start` elements are fixed. */
  function Perms<T>(work: seq<T>, start: nat): seq<seq<T>>
    requires start <= |work|
    decreases |work| - start, 1, 0
  {
    if start == |work| then [work] else Branches(work, start, start)
  }

  function Branches<T>(work: seq<T>, start: nat, index: nat): seq<seq<T>>
    requires start < |work| && start <= index <= |work|
    decreases |work| - start, 0, |work| - index
  {
    if index == |work| then []
    else Perms(Swap(work, start, index), start + 1) + Branches(work, start, index + 1)
  }

  lemma PermsStep<T>(work: seq<T>, start: nat)
    requires start <= |work|
    ensures Perms(work, start) == if start == |work| then [work] else Branches(work, start, start)
  {
  }

  lemma BranchesStep<T>(work: seq<T>, start: nat, index: nat)
    requires start < |work| && start <= index <= |work|
    ensures Branches(work, start, index) ==
      if index == |work| then [] else Perms(Swap(work, start, index), start + 1) + Branches(work, start, index + 1)
  {
  }

  lemma SwapPrefix<T>(work: seq<T>, start: nat, index: nat)
    requires start <= index < |work|
    ensures Swap(work, start, index)[..start + 1] == work[..start] + [work[index]]
  {
  }

  function Factorial(n: nat): nat {
    if n == 0 then 1 else n * Factorial(n - 1)
  }

  /** There are (n - start)! results. */
  lemma {:induction false} PermsCount<T>(work: seq<T>, start: nat)
    requires start <= |work|
    ensures |Perms(work, start)| == Factorial(|work| - start)
    decreases |work| - start, 1, 0
  {
    hide Perms, Branches, Swap;
    PermsStep(work, start);
    if start < |work| {
      BranchesCount(work, start, start);
    }
  }

  lemma {:induction false} BranchesCount<T>(work: seq<T>, start: nat, index: nat)
    requires start < |work| && start <= index <= |work|
    ensures |Branches(work, start, index)| == (|work| - index) * Factorial(|work| - start - 1)
    decreases |work| - start, 0, |work| - index
  {
    hide Perms, Branches, Swap;
    BranchesStep(work, start, index);
    if index < |work| {
      PermsCount(Swap(work, start, index), start + 1);
      BranchesCount(work, start, index + 1);
      Distribute(|work| - index - 1, Factorial(|work| - start - 1));
    }
  }

  lemma Distribute(n: nat, f: nat)
    ensures (n + 1) * f == f + n * f
  {
  }

  /** Every result rearranges the work slice and keeps its fixed elements. */
  lemma {:induction false} PermsAreRearrangements<T>(work: seq<T>, start: nat, p: seq<T>)
    requires start <= |work| && p in Perms(work, start)
    ensures |p| == |work| && multiset(p) == multiset(work) && p[..start] == work[..start]
    decreases |work| - start, 1, 0
  {
    hide Perms, Branches, Swap;
    PermsStep(work, start);
    if start < |work| {
      BranchesAreRearrangements(work, start, start, p);
    }
  }

  lemma {:induction false} BranchesAreRearrangements<T>(work: seq<T>, start: nat, index: nat, p: seq<T>)
    requires start < |work| && start <= index <= |work| && p in Branches(work, start, index)
    ensures |p| == |work| && multiset(p) == multiset(work) && p[..start] == work[..start]
    ensures exists i | index <= i < |work| :: p[start] == work[i]
    decreases |work| - start, 0, |work| - index
  {
    hide Perms, Branches, Swap;
    BranchesStep(work, start, index);
    var swapped := Swap(work, start, index);
    if p in Perms(swapped, start + 1) {
      PermsAreRearrangements(swapped, start + 1, p);
      SwapPrefix(work, start, index);
      assert p[start] == p[..start + 1][start] == work[index];
      assert p[..start] == p[..start + 1][..start];
    } else {
      BranchesAreRearrangements(work, start, index + 1, p);
    }
  }

  ghost predicate NoDuplicates<T>(s: seq<T>) {
    forall i, j | 0 <= i < j < |s| :: s[i] != s[j]
  }

  lemma {:induction false} CountOne<T>(s: seq<T>, x: T)
    requires NoDuplicates(s)
    ensures multiset(s)[x] <= 1
  {
    if s != [] {
      var init, last := s[..|s| - 1], s[|s| - 1];
      assert s == init + [last];
      CountOne(init, x);
      if x == last {
        assert x !in init;
      }
    }
  }

  lemma CountTwo<T>(s: seq<T>, i: nat, j: nat)
    requires i < j < |s| && s[i] == s[j]
    ensures multiset(s)[s[i]] >= 2
  {
    assert s == s[..j] + s[j..];
    assert s[i] == s[..j][i] && s[i] in s[..j];
    assert s[j] == s[j..][0] && s[j] in s[j..];
  }

  lemma RearrangedNoDuplicates<T>(s: seq<T>, p: seq<T>)
    requires NoDuplicates(s) && multiset(p) == multiset(s)
    ensures NoDuplicates(p)
  {
    forall i, j | 0 <= i < j < |p| ensures p[i] != p[j] {
      CountOne(s, p[i]);
      if p[i] == p[j] {
        CountTwo(p, i, j);
      }
    }
  }

  /** Every rearrangement that keeps the fixed elements is among the results. */
  lemma {:induction false} PermsAreComplete<T>(work: seq<T>, start: nat, p: seq<T>)
    requires start <= |work| && NoDuplicates(work)
    requires multiset(p) == multiset(work) && start <= |p| && p[..start] == work[..start]
    ensures p in Perms(work, start)
    decreases |work| - start
  {
    hide Perms, Branches, Swap;
    PermsStep(work, start);
    assert |p| == |multiset(p)| == |multiset(work)| == |work|;
    if start == |work| {
      assert p == p[..start] && work == work[..start];
    } else {
      RearrangedNoDuplicates(work, p);
      var i := NextElement(work, start, p);
      var swapped := Swap(work, start, i);
      RearrangedNoDuplicates(work, swapped);
      assert p[..start + 1] == p[..start] + [p[start]];
      SwapPrefix(work, start, i);
      PermsAreComplete(swapped, start + 1, p);
      BranchInBranches(work, start, start, i, p);
    }
  }

  lemma NextElement<T>(work: seq<T>, start: nat, p: seq<T>) returns (i: nat)
    requires start < |work| == |p| && NoDuplicates(p)
    requires multiset(p) == multiset(work) && p[..start] == work[..start]
    ensures start <= i < |work| && work[i] == p[start]
  {
    assert p[start] in multiset(work);
    i :| 0 <= i < |work| && work[i] == p[start];
    assert forall k | 0 <= k < start :: p[k] == p[..start][k] == work[..start][k] == work[k];
  }

  lemma {:induction false} BranchInBranches<T>(work: seq<T>, start: nat, index: nat, i: nat, p: seq<T>)
    requires start < |work| && start <= index <= i < |work|
    requires p in Perms(Swap(work, start, i), start + 1)
    ensures p in Branches(work, start, index)
    decreases |work| - index
  {
    hide Perms, Branches, Swap;
    BranchesStep(work, start, index);
    if index < i {
      BranchInBranches(work, start, index + 1, i, p);
    }
  }

  /** No result comes twice. */
  lemma {:induction false} PermsAreDistinct<T>(work: seq<T>, start: nat)
    requires start <= |work| && NoDuplicates(work)
    ensures NoDuplicates(Perms(work, start))
    decreases |work| - start, 1, 0
  {
    hide Perms, Branches, Swap;
    PermsStep(work, start);
    if start < |work| {
      BranchesAreDistinct(work, start, start);
    }
  }

  lemma {:induction false} BranchesAreDistinct<T>(work: seq<T>, start: nat, index: nat)
    requires start < |work| && start <= index <= |work| && NoDuplicates(work)
    ensures NoDuplicates(Branches(work, start, index))
    decreases |work| - start, 0, |work| - index
  {
    hide Perms, Branches, Swap;
    BranchesStep(work, start, index);
    if index < |work| {
      var swapped := Swap(work, start, index);
      RearrangedNoDuplicates(work, swapped);
      var first, rest := Perms(swapped, start + 1), Branches(work, start, index + 1);
      PermsAreDistinct(swapped, start + 1);
      BranchesAreDistinct(work, start, index + 1);
      forall i, j | 0 <= i < |first| && 0 <= j < |rest| ensures first[i] != rest[j] {
        LaterBranchDiffers(work, start, index, first[i], rest[j]);
      }
      hide NoDuplicates;
      ConcatDistinct(first, rest);
    }
  }

  lemma LaterBranchDiffers<T>(work: seq<T>, start: nat, index: nat, p: seq<T>, q: seq<T>)
    requires start < |work| && start <= index < |work| && NoDuplicates(work)
    requires p in Perms(Swap(work, start, index), start + 1) && q in Branches(work, start, index + 1)
    ensures p != q
  {
    hide Perms, Branches, Swap;
    PermsAreRearrangements(Swap(work, start, index), start + 1, p);
    BranchesAreRearrangements(work, start, index + 1, q);
    SwapPrefix(work, start, index);
    assert p[start] == p[..start + 1][start] == work[index];
  }

  lemma ConcatDistinct<T>(a: seq<T>, b: seq<T>)
    requires NoDuplicates(a) && NoDuplicates(b) && forall i, j | 0 <= i < |a| && 0 <= j < |b| :: a[i] != b[j]
    ensures NoDuplicates(a + b)
  {
  }

  // ---- The order of the results ----

  /** The results come in blocks, one for each element that can follow the fixed ones, in the order of the
      work slice: block `b` holds the results with that element swapped to the front. */
  lemma PermsOrder<T>(work: seq<T>, start: nat, b: nat, k: nat)
    requires start + b < |work| && k < Factorial(|work| - start - 1)
    ensures b * Factorial(|work| - start - 1) + k < |Perms(work, start)|
    ensures |Perms(Swap(work, start, start + b), start + 1)| == Factorial(|work| - start - 1)
    ensures Perms(work, start)[b * Factorial(|work| - start - 1) + k]
         == Perms(Swap(work, start, start + b), start + 1)[k]
    ensures work[..start] + [work[start + b]] <= Perms(work, start)[b * Factorial(|work| - start - 1) + k]
  {
    hide Perms, Branches, Swap;
    PermsStep(work, start);
    BlockOf(work, start, start, b, k);
    var swapped := Swap(work, start, start + b);
    PermsAreRearrangements(swapped, start + 1, Perms(swapped, start + 1)[k]);
    SwapPrefix(work, start, start + b);
  }

  lemma {:induction false} BlockOf<T>(work: seq<T>, start: nat, index: nat, b: nat, k: nat)
    requires start <= index && index + b < |work| && k < Factorial(|work| - start - 1)
    ensures b * Factorial(|work| - start - 1) + k < |Branches(work, start, index)|
    ensures |Perms(Swap(work, start, index + b), start + 1)| == Factorial(|work| - start - 1)
    ensures Branches(work, start, index)[b * Factorial(|work| - start - 1) + k]
         == Perms(Swap(work, start, index + b), start + 1)[k]
    decreases b
  {
    hide Perms, Branches, Swap, Factorial;
    var f := Factorial(|work| - start - 1);
    BranchesStep(work, start, index);
    PermsCount(Swap(work, start, index), start + 1);
    if b > 0 {
      BlockOf(work, start, index + 1, b - 1, k);
      Distribute(b - 1, f);
      SecondPart(Perms(Swap(work, start, index), start + 1), Branches(work, start, index + 1), (b - 1) * f + k);
    } else {
      assert b * f + k == k;
    }
  }

  lemma SecondPart<T>(a: seq<T>, b: seq<T>, k: nat)
    requires k < |b|
    ensures (a + b)[|a| + k] == b[k]
  {
  }

  /** The first result is the work slice itself. */
  lemma {:induction false} FirstIsUnchanged<T>(work: seq<T>, start: nat)
    requires start <= |work|
    ensures Perms(work, start) != [] && Perms(work, start)[0] == work
    decreases |work| - start
  {
    hide Perms, Branches;
    PermsStep(work, start);
    if start < |work| {
      BranchesStep(work, start, start);
      assert Swap(work, start, start) == work;
      FirstIsUnchanged(work, start + 1);
    }
  }

  // ---- The generator ----

  /** What a consumer that stops after `stopAfter` results receives. */
  function Taken<T>(all: seq<T>, stopAfter: nat): seq<T> {
    if |all| < stopAfter then all else all[..stopAfter]
  }

  /** Yields the results for the current work slice; says whether the consumer wants more. The work
      slice is as before afterwards, also when the consumer stopped. */
  method Generate<T>(work: array<T>, start: nat, received: seq<seq<T>>, stopAfter: nat)
    returns (results: seq<seq<T>>, more: bool)
    requires start <= work.Length && |received| < stopAfter
    modifies work
    ensures work[..] == old(work[..])
    ensures results == Taken(received + Perms(old(work[..]), start), stopAfter)
    ensures more <==> |received + Perms(old(work[..]), start)| < stopAfter
    decreases work.Length - start
  {
    hide Perms, Branches, Swap;
    ghost var was := work[..];
    PermsStep(was, start);
    results := received;
    if start == work.Length {
      results := results + [work[..]];
      more := |results| < stopAfter;
      return;
    }
    var index := start;
    while index < work.Length
      invariant start <= index <= work.Length && work[..] == was
      invariant |results| < stopAfter
      invariant results + Branches(was, start, index) == received + Branches(was, start, start)
    {
      BranchesStep(was, start, index);
      SwapAt(work, start, index);
      ghost var before, rest := results, Branches(was, start, index + 1);
      ghost var branch := Perms(Swap(was, start, index), start + 1);
      results, more := Generate(work, start + 1, results, stopAfter);
      SwapAt(work, start, index);
      SwapTwice(was, start, index);
      Regroup(before, branch, rest);
      if !more {
        CutEarly(before + branch, rest, stopAfter);
        return;
      }
      index := index + 1;
    }
    BranchesStep(was, start, index);
    assert results + [] == results;
    more := true;
  }

  method SwapAt<T>(a: array<T>, i: nat, j: nat)
    requires i < a.Length && j < a.Length
    modifies a
    ensures a[..] == Swap(old(a[..]), i, j)
  {
    a[i], a[j] := a[j], a[i];
  }

  lemma SwapTwice<T>(s: seq<T>, i: nat, j: nat)
    requires i < |s| && j < |s|
    ensures Swap(Swap(s, i, j), i, j) == s
  {
  }

  lemma Regroup<T>(a: seq<T>, b: seq<T>, c: seq<T>)
    ensures a + (b + c) == (a + b) + c
  {
  }

  lemma CutEarly<T>(front: seq<T>, back: seq<T>, stopAfter: nat)
    requires stopAfter <= |front|
    ensures Taken(front + back, stopAfter) == Taken(front, stopAfter)
  {
    assert (front + back)[..stopAfter] == front[..stopAfter];
  }

  /** All permutations of a copy of the values, as far as the consumer wants them. */
  method Permute<T>(values: seq<T>, stopAfter: nat) returns (results: seq<seq<T>>)
    requires 0 < stopAfter
    ensures results == Taken(Perms(values, 0), stopAfter)
  {
    if |values| == 0 {
      return [[]];
    }
    var work := new T[|values|](i requires 0 <= i < |values| => values[i]);
    assert work[..] == values;
    var more;
    results, more := Generate(work, 0, [], stopAfter);
    assert [] + Perms(values, 0) == Perms(values, 0);
  }

  // ---- Index permutations ----

  function Indices(n: nat): (s: seq<nat>)
    ensures |s| == n && forall i | 0 <= i < n :: s[i] == i
  {
    seq(n, i requires 0 <= i => i)
  }

  ghost predicate InRange(indices: seq<nat>, n: nat) {
    forall i | 0 <= i < |indices| :: indices[i] < n
  }

  /** The values at these indices. */
  function Pick<T>(values: seq<T>, indices: seq<nat>): (r: seq<T>)
    requires InRange(indices, |values|)
    ensures |r| == |indices| && forall i | 0 <= i < |r| :: r[i] == values[indices[i]]
  {
    seq(|indices|, i requires 0 <= i < |indices| => values[indices[i]])
  }

  ghost predicate Picks<T>(values: seq<T>, indexResults: seq<seq<nat>>, results: seq<seq<T>>) {
    && |results| == |indexResults|
    && forall k | 0 <= k < |results| ::
         InRange(indexResults[k], |values|) && results[k] == Pick(values, indexResults[k])
  }

  lemma SwapInRange(indices: seq<nat>, n: nat, i: nat, j: nat)
    requires InRange(indices, n) && i < |indices| && j < |indices|
    ensures InRange(Swap(indices, i, j), n)
  {
  }

  /** Permuting values is permuting indices and picking. */
  lemma {:induction false} PermsPick<T>(values: seq<T>, indices: seq<nat>, start: nat)
    requires InRange(indices, |values|) && start <= |indices|
    ensures Picks(values, Perms(indices, start), Perms(Pick(values, indices), start))
    decreases |indices| - start, 1, 0
  {
    hide Perms, Branches;
    PermsStep(indices, start);
    PermsStep(Pick(values, indices), start);
    if start < |indices| {
      BranchesPick(values, indices, start, start);
    }
  }

  lemma {:induction false} BranchesPick<T>(values: seq<T>, indices: seq<nat>, start: nat, index: nat)
    requires InRange(indices, |values|) && start < |indices| && start <= index <= |indices|
    ensures Picks(values, Branches(indices, start, index), Branches(Pick(values, indices), start, index))
    decreases |indices| - start, 0, |indices| - index
  {
    hide Perms, Branches;
    var picked := Pick(values, indices);
    BranchesStep(indices, start, index);
    BranchesStep(picked, start, index);
    if index < |indices| {
      var swapped := Swap(indices, start, index);
      SwapInRange(indices, |values|, start, index);
      assert Pick(values, swapped) == Swap(picked, start, index);
      PermsPick(values, swapped, start + 1);
      BranchesPick(values, indices, start, index + 1);
    }
  }

  /** Run to the end, the results are the picks of index permutations, and those are n! many, each a
      rearrangement of all indices, every rearrangement among them, none twice. */
  lemma EveryPermutationOnce<T>(values: seq<T>)
    ensures Picks(values, Perms(Indices(|values|), 0), Perms(values, 0))
    ensures |Perms(values, 0)| == Factorial(|values|)
    ensures NoDuplicates(Perms(Indices(|values|), 0))
    ensures forall p: seq<nat> :: p in Perms(Indices(|values|), 0) <==> multiset(p) == multiset(Indices(|values|))
  {
    hide Perms;
    var indices := Indices(|values|);
    assert Pick(values, indices) == values;
    PermsPick(values, indices, 0);
    PermsCount(values, 0);
    PermsAreDistinct(indices, 0);
    forall p: seq<nat> ensures p in Perms(indices, 0) <==> multiset(p) == multiset(indices) {
      if p in Perms(indices, 0) {
        PermsAreRearrangements(indices, 0, p);
      }
      if multiset(p) == multiset(indices) {
        assert p[..0] == indices[..0];
        PermsAreComplete(indices, 0, p);
      }
    }
  }
}
