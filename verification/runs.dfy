/** Cutting a sequence into maximal runs of consecutive elements with equal
    keys, and folding each run into one value. */
module Runs {

  /** Element `k` has the key of the element before it. */
  predicate Linked<T, K(==)>(xs: seq<T>, key: T -> K, k: int)
    requires 0 < k < |xs|
  {
    key(xs[k - 1]) == key(xs[k])
  }

  /** Where the run holding element `i` starts. */
  function RunStart<T, K(==)>(xs: seq<T>, key: T -> K, i: nat): (s: nat)
    requires i < |xs|
    ensures s <= i
  {
    if i == 0 || key(xs[i - 1]) != key(xs[i]) then i else RunStart(xs, key, i - 1)
  }

  /** Where the run holding element `i` ends (exclusive). */
  function RunEnd<T, K(==)>(xs: seq<T>, key: T -> K, i: nat): (e: nat)
    requires i < |xs|
    decreases |xs| - i
    ensures i < e <= |xs|
  {
    if i + 1 == |xs| || key(xs[i]) != key(xs[i + 1]) then i + 1 else RunEnd(xs, key, i + 1)
  }

  /** A run is maximal: inside it every element has the key of the one
      before, and the element just after it does not. */
  lemma {:induction false} RunIsMaximal<T, K>(xs: seq<T>, key: T -> K, i: nat)
    requires i < |xs|
    decreases |xs| - i
    ensures var e := RunEnd(xs, key, i);
      (forall m :: i < m < e ==> Linked(xs, key, m))
      && (e == |xs| || key(xs[e - 1]) != key(xs[e]))
  {
    if !(i + 1 == |xs| || key(xs[i]) != key(xs[i + 1])) {
      RunIsMaximal(xs, key, i + 1);
    }
  }

  /** The run of `k` ends at `e` when every element after `k` up to `e` has
      the key of the one before it and element `e` does not. */
  lemma {:induction false} RunEndIs<T, K>(xs: seq<T>, key: T -> K, k: nat, e: nat)
    requires k < e <= |xs|
    requires forall m :: k < m < e ==> Linked(xs, key, m)
    requires e == |xs| || key(xs[e - 1]) != key(xs[e])
    decreases e - k
    ensures RunEnd(xs, key, k) == e
  {
    if k + 1 < e {
      assert Linked(xs, key, k + 1);
      RunEndIs(xs, key, k + 1, e);
    }
  }

  /** All elements of a whole run `start..e` see `e` as its end. */
  lemma ClosedRun<T, K>(xs: seq<T>, key: T -> K, start: nat, e: nat)
    requires start < e <= |xs|
    requires forall m :: start < m < e ==> Linked(xs, key, m)
    requires e == |xs| || key(xs[e - 1]) != key(xs[e])
    ensures forall k :: start <= k < e ==> RunEnd(xs, key, k) == e
  {
    forall k | start <= k < e ensures RunEnd(xs, key, k) == e {
      RunEndIs(xs, key, k, e);
    }
  }

  /** `add` applied to each element in order, starting from `empty`. */
  function Fold<T, S>(xs: seq<T>, add: (S, T) -> S, empty: S): S
    decreases |xs|
  {
    if |xs| == 0 then empty else add(Fold(xs[..|xs| - 1], add, empty), xs[|xs| - 1])
  }

  /** Folding one more element. */
  lemma FoldSnoc<T, S>(xs: seq<T>, x: T, add: (S, T) -> S, empty: S)
    ensures Fold(xs + [x], add, empty) == add(Fold(xs, add, empty), x)
  {
    assert (xs + [x])[..|xs|] == xs;
  }

  /** The fold of a slice grows by one element at a time. */
  lemma FoldExtend<T, S>(xs: seq<T>, start: nat, i: nat, add: (S, T) -> S, empty: S)
    requires start <= i < |xs|
    ensures Fold(xs[start..i + 1], add, empty) == add(Fold(xs[start..i], add, empty), xs[i])
  {
    assert xs[start..i + 1] == xs[start..i] + [xs[i]];
    FoldSnoc(xs[start..i], xs[i], add, empty);
  }

  /** The numbering of elements by run: 0 for the first, the number of the
      element before within a run, the next number at a new run. */
  predicate Numbered<T, K(==)>(xs: seq<T>, key: T -> K, runOf: seq<nat>)
  {
    |runOf| <= |xs| && (|runOf| > 0 ==> runOf[0] == 0)
    && forall k :: 0 < k < |runOf| ==> NumberedAt(xs, key, runOf, k)
  }

  /** Element `k` has the number of the one before it, or the next number
      when it starts a new run. */
  predicate NumberedAt<T, K(==)>(xs: seq<T>, key: T -> K, runOf: seq<nat>, k: int)
    requires 0 < k < |runOf| <= |xs|
  {
    runOf[k] == if Linked(xs, key, k) then runOf[k - 1] else runOf[k - 1] + 1
  }

  /** Elements `start..i` are one open run, numbered `n`. */
  predicate OpenRun<T, K(==)>(xs: seq<T>, key: T -> K, runOf: seq<nat>, start: nat, i: nat, n: nat)
  {
    start < i == |runOf| <= |xs|
    && (forall k :: start < k < i ==> Linked(xs, key, k))
    && (forall k :: start <= k < i ==> key(xs[k]) == key(xs[start]))
    && (forall k :: start <= k < i ==> runOf[k] == n && RunStart(xs, key, k) == start)
  }

  /** Every element before `start` has the fold of its whole run. */
  ghost predicate ClosedRuns<T, K, S>(xs: seq<T>, key: T -> K, add: (S, T) -> S, empty: S,
                                    folds: seq<S>, runOf: seq<nat>, start: nat)
  {
    start <= |runOf| && start <= |xs|
    && forall k :: 0 <= k < start ==>
      runOf[k] < |folds| && folds[runOf[k]] == Fold(xs[RunStart(xs, key, k)..RunEnd(xs, key, k)], add, empty)
  }

  /** An element with the open run's key joins it. */
  lemma JoinRun<T, K>(xs: seq<T>, key: T -> K, runOf: seq<nat>, start: nat, i: nat, n: nat)
    requires Numbered(xs, key, runOf) && OpenRun(xs, key, runOf, start, i, n)
    requires i < |xs| && key(xs[start]) == key(xs[i])
    ensures Numbered(xs, key, runOf + [n]) && OpenRun(xs, key, runOf + [n], start, i + 1, n)
  {
    var ext := runOf + [n];
    forall k | 0 < k < i + 1 ensures NumberedAt(xs, key, ext, k) {
      if k < i {
        assert NumberedAt(xs, key, runOf, k);
      }
    }
  }

  /** An element with another key starts the next run. */
  lemma NewRun<T, K>(xs: seq<T>, key: T -> K, runOf: seq<nat>, start: nat, i: nat, n: nat)
    requires Numbered(xs, key, runOf) && OpenRun(xs, key, runOf, start, i, n)
    requires i < |xs| && key(xs[start]) != key(xs[i])
    ensures Numbered(xs, key, runOf + [n + 1]) && OpenRun(xs, key, runOf + [n + 1], i, i + 1, n + 1)
  {
    var ext := runOf + [n + 1];
    forall k | 0 < k < i + 1 ensures NumberedAt(xs, key, ext, k) {
      if k < i {
        assert NumberedAt(xs, key, runOf, k);
      }
    }
  }

  /** Closing the open run, when the next element does not continue it,
      gives its elements their whole run's fold. */
  lemma CloseRun<T, K, S>(xs: seq<T>, key: T -> K, add: (S, T) -> S, empty: S,
                              folds: seq<S>, runOf: seq<nat>, start: nat, i: nat, fold: S)
    requires OpenRun(xs, key, runOf, start, i, |folds|)
    requires ClosedRuns(xs, key, add, empty, folds, runOf, start)
    requires i == |xs| || key(xs[start]) != key(xs[i])
    requires fold == Fold(xs[start..i], add, empty)
    ensures ClosedRuns(xs, key, add, empty, folds + [fold], runOf, i)
  {
    ClosedRun(xs, key, start, i);
  }

  /** Numbering one more element leaves the closed runs as they were. */
  lemma ClosedRunsExtend<T, K, S>(xs: seq<T>, key: T -> K, add: (S, T) -> S, empty: S,
                                      folds: seq<S>, runOf: seq<nat>, start: nat, x: nat)
    requires ClosedRuns(xs, key, add, empty, folds, runOf, start)
    ensures ClosedRuns(xs, key, add, empty, folds, runOf + [x], start)
  {
    forall k | 0 <= k < start ensures (runOf + [x])[k] == runOf[k] {
    }
  }

  /** What holds after the first `i` elements: those from `start` on are
      the open run, folded so far into `fold`; the earlier runs are closed. */
  ghost predicate Progress<T, K, S>(xs: seq<T>, key: T -> K, add: (S, T) -> S, empty: S,
                                  folds: seq<S>, runOf: seq<nat>, start: nat, i: nat, fold: S)
  {
    Numbered(xs, key, runOf) && OpenRun(xs, key, runOf, start, i, |folds|)
    && ClosedRuns(xs, key, add, empty, folds, runOf, start)
    && fold == Fold(xs[start..i], add, empty)
  }

  /** The first element opens the first run. */
  lemma FirstStep<T, K, S>(xs: seq<T>, key: T -> K, add: (S, T) -> S, empty: S)
    requires |xs| > 0
    ensures Progress(xs, key, add, empty, [], [0], 0, 1, add(empty, xs[0]))
  {
    FoldExtend(xs, 0, 0, add, empty);
  }

  /** An element with the open run's key joins the run and its fold. */
  lemma JoinStep<T, K, S>(xs: seq<T>, key: T -> K, add: (S, T) -> S, empty: S,
                              folds: seq<S>, runOf: seq<nat>, start: nat, i: nat, fold: S)
    requires i < |xs| && Progress(xs, key, add, empty, folds, runOf, start, i, fold)
    requires key(xs[start]) == key(xs[i])
    ensures Progress(xs, key, add, empty, folds, runOf + [|folds|], start, i + 1, add(fold, xs[i]))
  {
    JoinRun(xs, key, runOf, start, i, |folds|);
    ClosedRunsExtend(xs, key, add, empty, folds, runOf, start, |folds|);
    FoldExtend(xs, start, i, add, empty);
  }

  /** An element with another key closes the open run, whose fold is then
      complete, and opens a new one. */
  lemma NewStep<T, K, S>(xs: seq<T>, key: T -> K, add: (S, T) -> S, empty: S,
                             folds: seq<S>, runOf: seq<nat>, start: nat, i: nat, fold: S)
    requires i < |xs| && Progress(xs, key, add, empty, folds, runOf, start, i, fold)
    requires key(xs[start]) != key(xs[i])
    ensures Progress(xs, key, add, empty, folds + [fold], runOf + [|folds| + 1], i, i + 1, add(empty, xs[i]))
  {
    NewRun(xs, key, runOf, start, i, |folds|);
    CloseRun(xs, key, add, empty, folds, runOf, start, i, fold);
    ClosedRunsExtend(xs, key, add, empty, folds + [fold], runOf, i, |folds| + 1);
    FoldExtend(xs, i, i, add, empty);
  }

  /** After the last element, closing the open run gives every element the
      fold of its whole run, and the last element the last fold. */
  lemma LastStep<T, K, S>(xs: seq<T>, key: T -> K, add: (S, T) -> S, empty: S,
                              folds: seq<S>, runOf: seq<nat>, start: nat, fold: S)
    requires Progress(xs, key, add, empty, folds, runOf, start, |xs|, fold)
    ensures |runOf| == |xs| && Numbered(xs, key, runOf)
    ensures forall k :: 0 <= k < |xs| ==> runOf[k] < |folds| + 1
    ensures runOf[|xs| - 1] == |folds|
    ensures forall k :: 0 <= k < |xs| ==>
      (folds + [fold])[runOf[k]] == Fold(xs[RunStart(xs, key, k)..RunEnd(xs, key, k)], add, empty)
  {
    CloseRun(xs, key, add, empty, folds, runOf, start, |xs|, fold);
  }

  /** One pass over `xs`: an element with the key of the open run's first
      element is added to the run's fold, any other closes the run and opens
      a new one; the last run is closed after the pass. `runOf[i]` is the
      index in `folds` of element `i`'s fold. */
  method FoldRuns<T, K(==), S>(xs: seq<T>, key: T -> K, add: (S, T) -> S, empty: S)
    returns (folds: seq<S>, runOf: seq<nat>)
    ensures |runOf| == |xs| && Numbered(xs, key, runOf)
    ensures forall i :: 0 <= i < |xs| ==> runOf[i] < |folds|
    ensures |xs| == 0 ==> folds == []
    ensures |xs| > 0 ==> runOf[|xs| - 1] == |folds| - 1
    ensures forall i :: 0 <= i < |xs| ==>
      folds[runOf[i]] == Fold(xs[RunStart(xs, key, i)..RunEnd(xs, key, i)], add, empty)
  {
    folds, runOf := [], [];
    if |xs| == 0 {
      return;
    }
    FirstStep(xs, key, add, empty);
    var fold := add(empty, xs[0]);
    runOf := [0];
    var start := 0;
    var i := 1;
    while i < |xs|
      invariant i <= |xs|
      invariant Progress(xs, key, add, empty, folds, runOf, start, i, fold)
    {
      if key(xs[start]) == key(xs[i]) {
        JoinStep(xs, key, add, empty, folds, runOf, start, i, fold);
        runOf := runOf + [|folds|];
      } else {
        NewStep(xs, key, add, empty, folds, runOf, start, i, fold);
        runOf := runOf + [|folds| + 1];
        folds := folds + [fold];
        fold := empty;
        start := i;
      }
      fold := add(fold, xs[i]);
      i := i + 1;
    }
    LastStep(xs, key, add, empty, folds, runOf, start, fold);
    folds := folds + [fold];
  }
}
