/**
 * The streak counters over a sequence of cycle outcomes (true: the limit was
 * exceeded). From a fresh record, the current streak is the run of good cycles at the
 * end, and the highest streak is the longest run of good cycles anywhere.
 */
module Streaks {
  import opened DeviceModel

  /** The record after closing, one after the other, cycles with these outcomes. */
  function AfterCycles(d: Status, outcomes: seq<bool>): Status {
    if outcomes == [] then d
    else UpdateStreak(AfterCycles(d, outcomes[..|outcomes| - 1]), outcomes[|outcomes| - 1])
  }

  /** No cycle from position `i` up to (not including) `j` exceeded the limit. */
  predicate GoodRun(outcomes: seq<bool>, i: int, j: int)
    requires 0 <= i <= j <= |outcomes|
  {
    forall k :: i <= k < j ==> !outcomes[k]
  }

  /** The number of good cycles at the end of `outcomes`: a good run reaching the end,
      preceded by an exceeded cycle or by nothing. */
  function TrailingGood(outcomes: seq<bool>): (n: nat)
    ensures n <= |outcomes|
    ensures GoodRun(outcomes, |outcomes| - n, |outcomes|)
    ensures n < |outcomes| ==> outcomes[|outcomes| - n - 1]
  {
    if outcomes == [] || outcomes[|outcomes| - 1] then 0
    else TrailingGood(outcomes[..|outcomes| - 1]) + 1
  }

  /** A good run that reaches the end is no longer than `TrailingGood`. */
  lemma TrailingGoodIsLongest(outcomes: seq<bool>, i: nat)
    requires i <= |outcomes| && GoodRun(outcomes, i, |outcomes|)
    ensures |outcomes| - i <= TrailingGood(outcomes)
  {
  }

  /** One more cycle: how the bound on good runs carries over to the longer history. */
  lemma StepBoundsRuns(d: Status, o: seq<bool>, exceeded: bool)
    requires AfterCycles(d, o).currentStreak == TrailingGood(o)
    requires forall i, j :: 0 <= i <= j <= |o| && GoodRun(o, i, j) ==> j - i <= AfterCycles(d, o).highestStreak
    ensures AfterCycles(d, o + [exceeded]).currentStreak == TrailingGood(o + [exceeded])
    ensures forall i, j :: 0 <= i <= j <= |o| + 1 && GoodRun(o + [exceeded], i, j) ==>
              j - i <= AfterCycles(d, o + [exceeded]).highestStreak
  {
    var outcomes := o + [exceeded];
    var n := |outcomes|;
    assert outcomes[..n - 1] == o;
    var s := AfterCycles(d, outcomes);
    forall i, j | 0 <= i <= j <= n && GoodRun(outcomes, i, j) ensures j - i <= s.highestStreak {
      if j < n {
        assert GoodRun(o, i, j);
      } else {
        TrailingGoodIsLongest(outcomes, i);
      }
    }
  }

  /** From a fresh record, the current streak counts the good cycles at the end, and no
      run of good cycles is longer than the highest streak. */
  lemma {:induction false} StreaksBoundRuns(d: Status, outcomes: seq<bool>)
    requires d.currentStreak == 0 && d.highestStreak == 0
    ensures AfterCycles(d, outcomes).currentStreak == TrailingGood(outcomes)
    ensures AfterCycles(d, outcomes).currentStreak <= AfterCycles(d, outcomes).highestStreak
    ensures forall i, j :: 0 <= i <= j <= |outcomes| && GoodRun(outcomes, i, j) ==>
              j - i <= AfterCycles(d, outcomes).highestStreak
  {
    if outcomes != [] {
      var o := outcomes[..|outcomes| - 1];
      StreaksBoundRuns(d, o);
      assert outcomes == o + [outcomes[|outcomes| - 1]];
      StepBoundsRuns(d, o, outcomes[|outcomes| - 1]);
    }
  }

  /** From a fresh record, the highest streak is the length of some run of good cycles. */
  lemma {:induction false} HighestStreakAttained(d: Status, outcomes: seq<bool>) returns (i: nat, j: nat)
    requires d.currentStreak == 0 && d.highestStreak == 0
    ensures i <= j <= |outcomes| && GoodRun(outcomes, i, j)
    ensures j - i == AfterCycles(d, outcomes).highestStreak
  {
    if outcomes == [] {
      i, j := 0, 0;
    } else {
      var n := |outcomes|;
      var o := outcomes[..n - 1];
      StreaksBoundRuns(d, o);
      StreaksBoundRuns(d, outcomes);
      i, j := HighestStreakAttained(d, o);
      if AfterCycles(d, outcomes).highestStreak != AfterCycles(d, o).highestStreak {
        i, j := n - TrailingGood(outcomes), n;
      } else {
        assert GoodRun(o, i, j);
      }
    }
  }

  /** Cycles exceeded, good, good, exceeded, good: current streak 1, highest 2. */
  lemma StreakExample(d: Status)
    requires d.currentStreak == 0 && d.highestStreak == 0
    ensures AfterCycles(d, [true, false, false, true, false]).currentStreak == 1
    ensures AfterCycles(d, [true, false, false, true, false]).highestStreak == 2
  {
    var o1, o2, o3, o4, o5 := [true], [true, false], [true, false, false],
      [true, false, false, true], [true, false, false, true, false];
    assert o1[..0] == [] && o2[..1] == o1 && o3[..2] == o2 && o4[..3] == o3 && o5[..4] == o4;
    assert AfterCycles(d, o1).currentStreak == 0 && AfterCycles(d, o1).highestStreak == 0;
    assert AfterCycles(d, o2).currentStreak == 1 && AfterCycles(d, o2).highestStreak == 1;
    assert AfterCycles(d, o3).currentStreak == 2 && AfterCycles(d, o3).highestStreak == 2;
    assert AfterCycles(d, o4).currentStreak == 0 && AfterCycles(d, o4).highestStreak == 2;
  }
}
