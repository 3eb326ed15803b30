/** The rule that turns a todo checklist into a task's progress percentage
    and status label (taskController.js, `updateTaskChecklist`). */
module Progress {
  import opened Common

  /** Number of checked items: `todoChecklist.filter(item => item.completed).length`.
      Also the `completedTodoCount` that the task listing attaches to each task. */
  function CompletedCount(items: seq<Item>): (k: nat)
    ensures k == |CheckedPositions(items)|
    ensures k <= |items|
    ensures k == |items| <==> forall i :: 0 <= i < |items| ==> items[i].completed
    ensures k == 0 <==> forall i :: 0 <= i < |items| ==> !items[i].completed
    decreases |items|
  {
    if items == [] then 0
    else
      var n := |items| - 1;
      var prefix := items[..n];
      assert CheckedPositions(items) ==
        CheckedPositions(prefix) + (if items[n].completed then {n} else {});
      CompletedCount(prefix) + (if items[n].completed then 1 else 0)
  }

  /** The positions of the checked items. */
  ghost function CheckedPositions(items: seq<Item>): set<int> {
    set i | 0 <= i < |items| && items[i].completed
  }

  /** `Math.round(k / n * 100)` in exact arithmetic: the integer nearest to
      100·k/n, halves rounded up. */
  function RoundedPercent(k: nat, n: nat): int
    requires 0 < n
  {
    (200 * k + n) / (2 * n)
  }

  /** The progress of a checklist: 0 when it is empty, otherwise the rounded
      percentage of checked items. */
  function ProgressOf(items: seq<Item>): (p: int)
    ensures 0 <= p <= 100
    ensures |items| == 0 ==> p == 0
  {
    var n := |items|;
    if n == 0 then 0
    else
      var k := CompletedCount(items);
      RoundedPercentBounds(k, n);
      RoundedPercent(k, n)
  }

  /** The status the checklist update writes for a given progress. These are
      the lower-case, hyphenated labels; other handlers spell them otherwise. */
  /** The three labels the checklist rule writes. */
  predicate IsDerivedLabel(s: string) {
    s == "pending" || s == "in-progress" || s == "completed"
  }

  function StatusFor(progress: int): (s: string)
    ensures IsDerivedLabel(s)
  {
    if progress == 100 then "completed"
    else if progress > 0 then "in-progress"
    else "pending"
  }

  /** The pair the checklist update writes: (progress, status). */
  function Derive(items: seq<Item>): (int, string)
  {
    var p := ProgressOf(items);
    (p, StatusFor(p))
  }

  // ---------------------------------------------------------------------
  // Arithmetic of the rounding

  lemma ScaleLess(n: int, a: int, b: int)
    requires 0 < n && n * a < n * b
    ensures a < b
  {
    assert n * b - n * a == n * (b - a);
  }

  lemma RoundedPercentBounds(k: nat, n: nat)
    requires 0 < n && k <= n
    ensures 0 <= RoundedPercent(k, n) <= 100
  {
    var q := RoundedPercent(k, n);
    var r := (200 * k + n) % (2 * n);
    assert 200 * k + n == (2 * n) * q + r && 0 <= r < 2 * n;
    assert (2 * n) * q < (2 * n) * 101;
    ScaleLess(2 * n, q, 101);
    assert (2 * n) * (-1) < (2 * n) * q;
    ScaleLess(2 * n, -1, q);
  }

  /** p is the integer nearest to 100·k/n, a tie resolved upwards:
      p - 1/2 <= 100·k/n < p + 1/2. */
  predicate IsNearestPercent(p: int, k: nat, n: nat) {
    n * (2 * p - 1) <= 200 * k < n * (2 * p + 1)
  }

  /** The rounding formula yields the nearest integer, halves rounded up. */
  lemma RoundedPercentNearest(k: nat, n: nat)
    requires 0 < n && k <= n
    ensures IsNearestPercent(RoundedPercent(k, n), k, n)
  {
    var p := RoundedPercent(k, n);
    var r := (200 * k + n) % (2 * n);
    assert 200 * k + n == 2 * n * p + r && 0 <= r < 2 * n;
    assert n * (2 * p - 1) == 2 * n * p - n;
    assert n * (2 * p + 1) == 2 * n * p + n;
  }

  /** Only one integer lies within half a unit of 100·k/n, so the
      characterisation above determines the rounded value. */
  lemma NearestIsUnique(k: nat, n: nat, p: int, q: int)
    requires 0 < n
    requires IsNearestPercent(p, k, n) && IsNearestPercent(q, k, n)
    ensures p == q
  {
    ScaleLess(n, 2 * p - 1, 2 * q + 1);
    ScaleLess(n, 2 * q - 1, 2 * p + 1);
  }

  /** The rounded percentage is 100 exactly when the missing part n - k is
      at most half a percent of n. */
  lemma RoundedFullIff(k: nat, n: nat)
    requires 0 < n && k <= n
    ensures RoundedPercent(k, n) == 100 <==> 200 * (n - k) <= n
  {
    var p := RoundedPercent(k, n);
    RoundedPercentNearest(k, n);
    if 200 * (n - k) <= n {
      assert IsNearestPercent(100, k, n);
      NearestIsUnique(k, n, p, 100);
    }
  }

  /** The rounded percentage is 0 exactly when k is under half a percent
      of n. */
  lemma RoundedZeroIff(k: nat, n: nat)
    requires 0 < n && k <= n
    ensures RoundedPercent(k, n) == 0 <==> 200 * k < n
  {
    var p := RoundedPercent(k, n);
    RoundedPercentNearest(k, n);
    if 200 * k < n {
      assert IsNearestPercent(0, k, n);
      NearestIsUnique(k, n, p, 0);
    }
  }

  // ---------------------------------------------------------------------
  // Properties of the checklist progress

  /** Progress is the rounded percentage of checked items, and it is 0 for
      an empty checklist. */
  lemma ProgressIsRoundedPercentage(items: seq<Item>)
    ensures |items| == 0 ==> ProgressOf(items) == 0
    ensures |items| > 0 ==> IsNearestPercent(ProgressOf(items), CompletedCount(items), |items|)
  {
    if |items| > 0 {
      assert ProgressOf(items) == RoundedPercent(CompletedCount(items), |items|);
      RoundedPercentNearest(CompletedCount(items), |items|);
    }
  }

  /** Progress reaches 100 exactly when the unchecked items are at most half
      a percent of the list: with 200 or more items, one unchecked item
      still rounds to 100. */
  lemma ProgressFullIff(items: seq<Item>)
    ensures ProgressOf(items) == 100 <==>
      |items| > 0 && 200 * (|items| - CompletedCount(items)) <= |items|
  {
    if |items| > 0 {
      RoundedFullIff(CompletedCount(items), |items|);
    }
  }

  /** Progress stays 0 exactly when the checked items are under half a
      percent of the list: with more than 200 items, one checked item still
      rounds to 0. */
  lemma ProgressZeroIff(items: seq<Item>)
    ensures ProgressOf(items) == 0 <==> |items| == 0 || 200 * CompletedCount(items) < |items|
  {
    if |items| > 0 {
      RoundedZeroIff(CompletedCount(items), |items|);
    }
  }

  /** Below 200 items the rounding never hides an item: progress is 100
      exactly when every item is checked and 0 exactly when none is. */
  lemma SmallChecklistIsExact(items: seq<Item>)
    requires |items| < 200
    ensures ProgressOf(items) == 100 <==> |items| > 0 && forall i :: 0 <= i < |items| ==> items[i].completed
    ensures ProgressOf(items) == 0 <==> forall i :: 0 <= i < |items| ==> !items[i].completed
  {
    ProgressFullIff(items);
    ProgressZeroIff(items);
  }

  /** A long checklist with one unchecked item is reported as completed. */
  lemma OneUncheckedRoundsUp(items: seq<Item>)
    requires |items| >= 200 && CompletedCount(items) == |items| - 1
    ensures exists i :: 0 <= i < |items| && !items[i].completed
    ensures Derive(items) == (100, "completed")
  {
    ProgressFullIff(items);
  }

  /** A list of more than 200 items with one checked item is reported as
      not started. */
  lemma OneCheckedRoundsDown(items: seq<Item>)
    requires |items| > 200 && CompletedCount(items) == 1
    ensures exists i :: 0 <= i < |items| && items[i].completed
    ensures Derive(items) == (0, "pending")
  {
    ProgressZeroIff(items);
  }

  /** The derived status in terms of the checklist itself: exactly one of
      the three labels, each with its own condition on the counts. */
  lemma DerivedStatusByCounts(items: seq<Item>)
    ensures var n, k, s := |items|, CompletedCount(items), Derive(items).1;
      && (s == "completed" <==> n > 0 && 200 * (n - k) <= n)
      && (s == "pending" <==> n == 0 || 200 * k < n)
      && (s == "in-progress" <==> n > 0 && n <= 200 * k && 200 * (n - k) > n)
  {
    ProgressFullIff(items);
    ProgressZeroIff(items);
  }

  /** The worked example: two of three items checked gives 67, in progress. */
  lemma TwoOfThree()
    ensures Derive([Item("a", true), Item("b", false), Item("c", true)]) == (67, "in-progress")
  {
    var items := [Item("a", true), Item("b", false), Item("c", true)];
    assert items[..2] == [Item("a", true), Item("b", false)];
    assert items[..2][..1] == [Item("a", true)];
    assert CompletedCount(items) == 2;
  }
}
