/**
 * What the page derives from its task list on every render: the visible
 * subset for the chosen filter, the done / left counts, the completion
 * percentage and the task it suggests to focus on.
 */
module TaskView {
  import opened Wrappers
  import opened TaskTypes

  datatype Filter = All | Active | Completed

  /** The filter callback: which tasks a filter lets through. */
  predicate Shows(f: Filter, t: Task) {
    match f
    case Active => !t.completed
    case Completed => t.completed
    case All => true
  }

  /** `tasks.filter(...)` for the selected filter. */
  function FilterTasks(tasks: seq<Task>, f: Filter): (r: seq<Task>)
    ensures |r| <= |tasks|
    ensures forall t :: t in r <==> t in tasks && Shows(f, t)
    ensures (forall i :: 0 <= i < |tasks| ==> Shows(f, tasks[i])) ==> r == tasks
    ensures (forall i :: 0 <= i < |tasks| ==> !Shows(f, tasks[i])) ==> r == []
    ensures f == All ==> r == tasks
  {
    if tasks == [] then []
    else
      var rest := FilterTasks(tasks[1..], f);
      assert tasks == [tasks[0]] + tasks[1..];
      if Shows(f, tasks[0]) then [tasks[0]] + rest else rest
  }

  /** Filtering a concatenation filters each part in place: the list order is kept. */
  lemma {:induction false} FilterAppend(a: seq<Task>, b: seq<Task>, f: Filter)
    ensures FilterTasks(a + b, f) == FilterTasks(a, f) + FilterTasks(b, f)
  {
    if a == [] {
      assert a + b == b;
    } else {
      var head := if Shows(f, a[0]) then [a[0]] else [];
      assert a + b == [a[0]] + (a[1..] + b);
      assert a == [a[0]] + a[1..];
      calc {
        FilterTasks(a + b, f);
      == { FilterCons(a[0], a[1..] + b, f); }
        head + FilterTasks(a[1..] + b, f);
      == { FilterAppend(a[1..], b, f); }
        head + (FilterTasks(a[1..], f) + FilterTasks(b, f));
      == { AppendAssociative(head, FilterTasks(a[1..], f), FilterTasks(b, f)); }
        (head + FilterTasks(a[1..], f)) + FilterTasks(b, f);
      == { FilterCons(a[0], a[1..], f); }
        FilterTasks(a, f) + FilterTasks(b, f);
      }
    }
  }

  lemma AppendAssociative(x: seq<Task>, y: seq<Task>, z: seq<Task>)
    ensures x + (y + z) == (x + y) + z
  {
  }

  /** One step of the filter: the head is kept exactly when the filter shows it. */
  lemma FilterCons(t: Task, rest: seq<Task>, f: Filter)
    ensures FilterTasks([t] + rest, f) == (if Shows(f, t) then [t] else []) + FilterTasks(rest, f)
  {
    var s := [t] + rest;
    assert s[0] == t && s[1..] == rest;
  }

  /** Filtering twice with the same filter changes nothing more. */
  lemma {:induction false} FilterIdempotent(tasks: seq<Task>, f: Filter)
    ensures FilterTasks(FilterTasks(tasks, f), f) == FilterTasks(tasks, f)
  {
    if tasks != [] {
      FilterIdempotent(tasks[1..], f);
    }
  }

  /**
   * Active and Completed split the list: every task lands in exactly one of
   * them, with its multiplicity, so their lengths add up to the whole.
   */
  lemma {:induction false} ActiveCompletedPartition(tasks: seq<Task>)
    ensures multiset(FilterTasks(tasks, Active)) + multiset(FilterTasks(tasks, Completed)) == multiset(tasks)
    ensures |FilterTasks(tasks, Active)| + |FilterTasks(tasks, Completed)| == |tasks|
  {
    if tasks != [] {
      ActiveCompletedPartition(tasks[1..]);
      assert tasks == [tasks[0]] + tasks[1..];
    }
  }

  /** The positions of the completed tasks: an independent way to count them. */
  function CompletedPositions(tasks: seq<Task>): set<int> {
    set i | 0 <= i < |tasks| && tasks[i].completed
  }

  /** `completedCount = tasks.filter(t => t.completed).length` */
  function CompletedCount(tasks: seq<Task>): (r: nat)
    ensures r <= |tasks|
  {
    |FilterTasks(tasks, Completed)|
  }

  /** `activeCount = tasks.length - completedCount`, never negative, and equal to the Active bucket's size. */
  function ActiveCount(tasks: seq<Task>): (r: nat)
    ensures r + CompletedCount(tasks) == |tasks|
    ensures r == |FilterTasks(tasks, Active)|
  {
    ActiveCompletedPartition(tasks);
    |tasks| - CompletedCount(tasks)
  }

  /** The completed count is the number of positions holding a completed task. */
  lemma {:induction false} CompletedCountByPositions(tasks: seq<Task>)
    ensures CompletedCount(tasks) == |CompletedPositions(tasks)|
  {
    if tasks != [] {
      var n := |tasks| - 1;
      var init, last := tasks[..n], tasks[n];
      assert tasks == init + [last];
      FilterAppend(init, [last], Completed);
      assert CompletedCount(tasks) == CompletedCount(init) + if last.completed then 1 else 0;
      CompletedCountByPositions(init);
      PositionsOfAppend(init, last);
    }
  }

  lemma PositionsOfAppend(init: seq<Task>, last: Task)
    ensures |CompletedPositions(init + [last])| == |CompletedPositions(init)| + if last.completed then 1 else 0
  {
    var n, tasks, prev := |init|, init + [last], CompletedPositions(init);
    assert forall i :: 0 <= i < n ==> tasks[i] == init[i];
    if last.completed {
      assert CompletedPositions(tasks) == prev + {n};
    } else {
      assert CompletedPositions(tasks) == prev;
    }
  }

  /**
   * `progress`: `Math.round(completedCount / tasks.length * 100)`, or 0 for an
   * empty list, as exact half-up rounding: the result is the whole percentage
   * nearest to the exact ratio, halves going up.
   */
  function Progress(tasks: seq<Task>): (p: nat)
    ensures p <= 100
    ensures |tasks| == 0 ==> p == 0
    ensures |tasks| > 0 ==>
      2 * |tasks| * p <= 200 * CompletedCount(tasks) + |tasks| < 2 * |tasks| * (p + 1)
  {
    if |tasks| == 0 then 0 else RoundedPercent(CompletedCount(tasks), |tasks|)
  }

  /** `Math.round(c / n * 100)` for `0 < n` and `c <= n`, with halves rounded up. */
  function RoundedPercent(c: nat, n: nat): (p: nat)
    requires 0 < n && c <= n
    ensures p <= 100
    ensures 2 * n * p <= 200 * c + n < 2 * n * (p + 1)
  {
    RoundHalfUp(200 * c + n, 2 * n);
    RoundHalfUpBounded(c, n);
    (200 * c + n) / (2 * n)
  }

  /** Euclidean division is pinned down by its bracketing multiples. */
  lemma RoundHalfUp(a: nat, b: nat)
    requires b > 0
    ensures b * (a / b) <= a < b * (a / b + 1)
  {
  }

  lemma MulMonotone(b: nat, x: int, y: int)
    requires x <= y
    ensures b * x <= b * y
  {
  }

  lemma DivUnique(a: nat, b: nat, q: int)
    requires b > 0 && b * q <= a < b * (q + 1)
    ensures a / b == q
  {
    var d := a / b;
    RoundHalfUp(a, b);
    if d > q {
      MulMonotone(b, q + 1, d);
    } else if d < q {
      MulMonotone(b, d + 1, q);
    }
  }

  lemma RoundHalfUpBounded(c: nat, n: nat)
    requires 0 < n && c <= n
    ensures (200 * c + n) / (2 * n) <= 100
  {
    var q := (200 * c + n) / (2 * n);
    RoundHalfUp(200 * c + n, 2 * n);
    if q > 100 {
      MulMonotone(2 * n, 101, q);
    }
  }

  /** A non-empty list with every task done shows 100%. */
  lemma ProgressAllDone(tasks: seq<Task>)
    requires |tasks| > 0
    requires forall i :: 0 <= i < |tasks| ==> tasks[i].completed
    ensures Progress(tasks) == 100
  {
    var n := |tasks|;
    assert forall i :: 0 <= i < n ==> Shows(Completed, tasks[i]);
    assert CompletedCount(tasks) == n;
    assert Progress(tasks) == (201 * n) / (2 * n);
    DivUnique(201 * n, 2 * n, 100);
  }

  /** A list with no task done shows 0%. */
  lemma ProgressNoneDone(tasks: seq<Task>)
    requires forall i :: 0 <= i < |tasks| ==> !tasks[i].completed
    ensures Progress(tasks) == 0
  {
    var n := |tasks|;
    assert forall i :: 0 <= i < n ==> !Shows(Completed, tasks[i]);
    assert CompletedCount(tasks) == 0;
    if n > 0 {
      assert Progress(tasks) == n / (2 * n);
      DivUnique(n, 2 * n, 0);
    }
  }

  /** Completing more tasks of the same list never lowers the percentage. */
  lemma ProgressMonotone(before: seq<Task>, after: seq<Task>)
    requires |before| == |after|
    requires CompletedCount(before) <= CompletedCount(after)
    ensures Progress(before) <= Progress(after)
  {
    var n := |before|;
    var p, q := Progress(before), Progress(after);
    if n > 0 && p > q {
      MulMonotone(2 * n, q + 1, p);
    }
  }

  /** `tasks.find(t => !t.completed)`: the first task in list order that is not done. */
  function FirstIncomplete(tasks: seq<Task>): (r: Option<Task>)
    ensures r.None? <==> forall i :: 0 <= i < |tasks| ==> tasks[i].completed
    ensures r.Some? ==> exists i :: 0 <= i < |tasks| && tasks[i] == r.value && IsFirstIncomplete(tasks, i)
  {
    if tasks == [] then None
    else if !tasks[0].completed then
      assert IsFirstIncomplete(tasks, 0);
      Some(tasks[0])
    else
      var r := FirstIncomplete(tasks[1..]);
      assert r.Some? ==> exists i :: 0 <= i < |tasks| && tasks[i] == r.value && IsFirstIncomplete(tasks, i) by {
        if r.Some? {
          var j :| 0 <= j < |tasks| - 1 && tasks[1..][j] == r.value && IsFirstIncomplete(tasks[1..], j);
          assert IsFirstIncomplete(tasks, j + 1);
        }
      }
      r
  }

  /** Position `i` holds an incomplete task and every task before it is done. */
  predicate IsFirstIncomplete(tasks: seq<Task>, i: int) {
    0 <= i < |tasks| && !tasks[i].completed && forall j :: 0 <= j < i ==> tasks[j].completed
  }

  /** The first incomplete task is the head of the Active bucket. */
  lemma {:induction false} FirstIncompleteHeadsActive(tasks: seq<Task>)
    ensures FirstIncomplete(tasks) == if FilterTasks(tasks, Active) == [] then None else Some(FilterTasks(tasks, Active)[0])
  {
    if tasks != [] && tasks[0].completed {
      FirstIncompleteHeadsActive(tasks[1..]);
    }
  }

  const FallbackFocus: string := "your pending task"

  /**
   * The summary's focus: `tasks.find(t => !t.completed)?.title || "your pending task"`.
   * An empty title is falsy, so it too gives the fallback.
   */
  function FocusTitle(tasks: seq<Task>): (r: string)
    ensures r != []
    ensures forall i :: IsFirstIncomplete(tasks, i) ==>
      r == if tasks[i].title != [] then tasks[i].title else FallbackFocus
    ensures (forall i :: 0 <= i < |tasks| ==> tasks[i].completed) ==> r == FallbackFocus
  {
    var first := FirstIncomplete(tasks);
    if first.Some? && first.value.title != [] then first.value.title else FallbackFocus
  }
}
