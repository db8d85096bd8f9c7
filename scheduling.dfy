/**
 * The work items `shouldNotThrow` submits, and which failures running them
 * captures. The thread pool and the start barrier are not modelled: the
 * outcome of running an item is given by the caller as `run`.
 */
module Scheduling {
  import opened Failures

  /** One submission: the `repetition`-th call (from 1) of the task at `index` in the task list. */
  datatype WorkItem<T> = WorkItem(repetition: nat, index: nat, task: T)

  /** What running a task's body did: returned, or threw `failure`. */
  datatype TaskOutcome = Ok | Throws(failure: Thrown)

  /** How the wait on the completion counter ended. */
  datatype WaitResult = Completed | TimedOut | Interrupted

  /** The items of one repetition: every task, in list order. */
  function Round<T>(tasks: seq<T>, repetition: nat): (r: seq<WorkItem<T>>)
    ensures |r| == |tasks|
    ensures forall j :: 0 <= j < |tasks| ==> r[j] == WorkItem(repetition, j, tasks[j])
  {
    seq(|tasks|, j requires 0 <= j < |tasks| => WorkItem(repetition, j, tasks[j]))
  }

  /** The items of repetitions 1 to `n`, in submission order. */
  function WorkItems<T>(tasks: seq<T>, n: nat): seq<WorkItem<T>>
    decreases n
  {
    if n == 0 then [] else WorkItems(tasks, n - 1) + Round(tasks, n)
  }

  /** `a` is submitted before `b`: an earlier repetition, or the same one and an earlier task. */
  predicate Precedes<T>(a: WorkItem<T>, b: WorkItem<T>) {
    a.repetition < b.repetition || (a.repetition == b.repetition && a.index < b.index)
  }

  lemma MulStep(n: nat, m: nat)
    requires n >= 1
    ensures (n - 1) * m + m == n * m
  {
  }

  lemma MulMonotone(a: nat, b: nat, m: nat)
    requires a <= b
    ensures a * m <= b * m
  {
  }

  /** There are `n * |tasks|` items. */
  lemma {:induction false} WorkItemsLength<T>(tasks: seq<T>, n: nat)
    ensures |WorkItems(tasks, n)| == n * |tasks|
  {
    if n > 0 {
      WorkItemsLength(tasks, n - 1);
      MulStep(n, |tasks|);
    }
  }

  /** Every item is a repetition in 1..n of a task at its index in the list. */
  lemma {:induction false} WorkItemsWellFormed<T>(tasks: seq<T>, n: nat, k: nat)
    requires k < |WorkItems(tasks, n)|
    ensures 1 <= WorkItems(tasks, n)[k].repetition <= n
    ensures WorkItems(tasks, n)[k].index < |tasks|
    ensures WorkItems(tasks, n)[k].task == tasks[WorkItems(tasks, n)[k].index]
  {
    var prev := WorkItems(tasks, n - 1);
    if k < |prev| {
      WorkItemsWellFormed(tasks, n - 1, k);
    }
  }

  /**
   * Repetition-major order: the call of task `j` in repetition `r` is item
   * number `(r - 1) * |tasks| + j`.
   */
  lemma {:induction false} WorkItemAt<T>(tasks: seq<T>, n: nat, r: nat, j: nat)
    requires 1 <= r <= n && j < |tasks|
    ensures (r - 1) * |tasks| + j < |WorkItems(tasks, n)|
    ensures WorkItems(tasks, n)[(r - 1) * |tasks| + j] == WorkItem(r, j, tasks[j])
  {
    var m := |tasks|;
    WorkItemsLength(tasks, n - 1);
    WorkItemsLength(tasks, n);
    MulStep(n, m);
    if r < n {
      MulMonotone(r, n - 1, m);
      MulStep(r, m);
      WorkItemAt(tasks, n - 1, r, j);
    }
  }

  /** Items are submitted in strictly increasing (repetition, index) order, so none is submitted twice. */
  lemma {:induction false} WorkItemsOrdered<T>(tasks: seq<T>, n: nat, k1: nat, k2: nat)
    requires k1 < k2 < |WorkItems(tasks, n)|
    ensures Precedes(WorkItems(tasks, n)[k1], WorkItems(tasks, n)[k2])
  {
    var prev := WorkItems(tasks, n - 1);
    if k2 < |prev| {
      WorkItemsOrdered(tasks, n - 1, k1, k2);
    } else if k1 < |prev| {
      WorkItemsWellFormed(tasks, n - 1, k1);
    }
  }

  /** What the `catch` clause adds to the collection for one item. */
  function CaptureOf(o: TaskOutcome): seq<Thrown> {
    if o.Throws? then [o.failure] else []
  }

  /** The failures captured by running `items` in order. */
  function Captured<T>(items: seq<WorkItem<T>>, run: WorkItem<T> -> TaskOutcome): seq<Thrown>
    decreases |items|
  {
    if items == [] then []
    else Captured(items[..|items| - 1], run) + CaptureOf(run(items[|items| - 1]))
  }

  /** Running one more item captures what its own outcome throws, after the earlier ones. */
  lemma CapturedAppend<T>(items: seq<WorkItem<T>>, item: WorkItem<T>, run: WorkItem<T> -> TaskOutcome)
    ensures Captured(items + [item], run) == Captured(items, run) + CaptureOf(run(item))
  {
    assert (items + [item])[..|items|] == items;
  }

  /** Running two batches in sequence captures the first batch's failures, then the second's. */
  lemma {:induction false} CapturedConcat<T>(a: seq<WorkItem<T>>, b: seq<WorkItem<T>>, run: WorkItem<T> -> TaskOutcome)
    ensures Captured(a + b, run) == Captured(a, run) + Captured(b, run)
    decreases |b|
  {
    if b == [] {
      assert a + b == a;
    } else {
      var init, last := b[..|b| - 1], b[|b| - 1];
      assert a + b == (a + init) + [last];
      assert b == init + [last];
      CapturedAppend(a + init, last, run);
      CapturedAppend(init, last, run);
      CapturedConcat(a, init, run);
    }
  }

  /**
   * A collection that held `before` and the failures of `items[..j]`, and then
   * received what running `items[j]` throws, holds `before` and the failures of `items[..j + 1]`.
   */
  lemma CaptureNext<T>(items: seq<WorkItem<T>>, j: nat, run: WorkItem<T> -> TaskOutcome,
                       before: seq<Thrown>, cur: seq<Thrown>, post: seq<Thrown>)
    requires j < |items|
    requires cur == before + Captured(items[..j], run)
    requires run(items[j]).Throws? ==> post == cur + [run(items[j]).failure]
    requires run(items[j]).Ok? ==> post == cur
    ensures post == before + Captured(items[..j + 1], run)
  {
    assert items[..j + 1] == items[..j] + [items[j]];
    CapturedAppend(items[..j], items[j], run);
  }

  /** The failures captured by repetitions 1 to `n`, one repetition after another. */
  function CapturedRepetitions<T>(tasks: seq<T>, run: WorkItem<T> -> TaskOutcome, n: nat): seq<Thrown>
    decreases n
  {
    if n == 0 then [] else CapturedRepetitions(tasks, run, n - 1) + Captured(Round(tasks, n), run)
  }

  /** Capturing repetition by repetition is capturing all items in submission order. */
  lemma {:induction false} CapturedRepetitionsInOrder<T>(tasks: seq<T>, run: WorkItem<T> -> TaskOutcome, n: nat)
    ensures CapturedRepetitions(tasks, run, n) == Captured(WorkItems(tasks, n), run)
  {
    if n > 0 {
      CapturedRepetitionsInOrder(tasks, run, n - 1);
      CapturedConcat(WorkItems(tasks, n - 1), Round(tasks, n), run);
    }
  }

  /** The positions of the failing items, ascending: the reference for what is captured. */
  function FailingPositions<T>(items: seq<WorkItem<T>>, run: WorkItem<T> -> TaskOutcome): (r: seq<nat>)
    ensures forall i :: 0 <= i < |r| ==> r[i] < |items| && run(items[r[i]]).Throws?
    ensures forall i, i' :: 0 <= i < i' < |r| ==> r[i] < r[i']
    ensures forall k :: 0 <= k < |items| && run(items[k]).Throws? ==> k in r
    decreases |items|
  {
    if items == [] then []
    else
      var last := |items| - 1;
      var earlier := FailingPositions(items[..last], run);
      if run(items[last]).Throws? then earlier + [last] else earlier
  }

  /**
   * One captured entry per failing item, in item order: the `i`-th captured
   * failure is what the `i`-th failing item threw.
   */
  lemma {:induction false} CapturedOnePerFailure<T>(items: seq<WorkItem<T>>, run: WorkItem<T> -> TaskOutcome)
    ensures |Captured(items, run)| == |FailingPositions(items, run)|
    ensures forall i :: 0 <= i < |Captured(items, run)| ==>
              Captured(items, run)[i] == run(items[FailingPositions(items, run)[i]]).failure
  {
    if items != [] {
      var last := |items| - 1;
      CapturedOnePerFailure(items[..last], run);
    }
  }

  /** Nothing is captured exactly when every item returns normally. */
  lemma CapturedEmptyIffAllOk<T>(items: seq<WorkItem<T>>, run: WorkItem<T> -> TaskOutcome)
    ensures Captured(items, run) == [] <==> forall k :: 0 <= k < |items| ==> run(items[k]).Ok?
  {
    CapturedOnePerFailure(items, run);
    var p := FailingPositions(items, run);
    if p != [] {
      assert run(items[p[0]]).Throws?;
    }
  }

  /** If some item fails, the first captured failure is the one thrown by the earliest failing item. */
  lemma FirstCapturedIsEarliestFailure<T>(items: seq<WorkItem<T>>, run: WorkItem<T> -> TaskOutcome, k: nat)
    requires k < |items| && run(items[k]).Throws?
    requires forall k' :: 0 <= k' < k ==> run(items[k']).Ok?
    ensures Captured(items, run) != [] && Captured(items, run)[0] == run(items[k]).failure
  {
    CapturedOnePerFailure(items, run);
    var p := FailingPositions(items, run);
    assert k in p;
  }
}
