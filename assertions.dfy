/**
 * `ConcurrentAssertions`: the configuration builder and `shouldNotThrow`, with
 * the threads taken out. The task bodies and the pool together are the input
 * `run`, which says how each work item ends; the timed wait on the completion
 * counter is the input `wait`.
 */
module Assertions {
  import opened Wrappers
  import opened JavaLang
  import opened Failures
  import opened Durations
  import opened Aggregator
  import opened Scheduling

  const DEFAULT_REPETITIONS: int32 := 100
  const DEFAULT_TIMEOUT: Duration := Duration(1, SECONDS)

  /** The default timeout passes the validation it is built with. */
  lemma DefaultTimeoutIsValid()
    ensures NewDuration(1, SECONDS) == Success(DEFAULT_TIMEOUT)
  {
  }

  /**
   * What `shouldNotThrow` reports: a timed-out wait throws its own exception
   * and the captured failures are not looked at; otherwise (completed or
   * interrupted) the captured failures decide.
   */
  function ExpectedVerdict(timeout: Duration, wait: WaitResult, captured: seq<Thrown>): Verdict {
    if wait == TimedOut then Raised(RuntimeException(TimeoutMessage(timeout), None))
    else Report(captured)
  }

  /** A timed-out run reports exactly the timeout message, whatever the tasks threw. */
  lemma TimeoutWins(timeout: Duration, c1: seq<Thrown>, c2: seq<Thrown>)
    requires Valid(timeout)
    ensures ExpectedVerdict(timeout, TimedOut, c1) == ExpectedVerdict(timeout, TimedOut, c2)
    ensures ExpectedVerdict(timeout, TimedOut, c1).Raised?
    ensures ParseTimeoutMessage(ExpectedVerdict(timeout, TimedOut, c1).error.message) == Some(timeout)
    ensures ExpectedVerdict(timeout, TimedOut, c1).error.cause == None
  {
    TimeoutMessageRoundTrip(timeout);
  }

  /** An interrupted wait falls through to `assertNotThrown`, as a completed one does. */
  lemma InterruptedFallsThrough(timeout: Duration, captured: seq<Thrown>)
    ensures ExpectedVerdict(timeout, Interrupted, captured) == ExpectedVerdict(timeout, Completed, captured)
    ensures ExpectedVerdict(timeout, Interrupted, captured) == Report(captured)
  {
  }

  /** When no task throws and the wait does not time out, the run passes, however many repetitions. */
  lemma NoFailuresPass<T>(timeout: Duration, wait: WaitResult, tasks: seq<T>, n: nat, run: WorkItem<T> -> TaskOutcome)
    requires wait != TimedOut
    requires forall k :: 0 <= k < |WorkItems(tasks, n)| ==> run(WorkItems(tasks, n)[k]).Ok?
    ensures ExpectedVerdict(timeout, wait, Captured(WorkItems(tasks, n), run)) == Passed
  {
    CapturedEmptyIffAllOk(WorkItems(tasks, n), run);
  }

  /**
   * When some item throws and the wait does not time out, the run fails with
   * the aggregate exception: its cause is what the earliest failing item
   * threw, and its message starts with the prefix and that failure's rendering.
   */
  lemma FailureNamesEarliest<T>(timeout: Duration, wait: WaitResult, tasks: seq<T>, n: nat,
                                run: WorkItem<T> -> TaskOutcome, k: nat)
    requires wait != TimedOut
    requires k < |WorkItems(tasks, n)| && run(WorkItems(tasks, n)[k]).Throws?
    requires forall k' :: 0 <= k' < k ==> run(WorkItems(tasks, n)[k']).Ok?
    ensures ExpectedVerdict(timeout, wait, Captured(WorkItems(tasks, n), run)).Raised?
    ensures ExpectedVerdict(timeout, wait, Captured(WorkItems(tasks, n), run)).error.cause ==
            Some(run(WorkItems(tasks, n)[k]).failure)
    ensures REPORT_PREFIX + run(WorkItems(tasks, n)[k]).failure.text <=
            ExpectedVerdict(timeout, wait, Captured(WorkItems(tasks, n), run)).error.message
  {
    var captured := Captured(WorkItems(tasks, n), run);
    FirstCapturedIsEarliestFailure(WorkItems(tasks, n), run, k);
    ReportStartsWithFirst(captured);
  }

  /**
   * How often the Java loop `for (int i = 1; i <= nTimes; i++)` runs its body,
   * for `nTimes` below `Integer.MAX_VALUE`: never when `nTimes` is not positive.
   */
  function Repetitions(nTimes: int32): nat {
    if nTimes < 0 then 0 else nTimes
  }

  /** The number of work items the submission loops produce. */
  function ItemCount(size: nat, nTimes: int32): nat {
    size * Repetitions(nTimes)
  }

  /** The loops submit exactly `ItemCount` items, never a negative number. */
  lemma ItemCountIsWorkItems<T>(tasks: seq<T>, nTimes: int32)
    ensures |WorkItems(tasks, Repetitions(nTimes))| == ItemCount(|tasks|, nTimes)
  {
    WorkItemsLength(tasks, Repetitions(nTimes));
  }

  /** The completion counter's start value as Java computes it: the `int` product `tasks.size() * nTimes`. */
  function JavaLatchCount(size: int32, nTimes: int32): (r: int32)
    ensures -0x8000_0000 <= size * nTimes < 0x8000_0000 ==> r == size * nTimes
  {
    Wrap32(size * nTimes)
  }

  /**
   * The Java product wraps: with 2 tasks and 2^30 repetitions the counter
   * would start at `Integer.MIN_VALUE`, which the latch refuses, though
   * 2^31 items are due.
   */
  lemma JavaLatchCountWraps()
    ensures JavaLatchCount(2, 0x4000_0000) == -0x8000_0000
    ensures ItemCount(2, 0x4000_0000) == 0x8000_0000
  {
  }

  /** With no overflow and a non-negative count, the Java counter starts at the number of items. */
  lemma LatchCountIsItemCount(size: int32, nTimes: int32)
    requires size >= 0 && nTimes >= 0 && ItemCount(size, nTimes) < 0x8000_0000
    ensures JavaLatchCount(size, nTimes) == ItemCount(size, nTimes)
  {
  }

  /** The message of the `IllegalArgumentException` the JDK's `CountDownLatch` constructor throws for a negative count. */
  const NEGATIVE_COUNT_MESSAGE: string := "count < 0"

  /** `countDown()`: one less, but never below zero. */
  function CountDown(count: nat): nat {
    if count > 0 then count - 1 else 0
  }

  /** The counter after `k` count-downs from `start`. */
  function AfterCountDowns(start: nat, k: nat): nat {
    if start >= k then start - k else 0
  }

  /** One more count-down is one more step of `CountDown`. */
  lemma AfterOneMoreCountDown(start: nat, k: nat)
    ensures AfterCountDowns(start, k + 1) == CountDown(AfterCountDowns(start, k))
  {
  }

  /** Count-downs in two batches leave the counter where the batches together would. */
  lemma AfterCountDownBatches(start: nat, a: nat, b: nat)
    ensures AfterCountDowns(AfterCountDowns(start, a), b) == AfterCountDowns(start, a + b)
  {
  }

  /**
   * When the counter starts at the number of items, it is zero after every
   * item counted down once, and not before.
   */
  lemma CounterEndsAtZero(items: nat, k: nat)
    requires k <= items
    ensures AfterCountDowns(items, k) == 0 <==> k == items
  {
  }

  /**
   * How the wait on the counter ends: `CountDownLatch.await` returns at once
   * when the count is already zero, so only a non-zero count can time out.
   */
  function WaitFor(count: int, wait: WaitResult): (r: WaitResult)
    ensures count == 0 ==> r == Completed
    ensures count != 0 ==> r == wait
  {
    if count == 0 then Completed else wait
  }

  /**
   * A run with nothing to submit, because `nTimes` is zero or there are no
   * tasks, passes: the latch starts at zero, so the wait completes at once,
   * and nothing was captured. With no tasks and `nTimes == Integer.MAX_VALUE`
   * the outer loop's counter wraps and the loop never ends, so that case is
   * excluded.
   */
  lemma NothingToRunPasses<T>(timeout: Duration, wait: WaitResult, tasks: seq<T>, nTimes: int32, run: WorkItem<T> -> TaskOutcome)
    requires |tasks| < 0x8000_0000
    requires nTimes == 0 || (|tasks| == 0 && nTimes < 0x7fff_ffff)
    ensures JavaLatchCount(|tasks|, nTimes) == 0 && ItemCount(|tasks|, nTimes) == 0
    ensures ExpectedVerdict(timeout, WaitFor(JavaLatchCount(|tasks|, nTimes), wait),
                            Captured(WorkItems(tasks, Repetitions(nTimes)), run)) == Passed
  {
    ItemCountIsWorkItems(tasks, nTimes);
  }

  class ConcurrentAssertions<T> {
    const tasks: seq<T>
    var nTimes: int32
    var timeout: Duration

    /** The timeout always holds a validated duration. */
    ghost predicate Valid()
      reads this
    {
      Durations.Valid(timeout)
    }

    /** The private constructor, with the field initialisers. */
    constructor (tasks: seq<T>)
      ensures Valid()
      ensures this.tasks == tasks && nTimes == DEFAULT_REPETITIONS && timeout == DEFAULT_TIMEOUT
    {
      this.tasks := tasks;
      nTimes := DEFAULT_REPETITIONS;
      timeout := DEFAULT_TIMEOUT;
    }

    /** `assertConcurrently(tasks...)`: a fresh configuration with the given tasks in order and the defaults. */
    static method AssertConcurrently(tasks: seq<T>) returns (c: ConcurrentAssertions<T>)
      ensures fresh(c) && c.Valid()
      ensures c.tasks == tasks && c.nTimes == DEFAULT_REPETITIONS && c.timeout == DEFAULT_TIMEOUT
    {
      c := new ConcurrentAssertions(tasks);
    }

    /** `repeatedCalls(n)`: replaces the repetition count only, and returns the same object. */
    method RepeatedCalls(n: int32) returns (self: ConcurrentAssertions<T>)
      requires Valid()
      modifies this`nTimes
      ensures Valid() && self == this
      ensures nTimes == n && timeout == old(timeout)
    {
      nTimes := n;
      self := this;
    }

    /**
     * `timeoutAfter(amount, unit)`: a non-positive amount throws before the
     * assignment, leaving the configuration as it was; otherwise replaces the
     * timeout only, and returns the same object.
     */
    method TimeoutAfter(amount: int64, unit: TimeUnit) returns (r: Result<ConcurrentAssertions<T>, Error>)
      requires Valid()
      modifies this`timeout
      ensures Valid() && nTimes == old(nTimes)
      ensures r.Failure? <==> amount <= 0
      ensures r.Failure? ==> r.error == IllegalArgumentException(NON_POSITIVE_MESSAGE) && timeout == old(timeout)
      ensures r.Success? ==> r.value == this && timeout == Duration(amount, unit)
    {
      var d := NewDuration(amount, unit);
      if d.Failure? {
        return Failure(d.error);
      }
      timeout := d.value;
      r := Success(this);
    }

    /**
     * The submission loops of `shouldNotThrow`: every (repetition, task) item
     * in order, into a collection that starts empty, with the completion
     * counter starting at `counter`. Returns the counter once every item has
     * run. Iteration `i` of the loop below is repetition `i + 1` in the Java
     * loop, which counts from 1.
     */
    method Submit(exceptions: ThrownExceptions, run: WorkItem<T> -> TaskOutcome, counter: nat) returns (remaining: nat)
      requires exceptions.exceptions == []
      modifies exceptions
      ensures remaining == AfterCountDowns(counter, ItemCount(|tasks|, nTimes))
      ensures counter == ItemCount(|tasks|, nTimes) ==> remaining == 0
      ensures exceptions.exceptions == Captured(WorkItems(tasks, Repetitions(nTimes)), run)
    {
      var n := Repetitions(nTimes);
      remaining := counter;
      for i := 0 to n
        invariant remaining == AfterCountDowns(counter, |WorkItems(tasks, i)|)
        invariant exceptions.exceptions == CapturedRepetitions(tasks, run, i)
      {
        remaining := SubmitRepetition(exceptions, run, i + 1, remaining);
        AfterCountDownBatches(counter, |WorkItems(tasks, i)|, |tasks|);
        assert |WorkItems(tasks, i + 1)| == |WorkItems(tasks, i)| + |tasks|;
      }
      CapturedRepetitionsInOrder(tasks, run, n);
      ItemCountIsWorkItems(tasks, nTimes);
    }

    /**
     * The inner loop for repetition `i`: each task's item appends what it
     * throws (the `catch`) and counts the completion counter down once (the
     * `finally`), whether it threw or not.
     */
    method SubmitRepetition(exceptions: ThrownExceptions, run: WorkItem<T> -> TaskOutcome, i: nat, counter: nat)
      returns (remaining: nat)
      requires i >= 1
      modifies exceptions
      ensures remaining == AfterCountDowns(counter, |tasks|)
      ensures exceptions.exceptions == old(exceptions.exceptions) + Captured(Round(tasks, i), run)
    {
      remaining := counter;
      ghost var before := exceptions.exceptions;
      ghost var round := Round(tasks, i);
      for j := 0 to |tasks|
        invariant remaining == AfterCountDowns(counter, j)
        invariant exceptions.exceptions == before + Captured(round[..j], run)
      {
        var item := WorkItem(i, j, tasks[j]);
        var outcome := run(item);
        ghost var cur := exceptions.exceptions;
        if outcome.Throws? {
          exceptions.Add(outcome.failure);
        }
        CaptureNext(round, j, run, before, cur, exceptions.exceptions);
        AfterOneMoreCountDown(counter, j);
        remaining := CountDown(remaining);
      }
      assert round[..|tasks|] == round;
    }

    /** `await(finished)`: only a timed-out wait throws; an interrupted one returns normally. */
    function Await(wait: WaitResult): (r: Option<Error>)
      reads this
      ensures r.Some? <==> wait == TimedOut
      ensures r.Some? ==> r.value.RuntimeException? && r.value.message == TimeoutMessage(timeout) && r.value.cause == None
    {
      if wait == TimedOut then Some(RuntimeException(TimeoutMessage(timeout), None)) else None
    }

    /**
     * `shouldNotThrow`: creates the completion counter with the `int` product
     * of the task count and `nTimes`, which the latch refuses when negative;
     * otherwise submits every item, waits, and reports the timeout or the
     * captured failures. The configuration is left as it was. The verdict is
     * stated for runs of at most `Integer.MAX_VALUE` items and with `nTimes`
     * below `Integer.MAX_VALUE`.
     */
    method ShouldNotThrow(run: WorkItem<T> -> TaskOutcome, wait: WaitResult) returns (v: Verdict)
      requires Valid() && |tasks| < 0x8000_0000
      ensures JavaLatchCount(|tasks|, nTimes) < 0 ==> v == Raised(IllegalArgumentException(NEGATIVE_COUNT_MESSAGE))
      ensures JavaLatchCount(|tasks|, nTimes) >= 0 && nTimes < 0x7fff_ffff && ItemCount(|tasks|, nTimes) < 0x8000_0000 ==>
                v == ExpectedVerdict(timeout, WaitFor(JavaLatchCount(|tasks|, nTimes), wait),
                                     Captured(WorkItems(tasks, Repetitions(nTimes)), run))
      ensures nTimes == 0 || (|tasks| == 0 && nTimes < 0x7fff_ffff) ==> v == Passed
    {
      var latch := JavaLatchCount(|tasks|, nTimes);
      if latch < 0 {
        return Raised(IllegalArgumentException(NEGATIVE_COUNT_MESSAGE));
      }
      if nTimes == 0 || (|tasks| == 0 && nTimes < 0x7fff_ffff) {
        NothingToRunPasses(timeout, wait, tasks, nTimes, run);
      }
      var exceptions := new ThrownExceptions();
      var remaining := Submit(exceptions, run, latch);
      var timedOut := Await(WaitFor(latch, wait));
      if timedOut.Some? {
        return Raised(timedOut.value);
      }
      v := exceptions.AssertNotThrown();
    }
  }
}
