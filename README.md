# polypus `ConcurrentAssertions`, modelled in Dafny

polypus is a small Java test harness. `assertConcurrently(tasks...)` builds a
configuration. `repeatedCalls(n)` and `timeoutAfter(amount, unit)` adjust it.
`shouldNotThrow()` submits every task `nTimes` times to a thread pool. It
captures whatever the tasks throw and waits, with a timeout, for the
completion counter to reach zero. It then fails with a timeout message, or with
one aggregate exception naming every captured failure, or passes.

This project models that class with the threads taken out:

- `Durations`: the validating `Duration` value, the `TimeUnit` names, and the
  timeout message. A parser reads the amount and the unit back out of the
  message, which proves that the message names them exactly.
- `Aggregator`: the private `ThrownExceptions` class as a Dafny class with a
  `seq` field. `Report` is the function that specifies `assertNotThrown`.
- `Scheduling`: the work items the nested submission loops produce
  (`WorkItems`), and the failures that running them captures (`Captured`).
  `FailingPositions` is an independent reference for `Captured`.
- `Assertions`: the `ConcurrentAssertions` class. Its fields are `tasks`,
  `nTimes` and `timeout`. It has the chaining setters, the submission loops as
  methods with loop invariants, `await`, and `shouldNotThrow`. `ExpectedVerdict`
  states what `shouldNotThrow` reports.
- `JavaLang`: the pieces of the Java platform whose exact behaviour shows in
  the results. These are `int`/`long`, 32-bit wrap-around, `toLowerCase`,
  `Long.toString` and `Collectors.joining`.
- `Failures` and `Wrappers`: shared value types, namely captured failures,
  exceptions, verdicts, `Option` and `Result`.

A task is a value of a type parameter `T`. Two things the harness cannot see
become inputs:

- how each submitted work item ends. This is the function
  `run: WorkItem<T> -> TaskOutcome`: the item returns, or it throws a failure
  with a given `toString` rendering.
- how the timed wait on the completion counter ends: `Completed`, `TimedOut`
  or `Interrupted`.

Java exceptions thrown by the setters and by `shouldNotThrow` become returned
values (`Result`, `Verdict`).

## Model

| member | source | states |
|---|---|---|
| `Durations.NewDuration` | src/main/java/com/kanbagoly/polypus/ConcurrentAssertions.java:115-121 | It fails exactly when `amount <= 0`, with `IllegalArgumentException("Timeout must have positive value")`. Otherwise the duration holds `amount` and `unit` unchanged, and its amount is positive. |
| `Durations.Name` | src/main/java/com/kanbagoly/polypus/ConcurrentAssertions.java:81 | `TimeUnit.name()`, the constant's identifier. `LowerCasedName` proves its lower-case form is the unit's spelling. |
| `Durations.LowerCasedName` | src/main/java/com/kanbagoly/polypus/ConcurrentAssertions.java:81 | `name().toLowerCase()` of each `TimeUnit` is that unit's lower-case spelling. |
| `Durations.TimeoutMessage` | src/main/java/com/kanbagoly/polypus/ConcurrentAssertions.java:81-82 | The message `await` throws on a timeout. `TimeoutMessageSpelled`, `TimeoutMessageRoundTrip` and `TimeoutMessageInjective` carry its properties. |
| `Durations.TimeoutMessageSpelled` | src/main/java/com/kanbagoly/polypus/ConcurrentAssertions.java:81-82 | The timeout message of a valid duration is `"Timeout after "`, the amount in decimal, a space, and the unit's lower-case spelling. |
| `Durations.TimeoutMessageRoundTrip` | src/main/java/com/kanbagoly/polypus/ConcurrentAssertions.java:80-82 | Parsing the timeout message of any valid duration gives that duration back, both amount and unit. |
| `Durations.TimeoutMessageInjective` | src/main/java/com/kanbagoly/polypus/ConcurrentAssertions.java:80-82 | Two valid timeouts with the same message are equal. |
| `Durations.OneMillisecondMessage` | src/main/java/com/kanbagoly/polypus/ConcurrentAssertions.java:82 | A one-millisecond timeout reports exactly `"Timeout after 1 milliseconds"`. |
| `JavaLang.ToLower` | src/main/java/com/kanbagoly/polypus/ConcurrentAssertions.java:81 | Each character is lower-cased in place: the length is kept, and no upper-case letter remains. |
| `JavaLang.Decimal` | src/main/java/com/kanbagoly/polypus/ConcurrentAssertions.java:82 | The rendering of a `long` amount is non-empty and all digits, and it has a leading zero only for 0. |
| `JavaLang.DecimalRoundTrip` | src/main/java/com/kanbagoly/polypus/ConcurrentAssertions.java:82 | Reading the decimal rendering of `n` back gives `n`. |
| `JavaLang.LongToString` | src/main/java/com/kanbagoly/polypus/ConcurrentAssertions.java:82 | How string concatenation renders a `long`. For a positive amount it is `Decimal`, which `DecimalRoundTrip` inverts. |
| `JavaLang.Join` | src/main/java/com/kanbagoly/polypus/ConcurrentAssertions.java:106 | `Collectors.joining(sep)`: the parts in order, with `sep` between neighbours. `JoinAppend`, `JoinCons` and `JoinStartsWithFirst` carry its properties. |
| `JavaLang.JoinAppend` | src/main/java/com/kanbagoly/polypus/ConcurrentAssertions.java:106 | `joining(", ")` with one more part appends the separator and that part. |
| `JavaLang.JoinCons` | src/main/java/com/kanbagoly/polypus/ConcurrentAssertions.java:106 | Joining a first part before the rest gives that part, the separator, then the rest joined. |
| `JavaLang.JoinStartsWithFirst` | src/main/java/com/kanbagoly/polypus/ConcurrentAssertions.java:106 | The joined string begins with the first part. |
| `JavaLang.Wrap32` | src/main/java/com/kanbagoly/polypus/ConcurrentAssertions.java:48 | A Java `int` result is congruent to the exact value modulo 2^32, and equals it when it fits. |
| `Aggregator.Renderings` | src/main/java/com/kanbagoly/polypus/ConcurrentAssertions.java:106 | `map(Throwable::toString)` keeps the list's length and order: element `i` is the rendering of failure `i`. |
| `Aggregator.Report` | src/main/java/com/kanbagoly/polypus/ConcurrentAssertions.java:102-108 | What `assertNotThrown` decides for a list of captured failures. `ReportPassesIffEmpty`, `ReportStartsWithFirst`, `ReportSingle` and `ReportAfterAdd` carry its properties. |
| `Aggregator.ReportPassesIffEmpty` | src/main/java/com/kanbagoly/polypus/ConcurrentAssertions.java:102-108 | `assertNotThrown` passes exactly when the list is empty. Otherwise it raises a `RuntimeException` whose cause is element 0. |
| `Aggregator.ReportStartsWithFirst` | src/test/java/com/kanbagoly/polypus/ConcurrentAssertionsTest.java:28-31 | A failing `assertNotThrown`'s message starts with the fixed prefix followed by the first failure's rendering. |
| `Aggregator.ReportSingle` | src/main/java/com/kanbagoly/polypus/ConcurrentAssertions.java:104-107 | One captured failure is reported as the prefix plus its rendering alone, with that failure as cause. |
| `Aggregator.ReportAfterAdd` | src/main/java/com/kanbagoly/polypus/ConcurrentAssertions.java:99-107 | Adding a failure to a non-empty list extends the message by `", "` and its rendering, and keeps the cause. |
| `Aggregator.ThrownExceptions.constructor` | src/main/java/com/kanbagoly/polypus/ConcurrentAssertions.java:98 | A new collection is empty. |
| `Aggregator.ThrownExceptions.Add` | src/main/java/com/kanbagoly/polypus/ConcurrentAssertions.java:99-101 | The new list is the old one with the failure appended at the end. |
| `Aggregator.ThrownExceptions.AssertNotThrown` | src/main/java/com/kanbagoly/polypus/ConcurrentAssertions.java:102-109 | The verdict is `Report` of the current list, and the list is not changed, so an empty list passes however often it is asked. |
| `Scheduling.Round` | src/main/java/com/kanbagoly/polypus/ConcurrentAssertions.java:50 | One repetition holds one item per task, in list order: item `j` is task `j`. |
| `Scheduling.WorkItems` | src/main/java/com/kanbagoly/polypus/ConcurrentAssertions.java:49-50 | The items of repetitions 1 to `n` in submission order. `WorkItemsLength`, `WorkItemsWellFormed`, `WorkItemAt` and `WorkItemsOrdered` carry its properties. |
| `Scheduling.WorkItemsLength` | src/main/java/com/kanbagoly/polypus/ConcurrentAssertions.java:48-50 | `nTimes` repetitions give exactly `nTimes * tasks.size()` items. |
| `Scheduling.WorkItemsWellFormed` | src/main/java/com/kanbagoly/polypus/ConcurrentAssertions.java:49-50 | Every item is a repetition in `1..nTimes` of the task at its index in the list. |
| `Scheduling.WorkItemAt` | src/main/java/com/kanbagoly/polypus/ConcurrentAssertions.java:49-50 | Repetition-major order: repetition `r` of task `j` is item number `(r - 1) * tasks.size() + j`. |
| `Scheduling.WorkItemsOrdered` | src/main/java/com/kanbagoly/polypus/ConcurrentAssertions.java:49-50 | Items come in strictly increasing (repetition, task index) order, so no item is submitted twice. |
| `Scheduling.Captured` | src/main/java/com/kanbagoly/polypus/ConcurrentAssertions.java:52-56 | The failures the `catch` clause collects from running items in order. `CapturedOnePerFailure` checks it against the reference `FailingPositions`. `CapturedAppend` and `CapturedConcat` give its step laws. |
| `Scheduling.CapturedAppend` | src/main/java/com/kanbagoly/polypus/ConcurrentAssertions.java:52-56 | One more item adds what it throws, if anything, after the earlier failures. |
| `Scheduling.CapturedConcat` | src/main/java/com/kanbagoly/polypus/ConcurrentAssertions.java:49-62 | Two batches run in sequence capture the first batch's failures, then the second's. |
| `Scheduling.CaptureNext` | src/main/java/com/kanbagoly/polypus/ConcurrentAssertions.java:52-58 | A collection that received what item `j` threw now holds the failures of items `0..j`. This is the inner loop's step. |
| `Scheduling.CapturedRepetitionsInOrder` | src/main/java/com/kanbagoly/polypus/ConcurrentAssertions.java:49-50 | Capturing repetition by repetition is the same as capturing every item in submission order. |
| `Scheduling.FailingPositions` | src/main/java/com/kanbagoly/polypus/ConcurrentAssertions.java:52-56 | The positions of exactly the failing items, ascending. |
| `Scheduling.CapturedOnePerFailure` | src/main/java/com/kanbagoly/polypus/ConcurrentAssertions.java:52-56 | The captured list has one entry per failing item. Entry `i` is what the `i`-th failing item threw. |
| `Scheduling.CapturedEmptyIffAllOk` | src/main/java/com/kanbagoly/polypus/ConcurrentAssertions.java:52-56 | Nothing is captured exactly when every item returns normally. |
| `Scheduling.FirstCapturedIsEarliestFailure` | src/main/java/com/kanbagoly/polypus/ConcurrentAssertions.java:56 | The first captured failure is the one thrown by the earliest failing item. |
| `Assertions.DefaultTimeoutIsValid` | src/main/java/com/kanbagoly/polypus/ConcurrentAssertions.java:28 | The default timeout of 1 `SECONDS` passes the `Duration` validation. |
| `Assertions.ExpectedVerdict` | src/main/java/com/kanbagoly/polypus/ConcurrentAssertions.java:64-66 | What `shouldNotThrow` reports after the wait: the timeout, or `Report` of the captured failures. `TimeoutWins`, `InterruptedFallsThrough`, `NoFailuresPass` and `FailureNamesEarliest` carry its properties. |
| `Assertions.TimeoutWins` | src/main/java/com/kanbagoly/polypus/ConcurrentAssertions.java:64-66 | A timed-out wait reports the timeout message with no cause, whatever was captured. The message names exactly the configured timeout. |
| `Assertions.InterruptedFallsThrough` | src/main/java/com/kanbagoly/polypus/ConcurrentAssertions.java:84-86 | An interrupted wait is reported exactly like a completed one, by `assertNotThrown`. |
| `Assertions.NoFailuresPass` | src/main/java/com/kanbagoly/polypus/ConcurrentAssertions.java:44-67 | If no item throws and the wait does not time out, the run passes. |
| `Assertions.FailureNamesEarliest` | src/main/java/com/kanbagoly/polypus/ConcurrentAssertions.java:44-67 | If some item throws and the wait does not time out, the run raises the aggregate exception. Its cause is the earliest failure, and its message starts with the prefix and that failure's rendering. |
| `Assertions.Repetitions` | src/main/java/com/kanbagoly/polypus/ConcurrentAssertions.java:49 | How often the outer loop runs, for `nTimes` below `Integer.MAX_VALUE`: `nTimes` times, and never for a non-positive `nTimes`. `ItemCountIsWorkItems` uses it. |
| `Assertions.ItemCount` | src/main/java/com/kanbagoly/polypus/ConcurrentAssertions.java:49-50 | The number of work items. `ItemCountIsWorkItems` proves it is the length of the enumeration. |
| `Assertions.ItemCountIsWorkItems` | src/main/java/com/kanbagoly/polypus/ConcurrentAssertions.java:49-50 | The loops submit exactly `tasks.size() * max(nTimes, 0)` items. |
| `Assertions.JavaLatchCount` | src/main/java/com/kanbagoly/polypus/ConcurrentAssertions.java:48 | The latch count as Java computes it: the `int` product, equal to the exact product when that fits in 32 bits. |
| `Assertions.JavaLatchCountWraps` | src/main/java/com/kanbagoly/polypus/ConcurrentAssertions.java:48 | With 2 tasks and 2^30 repetitions, the Java count is `Integer.MIN_VALUE`, although 2^31 items are due. |
| `Assertions.LatchCountIsItemCount` | src/main/java/com/kanbagoly/polypus/ConcurrentAssertions.java:48 | When the product fits in an `int` and `nTimes >= 0`, the counter starts at exactly the number of items. |
| `Assertions.CountDown` | src/main/java/com/kanbagoly/polypus/ConcurrentAssertions.java:58 | `countDown()` lowers the count by one and never below zero. `AfterOneMoreCountDown` relates it to `AfterCountDowns`. |
| `Assertions.AfterCountDowns` | src/main/java/com/kanbagoly/polypus/ConcurrentAssertions.java:58 | The counter after `k` count-downs from `start`. The lemmas `AfterOneMoreCountDown`, `AfterCountDownBatches` and `CounterEndsAtZero` carry its properties. |
| `Assertions.AfterOneMoreCountDown` | src/main/java/com/kanbagoly/polypus/ConcurrentAssertions.java:58 | One more count-down is one more `countDown()` step. |
| `Assertions.AfterCountDownBatches` | src/main/java/com/kanbagoly/polypus/ConcurrentAssertions.java:49-62 | Count-downs done in two batches leave the counter where all of them together would. |
| `Assertions.CounterEndsAtZero` | src/main/java/com/kanbagoly/polypus/ConcurrentAssertions.java:58 | Started at the number of items, the counter is zero exactly when every item has counted down once. |
| `Assertions.WaitFor` | src/main/java/com/kanbagoly/polypus/ConcurrentAssertions.java:80 | A zero count makes the wait complete at once, and only a non-zero count can time out. |
| `Assertions.NothingToRunPasses` | src/main/java/com/kanbagoly/polypus/ConcurrentAssertions.java:44-67 | With `nTimes == 0`, or no tasks and `nTimes` below `Integer.MAX_VALUE`, the latch starts at 0 and nothing is submitted. The run then passes whatever the wait input says. |
| `Assertions.ConcurrentAssertions.constructor` | src/main/java/com/kanbagoly/polypus/ConcurrentAssertions.java:26-32 | The given tasks, in order, with `nTimes = 100` and a timeout of 1 `SECONDS`. |
| `Assertions.ConcurrentAssertions.AssertConcurrently` | src/main/java/com/kanbagoly/polypus/ConcurrentAssertions.java:89-91 | A fresh configuration holding the tasks in order and the defaults. |
| `Assertions.ConcurrentAssertions.RepeatedCalls` | src/main/java/com/kanbagoly/polypus/ConcurrentAssertions.java:34-37 | Replaces `nTimes` only (the timeout and tasks are unchanged) and returns the same object. |
| `Assertions.ConcurrentAssertions.TimeoutAfter` | src/main/java/com/kanbagoly/polypus/ConcurrentAssertions.java:39-42 | Fails exactly when `amount <= 0`, with the validation's exception, and then leaves the timeout as it was. Otherwise it replaces the timeout only and returns the same object. `nTimes` and the tasks never change. |
| `Assertions.ConcurrentAssertions.Submit` | src/main/java/com/kanbagoly/polypus/ConcurrentAssertions.java:49-62 | After the loops, the counter stands at its start value less one count-down per item, floored at zero. A counter started at the number of items ends at 0. The collection ends holding exactly the failures of all items, in submission order. |
| `Assertions.ConcurrentAssertions.SubmitRepetition` | src/main/java/com/kanbagoly/polypus/ConcurrentAssertions.java:50-61 | One repetition counts the counter down once per task, whether the task threw or not. It appends the failures of that repetition's items, in task order. |
| `Assertions.ConcurrentAssertions.Await` | src/main/java/com/kanbagoly/polypus/ConcurrentAssertions.java:78-87 | Exactly when the wait times out, a `RuntimeException` is thrown with the timeout message and no cause. An interrupted wait returns normally. |
| `Assertions.ConcurrentAssertions.ShouldNotThrow` | src/main/java/com/kanbagoly/polypus/ConcurrentAssertions.java:44-67 | A negative `int` product `tasks.size() * nTimes` raises the latch's `IllegalArgumentException("count < 0")` before anything runs. Otherwise, for at most `Integer.MAX_VALUE` items, the verdict is `ExpectedVerdict`: the timeout if the wait timed out (never with a zero count), or else `Report` of the failures of all items in submission order. With `nTimes == 0`, or no tasks and `nTimes` below `Integer.MAX_VALUE`, the run passes. The configuration is not changed. |

## Left out

- The thread pool (`execute`, `Executors.newFixedThreadPool`, `shutdownNow`,
  `availableProcessors`, lines 69-76 and 93-95). Pool size has no effect on any
  stated result, so tasks run through the input `run`.
- The start barrier `blocker`, the blocking `CountDownLatch` wait and real time
  (lines 47, 53, 63, 80). The wait's outcome is an input. The countdown is an
  integer the loops decrement.
- Concurrency.
  - The model runs items one after another in submission order. Under real
    threads, the collection can hold the failures in any interleaving.
  - The synchronized list (line 98) is therefore a plain sequence.
  - Re-setting the interrupt flag (line 85) is not modelled.
- `Assertions.ConcurrentAssertions.ShouldNotThrow`: the verdict of an
  interrupted wait is stated over the failures of all items. In Java, `await`
  returns after the interrupt, and `shutdownNow()` (line 74) does not wait for
  the workers. `assertNotThrown` (line 66) then reads the list while items may
  still be running. The list then holds:
  - the failures of the items that finished before that read;
  - possibly `InterruptedException`s that `shutdownNow` causes in a task body
    or in `blocker.await()` (line 53), caught at line 55.
  The stream at line 106 walks the synchronized list without holding its lock.
  A concurrent `add` can make `assertNotThrown` throw
  `ConcurrentModificationException`.
- `Assertions.ConcurrentAssertions.ShouldNotThrow`: the wait input fits the
  count only where the count is zero, which completes at once. With a non-zero
  count, a `Completed` input stands for "every item ran". Nothing ties the input
  to a counter that can never reach zero. For example, with 3 tasks and
  `repeatedCalls(-1431655765)` the `int` product wraps to 1 and nothing is
  submitted. Java then always times out, but the model takes the wait as given.
- `Assertions.ConcurrentAssertions.ShouldNotThrow` does not describe runs whose
  `int` count is non-negative but which have more than `Integer.MAX_VALUE`
  items. Java rejects a submit at line 51 once the pool's queue is full
  (`RejectedExecutionException`, which leaves through `execute`'s `finally`).
  It also does not describe `nTimes == Integer.MAX_VALUE`, where the loop
  counter `i` wraps and the loop at line 49 does not end. When the wrapped count
  is negative, the `IllegalArgumentException` at line 48 is modelled.
- The message `"count < 0"` of that exception comes from the JDK's
  `CountDownLatch` constructor, not from this repository.
- `timeoutAfter(amount, null)`: the `TimeUnit` datatype has no null. Java
  accepts a null unit, because line 116 checks only the amount. `shouldNotThrow`
  then throws `NullPointerException` from the wait at line 80, and never
  reaches `assertNotThrown`.
- `assertConcurrently` wraps the caller's array with `Arrays.asList` (line 90),
  so later writes to that array change the configured tasks. The model's
  `tasks` is an immutable sequence and does not capture that aliasing.
- `Throwable.toString` and exception identity. Each captured failure carries
  an identity number and its rendering as given values.
- `toLowerCase()` at line 81 uses the JVM's default locale. The model maps
  ASCII letters only, which is what every locale except Turkish and Azerbaijani
  gives for the `TimeUnit` names. Under those two locales `I` becomes a dotless
  `ı`, so `Durations.LowerCasedName`, `Durations.TimeoutMessageSpelled` and
  `Durations.OneMillisecondMessage` describe only the other locales.
- The test fixture `NotThreadSafeClass`
  (src/test/java/com/kanbagoly/polypus/ConcurrentAssertionsTest.java:34-42). It
  is a consumer of the harness, and the race it shows is JDK behaviour.
- A negative `long` amount never reaches the timeout message, because the
  validation refuses it. `LongToString` still renders the sign. The lemmas state
  the message for valid durations only.

## Findings

| source | as written | input that shows it | evidently intended | confidence | as-written member | corrected member |
|---|---|---|---|---|---|---|
| src/main/java/com/kanbagoly/polypus/ConcurrentAssertions.java:48 | The latch is created with `tasks.size() * nTimes`, an `int` product, which wraps modulo 2^32. | 2 tasks with `repeatedCalls(1 << 30)`: the product wraps to `Integer.MIN_VALUE`. Neither argument is negative, yet `new CountDownLatch` throws `IllegalArgumentException("count < 0")` at line 48, before anything is submitted. | The counter starts at the number of work items, which is never negative. | low: only reachable with at least 2^31 items; not executed | `Assertions.JavaLatchCountWraps` | `Assertions.ItemCountIsWorkItems` |
