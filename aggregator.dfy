/**
 * The private `ThrownExceptions` class: the list the workers append caught
 * failures to, and `assertNotThrown`, which turns a non-empty list into one failure.
 */
module Aggregator {
  import opened Wrappers
  import opened JavaLang
  import opened Failures

  const REPORT_PREFIX: string := "Test failed with the following exception(s): "

  /** What `toString()` renders for each failure, in list order. */
  function Renderings(failures: seq<Thrown>): (r: seq<string>)
    ensures |r| == |failures|
    ensures forall i :: 0 <= i < |failures| ==> r[i] == failures[i].text
    decreases |failures|
  {
    if failures == [] then [] else [failures[0].text] + Renderings(failures[1..])
  }

  /**
   * What `assertNotThrown` does with a list of captured failures: nothing for
   * an empty list; otherwise one `RuntimeException` whose message is the prefix
   * and the joined renderings, and whose cause is the first element.
   */
  function Report(failures: seq<Thrown>): Verdict {
    if |failures| == 0 then Passed
    else Raised(RuntimeException(REPORT_PREFIX + Join(", ", Renderings(failures)), Some(failures[0])))
  }

  /** `assertNotThrown` passes exactly when nothing was captured; a failure names the first element as cause. */
  lemma ReportPassesIffEmpty(failures: seq<Thrown>)
    ensures Report(failures).Passed? <==> failures == []
    ensures failures != [] ==> Report(failures).error.RuntimeException?
    ensures failures != [] ==> Report(failures).error.cause == Some(failures[0])
  {
  }

  /** The message starts with the prefix followed by the first failure's rendering. */
  lemma ReportStartsWithFirst(failures: seq<Thrown>)
    requires failures != []
    ensures REPORT_PREFIX + failures[0].text <= Report(failures).error.message
  {
    var parts := Renderings(failures);
    JoinStartsWithFirst(", ", parts);
    var joined := Join(", ", parts);
    assert (REPORT_PREFIX + joined)[..|REPORT_PREFIX| + |parts[0]|] == REPORT_PREFIX + joined[..|parts[0]|];
  }

  /** A single captured failure is reported as the prefix and its rendering alone. */
  lemma ReportSingle(e: Thrown)
    ensures Report([e]) == Raised(RuntimeException(REPORT_PREFIX + e.text, Some(e)))
  {
    assert Renderings([e]) == [e.text];
  }

  /**
   * One more captured failure extends the message by ", " and its rendering,
   * and keeps the cause.
   */
  lemma ReportAfterAdd(failures: seq<Thrown>, e: Thrown)
    requires failures != []
    ensures Report(failures + [e]).error.message == Report(failures).error.message + ", " + e.text
    ensures Report(failures + [e]).error.cause == Report(failures).error.cause
  {
    var parts := Renderings(failures);
    assert Renderings(failures + [e]) == parts + [e.text];
    JoinAppend(", ", parts, e.text);
  }

  /** The failure collection shared by all work items of one run. */
  class ThrownExceptions {
    var exceptions: seq<Thrown>

    constructor ()
      ensures exceptions == []
    {
      exceptions := [];
    }

    /** `add`: appends at the end, keeping the earlier failures. */
    method Add(exception: Thrown)
      modifies this
      ensures exceptions == old(exceptions) + [exception]
    {
      exceptions := exceptions + [exception];
    }

    /**
     * `assertNotThrown`: reports the captured failures and changes nothing,
     * so an empty collection passes however often it is asked.
     */
    method AssertNotThrown() returns (v: Verdict)
      ensures v == Report(exceptions)
    {
      if |exceptions| == 0 {
        return Passed;
      }
      var head := exceptions[0];
      var exceptionsAsString := Join(", ", Renderings(exceptions));
      v := Raised(RuntimeException(REPORT_PREFIX + exceptionsAsString, Some(head)));
    }
  }
}
