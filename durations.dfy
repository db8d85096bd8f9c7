/**
 * The harness's timeout: a validated (amount, unit) pair, and the message a
 * timed-out wait reports, with a parser that reads amount and unit back.
 */
module Durations {
  import opened Wrappers
  import opened JavaLang
  import opened Failures

  /** `java.util.concurrent.TimeUnit`. */
  datatype TimeUnit = NANOSECONDS | MICROSECONDS | MILLISECONDS | SECONDS | MINUTES | HOURS | DAYS

  /** `TimeUnit.name()`: the constant's identifier. */
  function Name(u: TimeUnit): string {
    match u
    case NANOSECONDS => "NANOSECONDS"
    case MICROSECONDS => "MICROSECONDS"
    case MILLISECONDS => "MILLISECONDS"
    case SECONDS => "SECONDS"
    case MINUTES => "MINUTES"
    case HOURS => "HOURS"
    case DAYS => "DAYS"
  }

  /** The unit as a timeout message spells it. */
  function LowerName(u: TimeUnit): string {
    match u
    case NANOSECONDS => "nanoseconds"
    case MICROSECONDS => "microseconds"
    case MILLISECONDS => "milliseconds"
    case SECONDS => "seconds"
    case MINUTES => "minutes"
    case HOURS => "hours"
    case DAYS => "days"
  }

  /** Reads a unit back from its spelling in a message. */
  function UnitOfLowerName(s: string): Option<TimeUnit> {
    if s == "nanoseconds" then Some(NANOSECONDS)
    else if s == "microseconds" then Some(MICROSECONDS)
    else if s == "milliseconds" then Some(MILLISECONDS)
    else if s == "seconds" then Some(SECONDS)
    else if s == "minutes" then Some(MINUTES)
    else if s == "hours" then Some(HOURS)
    else if s == "days" then Some(DAYS)
    else None
  }

  /** A unit's spelling reads back as the unit. */
  lemma LowerNameReadsBack(u: TimeUnit)
    ensures UnitOfLowerName(LowerName(u)) == Some(u)
  {
  }

  /** Lower-casing a unit's name gives its spelling. */
  lemma LowerCasedName(u: TimeUnit)
    ensures ToLower(Name(u)) == LowerName(u)
  {
    match u
    case NANOSECONDS => LowerPointwise("NANOSECONDS", "nanoseconds");
    case MICROSECONDS => LowerPointwise("MICROSECONDS", "microseconds");
    case MILLISECONDS => LowerPointwise("MILLISECONDS", "milliseconds");
    case SECONDS => LowerPointwise("SECONDS", "seconds");
    case MINUTES => LowerPointwise("MINUTES", "minutes");
    case HOURS => LowerPointwise("HOURS", "hours");
    case DAYS => LowerPointwise("DAYS", "days");
  }

  /** The private `Duration` class: `amount` is positive once constructed. */
  datatype Duration = Duration(amount: int64, unit: TimeUnit)

  predicate Valid(d: Duration) {
    d.amount > 0
  }

  const NON_POSITIVE_MESSAGE: string := "Timeout must have positive value"

  /** `new Duration(amount, unit)`: refuses a non-positive amount, otherwise keeps both unchanged. */
  function NewDuration(amount: int64, unit: TimeUnit): (r: Result<Duration, Error>)
    ensures r.Failure? <==> amount <= 0
    ensures r.Failure? ==> r.error == IllegalArgumentException(NON_POSITIVE_MESSAGE)
    ensures r.Success? ==> r.value.amount == amount && r.value.unit == unit && Valid(r.value)
  {
    if amount <= 0 then Failure(IllegalArgumentException(NON_POSITIVE_MESSAGE))
    else Success(Duration(amount, unit))
  }

  const TIMEOUT_PREFIX: string := "Timeout after "

  /** The message of the exception a timed-out wait throws. */
  function TimeoutMessage(d: Duration): string {
    TIMEOUT_PREFIX + (LongToString(d.amount) + " " + ToLower(Name(d.unit)))
  }

  /** The message spelled out: the prefix, the amount in decimal, a space and the unit's spelling. */
  lemma TimeoutMessageSpelled(d: Duration)
    requires Valid(d)
    ensures TimeoutMessage(d) == TIMEOUT_PREFIX + (Decimal(d.amount) + " " + LowerName(d.unit))
  {
    LowerCasedName(d.unit);
  }

  /** The index of the first space in `s`, or `|s|` when there is none. */
  function IndexOfSpace(s: string): (k: nat)
    ensures k <= |s|
    ensures k < |s| ==> s[k] == ' '
    ensures forall i :: 0 <= i < k ==> s[i] != ' '
    decreases |s|
  {
    if s == [] then 0 else if s[0] == ' ' then 0 else 1 + IndexOfSpace(s[1..])
  }

  /** Reads amount and unit back from what follows the prefix of a timeout message. */
  function ParseAmountAndUnit(rest: string): Option<Duration> {
    var k := IndexOfSpace(rest);
    if k == 0 || k == |rest| || !IsDigits(rest[..k]) then None
    else
      var value := DecimalValue(rest[..k]);
      var unit := UnitOfLowerName(rest[k + 1..]);
      if unit.None? || value == 0 || value >= 0x8000_0000_0000_0000 then None
      else Some(Duration(value, unit.value))
  }

  /** Reads the duration back out of a timeout message; the partner of `TimeoutMessage`. */
  function ParseTimeoutMessage(msg: string): Option<Duration> {
    if TIMEOUT_PREFIX <= msg then ParseAmountAndUnit(msg[|TIMEOUT_PREFIX|..]) else None
  }

  /** What follows a prefix is what was appended to it. */
  lemma PrefixThenRest(prefix: string, rest: string)
    ensures prefix <= prefix + rest && (prefix + rest)[|prefix|..] == rest
  {
  }

  /** In digits followed by a space, the first space is the one after the digits. */
  lemma IndexOfSpaceAfterDigits(digits: string, tail: string)
    requires IsDigits(digits)
    ensures IndexOfSpace(digits + " " + tail) == |digits|
  {
    assert (digits + " " + tail)[|digits|] == ' ';
  }

  /** Digits, a space and a unit's spelling read back as their value and the unit. */
  lemma ParseSpelledAmountAndUnit(digits: string, u: TimeUnit)
    requires IsDigits(digits) && |digits| > 0
    ensures ParseAmountAndUnit(digits + " " + LowerName(u)) ==
            var value := DecimalValue(digits);
            if 0 < value < 0x8000_0000_0000_0000 then Some(Duration(value, u)) else None
  {
    var name := LowerName(u);
    var rest := digits + " " + name;
    IndexOfSpaceAfterDigits(digits, name);
    assert rest[..|digits|] == digits;
    assert rest[|digits| + 1..] == name;
    LowerNameReadsBack(u);
  }

  /** A timeout message names exactly the amount and the unit of the duration it reports. */
  lemma TimeoutMessageRoundTrip(d: Duration)
    requires Valid(d)
    ensures ParseTimeoutMessage(TimeoutMessage(d)) == Some(d)
  {
    var rest := Decimal(d.amount) + " " + LowerName(d.unit);
    TimeoutMessageSpelled(d);
    PrefixThenRest(TIMEOUT_PREFIX, rest);
    ParseSpelledAmountAndUnit(Decimal(d.amount), d.unit);
    DecimalRoundTrip(d.amount);
  }

  /** Two valid timeouts that report the same message are the same timeout. */
  lemma TimeoutMessageInjective(d1: Duration, d2: Duration)
    requires Valid(d1) && Valid(d2)
    requires TimeoutMessage(d1) == TimeoutMessage(d2)
    ensures d1 == d2
  {
    TimeoutMessageRoundTrip(d1);
    TimeoutMessageRoundTrip(d2);
  }

  /** A concrete message: a timeout of one millisecond. */
  lemma OneMillisecondMessage()
    ensures TimeoutMessage(Duration(1, MILLISECONDS)) == "Timeout after 1 milliseconds"
  {
    TimeoutMessageSpelled(Duration(1, MILLISECONDS));
    OneMillisecondSpelled();
    PrefixedOneMillisecond();
  }

  lemma OneMillisecondSpelled()
    ensures Decimal(1) + " " + LowerName(MILLISECONDS) == "1 milliseconds"
  {
  }

  lemma PrefixedOneMillisecond()
    ensures TIMEOUT_PREFIX + "1 milliseconds" == "Timeout after 1 milliseconds"
  {
  }
}
