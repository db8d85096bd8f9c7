/**
 * The parts of the Java platform whose exact behaviour shows in the harness's
 * results: the fixed-width integer types, `String.toLowerCase`, `Long.toString`
 * and `Collectors.joining`.
 */
module JavaLang {

  /** Java's `int`. */
  type int32 = x: int | -0x8000_0000 <= x < 0x8000_0000

  /** Java's `long`. */
  type int64 = x: int | -0x8000_0000_0000_0000 <= x < 0x8000_0000_0000_0000

  const TWO_TO_THE_32: int := 0x1_0000_0000

  /** The value a Java `int` expression takes when its mathematical value is `x`. */
  function Wrap32(x: int): (r: int32)
    ensures (x - r) % TWO_TO_THE_32 == 0
    ensures -0x8000_0000 <= x < 0x8000_0000 ==> r == x
  {
    var m := x % TWO_TO_THE_32;
    if m < 0x8000_0000 then m else m - TWO_TO_THE_32
  }

  // ---------------------------------------------------------------- toLowerCase

  predicate IsUpper(c: char) {
    'A' <= c <= 'Z'
  }

  function LowerChar(c: char): char {
    if IsUpper(c) then (c as int + 32) as char else c
  }

  /** `String.toLowerCase` on the letters the time-unit names use. */
  function ToLower(s: string): (r: string)
    ensures |r| == |s|
    ensures forall i :: 0 <= i < |s| ==> r[i] == LowerChar(s[i])
    ensures forall i :: 0 <= i < |r| ==> !IsUpper(r[i])
    decreases |s|
  {
    if s == [] then [] else [LowerChar(s[0])] + ToLower(s[1..])
  }

  /** A string whose every character lower-cases to the matching one of `t` lower-cases to `t`. */
  lemma LowerPointwise(s: string, t: string)
    requires |s| == |t| && forall i :: 0 <= i < |s| ==> LowerChar(s[i]) == t[i]
    ensures ToLower(s) == t
  {
  }

  // ---------------------------------------------------------------- Long.toString

  predicate IsDigit(c: char) {
    '0' <= c <= '9'
  }

  predicate IsDigits(s: string) {
    forall i :: 0 <= i < |s| ==> IsDigit(s[i])
  }

  function DigitChar(d: nat): (c: char)
    requires d < 10
    ensures IsDigit(c)
  {
    ('0' as int + d) as char
  }

  function DigitValue(c: char): nat
    requires IsDigit(c)
  {
    c as int - '0' as int
  }

  /** The decimal rendering of `n`: digits only, most significant first, no leading zero. */
  function Decimal(n: nat): (s: string)
    ensures |s| >= 1 && IsDigits(s)
    ensures s[0] == '0' <==> n == 0
    decreases n
  {
    if n < 10 then [DigitChar(n)] else Decimal(n / 10) + [DigitChar(n % 10)]
  }

  /** The number a string of decimal digits denotes; the partner of `Decimal`. */
  function DecimalValue(s: string): nat
    requires IsDigits(s)
    decreases |s|
  {
    if s == [] then 0 else 10 * DecimalValue(s[..|s| - 1]) + DigitValue(s[|s| - 1])
  }

  lemma {:induction false} DecimalRoundTrip(n: nat)
    ensures DecimalValue(Decimal(n)) == n
  {
    if n >= 10 {
      var s := Decimal(n);
      assert s[..|s| - 1] == Decimal(n / 10);
      DecimalRoundTrip(n / 10);
    }
  }

  /** `Long.toString`, as string concatenation renders a `long`. */
  function LongToString(x: int64): string {
    if x < 0 then "-" + Decimal(-(x as int)) else Decimal(x)
  }

  // ---------------------------------------------------------------- Collectors.joining

  /** `Collectors.joining(sep)`: the parts in order, `sep` between neighbours. */
  function Join(sep: string, parts: seq<string>): string
    decreases |parts|
  {
    if |parts| == 0 then ""
    else if |parts| == 1 then parts[0]
    else Join(sep, parts[..|parts| - 1]) + sep + parts[|parts| - 1]
  }

  /** Joining one more part appends the separator and that part. */
  lemma JoinAppend(sep: string, parts: seq<string>, p: string)
    requires |parts| >= 1
    ensures Join(sep, parts + [p]) == Join(sep, parts) + sep + p
  {
    assert (parts + [p])[..|parts|] == parts;
  }

  /** Joining from the front gives the same string: the first part, then the separator, then the rest joined. */
  lemma {:induction false} JoinCons(sep: string, p: string, rest: seq<string>)
    requires |rest| >= 1
    ensures Join(sep, [p] + rest) == p + sep + Join(sep, rest)
  {
    if |rest| == 1 {
      assert [p] + rest == [p] + [rest[0]];
      assert ([p] + rest)[..1] == [p];
    } else {
      var init := rest[..|rest| - 1];
      var last := rest[|rest| - 1];
      assert rest == init + [last];
      assert [p] + rest == ([p] + init) + [last];
      JoinAppend(sep, [p] + init, last);
      JoinCons(sep, p, init);
      JoinAppend(sep, init, last);
    }
  }

  /** The joined string begins with the first part. */
  lemma JoinStartsWithFirst(sep: string, parts: seq<string>)
    requires |parts| >= 1
    ensures parts[0] <= Join(sep, parts)
  {
    if |parts| > 1 {
      assert parts == [parts[0]] + parts[1..];
      JoinCons(sep, parts[0], parts[1..]);
    }
  }
}
