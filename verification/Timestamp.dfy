/** Timestamps are stored as text and read back by picking digit runs out of it
    (core/datasetmanager/datasetindexerdb.go). */
module Timestamp {
  import opened Common

  const MIN_INT64 := -0x8000_0000_0000_0000
  const MAX_INT64 := 0x7fff_ffff_ffff_ffff

  datatype Stamp = Stamp(seconds: int, nanos: int)

  predicate Valid(t: Stamp) {
    MIN_INT64 <= t.seconds <= MAX_INT64 && 0 <= t.nanos <= 999_999_999
  }

  predicate IsDigit(c: char) {
    '0' <= c <= '9'
  }

  function Digit(n: nat): char
    requires n < 10
  {
    '0' + n as char
  }

  function DigitsOf(n: nat): string {
    if n < 10 then [Digit(n)] else DigitsOf(n / 10) + [Digit(n % 10)]
  }

  function Text(n: int): string {
    if n < 0 then "-" + DigitsOf(-n) else DigitsOf(n)
  }

  /** The text form of a message: fields that are zero are left out. The separator the
      library puts between two fields varies. */
  function Print(t: Stamp, separator: string): string {
    var seconds := if t.seconds == 0 then "" else "seconds:" + Text(t.seconds);
    var nanos := if t.nanos == 0 then "" else "nanos:" + Text(t.nanos);
    if t.seconds == 0 || t.nanos == 0 then seconds + nanos else seconds + separator + nanos
  }

  /** The length of the digit run s starts with. */
  function Leading(s: string): (n: nat)
    ensures n <= |s|
  {
    if s != [] && IsDigit(s[0]) then 1 + Leading(s[1..]) else 0
  }

  /** All maximal digit runs, from left to right. */
  function Runs(s: string): seq<string>
    decreases |s|
  {
    if s == [] then []
    else if IsDigit(s[0]) then [s[..Leading(s)]] + Runs(s[Leading(s)..])
    else Runs(s[1..])
  }

  function ValueOf(digits: string): nat {
    if digits == [] then 0
    else 10 * ValueOf(digits[..|digits| - 1]) + (if IsDigit(Last(digits)) then (Last(digits) - '0') as nat else 0)
  }

  /** The time that many seconds and nanoseconds after the epoch. */
  function Unix(seconds: int, nanos: int): Stamp {
    Stamp(ToInt64(seconds + nanos / 1_000_000_000), nanos % 1_000_000_000)
  }

  /** Parsing fails on what an int64 cannot hold. */
  function Fits(n: nat): Result<int> {
    if n <= MAX_INT64 then Success(n) else Failure(BadText)
  }

  function FromFields(seconds: nat, nanos: nat): Result<Stamp> {
    if Fits(seconds).Failure? || Fits(nanos).Failure? then Failure(BadText)
    else Success(Unix(seconds, nanos))
  }

  /** A text with a single digit run makes the source index past the matches. */
  function ToTimestamp(s: string): Result<Stamp> {
    var runs := Runs(s);
    if runs == [] then Failure(BadText)
    else if |runs| == 1 then Failure(Panicked)
    else FromFields(ValueOf(runs[0]), ValueOf(runs[1]))
  }

  predicate AllDigits(s: string) {
    forall c :: c in s ==> IsDigit(c)
  }

  predicate NoDigits(s: string) {
    forall c :: c in s ==> !IsDigit(c)
  }

  lemma {:induction false} DigitsRoundTrip(n: nat)
    ensures DigitsOf(n) != [] && AllDigits(DigitsOf(n)) && ValueOf(DigitsOf(n)) == n
  {
    if n < 10 {
      assert [Digit(n)][..0] == [];
    } else {
      DigitsRoundTrip(n / 10);
      var s := DigitsOf(n);
      assert s[..|s| - 1] == DigitsOf(n / 10);
      assert Last(s) == Digit(n % 10);
    }
  }

  lemma {:induction false} LeadingRun(digits: string, rest: string)
    requires AllDigits(digits) && (rest != [] ==> !IsDigit(rest[0]))
    ensures Leading(digits + rest) == |digits|
  {
    if digits == [] {
      assert digits + rest == rest;
    } else {
      assert digits[0] in digits;
      assert (digits + rest)[1..] == digits[1..] + rest;
      LeadingRun(digits[1..], rest);
    }
  }

  lemma {:induction false} SkipText(text: string, rest: string)
    requires NoDigits(text)
    ensures Runs(text + rest) == Runs(rest)
  {
    if text == [] {
      assert text + rest == rest;
    } else {
      assert text[0] in text;
      assert (text + rest)[1..] == text[1..] + rest;
      SkipText(text[1..], rest);
    }
  }

  lemma TakeRun(digits: string, rest: string)
    requires digits != [] && AllDigits(digits) && (rest != [] ==> !IsDigit(rest[0]))
    ensures Runs(digits + rest) == [digits] + Runs(rest)
  {
    LeadingRun(digits, rest);
    assert digits[0] in digits;
    assert (digits + rest)[..|digits|] == digits && (digits + rest)[|digits|..] == rest;
  }

  lemma OneField(name: string, digits: string)
    requires NoDigits(name) && digits != [] && AllDigits(digits)
    ensures Runs(name + digits) == [digits]
  {
    SkipText(name, digits);
    TakeRun(digits, "");
    assert digits + "" == digits;
  }

  lemma TwoFields(first: string, d1: string, between: string, d2: string)
    requires NoDigits(first) && d1 != [] && AllDigits(d1)
    requires NoDigits(between) && between != [] && d2 != [] && AllDigits(d2)
    ensures Runs(first + d1 + between + d2) == [d1, d2]
  {
    assert between[0] in between;
    assert first + d1 + between + d2 == first + (d1 + (between + d2));
    SkipText(first, d1 + (between + d2));
    TakeRun(d1, between + d2);
    OneField(between, d2);
  }

  function Magnitude(n: int): nat {
    if n < 0 then -n else n
  }

  /** A field's text up to its digits. */
  function Label(name: string, n: int): string {
    if n < 0 then name + "-" else name
  }

  lemma FieldText(name: string, n: int)
    requires NoDigits(name)
    ensures name + Text(n) == Label(name, n) + DigitsOf(Magnitude(n)) && NoDigits(Label(name, n))
  {
    assert n < 0 ==> name + ("-" + DigitsOf(-n)) == name + "-" + DigitsOf(-n);
  }

  /** The digit runs of a printed timestamp: one for each field that is not zero. */
  function ExpectedRuns(t: Stamp): seq<string> {
    (if t.seconds == 0 then [] else [DigitsOf(Magnitude(t.seconds))]) + (if t.nanos == 0 then [] else [DigitsOf(Magnitude(t.nanos))])
  }

  lemma PrintedRuns(t: Stamp, separator: string)
    requires NoDigits(separator)
    ensures Runs(Print(t, separator)) == ExpectedRuns(t)
  {
    var s, n := DigitsOf(Magnitude(t.seconds)), DigitsOf(Magnitude(t.nanos));
    DigitsRoundTrip(Magnitude(t.seconds));
    DigitsRoundTrip(Magnitude(t.nanos));
    var sl, nl := Label("seconds:", t.seconds), Label("nanos:", t.nanos);
    FieldText("seconds:", t.seconds);
    FieldText("nanos:", t.nanos);
    if t.seconds != 0 && t.nanos != 0 {
      assert Print(t, separator) == (sl + s) + separator + (nl + n);
      assert (sl + s) + separator + (nl + n) == sl + s + (separator + nl) + n;
      TwoFields(sl, s, separator + nl, n);
    } else if t.seconds != 0 {
      assert Print(t, separator) == sl + s;
      OneField(sl, s);
    } else if t.nanos != 0 {
      assert Print(t, separator) == nl + n;
      OneField(nl, n);
    } else {
      assert Print(t, separator) == "";
    }
  }

  /** Nanoseconds beyond a second count as seconds. */
  lemma UnixNormalises(seconds: int, nanos: int)
    requires MIN_INT64 <= seconds + nanos / 1_000_000_000 <= MAX_INT64
    ensures Unix(seconds, nanos).seconds * 1_000_000_000 + Unix(seconds, nanos).nanos == seconds * 1_000_000_000 + nanos
    ensures 0 <= Unix(seconds, nanos).nanos < 1_000_000_000
  {
  }

  /** What the reader makes of a printed timestamp, field by field. */
  function ReadBack(t: Stamp): Result<Stamp> {
    if t.seconds == 0 && t.nanos == 0 then Failure(BadText)
    else if t.seconds == 0 || t.nanos == 0 then Failure(Panicked)
    else if t.seconds == MIN_INT64 then Failure(BadText)
    else Success(Stamp(Magnitude(t.seconds), t.nanos))
  }

  lemma UnixInRange(seconds: nat, nanos: nat)
    requires seconds <= MAX_INT64 && nanos <= 999_999_999
    ensures Unix(seconds, nanos) == Stamp(seconds, nanos)
  {
    assert nanos / 1_000_000_000 == 0 && nanos % 1_000_000_000 == nanos;
  }

  lemma FieldsReadBack(seconds: nat, nanos: nat)
    requires seconds <= -MIN_INT64 && nanos <= 999_999_999
    ensures FromFields(seconds, nanos)
            == if seconds == -MIN_INT64 then Failure(BadText) else Success(Stamp(seconds, nanos))
  {
    if seconds <= MAX_INT64 {
      UnixInRange(seconds, nanos);
    }
  }

  lemma PrintedReadBack(t: Stamp, separator: string)
    requires Valid(t) && NoDigits(separator)
    ensures ToTimestamp(Print(t, separator)) == ReadBack(t)
  {
    PrintedRuns(t, separator);
    if t.seconds != 0 && t.nanos != 0 {
      DigitsRoundTrip(Magnitude(t.seconds));
      DigitsRoundTrip(t.nanos);
      FieldsReadBack(Magnitude(t.seconds), t.nanos);
    }
  }

  /** Reading back a printed timestamp yields it exactly when its seconds are positive
      and its nanoseconds are not zero. */
  lemma RoundTripExactlyWhen(t: Stamp, separator: string)
    requires Valid(t) && NoDigits(separator)
    ensures ToTimestamp(Print(t, separator)) == Success(t) <==> t.seconds > 0 && t.nanos > 0
  {
    PrintedReadBack(t, separator);
  }

  /** What happens otherwise: a time with exactly one zero field makes the reader panic,
      the epoch itself is an error, and a time before the epoch loses its sign. */
  lemma OtherwiseExactly(t: Stamp, separator: string)
    requires Valid(t) && NoDigits(separator)
    ensures ToTimestamp(Print(t, separator)) == Failure(Panicked) <==> (t.seconds == 0) != (t.nanos == 0)
    ensures t.seconds == 0 && t.nanos == 0 ==> ToTimestamp(Print(t, separator)) == Failure(BadText)
    ensures t.seconds < 0 && t.nanos > 0 ==>
              ToTimestamp(Print(t, separator))
              == if t.seconds == MIN_INT64 then Failure(BadText) else Success(t.(seconds := -t.seconds))
  {
    PrintedReadBack(t, separator);
  }

  /** The text of a missing timestamp is never readable. */
  lemma MissingIsUnreadable()
    ensures ToTimestamp("<nil>") == Failure(BadText)
  {
    SkipText("<nil>", "");
    assert "<nil>" + "" == "<nil>";
  }

  /** The two forms, for instance. */
  lemma ExampleIsPrinted()
    ensures Print(Stamp(15, 7), " ") == "seconds:15 nanos:7"
    ensures Print(Stamp(-15, 0), " ") == "seconds:-15"
    ensures ToTimestamp("seconds:15 nanos:7") == Success(Stamp(15, 7))
  {
    assert DigitsOf(15) == DigitsOf(1) + [Digit(5)] == "15";
    assert DigitsOf(7) == "7";
    assert "seconds:" + "15" + " " + ("nanos:" + "7") == "seconds:15 nanos:7";
    assert "seconds:" + ("-" + "15") + "" == "seconds:-15";
    PrintedReadBack(Stamp(15, 7), " ");
  }
}
