/** `formatDuration` (frontend/app.js): whole seconds rendered as `HH:MM:SS`. */
module Duration {
  import opened Wrappers
  import opened Text
  import opened Seqs

  /** `n.toString().padStart(2, '0')`. */
  function TwoDigits(n: nat): (r: string)
    ensures IsDigits(r) && |r| >= 2
    ensures DigitsValue(r) == n
  {
    DecimalRoundTrip(n);
    ZeroPadValue(Decimal(n), 2);
    PadStart(Decimal(n), 2, '0')
  }

  /**
   * `formatDuration(seconds)`: zero is `"Unknown"`; otherwise hours, minutes
   * and seconds joined by colons, each padded to at least two digits.
   */
  function FormatDuration(seconds: nat): (r: string)
    ensures seconds == 0 <==> r == "Unknown"
  {
    if seconds == 0 then "Unknown"
    else
      var clock := TwoDigits(seconds / 3600) + ":" + TwoDigits(seconds % 3600 / 60) + ":" + TwoDigits(seconds % 60);
      assert |clock| >= 8 > |"Unknown"|;
      clock
  }

  /** A reading of a clock face. */
  datatype Clock = Clock(hours: nat, minutes: nat, seconds: nat)

  predicate IsColon(c: char) {
    c == ':'
  }

  predicate IsNumeral(s: string) {
    s != [] && IsDigits(s)
  }

  /** Reads back `H:M:S` where each field is one or more digits. */
  function ParseClock(s: string): (r: Option<Clock>)
    ensures r.Some? <==> |Split(s, IsColon)| == 3 && forall k :: 0 <= k < 3 ==> IsNumeral(Split(s, IsColon)[k])
  {
    var fields := Split(s, IsColon);
    if |fields| == 3 && IsNumeral(fields[0]) && IsNumeral(fields[1]) && IsNumeral(fields[2]) then
      Some(Clock(DigitsValue(fields[0]), DigitsValue(fields[1]), DigitsValue(fields[2])))
    else
      None
  }

  /** The number of seconds a `H:M:S` text denotes. */
  function ParseDuration(s: string): (r: Option<nat>)
    ensures r.Some? <==> ParseClock(s).Some?
  {
    match ParseClock(s)
    case None => None
    case Some(c) => Some(TotalSeconds(c))
  }

  function TotalSeconds(c: Clock): nat {
    c.hours * 3600 + c.minutes * 60 + c.seconds
  }

  /** The reading `formatDuration` computes for `n` seconds. */
  function ClockOf(n: nat): Clock {
    Clock(n / 3600, n % 3600 / 60, n % 60)
  }

  lemma DigitsHaveNoColon(s: string)
    requires IsDigits(s)
    ensures forall i :: 0 <= i < |s| ==> !IsColon(s[i])
  {
    forall i | 0 <= i < |s| ensures !IsColon(s[i]) {
      assert IsDigit(s[i]);
    }
  }

  /** Joining three colon-free fields with colons splits back into those fields. */
  lemma SplitClockText(a: string, b: string, c: string)
    requires IsDigits(a) && IsDigits(b) && IsDigits(c)
    ensures Split(a + ":" + b + ":" + c, IsColon) == [a, b, c]
  {
    DigitsHaveNoColon(a);
    DigitsHaveNoColon(b);
    DigitsHaveNoColon(c);
    SplitNoSeparator(a, IsColon);
    SplitBeforeLast(a, ':', b, IsColon);
    SplitBeforeLast(a + ":" + b, ':', c, IsColon);
  }

  /** The clock text of a reading parses back to that reading. */
  lemma ClockTextParses(h: nat, m: nat, s: nat)
    ensures var text := TwoDigits(h) + ":" + TwoDigits(m) + ":" + TwoDigits(s);
      && Split(text, IsColon) == [TwoDigits(h), TwoDigits(m), TwoDigits(s)]
      && ParseClock(text) == Some(Clock(h, m, s))
  {
    SplitClockText(TwoDigits(h), TwoDigits(m), TwoDigits(s));
  }

  /**
   * A positive duration prints as three colon-separated fields: hours (never
   * truncated, so possibly more than two digits), then minutes and seconds,
   * each exactly two digits and below 60.
   */
  lemma FormatFields(seconds: nat)
    requires seconds > 0
    ensures var fields := Split(FormatDuration(seconds), IsColon);
      && |fields| == 3
      && |fields[0]| >= 2 && |fields[1]| == 2 && |fields[2]| == 2
      && ParseClock(FormatDuration(seconds)) == Some(ClockOf(seconds))
  {
    var h, m, s := seconds / 3600, seconds % 3600 / 60, seconds % 60;
    assert FormatDuration(seconds) == TwoDigits(h) + ":" + TwoDigits(m) + ":" + TwoDigits(s);
    ClockTextParses(h, m, s);
    TwoDigitsBelow100(m);
    TwoDigitsBelow100(s);
  }

  lemma TwoDigitsBelow100(n: nat)
    requires n < 100
    ensures |TwoDigits(n)| == 2
  {
    assert |Decimal(n)| <= 2 by {
      if n >= 10 { assert Decimal(n) == Decimal(n / 10) + [DigitChar(n % 10)]; }
    }
  }

  /** Hours, minutes and seconds as `formatDuration` computes them add back up to the input. */
  lemma ClockArithmetic(n: nat)
    ensures TotalSeconds(ClockOf(n)) == n
    ensures n % 3600 / 60 < 60 && n % 60 < 60
  {
    var q, r := n / 3600, n % 3600;
    assert n == q * 3600 + r;
    var m, s := r / 60, r % 60;
    assert r == m * 60 + s;
    assert n == (q * 60 + m) * 60 + s;
    assert n % 60 == s;
  }

  /** Text without a colon is never a clock reading. */
  lemma NoColonNoClock(s: string)
    requires ':' !in s
    ensures ParseDuration(s) == None
  {
    SplitNoSeparator(s, IsColon);
  }

  lemma UnknownDoesNotParse()
    ensures ParseDuration("Unknown") == None
  {
    assert ':' !in "Unknown";
    NoColonNoClock("Unknown");
  }

  /** Reading the printed text back recovers the duration; zero prints as text no clock reading matches. */
  lemma FormatParseRoundTrip(seconds: nat)
    ensures ParseDuration(FormatDuration(seconds)) == if seconds == 0 then None else Some(seconds)
  {
    if seconds == 0 {
      UnknownDoesNotParse();
    } else {
      FormatFields(seconds);
      assert ParseClock(FormatDuration(seconds)) == Some(ClockOf(seconds));
      ClockArithmetic(seconds);
    }
  }
}
