/**
 * Duration formatting (lib/helpers/duration-helper.ts): an amount in some unit is
 * scaled to seconds, split by flooring into hours, minutes and seconds, and printed
 * as `hh:mm:ss` with every field zero-padded to at least two characters.
 * Arithmetic is exact: the model uses `real`, not IEEE doubles.
 */
module Duration {
  import opened Opt
  import opened Text

  datatype DurationUnit = Hours | Minutes | Seconds | Milliseconds

  /** The `format` argument; it is accepted and never consulted. */
  datatype DurationFormat = Colons | Words

  /**
   * The `switch` on the unit, as written: each unit's amount is recovered from the
   * seconds by the unit's factor, milliseconds by 1e6; the sign is kept.
   */
  function ToSeconds(decimal: real, unit: DurationUnit): (s: real)
    ensures unit == Hours ==> s / 3600.0 == decimal
    ensures unit == Minutes ==> s / 60.0 == decimal
    ensures unit == Seconds ==> s == decimal
    ensures unit == Milliseconds ==> s * 1000000.0 == decimal
    ensures decimal >= 0.0 <==> s >= 0.0
  {
    match unit
    case Hours => decimal * 3600.0
    case Minutes => decimal * 60.0
    case Seconds => decimal
    case Milliseconds => decimal / 1000000.0
  }

  /** The scaling the unit names promise: a millisecond is a thousandth of a second. */
  function ToSecondsCorrected(decimal: real, unit: DurationUnit): (s: real)
    ensures unit != Milliseconds ==> s == ToSeconds(decimal, unit)
    ensures unit == Milliseconds ==> s * 1000.0 == decimal
    ensures decimal >= 0.0 <==> s >= 0.0
  {
    if unit == Milliseconds then decimal / 1000.0 else ToSeconds(decimal, unit)
  }

  datatype Hms = Hms(hours: int, minutes: int, seconds: int)

  /**
   * The floor cascade: whole hours, then whole minutes of the remainder, then
   * whole seconds of what is left. The fields are the mixed-radix digits of the
   * whole number of seconds.
   */
  function Fields(secs: real): (f: Hms)
    ensures 0 <= f.minutes < 60 && 0 <= f.seconds < 60
    ensures f.hours * 3600 + f.minutes * 60 + f.seconds == secs.Floor
  {
    var exactHours := secs / 3600.0;
    var flooredHours := exactHours.Floor;
    var exactMinutes := (exactHours - flooredHours as real) * 60.0;
    var flooredMinutes := exactMinutes.Floor;
    var exactSeconds := (exactMinutes - flooredMinutes as real) * 60.0;
    var flooredSeconds := exactSeconds.Floor;
    assert secs == flooredHours as real * 3600.0 + flooredMinutes as real * 60.0 + exactSeconds;
    Hms(flooredHours, flooredMinutes, flooredSeconds)
  }

  /** Only one triple with minutes and seconds in 0..59 adds up to a given number of seconds. */
  lemma FieldsUnique(secs: real, h: int, m: int, s: int)
    requires 0 <= m < 60 && 0 <= s < 60
    requires h * 3600 + m * 60 + s == secs.Floor
    ensures Fields(secs) == Hms(h, m, s)
  {
    var f := Fields(secs);
    assert 0 <= m * 60 + s < 3600 && 0 <= f.minutes * 60 + f.seconds < 3600;
    assert f.hours == h;
    assert f.minutes == m;
  }

  /**
   * For a whole number of seconds n >= 0 the fields are n div 3600, (n mod 3600)
   * div 60 and n mod 60.
   */
  lemma FieldsOfWholeSeconds(n: int)
    requires n >= 0
    ensures Fields(n as real) == Hms(n / 3600, (n % 3600) / 60, n % 60)
  {
    var h, r := n / 3600, n % 3600;
    var m, sec := r / 60, r % 60;
    assert n == h * 3600 + m * 60 + sec;
    assert n == (h * 60 + m) * 60 + sec;
    RemainderOfMultiple(h * 60 + m, sec);
    assert (n as real).Floor == n;
    FieldsUnique(n as real, h, m, sec);
  }

  lemma RemainderOfMultiple(q: int, r: int)
    requires 0 <= r < 60
    ensures (q * 60 + r) % 60 == r
  {
  }

  /** Only the whole part of the seconds is shown: the fraction is floored away. */
  lemma FieldsOfFloor(secs: real)
    ensures Fields(secs) == Fields(secs.Floor as real)
  {
    var f := Fields(secs.Floor as real);
    FieldsUnique(secs, f.hours, f.minutes, f.seconds);
  }

  function Pad2(s: string): string
  {
    PadStart(s, 2, '0')
  }

  /** The three padded fields of `secs`, before they are joined with ':'. */
  function FieldStrings(secs: real): seq<string>
  {
    var f := Fields(secs);
    [Pad2(IntToString(f.hours)), Pad2(NatToString(f.minutes)), Pad2(NatToString(f.seconds))]
  }

  /** Lines 24-37: fields of the seconds, padded and joined with ':'. */
  function FormatSeconds(secs: real): string
  {
    var p := FieldStrings(secs);
    p[0] + ":" + p[1] + ":" + p[2]
  }

  /**
   * formatDecimalTimeToDuration with the millisecond scale corrected (see
   * MillisecondsAsWritten); the format argument has no effect on the result.
   */
  function FormatDecimalTimeToDurationCorrected(decimal: real, unit: DurationUnit, format: DurationFormat := Colons): (r: string)
    ensures decimal >= 0.0 ==> ParseDuration(r) == Some(Fields(ToSecondsCorrected(decimal, unit)))
  {
    var secs := ToSecondsCorrected(decimal, unit);
    if secs >= 0.0 then FormatParseRoundTrip(secs); FormatSeconds(secs) else FormatSeconds(secs)
  }

  /**
   * formatDecimalTimeToDuration exactly as written, milliseconds divided by 1e6:
   * for a non-negative amount the text reads back as the fields of its seconds.
   */
  function FormatDecimalTimeToDuration(decimal: real, unit: DurationUnit, format: DurationFormat := Colons): (r: string)
    ensures decimal >= 0.0 ==> ParseDuration(r) == Some(Fields(ToSeconds(decimal, unit)))
  {
    var secs := ToSeconds(decimal, unit);
    if secs >= 0.0 then FormatParseRoundTrip(secs); FormatSeconds(secs) else FormatSeconds(secs)
  }

  /** The `format` argument never changes the text. */
  lemma FormatIgnored(decimal: real, unit: DurationUnit, f1: DurationFormat, f2: DurationFormat)
    ensures FormatDecimalTimeToDuration(decimal, unit, f1) == FormatDecimalTimeToDuration(decimal, unit, f2)
    ensures FormatDecimalTimeToDurationCorrected(decimal, unit, f1) == FormatDecimalTimeToDurationCorrected(decimal, unit, f2)
  {
  }

  /** convertSecondsToHours. */
  function ConvertSecondsToHours(seconds: real): (hours: real)
    ensures hours * 3600.0 == seconds
  {
    seconds / 3600.0
  }

  // ---------------------------------------------------------------------------
  // Reading a duration back

  /** Reads `hh:mm:ss` (each field a non-empty run of digits) back into its fields. */
  function ParseDuration(r: string): Option<Hms>
  {
    var parts := Split(r, ':');
    if |parts| == 3 && (forall k :: 0 <= k < 3 ==> parts[k] != [] && AllDigits(parts[k])) then
      Some(Hms(DigitsValue(parts[0]), DigitsValue(parts[1]), DigitsValue(parts[2])))
    else None
  }

  lemma PaddedHasNoColon(n: nat)
    ensures ':' !in Pad2(NatToString(n))
    ensures |Pad2(NatToString(n))| >= 2
  {
    PaddedNatRoundTrip(n, 2);
  }

  /** Three colon-free fields joined with ':' split back into those three fields. */
  lemma SplitThree(a: string, b: string, c: string)
    requires ':' !in a && ':' !in b && ':' !in c
    ensures Split(a + ":" + b + ":" + c, ':') == [a, b, c]
  {
    SplitAround(b, ':', c);
    SplitWithout(c, ':');
    assert a + ":" + b + ":" + c == a + [':'] + (b + [':'] + c);
    SplitAround(a, ':', b + [':'] + c);
  }

  /**
   * The printed duration has exactly two colons: it splits into three fields,
   * the minutes and seconds exactly two characters wide and the hours at least two.
   */
  lemma FormatShape(secs: real)
    requires secs >= 0.0
    ensures Split(FormatSeconds(secs), ':') == FieldStrings(secs)
    ensures |FieldStrings(secs)[0]| >= 2 && |FieldStrings(secs)[1]| == 2 && |FieldStrings(secs)[2]| == 2
  {
    var f := Fields(secs);
    var p := FieldStrings(secs);
    assert f.hours >= 0 by {
      assert secs.Floor >= 0;
    }
    assert IntToString(f.hours) == NatToString(f.hours);
    PaddedHasNoColon(f.hours);
    PaddedHasNoColon(f.minutes);
    PaddedHasNoColon(f.seconds);
    assert Pow10(2) == 100;
    NatToStringWidth(f.minutes, 2);
    NatToStringWidth(f.seconds, 2);
    SplitThree(p[0], p[1], p[2]);
  }

  /**
   * Reading the printed duration back gives its fields, however many digits the
   * hours take (padding never truncates), so the whole seconds are recovered.
   */
  lemma FormatParseRoundTrip(secs: real)
    requires secs >= 0.0
    ensures ParseDuration(FormatSeconds(secs)) == Some(Fields(secs))
  {
    var f := Fields(secs);
    var p := FieldStrings(secs);
    FormatShape(secs);
    assert f.hours >= 0;
    assert p[0] == Pad2(NatToString(f.hours));
    PaddedNatRoundTrip(f.hours, 2);
    PaddedNatRoundTrip(f.minutes, 2);
    PaddedNatRoundTrip(f.seconds, 2);
    var a, b, c := p[0], p[1], p[2];
    assert AllDigits(a) && AllDigits(b) && AllDigits(c);
    assert DigitsValue(a) == f.hours && DigitsValue(b) == f.minutes && DigitsValue(c) == f.seconds;
    assert FormatSeconds(secs) == a + ":" + b + ":" + c;
    ParseThree(a, b, c, f);
  }

  lemma ParseThree(a: string, b: string, c: string, f: Hms)
    requires |a| >= 2 && |b| >= 2 && |c| >= 2
    requires AllDigits(a) && AllDigits(b) && AllDigits(c)
    requires DigitsValue(a) == f.hours && DigitsValue(b) == f.minutes && DigitsValue(c) == f.seconds
    requires Split(a + ":" + b + ":" + c, ':') == [a, b, c]
    ensures ParseDuration(a + ":" + b + ":" + c) == Some(f)
  {
  }

  /** Whatever the unit, the printed value is the duration in seconds. */
  lemma FormatReadsBackAsSeconds(decimal: real, unit: DurationUnit)
    requires decimal >= 0.0
    ensures var f := ParseDuration(FormatDecimalTimeToDuration(decimal, unit));
      f.Some? && f.value.hours * 3600 + f.value.minutes * 60 + f.value.seconds == ToSeconds(decimal, unit).Floor
  {
    FormatParseRoundTrip(ToSeconds(decimal, unit));
  }

  /**
   * The same span given in hours, minutes or seconds prints the same; with the
   * corrected scale, so does the span given in milliseconds.
   */
  lemma UnitsAgree(h: real)
    ensures FormatDecimalTimeToDuration(h, Hours) == FormatDecimalTimeToDuration(h * 60.0, Minutes)
    ensures FormatDecimalTimeToDuration(h, Hours) == FormatDecimalTimeToDuration(h * 3600.0, Seconds)
    ensures FormatDecimalTimeToDuration(h, Hours) == FormatDecimalTimeToDurationCorrected(h * 3600000.0, Milliseconds)
  {
    assert ToSeconds(h, Hours) == ToSeconds(h * 60.0, Minutes) == ToSeconds(h * 3600.0, Seconds)
        == ToSecondsCorrected(h * 3600000.0, Milliseconds);
  }

  // ---------------------------------------------------------------------------
  // Worked examples

  lemma OneDigitPadded(n: nat)
    requires n < 10
    ensures Pad2(NatToString(n)) == ['0', DigitChar(n)]
  {
    assert PadStart(NatToString(n), 2, '0') == Repeat('0', 1) + [DigitChar(n)];
  }

  /**
   * 3661 seconds prints "01:01:01" in exact arithmetic. The source's floor cascade
   * in IEEE doubles loses the last second on this very input.
   */
  lemma ExampleSeconds()
    ensures FormatDecimalTimeToDuration(3661.0, Seconds) == "01:01:01"
  {
    FieldsUnique(3661.0, 1, 1, 1);
    OneDigitPadded(1);
  }

  lemma ExampleHours()
    ensures FormatDecimalTimeToDuration(1.5, Hours) == "01:30:00"
  {
    FieldsUnique(5400.0, 1, 30, 0);
    OneDigitPadded(1);
    OneDigitPadded(0);
    assert NatToString(30) == NatToString(3) + [DigitChar(0)];
    assert Pad2(NatToString(30)) == "30";
  }

  /** Zero in any unit and any format prints "00:00:00", as written and corrected. */
  lemma ExampleZero(unit: DurationUnit, format: DurationFormat)
    ensures FormatDecimalTimeToDuration(0.0, unit, format) == "00:00:00"
    ensures FormatDecimalTimeToDurationCorrected(0.0, unit, format) == "00:00:00"
  {
    assert ToSeconds(0.0, unit) == 0.0;
    assert ToSecondsCorrected(0.0, unit) == 0.0;
    FormatZero();
  }

  lemma FormatZero()
    ensures FormatSeconds(0.0) == "00:00:00"
  {
    FieldsUnique(0.0, 0, 0, 0);
    OneDigitPadded(0);
  }

  // ---------------------------------------------------------------------------
  // The millisecond scale

  /**
   * As written, 3 600 000 milliseconds (one hour) is scaled to 3.6 seconds and
   * printed as "00:00:03".
   */
  lemma MillisecondsAsWritten()
    ensures FormatDecimalTimeToDuration(3600000.0, Milliseconds) == "00:00:03"
    ensures FormatDecimalTimeToDuration(3600000.0, Milliseconds) != FormatDecimalTimeToDuration(1.0, Hours)
    ensures FormatDecimalTimeToDurationCorrected(3600000.0, Milliseconds) == FormatDecimalTimeToDuration(1.0, Hours)
  {
    FieldsUnique(3.6, 0, 0, 3);
    FieldsUnique(3600.0, 1, 0, 0);
    OneDigitPadded(0);
    OneDigitPadded(1);
    OneDigitPadded(3);
    assert "00:00:03"[1] != "01:00:00"[1];
  }

  /**
   * With the corrected scale, x seconds given in milliseconds print as x seconds,
   * and every other unit prints as written.
   */
  lemma CorrectedMillisecondsAgree(x: real, unit: DurationUnit)
    ensures FormatDecimalTimeToDurationCorrected(x * 1000.0, Milliseconds) == FormatDecimalTimeToDurationCorrected(x, Seconds)
    ensures unit != Milliseconds ==> FormatDecimalTimeToDurationCorrected(x, unit) == FormatDecimalTimeToDuration(x, unit)
  {
  }
}
