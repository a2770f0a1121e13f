/**
 * The older copy of the duration formatter (lib/duration-helper.ts), which takes
 * seconds only. Its arithmetic is repeated here as that file repeats it.
 */
module LegacyDuration {
  import opened Text
  import Duration

  /** formatSecondsToDuration: identical to the newer formatter with the 'seconds' unit. */
  function FormatSecondsToDuration(seconds: real): (r: string)
    ensures r == Duration.FormatDecimalTimeToDuration(seconds, Duration.Seconds)
  {
    var exactHours := seconds / 3600.0;
    var flooredHours := exactHours.Floor;
    var exactMinutes := (exactHours - flooredHours as real) * 60.0;
    var flooredMinutes := exactMinutes.Floor;
    var exactSeconds := (exactMinutes - flooredMinutes as real) * 60.0;
    var flooredSeconds := exactSeconds.Floor;
    assert Duration.Fields(seconds) == Duration.Hms(flooredHours, flooredMinutes, flooredSeconds);
    var hourStr := PadStart(IntToString(flooredHours), 2, '0');
    var minuteStr := PadStart(IntToString(flooredMinutes), 2, '0');
    var secondStr := PadStart(IntToString(flooredSeconds), 2, '0');
    hourStr + ":" + minuteStr + ":" + secondStr
  }

  /**
   * For whole seconds n >= 0 the printed fields read back as n div 3600,
   * (n mod 3600) div 60 and n mod 60, and these add up to n.
   */
  lemma FormatWholeSeconds(n: int)
    requires n >= 0
    ensures Duration.ParseDuration(FormatSecondsToDuration(n as real))
         == Opt.Some(Duration.Hms(n / 3600, (n % 3600) / 60, n % 60))
    ensures (n / 3600) * 3600 + ((n % 3600) / 60) * 60 + n % 60 == n
  {
    Duration.FieldsOfWholeSeconds(n);
    Duration.FormatParseRoundTrip(n as real);
  }

  /** convertSecondsToHours of the older file: the inverse of multiplying by 3600. */
  function ConvertSecondsToHours(seconds: real): (hours: real)
    ensures hours * 3600.0 == seconds
    ensures hours == Duration.ConvertSecondsToHours(seconds)
  {
    seconds / 3600.0
  }
}
