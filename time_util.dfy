/**
 * The front end's duration helpers: `hms` splits a whole number of
 * seconds into hours, minutes and seconds with JavaScript's truncating
 * `%`; `formatHms` prints "M:SS"-style clocks; `formatHumane` prints
 * "1h 5min". Inputs are whole numbers of seconds.
 */
module TimeUtil {
  import opened Wrappers
  import opened Decimal
  import opened Numbers
  import opened Text

  datatype Hms = Hms(seconds: int, minutes: int, hours: int)

  /** `hms`: the three fields always recombine to the input; for non-negative input they are bounded. */
  function SplitHms(input: int): (r: Hms)
    ensures r.hours * 3600 + r.minutes * 60 + r.seconds == input
    ensures input >= 0 ==> 0 <= r.seconds < 60 && 0 <= r.minutes < 60 && 0 <= r.hours
    ensures input < 0 ==> -60 < r.seconds <= 0 && -60 < r.minutes <= 0 && r.hours <= 0
  {
    var seconds := TruncRem(input, 60);
    // input - seconds is an exact multiple of 60, so JavaScript's `/` yields an integer
    var q := (input - seconds) / 60;
    assert q == TruncDiv(input, 60);
    var minutes := TruncRem(q, 60);
    var hours := (input - seconds - minutes * 60) / 3600;
    assert hours == TruncDiv(q, 60);
    Hms(seconds, minutes, hours)
  }

  /** `String(n).padStart(2, '0')`. */
  function PadTwo(s: string): (r: string)
    ensures |s| >= 2 ==> r == s
    ensures |r| >= 2 && r[|r| - |s|..] == s
  {
    if |s| == 0 then "00" else if |s| == 1 then "0" + s else s
  }

  /** `formatHms`. */
  function FormatHms(input: int): string
  {
    Clock(SplitHms(input))
  }

  /** The template strings of `formatHms` applied to already split fields. */
  function Clock(t: Hms): string
  {
    var minutesAndSeconds := PadTwo(IntToString(t.minutes)) + ":" + PadTwo(IntToString(t.seconds));
    if t.hours > 0 then IntToString(t.hours) + ":" + minutesAndSeconds else minutesAndSeconds
  }

  /** The number of seconds the three fields stand for. */
  function TotalSeconds(t: Hms): int
  {
    t.hours * 3600 + t.minutes * 60 + t.seconds
  }

  /**
   * A clock "MM:SS" or "H:MM:SS" read back into its fields by position:
   * the inverse of `FormatHms`.
   */
  function ParseClock(s: string): Option<Hms>
  {
    if |s| == 5 && s[2] == ':' then ParseFields([s[..2], s[3..]])
    else if |s| >= 7 && s[|s| - 6] == ':' && s[|s| - 3] == ':' then
      ParseFields([s[..|s| - 6], s[|s| - 5..|s| - 3], s[|s| - 2..]])
    else None
  }

  /** The fields between the colons: two-digit minutes and seconds, optionally preceded by hours. */
  function ParseFields(parts: seq<string>): Option<Hms>
  {
    if |parts| == 2 && |parts[0]| == 2 && |parts[1]| == 2 && AllDigits(parts[0]) && AllDigits(parts[1]) then
      Some(Hms(ParseDigits(parts[1]), ParseDigits(parts[0]), 0))
    else if |parts| == 3 && |parts[0]| > 0 && |parts[1]| == 2 && |parts[2]| == 2
      && AllDigits(parts[0]) && AllDigits(parts[1]) && AllDigits(parts[2]) then
      Some(Hms(ParseDigits(parts[2]), ParseDigits(parts[1]), ParseDigits(parts[0])))
    else None
  }

  /** A number below 60 printed with `PadTwo` is two digits that read back as itself. */
  lemma PadTwoDigits(n: int)
    requires 0 <= n < 60
    ensures |PadTwo(IntToString(n))| == 2 && AllDigits(PadTwo(IntToString(n)))
    ensures ':' !in PadTwo(IntToString(n))
    ensures ParseDigits(PadTwo(IntToString(n))) == n
  {
    var d := NatToString(n);
    var p := PadTwo(IntToString(n));
    NatRoundTrip(n);
    if n < 10 {
      assert p == "0" + d;
      assert p[..1] == "0";
    } else {
      assert d == NatToString(n / 10) + [DigitChar(n % 10)];
    }
  }

  lemma NoColonInDigits(s: string)
    requires AllDigits(s)
    ensures ':' !in s
  {
  }

  lemma TwoFields(a: string, b: string)
    requires ':' !in a && ':' !in b
    ensures Split(a + ":" + b, ':') == [a, b]
  {
    assert a + ":" + b == a + [':'] + b;
    SplitConcat(a, ':', b);
    SplitNone(b, ':');
  }

  lemma ThreeFields(a: string, b: string, c: string)
    requires ':' !in a && ':' !in b && ':' !in c
    ensures Split(a + ":" + (b + ":" + c), ':') == [a, b, c]
  {
    var tail := b + ":" + c;
    TwoFields(b, c);
    assert a + ":" + tail == a + [':'] + tail;
    SplitConcat(a, ':', tail);
  }

  lemma ParseClockTwo(mm: string, ss: string)
    requires |mm| == 2 && |ss| == 2 && AllDigits(mm) && AllDigits(ss)
    ensures ParseClock(mm + ":" + ss) == Some(Hms(ParseDigits(ss), ParseDigits(mm), 0))
  {
    var s := mm + ":" + ss;
    assert s[..2] == mm && s[3..] == ss && s[2] == ':';
    assert [s[..2], s[3..]] == [mm, ss];
  }

  lemma ParseClockThree(hh: string, mm: string, ss: string)
    requires |hh| > 0 && |mm| == 2 && |ss| == 2 && AllDigits(hh) && AllDigits(mm) && AllDigits(ss)
    ensures ParseClock(hh + ":" + (mm + ":" + ss)) == Some(Hms(ParseDigits(ss), ParseDigits(mm), ParseDigits(hh)))
  {
    var s := hh + ":" + (mm + ":" + ss);
    var n := |s|;
    ClockSlices(hh, mm + ":" + ss, mm, ss);
    assert [s[..n - 6], s[n - 5..n - 3], s[n - 2..]] == [hh, mm, ss];
  }

  /** Where the fields of "H:MM:SS" sit, counted from its end. */
  lemma ClockSlices(hh: string, rest: string, mm: string, ss: string)
    requires |mm| == 2 && |ss| == 2 && rest == mm + ":" + ss
    ensures var s := hh + ":" + rest;
      && |s| == |hh| + 6 && s[|s| - 6] == ':' && s[|s| - 3] == ':'
      && s[..|s| - 6] == hh && s[|s| - 5..|s| - 3] == mm && s[|s| - 2..] == ss
  {
    var s := hh + ":" + rest;
    var n := |s|;
    assert rest[..2] == mm && rest[3..] == ss;
    assert s[n - 5..] == rest;
    assert s[n - 5..n - 3] == rest[..2];
    assert s[n - 2..] == rest[3..];
  }

  /** For fields in range, the clock reads back as the same fields. */
  lemma ClockRoundTrip(t: Hms)
    requires 0 <= t.seconds < 60 && 0 <= t.minutes < 60 && 0 <= t.hours
    ensures ParseClock(Clock(t)) == Some(t)
  {
    if t.hours > 0 {
      ClockRoundTripHours(t);
    } else {
      ClockRoundTripMinutes(t);
    }
  }

  lemma HoursDigits(h: int)
    requires h > 0
    ensures |IntToString(h)| > 0 && AllDigits(IntToString(h)) && ParseDigits(IntToString(h)) == h
  {
    assert IntToString(h) == NatToString(h);
    NatRoundTrip(h);
  }

  lemma ClockRoundTripHours(t: Hms)
    requires 0 <= t.seconds < 60 && 0 <= t.minutes < 60 && 0 < t.hours
    ensures ParseClock(Clock(t)) == Some(t)
  {
    var mm := PadTwo(IntToString(t.minutes));
    var ss := PadTwo(IntToString(t.seconds));
    var hh := IntToString(t.hours);
    assert Clock(t) == hh + ":" + (mm + ":" + ss);
    PadTwoDigits(t.minutes);
    PadTwoDigits(t.seconds);
    HoursDigits(t.hours);
    ParseClockThree(hh, mm, ss);
  }

  lemma ClockRoundTripMinutes(t: Hms)
    requires 0 <= t.seconds < 60 && 0 <= t.minutes < 60 && t.hours == 0
    ensures ParseClock(Clock(t)) == Some(t)
  {
    var mm := PadTwo(IntToString(t.minutes));
    var ss := PadTwo(IntToString(t.seconds));
    assert Clock(t) == mm + ":" + ss;
    PadTwoDigits(t.minutes);
    PadTwoDigits(t.seconds);
    ParseClockTwo(mm, ss);
  }

  /** The clock has an hours field exactly when the hours are positive. */
  lemma ClockFields(t: Hms)
    requires 0 <= t.seconds < 60 && 0 <= t.minutes < 60 && 0 <= t.hours
    ensures |Split(Clock(t), ':')| == (if t.hours > 0 then 3 else 2)
  {
    var mm := PadTwo(IntToString(t.minutes));
    var ss := PadTwo(IntToString(t.seconds));
    PadTwoDigits(t.minutes);
    PadTwoDigits(t.seconds);
    if t.hours > 0 {
      var hh := IntToString(t.hours);
      HoursDigits(t.hours);
      NoColonInDigits(hh);
      assert Clock(t) == hh + ":" + (mm + ":" + ss);
      ThreeFields(hh, mm, ss);
    } else {
      assert Clock(t) == mm + ":" + ss;
      TwoFields(mm, ss);
    }
  }

  /** The clock reads back as the fields of the input, which stand for the input. */
  lemma FormatHmsRoundTrip(n: int)
    requires n >= 0
    ensures ParseClock(FormatHms(n)) == Some(SplitHms(n))
    ensures TotalSeconds(SplitHms(n)) == n
  {
    ClockRoundTrip(SplitHms(n));
  }

  /** Minutes and seconds are always shown; the hours field appears exactly when the input reaches an hour. */
  lemma FormatHmsFields(n: int)
    requires n >= 0
    ensures |Split(FormatHms(n), ':')| == (if n >= 3600 then 3 else 2)
  {
    ClockFields(SplitHms(n));
    HoursShownFromAnHour(n);
  }

  lemma HoursShownFromAnHour(n: int)
    requires n >= 0
    ensures SplitHms(n).hours > 0 <==> n >= 3600
  {
    var t := SplitHms(n);
    assert t.minutes * 60 + t.seconds < 3600;
  }

  /** `formatHumane`. */
  function FormatHumane(duration: int): string
  {
    var t := SplitHms(duration);
    Humane(t.hours, t.minutes)
  }

  /** The template string of `formatHumane` applied to already split fields. */
  function Humane(hours: int, minutes: int): string
  {
    var minString := if minutes == 0 then "" else IntToString(minutes) + "min";
    var hourString := if hours == 0 then "" else IntToString(hours) + "h";
    Trim(hourString + " " + minString)
  }

  lemma IntToStringNoWhitespaceStart(i: int)
    ensures !IsWhitespace(IntToString(i)[0])
  {
    if i >= 0 {
      assert IsDigit(NatToString(i)[0]);
    }
  }

  lemma HumaneCases(hours: int, minutes: int)
    ensures Humane(hours, minutes) ==
        if hours == 0 && minutes == 0 then ""
        else if hours == 0 then IntToString(minutes) + "min"
        else if minutes == 0 then IntToString(hours) + "h"
        else IntToString(hours) + "h " + IntToString(minutes) + "min"
  {
    if hours == 0 && minutes == 0 {
      assert "" + " " + "" == " ";
    } else if hours == 0 {
      HumaneMinutesOnly(minutes);
    } else if minutes == 0 {
      HumaneHoursOnly(hours);
    } else {
      HumaneBoth(hours, minutes);
    }
  }

  lemma HumaneMinutesOnly(minutes: int)
    requires minutes != 0
    ensures Humane(0, minutes) == IntToString(minutes) + "min"
  {
    var m := IntToString(minutes) + "min";
    IntToStringNoWhitespaceStart(minutes);
    assert "" + " " + m == " " + m;
    TrimLeadingSpace(m);
  }

  lemma HumaneHoursOnly(hours: int)
    requires hours != 0
    ensures Humane(hours, 0) == IntToString(hours) + "h"
  {
    var h := IntToString(hours) + "h";
    IntToStringNoWhitespaceStart(hours);
    assert h + " " + "" == h + " ";
    TrimTrailingSpace(h);
  }

  lemma HumaneBoth(hours: int, minutes: int)
    requires hours != 0 && minutes != 0
    ensures Humane(hours, minutes) == IntToString(hours) + "h " + IntToString(minutes) + "min"
  {
    var m := IntToString(minutes) + "min";
    var h := IntToString(hours) + "h";
    IntToStringNoWhitespaceStart(hours);
    var both := h + " " + m;
    assert both[0] == h[0];
    assert both[|both| - 1] == 'n';
    TrimUnchanged(both);
    HoursAndMinutes(IntToString(hours), IntToString(minutes));
  }

  lemma HoursAndMinutes(hs: string, ms: string)
    ensures hs + "h" + " " + (ms + "min") == hs + "h " + ms + "min"
  {
    assert hs + "h" + " " == hs + "h ";
    assert hs + "h " + (ms + "min") == hs + "h " + ms + "min";
  }

  /** Zero parts are omitted, the space appears only between two parts, and seconds never show. */
  lemma FormatHumaneCases(duration: int)
    ensures var t := SplitHms(duration);
      FormatHumane(duration) ==
        if t.hours == 0 && t.minutes == 0 then ""
        else if t.hours == 0 then IntToString(t.minutes) + "min"
        else if t.minutes == 0 then IntToString(t.hours) + "h"
        else IntToString(t.hours) + "h " + IntToString(t.minutes) + "min"
  {
    var t := SplitHms(duration);
    HumaneCases(t.hours, t.minutes);
  }

  /** Durations under a minute print as the empty string. */
  lemma FormatHumaneUnderAMinute(duration: int)
    requires 0 <= duration < 60
    ensures FormatHumane(duration) == ""
  {
    FormatHumaneCases(duration);
    var t := SplitHms(duration);
    assert t.hours * 3600 + t.minutes * 60 == duration - t.seconds;
  }

  /** Only whole minutes matter: dropping the seconds part changes nothing. */
  lemma FormatHumaneIgnoresSeconds(duration: int)
    requires duration >= 0
    ensures FormatHumane(duration) == FormatHumane(duration - SplitHms(duration).seconds)
  {
    var t := SplitHms(duration);
    WholeMinutesSplit(duration);
    assert SplitHms(duration - t.seconds).hours == t.hours;
    assert SplitHms(duration - t.seconds).minutes == t.minutes;
  }

  /** Dropping the seconds part leaves the hours and minutes as they were. */
  lemma WholeMinutesSplit(duration: int)
    requires duration >= 0
    ensures var t := SplitHms(duration);
      SplitHms(duration - t.seconds) == Hms(0, t.minutes, t.hours)
  {
    var t := SplitHms(duration);
    HmsUnique(SplitHms(duration - t.seconds), Hms(0, t.minutes, t.hours));
  }

  /** Fields in range are determined by the seconds they stand for. */
  lemma HmsUnique(a: Hms, b: Hms)
    requires 0 <= a.seconds < 60 && 0 <= a.minutes < 60 && 0 <= a.hours
    requires 0 <= b.seconds < 60 && 0 <= b.minutes < 60 && 0 <= b.hours
    requires TotalSeconds(a) == TotalSeconds(b)
    ensures a == b
  {
    assert a.minutes * 60 + a.seconds < 3600 && b.minutes * 60 + b.seconds < 3600;
    assert a.hours == b.hours;
    assert a.minutes == b.minutes;
  }
}
