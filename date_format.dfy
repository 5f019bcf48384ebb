/** `DateFormat::timeslot`: a duration in seconds as a short phrase of at
    most two parts — days and hours, hours and minutes, minutes and seconds,
    or a single one of them. A duration that is not positive gives the
    integer 0 instead of a phrase. */
module DateFormat {
  import opened PhpStrings

  /** The unit words of the seven formats. Minutes after hours are written
      分, minutes on their own (or before seconds) 分钟. */
  datatype Unit = Day | Hour | MinuteAfterHour | Minute | Second

  datatype Part = Part(n: int, unit: Unit)

  /** What `timeslot` returns: the integer 0, or the parts of the phrase. */
  datatype Slot = Zero | Parts(parts: seq<Part>)

  /** `timeslot($seconds, $nosecond, $ceilorfloor)` for an integer number of
      seconds: minutes, hours and days are floor quotients; the largest
      non-zero one leads, and the next smaller one follows when its
      remainder is non-zero. Below an hour, `nosecond` drops the seconds,
      adding a minute for any remainder when the mode is `ceil`, and turns
      anything under a minute into one minute. */
  function Timeslot(seconds: int, noSecond: bool, ceilOrFloor: string): (r: Slot)
    ensures r.Zero? <==> seconds <= 0
    ensures r.Parts? ==> 1 <= |r.parts| <= 2 && r.parts[0].n > 0
  {
    if seconds <= 0 then Zero
    else
      var minutes := seconds / 60;
      var hours := minutes / 60;
      var days := hours / 24;
      if days > 0 then
        if hours - days * 24 > 0 then Parts([Part(days, Day), Part(hours - days * 24, Hour)])
        else Parts([Part(days, Day)])
      else if hours > 0 then
        if minutes - hours * 60 > 0 then Parts([Part(hours, Hour), Part(minutes - hours * 60, MinuteAfterHour)])
        else Parts([Part(hours, Hour)])
      else if minutes > 0 then
        if seconds - minutes * 60 > 0 then
          if noSecond then Parts([Part(if ceilOrFloor == "ceil" then minutes + 1 else minutes, Minute)])
          else Parts([Part(minutes, Minute), Part(seconds - minutes * 60, Second)])
        else Parts([Part(minutes, Minute)])
      else if noSecond then Parts([Part(1, Minute)])
      else Parts([Part(seconds, Second)])
  }

  // ---------------------------------------------------------------------
  // The phrase as text
  // ---------------------------------------------------------------------

  function Word(u: Unit): string
  {
    match u
    case Day => "天"
    case Hour => "小时"
    case MinuteAfterHour => "分"
    case Minute => "分钟"
    case Second => "秒"
  }

  /** `sprintf` of the chosen format: each number followed by its word. */
  function Phrase(parts: seq<Part>): string
    decreases |parts|
  {
    if parts == [] then "" else IntToString(parts[0].n) + Word(parts[0].unit) + Phrase(parts[1..])
  }

  // ---------------------------------------------------------------------
  // Properties
  // ---------------------------------------------------------------------

  /** From a day on, only days and leftover hours are shown. */
  lemma TimeslotDays(seconds: int, noSecond: bool, ceilOrFloor: string)
    requires seconds >= 86400
    ensures var r := Timeslot(seconds, noSecond, ceilOrFloor);
            var h := seconds / 3600 % 24;
            r == if h > 0 then Parts([Part(seconds / 86400, Day), Part(h, Hour)])
                 else Parts([Part(seconds / 86400, Day)])
  {
    Quotients(seconds);
  }

  /** From an hour up to a day: hours, and the leftover minutes if any. */
  lemma TimeslotHours(seconds: int, noSecond: bool, ceilOrFloor: string)
    requires 3600 <= seconds < 86400
    ensures var r := Timeslot(seconds, noSecond, ceilOrFloor);
            var m := seconds / 60 % 60;
            r == if m > 0 then Parts([Part(seconds / 3600, Hour), Part(m, MinuteAfterHour)])
                 else Parts([Part(seconds / 3600, Hour)])
  {
    Quotients(seconds);
  }

  /** From a minute up to an hour, with leftover seconds: minutes and
      seconds, or (without seconds) the minutes rounded up in `ceil` mode
      and down otherwise. */
  lemma TimeslotMinutes(seconds: int, noSecond: bool, ceilOrFloor: string)
    requires 60 <= seconds < 3600 && seconds % 60 > 0
    ensures Timeslot(seconds, noSecond, ceilOrFloor) ==
            if !noSecond then Parts([Part(seconds / 60, Minute), Part(seconds % 60, Second)])
            else if ceilOrFloor == "ceil" then Parts([Part(seconds / 60 + 1, Minute)])
            else Parts([Part(seconds / 60, Minute)])
  {
  }

  /** Under a minute: the seconds, or one minute whatever the rounding mode. */
  lemma TimeslotSeconds(seconds: int, noSecond: bool, ceilOrFloor: string)
    requires 0 < seconds < 60
    ensures Timeslot(seconds, noSecond, ceilOrFloor) ==
            if noSecond then Parts([Part(1, Minute)]) else Parts([Part(seconds, Second)])
  {
  }

  /** Every part after the first is positive and below its unit's bound. */
  lemma TimeslotBounds(seconds: int, noSecond: bool, ceilOrFloor: string)
    ensures var r := Timeslot(seconds, noSecond, ceilOrFloor);
            r.Parts? && |r.parts| == 2 ==>
              0 < r.parts[1].n &&
              (r.parts[1].unit == Hour ==> r.parts[1].n < 24) &&
              (r.parts[1].unit == MinuteAfterHour ==> r.parts[1].n < 60) &&
              (r.parts[1].unit == Second ==> r.parts[1].n < 60)
  {
  }

  /** How many seconds a unit stands for. */
  function UnitSeconds(u: Unit): nat
  {
    match u
    case Day => 86400
    case Hour => 3600
    case MinuteAfterHour => 60
    case Minute => 60
    case Second => 1
  }

  /** The duration the parts add up to. */
  function Total(parts: seq<Part>): int
    decreases |parts|
  {
    if parts == [] then 0 else parts[0].n * UnitSeconds(parts[0].unit) + Total(parts[1..])
  }

  /** Except for the rounding of `nosecond` below an hour, the phrase
      truncates: it never says more than the duration, and falls short of
      it by less than its smallest unit. */
  lemma TimeslotTruncates(seconds: int, noSecond: bool, ceilOrFloor: string)
    requires seconds > 0
    requires !noSecond || seconds >= 3600
    ensures var parts := Timeslot(seconds, noSecond, ceilOrFloor).parts;
            var last := parts[|parts| - 1].unit;
            Total(parts) <= seconds < Total(parts) + UnitSeconds(last)
  {
    var parts := Timeslot(seconds, noSecond, ceilOrFloor).parts;
    if seconds >= 86400 {
      TimeslotDays(seconds, noSecond, ceilOrFloor);
      TotalOfParts(parts);
      DaysTruncate(seconds);
    } else if seconds >= 3600 {
      TimeslotHours(seconds, noSecond, ceilOrFloor);
      TotalOfParts(parts);
      HoursTruncate(seconds);
    } else {
      TotalOfParts(parts);
    }
  }

  lemma DaysTruncate(seconds: int)
    requires seconds >= 86400
    ensures var d, h := seconds / 86400, seconds / 3600 % 24;
            d * 86400 + h * 3600 <= seconds < d * 86400 + h * 3600 + 3600 &&
            (h == 0 ==> seconds < d * 86400 + 86400)
  {
    var d, h := seconds / 86400, seconds / 3600 % 24;
    assert seconds / 3600 == d * 24 + h;
  }

  lemma HoursTruncate(seconds: int)
    requires seconds >= 3600
    ensures var h, m := seconds / 3600, seconds / 60 % 60;
            h * 3600 + m * 60 <= seconds < h * 3600 + m * 60 + 60 &&
            (m == 0 ==> seconds < h * 3600 + 3600)
  {
    var h, m := seconds / 3600, seconds / 60 % 60;
    assert seconds / 60 == h * 60 + m;
  }

  /** Without seconds below an hour, `ceil` rounds up to the next minute
      and any other mode rounds down, except that under a minute both say
      one minute. */
  lemma TimeslotRounds(seconds: int, ceilOrFloor: string)
    requires 0 < seconds < 3600
    ensures var parts := Timeslot(seconds, true, ceilOrFloor).parts;
            |parts| == 1 && parts[0].unit == Minute &&
            (seconds < 60 ==> parts[0].n == 1) &&
            (seconds >= 60 && ceilOrFloor == "ceil" ==>
               seconds <= Total(parts) < seconds + 60) &&
            (seconds >= 60 && ceilOrFloor != "ceil" ==>
               Total(parts) <= seconds < Total(parts) + 60)
  {
    var parts := Timeslot(seconds, true, ceilOrFloor).parts;
    TotalOfParts(parts);
  }

  /** The total of one or two parts. */
  lemma TotalOfParts(parts: seq<Part>)
    requires 1 <= |parts| <= 2
    ensures |parts| == 1 ==> Total(parts) == parts[0].n * UnitSeconds(parts[0].unit)
    ensures |parts| == 2 ==> Total(parts) == parts[0].n * UnitSeconds(parts[0].unit) +
                                             parts[1].n * UnitSeconds(parts[1].unit)
  {
    if |parts| == 2 {
      assert Total(parts[1..][1..]) == 0;
    } else {
      assert Total(parts[1..]) == 0;
    }
  }

  /** The nested floor quotients are quotients by 3600 and 86400, and the
      remainders the code computes are the usual ones. */
  lemma Quotients(seconds: int)
    requires seconds > 0
    ensures seconds / 60 / 60 == seconds / 3600
    ensures seconds / 60 / 60 / 24 == seconds / 86400
    ensures seconds / 60 / 60 - seconds / 60 / 60 / 24 * 24 == seconds / 3600 % 24
    ensures seconds / 60 - seconds / 60 / 60 * 60 == seconds / 60 % 60
  {
    var m := seconds / 60;
    var h := m / 60;
    assert seconds == m * 60 + seconds % 60;
    assert m == h * 60 + m % 60;
    assert seconds == h * 3600 + (m % 60) * 60 + seconds % 60;
    assert seconds / 3600 == h;
    assert h == h / 24 * 24 + h % 24;
    assert seconds == (h / 24) * 86400 + (h % 24) * 3600 + (m % 60) * 60 + seconds % 60;
    assert seconds / 86400 == h / 24;
  }

  /** The phrase of one or two parts is each number followed by its unit
      word, as the seven `sprintf` formats write them. */
  lemma PhraseOfParts(parts: seq<Part>)
    requires 1 <= |parts| <= 2
    ensures |parts| == 1 ==> Phrase(parts) == IntToString(parts[0].n) + Word(parts[0].unit)
    ensures |parts| == 2 ==> Phrase(parts) == IntToString(parts[0].n) + Word(parts[0].unit) +
                                              IntToString(parts[1].n) + Word(parts[1].unit)
  {
    if |parts| == 2 {
      assert Phrase(parts[1..][1..]) == "";
    } else {
      assert Phrase(parts[1..]) == "";
    }
  }

  /** Two sample durations as the phrases they give. */
  lemma TimeslotSamples()
    ensures Phrase(Timeslot(90000, false, "ceil").parts) == "1天1小时"
    ensures Phrase(Timeslot(61, true, "ceil").parts) == "2分钟"
  {
    assert Timeslot(90000, false, "ceil") == Parts([Part(1, Day), Part(1, Hour)]);
    assert Timeslot(61, true, "ceil") == Parts([Part(2, Minute)]);
    OneTwo();
  }

  lemma OneTwo()
    ensures IntToString(1) == "1" && IntToString(2) == "2"
  {
  }
}
