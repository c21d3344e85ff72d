/** The rotation of each clock hand, in degrees clockwise from twelve o'clock,
    as a function of the local time the component has sampled.

    The values are exact rationals: the model works on mathematical reals, not
    on the double-precision numbers the browser computes with. */
module ClockDegrees {

  /** Hours, minutes and seconds of local time, as `getHours()`, `getMinutes()`
      and `getSeconds()` of a `Date` report them. */
  datatype Hms = Hms(hours: nat, minutes: nat, seconds: nat)

  /** The readings a `Date` can give: hours 0..23, minutes and seconds 0..59. */
  type LocalTime = t: Hms | t.hours < 24 && t.minutes < 60 && t.seconds < 60
    witness Hms(0, 0, 0)

  /** Seconds elapsed since the start of the current hour. */
  function SecondOfHour(t: LocalTime): nat {
    t.minutes * 60 + t.seconds
  }

  /** Minutes elapsed since midnight. */
  function MinuteOfDay(t: LocalTime): nat {
    t.hours * 60 + t.minutes
  }

  /** Second hand: `(s / 60) * 360`, six degrees per second. */
  function SecondDegree(t: LocalTime): (d: real)
    ensures d == 6.0 * t.seconds as real
    ensures 0.0 <= d < 360.0
    ensures d == 0.0 <==> t.seconds == 0
  {
    (t.seconds as real / 60.0) * 360.0
  }

  /** Minute hand: `((m + s / 60) / 60) * 360`, which moves a tenth of a degree
      per second and so sweeps continuously. */
  function MinuteDegree(t: LocalTime): (d: real)
    ensures d == 6.0 * t.minutes as real + t.seconds as real / 10.0
    ensures d == SecondOfHour(t) as real / 10.0
    ensures 0.0 <= d < 360.0
  {
    var m := t.minutes as real + t.seconds as real / 60.0;
    (m / 60.0) * 360.0
  }

  /** Hour hand: `((h + m / 60) / 12) * 360`. The hour is NOT reduced modulo
      12, so afternoon readings give angles of 360 degrees and more. */
  function HourDegree(t: LocalTime): (d: real)
    ensures d == 30.0 * t.hours as real + t.minutes as real / 2.0
    ensures d == MinuteOfDay(t) as real / 2.0
    ensures 0.0 <= d < 720.0
    ensures d < 360.0 <==> t.hours < 12
  {
    var h := t.hours as real + t.minutes as real / 60.0;
    (h / 12.0) * 360.0
  }

  /** Within one minute the second hand only moves forward. */
  lemma SecondDegreeIncreasing(t1: LocalTime, t2: LocalTime)
    requires t1.seconds < t2.seconds
    ensures SecondDegree(t1) < SecondDegree(t2)
  {
  }

  /** Within one hour the minute hand only moves forward, and it moves with
      every second, not only when the minute changes. */
  lemma MinuteDegreeIncreasing(t1: LocalTime, t2: LocalTime)
    requires SecondOfHour(t1) < SecondOfHour(t2)
    ensures MinuteDegree(t1) < MinuteDegree(t2)
  {
  }

  /** With the minute fixed, the minute hand moves forward with the seconds. */
  lemma MinuteDegreeIncreasingInSeconds(t1: LocalTime, t2: LocalTime)
    ensures t1.minutes == t2.minutes && t1.seconds < t2.seconds ==> MinuteDegree(t1) < MinuteDegree(t2)
  {
  }

  /** The hour hand does not look at the seconds. */
  lemma HourDegreeIgnoresSeconds(t1: LocalTime, t2: LocalTime)
    requires t1.hours == t2.hours && t1.minutes == t2.minutes
    ensures HourDegree(t1) == HourDegree(t2)
  {
  }

  /** Since the hour is not reduced modulo 12, the hour angle increases over
      the whole day and so tells every minute of the day apart. */
  lemma HourDegreeIncreasing(t1: LocalTime, t2: LocalTime)
    ensures MinuteOfDay(t1) < MinuteOfDay(t2) <==> HourDegree(t1) < HourDegree(t2)
  {
  }

  /** An afternoon hour is its morning hour plus one full turn: the same place
      on the dial, but a different angle. */
  lemma HourDegreeAfternoon(t: LocalTime)
    requires t.hours < 12
    ensures HourDegree(Hms(t.hours + 12, t.minutes, t.seconds)) == HourDegree(t) + 360.0
  {
  }

  /** The hour hand sits at the hour's mark plus a twelfth of the whole-minute
      part of the minute hand's angle. */
  lemma HourFollowsMinute(t: LocalTime)
    ensures HourDegree(t) == 30.0 * t.hours as real + (MinuteDegree(t) - SecondDegree(t) / 60.0) / 12.0
  {
  }

  /** Worked values: 3:00 and 15:00, 6:30, and 5 minutes 30 seconds. */
  lemma DegreeExamples()
    ensures HourDegree(Hms(3, 0, 0)) == 90.0
    ensures HourDegree(Hms(15, 0, 0)) == 450.0
    ensures HourDegree(Hms(6, 30, 0)) == 195.0
    ensures MinuteDegree(Hms(0, 5, 30)) == 33.0
    ensures SecondDegree(Hms(0, 0, 15)) == 90.0
  {
  }
}
