// The metric cards: the uptime card shows whole days and hours, or hours
// and minutes, or minutes alone.
module MetricsCards {
  import opened Text

  /** Whole days, hours of the day and minutes of the hour in an uptime. */
  datatype Clock = Clock(days: nat, hours: nat, mins: nat)

  /** The seconds a clock reading stands for. */
  function ClockSeconds(c: Clock): nat
  {
    c.days * 86400 + c.hours * 3600 + c.mins * 60
  }

  /**
   * `Math.floor(s / 86400)`, `Math.floor((s % 86400) / 3600)` and
   * `Math.floor((s % 3600) / 60)`: a clock whose hours stay below 24 and
   * minutes below 60, and that falls short of `s` by less than a minute.
   */
  function UptimeClock(seconds: nat): (c: Clock)
    ensures c.hours < 24 && c.mins < 60
    ensures ClockSeconds(c) <= seconds < ClockSeconds(c) + 60
    ensures c.days > 0 <==> seconds >= 86400
    ensures c.days == 0 && c.hours > 0 <==> 3600 <= seconds < 86400
  {
    var days, dayRest := seconds / 86400, seconds % 86400;
    var hours, hourRest := dayRest / 3600, dayRest % 3600;
    assert seconds == (days * 24 + hours) * 3600 + hourRest;
    assert seconds % 3600 == hourRest by {
      SplitHours(seconds, days * 24 + hours, hourRest);
    }
    Clock(days, hours, hourRest / 60)
  }

  /** Seconds made of whole hours and a remainder below an hour split back into them. */
  lemma SplitHours(s: nat, q: nat, r: nat)
    requires 0 <= r < 3600 && s == q * 3600 + r
    ensures s % 3600 == r && s / 3600 == q
  {
  }

  /**
   * `formatUptime(seconds)`: `{d}d {h}h` from a day on (minutes omitted),
   * `{h}h {m}m` from an hour on, `{m}m` below an hour, so `0m` below a
   * minute.
   */
  function FormatUptime(seconds: nat): (r: string)
    ensures var c := UptimeClock(seconds);
      && (seconds >= 86400 ==> r == NatToString(c.days) + "d " + NatToString(c.hours) + "h")
      && (3600 <= seconds < 86400 ==> r == NatToString(c.hours) + "h " + NatToString(c.mins) + "m")
      && (seconds < 3600 ==> r == NatToString(c.mins) + "m")
    ensures seconds < 60 ==> r == "0m"
  {
    var c := UptimeClock(seconds);
    if c.days > 0 then NatToString(c.days) + "d " + NatToString(c.hours) + "h"
    else if c.hours > 0 then NatToString(c.hours) + "h " + NatToString(c.mins) + "m"
    else NatToString(c.mins) + "m"
  }
}
