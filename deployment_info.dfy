// The deployment panel: the fallbacks it shows for missing fields, the
// shortened commit hash, the backend uptime in hours and minutes, and the
// badge of each service.
module DeploymentInfo {
  import opened Common
  import opened Text

  /**
   * `value || fallback` on an optional string: the value, unless it is
   * absent or empty. The version row falls back to `Unknown`, the badge
   * text to `unknown`.
   */
  function OrElse(value: Option<string>, fallback: string): (r: string)
    ensures value.Some? && value.value != "" ==> r == value.value
    ensures value.None? || value.value == "" ==> r == fallback
  {
    if value.Some? && value.value != "" then value.value else fallback
  }

  /** The version row's fallback. */
  const VersionFallback := "Unknown"

  /** The badge text's fallback. */
  const StatusFallback := "unknown"

  /**
   * The commit row: shown only for a truthy `commitHash`, with its first
   * seven characters (`substring(0, 7)`, the whole hash when shorter).
   */
  function CommitShown(commitHash: Option<string>): (r: Option<string>)
    ensures r.Some? <==> commitHash.Some? && commitHash.value != ""
    ensures r.Some? ==> |r.value| == Min(7, |commitHash.value|) && r.value <= commitHash.value
    ensures r.Some? && |commitHash.value| <= 7 ==> r.value == commitHash.value
  {
    if commitHash.Some? && commitHash.value != "" then Some(TakeFirst(commitHash.value, 7)) else None
  }

  /**
   * `formatUptime(seconds)` on the number the backend reports: `Unknown`
   * for an absent or zero uptime (the falsy ones), otherwise `{h}h {m}m`
   * with every whole hour counted (no rollover into days) and the minutes
   * of the last hour, both as `Math.floor` gives them.
   */
  function FormatUptime(seconds: Option<real>): (r: string)
    ensures r == "Unknown" <==> seconds.None? || seconds.value == 0.0
    ensures seconds.Some? && seconds.value != 0.0 ==>
      var s := seconds.value;
      r == IntToString(HoursOf(s)) + "h " + IntToString(MinutesOf(s)) + "m"
  {
    if seconds.None? || seconds.value == 0.0 then "Unknown"
    else
      var s := seconds.value;
      var r := IntToString(HoursOf(s)) + "h " + IntToString(MinutesOf(s)) + "m";
      assert r[0] != 'U' by { assert r[0] == IntToString(HoursOf(s))[0]; }
      r
  }

  /** The integer part of `x`, rounded toward zero. */
  function Trunc(x: real): int
  {
    if x >= 0.0 then x.Floor else -((-x).Floor)
  }

  /** JavaScript's `x % 3600`: the remainder takes the sign of `x`. */
  function RemHour(x: real): real
  {
    x - 3600.0 * (Trunc(x / 3600.0) as real)
  }

  /** `Math.floor(s / 3600)`. */
  function HoursOf(s: real): int { (s / 3600.0).Floor }

  /** `Math.floor((s % 3600) / 60)`. */
  function MinutesOf(s: real): int { (RemHour(s) / 60.0).Floor }

  /**
   * For a non-negative uptime the hours and minutes shown are those of its
   * whole seconds: the minutes stay below sixty, and together they fall
   * short of the uptime by less than a minute.
   */
  lemma HoursMinutesBounds(s: real)
    requires s >= 0.0
    ensures HoursOf(s) == s.Floor / 3600 && MinutesOf(s) == (s.Floor % 3600) / 60
    ensures 0 <= MinutesOf(s) < 60
    ensures HoursOf(s) * 3600 + MinutesOf(s) * 60 <= s.Floor < HoursOf(s) * 3600 + MinutesOf(s) * 60 + 60
  {
    var n := s.Floor;
    var q, rem := n / 3600, n % 3600;
    assert n == q * 3600 + rem && 0 <= rem < 3600;
    assert (q as real) <= s / 3600.0 < (q as real) + 1.0;
    assert Trunc(s / 3600.0) == q;
    var m, t := rem / 60, rem % 60;
    assert rem == m * 60 + t && 0 <= t < 60;
    assert (rem as real) <= RemHour(s) < (rem as real) + 1.0;
    assert (m as real) <= RemHour(s) / 60.0 < (m as real) + 1.0;
  }

  /** An uptime under a second is truthy: it shows `0h 0m`, not `Unknown`. */
  lemma SubSecondUptime(s: real)
    requires 0.0 < s < 1.0
    ensures FormatUptime(Some(s)) == "0h 0m"
  {
    HoursMinutesBounds(s);
    assert s.Floor == 0;
  }

  /**
   * `ServiceStatus.getStatusColor`: `success` for `running` or `active`,
   * `warning` for `unknown`, `error` for anything else, an absent status
   * included.
   */
  function ServiceColor(status: Option<string>): (r: string)
    ensures r == "success" <==> status == Some("running") || status == Some("active")
    ensures r == "warning" <==> status == Some("unknown")
    ensures r == "error" <==> !(status in {Some("running"), Some("active"), Some("unknown")})
  {
    if status == Some("running") || status == Some("active") then "success"
    else if status == Some("unknown") then "warning"
    else "error"
  }

  /**
   * The text falls back and the colour does not: a service without a
   * status reads `unknown` but is coloured `error`, not the `warning` a
   * reported `unknown` gets.
   */
  lemma AbsentStatusMismatch()
    ensures OrElse(None, StatusFallback) == OrElse(Some("unknown"), StatusFallback) == "unknown"
    ensures ServiceColor(None) == "error" && ServiceColor(Some("unknown")) == "warning"
  {
  }
}
