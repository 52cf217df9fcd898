/** The uptime label of the dashboard. */
module AppPage {
  import opened Strings
  import CameraGrid

  datatype Uptime = Uptime(hours: int, minutes: int)

  /** `Math.floor(seconds / 3600)` and `Math.floor((seconds % 3600) / 60)`,
      with JavaScript's `%`, on a whole number of seconds. */
  function UptimeParts(seconds: int): (u: Uptime)
    ensures seconds >= 0 ==> 0 <= u.hours && 0 <= u.minutes <= 59
    ensures seconds >= 0 ==>
              u.hours * 3600 + u.minutes * 60 <= seconds < u.hours * 3600 + (u.minutes + 1) * 60
  {
    var rem := CameraGrid.JsRem(seconds, 3600);
    DivParts(seconds);
    Uptime(seconds / 3600, rem / 60)
  }

  lemma DivParts(seconds: int)
    ensures seconds >= 0 ==>
              && CameraGrid.JsRem(seconds, 3600) == seconds % 3600
              && seconds == (seconds / 3600) * 3600 + seconds % 3600
              && 0 <= seconds % 3600 < 3600
              && seconds % 3600 == (seconds % 3600 / 60) * 60 + (seconds % 3600) % 60
              && 0 <= (seconds % 3600) % 60 < 60
  {
  }

  /** `formatUptime`: "Xh Ym" with at least one full hour, else "Ym". For a
      non-negative uptime X is the number of whole hours and Y the whole
      minutes left over; the hours show exactly when a full hour has passed. */
  function FormatUptime(seconds: int): (text: string)
    ensures 'h' in text <==> seconds >= 3600
    ensures IsSuffix("m", text)
    ensures seconds >= 0 ==>
              text == (if seconds >= 3600 then NatToString(seconds / 3600) + "h " else "")
                      + NatToString(seconds % 3600 / 60) + "m"
  {
    var u := UptimeParts(seconds);
    IntToStringFree(u.hours, 'h');
    IntToStringFree(u.minutes, 'h');
    assert u.hours > 0 <==> seconds >= 3600;
    var text := if u.hours > 0 then IntToString(u.hours) + "h " + IntToString(u.minutes) + "m"
                else IntToString(u.minutes) + "m";
    assert text[|text| - 1] == 'm';
    assert text[|text| - 1..] == "m";
    text
  }

  /** The hours and minutes are the unique pair that brackets the uptime, so
      they are exactly the whole hours and the leftover whole minutes. */
  lemma UptimePartsUnique(seconds: nat, h: int, m: int)
    requires 0 <= m <= 59
    requires h * 3600 + m * 60 <= seconds < h * 3600 + (m + 1) * 60
    ensures UptimeParts(seconds) == Uptime(h, m)
  {
    var u := UptimeParts(seconds);
    assert u.hours * 3600 + u.minutes * 60 <= seconds < u.hours * 3600 + (u.minutes + 1) * 60;
    HoursUnique(u.hours, u.minutes, h, m, seconds);
  }

  lemma HoursUnique(h1: int, m1: int, h2: int, m2: int, s: int)
    requires 0 <= m1 <= 59 && 0 <= m2 <= 59
    requires h1 * 3600 + m1 * 60 <= s < h1 * 3600 + (m1 + 1) * 60
    requires h2 * 3600 + m2 * 60 <= s < h2 * 3600 + (m2 + 1) * 60
    ensures h1 == h2 && m1 == m2
  {
    assert h1 * 3600 <= s < (h1 + 1) * 3600;
    assert h2 * 3600 <= s < (h2 + 1) * 3600;
  }

  /** Under an hour the label is the minute count alone. */
  lemma FormatUptimeUnderAnHour(seconds: nat)
    requires seconds < 3600
    ensures FormatUptime(seconds) == NatToString(seconds / 60) + "m"
  {
    UptimePartsUnique(seconds, 0, seconds / 60);
  }
}
