/** The integer duration renderings of the item cards and the activity list. */
module Format {
  import opened Text

  /**
   * `formatTime`: a number of seconds as "Ns" below a minute, "Xm Ys" below an
   * hour and "Xh Ym" from an hour on (the seconds are then dropped).
   */
  function FormatTime(seconds: int): (r: string)
    ensures seconds < 60 ==> r == IntToString(seconds) + "s"
  {
    if seconds == 0 then "0s"
    else if seconds < 60 then IntToString(seconds) + "s"
    else if seconds < 3600 then NatToString(seconds / 60) + "m " + NatToString(seconds % 60) + "s"
    else NatToString(seconds / 3600) + "h " + NatToString((seconds % 3600) / 60) + "m"
  }

  /** Below an hour the rendering is the unique split of the input into minutes and seconds under 60. */
  lemma FormatTimeMinutes(seconds: int, m: nat, s: nat)
    requires 60 <= seconds < 3600
    requires s < 60 && 60 * m + s == seconds
    ensures FormatTime(seconds) == NatToString(m) + "m " + NatToString(s) + "s"
  {
    assert seconds / 60 == m;
  }

  /** From an hour on the rendering shows whole hours and the minutes under 60 of the rest. */
  lemma FormatTimeHours(seconds: int, h: nat, m: nat, s: nat)
    requires seconds >= 3600
    requires m < 60 && s < 60 && 3600 * h + 60 * m + s == seconds
    ensures FormatTime(seconds) == NatToString(h) + "h " + NatToString(m) + "m"
  {
    assert seconds / 3600 == h;
    assert seconds % 3600 == 60 * m + s;
    assert (seconds % 3600) / 60 == m;
  }

  /** `formatRelativeTime`: the age of a timestamp in whole days, hours or minutes, or "Just now". */
  function FormatRelativeTime(now: int, date: int): (r: string)
    ensures now - date < 60000 ==> r == "Just now"
  {
    var seconds := (now - date) / 1000;
    var minutes := seconds / 60;
    var hours := minutes / 60;
    var days := hours / 24;
    if days > 0 then NatToString(days) + "d ago"
    else if hours > 0 then NatToString(hours) + "h ago"
    else if minutes > 0 then NatToString(minutes) + "m ago"
    else "Just now"
  }

  /**
   * The cascade of floored divisions picks the largest unit of which at least
   * one whole one has elapsed, and shows how many; below a minute, and for
   * timestamps in the future, it says "Just now".
   */
  lemma RelativeTimeMeaning(now: int, date: int)
    ensures var age := now - date;
      && (age >= 86400000 ==> FormatRelativeTime(now, date) == NatToString(age / 86400000) + "d ago")
      && (3600000 <= age < 86400000 ==> FormatRelativeTime(now, date) == NatToString(age / 3600000) + "h ago")
      && (60000 <= age < 3600000 ==> FormatRelativeTime(now, date) == NatToString(age / 60000) + "m ago")
      && (FormatRelativeTime(now, date) == "Just now" <==> age < 60000)
  {
    var age := now - date;
    var seconds := age / 1000;
    var minutes := seconds / 60;
    var hours := minutes / 60;
    var days := hours / 24;
    assert minutes == age / 60000;
    assert hours == age / 3600000;
    assert days == age / 86400000;
    var r := FormatRelativeTime(now, date);
    if age >= 60000 {
      assert r[|r| - 1] == 'o';
    }
  }
}
