/** Calendar arithmetic on java.time.LocalDate values, held as epoch days
    (day 0 is 1970-01-01, a Thursday). Weeks run Monday..Sunday as in
    ISO-8601, which is what `LocalDate.with(DayOfWeek.FRIDAY)` uses. */
module Calendar {
  import JavaText

  const MONDAY := 0
  const FRIDAY := 4
  const SATURDAY := 5
  const SUNDAY := 6

  /** ISO day of the week, Monday = 0 .. Sunday = 6. */
  function DayOfWeek(d: int): (w: nat)
    ensures w < 7
  {
    (d + 3) % 7
  }

  /** The Monday that starts the week holding `d`. */
  function WeekStart(d: int): int
  {
    d - DayOfWeek(d)
  }

  /** `d.with(DayOfWeek.FRIDAY)`: the Friday of the Monday-first week that
      holds `d`, so a Saturday or Sunday moves back to the Friday before. */
  function EndOfWeekFriday(d: int): (f: int)
    ensures DayOfWeek(f) == FRIDAY
    ensures WeekStart(f) == WeekStart(d)
    ensures d - 2 <= f <= d + 4
  {
    d + (FRIDAY - DayOfWeek(d))
  }

  /** The week-ending Friday of a Friday is that Friday, so the operation
      is idempotent. */
  lemma FridayIsFixed(d: int)
    requires DayOfWeek(d) == FRIDAY
    ensures EndOfWeekFriday(d) == d
  {
  }

  /** Two days share a week-ending Friday exactly when they share a week. */
  lemma SameFridayIffSameWeek(a: int, b: int)
    ensures EndOfWeekFriday(a) == EndOfWeekFriday(b) <==> WeekStart(a) == WeekStart(b)
  {
  }

  /** `!end.isBefore(today.with(FRIDAY))` for a sheet that ends on a Friday
      holds exactly while `today` is no later than the Sunday after it: the
      sheet of last week stays editable over the weekend. */
  lemma NotBeforeThisFridayIff(end: int, today: int)
    requires DayOfWeek(end) == FRIDAY
    ensures end >= EndOfWeekFriday(today) <==> today <= end + 2
  {
    var f := EndOfWeekFriday(today);
    var w := DayOfWeek(today);
    assert (end - f) % 7 == 0 by {
      assert (end + 3) % 7 == (f + 3) % 7;
    }
    if today > end + 2 {
      assert f >= today - 2;
    }
  }

  // ---------------------------------------------------------------------
  // LocalDate.toString: the ISO-8601 text of an epoch day
  // ---------------------------------------------------------------------

  /** Year, month (1..12) and day of month (1..31) of an epoch day, by the
      proleptic Gregorian calendar. */
  function CivilFromDays(d: int): (ymd: (int, int, int))
    ensures 1 <= ymd.1 <= 12 && 1 <= ymd.2 <= 31
  {
    var z := d + 719468;
    var era := z / 146097;
    var doe := z % 146097;
    var yoe := (doe - doe / 1460 + doe / 36524 - doe / 146096) / 365;
    var doy := doe - (365 * yoe + yoe / 4 - yoe / 100);
    var mp := (5 * doy + 2) / 153;
    var day := doy - (153 * mp + 2) / 5 + 1;
    var month := if mp < 10 then mp + 3 else mp - 9;
    var year := yoe + era * 400 + (if month <= 2 then 1 else 0);
    // The algorithm keeps month and day in range; the guards only let
    // the verifier see it without non-linear reasoning.
    (year, if 1 <= month <= 12 then month else 1, if 1 <= day <= 31 then day else 1)
  }

  /** `n` written with at least `width` digits, zero-padded on the left. */
  function PadDigits(n: nat, width: nat): (s: string)
    ensures |s| >= width
    ensures JavaText.AllDigits(s) && JavaText.DigitsValue(s) == n
  {
    var s := JavaText.NatToString(n);
    if |s| >= width then s else ZeroPad(s, width - |s|)
  }

  function ZeroPad(s: string, k: nat): (r: string)
    requires JavaText.AllDigits(s)
    ensures |r| == |s| + k
    ensures JavaText.AllDigits(r) && JavaText.DigitsValue(r) == JavaText.DigitsValue(s)
    decreases k
  {
    if k == 0 then s
    else
      var r := ZeroPad("0" + s, k - 1);
      LeadingZero(s);
      r
  }

  /** A leading zero does not change the value of a digit string. */
  lemma LeadingZero(s: string)
    requires JavaText.AllDigits(s)
    ensures JavaText.AllDigits("0" + s) && JavaText.DigitsValue("0" + s) == JavaText.DigitsValue(s)
  {
    if s != [] {
      assert ("0" + s)[..|"0" + s| - 1] == "0" + s[..|s| - 1];
      LeadingZero(s[..|s| - 1]);
    }
  }

  /** The year as LocalDate.toString writes it: at least four digits, a
      minus sign before a negative year and a plus sign beyond 9999. */
  function YearText(y: int): (s: string)
    ensures |s| >= 4
  {
    var a := if y < 0 then -y else y;
    (if y > 9999 then "+" else if y < 0 then "-" else "") + PadDigits(a, 4)
  }

  /** LocalDate.toString: `yyyy-MM-dd`. */
  function IsoDate(d: int): (s: string)
    ensures |s| >= 10
  {
    var ymd := CivilFromDays(d);
    YearText(ymd.0) + "-" + PadDigits(ymd.1, 2) + "-" + PadDigits(ymd.2, 2)
  }
}
