/** Naive local date-times as Python's `datetime` holds them (no time zone, no
    microseconds: nothing here produces either), their order, and the two
    renderings the tools use: `str(dt)` and `dt.strftime('%b %d, %Y')`. */
module DateTimes {
  import opened Wrappers
  import opened Text

  datatype DateTime = DateTime(year: int, month: int, day: int, hour: int, minute: int, second: int)

  predicate IsLeapYear(y: int)
  {
    y % 4 == 0 && (y % 100 != 0 || y % 400 == 0)
  }

  function DaysInMonth(y: int, m: int): int
    requires 1 <= m <= 12
  {
    if m == 2 then (if IsLeapYear(y) then 29 else 28)
    else if m == 4 || m == 6 || m == 9 || m == 11 then 30
    else 31
  }

  /** The range checks of Python's `datetime` constructor (years 1 to 9999). */
  predicate Valid(dt: DateTime)
  {
    && 1 <= dt.year <= 9999
    && 1 <= dt.month <= 12
    && 1 <= dt.day <= DaysInMonth(dt.year, dt.month)
    && 0 <= dt.hour <= 23
    && 0 <= dt.minute <= 59
    && 0 <= dt.second <= 59
  }

  /** Python's `a < b` on datetimes: chronological order. */
  predicate Before(a: DateTime, b: DateTime)
  {
    if a.year != b.year then a.year < b.year
    else if a.month != b.month then a.month < b.month
    else if a.day != b.day then a.day < b.day
    else if a.hour != b.hour then a.hour < b.hour
    else if a.minute != b.minute then a.minute < b.minute
    else a.second < b.second
  }

  lemma BeforeTransitive(a: DateTime, b: DateTime, c: DateTime)
    requires Before(a, b) && Before(b, c)
    ensures Before(a, c)
  {}

  /** Python's `min` over a non-empty list of datetimes. */
  function Earliest(ts: seq<DateTime>): (m: DateTime)
    requires |ts| > 0
    ensures m in ts
    ensures forall t <- ts :: !Before(t, m)
  {
    if |ts| == 1 then ts[0]
    else
      var rest := Earliest(ts[1..]);
      assert forall t <- ts[1..] :: !Before(t, rest);
      if Before(ts[0], rest) then
        assert forall t <- ts[1..] :: !Before(t, ts[0]) by {
          forall t | t in ts[1..] ensures !Before(t, ts[0]) {
            if Before(t, ts[0]) { BeforeTransitive(t, ts[0], rest); }
          }
        }
        ts[0]
      else rest
  }

  /** Python's `max` over a non-empty list of datetimes. */
  function Latest(ts: seq<DateTime>): (m: DateTime)
    requires |ts| > 0
    ensures m in ts
    ensures forall t <- ts :: !Before(m, t)
  {
    if |ts| == 1 then ts[0]
    else
      var rest := Latest(ts[1..]);
      assert forall t <- ts[1..] :: !Before(rest, t);
      if Before(rest, ts[0]) then
        assert forall t <- ts[1..] :: !Before(ts[0], t) by {
          forall t | t in ts[1..] ensures !Before(ts[0], t) {
            if Before(ts[0], t) { BeforeTransitive(rest, ts[0], t); }
          }
        }
        ts[0]
      else rest
  }

  // ----- renderings -----

  /** `%b` in the C locale. */
  const MonthAbbreviations: seq<string> :=
    ["Jan", "Feb", "Mar", "Apr", "May", "Jun", "Jul", "Aug", "Sep", "Oct", "Nov", "Dec"]

  /** `str(dt)`: "YYYY-MM-DD HH:MM:SS". */
  function IsoText(dt: DateTime): string
    requires Valid(dt)
  {
    PadDecimal(dt.year, 4) + "-" + PadDecimal(dt.month, 2) + "-" + PadDecimal(dt.day, 2) + " "
    + (PadDecimal(dt.hour, 2) + ":" + PadDecimal(dt.minute, 2) + ":" + PadDecimal(dt.second, 2))
  }

  /** Three digit fields of widths `w1`, 2 and 2 separated by `sep`, read as numbers. */
  function ParseFields(s: string, w1: nat, sep: char): Option<(nat, nat, nat)>
  {
    if |s| == w1 + 6 && s[w1] == sep && s[w1 + 3] == sep
       && AllDigits(s[..w1]) && AllDigits(s[w1 + 1..w1 + 3]) && AllDigits(s[w1 + 4..])
    then Some((Decimal(s[..w1]), Decimal(s[w1 + 1..w1 + 3]), Decimal(s[w1 + 4..])))
    else None
  }

  lemma ParseFieldsOfPads(a: nat, b: nat, c: nat, w1: nat, sep: char)
    requires a < Pow10(w1) && b < 100 && c < 100 && !IsDigit(sep)
    ensures ParseFields(PadDecimal(a, w1) + [sep] + PadDecimal(b, 2) + [sep] + PadDecimal(c, 2), w1, sep)
            == Some((a, b, c))
  {
    var x, y, z := PadDecimal(a, w1), PadDecimal(b, 2), PadDecimal(c, 2);
    var s := x + [sep] + y + [sep] + z;
    assert |x| == w1 && |y| == 2 && |z| == 2;
    assert s[..w1] == x;
    assert s[w1 + 1..w1 + 3] == y;
    assert s[w1 + 4..] == z;
    assert s[w1] == sep && s[w1 + 3] == sep;
    assert Pow10(2) == 100;
    DecimalOfPad(a, w1);
    DecimalOfPad(b, 2);
    DecimalOfPad(c, 2);
  }

  /** Reads "YYYY-MM-DD HH:MM:SS" back; the inverse of `IsoText`. */
  function ParseIsoText(s: string): Option<DateTime>
  {
    if |s| == 19 && s[10] == ' ' then
      match (ParseFields(s[..10], 4, '-'), ParseFields(s[11..], 2, ':'))
      case (Some((y, mo, d)), Some((h, mi, se))) => Some(DateTime(y, mo, d, h, mi, se))
      case _ => None
    else None
  }

  /** `str(dt)` loses nothing: the date-time can be read back from it. */
  lemma IsoTextRoundTrip(dt: DateTime)
    requires Valid(dt)
    ensures |IsoText(dt)| == 19
    ensures ParseIsoText(IsoText(dt)) == Some(dt)
  {
    var date := PadDecimal(dt.year, 4) + "-" + PadDecimal(dt.month, 2) + "-" + PadDecimal(dt.day, 2);
    var time := PadDecimal(dt.hour, 2) + ":" + PadDecimal(dt.minute, 2) + ":" + PadDecimal(dt.second, 2);
    var s := IsoText(dt);
    assert s == date + " " + time;
    assert s[..10] == date && s[11..] == time;
    assert Pow10(4) == 10000;
    ParseFieldsOfPads(dt.year, dt.month, dt.day, 4, '-');
    ParseFieldsOfPads(dt.hour, dt.minute, dt.second, 2, ':');
  }

  /** The stamp WhatsApp writes in a 24-hour export: "DD/MM/YYYY, HH:MM". */
  function ExportStamp(dt: DateTime): string
    requires Valid(dt)
  {
    PadDecimal(dt.day, 2) + "/" + PadDecimal(dt.month, 2) + "/" + PadDecimal(dt.year, 4) + ", "
    + PadDecimal(dt.hour, 2) + ":" + PadDecimal(dt.minute, 2)
  }

  /** The character layout of "DD/MM/YYYY, HH:MM". */
  predicate ExportShape(s: string)
  {
    && |s| == 17 && s[2] == '/' && s[5] == '/' && s[10] == ',' && s[11] == ' ' && s[14] == ':'
    && forall k :: 0 <= k < 17 && k !in {2, 5, 10, 11, 14} ==> IsDigit(s[k])
  }

  /** Where the separators and digits of an export stamp sit. */
  lemma ExportStampShape(dt: DateTime)
    requires Valid(dt)
    ensures ExportShape(ExportStamp(dt))
  {
    var d, mo, y, h, mi := PadDecimal(dt.day, 2), PadDecimal(dt.month, 2), PadDecimal(dt.year, 4),
                           PadDecimal(dt.hour, 2), PadDecimal(dt.minute, 2);
    var s := ExportStamp(dt);
    assert s == d + "/" + mo + "/" + y + ", " + h + ":" + mi;
    assert s[0..2] == d && s[3..5] == mo && s[6..10] == y && s[12..14] == h && s[15..17] == mi;
    forall k | 0 <= k < 17 && k !in {2, 5, 10, 11, 14} ensures IsDigit(s[k]) {
      if k < 2 { assert s[k] == d[k]; }
      else if k < 5 { assert s[k] == mo[k - 3]; }
      else if k < 10 { assert s[k] == y[k - 6]; }
      else if k < 14 { assert s[k] == h[k - 12]; }
      else { assert s[k] == mi[k - 15]; }
    }
  }

  /** Where each field of the date-time sits in its export stamp. */
  lemma ExportStampFields(dt: DateTime)
    requires Valid(dt)
    ensures var s := ExportStamp(dt);
      && s[..2] == PadDecimal(dt.day, 2) && s[3..5] == PadDecimal(dt.month, 2)
      && s[6..10] == PadDecimal(dt.year, 4) && s[12..14] == PadDecimal(dt.hour, 2)
      && s[15..] == PadDecimal(dt.minute, 2)
  {
    var d, mo, y, h, mi := PadDecimal(dt.day, 2), PadDecimal(dt.month, 2), PadDecimal(dt.year, 4),
                           PadDecimal(dt.hour, 2), PadDecimal(dt.minute, 2);
    assert ExportStamp(dt) == d + "/" + mo + "/" + y + ", " + h + ":" + mi;
  }

  /** The stamp with seconds, "DD/MM/YYYY, HH:MM:SS". */
  function ExportStampSeconds(dt: DateTime): string
    requires Valid(dt)
  {
    ExportStamp(dt) + ":" + PadDecimal(dt.second, 2)
  }

  /** The character layout of "DD/MM/YYYY, HH:MM:SS". */
  predicate SecondsShape(s: string)
  {
    |s| == 20 && ExportShape(s[..17]) && s[17] == ':' && IsDigit(s[18]) && IsDigit(s[19])
  }

  /** The shape `D/D/DD,D:DD`: a one-digit day and month, a two-digit year, and no
      whitespace after the comma. */
  predicate TightShape(t: string)
  {
    && |t| == 11 && t[1] == '/' && t[3] == '/' && t[6] == ',' && t[8] == ':'
    && forall k :: 0 <= k < 11 && k !in {1, 3, 6, 8} ==> IsDigit(t[k])
  }

  lemma ExportStampSecondsShape(dt: DateTime)
    requires Valid(dt)
    ensures SecondsShape(ExportStampSeconds(dt))
    ensures ExportStampSeconds(dt)[..17] == ExportStamp(dt)
    ensures ExportStampSeconds(dt)[18..] == PadDecimal(dt.second, 2)
  {
    var s := ExportStampSeconds(dt);
    var sec := PadDecimal(dt.second, 2);
    ExportStampShape(dt);
    assert s[..17] == ExportStamp(dt) && s[18..] == sec;
    assert s[18] == sec[0] && s[19] == sec[1];
  }

  /** Where each field of the date-time sits in its stamp with seconds. */
  lemma ExportStampSecondsFields(dt: DateTime)
    requires Valid(dt)
    ensures var s := ExportStampSeconds(dt);
      && s[..2] == PadDecimal(dt.day, 2) && s[3..5] == PadDecimal(dt.month, 2)
      && s[6..10] == PadDecimal(dt.year, 4) && s[12..14] == PadDecimal(dt.hour, 2)
      && s[15..17] == PadDecimal(dt.minute, 2) && s[18..20] == PadDecimal(dt.second, 2)
  {
    var e, sec := ExportStamp(dt), PadDecimal(dt.second, 2);
    var s := ExportStampSeconds(dt);
    ExportStampFields(dt);
    ExportStampShape(dt);
    assert s[..17] == e && s[18..20] == sec;
    assert s[..2] == e[..2] && s[3..5] == e[3..5] && s[6..10] == e[6..10];
    assert s[12..14] == e[12..14] && s[15..17] == e[15..];
  }

  /** `dt.strftime('%b %d, %Y')`, e.g. "Jan 05, 2024". */
  function ShortDate(dt: DateTime): string
    requires Valid(dt)
  {
    MonthAbbreviations[dt.month - 1] + " " + PadDecimal(dt.day, 2) + ", " + PadDecimal(dt.year, 4)
  }

  /** Reads "Mon DD, YYYY" back to (year, month, day); the inverse of `ShortDate`. */
  function ParseShortDate(s: string): Option<(int, int, int)>
  {
    if |s| == 12 && s[3] == ' ' && s[6..8] == ", " && s[..3] in MonthAbbreviations
       && AllDigits(s[4..6]) && AllDigits(s[8..])
    then
      var m :| 0 <= m < 12 && MonthAbbreviations[m] == s[..3];
      Some((Decimal(s[8..]), m + 1, Decimal(s[4..6])))
    else None
  }

  /** The short rendering keeps the calendar date. */
  lemma ShortDateRoundTrip(dt: DateTime)
    requires Valid(dt)
    ensures |ShortDate(dt)| == 12
    ensures ParseShortDate(ShortDate(dt)) == Some((dt.year, dt.month, dt.day))
  {
    var s := ShortDate(dt);
    var d, y := PadDecimal(dt.day, 2), PadDecimal(dt.year, 4);
    assert s == MonthAbbreviations[dt.month - 1] + " " + d + ", " + y;
    assert s[..3] == MonthAbbreviations[dt.month - 1];
    assert s[4..6] == d && s[8..] == y;
    assert Pow10(2) == 100 && Pow10(4) == 10000;
    DecimalOfPad(dt.day, 2);
    DecimalOfPad(dt.year, 4);
    forall m | 0 <= m < 12 && MonthAbbreviations[m] == s[..3] ensures m == dt.month - 1 {
    }
  }
}
