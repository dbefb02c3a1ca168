/** `parse_timestamp`: a header's date-time token is cleaned and then tried against
    twelve `datetime.strptime` layouts in a fixed order; the first that accepts the
    whole token gives the result, and a token none accepts has no timestamp.

    Every layout has the shape `<a>/<b>/<year>, <hour>:<minute>[:<second>][ <am/pm>]`,
    so a token is first cut into its fields once (`Scan`, the structure that
    every layout's pattern imposes) and each layout then checks the fields
    (`Interpret`). The checks follow strptime's field patterns: `%d` one or two
    digits 1..31 or a space and one digit 1..9, `%m` and `%I` 1..12, `%H` 0..23,
    `%M` 0..59, `%S` 0..59 (60 and 61 pass the pattern but not `datetime`), `%Y`
    exactly four digits and at least 1, `%y` exactly two digits with 00..68 read as
    20xx and 69..99 as 19xx, `%p` "am"/"pm" in any case; the space in ", " and in
    " %p" stands for one or more whitespace characters; the day must exist in
    that month and year. */
module Timestamps {
  import opened Wrappers
  import opened Text
  import opened DateTimes

  datatype Clock = Hours24 | Hours24Seconds | Hours12 | Hours12Seconds {
    predicate TwelveHour() { Hours12? || Hours12Seconds? }
    predicate WithSeconds() { Hours24Seconds? || Hours12Seconds? }
  }

  /** One `strptime` layout: `dayFirst` is `%d/%m` rather than `%m/%d`, `fullYear` is
      `%Y` rather than `%y`. */
  datatype Layout = Layout(dayFirst: bool, fullYear: bool, clock: Clock)

  /** The layouts in the order they are tried (utils/parser.py:88-101). */
  const Layouts: seq<Layout> := [
    Layout(true, true, Hours24),          // %d/%m/%Y, %H:%M
    Layout(true, false, Hours24),         // %d/%m/%y, %H:%M
    Layout(false, true, Hours24),         // %m/%d/%Y, %H:%M
    Layout(false, false, Hours24),        // %m/%d/%y, %H:%M
    Layout(true, true, Hours24Seconds),   // %d/%m/%Y, %H:%M:%S
    Layout(true, false, Hours24Seconds),  // %d/%m/%y, %H:%M:%S
    Layout(true, true, Hours12),          // %d/%m/%Y, %I:%M %p
    Layout(true, false, Hours12),         // %d/%m/%y, %I:%M %p
    Layout(false, true, Hours12),         // %m/%d/%Y, %I:%M %p
    Layout(false, false, Hours12),        // %m/%d/%y, %I:%M %p
    Layout(true, true, Hours12Seconds),   // %d/%m/%Y, %I:%M:%S %p
    Layout(false, false, Hours12Seconds)  // %m/%d/%y, %I:%M:%S %p
  ]

  /** The raw text of each field of a token. */
  datatype Fields = Fields(first: string, second: string, year: string, hour: string, minute: string,
                           seconds: Option<string>, meridiem: Option<string>)

  /** End of a `%d`/`%m` field at `i`: an optional single space, then a run of digits. */
  function DateFieldEnd(t: string, i: nat): (e: nat)
    requires i <= |t|
    ensures i <= e <= |t|
  {
    if i < |t| && t[i] == ' ' then i + 1 + DigitRun(t, i + 1) else i + DigitRun(t, i)
  }

  /** Cuts a token into `<a>/<b>/<year>,<ws><hour>:<minute>[:<second>][<ws><meridiem>]`. */
  function Scan(t: string): Option<Fields>
  {
    var e1 := DateFieldEnd(t, 0);
    if e1 == |t| || t[e1] != '/' then None else
    var e2 := DateFieldEnd(t, e1 + 1);
    if e2 == |t| || t[e2] != '/' then None else
    var e3 := e2 + 1 + DigitRun(t, e2 + 1);
    if e3 == |t| || t[e3] != ',' then None else
    var g := SkipSpaces(t, e3 + 1);
    if g == e3 + 1 then None else
    var e4 := g + DigitRun(t, g);
    if e4 == |t| || t[e4] != ':' then None else
    var e5 := e4 + 1 + DigitRun(t, e4 + 1);
    var e6 := if e5 < |t| && t[e5] == ':' then e5 + 1 + DigitRun(t, e5 + 1) else e5;
    var seconds := if e6 > e5 then Some(t[e5 + 1..e6]) else None;
    var fields := Fields(t[..e1], t[e1 + 1..e2], t[e2 + 1..e3], t[g..e4], t[e4 + 1..e5], seconds, None);
    if e6 == |t| then Some(fields)
    else
      var g2 := SkipSpaces(t, e6);
      if g2 == e6 then None else Some(fields.(meridiem := Some(t[g2..])))
  }

  /** One or two digits with a value in `lo..hi`. */
  function Number(s: string, lo: nat, hi: nat): (r: Option<nat>)
    ensures r.Some? ==> lo <= r.value <= hi
  {
    if 1 <= |s| <= 2 && AllDigits(s) && lo <= Decimal(s) <= hi then Some(Decimal(s)) else None
  }

  /** `%d`: a number 1..31, or a space and one digit 1..9. */
  function DayNumber(s: string): (r: Option<nat>)
    ensures r.Some? ==> 1 <= r.value <= 31
  {
    if |s| == 2 && s[0] == ' ' && IsDigit(s[1]) && s[1] != '0' then Some(DigitValue(s[1]))
    else Number(s, 1, 31)
  }

  /** `%Y` (four digits, at least year 1) or `%y` (two digits, pivot at 69). */
  function YearNumber(s: string, fullYear: bool): (r: Option<nat>)
    ensures r.Some? ==> 1 <= r.value <= 9999
  {
    if fullYear then
      if |s| == 4 && AllDigits(s) && Decimal(s) >= 1 then
        assert Decimal(s) <= 9999 by { DecimalBound(s); }
        Some(Decimal(s))
      else None
    else if |s| == 2 && AllDigits(s) then
      assert Decimal(s) <= 99 by { DecimalBound(s); }
      var v := Decimal(s);
      Some(if v <= 68 then v + 2000 else v + 1900)
    else None
  }

  lemma {:induction false} DecimalBound(s: string)
    requires AllDigits(s)
    ensures Decimal(s) < Pow10(|s|)
  {
    if s != [] {
      var init := s[..|s| - 1];
      DecimalBound(init);
      assert DigitValue(s[|s| - 1]) <= 9;
      assert Pow10(|s|) == 10 * Pow10(|init|);
    }
  }

  /** `%p`: true for "pm", false for "am", in any case. */
  function Meridiem(s: string): Option<bool>
  {
    if |s| == 2 && LowerChar(s[1]) == 'm' && (LowerChar(s[0]) == 'a' || LowerChar(s[0]) == 'p')
    then Some(LowerChar(s[0]) == 'p')
    else None
  }

  /** What a layout demands of a token's shape: a four-digit year, a seconds field,
      an am/pm marker. */
  function Family(l: Layout): (bool, bool, bool)
  {
    (l.fullYear, l.clock.WithSeconds(), l.clock.TwelveHour())
  }

  /** What a token's fields offer: a four-digit year, a seconds field, an am/pm marker. */
  function ShapeOf(f: Fields): (bool, bool, bool)
  {
    (|f.year| == 4, f.seconds.Some?, f.meridiem.Some?)
  }

  /** The fields read under one layout, with the `datetime` range checks. */
  function Interpret(l: Layout, f: Fields): (r: Option<DateTime>)
    ensures r.Some? ==> Valid(r.value)
    ensures r.Some? ==> Family(l) == ShapeOf(f)
  {
    var day :- DayNumber(if l.dayFirst then f.first else f.second);
    var month :- Number(if l.dayFirst then f.second else f.first, 1, 12);
    var year :- YearNumber(f.year, l.fullYear);
    var hour :- if l.clock.TwelveHour() then Number(f.hour, 1, 12) else Number(f.hour, 0, 23);
    var minute :- Number(f.minute, 0, 59);
    var second :- if !l.clock.WithSeconds() then (if f.seconds.None? then Some(0) else None)
                  else if f.seconds.Some? then Number(f.seconds.value, 0, 59) else None;
    var pm :- if !l.clock.TwelveHour() then (if f.meridiem.None? then Some(false) else None)
              else if f.meridiem.Some? then Meridiem(f.meridiem.value) else None;
    var hour24 := if !l.clock.TwelveHour() then hour
                  else if pm then (if hour == 12 then 12 else hour + 12)
                  else (if hour == 12 then 0 else hour);
    if day > DaysInMonth(year, month) then None
    else Some(DateTime(year, month, day, hour24, minute, second))
  }

  /** `datetime.strptime(t, layout)`, with failure as `None`. */
  function ParseWith(l: Layout, t: string): (r: Option<DateTime>)
    ensures r.Some? ==> Valid(r.value)
    ensures r.Some? ==> Scan(t).Some? && Family(l) == ShapeOf(Scan(t).value)
  {
    match Scan(t)
    case None => None
    case Some(f) => Interpret(l, f)
  }

  /** The token is stripped, then narrow and ordinary no-break spaces become spaces. */
  function Clean(raw: string): string
  {
    ReplaceChar(ReplaceChar(Strip(raw), '\U{202F}', ' '), '\U{A0}', ' ')
  }

  /** The outcome of every layout on the cleaned token, in list order. */
  function Attempts(t: string): seq<Option<DateTime>>
  {
    seq(|Layouts|, k requires 0 <= k < |Layouts| => ParseWith(Layouts[k], t))
  }

  /** The first present value of a list, scanning from the front. */
  function FirstSome<T>(rs: seq<Option<T>>): Option<T>
  {
    if rs == [] then None
    else if rs[0].Some? then rs[0]
    else FirstSome(rs[1..])
  }

  /** `parse_timestamp`. */
  function ParseTimestamp(raw: string): Option<DateTime>
  {
    FirstSome(Attempts(Clean(raw)))
  }

  // ----- properties -----

  /** First match wins: the search returns the earliest present value, and nothing
      when every value is absent. */
  lemma {:induction false} FirstSomeIsFirstMatch<T>(rs: seq<Option<T>>)
    ensures FirstSome(rs).None? <==> forall k :: 0 <= k < |rs| ==> rs[k].None?
    ensures FirstSome(rs).Some? ==>
      exists k :: 0 <= k < |rs| && rs[k] == FirstSome(rs) && forall j :: 0 <= j < k ==> rs[j].None?
  {
    if rs != [] && rs[0].None? {
      FirstSomeIsFirstMatch(rs[1..]);
      if FirstSome(rs).Some? {
        var k :| 0 <= k < |rs[1..]| && rs[1..][k] == FirstSome(rs) && forall j :: 0 <= j < k ==> rs[1..][j].None?;
        assert rs[k + 1] == FirstSome(rs);
        assert forall j :: 0 <= j < k + 1 ==> rs[j].None? by {
          forall j | 0 < j < k + 1 ensures rs[j].None? { assert rs[j] == rs[1..][j - 1]; }
        }
      } else {
        forall k | 0 < k < |rs| ensures rs[k].None? { assert rs[k] == rs[1..][k - 1]; }
      }
    } else if rs != [] {
      assert rs[0] == FirstSome(rs);
    }
  }

  /** `parse_timestamp` gives `dt` exactly when some layout reads `dt` and every
      earlier layout rejects the cleaned token, and gives nothing when all reject it. */
  lemma ParseTimestampFirstMatch(raw: string)
    ensures ParseTimestamp(raw).None? <==>
      forall k :: 0 <= k < |Layouts| ==> ParseWith(Layouts[k], Clean(raw)).None?
    ensures ParseTimestamp(raw).Some? ==>
      exists k :: 0 <= k < |Layouts| && ParseWith(Layouts[k], Clean(raw)) == ParseTimestamp(raw)
                  && forall j :: 0 <= j < k ==> ParseWith(Layouts[j], Clean(raw)).None?
  {
    var rs := Attempts(Clean(raw));
    FirstSomeIsFirstMatch(rs);
    assert forall k :: 0 <= k < |Layouts| ==> rs[k] == ParseWith(Layouts[k], Clean(raw));
  }

  /** Each day-first layout is preceded only by layouts that differ from it in year
      width or clock. */
  lemma EarlierLayoutsDiffer(k: nat)
    requires k < |Layouts| && Layouts[k].dayFirst
    ensures forall j :: 0 <= j < k ==> Family(Layouts[j]) != Family(Layouts[k])
  {
  }

  /** Day-first layouts come before their month-first twins, so a token that a
      day-first layout accepts is read day-first, even when the month-first reading
      would also succeed. */
  lemma DayFirstWins(raw: string, k: nat, dt: DateTime)
    requires k < |Layouts| && Layouts[k].dayFirst
    requires ParseWith(Layouts[k], Clean(raw)) == Some(dt)
    ensures ParseTimestamp(raw) == Some(dt)
  {
    var rs := Attempts(Clean(raw));
    EarlierLayoutsDiffer(k);
    assert rs[k] == Some(dt);
    assert forall j :: 0 <= j < k ==> rs[j].None?;
    FirstSomeFrom(rs, k);
  }

  lemma {:induction false} FirstSomeFrom<T>(rs: seq<Option<T>>, k: nat)
    requires k < |rs| && rs[k].Some?
    requires forall j :: 0 <= j < k ==> rs[j].None?
    ensures FirstSome(rs) == rs[k]
  {
    if k > 0 {
      FirstSomeFrom(rs[1..], k - 1);
    }
  }

  /** There is no month-first 24-hour layout with seconds: a token of that shape which
      the day-first reading rejects has no timestamp, even when it is a valid
      month-first date. */
  lemma NoMonthFirstWithSeconds(raw: string, fullYear: bool)
    requires ParseWith(Layout(true, fullYear, Hours24Seconds), Clean(raw)).None?
    requires ParseWith(Layout(false, fullYear, Hours24Seconds), Clean(raw)).Some?
    ensures ParseTimestamp(raw).None?
  {
    var t := Clean(raw);
    var family := Family(Layout(true, fullYear, Hours24Seconds));
    assert Scan(t).Some? && ShapeOf(Scan(t).value) == family;
    OnlyDayFirstWithSeconds(fullYear);
    forall k | 0 <= k < |Layouts| ensures ParseWith(Layouts[k], t).None? {
    }
    ParseTimestampFirstMatch(raw);
  }

  lemma OnlyDayFirstWithSeconds(fullYear: bool)
    ensures forall k :: 0 <= k < |Layouts| && Family(Layouts[k]) == (fullYear, true, false) ==>
      Layouts[k] == Layout(true, fullYear, Hours24Seconds)
  {
  }

  /** Every timestamp produced is a real calendar date-time. */
  lemma ParseTimestampValid(raw: string)
    ensures ParseTimestamp(raw).Some? ==> Valid(ParseTimestamp(raw).value)
  {
    ParseTimestampFirstMatch(raw);
  }

  // ----- the export's own stamps are read back -----

  /** The stamp WhatsApp writes for a date-time (at a whole minute) is read back as
      that date-time, by the first layout. */
  lemma ExportStampParses(dt: DateTime)
    requires Valid(dt) && dt.second == 0
    ensures ParseTimestamp(ExportStamp(dt)) == Some(dt)
  {
    var s := ExportStamp(dt);
    ExportStampShape(dt);
    CleanOfStamp(s);
    ExportStampFirstLayout(dt);
    assert Attempts(s)[0] == Some(dt);
  }

  lemma ExportStampFirstLayout(dt: DateTime)
    requires Valid(dt) && dt.second == 0
    ensures ParseWith(Layouts[0], ExportStamp(dt)) == Some(dt)
  {
    var s := ExportStamp(dt);
    ExportStampShape(dt);
    ExportStampFields(dt);
    ScanOfStamp(s);
    InterpretExport(dt, s[..2], s[3..5], s[6..10], s[12..14], s[15..]);
    assert s[15..] == s[15..17];
  }

  lemma CleanOfStamp(s: string)
    requires ExportShape(s)
    ensures Clean(s) == s
  {
    StripUnchanged(s);
    assert ReplaceChar(s, '\U{202F}', ' ') == s;
    assert ReplaceChar(s, '\U{A0}', ' ') == s;
  }

  lemma ScanOfStamp(s: string)
    requires ExportShape(s)
    ensures Scan(s) == Some(Fields(s[..2], s[3..5], s[6..10], s[12..14], s[15..17], None, None))
  {
    assert DigitRun(s, 0) == 2 && DateFieldEnd(s, 0) == 2;
    assert DigitRun(s, 3) == 2 && DateFieldEnd(s, 3) == 5;
    assert DigitRun(s, 6) == 4;
    assert IsDigit(s[12]) && SkipSpaces(s, 11) == 12;
    assert DigitRun(s, 12) == 2;
    assert DigitRun(s, 15) == 2;
  }

  lemma InterpretExport(dt: DateTime, d: string, mo: string, y: string, h: string, mi: string)
    requires Valid(dt) && dt.second == 0
    requires d == PadDecimal(dt.day, 2) && mo == PadDecimal(dt.month, 2) && y == PadDecimal(dt.year, 4)
    requires h == PadDecimal(dt.hour, 2) && mi == PadDecimal(dt.minute, 2)
    ensures Interpret(Layouts[0], Fields(d, mo, y, h, mi, None, None)) == Some(dt)
  {
    PaddedNumber(dt.day, 1, 31);
    assert d[0] != ' ';
    PaddedNumber(dt.month, 1, 12);
    PaddedYear(dt.year);
    PaddedNumber(dt.hour, 0, 23);
    PaddedNumber(dt.minute, 0, 59);
  }

  /** The stamp with seconds, "DD/MM/YYYY, HH:MM:SS", is read back as the date-time
      it was written from, by the first layout with seconds: the four layouts
      before it have no seconds field and reject it. */
  lemma SecondsStampParses(dt: DateTime)
    requires Valid(dt)
    ensures ParseTimestamp(ExportStampSeconds(dt)) == Some(dt)
  {
    var s := ExportStampSeconds(dt);
    ExportStampSecondsShape(dt);
    CleanOfSecondsStamp(s);
    SecondsStampLayout(dt);
    SecondsLayoutWins(s, dt);
  }

  lemma SecondsLayoutWins(s: string, dt: DateTime)
    requires Clean(s) == s && ParseWith(Layouts[4], s) == Some(dt)
    ensures ParseTimestamp(s) == Some(dt)
  {
    FifthLayoutDayFirst();
    DayFirstWins(s, 4, dt);
  }

  lemma FifthLayoutDayFirst()
    ensures |Layouts| > 4 && Layouts[4].dayFirst
  {
    FifthLayout();
  }

  lemma FifthLayout()
    ensures |Layouts| > 4 && Layouts[4] == Layout(true, true, Hours24Seconds)
  {
  }

  lemma SecondsStampLayout(dt: DateTime)
    requires Valid(dt)
    ensures ParseWith(Layouts[4], ExportStampSeconds(dt)) == Some(dt)
  {
    var s := ExportStampSeconds(dt);
    ExportStampSecondsShape(dt);
    ExportStampSecondsFields(dt);
    ScanOfSecondsStamp(s);
    InterpretSeconds(dt, s[..2], s[3..5], s[6..10], s[12..14], s[15..17], s[18..20]);
    FifthLayout();
  }

  lemma CleanOfSecondsStamp(s: string)
    requires SecondsShape(s)
    ensures Clean(s) == s
  {
    assert IsDigit(s[0]);
    StripUnchanged(s);
    assert forall k :: 0 <= k < 17 ==> s[k] == s[..17][k];
    assert ReplaceChar(s, '\U{202F}', ' ') == s;
    assert ReplaceChar(s, '\U{A0}', ' ') == s;
  }

  lemma ScanOfSecondsStamp(s: string)
    requires SecondsShape(s)
    ensures Scan(s) == Some(Fields(s[..2], s[3..5], s[6..10], s[12..14], s[15..17], Some(s[18..20]), None))
  {
    var m := s[..17];
    assert forall k :: 0 <= k < 17 ==> s[k] == m[k];
    assert DigitRun(s, 0) == 2 && DateFieldEnd(s, 0) == 2;
    assert DigitRun(s, 3) == 2 && DateFieldEnd(s, 3) == 5;
    assert DigitRun(s, 6) == 4;
    assert IsDigit(s[12]) && SkipSpaces(s, 11) == 12;
    assert DigitRun(s, 12) == 2;
    assert DigitRun(s, 15) == 2;
    assert DigitRun(s, 18) == 2;
  }

  lemma InterpretSeconds(dt: DateTime, d: string, mo: string, y: string, h: string, mi: string, sec: string)
    requires Valid(dt)
    requires d == PadDecimal(dt.day, 2) && mo == PadDecimal(dt.month, 2) && y == PadDecimal(dt.year, 4)
    requires h == PadDecimal(dt.hour, 2) && mi == PadDecimal(dt.minute, 2) && sec == PadDecimal(dt.second, 2)
    ensures Interpret(Layout(true, true, Hours24Seconds), Fields(d, mo, y, h, mi, Some(sec), None)) == Some(dt)
  {
    PaddedNumber(dt.day, 1, 31);
    assert d[0] != ' ';
    PaddedNumber(dt.month, 1, 12);
    PaddedYear(dt.year);
    PaddedNumber(dt.hour, 0, 23);
    PaddedNumber(dt.minute, 0, 59);
    PaddedNumber(dt.second, 0, 59);
  }

  /** Two digits written for `n` read back as `n`. */
  lemma PaddedNumber(n: nat, lo: nat, hi: nat)
    requires lo <= n <= hi < 100
    ensures Number(PadDecimal(n, 2), lo, hi) == Some(n)
    ensures PadDecimal(n, 2)[0] != ' '
  {
    assert Pow10(2) == 100;
    DecimalOfPad(n, 2);
  }

  /** Four digits written for a year read back as that year. */
  lemma PaddedYear(n: nat)
    requires 1 <= n <= 9999
    ensures YearNumber(PadDecimal(n, 4), true) == Some(n)
  {
    assert Pow10(4) == 10000;
    DecimalOfPad(n, 4);
  }

  /** A token that does not scan into fields fits no layout. */
  lemma NoScanNoTimestamp(raw: string)
    requires Scan(Clean(raw)).None?
    ensures ParseTimestamp(raw) == None
  {
    ParseTimestampFirstMatch(raw);
  }

  /** A stamp with no whitespace after the comma has no timestamp, although the
      header pattern's `\s*` lets it through. */
  lemma TightStampRejected(t: string)
    requires TightShape(t)
    ensures ParseTimestamp(t) == None
  {
    CleanOfTight(t);
    ScanOfTight(t);
    NoScanNoTimestamp(t);
  }

  lemma CleanOfTight(t: string)
    requires TightShape(t)
    ensures Clean(t) == t
  {
    StripUnchanged(t);
    assert ReplaceChar(t, '\U{202F}', ' ') == t;
    assert ReplaceChar(t, '\U{A0}', ' ') == t;
  }

  lemma ScanOfTight(t: string)
    requires TightShape(t)
    ensures Scan(t) == None
  {
    assert DigitRun(t, 0) == 1 && DateFieldEnd(t, 0) == 1;
    assert DigitRun(t, 2) == 1 && DateFieldEnd(t, 2) == 3;
    assert DigitRun(t, 4) == 2;
    assert IsDigit(t[7]) && SkipSpaces(t, 7) == 7;
  }

  /** "1/1/24,9:00" is such a stamp. */
  lemma NoSpaceAfterComma()
    ensures ParseTimestamp("1/1/24,9:00") == None
  {
    TightStampRejected("1/1/24,9:00");
  }
}
