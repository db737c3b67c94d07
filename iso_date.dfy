/** `Date.prototype.toISOString` for instants at or after the epoch: the
    UTC calendar fields of an instant, the text `toISOString` writes for
    them, and a reader that recovers the fields from that text. */
module IsoDate {
  import opened Common
  import opened JsText

  function Pow10(w: nat): (p: nat)
    ensures p >= 1
  {
    if w == 0 then 1 else 10 * Pow10(w - 1)
  }

  /** A number below `10^w` has at most `w` decimal digits. */
  lemma {:induction false} ShortNatToString(n: nat, w: nat)
    requires 0 < w && n < Pow10(w)
    ensures |NatToString(n)| <= w
  {
    if n >= 10 {
      assert w > 1;
      ShortNatToString(n / 10, w - 1);
    }
  }

  /** A run of zeros is worth nothing. */
  lemma {:induction false} ZerosValue(zeros: string)
    requires forall i :: 0 <= i < |zeros| ==> zeros[i] == '0'
    ensures DigitsValue(zeros, 10) == 0
  {
    if zeros != [] {
      ZerosValue(zeros[..|zeros| - 1]);
    }
  }

  /** Leading zeros do not change the value of a string of digits. */
  lemma {:induction false} LeadingZerosValue(zeros: string, ds: string)
    requires forall i :: 0 <= i < |zeros| ==> zeros[i] == '0'
    requires AllDecimal(ds)
    ensures AllDecimal(zeros + ds)
    ensures DigitsValue(zeros + ds, 10) == DigitsValue(ds, 10)
  {
    var s := zeros + ds;
    assert forall i :: 0 <= i < |s| ==> IsDigit(s[i]) by {
      forall i | 0 <= i < |s|
        ensures IsDigit(s[i])
      {
        if i >= |zeros| {
          assert s[i] == ds[i - |zeros|];
        }
      }
    }
    if ds == [] {
      assert s == zeros;
      ZerosValue(zeros);
    } else {
      assert s[..|s| - 1] == zeros + ds[..|ds| - 1];
      LeadingZerosValue(zeros, ds[..|ds| - 1]);
    }
  }

  /** `n` written with at least `width` digits, padded with zeros on the
      left: it reads back as `n`, and it is exactly `width` long when `n`
      fits. */
  function PadDigits(n: nat, width: nat): (s: string)
    ensures |s| >= width
    ensures AllDecimal(s)
    ensures DigitsValue(s, 10) == n
    ensures 0 < width && n < Pow10(width) ==> |s| == width
  {
    var digits := NatToString(n);
    DecimalValueOfNatToString(n);
    if |digits| >= width then
      if 0 < width && n < Pow10(width) then ShortNatToString(n, width); digits
      else digits
    else
      var zeros := seq(width - |digits|, _ => '0');
      LeadingZerosValue(zeros, digits);
      zeros + digits
  }

  /** Gregorian leap-year rule. */
  predicate IsLeapYear(y: nat) {
    y % 4 == 0 && (y % 100 != 0 || y % 400 == 0)
  }

  function DaysInYear(y: nat): nat {
    if IsLeapYear(y) then 366 else 365
  }

  function DaysInMonth(y: nat, m: nat): (d: nat)
    requires 1 <= m <= 12
    ensures 28 <= d <= 31
  {
    if m == 2 then (if IsLeapYear(y) then 29 else 28)
    else if m == 4 || m == 6 || m == 9 || m == 11 then 30
    else 31
  }

  /** Days from the first day of year `from` to the first day of year `to`. */
  function DaysBetweenYears(from: nat, to: nat): nat
    requires from <= to
    decreases (to as int) - (from as int)
  {
    if from == to then 0 else DaysInYear(from) + DaysBetweenYears(from + 1, to)
  }

  /** Days from the first day of month `from` to the first day of month
      `to` of year `y`, month 13 standing for the next year's January. */
  function DaysBetweenMonths(y: nat, from: nat, to: nat): nat
    requires 1 <= from <= to <= 13
    decreases (to as int) - (from as int)
  {
    if from == to then 0 else DaysInMonth(y, from) + DaysBetweenMonths(y, from + 1, to)
  }

  /** The year and the zero-based day of that year that lie `days` days
      after the first day of year `y`. */
  function YearOf(days: nat, y: nat): (r: (nat, nat))
    ensures r.0 >= y && r.1 < DaysInYear(r.0)
    ensures DaysBetweenYears(y, r.0) + r.1 == days
    decreases days
  {
    if days < DaysInYear(y) then (y, days) else YearOf(days - DaysInYear(y), y + 1)
  }

  /** The month and the zero-based day of that month that lie `doy` days
      after the first day of month `m` of year `y`. */
  function MonthOf(doy: nat, y: nat, m: nat): (r: (nat, nat))
    requires 1 <= m <= 12 && doy < DaysBetweenMonths(y, m, 13)
    ensures m <= r.0 <= 12 && r.1 < DaysInMonth(y, r.0)
    ensures DaysBetweenMonths(y, m, r.0) + r.1 == doy
    decreases 12 - m
  {
    if doy < DaysInMonth(y, m) then (m, doy)
    else MonthOf(doy - DaysInMonth(y, m), y, m + 1)
  }

  /** A UTC date and time of day, with one-based month and day. */
  datatype DateTime = DateTime(year: nat, month: nat, day: nat, hour: nat, minute: nat, second: nat, millisecond: nat)

  predicate ValidDateTime(t: DateTime) {
    && 1970 <= t.year && 1 <= t.month <= 12 && 1 <= t.day <= DaysInMonth(t.year, t.month)
    && t.hour < 24 && t.minute < 60 && t.second < 60 && t.millisecond < 1000
  }

  /** The instant, in milliseconds since the epoch, that a UTC date and
      time names. */
  function EpochMillis(t: DateTime): int
    requires ValidDateTime(t)
  {
    (DaysBetweenYears(1970, t.year) + DaysBetweenMonths(t.year, 1, t.month) + t.day - 1) * 86400000
    + ((t.hour * 60 + t.minute) * 60 + t.second) * 1000 + t.millisecond
  }

  /** The UTC calendar fields of the instant `ms` milliseconds after the
      epoch (`getUTCFullYear`, `getUTCMonth() + 1`, ..., `getUTCMilliseconds`):
      a valid date and time that names exactly that instant. */
  function UtcFields(ms: nat): (t: DateTime)
    ensures ValidDateTime(t)
    ensures EpochMillis(t) == ms
  {
    var days, msOfDay := ms / 86400000, ms % 86400000;
    var (year, doy) := YearOf(days, 1970);
    assert DaysBetweenMonths(year, 1, 13) == DaysInYear(year);
    var (month, dom) := MonthOf(doy, year, 1);
    var seconds := msOfDay / 1000;
    var minutes := seconds / 60;
    DateTime(year, month, dom + 1, minutes / 60, minutes % 60, seconds % 60, msOfDay % 1000)
  }

  /** The year as `toISOString` writes it: four digits, or `+` and at
      least six digits past 9999. */
  function YearText(y: nat): (s: string)
    requires y >= 1000
    ensures |s| >= 4 && (y <= 9999 ==> |s| == 4)
    ensures y > 9999 ==> |s| >= 7 && s[0] == '+'
  {
    if y <= 9999 then PadDigits(y, 4) else "+" + PadDigits(y, 6)
  }

  /** The separators and widths of the fields after the year:
      `-MM-DDTHH:mm:ss.sss`. */
  const TimeLayout: seq<(char, nat)> := [('-', 2), ('-', 2), ('T', 2), (':', 2), (':', 2), ('.', 3)]

  /** Each value fits the width its layout entry gives it. */
  predicate FitsLayout(vs: seq<nat>, layout: seq<(char, nat)>) {
    && |vs| == |layout|
    && forall i :: 0 <= i < |vs| ==> 0 < layout[i].1 && vs[i] < Pow10(layout[i].1)
  }

  function LayoutLength(layout: seq<(char, nat)>): nat {
    if layout == [] then 0 else 1 + layout[0].1 + LayoutLength(layout[1..])
  }

  /** Each value after its separator, padded to its width. */
  function WriteFields(vs: seq<nat>, layout: seq<(char, nat)>): (s: string)
    requires FitsLayout(vs, layout)
    ensures |s| == LayoutLength(layout)
  {
    if vs == [] then ""
    else [layout[0].0] + (PadDigits(vs[0], layout[0].1) + WriteFields(vs[1..], layout[1..]))
  }

  /** Reads, for each entry of `layout`, its separator and then that many
      decimal digits: the numbers read and the text after them. */
  function ReadFields(s: string, layout: seq<(char, nat)>): (r: Option<(seq<nat>, string)>)
    ensures r.Some? ==> |r.value.0| == |layout|
    decreases |layout|
  {
    if layout == [] then Some(([], s))
    else
      var width := layout[0].1;
      if |s| < 1 + width || s[0] != layout[0].0 || !AllDecimal(s[1..1 + width]) then None
      else
        match ReadFields(s[1 + width..], layout[1..])
        case None => None
        case Some((vs, rest)) => Some(([DigitsValue(s[1..1 + width], 10)] + vs, rest))
  }

  lemma SplitAfterField(sep: char, field: string, tail: string)
    ensures ([sep] + (field + tail))[0] == sep
    ensures ([sep] + (field + tail))[1..1 + |field|] == field
    ensures ([sep] + (field + tail))[1 + |field|..] == tail
  {
  }

  /** Reading the written fields gives back the values and leaves what
      follows them untouched. */
  lemma {:induction false} ReadWrittenFields(vs: seq<nat>, layout: seq<(char, nat)>, rest: string)
    requires FitsLayout(vs, layout)
    ensures ReadFields(WriteFields(vs, layout) + rest, layout) == Some((vs, rest))
  {
    if vs != [] {
      var field := PadDigits(vs[0], layout[0].1);
      var more := WriteFields(vs[1..], layout[1..]);
      var s := WriteFields(vs, layout) + rest;
      Regroup([layout[0].0], field, more, rest);
      assert s == [layout[0].0] + (field + (more + rest));
      SplitAfterField(layout[0].0, field, more + rest);
      assert |field| == layout[0].1;
      assert s[1..1 + layout[0].1] == field && s[1 + layout[0].1..] == more + rest;
      assert FitsLayout(vs[1..], layout[1..]);
      ReadWrittenFields(vs[1..], layout[1..], rest);
      assert [vs[0]] + vs[1..] == vs;
    } else {
      assert WriteFields(vs, layout) + rest == rest;
    }
  }

  /** The text after the year: `-MM-DDTHH:mm:ss.sssZ`. */
  function TimeText(t: DateTime): (s: string)
    requires ValidDateTime(t)
    ensures |s| == 20
  {
    var vs := [t.month, t.day, t.hour, t.minute, t.second, t.millisecond];
    assert FitsLayout(vs, TimeLayout);
    WriteFields(vs, TimeLayout) + "Z"
  }

  /** The year written before the fields: its digits, after an optional `+`. */
  function ReadYear(s: string): (r: Option<nat>) {
    var digits := if |s| > 0 && s[0] == '+' then s[1..] else s;
    if |digits| > 0 && AllDecimal(digits) then Some(DigitsValue(digits, 10)) else None
  }

  /** The date and time an ISO-8601 text `[+]YYYY-MM-DDTHH:mm:ss.sssZ`
      names; any other text names none. */
  function ReadIso(s: string): (r: Option<DateTime>) {
    if |s| < 20 then None
    else
      match (ReadYear(s[..|s| - 20]), ReadFields(s[|s| - 20..], TimeLayout))
      case (Some(year), Some((vs, rest))) =>
        if rest == "Z" then Some(DateTime(year, vs[0], vs[1], vs[2], vs[3], vs[4], vs[5])) else None
      case _ => None
  }

  lemma ReadYearText(y: nat)
    requires y >= 1000
    ensures ReadYear(YearText(y)) == Some(y)
  {
    if y > 9999 {
      var digits := PadDigits(y, 6);
      assert ("+" + digits)[1..] == digits;
    }
  }

  lemma SplitTail(a: string, b: string)
    requires |b| == 20
    ensures (a + b)[..|a + b| - 20] == a && (a + b)[|a + b| - 20..] == b
  {
  }

  lemma ReadTimeText(t: DateTime)
    requires ValidDateTime(t)
    ensures ReadFields(TimeText(t), TimeLayout) == Some(([t.month, t.day, t.hour, t.minute, t.second, t.millisecond], "Z"))
  {
    var vs := [t.month, t.day, t.hour, t.minute, t.second, t.millisecond];
    assert FitsLayout(vs, TimeLayout);
    ReadWrittenFields(vs, TimeLayout, "Z");
  }

  /** `new Date(ms).toISOString()`: `YYYY-MM-DDTHH:mm:ss.sssZ` in UTC, 24
      characters up to year 9999 and `+` with six digits past it. The text
      reads back as the UTC fields of `ms`. */
  function IsoTimestamp(ms: nat): (r: string)
    ensures |r| >= 24 && r[|r| - 1] == 'Z'
    ensures UtcFields(ms).year <= 9999 ==> |r| == 24
    ensures UtcFields(ms).year > 9999 ==> |r| >= 27 && r[0] == '+'
    ensures ReadIso(r) == Some(UtcFields(ms))
  {
    var t := UtcFields(ms);
    var yearText, timeText := YearText(t.year), TimeText(t);
    ReadYearText(t.year);
    ReadTimeText(t);
    SplitTail(yearText, timeText);
    yearText + timeText
  }

  /** The text names the instant it was made from, so two instants with the
      same text are the same instant. */
  lemma IsoTimestampNamesInstant(a: nat, b: nat)
    ensures ReadIso(IsoTimestamp(a)).Some? && ValidDateTime(ReadIso(IsoTimestamp(a)).value)
    ensures EpochMillis(ReadIso(IsoTimestamp(a)).value) == a
    ensures IsoTimestamp(a) == IsoTimestamp(b) ==> a == b
  {
  }
}
