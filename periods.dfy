/** Period keys "YYYY-MM": building one from a year and a month name, the
    key of the month before, and reading a key back when an entry is edited. */
module Periods {
  import opened Wrappers
  import opened Text

  const MonthNames: seq<string> := ["January", "February", "March", "April", "May", "June",
    "July", "August", "September", "October", "November", "December"]

  /** The position of `name` in the month list, counted from 1, or None when
      `name` is not a month name. */
  function MonthNumber(name: string): (m: Option<nat>)
    ensures m.Some? <==> name in MonthNames
    ensures m.Some? ==> 1 <= m.value <= 12 && MonthNames[m.value - 1] == name
    ensures m.Some? ==> forall j :: 0 <= j < m.value - 1 ==> MonthNames[j] != name
  {
    var i := IndexOf(MonthNames, name);
    if i < |MonthNames| then Some(i + 1) else None
  }

  /** The key of a year and a month number: `f"{year}-{month:02d}"`. */
  function MonthKey(year: int, month: nat): string
    requires 1 <= month <= 12
  {
    IntToString(year) + "-" + Pad2(month)
  }

  /** `get_month_year_str` for a valid month name. */
  function MonthYearStr(year: int, monthName: string): string
    requires monthName in MonthNames
  {
    MonthKey(year, MonthNumber(monthName).value)
  }

  /** The calendar month before (year, month). */
  function PrevMonth(year: int, month: nat): (p: (int, nat))
    requires 1 <= month <= 12
    ensures 1 <= p.1 <= 12
    ensures p.0 * 12 + p.1 == year * 12 + month - 1
  {
    if month == 1 then (year - 1, 12) else (year, month - 1)
  }

  /** The periods whose first day Python's `date` can step back from: years
      1 to 9999, except January of year 1. */
  predicate HasPrevKey(year: int, monthName: string) {
    monthName in MonthNames && 1 <= year <= 9999 && !(year == 1 && monthName == MonthNames[0])
  }

  /** `get_prev_month_year_str`: the key of the month before, as
      obtained by stepping back one day from the first of the month. */
  function PrevMonthYearStr(year: int, monthName: string): string
    requires HasPrevKey(year, monthName)
  {
    var p := PrevMonth(year, MonthNumber(monthName).value);
    MonthKey(p.0, p.1)
  }

  /** Splitting a key at '-' into exactly two parts and reading both as integers;
      None where the split or a conversion raises. */
  function ParseMonthKey(s: string): Option<(int, int)> {
    var parts := Split(s, '-');
    if |parts| != 2 then None
    else match (ParseInt(parts[0]), ParseInt(parts[1]))
      case (Some(y), Some(m)) => Some((y, m))
      case _ => None
  }

  /** The year and month name `_edit_entry` leaves in the form for a stored
      key, given the ones the form held: both are set from a well-formed key,
      an out-of-range month keeps the form's month, and a key that does not
      split into two integers keeps both. */
  function EditPeriod(monthYear: string, year: int, monthName: string): (r: (int, string))
    ensures ParseMonthKey(monthYear).None? ==> r == (year, monthName)
    ensures ParseMonthKey(monthYear).Some? ==> r.0 == ParseMonthKey(monthYear).value.0
    ensures ParseMonthKey(monthYear).Some? ==>
      r.1 == (var m := ParseMonthKey(monthYear).value.1; if 1 <= m <= 12 then MonthNames[m - 1] else monthName)
  {
    match ParseMonthKey(monthYear)
    case None => (year, monthName)
    case Some((y, m)) => (y, if 0 < m <= |MonthNames| then MonthNames[m - 1] else monthName)
  }

  lemma ParsePad2(m: nat)
    requires m < 100
    ensures ParseInt(Pad2(m)) == Some(m)
  {
    ParseDigits(Pad2(m));
  }

  /** A year and a two-digit month joined by '-' read back as that pair. */
  lemma ParseKeyText(year: nat, month: nat)
    requires month < 100
    ensures ParseMonthKey(IntToString(year) + "-" + Pad2(month)) == Some((year as int, month as int))
  {
    assert '-' !in NatToDigits(year) by {
      forall j | 0 <= j < |NatToDigits(year)| ensures NatToDigits(year)[j] != '-' {
        assert IsDigit(NatToDigits(year)[j]);
      }
    }
    assert '-' !in Pad2(month) by {
      assert IsDigit(Pad2(month)[0]) && IsDigit(Pad2(month)[1]);
    }
    SplitTwo(NatToDigits(year), Pad2(month), '-');
    assert IntToString(year) + "-" + Pad2(month) == NatToDigits(year) + ['-'] + Pad2(month);
    ParseIntRoundTrip(year);
    ParsePad2(month);
  }

  /** Reading a key back gives the year and month it was built from. */
  lemma ParseMonthKeyRoundTrip(year: nat, month: nat)
    requires 1 <= month <= 12
    ensures ParseMonthKey(MonthKey(year, month)) == Some((year, month as int))
  {
    ParseKeyText(year, month);
  }

  /** Editing an entry whose key the form built restores the form's year
      and month name. */
  lemma EditPeriodOfKey(s: string, y: int, m: int, formYear: int, formMonth: string)
    requires ParseMonthKey(s) == Some((y, m)) && 1 <= m <= 12
    ensures EditPeriod(s, formYear, formMonth) == (y, MonthNames[m - 1])
  {
    var r := EditPeriod(s, formYear, formMonth);
    assert r.0 == y && r.1 == MonthNames[m - 1];
  }

  lemma EditPeriodRoundTrip(year: nat, monthName: string, formYear: int, formMonth: string)
    requires monthName in MonthNames
    ensures EditPeriod(MonthYearStr(year, monthName), formYear, formMonth) == (year, monthName)
  {
    var m := MonthNumber(monthName).value;
    ParseMonthKeyRoundTrip(year, m);
    EditPeriodOfKey(MonthYearStr(year, monthName), year, m, formYear, formMonth);
  }

  /** The previous month's key differs from the month's own, so a month
      never reads the surplus it stores itself. */
  lemma PrevKeyDiffers(year: int, monthName: string)
    requires HasPrevKey(year, monthName)
    ensures PrevMonthYearStr(year, monthName) != MonthYearStr(year, monthName)
  {
    var m := MonthNumber(monthName).value;
    var p := PrevMonth(year, m);
    ParseMonthKeyRoundTrip(year, m);
    ParseMonthKeyRoundTrip(p.0, p.1);
  }

  /** A key whose month part is not 1..12 still sets the year and keeps the
      form's month. */
  lemma EditPeriodMonthOutOfRange(year: nat, month: nat, formYear: int, formMonth: string)
    requires month == 0 || 12 < month < 100
    ensures EditPeriod(IntToString(year) + "-" + Pad2(month), formYear, formMonth) == (year, formMonth)
  {
    ParseKeyText(year, month);
  }

  /** Two parts without '-' joined by one '-' split back into those parts. */
  lemma KeyParts(y: string, m: string)
    requires '-' !in y && '-' !in m
    ensures Split(y + "-" + m, '-') == [y, m]
  {
    SplitTwo(y, m, '-');
    assert y + "-" + m == y + ['-'] + m;
  }

  /** Whitespace around either part of a key does not change what editing
      sets, since `int()` skips it: "2024- 3" sets March 2024 as "2024-03"
      does. */
  lemma EditPeriodIgnoresSpaces(y: string, m: string, formYear: int, formMonth: string)
    requires '-' !in y && '-' !in m
    ensures EditPeriod(y + "-" + m, formYear, formMonth) ==
            EditPeriod(Strip(y) + "-" + Strip(m), formYear, formMonth)
  {
    StripSlice(y);
    StripSlice(m);
    KeyParts(y, m);
    KeyParts(Strip(y), Strip(m));
    ParseIntStripped(y);
    ParseIntStripped(m);
    var k := y + "-" + m;
    var k' := Strip(y) + "-" + Strip(m);
    assert ParseMonthKey(k) == ParseMonthKey(k');
    EditPeriodOfSameParse(k, k', formYear, formMonth);
  }

  lemma EditPeriodOfSameParse(k: string, k': string, formYear: int, formMonth: string)
    requires ParseMonthKey(k) == ParseMonthKey(k')
    ensures EditPeriod(k, formYear, formMonth) == EditPeriod(k', formYear, formMonth)
  {
  }

  /** Text without a '-' does not split into a year and a month: the form
      keeps both. */
  lemma EditPeriodNoDash(monthYear: string, formYear: int, formMonth: string)
    requires '-' !in monthYear
    ensures EditPeriod(monthYear, formYear, formMonth) == (formYear, formMonth)
  {
  }

  /** The previous key reads back as the calendar month before: the month
      number minus one in the same year, or December of the year before for
      January. */
  lemma PrevKeyParses(year: int, monthName: string)
    requires HasPrevKey(year, monthName)
    ensures var m := MonthNumber(monthName).value;
      ParseMonthKey(PrevMonthYearStr(year, monthName)) == Some(if m == 1 then (year - 1, 12) else (year, m - 1))
    ensures monthName == MonthNames[0] ==> ParseMonthKey(PrevMonthYearStr(year, monthName)) == Some((year - 1, 12))
  {
    var p := PrevMonth(year, MonthNumber(monthName).value);
    ParseMonthKeyRoundTrip(p.0, p.1);
  }

  lemma MonthNamesDistinct()
    ensures forall i, j :: 0 <= i < j < |MonthNames| ==> MonthNames[i] != MonthNames[j]
  {
  }

  /** Each month name is the number of its position. */
  lemma MonthNumberOf(i: nat)
    requires i < |MonthNames|
    ensures MonthNumber(MonthNames[i]) == Some(i + 1)
  {
    MonthNamesDistinct();
    var v := MonthNumber(MonthNames[i]).value;
    assert MonthNames[v - 1] == MonthNames[i];
    assert v - 1 == i;
  }

  /** The month before month `m + 1` of a year is month `m` of that year:
      the key a month writes is the previous key the next month reads. */
  lemma PrevKeyOfFollowingMonth(year: int, m: nat)
    requires 1 <= year <= 9999 && 1 <= m < 12
    ensures PrevMonthYearStr(year, MonthNames[m]) == MonthYearStr(year, MonthNames[m - 1])
  {
    MonthNumberOf(m);
    MonthNumberOf(m - 1);
  }

  /** The month before January of a year is December of the year before. */
  lemma PrevKeyOfJanuary(year: int)
    requires 1 <= year < 9999
    ensures PrevMonthYearStr(year + 1, MonthNames[0]) == MonthYearStr(year, MonthNames[11])
  {
    MonthNumberOf(0);
    MonthNumberOf(11);
    assert PrevMonth(year + 1, 1) == (year, 12);
  }
}
