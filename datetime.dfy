/**
 * The part of Python's `datetime` that `validate_date` and `format_date`
 * use: proleptic Gregorian dates in years 1 to 9999,
 * `datetime.strptime(text, "%Y-%m-%d")` (reduced to the date it yields, or
 * to the `ValueError` it raises) and `date.isoformat()`.
 *
 * `strptime` turns the format into a regular expression, one group per
 * directive, joined by the literal dashes:
 *   %Y  four digits
 *   %m  `1[0-2]`, `0[1-9]` or `[1-9]`, tried in that order
 *   %d  `3[01]`, `[12][0-9]`, `0[1-9]`, `[1-9]` or a space and `[1-9]`, in that order
 * The expression is matched at the start of the text with no end anchor;
 * text left over after the match is a `ValueError`, and so is a match that
 * does not form a real date (month day out of range, or year 0).
 */
module Datetime {
  import opened Wrappers
  import opened PyText

  datatype Date = Date(year: int, month: int, day: int)

  /** The Gregorian rule: every fourth year, except centuries not divisible by 400. */
  predicate IsLeapYear(y: int) {
    y % 4 == 0 && (y % 100 != 0 || y % 400 == 0)
  }

  function DaysInMonth(y: int, m: int): (n: int)
    requires 1 <= m <= 12
    ensures 28 <= n <= 31
    ensures m == 2 ==> (n == 29 <==> IsLeapYear(y))
  {
    if m == 2 then (if IsLeapYear(y) then 29 else 28)
    else if m == 4 || m == 6 || m == 9 || m == 11 then 30
    else 31
  }

  /** The dates `datetime.date` accepts (MINYEAR is 1, MAXYEAR is 9999). */
  predicate ValidDate(d: Date) {
    1 <= d.year <= 9999 && 1 <= d.month <= 12 && 1 <= d.day <= DaysInMonth(d.year, d.month)
  }

  /** One matched regular-expression group: the number it denotes and its width. */
  datatype Group = Group(value: int, width: nat)

  /** The `%m` group at position `i` together with the dash the format puts
      after it. The three alternatives cannot both be followed by a dash, so
      the regular expression's backtracking over them has a single outcome. */
  function MonthThenDash(t: string, i: nat): (g: Option<Group>)
    ensures g.Some? ==> 1 <= g.value.value <= 12 && 1 <= g.value.width <= 2
    ensures g.Some? ==> i + g.value.width < |t| && t[i + g.value.width] == '-'
  {
    if i + 2 < |t| && t[i] == '1' && '0' <= t[i + 1] <= '2' && t[i + 2] == '-' then
      Some(Group(10 + DigitValue(t[i + 1]), 2))
    else if i + 2 < |t| && t[i] == '0' && '1' <= t[i + 1] <= '9' && t[i + 2] == '-' then
      Some(Group(DigitValue(t[i + 1]), 2))
    else if i + 1 < |t| && '1' <= t[i] <= '9' && t[i + 1] == '-' then
      Some(Group(DigitValue(t[i]), 1))
    else
      None
  }

  /** The `%d` group at position `i`: the first alternative that matches. */
  function DayGroup(t: string, i: nat): (g: Option<Group>)
    ensures g.Some? ==> 1 <= g.value.value <= 31 && 1 <= g.value.width <= 2
    ensures g.Some? ==> i + g.value.width <= |t|
  {
    if i + 1 < |t| && t[i] == '3' && '0' <= t[i + 1] <= '1' then
      Some(Group(30 + DigitValue(t[i + 1]), 2))
    else if i + 1 < |t| && '1' <= t[i] <= '2' && IsDigit(t[i + 1]) then
      Some(Group(DigitValue(t[i]) * 10 + DigitValue(t[i + 1]), 2))
    else if i + 1 < |t| && t[i] == '0' && '1' <= t[i + 1] <= '9' then
      Some(Group(DigitValue(t[i + 1]), 2))
    else if i < |t| && '1' <= t[i] <= '9' then
      Some(Group(DigitValue(t[i]), 1))
    else if i + 1 < |t| && t[i] == ' ' && '1' <= t[i + 1] <= '9' then
      Some(Group(DigitValue(t[i + 1]), 2))
    else
      None
  }

  /** `datetime.strptime(t, "%Y-%m-%d").date()`, with `None` for the `ValueError`. */
  function StrptimeYmd(t: string): (r: Option<Date>)
    ensures r.Some? ==> ValidDate(r.value) && 8 <= |t| <= 10 && t[4] == '-'
    ensures r.Some? ==> AllDigits(t[..4]) && r.value.year == DigitsValue(t[..4])
  {
    if |t| < 5 || !AllDigits(t[..4]) || t[4] != '-' then None
    else match MonthThenDash(t, 5)
      case None => None
      case Some(m) =>
        var dayStart := 5 + m.width + 1;
        match DayGroup(t, dayStart)
        case None => None
        case Some(d) =>
          if dayStart + d.width != |t| then None  // unconverted data remains
          else
            var date := Date(DigitsValue(t[..4]), m.value, d.value);
            if ValidDate(date) then Some(date) else None
  }

  /** `date.isoformat()`: `%04d-%02d-%02d`. */
  function IsoFormat(d: Date): (s: string)
    requires ValidDate(d)
    ensures IsCanonical(s)
    ensures DigitsValue(s[..4]) == d.year && DigitsValue(s[5..7]) == d.month && DigitsValue(s[8..]) == d.day
  {
    var s := Pad4(d.year) + "-" + Pad2(d.month) + "-" + Pad2(d.day);
    assert s[..4] == Pad4(d.year) && s[5..7] == Pad2(d.month) && s[8..] == Pad2(d.day);
    s
  }

  /** The canonical layout: four digits, a dash, two digits, a dash, two digits. */
  predicate IsCanonical(s: string) {
    && |s| == 10 && s[4] == '-' && s[7] == '-'
    && AllDigits(s[..4]) && AllDigits(s[5..7]) && AllDigits(s[8..])
  }

  // ---------------------------------------------------------------------
  // A reference description of the texts `StrptimeYmd` accepts, written as
  // the ways one date can be spelled rather than as a scanner.

  /** How a single-digit day may be written: `05`, `5` or ` 5`. */
  datatype DayForm = TwoDigits | OneDigit | SpaceDigit

  /** Whether a single-digit month is written without its leading zero, and
      how a single-digit day is written. Two-digit values have one spelling. */
  datatype Spelling = Spelling(shortMonth: bool, dayForm: DayForm)

  function MonthText(m: int, short: bool): (s: string)
    requires 1 <= m <= 12
    ensures AllDigits(s) && (|s| == 1 <==> short && m < 10) && 1 <= |s| <= 2
  {
    if short && m < 10 then [DigitChar(m)] else Pad2(m)
  }

  function DayText(d: int, form: DayForm): (s: string)
    requires 1 <= d <= 31
    ensures 1 <= |s| <= 2 && IsDigit(s[|s| - 1])
  {
    if d >= 10 then Pad2(d)
    else match form
      case TwoDigits => Pad2(d)
      case OneDigit => [DigitChar(d)]
      case SpaceDigit => [' ', DigitChar(d)]
  }

  /** The text of date `d` written with spelling `sp`. */
  function Render(d: Date, sp: Spelling): (s: string)
    requires ValidDate(d)
    ensures 8 <= |s| <= 10 && s[4] == '-' && AllDigits(s[..4])
  {
    Pad4(d.year) + "-" + MonthText(d.month, sp.shortMonth) + "-" + DayText(d.day, sp.dayForm)
  }

  /** The canonical form is the all-padded spelling. */
  lemma IsoFormatIsSpelling(d: Date)
    requires ValidDate(d)
    ensures IsoFormat(d) == Render(d, Spelling(false, TwoDigits))
  {
  }

  /** The `%m` group reads back any spelling of a month followed by a dash. */
  lemma MonthThenDashReads(t: string, i: nat, m: int, short: bool)
    requires 1 <= m <= 12
    requires i + |MonthText(m, short)| < |t|
    requires t[i..i + |MonthText(m, short)|] == MonthText(m, short)
    requires t[i + |MonthText(m, short)|] == '-'
    ensures MonthThenDash(t, i) == Some(Group(m, |MonthText(m, short)|))
  {
    var mt := MonthText(m, short);
    assert t[i] == mt[0];
    if |mt| == 2 {
      assert t[i + 1] == mt[1];
    }
  }

  /** The `%d` group reads back any spelling of a day that ends the text
      (a one-digit day followed by another digit would be read differently). */
  lemma DayGroupReads(t: string, i: nat, d: int, form: DayForm)
    requires 1 <= d <= 31
    requires i + |DayText(d, form)| == |t|
    requires t[i..i + |DayText(d, form)|] == DayText(d, form)
    ensures DayGroup(t, i) == Some(Group(d, |DayText(d, form)|))
  {
    var dt := DayText(d, form);
    assert t[i] == dt[0];
    if |dt| == 2 {
      assert t[i + 1] == dt[1];
      if d >= 30 {
        assert dt == ['3', DigitChar(d - 30)];
      } else if d >= 10 {
        assert dt == [DigitChar(d / 10), DigitChar(d % 10)];
        assert t[i] != '3';
      } else if form == SpaceDigit {
        assert dt == [' ', DigitChar(d)];
      } else {
        assert dt == ['0', DigitChar(d)];
      }
    }
  }

  /** What the `%m` group matched is the spelling of the month it denotes. */
  lemma MonthThenDashText(t: string, i: nat)
    requires MonthThenDash(t, i).Some?
    ensures var g := MonthThenDash(t, i).value;
      t[i..i + g.width] == MonthText(g.value, g.width == 1)
  {
    var g := MonthThenDash(t, i).value;
    var mt := t[i..i + g.width];
    if g.width == 2 {
      assert mt[0] == t[i] && mt[1] == t[i + 1];
      DigitsValueTwo(mt);
      Pad2OfDigits(mt);
    }
  }

  /** The way a matched `%d` group wrote its day. */
  function DayFormAt(t: string, i: nat, g: Group): (f: DayForm)
    requires i < |t|
    ensures f == SpaceDigit ==> t[i] == ' '
  {
    if g.width == 1 then OneDigit else if t[i] == ' ' then SpaceDigit else TwoDigits
  }

  /** What the `%d` group matched is the spelling of the day it denotes. */
  lemma DayGroupText(t: string, i: nat)
    requires DayGroup(t, i).Some?
    ensures var g := DayGroup(t, i).value;
      t[i..i + g.width] == DayText(g.value, DayFormAt(t, i, g))
  {
    var g := DayGroup(t, i).value;
    var dt := t[i..i + g.width];
    if g.width == 2 && t[i] != ' ' {
      assert dt[0] == t[i] && dt[1] == t[i + 1];
      DigitsValueTwo(dt);
      Pad2OfDigits(dt);
    }
  }

  /** Completeness: every spelling of every real date is accepted, and read
      as that date. */
  lemma StrptimeAcceptsSpellings(d: Date, sp: Spelling)
    requires ValidDate(d)
    ensures StrptimeYmd(Render(d, sp)) == Some(d)
  {
    var y, mt, dt := Pad4(d.year), MonthText(d.month, sp.shortMonth), DayText(d.day, sp.dayForm);
    var t := Render(d, sp);
    var head := y + "-";
    assert t == head + mt + ("-" + dt);
    assert t[..4] == y;
    assert t[5..5 + |mt|] == mt by {
      forall k | 0 <= k < |mt| ensures t[5 + k] == mt[k] {
        assert t[5 + k] == (head + mt)[5 + k];
      }
    }
    MonthThenDashReads(t, 5, d.month, sp.shortMonth);
    var dayStart := 5 + |mt| + 1;
    assert t[dayStart..dayStart + |dt|] == dt;
    DayGroupReads(t, dayStart, d.day, sp.dayForm);
  }

  /** Soundness: whatever is accepted is a real date, and the text is one
      of that date's spellings. */
  lemma StrptimeOnlySpellings(t: string)
    requires StrptimeYmd(t).Some?
    ensures ValidDate(StrptimeYmd(t).value)
    ensures exists sp :: t == Render(StrptimeYmd(t).value, sp)
  {
    var d := StrptimeYmd(t).value;
    var m := MonthThenDash(t, 5).value;
    var dayStart := 5 + m.width + 1;
    var g := DayGroup(t, dayStart).value;
    Pad4OfDigits(t[..4]);
    MonthThenDashText(t, 5);
    DayGroupText(t, dayStart);
    var sp := Spelling(m.width == 1, DayFormAt(t, dayStart, g));
    assert t == t[..4] + "-" + t[5..5 + m.width] + "-" + t[dayStart..dayStart + g.width];
    assert t == Render(d, sp);
  }

  /** A canonical text that is accepted is the `isoformat()` of the date it
      is read as. */
  lemma StrptimeCanonical(s: string)
    requires IsCanonical(s) && StrptimeYmd(s).Some?
    ensures IsoFormat(StrptimeYmd(s).value) == s
  {
    var d := StrptimeYmd(s).value;
    StrptimeOnlySpellings(s);
    var sp :| s == Render(d, sp);
    var mt, dt := MonthText(d.month, sp.shortMonth), DayText(d.day, sp.dayForm);
    assert |mt| == 2 && |dt| == 2;
    assert dt[0] == s[8] && s[8] == s[8..][0];
    assert IsoFormat(d) == Render(d, Spelling(false, TwoDigits));
  }
}
