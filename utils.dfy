/**
 * `src/utils.py`: a fresh numeric id for a task list, and the check and
 * normalisation of `YYYY-MM-DD` due dates.
 */
module Utils {
  import opened Wrappers
  import opened Values
  import opened PyText
  import opened Datetime

  // ---------------------------------------------------------------------
  // generate_id

  /** The task's id when it is a Python `int`. */
  predicate HasIntId(t: Task, x: int) {
    Get(t, "id") == Some(Int(x))
  }

  /** The ids that are Python ints, in list order; missing and non-integer
      ids are skipped. */
  function IntIds(tasks: seq<Task>): (ids: seq<int>)
    ensures |ids| <= |tasks|
    decreases |tasks|
  {
    if tasks == [] then []
    else
      var rest := IntIds(tasks[1..]);
      match Get(tasks[0], "id")
      case Some(Int(x)) => [x] + rest
      case _ => rest
  }

  /** `max(xs, default=d)`. */
  function MaxOr(xs: seq<int>, d: int): (m: int)
    ensures xs == [] ==> m == d
    ensures xs != [] ==> m in xs && forall x :: x in xs ==> x <= m
    decreases |xs|
  {
    if xs == [] then d
    else if |xs| == 1 then xs[0]
    else
      var m := MaxOr(xs[1..], d);
      assert forall x :: x in xs ==> x == xs[0] || x in xs[1..];
      if xs[0] >= m then xs[0] else m
  }

  /** `generate_id(tasks)`: 1 for an empty list, otherwise one more than the
      largest integer id, counting a list without integer ids as largest 0. */
  function GenerateId(tasks: seq<Task>): (id: int)
    ensures tasks == [] ==> id == 1
  {
    if tasks == [] then 1 else MaxOr(IntIds(tasks), 0) + 1
  }

  /** The comprehension keeps exactly the integer ids. */
  lemma {:induction false} IntIdsExactly(tasks: seq<Task>, x: int)
    ensures x in IntIds(tasks) <==> exists k :: 0 <= k < |tasks| && HasIntId(tasks[k], x)
  {
    if tasks != [] {
      IntIdsExactly(tasks[1..], x);
      if x in IntIds(tasks[1..]) {
        var k :| 0 <= k < |tasks[1..]| && HasIntId(tasks[1..][k], x);
        assert HasIntId(tasks[k + 1], x);
      }
      if exists k :: 0 <= k < |tasks| && HasIntId(tasks[k], x) {
        var k :| 0 <= k < |tasks| && HasIntId(tasks[k], x);
        if k > 0 {
          assert HasIntId(tasks[1..][k - 1], x);
        }
      }
    }
  }

  /** The new id is larger than every integer id in the list, so it is not
      the id of any task already there. */
  lemma GenerateIdAboveAll(tasks: seq<Task>)
    ensures forall k, x :: 0 <= k < |tasks| && HasIntId(tasks[k], x) ==> x < GenerateId(tasks)
    ensures forall k :: 0 <= k < |tasks| ==> !HasIntId(tasks[k], GenerateId(tasks))
  {
    forall k, x | 0 <= k < |tasks| && HasIntId(tasks[k], x) ensures x < GenerateId(tasks) {
      IntIdsExactly(tasks, x);
    }
  }

  /** When some task has an integer id, the new id is one more than one of
      them (the largest). */
  lemma GenerateIdIsMaxPlusOne(tasks: seq<Task>)
    requires exists k, x :: 0 <= k < |tasks| && HasIntId(tasks[k], x)
    ensures exists k :: 0 <= k < |tasks| && HasIntId(tasks[k], GenerateId(tasks) - 1)
  {
    var k, x :| 0 <= k < |tasks| && HasIntId(tasks[k], x);
    IntIdsExactly(tasks, x);
    IntIdsExactly(tasks, GenerateId(tasks) - 1);
  }

  /** Tasks whose id is missing or not an integer do not count: with no
      integer id at all, the new id is 1. */
  lemma GenerateIdWithoutIntIds(tasks: seq<Task>)
    requires forall k, x :: 0 <= k < |tasks| ==> !HasIntId(tasks[k], x)
    ensures GenerateId(tasks) == 1
  {
    if IntIds(tasks) != [] {
      IntIdsExactly(tasks, IntIds(tasks)[0]);
    }
  }

  /** With non-negative integer ids the new id is positive. */
  lemma GenerateIdPositive(tasks: seq<Task>)
    requires forall k, x :: 0 <= k < |tasks| && HasIntId(tasks[k], x) ==> x >= 0
    ensures GenerateId(tasks) >= 1
  {
    var ids := IntIds(tasks);
    if ids != [] {
      IntIdsExactly(tasks, MaxOr(ids, 0));
    }
  }

  // ---------------------------------------------------------------------
  // validate_date and format_date

  /** `validate_date(input_date)`: a string whose stripped text `strptime`
      accepts as `%Y-%m-%d`; any other value is rejected. */
  function ValidateDate(input: Value): (ok: bool)
    ensures ok ==> input.Str? && 8 <= |Strip(input.s)| <= 10
  {
    match input
    case Str(s) => StrptimeYmd(Strip(s)).Some?
    case _ => false
  }

  /** `format_date(input_date)`: the `isoformat()` of the parsed date, or
      `None` where `validate_date` says no. */
  function FormatDate(input: Value): (r: Option<string>)
    ensures r.Some? <==> ValidateDate(input)
    ensures r.Some? ==> IsCanonical(r.value)
  {
    match input
    case Str(s) =>
      (match StrptimeYmd(Strip(s))
       case Some(d) => Some(IsoFormat(d))
       case None => None)
    case _ => None
  }

  /** `validate_date` holds exactly of strings that, stripped, spell a real
      calendar date in one of the forms `%Y-%m-%d` admits. */
  lemma ValidateDateMeans(input: Value)
    ensures ValidateDate(input) <==>
      input.Str? && exists d, sp :: ValidDate(d) && Strip(input.s) == Render(d, sp)
  {
    if input.Str? {
      var t := Strip(input.s);
      if StrptimeYmd(t).Some? {
        StrptimeOnlySpellings(t);
      }
      if exists d, sp :: ValidDate(d) && t == Render(d, sp) {
        var d, sp :| ValidDate(d) && t == Render(d, sp);
        StrptimeAcceptsSpellings(d, sp);
      }
    }
  }

  /** February 29 is a date exactly in leap years. */
  lemma LeapDay(y: nat)
    requires 1 <= y <= 9999
    ensures ValidateDate(Str(Pad4(y) + "-02-29")) <==> IsLeapYear(y)
  {
    var t := Pad4(y) + "-02-29";
    StripUntouched(t);
    assert t[..4] == Pad4(y);
    assert MonthThenDash(t, 5) == Some(Group(2, 2));
    assert DayGroup(t, 8) == Some(Group(29, 2));
  }

  /** `format_date` gives `None` exactly where `validate_date` is false. */
  lemma FormatDateNoneIffInvalid(input: Value)
    ensures FormatDate(input).None? <==> !ValidateDate(input)
  {
  }

  /** A canonical text cannot be changed by `strip`. */
  lemma CanonicalUnstripped(s: string)
    requires IsCanonical(s)
    ensures Strip(s) == s
  {
    assert IsDigit(s[0]) by { assert s[0] == s[..4][0]; }
    assert IsDigit(s[9]) by { assert s[9] == s[8..][1]; }
    StripUntouched(s);
  }

  /** The canonical text of a date reads back as that date. */
  lemma IsoFormatReadsBack(d: Date)
    requires ValidDate(d)
    ensures StrptimeYmd(Strip(IsoFormat(d))) == Some(d)
  {
    CanonicalUnstripped(IsoFormat(d));
    IsoFormatIsSpelling(d);
    StrptimeAcceptsSpellings(d, Spelling(false, TwoDigits));
  }

  /** What `format_date` returns is canonical, names the date the input
      spelled, is itself a valid date, and is left as it is by `format_date`. */
  lemma FormatDateCanonical(s: string)
    requires FormatDate(Str(s)).Some?
    ensures var c := FormatDate(Str(s)).value;
      && IsCanonical(c)
      && (exists d, sp :: ValidDate(d) && Strip(s) == Render(d, sp) && c == IsoFormat(d))
      && ValidateDate(Str(c))
      && FormatDate(Str(c)) == Some(c)
  {
    var t := Strip(s);
    var d := StrptimeYmd(t).value;
    StrptimeOnlySpellings(t);
    IsoFormatReadsBack(d);
  }

  /** `generate_id` is the largest integer id plus one, whenever a task has
      an integer id. */
  lemma GenerateIdIsLargestPlusOne(tasks: seq<Task>)
    requires exists k, x :: 0 <= k < |tasks| && HasIntId(tasks[k], x)
    ensures exists k :: 0 <= k < |tasks| && HasIntId(tasks[k], GenerateId(tasks) - 1)
    ensures forall k, x :: 0 <= k < |tasks| && HasIntId(tasks[k], x) ==> x <= GenerateId(tasks) - 1
  {
    GenerateIdIsMaxPlusOne(tasks);
    GenerateIdAboveAll(tasks);
  }

  /** Normalising twice is normalising once. */
  lemma FormatDateIdempotent(s: string)
    requires FormatDate(Str(s)).Some?
    ensures FormatDate(Str(FormatDate(Str(s)).value)) == FormatDate(Str(s))
  {
    FormatDateCanonical(s);
  }

  /** The strings `format_date` leaves unchanged are exactly the canonical
      spellings of real dates. */
  lemma FormatDateFixedPoints(s: string)
    ensures FormatDate(Str(s)) == Some(s) <==> IsCanonical(s) && ValidateDate(Str(s))
  {
    if FormatDate(Str(s)) == Some(s) {
      FormatDateCanonical(s);
    }
    if IsCanonical(s) && ValidateDate(Str(s)) {
      CanonicalUnstripped(s);
      StrptimeCanonical(s);
    }
  }
}
