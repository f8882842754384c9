/** The role-aware date formatter: `formatDate`, `getRelativeDate` and
    `formatDateRange`, with the per-role configuration table they consult. */
module FormatDate {
  import opened Wrappers
  import opened Seqs
  import opened Text
  import opened Calendar

  /** A `Date` argument after coercion: not a valid instant, or its local components. */
  datatype DateValue = InvalidDate | ValidDate(at: Moment)

  /** One entry of the per-role configuration table. */
  datatype RoleFormat = RoleFormat(date: string, time: string, full: string, relative: bool)

  const AdminFormat := RoleFormat("DD-MM-YYYY", "HH:mm", "DD-MM-YYYY HH:mm", true)
  const TeacherFormat := RoleFormat("DD-MM-YYYY", "HH:mm", "DD-MM-YYYY HH:mm", false)
  const StudentFormat := RoleFormat("DD-MM-YYYY", "hh:mm A", "DD-MM-YYYY hh:mm A", true)

  const InvalidDateText := "Invalid Date"
  const TodayText := "Today"
  const YesterdayText := "Yesterday"
  const RangeSeparator := " to "

  /** Parameter defaults: `formatDate` uses mode 'date' and role 'student',
      `getRelativeDate` role 'student', `formatDateRange` role 'admin'. */
  const DefaultMode := "date"
  const DefaultRole := "student"
  const DefaultRangeRole := "admin"

  /** `roleFormats[role]`: only the three lower-case role names are keys. */
  function RoleFormatOf(role: string): (f: Option<RoleFormat>)
    ensures f.Some? <==> role == "admin" || role == "teacher" || role == "student"
  {
    if role == "admin" then Some(AdminFormat)
    else if role == "teacher" then Some(TeacherFormat)
    else if role == "student" then Some(StudentFormat)
    else None
  }

  /** The roles whose time convention is 24-hour. */
  predicate Uses24Hour(role: string) {
    role == "admin" || role == "teacher"
  }

  /** The roles that get "Today"/"Yesterday". */
  predicate UsesRelativeDates(role: string) {
    role == "admin" || role == "student"
  }

  /** `hours24 % 12 || 12`: the hour on a 12-hour clock. */
  function Hour12(h: int): (r: int)
    requires 0 <= h < 24
    ensures 1 <= r <= 12
    ensures r % 12 == h % 12
  {
    if h % 12 == 0 then 12 else h % 12
  }

  /** The AM/PM marker of a 24-hour hour. */
  function Meridiem(h: int): (m: string)
    ensures m == "AM" <==> h < 12
    ensures m == "AM" || m == "PM"
  {
    if h >= 12 then "PM" else "AM"
  }

  /** `${day}-${month}-${year}`: day and month padded, the year as `toString` gives it.
      The text reads back as the moment's day, month and year. */
  function DateText(t: Moment): (s: string)
    ensures |s| >= 7 && s[2] == '-' && s[5] == '-'
    ensures s[6..] == IntToString(t.year)
    ensures ParseDateText(s) == Some(FieldsOf(t))
    ensures forall i :: 0 <= i < |s| ==> s[i] != ' '
  {
    var dd, mm, yy := PadZero(t.day), PadZero(t.month), IntToString(t.year);
    PadZeroTwo(t.day);
    PadZeroTwo(t.month);
    IntToStringRoundTrip(t.year);
    IntToStringHasNoSpace(t.year);
    DateTextParts(dd, mm, yy);
    dd + "-" + mm + "-" + yy
  }

  /** `${padZero(hours24)}:${minutes}`: reads back as the hour and minute. */
  function Time24Text(t: Moment): (s: string)
    ensures |s| == 5
    ensures ParseTime24(s) == Some(ClockOf(t))
  {
    var hh, mm := PadZero(t.hour), PadZero(t.minute);
    PadZeroTwo(t.hour);
    PadZeroTwo(t.minute);
    ClockTextParts(hh, mm);
    hh + ":" + mm
  }

  /** `${padZero(hours12)}:${minutes} ${ampm}`: reads back as the same 24-hour clock
      reading, with the marker telling morning from afternoon. */
  function Time12Text(t: Moment): (s: string)
    ensures |s| == 8
    ensures s[6..] == (if t.hour < 12 then "AM" else "PM")
    ensures ParseTime12(s) == Some(ClockOf(t))
  {
    var h := Hour12(t.hour);
    var clock := PadZero(h) + ":" + PadZero(t.minute);
    ClockReadsBack(h, t.minute);
    MeridiemTextParts(clock, Meridiem(t.hour));
    Time12ReadsBack(clock, Meridiem(t.hour), h, t.minute);
    Hour12Inverse(t.hour);
    clock + " " + Meridiem(t.hour)
  }

  /** `formatDate(date, format, role)`. The sentinel "Invalid Date" is produced exactly
      for an invalid date. */
  function FormatDate(d: DateValue, mode: string, role: string): (r: string)
    ensures r == InvalidDateText <==> d.InvalidDate?
  {
    match d
    case InvalidDate => InvalidDateText
    case ValidDate(t) =>
      var config := RoleFormatOf(role).GetOr(StudentFormat);
      if mode == "date" then DateText(t)
      else if mode == "time" then
        (if config.time == "HH:mm" then Time24Text(t) else Time12Text(t))
      else if mode == "full" then
        (if config.full == "DD-MM-YYYY HH:mm" then DateText(t) + " " + Time24Text(t)
         else DateText(t) + " " + Time12Text(t))
      else DateText(t)
  }

  /** `getRelativeDate(date, role)` with the current moment passed in as `today`. */
  function GetRelativeDate(d: DateValue, role: string, today: Moment): (r: string)
    ensures r == InvalidDateText <==> d.InvalidDate?
    ensures r == TodayText <==> d.ValidDate? && UsesRelativeDates(role) && DayOf(d.at) == DayOf(today)
    ensures r == YesterdayText <==>
      d.ValidDate? && UsesRelativeDates(role) && DayOf(d.at) != DayOf(today) && DayOf(d.at) == PrevDay(DayOf(today))
    ensures r != TodayText && r != YesterdayText ==> r == FormatDate(d, "date", role)
  {
    var config := RoleFormatOf(role);
    match d
    case InvalidDate => FormatDate(d, "date", role)
    case ValidDate(t) =>
      DateTextIsNoRelativeWord(t);
      if config.None? || !config.value.relative then FormatDate(d, "date", role)
      else if DayOf(t) == DayOf(today) then TodayText
      else if DayOf(t) == PrevDay(DayOf(today)) then YesterdayText
      else FormatDate(d, "date", role)
  }

  /** `formatDateRange(startDate, endDate, role)`. */
  function FormatDateRange(start: DateValue, end: DateValue, role: string): (r: string)
    ensures start.InvalidDate? ==> |r| >= 16 && r[..16] == InvalidDateText + RangeSeparator
    ensures end.InvalidDate? ==> |r| >= 16 && r[|r| - 16..] == RangeSeparator + InvalidDateText
    ensures start.ValidDate? && end.ValidDate? ==>
      ParseDateRange(r) == Some((FieldsOf(start.at), FieldsOf(end.at)))
    ensures start.InvalidDate? && end.ValidDate? ==> ParseDateText(r[16..]) == Some(FieldsOf(end.at))
    ensures start.ValidDate? && end.InvalidDate? ==> ParseDateText(r[..|r| - 16]) == Some(FieldsOf(start.at))
  {
    var a, b := FormatDate(start, "date", role), FormatDate(end, "date", role);
    RangeTextParts(a, b);
    if start.ValidDate? && end.ValidDate? then
      ValidRangeParses(start.at, end.at);
      a + RangeSeparator + b
    else
      a + RangeSeparator + b
  }

  // ---------------------------------------------------------------------------
  // Reading rendered text back: the inverses the rendering lemmas are stated with.

  datatype DateFields = DateFields(day: int, month: int, year: int)

  datatype ClockFields = ClockFields(hour: int, minute: int)

  /** Reads `DD-MM-Y…` with a possibly negative, unpadded year. */
  function ParseDateText(s: string): Option<DateFields> {
    if |s| >= 7 && AllDigits(s[..2]) && s[2] == '-' && AllDigits(s[3..5]) && s[5] == '-' then
      match ParseInt(s[6..])
      case Some(y) => Some(DateFields(DigitsValue(s[..2]), DigitsValue(s[3..5]), y))
      case None => None
    else None
  }

  /** Reads 24-hour `HH:mm`. */
  function ParseTime24(s: string): Option<ClockFields> {
    if |s| == 5 && AllDigits(s[..2]) && s[2] == ':' && AllDigits(s[3..]) then
      Some(ClockFields(DigitsValue(s[..2]), DigitsValue(s[3..])))
    else None
  }

  /** Reads 12-hour `hh:mm AM|PM` and converts it to a 24-hour clock reading. */
  function ParseTime12(s: string): Option<ClockFields> {
    if |s| == 8 && s[5] == ' ' && (s[6..] == "AM" || s[6..] == "PM") then
      match ParseTime24(s[..5])
      case Some(c) =>
        if 1 <= c.hour <= 12 then
          Some(ClockFields(c.hour % 12 + (if s[6..] == "PM" then 12 else 0), c.minute))
        else None
      case None => None
    else None
  }

  /** Reads `<start> to <end>` where neither side contains a space. */
  function ParseDateRange(s: string): Option<(DateFields, DateFields)> {
    match FindIndex(s, (c: char) => c == ' ')
    case None => None
    case Some(i) =>
      if i + 4 <= |s| && s[i..i + 4] == RangeSeparator then
        match (ParseDateText(s[..i]), ParseDateText(s[i + 4..]))
        case (Some(a), Some(b)) => Some((a, b))
        case _ => None
      else None
  }

  function FieldsOf(t: Moment): DateFields {
    DateFields(t.day, t.month, t.year)
  }

  function ClockOf(t: Moment): ClockFields {
    ClockFields(t.hour, t.minute)
  }

  // ---------------------------------------------------------------------------
  // Facts about the pieces.

  lemma PadZeroTwo(n: nat)
    requires n < 100
    ensures var p := PadZero(n); |p| == 2 && AllDigits(p[..2]) && DigitsValue(p[..2]) == n
  {
    assert PadZero(n)[..2] == PadZero(n);
  }

  /** Where the two ends of `${a} to ${b}` sit. */
  lemma RangeTextParts(a: string, b: string)
    ensures var r := a + RangeSeparator + b;
      && r[..|a| + 4] == a + RangeSeparator && r[|r| - (|b| + 4)..] == RangeSeparator + b
      && r[..|a|] == a && r[|a| + 4..] == b
  {
  }

  /** A range of two valid dates reads back as their two calendar days. */
  lemma ValidRangeParses(s: Moment, e: Moment)
    ensures ParseDateRange(DateText(s) + RangeSeparator + DateText(e)) == Some((FieldsOf(s), FieldsOf(e)))
  {
    SplitAtFirstSpace(DateText(s), DateText(e));
  }

  /** Where the pieces of `${dd}-${mm}-${yy}` sit. */
  lemma DateTextParts(dd: string, mm: string, yy: string)
    requires |dd| == 2 && |mm| == 2 && |yy| >= 1
    requires AllDigits(dd) && AllDigits(mm) && forall i :: 0 <= i < |yy| ==> yy[i] != ' '
    ensures var s := dd + "-" + mm + "-" + yy;
      && |s| >= 7 && s[..2] == dd && s[2] == '-' && s[3..5] == mm && s[5] == '-' && s[6..] == yy
      && forall i :: 0 <= i < |s| ==> s[i] != ' '
  {
    var s := dd + "-" + mm + "-" + yy;
    assert s[..2] == dd && s[3..5] == mm && s[6..] == yy;
    forall i | 0 <= i < |s| ensures s[i] != ' ' {
      if i < 2 {
        assert s[i] == dd[i];
      } else if 2 < i < 5 {
        assert s[i] == mm[i - 3];
      } else if i >= 6 {
        assert s[i] == yy[i - 6];
      }
    }
  }

  /** Two padded numbers below 100 joined by ':' read back as themselves. */
  lemma ClockReadsBack(h: nat, m: nat)
    requires h < 100 && m < 100
    ensures var s := PadZero(h) + ":" + PadZero(m); |s| == 5 && ParseTime24(s) == Some(ClockFields(h, m))
  {
    PadZeroTwo(h);
    PadZeroTwo(m);
    ClockTextParts(PadZero(h), PadZero(m));
  }

  /** A 12-hour clock text followed by its marker reads back as the 24-hour reading. */
  lemma Time12ReadsBack(clock: string, m: string, h12: int, minute: int)
    requires |clock| == 5 && (m == "AM" || m == "PM") && 1 <= h12 <= 12
    requires ParseTime24(clock) == Some(ClockFields(h12, minute))
    ensures ParseTime12(clock + " " + m) == Some(ClockFields(h12 % 12 + (if m == "PM" then 12 else 0), minute))
  {
    MeridiemTextParts(clock, m);
  }

  /** The 12-hour hour and the marker together give back the 24-hour hour. */
  lemma Hour12Inverse(h: int)
    requires 0 <= h < 24
    ensures Hour12(h) % 12 + (if Meridiem(h) == "PM" then 12 else 0) == h
  {
  }

  /** Where the pieces of `${hh}:${mm}` sit. */
  lemma ClockTextParts(hh: string, mm: string)
    requires |hh| == 2 && |mm| == 2
    ensures var s := hh + ":" + mm; |s| == 5 && s[..2] == hh && s[2] == ':' && s[3..] == mm
  {
    var s := hh + ":" + mm;
    assert s[..2] == hh && s[3..] == mm;
  }

  /** Where the pieces of `${clock} ${ampm}` sit. */
  lemma MeridiemTextParts(clock: string, m: string)
    requires |clock| == 5 && |m| == 2
    ensures var s := clock + " " + m; |s| == 8 && s[..5] == clock && s[5] == ' ' && s[6..] == m
  {
    var s := clock + " " + m;
    assert s[..5] == clock && s[6..] == m;
  }

  // ---------------------------------------------------------------------------
  // The properties of the formatter.

  /** An invalid date renders as "Invalid Date" whatever the mode and role, in every
      function of the module. */
  lemma InvalidDateEverywhere(mode: string, role: string, other: DateValue, today: Moment)
    ensures FormatDate(InvalidDate, mode, role) == InvalidDateText
    ensures GetRelativeDate(InvalidDate, role, today) == InvalidDateText
    ensures FormatDateRange(InvalidDate, other, role)[..|InvalidDateText| + 4] == InvalidDateText + RangeSeparator
    ensures var r := FormatDateRange(other, InvalidDate, role);
      r[|r| - |InvalidDateText| - 4..] == RangeSeparator + InvalidDateText
  {
  }

  /** Date mode, and every mode other than 'time' and 'full', renders `DD-MM-YYYY`:
      two-digit day and month that read back as the moment's own, then the unpadded
      year; the text is the same for every role. */
  lemma DateModeRendering(t: Moment, mode: string, role: string)
    requires mode != "time" && mode != "full"
    ensures var r := FormatDate(ValidDate(t), mode, role);
      && r == FormatDate(ValidDate(t), DefaultMode, DefaultRole)
      && r[2] == '-' && r[5] == '-'
      && r[6..] == IntToString(t.year)
      && ParseDateText(r) == Some(FieldsOf(t))
  {
  }

  /** Time mode renders 24-hour `HH:mm` for admin and teacher, and 12-hour
      `hh:mm AM|PM` for every other role; either way the text reads back as the
      moment's hour and minute. */
  lemma TimeModeRendering(t: Moment, role: string)
    ensures var r := FormatDate(ValidDate(t), "time", role);
      && (Uses24Hour(role) ==> |r| == 5 && ParseTime24(r) == Some(ClockOf(t)))
      && (!Uses24Hour(role) ==>
            |r| == 8 && ParseTime12(r) == Some(ClockOf(t)) && r[6..] == (if t.hour < 12 then "AM" else "PM"))
  {
  }

  /** The year is not padded: a year before 1000 makes the date text shorter than
      `DD-MM-YYYY`, and its first digit is never a padding zero. */
  lemma {:induction false} YearNotPadded(t: Moment)
    requires 0 <= t.year < 1000
    ensures |DateText(t)| < 10
    ensures t.year > 0 ==> DateText(t)[6] != '0'
  {
    var y := NatToString(t.year);
    if t.year >= 100 {
      assert |NatToString(t.year / 10)| == 2;
    }
    assert DateText(t)[6..] == y;
  }

  /** The 12-hour clock maps 0 and 12 to 12 and 13 to 1. */
  lemma Hour12Wraparound()
    ensures Hour12(0) == 12 && Hour12(12) == 12 && Hour12(13) == 1
    ensures Meridiem(0) == "AM" && Meridiem(12) == "PM" && Meridiem(13) == "PM"
  {
  }

  /** Full mode is the date rendering, a space, and the time rendering of the same role. */
  lemma FullModeIsDateThenTime(d: DateValue, role: string)
    requires d.ValidDate?
    ensures FormatDate(d, "full", role) == FormatDate(d, "date", role) + " " + FormatDate(d, "time", role)
  {
  }

  /** A role without an entry in the table formats exactly as 'student'. */
  lemma UnknownRoleFormatsAsStudent(d: DateValue, mode: string, role: string)
    requires RoleFormatOf(role).None?
    ensures FormatDate(d, mode, role) == FormatDate(d, mode, "student")
  {
  }

  /** For admin and student a valid date is "Today" exactly on today's calendar day,
      "Yesterday" exactly on the previous calendar day, and otherwise its date text. */
  lemma RelativeDateForRelativeRoles(t: Moment, role: string, today: Moment)
    requires UsesRelativeDates(role)
    ensures var r := GetRelativeDate(ValidDate(t), role, today);
      && (r == TodayText <==> DayOf(t) == DayOf(today))
      && (r == YesterdayText <==> DayOf(t) == PrevDay(DayOf(today)))
      && (r != TodayText && r != YesterdayText ==> r == FormatDate(ValidDate(t), "date", role))
  {
    DateTextIsNoRelativeWord(t);
  }

  /** "Yesterday" means: the date's day precedes today's, with no calendar day between. */
  lemma YesterdayIsImmediatePredecessor(t: Moment, role: string, today: Moment)
    requires UsesRelativeDates(role)
    ensures GetRelativeDate(ValidDate(t), role, today) == YesterdayText <==>
      && Before(DayOf(t), DayOf(today))
      && forall x: CalendarDay :: IsValidDay(x) && Before(x, DayOf(today)) ==> x == DayOf(t) || Before(x, DayOf(t))
  {
    RelativeDateForRelativeRoles(t, role, today);
    if && Before(DayOf(t), DayOf(today))
       && forall x: CalendarDay :: IsValidDay(x) && Before(x, DayOf(today)) ==> x == DayOf(t) || Before(x, DayOf(t))
    {
      PrevDayUnique(DayOf(today), DayOf(t));
    }
  }

  /** Teacher, and any role without an entry (capitalised names included), never gets
      "Today" or "Yesterday": the result is the plain date rendering. */
  lemma NoRelativeDatesForOtherRoles(d: DateValue, role: string, today: Moment)
    requires !UsesRelativeDates(role)
    ensures var r := GetRelativeDate(d, role, today);
      && r == FormatDate(d, "date", role)
      && r != TodayText && r != YesterdayText
  {
    assert RoleFormatOf(role).None? || !RoleFormatOf(role).value.relative;
    match d
    case InvalidDate =>
      assert |InvalidDateText| == 12;
    case ValidDate(t) =>
      DateTextIsNoRelativeWord(t);
  }

  lemma DateTextIsNoRelativeWord(t: Moment)
    ensures DateText(t) != TodayText && DateText(t) != YesterdayText
  {
    assert |TodayText| == 5 && TodayText[2] == 'd' && YesterdayText[2] == 's';
  }

  /** `getRelativeDate` reads `relative` without the student fallback: an unknown role
      such as "guardian" sees the plain date on the very day a student sees "Today". */
  lemma UnknownRoleHasNoRelativeDates(today: Moment)
    ensures GetRelativeDate(ValidDate(today), "student", today) == TodayText
    ensures GetRelativeDate(ValidDate(today), "guardian", today) == DateText(today)
    ensures GetRelativeDate(ValidDate(today), "guardian", today) != TodayText
  {
    DateTextIsNoRelativeWord(today);
  }

  /** The range text is the two date renderings around " to ", whatever the role; for
      valid endpoints it reads back as both dates, and no order between them is checked. */
  lemma DateRangeRendering(start: DateValue, end: DateValue, role: string)
    ensures FormatDateRange(start, end, role) == FormatDateRange(start, end, DefaultRangeRole)
    ensures FormatDateRange(start, end, role) == FormatDate(start, "date", role) + RangeSeparator + FormatDate(end, "date", role)
    ensures start.ValidDate? && end.ValidDate? ==>
      ParseDateRange(FormatDateRange(start, end, role)) == Some((FieldsOf(start.at), FieldsOf(end.at)))
  {
  }

  /** The value of two digits, tens first. */
  lemma TwoDigitsValue(x: string)
    requires |x| == 2 && AllDigits(x)
    ensures DigitsValue(x) == DigitValue(x[0]) * 10 + DigitValue(x[1])
  {
    var p := x[..1];
    assert p[..0] == [] && p[0] == x[0];
    assert DigitsValue(p) == DigitValue(x[0]);
  }

  /** Two two-digit strings with the same value are the same string. */
  lemma TwoDigitsInjective(x: string, y: string)
    requires |x| == 2 && |y| == 2 && AllDigits(x) && AllDigits(y)
    requires DigitsValue(x) == DigitsValue(y)
    ensures x == y
  {
    TwoDigitsValue(x);
    TwoDigitsValue(y);
    assert DigitChar(DigitValue(x[0])) == x[0] && DigitChar(DigitValue(y[0])) == y[0];
  }

  /** Reading back pins the text: the only text `ParseDateText` reads as a moment's
      calendar day is that moment's date text. */
  lemma ParseDateTextPinsText(s: string, t: Moment)
    requires ParseDateText(s) == Some(FieldsOf(t))
    ensures s == DateText(t)
  {
    PadZeroTwo(t.day);
    PadZeroTwo(t.month);
    TwoDigitsInjective(s[..2], PadZero(t.day)[..2]);
    TwoDigitsInjective(s[3..5], PadZero(t.month)[..2]);
    assert PadZero(t.day)[..2] == PadZero(t.day) && PadZero(t.month)[..2] == PadZero(t.month);
    ParseIntCanonical(s[6..]);
    assert s == s[..2] + "-" + s[3..5] + "-" + s[6..];
  }

  /** Reading back pins the range text too: only the two date texts around " to "
      read back as the two calendar days. */
  lemma ParseDateRangePinsText(r: string, a: Moment, b: Moment)
    requires ParseDateRange(r) == Some((FieldsOf(a), FieldsOf(b)))
    ensures r == DateText(a) + RangeSeparator + DateText(b)
  {
    var i := FindIndex(r, (c: char) => c == ' ').value;
    var head, sep, tail := r[..i], r[i..i + 4], r[i + 4..];
    assert sep == RangeSeparator && ParseDateText(head) == Some(FieldsOf(a)) && ParseDateText(tail) == Some(FieldsOf(b));
    ParseDateTextPinsText(head, a);
    ParseDateTextPinsText(tail, b);
    SplitInThree(r, i, i + 4);
  }

  /** Cutting a text at two positions and gluing the pieces back gives the text. */
  lemma SplitInThree(r: string, i: nat, j: nat)
    requires i <= j <= |r|
    ensures r == r[..i] + r[i..j] + r[j..]
  {
    assert r[..j] == r[..i] + r[i..j];
  }

  /** Joining two space-free date texts with " to " and reading the result back. */
  lemma SplitAtFirstSpace(a: string, b: string)
    requires forall i :: 0 <= i < |a| ==> a[i] != ' '
    requires ParseDateText(a).Some? && ParseDateText(b).Some?
    ensures ParseDateRange(a + RangeSeparator + b) == Some((ParseDateText(a).value, ParseDateText(b).value))
  {
    var r := a + RangeSeparator + b;
    assert r[|a|] == ' ';
    assert forall j :: 0 <= j < |a| ==> r[j] == a[j];
    assert FindIndex(r, (c: char) => c == ' ') == Some(|a|);
    assert r[..|a|] == a && r[|a|..|a| + 4] == RangeSeparator && r[|a| + 4..] == b;
  }
}
