/** The attendance-marking page: a sequence of student rows with a `present` flag,
    the operations that change it, and the counts and percentage shown above it. */
module Attendance {
  import opened Wrappers
  import opened Seqs

  datatype Student = Student(id: int, name: string, studentId: string, email: string)

  /** A student spread into a row together with the `present` flag. */
  datatype StudentRow = StudentRow(student: Student, present: bool)

  datatype ClassInfo = ClassInfo(id: int, name: string, teacher: string)

  /** The page state; `selectedDate` is the date input's text. */
  datatype AttendanceState = AttendanceState(
    selectedDate: string, selectedClass: int, rows: seq<StudentRow>, saveSuccess: bool)

  /** Rows that mark every student of `roster` absent, in roster order. */
  function AbsentRows(roster: seq<Student>): (rows: seq<StudentRow>)
    ensures |rows| == |roster|
    ensures forall i :: 0 <= i < |rows| ==> rows[i].student == roster[i] && !rows[i].present
  {
    seq(|roster|, i requires 0 <= i < |roster| => StudentRow(roster[i], false))
  }

  function Students(rows: seq<StudentRow>): (r: seq<Student>)
    ensures |r| == |rows|
    ensures forall i :: 0 <= i < |rows| ==> r[i] == rows[i].student
  {
    seq(|rows|, i requires 0 <= i < |rows| => rows[i].student)
  }

  /** The initial state: today's date, the first class, and every student absent. */
  function Initial(roster: seq<Student>, classes: seq<ClassInfo>, today: string): (s: AttendanceState)
    requires |classes| > 0
    ensures s.selectedClass == classes[0].id && s.selectedDate == today && !s.saveSuccess
    ensures Students(s.rows) == roster
    ensures PresentCount(s.rows) == 0
  {
    var rows := AbsentRows(roster);
    AllAbsentCount(rows);
    AttendanceState(today, classes[0].id, rows, false)
  }

  /** `toggleAttendance(studentId)`: flips `present` on the rows with that id. */
  function ToggleAttendance(s: AttendanceState, id: int): (r: AttendanceState)
    ensures |r.rows| == |s.rows| && Students(r.rows) == Students(s.rows)
    ensures forall i :: 0 <= i < |s.rows| && s.rows[i].student.id == id ==> r.rows[i].present != s.rows[i].present
    ensures forall i :: 0 <= i < |s.rows| && s.rows[i].student.id != id ==> r.rows[i] == s.rows[i]
    ensures r.selectedDate == s.selectedDate && r.selectedClass == s.selectedClass && !r.saveSuccess
  {
    var rows := seq(|s.rows|, i requires 0 <= i < |s.rows| =>
      if s.rows[i].student.id == id then s.rows[i].(present := !s.rows[i].present) else s.rows[i]);
    s.(rows := rows, saveSuccess := false)
  }

  /** `markAllPresent`: every row present, students and order unchanged. */
  function MarkAllPresent(s: AttendanceState): (r: AttendanceState)
    ensures Students(r.rows) == Students(s.rows)
    ensures forall i :: 0 <= i < |r.rows| ==> r.rows[i].present
    ensures PresentCount(r.rows) == |r.rows|
    ensures r.selectedDate == s.selectedDate && r.selectedClass == s.selectedClass && !r.saveSuccess
  {
    var rows := seq(|s.rows|, i requires 0 <= i < |s.rows| => s.rows[i].(present := true));
    FilterAll(rows, IsPresent);
    s.(rows := rows, saveSuccess := false)
  }

  /** Every row absent again, as both reset handlers do. */
  function ResetRows(rows: seq<StudentRow>): (r: seq<StudentRow>)
    ensures Students(r) == Students(rows)
    ensures forall i :: 0 <= i < |r| ==> !r[i].present
    ensures PresentCount(r) == 0
  {
    var r := AbsentRows(Students(rows));
    AllAbsentCount(r);
    r
  }

  /** `handleDateChange`: new date, every student absent, success notice cleared. */
  function ChangeDate(s: AttendanceState, date: string): (r: AttendanceState)
    ensures r.selectedDate == date && r.selectedClass == s.selectedClass
    ensures Students(r.rows) == Students(s.rows) && PresentCount(r.rows) == 0
    ensures forall i :: 0 <= i < |r.rows| ==> !r.rows[i].present
    ensures !r.saveSuccess
  {
    AttendanceState(date, s.selectedClass, ResetRows(s.rows), false)
  }

  /** `handleClassChange`: new class (the parsed option value), every student absent,
      success notice cleared. */
  function ChangeClass(s: AttendanceState, classId: int): (r: AttendanceState)
    ensures r.selectedClass == classId && r.selectedDate == s.selectedDate
    ensures Students(r.rows) == Students(s.rows) && PresentCount(r.rows) == 0
    ensures forall i :: 0 <= i < |r.rows| ==> !r.rows[i].present
    ensures !r.saveSuccess
  {
    AttendanceState(s.selectedDate, classId, ResetRows(s.rows), false)
  }

  predicate IsPresent(row: StudentRow) {
    row.present
  }

  predicate IsAbsent(row: StudentRow) {
    !row.present
  }

  /** `students.filter(student => student.present).length`. */
  function PresentCount(rows: seq<StudentRow>): (n: nat)
    ensures n <= |rows|
  {
    |Filter(rows, IsPresent)|
  }

  /** The "Absent" figure, `totalCount - presentCount`. */
  function AbsentDisplay(rows: seq<StudentRow>): (n: int)
    ensures 0 <= n <= |rows|
  {
    |rows| - PresentCount(rows)
  }

  lemma AllAbsentCount(rows: seq<StudentRow>)
    requires forall i :: 0 <= i < |rows| ==> !rows[i].present
    ensures PresentCount(rows) == 0
  {
    FilterNone(rows, IsPresent);
  }

  /** The displayed absent figure is the number of rows not marked present. */
  lemma AbsentDisplayCountsAbsentRows(rows: seq<StudentRow>)
    ensures AbsentDisplay(rows) == |Filter(rows, IsAbsent)|
  {
    FilterComplement(rows, IsPresent);
    assert Filter(rows, x => !IsPresent(x)) == Filter(rows, IsAbsent) by {
      FilterSamePredicate(rows, x => !IsPresent(x), IsAbsent);
    }
  }

  lemma {:induction false} FilterSamePredicate<T>(s: seq<T>, p: T -> bool, q: T -> bool)
    requires forall x :: p(x) == q(x)
    ensures Filter(s, p) == Filter(s, q)
    decreases |s|
  {
    if |s| > 0 {
      FilterSamePredicate(s[1..], p, q);
    }
  }

  /** `Math.round(presentCount / totalCount * 100)`, or 0 without students; rounding
      is half-up on the exact ratio. */
  function Percentage(present: nat, total: nat): (pct: nat)
    requires present <= total
    ensures pct <= 100
    ensures total == 0 ==> pct == 0
    ensures total > 0 ==> 2 * pct * total <= 200 * present + total < 2 * pct * total + 2 * total
    ensures total > 0 ==> (pct == 100 <==> 200 * present >= 199 * total)
  {
    if total == 0 then 0
    else
      var pct := (200 * present + total) / (2 * total);
      PercentageBounds(present, total, pct);
      pct
  }

  lemma PercentageBounds(present: nat, total: nat, pct: nat)
    requires 0 < total && present <= total && pct == (200 * present + total) / (2 * total)
    ensures 2 * pct * total <= 200 * present + total < 2 * pct * total + 2 * total
    ensures pct <= 100
    ensures pct == 100 <==> 200 * present >= 199 * total
  {
    var q, d := 200 * present + total, 2 * total;
    DivBounds(q, d);
    assert pct * d <= q < pct * d + d;
    assert 2 * pct * total == pct * d by {
      MulAssoc(pct, total);
    }
    assert q < 101 * d;
    if pct >= 101 {
      MulMonotone(101, pct, d);
    }
    if pct <= 99 {
      MulMonotone(pct + 1, 100, d);
      assert (pct + 1) * d == pct * d + d;
    }
  }

  lemma DivBounds(q: nat, d: nat)
    requires d > 0
    ensures (q / d) * d <= q < (q / d) * d + d
  {
  }

  lemma MulAssoc(a: int, b: int)
    ensures 2 * a * b == a * (2 * b)
  {
  }

  lemma MulMonotone(a: int, b: int, c: nat)
    requires a <= b
    ensures a * c <= b * c
  {
  }

  /** The percentage the page shows for a list of rows. */
  function AttendancePercentage(rows: seq<StudentRow>): (pct: nat)
    ensures pct <= 100
    ensures |rows| == 0 ==> pct == 0
    ensures |rows| > 0 && PresentCount(rows) == |rows| ==> pct == 100
    ensures PresentCount(rows) == 0 ==> pct == 0
  {
    Percentage(PresentCount(rows), |rows|)
  }

  /** Toggling the same student twice restores the rows. */
  lemma ToggleTwiceIsIdentity(s: AttendanceState, id: int)
    ensures ToggleAttendance(ToggleAttendance(s, id), id).rows == s.rows
  {
    var twice := ToggleAttendance(ToggleAttendance(s, id), id).rows;
    assert forall i :: 0 <= i < |s.rows| ==> twice[i] == s.rows[i];
  }

  /** Marking everyone present twice is the same as doing it once. */
  lemma MarkAllPresentIdempotent(s: AttendanceState)
    ensures MarkAllPresent(MarkAllPresent(s)) == MarkAllPresent(s)
  {
    var once, twice := MarkAllPresent(s), MarkAllPresent(MarkAllPresent(s));
    assert forall i :: 0 <= i < |once.rows| ==> twice.rows[i] == once.rows[i];
  }

  /** When ids are distinct, toggling one student moves the present count by exactly one. */
  lemma {:induction false} ToggleChangesCountByOne(s: AttendanceState, k: nat)
    requires k < |s.rows|
    requires forall i :: 0 <= i < |s.rows| && i != k ==> s.rows[i].student.id != s.rows[k].student.id
    ensures PresentCount(ToggleAttendance(s, s.rows[k].student.id).rows) ==
      PresentCount(s.rows) + (if s.rows[k].present then -1 else 1)
  {
    var rows := s.rows;
    var toggled := ToggleAttendance(s, rows[k].student.id).rows;
    assert toggled == rows[..k] + [toggled[k]] + rows[k + 1..];
    assert rows == rows[..k] + [rows[k]] + rows[k + 1..];
    FilterAppend(rows[..k] + [toggled[k]], rows[k + 1..], IsPresent);
    FilterAppend(rows[..k], [toggled[k]], IsPresent);
    FilterAppend(rows[..k] + [rows[k]], rows[k + 1..], IsPresent);
    FilterAppend(rows[..k], [rows[k]], IsPresent);
  }

  /** `getSelectedClassName`: the name of the first class with the selected id, or "". */
  function SelectedClassName(classes: seq<ClassInfo>, selected: int): (name: string)
    ensures (forall i :: 0 <= i < |classes| ==> classes[i].id != selected) ==> name == ""
    ensures forall i :: 0 <= i < |classes| && classes[i].id == selected && NoEarlierClass(classes, selected, i) ==>
              name == classes[i].name
  {
    match FindIndex(classes, (c: ClassInfo) => c.id == selected)
    case Some(i) => classes[i].name
    case None => ""
  }

  predicate NoEarlierClass(classes: seq<ClassInfo>, selected: int, i: int)
    requires 0 <= i <= |classes|
  {
    forall j :: 0 <= j < i ==> classes[j].id != selected
  }
}
