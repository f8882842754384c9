/** The `Table` component and `AttendanceTable`: role-filtered columns, the plain-cell
    fallback, the role-to-columns switch and the status badge styles. */
module Table {
  import opened Wrappers
  import opened Seqs

  /** `heading` is the column's `label`; `roles` is `None` when the column has no
      `roles` property; `badge` marks a column whose `render` draws a status badge. */
  datatype Column = Column(key: string, heading: string, roles: Option<seq<string>>, badge: bool)

  /** `!column.roles || column.roles.includes(userRole)`. An empty array is truthy, so
      `roles: []` hides a column from everyone. */
  predicate ColumnVisible(c: Column, userRole: string) {
    c.roles.None? || userRole in c.roles.value
  }

  /** `columns.filter(...)`: the visible columns, in their original order. */
  function FilterColumns(columns: seq<Column>, userRole: string): (r: seq<Column>)
    ensures forall i :: 0 <= i < |r| ==> r[i] in columns && (r[i].roles.None? || userRole in r[i].roles.value)
    ensures forall i :: 0 <= i < |columns| && (columns[i].roles.None? || userRole in columns[i].roles.value) ==>
              columns[i] in r
  {
    Filter(columns, c => ColumnVisible(c, userRole))
  }

  /** The filtered columns keep their relative order. */
  lemma FilterColumnsKeepsOrder(columns: seq<Column>, userRole: string)
    ensures IsSubsequence(FilterColumns(columns, userRole), columns)
  {
    FilterIsSubsequence(columns, c => ColumnVisible(c, userRole));
  }

  /** Columns without `roles` are never filtered out. */
  lemma UnrestrictedColumnsAllShown(columns: seq<Column>, userRole: string)
    requires forall i :: 0 <= i < |columns| ==> columns[i].roles.None?
    ensures FilterColumns(columns, userRole) == columns
  {
    FilterAll(columns, c => ColumnVisible(c, userRole));
  }

  /** Unlike the `Button`/`Card` gate, an empty role list hides a column. */
  lemma EmptyRoleListHidesColumn(c: Column, userRole: string)
    requires c.roles == Some([])
    ensures FilterColumns([c], userRole) == []
  {
  }

  /** A row cell's value as JavaScript sees it. */
  datatype CellValue = Undefined | Null | Bool(b: bool) | Num(n: int) | Str(s: string)

  /** The falsy values among those a row holds. */
  predicate Falsy(v: CellValue) {
    v.Undefined? || v.Null? || v == Bool(false) || v == Num(0) || v == Str("")
  }

  /** `row[column.key]`. */
  function CellOf(row: map<string, CellValue>, key: string): CellValue {
    if key in row then row[key] else Undefined
  }

  datatype Cell = Badge(style: string, status: CellValue) | Dash | Plain(value: CellValue)

  const DefaultBadgeStyle := "bg-gray-100 text-gray-800"

  /** `statusStyles[status] || 'bg-gray-100 text-gray-800'`. */
  function StatusStyle(status: CellValue): (style: string)
    ensures status == Str("Present") ==> style == "bg-green-100 text-green-800"
    ensures status == Str("Absent") ==> style == "bg-red-100 text-red-800"
    ensures status == Str("Late") ==> style == "bg-yellow-100 text-yellow-800"
    ensures status == Str("Early Leave") ==> style == "bg-blue-100 text-blue-800"
    ensures style == DefaultBadgeStyle <==>
              !(status.Str? && status.s in {"Present", "Absent", "Late", "Early Leave"})
  {
    match status
    case Str("Present") => "bg-green-100 text-green-800"
    case Str("Absent") => "bg-red-100 text-red-800"
    case Str("Late") => "bg-yellow-100 text-yellow-800"
    case Str("Early Leave") => "bg-blue-100 text-blue-800"
    case _ => DefaultBadgeStyle
  }

  /** One `<td>`: the column's badge renderer if it has one, else the value, or '-' for
      any falsy value (0 and "" included). */
  function RenderCell(row: map<string, CellValue>, c: Column): (cell: Cell)
    ensures c.badge ==> cell == Badge(StatusStyle(CellOf(row, c.key)), CellOf(row, c.key))
    ensures !c.badge ==> (cell == Dash <==> Falsy(CellOf(row, c.key)))
    ensures !c.badge && cell != Dash ==> cell == Plain(CellOf(row, c.key))
  {
    var v := CellOf(row, c.key);
    if c.badge then Badge(StatusStyle(v), v)
    else if Falsy(v) then Dash
    else Plain(v)
  }

  /** In `AttendanceTable`'s column sets only the status column draws a badge; every
      other cell shows '-' exactly when its value is falsy, so a missing `timeOut` or a
      `0` id shows '-'. */
  lemma AppCellsRender(userRole: string, row: map<string, CellValue>, i: nat)
    requires i < |ColumnsForRole(userRole)|
    ensures var c := ColumnsForRole(userRole)[i]; var v := CellOf(row, c.key);
      && (c.badge <==> c.key == "status")
      && (c.key == "status" ==> RenderCell(row, c) == Badge(StatusStyle(v), v))
      && (c.key != "status" ==> (RenderCell(row, c) == Dash <==> Falsy(v)))
      && (c.key != "status" && !Falsy(v) ==> RenderCell(row, c) == Plain(v))
  {
    var columns := ColumnsForRole(userRole);
    assert columns == AdminColumns || columns == TeacherColumns || columns == StudentColumns;
  }

  /** A student's row whose `timeOut` was never recorded shows '-' in that column. */
  lemma MissingTimeOutShowsDash(row: map<string, CellValue>)
    requires "timeOut" !in row
    ensures RenderCell(row, ColumnsForRole("student")[2]) == Dash
  {
  }

  function Keys(columns: seq<Column>): set<string> {
    set i | 0 <= i < |columns| :: columns[i].key
  }

  const AdminColumns := [
    Column("id", "ID", None, false),
    Column("studentName", "Student Name", None, false),
    Column("date", "Date", None, false),
    Column("timeIn", "Time In", None, false),
    Column("timeOut", "Time Out", None, false),
    Column("status", "Status", None, true),
    Column("teacher", "Teacher", None, false),
    Column("class", "Class", None, false)
  ]

  const TeacherColumns := [
    Column("studentName", "Student Name", None, false),
    Column("date", "Date", None, false),
    Column("timeIn", "Time In", None, false),
    Column("timeOut", "Time Out", None, false),
    Column("status", "Status", None, true),
    Column("class", "Class", None, false)
  ]

  const StudentColumns := [
    Column("date", "Date", None, false),
    Column("timeIn", "Time In", None, false),
    Column("timeOut", "Time Out", None, false),
    Column("status", "Status", None, true)
  ]

  /** `AttendanceTable`'s switch: 'teacher' and 'student' have their own columns, every
      other role (capitalised and unknown ones included) gets the admin columns. */
  function ColumnsForRole(userRole: string): (columns: seq<Column>)
    ensures userRole == "teacher" ==> columns == TeacherColumns
    ensures userRole == "student" ==> columns == StudentColumns
    ensures userRole != "teacher" && userRole != "student" ==> columns == AdminColumns
    ensures forall i :: 0 <= i < |columns| ==> columns[i].roles.None?
  {
    match userRole
    case "teacher" => TeacherColumns
    case "student" => StudentColumns
    case _ => AdminColumns
  }

  /** Students see a subset of the teachers' column keys, teachers of the admins'. */
  lemma ColumnKeysNested()
    ensures Keys(StudentColumns) <= Keys(TeacherColumns) <= Keys(AdminColumns)
  {
    assert Keys(StudentColumns) == {"date", "timeIn", "timeOut", "status"} by {
      var s := StudentColumns;
      assert s[0].key == "date" && s[1].key == "timeIn" && s[2].key == "timeOut" && s[3].key == "status";
    }
    assert Keys(TeacherColumns) == {"studentName", "date", "timeIn", "timeOut", "status", "class"} by {
      var t := TeacherColumns;
      assert t[0].key == "studentName" && t[1].key == "date" && t[2].key == "timeIn";
      assert t[3].key == "timeOut" && t[4].key == "status" && t[5].key == "class";
    }
    assert Keys(AdminColumns) == {"id", "studentName", "date", "timeIn", "timeOut", "status", "teacher", "class"} by {
      var a := AdminColumns;
      assert a[0].key == "id" && a[1].key == "studentName" && a[2].key == "date" && a[3].key == "timeIn";
      assert a[4].key == "timeOut" && a[5].key == "status" && a[6].key == "teacher" && a[7].key == "class";
    }
  }

  /** `AttendanceTable` passes its role on to `Table`, whose filter then keeps every
      column of the chosen set. */
  lemma AttendanceTableColumns(userRole: string)
    ensures FilterColumns(ColumnsForRole(userRole), userRole) == ColumnsForRole(userRole)
  {
    UnrestrictedColumnsAllShown(ColumnsForRole(userRole), userRole);
  }
}
