/** The complete Apps Script back end (`google-apps-script-complete.js`): the
    student, timetable and attendance sheets of one spreadsheet, read by
    `getStudents`, `getClasses` and `getSchedule`, rewritten by
    `syncStudents`, appended to by `syncAttendance`, behind the `doGet` and
    `doPost` dispatchers. The clock is the parameter `now` (ISO time) or
    `today` (local date). */
module ScriptComplete {
  import opened Wrappers
  import opened Entities
  import opened Sheets
  import Text
  import Seqs

  const StudentsSheet := "學員資料"
  const ScheduleSheet := "schedule"
  const AttendanceSheet := "出席記錄"

  // ---------------------------------------------------------------- getStudents

  /** How `getStudents` reads a row, stamping a student without a creation
      time with `now`. */
  function ReadStudent(now: string): Row -> SheetStudent {
    (row: Row) => StudentOfRow(row, "", now)
  }

  /** The students `getStudents` lists: one per row below the header that
      has an id. */
  function ReadStudents(values: seq<Row>, now: string): seq<SheetStudent> {
    if values == [] then [] else KeepRows(values[1..], HasId, ReadStudent(now))
  }

  /** The reply of `getStudents` for the sheet's rows (`None`: no such sheet). */
  function StudentsReply(values: Option<seq<Row>>, now: string): (r: Reply)
    ensures r.StudentList? && r.count == |r.students|
    ensures values.None? || |values.value| <= 1 ==> r == StudentList([], 0)
  {
    var students := if values.None? then [] else ReadStudents(values.value, now);
    StudentList(students, |students|)
  }

  /** `getStudents()`. */
  method GetStudents(book: Spreadsheet, now: string) returns (r: Reply)
    ensures r == StudentsReply(book.Values(StudentsSheet), now)
  {
    var sheet := book.SheetByName(StudentsSheet);
    if sheet == null {
      return StudentList([], 0);
    }
    var data := sheet.values;
    if |data| <= 1 {
      return StudentList([], 0);
    }
    var students: seq<SheetStudent> := [];
    var i := 1;
    while i < |data|
      invariant 1 <= i <= |data|
      invariant students == KeepRows(data[1..i], HasId, ReadStudent(now))
    {
      var row := data[i];
      KeepRowsNext(data, i, HasId, ReadStudent(now));
      if CellAt(row, 0) != "" {
        students := students + [StudentOfRow(row, "", now)];
      }
      i := i + 1;
    }
    assert data[1..i] == data[1..];
    return StudentList(students, |students|);
  }

  // ---------------------------------------------------------------- syncStudents

  /** The student sheet `syncStudents` leaves: the header, then one row per
      student in order. */
  function SyncedStudents(students: seq<SheetStudent>, now: string): (rows: seq<Row>)
    ensures |rows| == 1 + |students| && rows[0] == StudentHeader
    ensures forall k :: 1 <= k < |rows| ==> |rows[k]| == 9
  {
    [StudentHeader] + Seqs.Map(students, WriteStudent(now))
  }

  /** Students with an id come back from the sheet `syncStudents` wrote, in
      order, with the status and creation time defaults filled in; students
      without one are dropped. */
  lemma SyncedStudentsReadBack(students: seq<SheetStudent>, now: string, readAt: string)
    requires now != ""
    ensures ReadStudents(SyncedStudents(students, now), readAt)
      == Seqs.Map(Seqs.Filter(students, (s: SheetStudent) => s.id != ""), (s: SheetStudent) => Stored(s, now))
  {
    var rows := SyncedStudents(students, now);
    assert rows[1..] == Seqs.Map(students, WriteStudent(now));
    forall s: SheetStudent
      ensures s.id != "" ==> ReadStudent(readAt)(WriteStudent(now)(s)) == Stored(s, now)
    {
      StudentRowReadsBack(s, now, "", readAt);
    }
    KeepMappedRows(students, WriteStudent(now), HasId, ReadStudent(readAt),
      (s: SheetStudent) => s.id != "", (s: SheetStudent) => Stored(s, now));
  }

  /** The reply of `syncStudents` to a list of `n` students. */
  function SyncedReply(n: nat): Reply {
    Synced(SyncedStudentsMessage(n), Some(n))
  }

  /** `syncStudents(students)`: a payload that is no array is refused before
      the spreadsheet is touched; otherwise the student sheet, created if
      missing, is cleared and rewritten. */
  method SyncStudents(book: Spreadsheet, students: Option<seq<SheetStudent>>, now: string) returns (r: Reply)
    modifies book, book.Named({StudentsSheet})
    ensures students.None?
      ==> (r == Failure(Thrown("無效的學員資料格式")) && book.sheets == old(book.sheets)
        && unchanged(book.Named({StudentsSheet})))
    ensures students.Some? ==> (r == SyncedReply(|students.value|)
      && book.Values(StudentsSheet) == Some(SyncedStudents(students.value, now))
      && book.sheets == old(book.sheets)[StudentsSheet := book.sheets[StudentsSheet]]
      && (StudentsSheet in old(book.sheets) ==> book.sheets == old(book.sheets))
      && (StudentsSheet !in old(book.sheets) ==> fresh(book.sheets[StudentsSheet])))
    ensures old(book.Apart())
      ==> (book.Apart() && forall n :: n in old(book.sheets) && n != StudentsSheet ==> book.Values(n) == old(book.Values(n)))
  {
    if students.None? {
      return Failure(Thrown("無效的學員資料格式"));
    }
    var sheet := book.SheetByName(StudentsSheet);
    if sheet == null {
      sheet := book.InsertSheet(StudentsSheet);
    }
    sheet.Clear();
    sheet.SetValues(0, [StudentHeader]);
    OverlayEmpty([StudentHeader]);
    var ss := students.value;
    if |ss| > 0 {
      var rows := Seqs.Map(ss, WriteStudent(now));
      sheet.SetValues(1, rows);
      OverlayAppend([StudentHeader], rows);
    }
    assert sheet.values == SyncedStudents(ss, now);
    assert book.sheets[StudentsSheet] == sheet;
    r := SyncedReply(|ss|);
  }

  // ---------------------------------------------------------------- getClasses

  /** The class names `getClasses` lists: the trimmed column-B names below
      the header, each once, in order of first appearance. */
  function ClassNames(values: seq<Row>): seq<string> {
    if values == [] then [] else Seqs.Distinct(KeepRows(values[1..], HasClassName, ColumnB))
  }

  /** The reply of `getClasses` (`None`: no timetable sheet). */
  function ClassesReply(values: Option<seq<Row>>): (r: Reply)
    ensures r.ClassList? && r.count == |r.classes|
    ensures values.None? || |values.value| <= 1 ==> r == ClassList([], 0)
  {
    var names := if values.None? then [] else ClassNames(values.value);
    ClassList(names, |names|)
  }

  /** The listed names are the non-empty trimmed column-B names of the rows
      below the header, without repetition. */
  lemma ClassNamesMeaning(values: seq<Row>, x: string)
    ensures forall i, j :: 0 <= i < j < |ClassNames(values)| ==> ClassNames(values)[i] != ClassNames(values)[j]
    ensures x in ClassNames(values) <==> x != "" && exists i :: 1 <= i < |values| && ColumnB(values[i]) == x
  {
    if values != [] {
      Seqs.DistinctMeaning(KeepRows(values[1..], HasClassName, ColumnB));
      KeepRowsBelowHeader(values, HasClassName, ColumnB, x);
      if x != "" && exists i :: 1 <= i < |values| && ColumnB(values[i]) == x {
        var i :| 1 <= i < |values| && ColumnB(values[i]) == x;
        assert HasClassName(values[i]);
      }
    }
  }

  /** One more name for `new Set(...)`: a new one goes at the end. */
  lemma DistinctSnoc(s: seq<string>, x: string)
    ensures Seqs.Distinct(s + [x]) == if x in Seqs.Distinct(s) then Seqs.Distinct(s) else Seqs.Distinct(s) + [x]
  {
    assert (s + [x])[..|s|] == s;
  }

  /** A turn of the loop of `getClasses`: a name kept and not yet seen is
      added to both the list and the set. */
  lemma SetStep(names: seq<string>, classes: seq<string>, seen: set<string>, x: string, keep: bool)
    requires classes == Seqs.Distinct(names) && forall y :: y in seen <==> y in classes
    ensures var add := keep && x !in seen;
      (if add then classes + [x] else classes) == Seqs.Distinct(if keep then names + [x] else names)
      && (add ==> forall y :: y in seen + {x} <==> y in classes + [x])
  {
    if keep {
      DistinctSnoc(names, x);
      Seqs.DistinctMeaning(names);
    }
  }

  /** `getClasses()`. */
  method GetClasses(book: Spreadsheet) returns (r: Reply)
    ensures r == ClassesReply(book.Values(ScheduleSheet))
  {
    var sheet := book.SheetByName(ScheduleSheet);
    if sheet == null {
      return ClassList([], 0);
    }
    var classes := ReadClassNames(sheet.values);
    return ClassList(classes, |classes|);
  }

  /** Where the loop of `getClasses` stands before row `i`: `names` are the
      names of rows `1 .. i - 1`, `classes` each of them once and `seen` the
      set of `classes`. */
  ghost predicate ClassLoop(data: seq<Row>, i: nat, names: seq<string>, classes: seq<string>, seen: set<string>) {
    1 <= i <= |data| && names == KeepRows(data[1..i], HasClassName, ColumnB)
    && classes == Seqs.Distinct(names) && forall x :: x in seen <==> x in classes
  }

  /** A whole turn of that loop on row `i`. */
  lemma ClassLoopStep(data: seq<Row>, i: nat, names: seq<string>, classes: seq<string>, seen: set<string>)
    requires i < |data| && ClassLoop(data, i, names, classes, seen)
    ensures var name := ColumnB(data[i]);
      var add := name != "" && name !in seen;
      ClassLoop(data, i + 1, if name != "" then names + [name] else names,
                if add then classes + [name] else classes, if add then seen + {name} else seen)
  {
    var name := ColumnB(data[i]);
    ClassRowStep(data, i, names);
    SetStep(names, classes, seen, name, name != "");
    if name == "" {
      assert ClassLoop(data, i + 1, names, classes, seen);
    } else if name in seen {
      assert ClassLoop(data, i + 1, names + [name], classes, seen);
    } else {
      assert ClassLoop(data, i + 1, names + [name], classes + [name], seen + {name});
    }
  }

  /** The loop of `getClasses` over the rows below the header, keeping the
      names seen so far in a `Set`. */
  method ReadClassNames(data: seq<Row>) returns (classes: seq<string>)
    ensures classes == ClassNames(data)
  {
    if |data| <= 1 {
      assert data == [] || data[1..] == [];
      return [];
    }
    classes := [];
    var seen: set<string> := {};
    ghost var names: seq<string> := [];
    var i := 1;
    while i < |data|
      invariant ClassLoop(data, i, names, classes, seen)
      decreases |data| - i
    {
      var name := ColumnB(data[i]);
      ClassLoopStep(data, i, names, classes, seen);
      if name != "" && name !in seen {
        seen := seen + {name};
        classes := classes + [name];
      }
      names := if name != "" then names + [name] else names;
      i := i + 1;
    }
    assert data[1..i] == data[1..];
  }

  // ---------------------------------------------------------------- getSchedule

  /** A timetable row: columns A to F. */
  function ScheduleOfRow(row: Row): TimetableEntry {
    ByDayOfWeek(CellAt(row, 0), CellAt(row, 1), CellAt(row, 2), CellAt(row, 3), CellAt(row, 4), CellAt(row, 5))
  }

  /** The classes `getSchedule` lists: one per row below the header that has an id. */
  function ReadSchedule(values: seq<Row>): seq<TimetableEntry> {
    if values == [] then [] else KeepRows(values[1..], HasId, ScheduleOfRow)
  }

  /** The reply of `getSchedule` (`None`: no timetable sheet). */
  function ScheduleReply(values: Option<seq<Row>>): (r: Reply)
    ensures r.ScheduleList? && r.count == |r.schedule|
    ensures values.None? || |values.value| <= 1 ==> r == ScheduleList([], 0)
  {
    var entries := if values.None? then [] else ReadSchedule(values.value);
    ScheduleList(entries, |entries|)
  }

  /** Every listed class has an id, and each row below the header with an
      id is listed, in order. */
  lemma ScheduleListsRowsWithIds(values: seq<Row>)
    requires values != []
    ensures ReadSchedule(values) == Seqs.Map(Seqs.Filter(values[1..], HasId), ScheduleOfRow)
    ensures forall e :: e in ReadSchedule(values) ==> e.id != "" && e.ByDayOfWeek?
  {
    KeepRowsIsFilterMap(values[1..], HasId, ScheduleOfRow);
  }

  /** `getSchedule()`. */
  method GetSchedule(book: Spreadsheet) returns (r: Reply)
    ensures r == ScheduleReply(book.Values(ScheduleSheet))
  {
    var sheet := book.SheetByName(ScheduleSheet);
    if sheet == null {
      return ScheduleList([], 0);
    }
    var data := sheet.values;
    if |data| <= 1 {
      return ScheduleList([], 0);
    }
    var schedule: seq<TimetableEntry> := [];
    var i := 1;
    while i < |data|
      invariant 1 <= i <= |data|
      invariant schedule == KeepRows(data[1..i], HasId, ScheduleOfRow)
    {
      var row := data[i];
      KeepRowsNext(data, i, HasId, ScheduleOfRow);
      if CellAt(row, 0) != "" {
        schedule := schedule + [ScheduleOfRow(row)];
      }
      i := i + 1;
    }
    assert data[1..i] == data[1..];
    return ScheduleList(schedule, |schedule|);
  }

  // ---------------------------------------------------------------- syncAttendance

  /** An attendance record as the page posts it. */
  datatype AttendanceEntry = AttendanceEntry(date: string, cls: string, studentId: string, studentName: string, status: string)

  const AttendanceHeader: Row := ["日期", "班別", "學員ID", "學員姓名", "出席狀態"]

  /** The row of a record: its date, or `today` when it has none. */
  function AttendanceRow(today: string): AttendanceEntry -> Row {
    (a: AttendanceEntry) => [Or(a.date, today), a.cls, a.studentId, a.studentName, a.status]
  }

  /** The attendance sheet after `syncAttendance`: the rows it had (a header
      in place of none) followed by one row per record, in order. */
  function AppendedAttendance(before: Option<seq<Row>>, records: seq<AttendanceEntry>, today: string): (rows: seq<Row>)
    ensures |rows| == (if before.Some? && before.value != [] then |before.value| else 1) + |records|
    ensures before.Some? && before.value != [] ==> rows[..|before.value|] == before.value
    ensures before.None? || before.value == [] ==> rows[0] == AttendanceHeader
  {
    var head := if before.Some? && before.value != [] then before.value else [AttendanceHeader];
    head + Seqs.Map(records, AttendanceRow(today))
  }

  /** Two syncs in a row leave the sheet one sync of both batches would:
      records are only ever appended, in the order they arrive. */
  lemma AppendTwice(before: Option<seq<Row>>, first: seq<AttendanceEntry>, second: seq<AttendanceEntry>, today: string)
    ensures AppendedAttendance(Some(AppendedAttendance(before, first, today)), second, today)
      == AppendedAttendance(before, first + second, today)
  {
    var f := AttendanceRow(today);
    assert Seqs.Map(first + second, f) == Seqs.Map(first, f) + Seqs.Map(second, f);
  }

  /** `syncAttendance(attendance)`: a payload that is no array is refused;
      otherwise the records are appended below the last row of the
      attendance sheet, which is created, or given its header, when it has
      no rows. */
  method SyncAttendance(book: Spreadsheet, attendance: Option<seq<AttendanceEntry>>, today: string) returns (r: Reply)
    modifies book, book.Named({AttendanceSheet})
    ensures attendance.None?
      ==> (r == Failure(Thrown("無效的出席記錄格式")) && book.sheets == old(book.sheets)
        && unchanged(book.Named({AttendanceSheet})))
    ensures attendance.Some? ==> (r == Synced("成功同步 " + Text.NatToString(|attendance.value|) + " 筆出席記錄", Some(|attendance.value|))
      && book.Values(AttendanceSheet) == Some(AppendedAttendance(old(book.Values(AttendanceSheet)), attendance.value, today))
      && book.sheets == old(book.sheets)[AttendanceSheet := book.sheets[AttendanceSheet]]
      && (AttendanceSheet in old(book.sheets) ==> book.sheets == old(book.sheets))
      && (AttendanceSheet !in old(book.sheets) ==> fresh(book.sheets[AttendanceSheet])))
    ensures old(book.Apart())
      ==> (book.Apart() && forall n :: n in old(book.sheets) && n != AttendanceSheet ==> book.Values(n) == old(book.Values(n)))
  {
    if attendance.None? {
      return Failure(Thrown("無效的出席記錄格式"));
    }
    ghost var before := book.Values(AttendanceSheet);
    var sheet := book.SheetByName(AttendanceSheet);
    if sheet == null {
      sheet := book.InsertSheet(AttendanceSheet);
      sheet.SetValues(0, [AttendanceHeader]);
      OverlayEmpty([AttendanceHeader]);
    }
    if |sheet.values| == 0 {
      sheet.SetValues(0, [AttendanceHeader]);
      OverlayEmpty([AttendanceHeader]);
    }
    assert sheet.values == if before.Some? && before.value != [] then before.value else [AttendanceHeader];
    var records := attendance.value;
    if |records| > 0 {
      var rows := Seqs.Map(records, AttendanceRow(today));
      OverlayAppend(sheet.values, rows);
      sheet.SetValues(|sheet.values|, rows);
    } else {
      assert sheet.values + Seqs.Map(records, AttendanceRow(today)) == sheet.values;
    }
    assert book.sheets[AttendanceSheet] == sheet;
    r := Synced("成功同步 " + Text.NatToString(|records|) + " 筆出席記錄", Some(|records|));
  }

  // ---------------------------------------------------------------- dispatch

  /** `doGet(e)`: the reader the action names, or a failure naming the action. */
  method DoGet(book: Spreadsheet, action: Option<string>, now: string) returns (r: Reply)
    ensures action == Some("getStudents") ==> r == StudentsReply(book.Values(StudentsSheet), now)
    ensures action == Some("getClasses") ==> r == ClassesReply(book.Values(ScheduleSheet))
    ensures action == Some("getSchedule") ==> r == ScheduleReply(book.Values(ScheduleSheet))
    ensures action !in {Some("getStudents"), Some("getClasses"), Some("getSchedule")}
      ==> r == Failure("Invalid action: " + ActionText(action))
  {
    if action == Some("getStudents") {
      r := GetStudents(book, now);
    } else if action == Some("getClasses") {
      r := GetClasses(book);
    } else if action == Some("getSchedule") {
      r := GetSchedule(book);
    } else {
      r := Failure("Invalid action: " + ActionText(action));
    }
  }

  /** `doPost(e)`: a request without `postData` or with empty contents
      fails with `沒有收到數據`, contents that are no JSON with the parse
      error; otherwise the writer the action names runs, and any other
      action fails, the spreadsheet untouched. */
  method DoPost(book: Spreadsheet, post: Post<SheetStudent, AttendanceEntry>, now: string, today: string)
    returns (r: Reply)
    modifies book, book.Named({StudentsSheet, AttendanceSheet})
    ensures post.NoContents?
      ==> (r == Failure(Thrown("沒有收到數據")) && book.sheets == old(book.sheets)
        && unchanged(book.Named({StudentsSheet, AttendanceSheet})))
    ensures post.EmptyContents?
      ==> (r == Failure(Thrown("沒有收到數據")) && book.sheets == old(book.sheets)
        && unchanged(book.Named({StudentsSheet, AttendanceSheet})))
    ensures post.Malformed?
      ==> (r == Failure(SyntaxError) && book.sheets == old(book.sheets)
        && unchanged(book.Named({StudentsSheet, AttendanceSheet})))
    ensures post.Body? && post.action !in {Some("syncStudents"), Some("syncAttendance")}
      ==> (r == Failure("Invalid action: " + ActionText(post.action)) && book.sheets == old(book.sheets)
        && unchanged(book.Named({StudentsSheet, AttendanceSheet})))
    ensures post.Body? && post.action == Some("syncStudents") && post.students.Some?
      ==> (r == SyncedReply(|post.students.value|)
        && book.Values(StudentsSheet) == Some(SyncedStudents(post.students.value, now))
        && book.sheets == old(book.sheets)[StudentsSheet := book.sheets[StudentsSheet]]
        && (old(book.Apart()) ==> book.Values(AttendanceSheet) == old(book.Values(AttendanceSheet))))
    ensures post.Body? && post.action == Some("syncAttendance") && post.attendance.Some?
      ==> (r == Synced("成功同步 " + Text.NatToString(|post.attendance.value|) + " 筆出席記錄", Some(|post.attendance.value|))
        && book.Values(AttendanceSheet)
          == Some(AppendedAttendance(old(book.Values(AttendanceSheet)), post.attendance.value, today))
        && book.sheets == old(book.sheets)[AttendanceSheet := book.sheets[AttendanceSheet]]
        && (old(book.Apart()) ==> book.Values(StudentsSheet) == old(book.Values(StudentsSheet))))
    ensures post.Body? && post.action == Some("syncStudents") && post.students.None?
      ==> (r == Failure(Thrown("無效的學員資料格式")) && book.sheets == old(book.sheets)
        && unchanged(book.Named({StudentsSheet, AttendanceSheet})))
    ensures post.Body? && post.action == Some("syncAttendance") && post.attendance.None?
      ==> (r == Failure(Thrown("無效的出席記錄格式")) && book.sheets == old(book.sheets)
        && unchanged(book.Named({StudentsSheet, AttendanceSheet})))
  {
    match post
    case NoContents => r := Failure(Thrown("沒有收到數據"));
    case EmptyContents => r := Failure(Thrown("沒有收到數據"));
    case Malformed => r := Failure(SyntaxError);
    case Body(action, students, attendance) =>
      if action == Some("syncStudents") {
        r := SyncStudents(book, students, now);
      } else if action == Some("syncAttendance") {
        r := SyncAttendance(book, attendance, today);
      } else {
        r := Failure("Invalid action: " + ActionText(action));
      }
  }
}
