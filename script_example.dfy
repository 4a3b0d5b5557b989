/** The example Apps Script back end (`google-apps-script-example.js`): the
    student sheet and the timetable sheet of one spreadsheet, read by
    `getStudents`, `getClasses` and `getSchedule` and rewritten by
    `syncStudents`, behind `doGet` and `doPost`. Unlike the complete script
    it creates no sheet (a missing one is an error), lists every class name
    as often as it occurs, keeps students by name rather than by id, and
    makes up an id for a student row that has none. The clock is the
    parameter `now` (ISO time) and `stamp` (`Date.now()` as text). */
module ScriptExample {
  import opened Wrappers
  import opened Entities
  import opened Sheets
  import Text
  import Seqs

  const StudentsSheet := "學員資料"
  const ClassesSheet := "schedule"
  const ScheduleSheet := "schedule"

  /** What a handler answers when the sheet it needs is missing. */
  function MissingSheet(name: string): Reply {
    Failure(Thrown("找不到工作表: " + name))
  }

  // ---------------------------------------------------------------- getStudents

  /** `if (row[1])`: the row has a name. */
  predicate HasName(row: Row) {
    CellAt(row, 1) != ""
  }

  /** `'student_' + Date.now() + '_' + i`: the id made up for row `i`. */
  function MadeUpId(stamp: string, i: nat): string {
    "student_" + stamp + "_" + Text.NatToString(i)
  }

  /** The students `getStudents` lists from rows 1 to `n - 1`: one per row
      with a name, each without an id given the id made up for its row. */
  function NamedStudents(data: seq<Row>, n: nat, stamp: string, now: string): seq<SheetStudent>
    requires n <= |data|
  {
    if n <= 1 then []
    else
      var row := data[n - 1];
      NamedStudents(data, n - 1, stamp, now)
        + if HasName(row) then [StudentOfRow(row, MadeUpId(stamp, n - 1), now)] else []
  }

  /** The reply of `getStudents` (`None`: no student sheet). */
  function StudentsReply(values: Option<seq<Row>>, stamp: string, now: string): (r: Reply)
    ensures values.None? <==> r.Failure?
    ensures values.Some? ==> r.StudentList? && r.count == |r.students|
    ensures values.Some? && |values.value| <= 1 ==> r == StudentList([], 0)
  {
    if values.None? then MissingSheet(StudentsSheet)
    else
      var students := NamedStudents(values.value, |values.value|, stamp, now);
      StudentList(students, |students|)
  }

  /** Every student listed has a name, an id and a status; a row with a name
      is listed, under its own id or the one made up for it. */
  lemma {:induction false} NamedStudentsMeaning(data: seq<Row>, n: nat, stamp: string, now: string)
    requires n <= |data|
    ensures forall s :: s in NamedStudents(data, n, stamp, now) ==> s.name != "" && s.id != "" && s.status != ""
    ensures forall k :: (1 <= k < n && HasName(data[k])
      ==> StudentOfRow(data[k], MadeUpId(stamp, k), now) in NamedStudents(data, n, stamp, now))
  {
    if n > 1 {
      NamedStudentsMeaning(data, n - 1, stamp, now);
    }
  }

  /** Two rows never get the same made-up id. */
  lemma MadeUpIdsDiffer(stamp: string, i: nat, j: nat)
    requires i != j
    ensures MadeUpId(stamp, i) != MadeUpId(stamp, j)
  {
    var p := "student_" + stamp + "_";
    if MadeUpId(stamp, i) == MadeUpId(stamp, j) {
      assert Text.NatToString(i) == MadeUpId(stamp, i)[|p|..];
      assert Text.NatToString(j) == MadeUpId(stamp, j)[|p|..];
      Text.NatToStringInjective(i, j);
    }
  }

  /** `getStudents()`. */
  method GetStudents(book: Spreadsheet, stamp: string, now: string) returns (r: Reply)
    ensures r == StudentsReply(book.Values(StudentsSheet), stamp, now)
  {
    var sheet := book.SheetByName(StudentsSheet);
    if sheet == null {
      return MissingSheet(StudentsSheet);
    }
    var data := sheet.values;
    if |data| <= 1 {
      return StudentList([], 0);
    }
    var students: seq<SheetStudent> := [];
    var i := 1;
    while i < |data|
      invariant 1 <= i <= |data|
      invariant students == NamedStudents(data, i, stamp, now)
    {
      var row := data[i];
      if CellAt(row, 1) != "" {
        students := students + [StudentOfRow(row, MadeUpId(stamp, i), now)];
      }
      i := i + 1;
    }
    return StudentList(students, |students|);
  }

  // ---------------------------------------------------------------- getClasses

  /** The class names `getClasses` lists: the trimmed column-B name of every
      row below the header that has one, repetitions included. */
  function ListedClasses(values: seq<Row>): seq<string> {
    if values == [] then [] else KeepRows(values[1..], HasClassName, ColumnB)
  }

  /** The reply of `getClasses` (`None`: no timetable sheet). */
  function ClassesReply(values: Option<seq<Row>>): (r: Reply)
    ensures values.None? <==> r.Failure?
    ensures values.Some? ==> r.ClassList? && r.count == |r.classes|
  {
    if values.None? then MissingSheet(ClassesSheet)
    else ClassList(ListedClasses(values.value), |ListedClasses(values.value)|)
  }

  /** A name is listed exactly when some row below the header carries it in
      column B, trimmed; no listed name is empty or padded with white space. */
  lemma ListedClassesMeaning(values: seq<Row>, x: string)
    ensures x in ListedClasses(values) <==> x != "" && exists i :: 1 <= i < |values| && ColumnB(values[i]) == x
    ensures x in ListedClasses(values) ==> Text.Trim(x) == x
  {
    if values != [] {
      KeepRowsBelowHeader(values, HasClassName, ColumnB, x);
      if x != "" && exists i :: 1 <= i < |values| && ColumnB(values[i]) == x {
        var i :| 1 <= i < |values| && ColumnB(values[i]) == x;
        assert HasClassName(values[i]);
      }
      if x in ListedClasses(values) {
        var i :| 1 <= i < |values| && HasClassName(values[i]) && ColumnB(values[i]) == x;
        assert x == Text.Trim(CellAt(values[i], 1));
        assert x == [] || (!Text.IsSpace(x[0]) && !Text.IsSpace(x[|x| - 1]));
        Text.TrimOfTrimmed(x);
      }
    }
  }

  /** `getClasses()`. */
  method GetClasses(book: Spreadsheet) returns (r: Reply)
    ensures r == ClassesReply(book.Values(ClassesSheet))
  {
    var sheet := book.SheetByName(ClassesSheet);
    if sheet == null {
      return MissingSheet(ClassesSheet);
    }
    var classes := ReadClassNames(sheet.values);
    return ClassList(classes, |classes|);
  }

  /** The loop of `getClasses` over the rows below the header. */
  method ReadClassNames(data: seq<Row>) returns (classes: seq<string>)
    ensures classes == ListedClasses(data)
  {
    classes := [];
    if |data| == 0 {
      return;
    }
    var i: nat := 1;
    assert data[1..1] == [];
    while i < |data|
      invariant 1 <= i <= |data|
      invariant classes == KeepRows(data[1..i], HasClassName, ColumnB)
    {
      var name := ColumnB(data[i]);
      ClassRowStep(data, i, classes);
      classes := if name != "" then classes + [name] else classes;
      i := i + 1;
    }
    assert data[1..i] == data[1..];
  }

  // ---------------------------------------------------------------- getSchedule

  /** A timetable row: columns A to F, the day under `weekday`. */
  function WeekdayEntryOfRow(row: Row): TimetableEntry {
    ByWeekday(CellAt(row, 0), CellAt(row, 1), CellAt(row, 2), CellAt(row, 3), CellAt(row, 4), CellAt(row, 5))
  }

  /** The classes `getSchedule` lists: one per row below the header that has an id. */
  function ReadSchedule(values: seq<Row>): seq<TimetableEntry> {
    if values == [] then [] else KeepRows(values[1..], HasId, WeekdayEntryOfRow)
  }

  /** The reply of `getSchedule` (`None`: no timetable sheet). */
  function ScheduleReply(values: Option<seq<Row>>): (r: Reply)
    ensures values.None? <==> r.Failure?
    ensures values.Some? ==> r.ScheduleList? && r.count == |r.schedule|
  {
    if values.None? then MissingSheet(ScheduleSheet)
    else ScheduleList(ReadSchedule(values.value), |ReadSchedule(values.value)|)
  }

  /** The schedule is the rows with an id, each read as an entry with an id
      and a `weekday`. */
  lemma ScheduleListsRowsWithIds(values: seq<Row>)
    requires values != []
    ensures ReadSchedule(values) == Seqs.Map(Seqs.Filter(values[1..], HasId), WeekdayEntryOfRow)
    ensures forall e :: e in ReadSchedule(values) ==> e.id != "" && e.ByWeekday?
  {
    KeepRowsIsFilterMap(values[1..], HasId, WeekdayEntryOfRow);
  }

  /** `getSchedule()`. */
  method GetSchedule(book: Spreadsheet) returns (r: Reply)
    ensures r == ScheduleReply(book.Values(ScheduleSheet))
  {
    var sheet := book.SheetByName(ScheduleSheet);
    if sheet == null {
      return MissingSheet(ScheduleSheet);
    }
    var data := sheet.values;
    if |data| <= 1 {
      assert data == [] || data[1..] == [];
      return ScheduleList([], 0);
    }
    var schedule: seq<TimetableEntry> := [];
    var i := 1;
    while i < |data|
      invariant 1 <= i <= |data|
      invariant schedule == KeepRows(data[1..i], HasId, WeekdayEntryOfRow)
    {
      var row := data[i];
      KeepRowsNext(data, i, HasId, WeekdayEntryOfRow);
      if CellAt(row, 0) != "" {
        schedule := schedule + [WeekdayEntryOfRow(row)];
      }
      i := i + 1;
    }
    assert data[1..i] == data[1..];
    return ScheduleList(schedule, |schedule|);
  }

  // ---------------------------------------------------------------- syncStudents

  /** The first row after the header is written over it: the header's nine
      cells, then whatever the old first row had beyond them. */
  function HeaderOver(before: seq<Row>): (r: Row)
    ensures |r| >= |StudentHeader| && r[..|StudentHeader|] == StudentHeader
  {
    StudentHeader + if before == [] then [] else Beyond(before[0], |StudentHeader|)
  }

  /** The student sheet `syncStudents` leaves: the old rows below the header
      gone, the header written, then one row per student (none when the
      payload is missing). */
  function RewrittenStudents(before: seq<Row>, students: Option<seq<SheetStudent>>, now: string): (rows: seq<Row>)
    ensures |rows| == 1 + if students.Some? then |students.value| else 0
    ensures |rows[0]| >= |StudentHeader| && rows[0][..|StudentHeader|] == StudentHeader
  {
    [HeaderOver(before)] + if students.Some? then Seqs.Map(students.value, WriteStudent(now)) else []
  }

  /** `syncStudents(students)`: with no student sheet nothing happens;
      otherwise the rows below the header are cleared, the header is written
      and then the students. A missing payload still clears the sheet, and
      only then fails, reading the length of `undefined`. */
  method SyncStudents(book: Spreadsheet, students: Option<seq<SheetStudent>>, now: string) returns (r: Reply)
    modifies book.Named({StudentsSheet})
    ensures StudentsSheet !in book.sheets ==> r == MissingSheet(StudentsSheet)
    ensures StudentsSheet in book.sheets ==> (
      book.Values(StudentsSheet) == Some(RewrittenStudents(old(book.sheets[StudentsSheet].values), students, now))
      && r == if students.Some? then Synced(SyncedStudentsMessage(|students.value|), None) else Failure(TypeError))
  {
    var sheet := book.SheetByName(StudentsSheet);
    if sheet == null {
      return MissingSheet(StudentsSheet);
    }
    ghost var before := sheet.values;
    var lastRow := |sheet.values|;
    if lastRow > 1 {
      sheet.ClearContentFrom(1);
    }
    assert sheet.values == if before == [] then [] else [before[0]];
    OverlayHeader(sheet.values, StudentHeader);
    sheet.SetValues(0, [StudentHeader]);
    assert sheet.values == [HeaderOver(before)];
    if students.Some? && |students.value| > 0 {
      var rows := Seqs.Map(students.value, WriteStudent(now));
      OverlayAppend(sheet.values, rows);
      sheet.SetValues(1, rows);
    }
    assert sheet.values == RewrittenStudents(before, students, now);
    if students.None? {
      return Failure(TypeError);
    }
    r := Synced(SyncedStudentsMessage(|students.value|), None);
  }

  /** Students with an id and a name come back from the sheet `syncStudents`
      wrote, in order, with the status and creation time defaults filled in;
      students without a name are not listed. */
  lemma SyncedStudentsReadBack(before: seq<Row>, students: seq<SheetStudent>, now: string, stamp: string, readAt: string)
    requires now != ""
    requires forall s :: s in students ==> s.id != ""
    ensures var rows := RewrittenStudents(before, Some(students), now);
      NamedStudents(rows, |rows|, stamp, readAt)
        == Seqs.Map(Seqs.Filter(students, IsNamed), StoredAs(now))
  {
    var rows := RewrittenStudents(before, Some(students), now);
    assert rows[1..] == Seqs.Map(students, WriteStudent(now));
    ReadBackPrefix(rows, students, |students|, now, stamp, readAt);
    assert students[..|students|] == students;
  }

  /** The student has a name. */
  predicate IsNamed(s: SheetStudent) {
    s.name != ""
  }

  /** A student as stored with the default creation time `now`. */
  function StoredAs(now: string): SheetStudent -> SheetStudent {
    (s: SheetStudent) => Stored(s, now)
  }

  /** `SyncedStudentsReadBack` for the first `m` students. */
  lemma {:induction false} ReadBackPrefix(rows: seq<Row>, students: seq<SheetStudent>, m: nat, now: string, stamp: string, readAt: string)
    requires now != "" && m <= |students|
    requires forall s :: s in students ==> s.id != ""
    requires rows != [] && rows[1..] == Seqs.Map(students, WriteStudent(now))
    ensures NamedStudents(rows, m + 1, stamp, readAt)
      == Seqs.Map(Seqs.Filter(students[..m], IsNamed), StoredAs(now))
  {
    if m == 0 {
      assert students[..0] == [];
    } else {
      ReadBackPrefix(rows, students, m - 1, now, stamp, readAt);
      WrittenRow(rows, students, m, now);
      ReadBackRow(rows, m, students[m - 1], now, stamp, readAt);
      NamedPrefixSnoc(students, m, now);
    }
  }

  /** Row `m` of the rewritten sheet is the row of student `m - 1`. */
  lemma WrittenRow(rows: seq<Row>, students: seq<SheetStudent>, m: nat, now: string)
    requires 1 <= m <= |students| && rows != [] && rows[1..] == Seqs.Map(students, WriteStudent(now))
    ensures m < |rows| && rows[m] == StudentRow(students[m - 1], now)
  {
    assert rows[m] == rows[1..][m - 1];
  }

  /** The named students among the first `m`, as stored, one student at a time. */
  lemma NamedPrefixSnoc(students: seq<SheetStudent>, m: nat, now: string)
    requires 1 <= m <= |students|
    ensures var s := students[m - 1];
      Seqs.Map(Seqs.Filter(students[..m], IsNamed), StoredAs(now))
      == Seqs.Map(Seqs.Filter(students[..m - 1], IsNamed), StoredAs(now))
         + if s.name != "" then [Stored(s, now)] else []
  {
    var s := students[m - 1];
    assert students[..m] == students[..m - 1] + [s];
    Seqs.MapFilterSnoc(students[..m - 1], s, IsNamed, StoredAs(now));
  }

  /** One row of `ReadBackPrefix`: the row written for a student with an id
      is listed as the stored student exactly when the student has a name. */
  lemma ReadBackRow(rows: seq<Row>, m: nat, s: SheetStudent, now: string, stamp: string, readAt: string)
    requires now != "" && s.id != "" && 1 <= m < |rows| && rows[m] == StudentRow(s, now)
    ensures NamedStudents(rows, m + 1, stamp, readAt)
      == NamedStudents(rows, m, stamp, readAt) + if s.name != "" then [Stored(s, now)] else []
  {
    StudentRowReadsBack(s, now, MadeUpId(stamp, m), readAt);
  }

  // ---------------------------------------------------------------- dispatch

  /** `doGet(e)`: the reader the action names, or a failure. */
  method DoGet(book: Spreadsheet, action: Option<string>, stamp: string, now: string) returns (r: Reply)
    ensures action == Some("getStudents") ==> r == StudentsReply(book.Values(StudentsSheet), stamp, now)
    ensures action == Some("getClasses") ==> r == ClassesReply(book.Values(ClassesSheet))
    ensures action == Some("getSchedule") ==> r == ScheduleReply(book.Values(ScheduleSheet))
    ensures action !in {Some("getStudents"), Some("getClasses"), Some("getSchedule")} ==> r == Failure("Invalid action")
  {
    if action == Some("getStudents") {
      r := GetStudents(book, stamp, now);
    } else if action == Some("getClasses") {
      r := GetClasses(book);
    } else if action == Some("getSchedule") {
      r := GetSchedule(book);
    } else {
      r := Failure("Invalid action");
    }
  }

  /** `doPost(e)`: `JSON.parse(e.postData.contents)` fails with a
      `TypeError` when there is no `postData`, and with a `SyntaxError` on
      empty or missing contents or contents that are no JSON; otherwise only
      `syncStudents` is served. */
  method DoPost(book: Spreadsheet, post: Post<SheetStudent, ()>, now: string) returns (r: Reply)
    modifies book.Named({StudentsSheet})
    ensures post.NoContents? ==> r == Failure(TypeError) && unchanged(book.Named({StudentsSheet}))
    ensures post.EmptyContents? ==> r == Failure(SyntaxError) && unchanged(book.Named({StudentsSheet}))
    ensures post.Malformed? ==> r == Failure(SyntaxError) && unchanged(book.Named({StudentsSheet}))
    ensures post.Body? && post.action != Some("syncStudents")
      ==> r == Failure("Invalid action") && unchanged(book.Named({StudentsSheet}))
    ensures post.Body? && post.action == Some("syncStudents") && StudentsSheet !in book.sheets
      ==> r == MissingSheet(StudentsSheet)
    ensures post.Body? && post.action == Some("syncStudents") && StudentsSheet in book.sheets
      ==> (book.Values(StudentsSheet)
        == Some(RewrittenStudents(old(book.sheets[StudentsSheet].values), post.students, now))
        && r == if post.students.Some? then Synced(SyncedStudentsMessage(|post.students.value|), None)
          else Failure(TypeError))
  {
    match post
    case NoContents => r := Failure(TypeError);
    case EmptyContents => r := Failure(SyntaxError);
    case Malformed => r := Failure(SyntaxError);
    case Body(action, students, _) =>
      if action == Some("syncStudents") {
        r := SyncStudents(book, students, now);
      } else {
        r := Failure("Invalid action");
      }
  }
}
