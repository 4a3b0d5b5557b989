/** The row codec js/data.js uses to synchronise with a spreadsheet: every
    entity becomes a row `[type, id, JSON, createdAt, updatedAt]` under a
    fixed header, and rows are read back by their type column.

    `JSON.stringify` and `JSON.parse` are parameters: `encode` for the first,
    one parser per entity kind for the second, `None` where `JSON.parse` throws. */
module SyncRows {
  import opened Wrappers
  import opened Entities
  import Seqs
  import D = Dict
  import Store

  type Row = seq<string>

  const Header: Row := ["Type", "ID", "Data", "CreatedAt", "UpdatedAt"]

  /** An entity to be written as JSON. */
  datatype Item = StudentItem(student: Student) | ClassItem(cls: ClassRecord) | RecordItem(record: AttendanceRecord)

  /** What `convertDataToRows` is handed. `classes` is `None` when the object
      has no such property; `attendance` is whatever the property holds. */
  datatype SyncData = SyncData(students: seq<Student>, classes: Option<seq<ClassRecord>>, attendance: Store.AttendanceField)

  function StudentRow(s: Student, encode: Item -> string): Row {
    ["student", s.id, encode(StudentItem(s)), s.createdAt, s.updatedAt]
  }

  function ClassRow(c: ClassRecord, encode: Item -> string): Row {
    ["class", c.id, encode(ClassItem(c)), c.createdAt, c.updatedAt]
  }

  /** Attendance records carry a `createdAt` stamped when they were built and no `updatedAt`. */
  function RecordRow(r: AttendanceRecord, encode: Item -> string, now: string): Row {
    ["attendance", r.id, encode(RecordItem(r)), now, ""]
  }

  /** `convertDataToRows(data)`: the header, then one row per student, per
      class and per attendance record, in that order. `data.classes.forEach`
      and `data.attendance.forEach` throw a TypeError unless both are arrays. */
  function ConvertDataToRows(data: SyncData, encode: Item -> string, now: string): (r: Result<seq<Row>, string>)
    ensures r.Ok? <==> data.classes.Some? && data.attendance.RecordList?
    ensures r.Ok? ==> (|r.value| == 1 + |data.students| + |data.classes.value| + |data.attendance.records|
      && r.value[0] == Header
      && (forall i :: 0 <= i < |r.value| ==> |r.value[i]| == 5))
  {
    if data.classes.None? || !data.attendance.RecordList? then Err("TypeError")
    else
      Ok([Header]
        + Seqs.Map(data.students, (s: Student) => StudentRow(s, encode))
        + Seqs.Map(data.classes.value, (c: ClassRecord) => ClassRow(c, encode))
        + Seqs.Map(data.attendance.records, (a: AttendanceRecord) => RecordRow(a, encode, now)))
  }

  /** `exportAllData()`: the payload `syncToGoogleSheets` passes to
      `convertDataToRows`. It has `classDefinitions` but no `classes`, and
      its `attendance` is the ledger object. */
  function ExportAllData(students: seq<Student>, attendance: D.Dict<string>): SyncData {
    SyncData(students, None, Store.LedgerObject(attendance))
  }

  /** The export payload never converts: pushing to the spreadsheet always fails. */
  lemma ExportNeverConverts(students: seq<Student>, attendance: D.Dict<string>, encode: Item -> string, now: string)
    ensures ConvertDataToRows(ExportAllData(students, attendance), encode, now).Err?
  {
  }

  /** The payload the converter expects: classes as `getClasses()` lists them
      and attendance as the record array `getAttendance()` returns. */
  function ExportForSync(students: seq<Student>, defs: D.Dict<ClassRecord>, attendance: D.Dict<string>, now: string): SyncData {
    SyncData(students, Some(Store.ClassList(defs, now)), Store.RecordList(Store.AttendanceRecords(attendance)))
  }

  /** With that payload every entity gets its row. */
  lemma ExportForSyncConverts(students: seq<Student>, defs: D.Dict<ClassRecord>, attendance: D.Dict<string>,
                              encode: Item -> string, now: string)
    ensures ConvertDataToRows(ExportForSync(students, defs, attendance, now), encode, now).Ok?
    ensures |ConvertDataToRows(ExportForSync(students, defs, attendance, now), encode, now).value|
      == 1 + |students| + |defs| + |attendance|
  {
  }

  /** The JSON parsers, one per type column. */
  datatype Parsers = Parsers(
    student: string -> Option<Student>,
    cls: string -> Option<ClassRecord>,
    record: string -> Option<AttendanceRecord>)

  /** The three arrays `convertRowsToData` fills. */
  datatype Parsed = Parsed(students: seq<Student>, classes: seq<ClassRecord>, attendance: seq<AttendanceRecord>)

  /** One data row's contribution: rows shorter than three cells, rows whose
      JSON does not parse and rows of an unknown type are skipped. */
  function AddRow(acc: Parsed, row: Row, parse: Parsers): (r: Parsed)
    ensures |r.students| + |r.classes| + |r.attendance| <= |acc.students| + |acc.classes| + |acc.attendance| + 1
  {
    if |row| < 3 then acc
    else if row[0] == "student" then
      (match parse.student(row[2]) case Some(s) => acc.(students := acc.students + [s]) case None => acc)
    else if row[0] == "class" then
      (match parse.cls(row[2]) case Some(c) => acc.(classes := acc.classes + [c]) case None => acc)
    else if row[0] == "attendance" then
      (match parse.record(row[2]) case Some(a) => acc.(attendance := acc.attendance + [a]) case None => acc)
    else acc
  }

  /** The arrays after reading `rows` in order. */
  function ReadRows(rows: seq<Row>, parse: Parsers): (r: Parsed)
    ensures |r.students| + |r.classes| + |r.attendance| <= |rows|
  {
    if rows == [] then Parsed([], [], [])
    else AddRow(ReadRows(rows[..|rows| - 1], parse), rows[|rows| - 1], parse)
  }

  /** `convertRowsToData(rows)`: skips the header row and reads the rest. */
  method ConvertRowsToData(rows: seq<Row>, parse: Parsers) returns (data: Parsed)
    ensures data == if rows == [] then Parsed([], [], []) else ReadRows(rows[1..], parse)
  {
    data := Parsed([], [], []);
    if rows == [] {
      return;
    }
    var i := 1;
    while i < |rows|
      invariant 1 <= i <= |rows|
      invariant data == ReadRows(rows[1..i], parse)
    {
      assert rows[1..i + 1][..i - 1] == rows[1..i];
      data := AddRow(data, rows[i], parse);
      i := i + 1;
    }
    assert rows[1..i] == rows[1..];
  }

  /** The payload `syncFromGoogleSheets` hands to `importAllData`: three arrays
      and no schedule. */
  function AsImport(data: Parsed): Store.ImportPayload {
    Store.ImportPayload(Some(data.students), Some(data.classes), Store.RecordList(data.attendance), None)
  }

  /** JSON that parses back to what was encoded. */
  ghost predicate RoundTrips(encode: Item -> string, parse: Parsers) {
    (forall s :: parse.student(encode(StudentItem(s))) == Some(s))
    && (forall c :: parse.cls(encode(ClassItem(c))) == Some(c))
    && (forall a :: parse.record(encode(RecordItem(a))) == Some(a))
  }

  lemma {:induction false} ReadRowsAppend(rows: seq<Row>, more: seq<Row>, parse: Parsers)
    ensures ReadRows(rows + more, parse) == ReadAll(ReadRows(rows, parse), more, parse)
    decreases |more|
  {
    if more == [] {
      assert rows + more == rows;
    } else {
      var last := more[|more| - 1];
      assert rows + more == (rows + more[..|more| - 1]) + [last];
      assert (rows + more)[..|rows + more| - 1] == rows + more[..|more| - 1];
      ReadRowsAppend(rows, more[..|more| - 1], parse);
    }
  }

  /** Continues reading `more` from an accumulator. */
  function ReadAll(acc: Parsed, more: seq<Row>, parse: Parsers): Parsed
    decreases |more|
  {
    if more == [] then acc else AddRow(ReadAll(acc, more[..|more| - 1], parse), more[|more| - 1], parse)
  }

  lemma {:induction false} ReadStudentRows(acc: Parsed, ss: seq<Student>, encode: Item -> string, parse: Parsers)
    requires RoundTrips(encode, parse)
    ensures ReadAll(acc, Seqs.Map(ss, (s: Student) => StudentRow(s, encode)), parse) == acc.(students := acc.students + ss)
    decreases |ss|
  {
    var rows := Seqs.Map(ss, (s: Student) => StudentRow(s, encode));
    if ss == [] {
      assert acc.students + ss == acc.students;
    } else {
      var init := ss[..|ss| - 1];
      assert rows[..|rows| - 1] == Seqs.Map(init, (s: Student) => StudentRow(s, encode));
      ReadStudentRows(acc, init, encode, parse);
      assert acc.students + init + [ss[|ss| - 1]] == acc.students + ss;
    }
  }

  lemma {:induction false} ReadClassRows(acc: Parsed, cs: seq<ClassRecord>, encode: Item -> string, parse: Parsers)
    requires RoundTrips(encode, parse)
    ensures ReadAll(acc, Seqs.Map(cs, (c: ClassRecord) => ClassRow(c, encode)), parse) == acc.(classes := acc.classes + cs)
    decreases |cs|
  {
    var rows := Seqs.Map(cs, (c: ClassRecord) => ClassRow(c, encode));
    if cs == [] {
      assert acc.classes + cs == acc.classes;
    } else {
      var init := cs[..|cs| - 1];
      assert rows[..|rows| - 1] == Seqs.Map(init, (c: ClassRecord) => ClassRow(c, encode));
      ReadClassRows(acc, init, encode, parse);
      assert acc.classes + init + [cs[|cs| - 1]] == acc.classes + cs;
    }
  }

  lemma {:induction false} ReadRecordRows(acc: Parsed, rs: seq<AttendanceRecord>, encode: Item -> string, parse: Parsers, now: string)
    requires RoundTrips(encode, parse)
    ensures ReadAll(acc, Seqs.Map(rs, (a: AttendanceRecord) => RecordRow(a, encode, now)), parse) == acc.(attendance := acc.attendance + rs)
    decreases |rs|
  {
    var rows := Seqs.Map(rs, (a: AttendanceRecord) => RecordRow(a, encode, now));
    if rs == [] {
      assert acc.attendance + rs == acc.attendance;
    } else {
      var init := rs[..|rs| - 1];
      assert rows[..|rows| - 1] == Seqs.Map(init, (a: AttendanceRecord) => RecordRow(a, encode, now));
      ReadRecordRows(acc, init, encode, parse, now);
      assert acc.attendance + init + [rs[|rs| - 1]] == acc.attendance + rs;
    }
  }

  /** Rows written by `convertDataToRows` read back, past the header, as the
      same students, classes and records in the same order, given JSON that
      round-trips. */
  lemma RowsRoundTrip(data: SyncData, encode: Item -> string, parse: Parsers, now: string)
    requires RoundTrips(encode, parse)
    requires ConvertDataToRows(data, encode, now).Ok?
    ensures var rows := ConvertDataToRows(data, encode, now).value;
      ReadRows(rows[1..], parse) == Parsed(data.students, data.classes.value, data.attendance.records)
  {
    var rows := ConvertDataToRows(data, encode, now).value;
    var sRows := Seqs.Map(data.students, (s: Student) => StudentRow(s, encode));
    var cRows := Seqs.Map(data.classes.value, (c: ClassRecord) => ClassRow(c, encode));
    var aRows := Seqs.Map(data.attendance.records, (a: AttendanceRecord) => RecordRow(a, encode, now));
    assert rows[1..] == sRows + cRows + aRows;
    ReadRowsAppend([], sRows + cRows + aRows, parse);
    assert [] + (sRows + cRows + aRows) == sRows + cRows + aRows;
    var empty := Parsed([], [], []);
    ReadAllAppend(empty, sRows + cRows, aRows, parse);
    ReadAllAppend(empty, sRows, cRows, parse);
    ReadStudentRows(empty, data.students, encode, parse);
    var afterS := empty.(students := data.students);
    assert empty.students + data.students == data.students;
    ReadClassRows(afterS, data.classes.value, encode, parse);
    var afterC := afterS.(classes := data.classes.value);
    assert afterS.classes + data.classes.value == data.classes.value;
    ReadRecordRows(afterC, data.attendance.records, encode, parse, now);
    assert afterC.attendance + data.attendance.records == data.attendance.records;
  }

  lemma {:induction false} ReadAllAppend(acc: Parsed, a: seq<Row>, b: seq<Row>, parse: Parsers)
    ensures ReadAll(acc, a + b, parse) == ReadAll(ReadAll(acc, a, parse), b, parse)
    decreases |b|
  {
    if b == [] {
      assert a + b == a;
    } else {
      assert (a + b)[..|a + b| - 1] == a + b[..|b| - 1];
      ReadAllAppend(acc, a, b[..|b| - 1], parse);
    }
  }
}
