/** The first Apps Script back end (`google-apps-script.js`): one sheet, the
    spreadsheet's active one, read by `getStudents` and rewritten by
    `syncStudents`, behind `doGet` and `doPost`. Its reader knows no columns:
    each row below the header becomes an object keyed by the header's cells. */
module ScriptBasic {
  import opened Wrappers
  import opened Entities
  import opened Sheets
  import Text
  import Seqs
  import D = Dict

  // ---------------------------------------------------------------- getStudents

  /** The header's cells paired with the row's cells below them. */
  function Zip(headers: Row, row: Row): (es: seq<D.Entry<string>>)
    ensures |es| == |headers|
    ensures forall j :: 0 <= j < |headers| ==> es[j] == D.Entry(headers[j], CellAt(row, j))
  {
    seq(|headers|, j requires 0 <= j < |headers| => D.Entry(headers[j], CellAt(row, j)))
  }

  /** `headers.forEach((header, index) => student[header] = row[index] || '')`
      on an empty object. */
  function RowRecord(headers: Row, row: Row): D.Dict<string> {
    D.FromEntries(Zip(headers, row))
  }

  /** A key of the record is a cell of the header, and the record holds the
      row's cell below the last column of the header with that key. */
  lemma RowRecordMeaning(headers: Row, row: Row, h: string)
    ensures D.Get(RowRecord(headers, row), h).None? <==> h !in headers
    ensures forall j :: (0 <= j < |headers| && headers[j] == h
      && (forall k :: j < k < |headers| ==> headers[k] != h)
      ==> D.Get(RowRecord(headers, row), h) == Some(CellAt(row, j)))
  {
    var es := Zip(headers, row);
    D.FromEntriesLastWins(es, h);
    D.LastValueNone(es, h);
    forall j | 0 <= j < |headers| && headers[j] == h && (forall k :: j < k < |headers| ==> headers[k] != h)
      ensures D.LastValue(es, h) == Some(CellAt(row, j))
    {
      LastValueAt(es, j);
    }
  }

  /** The pair at `i` is the last one with its key when no later pair has it. */
  lemma {:induction false} LastValueAt(es: seq<D.Entry<string>>, i: nat)
    requires i < |es| && forall k :: i < k < |es| ==> es[k].key != es[i].key
    ensures D.LastValue(es, es[i].key) == Some(es[i].value)
  {
    var n := |es| - 1;
    if i < n {
      var init := es[..n];
      assert init[i] == es[i];
      LastValueAt(init, i);
    }
  }

  /** The loop that builds one record. */
  method RowObject(headers: Row, row: Row) returns (record: D.Dict<string>)
    ensures record == RowRecord(headers, row)
  {
    record := [];
    var j := 0;
    ghost var es := Zip(headers, row);
    while j < |headers|
      invariant 0 <= j <= |headers|
      invariant record == D.FromEntries(es[..j])
    {
      assert es[..j + 1][..j] == es[..j];
      record := D.Put(record, headers[j], CellAt(row, j));
      j := j + 1;
    }
    assert es[..j] == es;
  }

  /** How `getStudents` reads each row under the header `headers`. */
  function ReadRecord(headers: Row): Row -> D.Dict<string> {
    (row: Row) => RowRecord(headers, row)
  }

  /** `成功載入 N 筆學員資料`. */
  function LoadedMessage(n: nat): string {
    "成功載入 " + Text.NatToString(n) + " 筆學員資料"
  }

  /** The reply of `getStudents`: no rows below the header is an empty list
      with its own message and no count; otherwise one record per row below
      the header, whatever it holds. */
  function StudentsReply(values: seq<Row>): (r: Reply)
    ensures r.RecordList?
    ensures |values| <= 1 <==> r.total.None?
    ensures |values| <= 1 ==> r == RecordList([], None, "沒有學員資料")
    ensures |values| > 1 ==> |r.records| == |values| - 1 && r.total == Some(|values| - 1)
  {
    if |values| <= 1 then RecordList([], None, "沒有學員資料")
    else
      var records := Seqs.Map(values[1..], ReadRecord(values[0]));
      RecordList(records, Some(|records|), LoadedMessage(|records|))
  }

  /** `getStudents()` on the active sheet. */
  method GetStudents(sheet: Sheet) returns (r: Reply)
    ensures r == StudentsReply(sheet.values)
  {
    var data := sheet.values;
    if |data| <= 1 {
      return RecordList([], None, "沒有學員資料");
    }
    var headers := data[0];
    var students: seq<D.Dict<string>> := [];
    var i := 1;
    while i < |data|
      invariant 1 <= i <= |data|
      invariant students == Seqs.Map(data[1..i], ReadRecord(headers))
    {
      var student := RowObject(headers, data[i]);
      assert data[1..i + 1] == data[1..i] + [data[i]];
      students := students + [student];
      i := i + 1;
    }
    assert data[1..i] == data[1..];
    return RecordList(students, Some(|students|), LoadedMessage(|students|));
  }

  // ---------------------------------------------------------------- syncStudents

  /** The sheet `syncStudents` leaves: the header, then one row per student
      (none when the payload is missing), a missing creation time left empty. */
  function SyncedRows(students: Option<seq<SheetStudent>>): (rows: seq<Row>)
    ensures |rows| == 1 + if students.Some? then |students.value| else 0
    ensures rows[0] == StudentHeader
  {
    [StudentHeader] + if students.Some? then Seqs.Map(students.value, WriteStudent("")) else []
  }

  /** `syncStudents(students)` on the active sheet: it is cleared and
      rewritten. A missing payload still clears it, and only then fails,
      reading the length of `undefined`. */
  method SyncStudents(sheet: Sheet, students: Option<seq<SheetStudent>>) returns (r: Reply)
    modifies sheet
    ensures sheet.values == SyncedRows(students)
    ensures r == if students.Some? then Synced(SyncedStudentsMessage(|students.value|), Some(|students.value|))
      else Failure(TypeError)
  {
    sheet.Clear();
    sheet.SetValues(0, [StudentHeader]);
    OverlayEmpty([StudentHeader]);
    if students.Some? && |students.value| > 0 {
      var rows := Seqs.Map(students.value, WriteStudent(""));
      OverlayAppend(sheet.values, rows);
      sheet.SetValues(1, rows);
    }
    assert sheet.values == SyncedRows(students);
    if students.None? {
      return Failure(TypeError);
    }
    r := Synced(SyncedStudentsMessage(|students.value|), Some(|students.value|));
  }

  /** The record a synced student reads back as: exactly the nine header
      keys, in order, each with the student's field, the status defaulting
      to enrolled and the creation time left as it was. */
  lemma StudentRecord(s: SheetStudent)
    ensures var record := RowRecord(StudentHeader, StudentRow(s, ""));
      && D.Keys(record) == StudentHeader
      && D.Get(record, "id") == Some(s.id)
      && D.Get(record, "name") == Some(s.name)
      && D.Get(record, "nickname") == Some(s.nickname)
      && D.Get(record, "class") == Some(s.cls)
      && D.Get(record, "phone") == Some(s.phone)
      && D.Get(record, "email") == Some(s.email)
      && D.Get(record, "status") == Some(Or(s.status, Enrolled))
      && D.Get(record, "remarks") == Some(s.remarks)
      && D.Get(record, "createdAt") == Some(s.createdAt)
  {
    RecordOfStudentRow(s);
    EntriesKeys(s);
    EntriesGet(s);
  }

  /** The entries' keys are the header. */
  lemma EntriesKeys(s: SheetStudent)
    ensures D.Keys(StudentEntries(s)) == StudentHeader
  {
  }

  /** Each header key finds its own field among the entries. */
  lemma EntriesGet(s: SheetStudent)
    ensures var es := StudentEntries(s);
      && D.Get(es, "id") == Some(s.id)
      && D.Get(es, "name") == Some(s.name)
      && D.Get(es, "nickname") == Some(s.nickname)
      && D.Get(es, "class") == Some(s.cls)
      && D.Get(es, "phone") == Some(s.phone)
      && D.Get(es, "email") == Some(s.email)
      && D.Get(es, "status") == Some(Or(s.status, Enrolled))
      && D.Get(es, "remarks") == Some(s.remarks)
      && D.Get(es, "createdAt") == Some(s.createdAt)
  {
    var es := StudentEntries(s);
    EntriesWellFormed(s);
    D.GetAt(es, 0);
    D.GetAt(es, 1);
    D.GetAt(es, 2);
    D.GetAt(es, 3);
    D.GetAt(es, 4);
    D.GetAt(es, 5);
    D.GetAt(es, 6);
    D.GetAt(es, 7);
    D.GetAt(es, 8);
  }

  /** No key occurs twice among the entries. */
  lemma EntriesWellFormed(s: SheetStudent)
    ensures D.WellFormed(StudentEntries(s))
  {
    HeaderDistinct();
    EntriesKeys(s);
    var es := StudentEntries(s);
    forall i, j | 0 <= i < j < |es|
      ensures es[i].key != es[j].key
    {
      assert es[i].key == StudentHeader[i] && es[j].key == StudentHeader[j];
    }
  }

  /** The pairs of a synced student's row under the header. */
  function StudentEntries(s: SheetStudent): seq<D.Entry<string>> {
    [D.Entry("id", s.id), D.Entry("name", s.name), D.Entry("nickname", s.nickname), D.Entry("class", s.cls),
     D.Entry("phone", s.phone), D.Entry("email", s.email), D.Entry("status", Or(s.status, Enrolled)),
     D.Entry("remarks", s.remarks), D.Entry("createdAt", s.createdAt)]
  }

  /** The record of a synced student's row holds exactly those pairs. */
  lemma RecordOfStudentRow(s: SheetStudent)
    ensures RowRecord(StudentHeader, StudentRow(s, "")) == StudentEntries(s)
  {
    var es := Zip(StudentHeader, StudentRow(s, ""));
    assert es == StudentEntries(s);
    HeaderDistinct();
    assert D.WellFormed(es);
    D.FromEntriesDistinct(es);
  }

  /** The header names nine different keys. */
  lemma HeaderDistinct()
    ensures forall i, j :: 0 <= i < j < |StudentHeader| ==> StudentHeader[i] != StudentHeader[j]
  {
  }

  /** What `getStudents` answers after `syncStudents`: one record per synced
      student, in order, as `StudentRecord` describes it. */
  lemma SyncedStudentsReadBack(students: seq<SheetStudent>)
    ensures var r := StudentsReply(SyncedRows(Some(students)));
      if students == [] then r == RecordList([], None, "沒有學員資料")
      else (r.total == Some(|students|)
        && r.records == Seqs.Map(students, (s: SheetStudent) => RowRecord(StudentHeader, StudentRow(s, ""))))
  {
    var rows := SyncedRows(Some(students));
    assert rows[1..] == Seqs.Map(students, WriteStudent(""));
  }

  // ---------------------------------------------------------------- dispatch

  /** `doGet(e)`: only `getStudents` is served. */
  method DoGet(sheet: Sheet, action: Option<string>) returns (r: Reply)
    ensures action == Some("getStudents") ==> r == StudentsReply(sheet.values)
    ensures action != Some("getStudents") ==> r == Failure("Invalid action")
  {
    if action == Some("getStudents") {
      r := GetStudents(sheet);
    } else {
      r := Failure("Invalid action");
    }
  }

  /** `doPost(e)`: `JSON.parse(e.postData.contents)` fails with a
      `TypeError` when there is no `postData`, and with a `SyntaxError` on
      empty or missing contents or contents that are no JSON; otherwise only
      `syncStudents` is served. */
  method DoPost(sheet: Sheet, post: Post<SheetStudent, ()>) returns (r: Reply)
    modifies sheet
    ensures post.NoContents? ==> r == Failure(TypeError) && sheet.values == old(sheet.values)
    ensures post.EmptyContents? ==> r == Failure(SyntaxError) && sheet.values == old(sheet.values)
    ensures post.Malformed? ==> r == Failure(SyntaxError) && sheet.values == old(sheet.values)
    ensures post.Body? && post.action != Some("syncStudents")
      ==> r == Failure("Invalid action") && sheet.values == old(sheet.values)
    ensures post.Body? && post.action == Some("syncStudents")
      ==> (sheet.values == SyncedRows(post.students)
        && r == if post.students.Some? then Synced(SyncedStudentsMessage(|post.students.value|), Some(|post.students.value|))
          else Failure(TypeError))
  {
    match post
    case NoContents => r := Failure(TypeError);
    case EmptyContents => r := Failure(SyntaxError);
    case Malformed => r := Failure(SyntaxError);
    case Body(action, students, _) =>
      if action == Some("syncStudents") {
        r := SyncStudents(sheet, students);
      } else {
        r := Failure("Invalid action");
      }
  }
}
