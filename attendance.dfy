/** The attendance manager of js/attendance.js: marking one student or a
    batch, copying the latest day's marks, clearing a day, and the CSV export
    and import. The statistics methods of the same class are in
    `AttendanceQueries`. */
module Attendance {
  import opened Wrappers
  import opened Entities
  import Text
  import Seqs
  import Csv
  import D = Dict
  import Store
  import Q = AttendanceQueries

  /** Why an attendance operation refuses. */
  datatype AttendanceError =
    | InvalidStatus
    | NothingToCopy
    | UnknownClass(className: string)
    | UnknownStudent(studentName: string)
    | BadDate(date: string)

  /** One student's mark for the day being recorded. */
  datatype Mark = Mark(studentId: string, status: string)

  /** One entry of a batch's `errors`: the student and why the mark was refused. */
  datatype MarkFailure = MarkFailure(studentId: string, error: AttendanceError)

  /** The `{ success, failed, errors }` tally of a batch. */
  datatype BatchResult = BatchResult(success: nat, failed: nat, errors: seq<MarkFailure>)

  predicate ValidMark(m: Mark) {
    Q.ValidStatus(m.status)
  }

  predicate RefusedMark(m: Mark) {
    !Q.ValidStatus(m.status)
  }

  function Refusal(m: Mark): MarkFailure {
    MarkFailure(m.studentId, InvalidStatus)
  }

  /** The ledger after `setAttendanceStatus` for each mark in turn: a valid
      mark sets its student's key for the date, a refused one changes nothing. */
  function ApplyMarks(ledger: D.Dict<string>, marks: seq<Mark>, date: string): (r: D.Dict<string>)
    ensures D.WellFormed(ledger) ==> D.WellFormed(r)
  {
    if marks == [] then ledger
    else
      var m := marks[|marks| - 1];
      var before := ApplyMarks(ledger, marks[..|marks| - 1], date);
      if Q.ValidStatus(m.status) then
        assert D.WellFormed(ledger) ==> D.WellFormed(D.Put(before, AttendanceKey(m.studentId, date), m.status)) by {
          if D.WellFormed(ledger) { D.PutWellFormed(before, AttendanceKey(m.studentId, date), m.status); }
        }
        D.Put(before, AttendanceKey(m.studentId, date), m.status)
      else before
  }

  /** The manager's `currentAttendance` map after the same marks: keyed by
      student id alone. */
  function NoteMarks(current: D.Dict<string>, marks: seq<Mark>): (r: D.Dict<string>)
    ensures D.WellFormed(current) ==> D.WellFormed(r)
  {
    if marks == [] then current
    else
      var m := marks[|marks| - 1];
      var before := NoteMarks(current, marks[..|marks| - 1]);
      if Q.ValidStatus(m.status) then
        assert D.WellFormed(current) ==> D.WellFormed(D.Put(before, m.studentId, m.status)) by {
          if D.WellFormed(current) { D.PutWellFormed(before, m.studentId, m.status); }
        }
        D.Put(before, m.studentId, m.status)
      else before
  }

  /** The tally a batch returns: every mark is a success or a failure, the
      successes are the valid marks and the errors are the refused marks, in
      order. */
  function Batch(marks: seq<Mark>): (r: BatchResult)
    ensures r.success + r.failed == |marks| && |r.errors| == r.failed
    ensures r.success == Seqs.Count(marks, ValidMark)
    ensures r.errors == Seqs.Map(Seqs.Filter(marks, RefusedMark), Refusal)
  {
    if marks == [] then BatchResult(0, 0, [])
    else
      var init := marks[..|marks| - 1];
      var m := marks[|marks| - 1];
      var before := Batch(init);
      assert marks == init + [m];
      Seqs.CountAppend(init, [m], ValidMark);
      Seqs.FilterAppend(init, [m], RefusedMark);
      if Q.ValidStatus(m.status) then
        BatchResult(before.success + 1, before.failed, before.errors)
      else
        BatchResult(before.success, before.failed + 1, before.errors + [Refusal(m)])
  }

  /** The status of the last valid mark whose key for `date` is `k`. */
  function LastValidMark(marks: seq<Mark>, date: string, k: string): Option<string> {
    if marks == [] then None
    else
      var m := marks[|marks| - 1];
      if Q.ValidStatus(m.status) && AttendanceKey(m.studentId, date) == k then Some(m.status)
      else LastValidMark(marks[..|marks| - 1], date, k)
  }

  /** After a run of marks, a key holds the last valid mark made for it, and a
      key no valid mark touched keeps its old value. */
  lemma {:induction false} ApplyMarksLastWins(ledger: D.Dict<string>, marks: seq<Mark>, date: string, k: string)
    ensures D.Get(ApplyMarks(ledger, marks, date), k)
         == if LastValidMark(marks, date, k).Some? then LastValidMark(marks, date, k) else D.Get(ledger, k)
  {
    if marks != [] {
      var m := marks[|marks| - 1];
      ApplyMarksLastWins(ledger, marks[..|marks| - 1], date, k);
      if Q.ValidStatus(m.status) {
        D.GetPut(ApplyMarks(ledger, marks[..|marks| - 1], date), AttendanceKey(m.studentId, date), m.status, k);
      }
    }
  }

  /** On one date, different students have different keys. */
  lemma SameDateKey(s1: string, s2: string, date: string)
    requires AttendanceKey(s1, date) == AttendanceKey(s2, date)
    ensures s1 == s2
  {
    assert AttendanceKey(s1, date)[|date| + 1..] == s1;
    assert AttendanceKey(s2, date)[|date| + 1..] == s2;
  }

  /** A valid mark for a student no other mark names is the one that counts. */
  lemma {:induction false} UniqueMarkWins(marks: seq<Mark>, date: string, i: nat)
    requires i < |marks| && Q.ValidStatus(marks[i].status)
    requires forall j :: 0 <= j < |marks| && j != i ==> marks[j].studentId != marks[i].studentId
    ensures LastValidMark(marks, date, AttendanceKey(marks[i].studentId, date)) == Some(marks[i].status)
  {
    var n := |marks| - 1;
    if i < n {
      if AttendanceKey(marks[n].studentId, date) == AttendanceKey(marks[i].studentId, date) {
        SameDateKey(marks[n].studentId, marks[i].studentId, date);
      }
      UniqueMarkWins(marks[..n], date, i);
    }
  }

  /** `studentIds` with one status. */
  function MarkWith(status: string): string -> Mark {
    (id: string) => Mark(id, status)
  }

  function Uniform(ids: seq<string>, status: string): seq<Mark> {
    Seqs.Map(ids, MarkWith(status))
  }

  function KeyOn(date: string): string -> string {
    (id: string) => AttendanceKey(id, date)
  }

  function RefusedId(id: string): MarkFailure {
    MarkFailure(id, InvalidStatus)
  }

  /** A batch with one status marks every listed student when the status is
      valid, and refuses every one otherwise. */
  lemma BatchUniform(ids: seq<string>, status: string)
    ensures Q.ValidStatus(status) ==> Batch(Uniform(ids, status)) == BatchResult(|ids|, 0, [])
    ensures !Q.ValidStatus(status) ==> Batch(Uniform(ids, status)) == BatchResult(0, |ids|, Seqs.Map(ids, RefusedId))
  {
    var marks := Uniform(ids, status);
    if Q.ValidStatus(status) {
      Seqs.FilterNone(marks, RefusedMark);
    } else {
      Seqs.FilterAll(marks, RefusedMark);
    }
  }

  /** The last valid mark of a one-status batch for a key: the status, for a
      listed student's key, when the status is valid. */
  lemma {:induction false} UniformLastMark(ids: seq<string>, status: string, date: string, k: string)
    ensures LastValidMark(Uniform(ids, status), date, k)
         == if Q.ValidStatus(status) && k in Seqs.Map(ids, KeyOn(date)) then Some(status) else None
  {
    if ids != [] {
      var init := ids[..|ids| - 1];
      UniformLastMark(init, status, date, k);
      assert Uniform(ids, status)[..|ids| - 1] == Uniform(init, status);
      assert Seqs.Map(ids, KeyOn(date)) == Seqs.Map(init, KeyOn(date)) + [AttendanceKey(ids[|ids| - 1], date)];
    }
  }

  /** After `setBatchAttendanceStatus` with a valid status every listed
      student is marked with it on that date; every other key keeps its value. */
  lemma BatchMarksEveryone(ledger: D.Dict<string>, ids: seq<string>, status: string, date: string, k: string)
    ensures D.Get(ApplyMarks(ledger, Uniform(ids, status), date), k)
         == if Q.ValidStatus(status) && k in Seqs.Map(ids, KeyOn(date)) then Some(status) else D.Get(ledger, k)
  {
    ApplyMarksLastWins(ledger, Uniform(ids, status), date, k);
    UniformLastMark(ids, status, date, k);
  }

  /** Every ledger key is the key its own date and student id make again:
      true of every key `markAttendance` writes for ids and dates without an
      underscore. */
  ghost predicate WellKeyed(ledger: D.Dict<string>) {
    forall i :: 0 <= i < |ledger| ==> AttendanceKey(KeyStudent(ledger[i].key), KeyDate(ledger[i].key)) == ledger[i].key
  }

  /** Marking keeps the ledger well keyed when neither id nor date has an underscore. */
  lemma PutKeepsWellKeyed(ledger: D.Dict<string>, studentId: string, date: string, status: string)
    requires WellKeyed(ledger)
    requires '_' !in studentId && '_' !in date
    ensures WellKeyed(D.Put(ledger, AttendanceKey(studentId, date), status))
  {
    var k := AttendanceKey(studentId, date);
    var r := D.Put(ledger, k, status);
    KeyRoundTrip(studentId, date);
    forall i | 0 <= i < |r|
      ensures AttendanceKey(KeyStudent(r[i].key), KeyDate(r[i].key)) == r[i].key
    {
      assert r[i].key == D.Keys(r)[i];
      if r[i].key != k {
        assert r[i].key in D.Keys(ledger);
      }
    }
  }

  /** The record's own ledger key. */
  function RecordKey(r: AttendanceRecord): string {
    AttendanceKey(r.studentId, r.date)
  }

  /** The records of a well-formed, well-keyed ledger have pairwise different keys. */
  lemma RecordKeysDistinct(ledger: D.Dict<string>)
    requires D.WellFormed(ledger) && WellKeyed(ledger)
    ensures forall i, j :: 0 <= i < j < |Store.AttendanceRecords(ledger)| ==>
      RecordKey(Store.AttendanceRecords(ledger)[i]) != RecordKey(Store.AttendanceRecords(ledger)[j])
  {
    var records := Store.AttendanceRecords(ledger);
    assert forall i :: 0 <= i < |records| ==> RecordKey(records[i]) == ledger[i].key;
  }

  /** One more entry gives one more record. */
  lemma RecordsSnoc(init: D.Dict<string>, e: D.Entry<string>)
    ensures Store.AttendanceRecords(init + [e]) == Store.AttendanceRecords(init) + [Store.RecordOf(e)]
  {
  }

  /** Saving one more record whose key is new appends its entry. */
  lemma {:induction false} SaveFreshRecord(kept: seq<AttendanceRecord>, before: D.Dict<string>, e: D.Entry<string>)
    requires Store.BuildLedger(kept) == before && !D.HasKey(before, e.key)
    requires RecordKey(Store.RecordOf(e)) == e.key
    ensures Store.BuildLedger(kept + [Store.RecordOf(e)]) == before + [e]
  {
    Store.BuildLedgerSnoc(kept, Store.RecordOf(e));
    D.PutNew(before, e.key, e.value);
  }

  /** A key missing from a dictionary is missing from what `KeepKeys` leaves. */
  lemma {:induction false} KeptKeyFresh(init: D.Dict<string>, q: string -> bool, k: string)
    requires forall i :: 0 <= i < |init| ==> init[i].key != k
    ensures !D.HasKey(D.KeepKeys(init, q), k)
  {
    forall i | 0 <= i < |D.KeepKeys(init, q)|
      ensures D.KeepKeys(init, q)[i].key != k
    {
      D.KeepKeysSubset(init, q, i);
    }
  }

  /** Saving the records of a well-formed, well-keyed ledger that pass a test
      of their key keeps exactly the entries with those keys, in order. */
  lemma {:induction false} RebuildFiltered(ledger: D.Dict<string>, p: AttendanceRecord -> bool, q: string -> bool)
    requires D.WellFormed(ledger) && WellKeyed(ledger)
    requires forall i :: 0 <= i < |ledger| ==> p(Store.RecordOf(ledger[i])) == q(ledger[i].key)
    ensures Store.BuildLedger(Seqs.Filter(Store.AttendanceRecords(ledger), p)) == D.KeepKeys(ledger, q)
  {
    if ledger != [] {
      var n := |ledger| - 1;
      var init := ledger[..n];
      var e := ledger[n];
      assert ledger == init + [e];
      assert forall i :: 0 <= i < n ==> init[i] == ledger[i];
      RebuildFiltered(init, p, q);
      RebuildStep(init, e, p, q);
    }
  }

  /** The step of `RebuildFiltered`: one more entry whose key is new. */
  lemma {:induction false} RebuildStep(init: D.Dict<string>, e: D.Entry<string>, p: AttendanceRecord -> bool, q: string -> bool)
    requires Store.BuildLedger(Seqs.Filter(Store.AttendanceRecords(init), p)) == D.KeepKeys(init, q)
    requires forall i :: 0 <= i < |init| ==> init[i].key != e.key
    requires RecordKey(Store.RecordOf(e)) == e.key
    requires p(Store.RecordOf(e)) == q(e.key)
    ensures Store.BuildLedger(Seqs.Filter(Store.AttendanceRecords(init + [e]), p)) == D.KeepKeys(init + [e], q)
  {
    var rec := Store.RecordOf(e);
    var kept := Seqs.Filter(Store.AttendanceRecords(init), p);
    RecordsSnoc(init, e);
    Seqs.FilterAppend(Store.AttendanceRecords(init), [rec], p);
    D.KeepKeysSnoc(init, e, q);
    if p(rec) {
      assert Seqs.Filter([rec], p) == [rec];
      assert Seqs.Filter(Store.AttendanceRecords(init + [e]), p) == kept + [rec];
      KeptKeyFresh(init, q, e.key);
      SaveFreshRecord(kept, D.KeepKeys(init, q), e);
    } else {
      assert Seqs.Filter([rec], p) == [];
      assert Seqs.Filter(Store.AttendanceRecords(init + [e]), p) == kept;
    }
  }

  /** A test on records that keeps every record. */
  function KeepAll(r: AttendanceRecord): bool {
    true
  }

  /** Saving every record of a well-formed, well-keyed ledger gives back the
      same ledger: `saveAttendance(getAttendance())` is a round trip. */
  lemma SaveAllRoundTrip(ledger: D.Dict<string>)
    requires D.WellFormed(ledger) && WellKeyed(ledger)
    ensures Store.BuildLedger(Store.AttendanceRecords(ledger)) == ledger
  {
    RebuildFiltered(ledger, KeepAll, (k: string) => true);
    Seqs.FilterAll(Store.AttendanceRecords(ledger), KeepAll);
    D.KeepKeysAll(ledger, (k: string) => true);
  }

  // Clearing a day

  function OffDate(date: string): AttendanceRecord -> bool {
    (r: AttendanceRecord) => r.date != date
  }

  function KeyOffDate(date: string): string -> bool {
    (k: string) => KeyDate(k) != date
  }

  /** The records `clearAttendanceByDate` saves back: with a class id the
      test `record.classId === classId` never holds, because the records carry
      no class id, so every record is kept; without one, the records of other
      dates. */
  function ClearedRecords(ledger: D.Dict<string>, date: string, classId: string): (r: seq<AttendanceRecord>)
    ensures classId != "" ==> r == Store.AttendanceRecords(ledger)
    ensures classId == "" ==> forall x :: x in r <==> x in Store.AttendanceRecords(ledger) && x.date != date
  {
    var records := Store.AttendanceRecords(ledger);
    if classId != "" then records else Seqs.Filter(records, OffDate(date))
  }

  /** The count `clearAttendanceByDate` returns: the records of that date
      when no class is given, none otherwise. */
  lemma ClearedCount(ledger: D.Dict<string>, date: string, classId: string)
    ensures |Store.AttendanceRecords(ledger)| - |ClearedRecords(ledger, date, classId)|
         == if classId != "" then 0 else Seqs.Count(Store.AttendanceRecords(ledger), Q.OnDate(date))
  {
    Seqs.CountSplit(Store.AttendanceRecords(ledger), Q.OnDate(date), OffDate(date));
  }

  /** Clearing a date of a well-formed, well-keyed ledger removes exactly the
      keys of that date and keeps the others, in order; clearing with a class
      id saves the ledger unchanged. */
  lemma ClearByDateKeepsOthers(ledger: D.Dict<string>, date: string, classId: string)
    requires D.WellFormed(ledger) && WellKeyed(ledger)
    ensures Store.BuildLedger(ClearedRecords(ledger, date, classId))
         == if classId != "" then ledger else D.KeepKeys(ledger, KeyOffDate(date))
  {
    if classId != "" {
      SaveAllRoundTrip(ledger);
    } else {
      RebuildFiltered(ledger, OffDate(date), KeyOffDate(date));
    }
  }

  // Copying the latest day

  /** `record => student && record.date < targetDate` over the class's active students. */
  function CopySource(classStudents: seq<Student>, target: string): AttendanceRecord -> bool {
    (r: AttendanceRecord) => Store.StudentById(classStudents, r.studentId).Some? && Text.Less(r.date, target)
  }

  /** The records `copyLastAttendance` may copy from: those of an active
      student of the class (any active student when no class is given) dated
      before the target date. */
  function CopySources(students: seq<Student>, ledger: D.Dict<string>, classId: string, target: string): (r: seq<AttendanceRecord>)
    ensures forall x :: x in r <==> (x in Store.AttendanceRecords(ledger) && Text.Less(x.date, target)
      && exists s :: s in Store.StudentsOf(students, classId, "active") && s.id == x.studentId)
  {
    var cs := Store.StudentsOf(students, classId, "active");
    var r := Seqs.Filter(Store.AttendanceRecords(ledger), CopySource(cs, target));
    assert forall x: AttendanceRecord :: Store.StudentById(cs, x.studentId).Some? <==> exists s :: s in cs && s.id == x.studentId;
    r
  }

  /** The latest date among the records: the first date after sorting them
      newest first. */
  function LatestDate(records: seq<AttendanceRecord>): (d: string)
    requires records != []
    ensures d in Seqs.Map(records, Q.DateOf)
    ensures forall i :: 0 <= i < |records| ==> Text.LessEq(records[i].date, d)
  {
    if |records| == 1 then
      assert Seqs.Map(records, Q.DateOf)[0] == records[0].date;
      records[0].date
    else
      var rest := LatestDate(records[1..]);
      assert forall i :: 0 < i < |records| ==> records[i] == records[1..][i - 1];
      assert Seqs.Map(records, Q.DateOf)[1..] == Seqs.Map(records[1..], Q.DateOf);
      assert Seqs.Map(records, Q.DateOf)[0] == records[0].date;
      if Text.Less(rest, records[0].date) then
        assert forall i :: 0 < i < |records| ==> Text.LessEq(records[i].date, records[0].date) by {
          forall i | 0 < i < |records|
            ensures Text.LessEq(records[i].date, records[0].date)
          {
            Text.LessEqTransitive(records[i].date, rest, records[0].date);
          }
        }
        records[0].date
      else
        Text.NotLessIsGreaterEq(rest, records[0].date);
        rest
  }

  function MarkOf(r: AttendanceRecord): Mark {
    Mark(r.studentId, r.status)
  }

  /** The marks `copyLastAttendance` replays: each record of the latest date,
      in ledger order, as a mark of its student with its status. */
  function CopyPlan(sources: seq<AttendanceRecord>): (marks: seq<Mark>)
    requires sources != []
    ensures |marks| <= |sources|
  {
    Seqs.Map(Seqs.Filter(sources, Q.OnDate(LatestDate(sources))), MarkOf)
  }

  /** In a well-keyed ledger no two records of the latest date belong to the
      same student, so every valid copied status is the one the target date
      ends up with. */
  lemma CopyCarriesStatuses(students: seq<Student>, ledger: D.Dict<string>, classId: string, target: string, i: nat)
    requires D.WellFormed(ledger) && WellKeyed(ledger)
    requires CopySources(students, ledger, classId, target) != []
    requires i < |CopyPlan(CopySources(students, ledger, classId, target))|
    requires Q.ValidStatus(CopyPlan(CopySources(students, ledger, classId, target))[i].status)
    ensures var marks := CopyPlan(CopySources(students, ledger, classId, target));
      D.Get(ApplyMarks(ledger, marks, target), AttendanceKey(marks[i].studentId, target)) == Some(marks[i].status)
  {
    var sources := CopySources(students, ledger, classId, target);
    var cs := Store.StudentsOf(students, classId, "active");
    var last := LatestDate(sources);
    var day := Seqs.Filter(sources, Q.OnDate(last));
    var marks := CopyPlan(sources);
    RecordKeysDistinct(ledger);
    Seqs.FilterKeepsKeysDistinct(Store.AttendanceRecords(ledger), CopySource(cs, target), RecordKey);
    Seqs.FilterKeepsKeysDistinct(sources, Q.OnDate(last), RecordKey);
    forall j | 0 <= j < |marks| && j != i
      ensures marks[j].studentId != marks[i].studentId
    {
      assert day[j].date == last && day[i].date == last;
      if j < i {
        assert RecordKey(day[j]) != RecordKey(day[i]);
      } else {
        assert RecordKey(day[i]) != RecordKey(day[j]);
      }
    }
    UniqueMarkWins(marks, target, i);
    ApplyMarksLastWins(ledger, marks, target, AttendanceKey(marks[i].studentId, target));
  }

  /** The result of `copyLastAttendance`: the batch tally with the two dates. */
  datatype CopyResult = CopyResult(success: nat, failed: nat, errors: seq<MarkFailure>, sourceDate: string, targetDate: string)

  // CSV export and import

  const ExportHeader: seq<string> := ["日期", "課堂", "學員姓名", "出席狀態", "記錄時間"]

  const PresentLabel: string := "出席"
  const AbsentLabel: string := "缺席"

  /** The label written for a status: `出席` for present, `缺席` for anything else. */
  function StatusLabel(status: string): string {
    if status == "present" then PresentLabel else AbsentLabel
  }

  /** The status read from a label: present for `出席`, absent for anything else. */
  function LabelStatus(shown: Option<string>): (status: string)
    ensures Q.ValidStatus(status)
  {
    if shown == Some(PresentLabel) then "present" else "absent"
  }

  /** A status label reads back as the status it was written for, any status
      other than `present` as `absent`. */
  lemma LabelRoundTrip(status: string)
    ensures LabelStatus(Some(StatusLabel(status))) == if status == "present" then "present" else "absent"
  {
    assert PresentLabel != AbsentLabel by {
      assert PresentLabel[0] != AbsentLabel[0];
    }
  }

  function IdEntry(s: Student): D.Entry<Student> {
    D.Entry(s.id, s)
  }

  function IdOf(s: Student): string {
    s.id
  }

  /** The records `exportAttendanceToCSV(startDate, endDate, classId)` writes:
      those within the bounds (an empty bound does not filter) and, when a
      class is given, of an active student of that class. */
  function ExportRecords(students: seq<Student>, ledger: D.Dict<string>, startDate: string, endDate: string, classId: string)
    : (r: seq<AttendanceRecord>)
    ensures forall x :: x in r <==> (x in Store.AttendanceRecords(ledger) && Store.InRange(x.date, startDate, endDate)
      && (classId != "" ==> x.studentId in Seqs.Map(Store.StudentsOf(students, classId, "active"), IdOf)))
  {
    var inRange := Seqs.Filter(Store.AttendanceRecords(ledger), (x: AttendanceRecord) => Store.InRange(x.date, startDate, endDate));
    if classId != "" then
      var ids := Seqs.Map(Store.StudentsOf(students, classId, "active"), IdOf);
      Seqs.Filter(inRange, (x: AttendanceRecord) => x.studentId in ids)
    else inRange
  }

  /** The active students by id, as `new Map(students.map(s => [s.id, s]))`. */
  function ActiveById(students: seq<Student>): D.Dict<Student> {
    D.FromEntries(Seqs.Map(Store.StudentsOf(students, "", "active"), IdEntry))
  }

  /** One exported line: date, class name, student name, status label and the
      time stamp; a record whose student is not an active student gets the
      placeholders `未知課堂` and `未知學員`. */
  function ExportLine(defs: D.Dict<ClassRecord>, byId: D.Dict<Student>, stampText: string, x: AttendanceRecord)
    : (row: seq<string>)
    ensures |row| == 5 && row[0] == x.date && row[3] == StatusLabel(x.status) && row[4] == stampText
    ensures D.Get(byId, x.studentId).Some? ==> row[2] == D.Get(byId, x.studentId).value.name
  {
    match D.Get(byId, x.studentId)
    case Some(s) => [x.date, Store.ClassName(defs, s.classRef), s.name, StatusLabel(x.status), stampText]
    case None => [x.date, "未知課堂", "未知學員", StatusLabel(x.status), stampText]
  }

  function ExportRow(defs: D.Dict<ClassRecord>, byId: D.Dict<Student>, stampText: string): AttendanceRecord -> seq<string> {
    (x: AttendanceRecord) => ExportLine(defs, byId, stampText, x)
  }

  /** The data lines of the export, one per exported record. `stampText` is
      the locale rendering of the record's `createdAt`, which is the time of
      the call. */
  function ExportRows(students: seq<Student>, defs: D.Dict<ClassRecord>, ledger: D.Dict<string>,
                      startDate: string, endDate: string, classId: string, stampText: string): seq<seq<string>> {
    Seqs.Map(ExportRecords(students, ledger, startDate, endDate, classId), ExportRow(defs, ActiveById(students), stampText))
  }

  /** `exportAttendanceToCSV(startDate, endDate, classId)`: the header and the
      rows, every field in double quotes, lines joined by `\n`. */
  function ExportAttendanceCSV(students: seq<Student>, defs: D.Dict<ClassRecord>, ledger: D.Dict<string>,
                               startDate: string, endDate: string, classId: string, stampText: string): string {
    Csv.Encode([ExportHeader] + ExportRows(students, defs, ledger, startDate, endDate, classId, stampText))
  }

  /** The header's own fields are plain. */
  lemma HeaderPlain()
    ensures forall i :: 0 <= i < |ExportHeader| ==> Csv.PlainField(ExportHeader[i])
  {
    forall i | 0 <= i < |ExportHeader|
      ensures Csv.PlainField(ExportHeader[i])
    {
      var f := ExportHeader[i];
      assert |f| == 2 || |f| == 4;
      assert f[0] != ' ' && f[|f| - 1] != ' ';
    }
  }

  /** Rows of plain fields under the header are all rows of plain fields. */
  lemma {:induction false} PlainRows(rows: seq<seq<string>>)
    requires forall j, f :: 0 <= j < |rows| && f in rows[j] ==> Csv.PlainField(f)
    requires forall j :: 0 <= j < |rows| ==> |rows[j]| >= 1
    ensures var all := [ExportHeader] + rows;
      (forall k :: 0 <= k < |all| ==> |all[k]| >= 1)
      && forall k, i :: 0 <= k < |all| && 0 <= i < |all[k]| ==> Csv.PlainField(all[k][i])
  {
    var all := [ExportHeader] + rows;
    HeaderPlain();
    forall k, i | 0 <= k < |all| && 0 <= i < |all[k]|
      ensures Csv.PlainField(all[k][i])
    {
      if k > 0 {
        assert all[k] == rows[k - 1];
        assert all[k][i] in rows[k - 1];
      }
    }
  }

  /** A file of plain rows under the export header reads back line by line. */
  lemma {:induction false} HeaderedReadsBack(rows: seq<seq<string>>)
    requires forall j, f :: 0 <= j < |rows| && f in rows[j] ==> Csv.PlainField(f)
    requires forall j :: 0 <= j < |rows| ==> |rows[j]| >= 1
    ensures var lines := Text.Split(Csv.Encode([ExportHeader] + rows), '\n');
      |lines| == |rows| + 1 && Csv.DecodeRow(lines[0]) == ExportHeader
      && (forall j :: 0 <= j < |rows| ==> Csv.DecodeRow(lines[j + 1]) == rows[j])
  {
    var all := [ExportHeader] + rows;
    PlainRows(rows);
    Csv.DecodeEncodeFile(all);
    assert all[0] == ExportHeader;
    assert forall j :: 0 <= j < |rows| ==> all[j + 1] == rows[j];
  }

  /** One exported line that reads back as its row shows its record's status. */
  lemma LineReadsBack(records: seq<AttendanceRecord>, defs: D.Dict<ClassRecord>, byId: D.Dict<Student>,
                      stampText: string, lines: seq<string>, j: nat)
    requires j < |records| && |lines| == |records| + 1
    requires Csv.DecodeRow(lines[j + 1]) == Seqs.Map(records, ExportRow(defs, byId, stampText))[j]
    ensures LabelStatus(Field(Csv.DecodeRow(lines[j + 1]), 3)) == "present" <==> records[j].status == "present"
  {
    var row := ExportLine(defs, byId, stampText, records[j]);
    assert Seqs.Map(records, ExportRow(defs, byId, stampText))[j] == row;
    LabelRoundTrip(records[j].status);
  }

  /** The export of given records reads back as its header and its rows, and
      every status label as the status it was written for. */
  lemma {:induction false} LinesReadBack(records: seq<AttendanceRecord>, defs: D.Dict<ClassRecord>,
                                         byId: D.Dict<Student>, stampText: string)
    requires var rows := Seqs.Map(records, ExportRow(defs, byId, stampText));
      forall j, f :: 0 <= j < |rows| && f in rows[j] ==> Csv.PlainField(f)
    ensures var rows := Seqs.Map(records, ExportRow(defs, byId, stampText));
      var lines := Text.Split(Csv.Encode([ExportHeader] + rows), '\n');
      |lines| == |records| + 1 && Csv.DecodeRow(lines[0]) == ExportHeader
      && (forall j :: 0 <= j < |records| ==> Csv.DecodeRow(lines[j + 1]) == rows[j])
      && (forall j :: 0 <= j < |records| ==>
            (LabelStatus(Field(Csv.DecodeRow(lines[j + 1]), 3)) == "present" <==> records[j].status == "present"))
  {
    var rows := Seqs.Map(records, ExportRow(defs, byId, stampText));
    HeaderedReadsBack(rows);
    var lines := Text.Split(Csv.Encode([ExportHeader] + rows), '\n');
    forall j | 0 <= j < |records|
      ensures LabelStatus(Field(Csv.DecodeRow(lines[j + 1]), 3)) == "present" <==> records[j].status == "present"
    {
      LineReadsBack(records, defs, byId, stampText, lines, j);
    }
  }

  /** When no field carries a separator, a quote, a line break or white space
      at either end, the export reads back line by line as the header and
      then the rows, and every status label reads back as the status it was
      written for: `present` exactly for the records marked present. */
  lemma ExportReadsBack(students: seq<Student>, defs: D.Dict<ClassRecord>, ledger: D.Dict<string>,
                        startDate: string, endDate: string, classId: string, stampText: string)
    requires var rows := ExportRows(students, defs, ledger, startDate, endDate, classId, stampText);
      forall j, f :: 0 <= j < |rows| && f in rows[j] ==> Csv.PlainField(f)
    ensures var rows := ExportRows(students, defs, ledger, startDate, endDate, classId, stampText);
      var records := ExportRecords(students, ledger, startDate, endDate, classId);
      var lines := Text.Split(ExportAttendanceCSV(students, defs, ledger, startDate, endDate, classId, stampText), '\n');
      |lines| == |rows| + 1 && Csv.DecodeRow(lines[0]) == ExportHeader
      && (forall j :: 0 <= j < |rows| ==> Csv.DecodeRow(lines[j + 1]) == rows[j])
      && (forall j :: 0 <= j < |records| ==>
            (LabelStatus(Field(Csv.DecodeRow(lines[j + 1]), 3)) == "present" <==> records[j].status == "present"))
  {
    var records := ExportRecords(students, ledger, startDate, endDate, classId);
    var byId := ActiveById(students);
    var rows := Seqs.Map(records, ExportRow(defs, byId, stampText));
    assert ExportRows(students, defs, ledger, startDate, endDate, classId, stampText) == rows;
    assert ExportAttendanceCSV(students, defs, ledger, startDate, endDate, classId, stampText)
        == Csv.Encode([ExportHeader] + rows);
    LinesReadBack(records, defs, byId, stampText);
  }

  /** What one import line asks for. */
  datatype Imported = Imported(studentId: string, classId: string, date: string, status: string)

  /** `values[i]`, `None` standing for `undefined` past the end. */
  function Field(values: seq<string>, i: nat): Option<string> {
    if i < |values| then Some(values[i]) else None
  }

  /** How `${value}` shows a field: `undefined` when it is missing. */
  function Shown(v: Option<string>): string {
    v.GetOr("undefined")
  }

  function NameEntry(s: Student): D.Entry<string> {
    D.Entry(s.name, s.id)
  }

  function ClassNameEntry(c: ClassRecord): D.Entry<string> {
    D.Entry(c.name, c.id)
  }

  /** `map.get(key)` with a possibly missing key: nothing is stored under `undefined`. */
  function Lookup(d: D.Dict<string>, key: Option<string>): Option<string> {
    if key.Some? then D.Get(d, key.value) else None
  }

  /** One line of `importAttendanceFromCSV`: a blank line is skipped; otherwise
      the class, then the student, then the date are checked, in that order,
      each refusal naming what it could not find; the status is present for
      `出席` and absent for any other text. Names resolve through maps built
      from the class list and the active students, so the last of several
      with one name wins. */
  function ImportLine(line: string, classes: seq<ClassRecord>, active: seq<Student>, validDate: string -> bool)
    : (r: Option<Result<Imported, AttendanceError>>)
    ensures r.None? <==> Text.IsBlank(line)
    ensures r.Some? && r.value.Ok? ==> (Q.ValidStatus(r.value.value.status) && r.value.value.classId != ""
      && r.value.value.studentId != "" && r.value.value.date != "" && validDate(r.value.value.date))
  {
    if Text.IsBlank(line) then None
    else
      var values := Csv.DecodeRow(line);
      var date := values[0];
      var className := Field(values, 1);
      var studentName := Field(values, 2);
      var classId := Lookup(D.FromEntries(Seqs.Map(classes, ClassNameEntry)), className);
      var studentId := Lookup(D.FromEntries(Seqs.Map(active, NameEntry)), studentName);
      var status := LabelStatus(Field(values, 3));
      if classId.None? || classId.value == "" then Some(Err(UnknownClass(Shown(className))))
      else if studentId.None? || studentId.value == "" then Some(Err(UnknownStudent(Shown(studentName))))
      else if date == "" || !validDate(date) then Some(Err(BadDate(date)))
      else Some(Ok(Imported(studentId.value, classId.value, date, status)))
  }

  /** An import error with its line number, counted from 1. */
  datatype RowError = RowError(line: nat, error: AttendanceError)

  /** The imports and errors of lines `1..n-1` of the file, in order. */
  datatype ImportTally = ImportTally(imported: seq<Imported>, errors: seq<RowError>)

  /** What reading one line gives: nothing for a blank line, else an import
      or a refusal. */
  type LineOutcome = Option<Result<Imported, AttendanceError>>

  /** How one line is read: `ImportLine` against a fixed class list, student
      list and date check. */
  function LineReader(classes: seq<ClassRecord>, active: seq<Student>, validDate: string -> bool): string -> LineOutcome {
    (line: string) => ImportLine(line, classes, active, validDate)
  }

  /** Every line of the file, read. */
  function ReadLines(lines: seq<string>, classes: seq<ClassRecord>, active: seq<Student>, validDate: string -> bool)
    : (r: seq<LineOutcome>)
    ensures |r| == |lines|
    ensures forall i :: 0 <= i < |lines| ==> r[i] == ImportLine(lines[i], classes, active, validDate)
  {
    Seqs.Map(lines, LineReader(classes, active, validDate))
  }

  /** The loop of `importAttendanceFromCSV` over the outcomes of lines
      `1..n-1`: skipped lines add nothing, an import is kept, and a refusal
      is reported with the line's number counted from 1. */
  function ImportPlan(outcomes: seq<LineOutcome>, n: nat): (t: ImportTally)
    requires n <= |outcomes|
    ensures |t.imported| + |t.errors| <= if n == 0 then 0 else n - 1
    ensures forall e :: e in t.errors ==> 2 <= e.line <= n && outcomes[e.line - 1] == Some(Err(e.error))
    ensures forall x :: x in t.imported ==> exists i :: 1 <= i < n && outcomes[i] == Some(Ok(x))
  {
    if n <= 1 then ImportTally([], [])
    else
      var before := ImportPlan(outcomes, n - 1);
      match outcomes[n - 1]
      case None => before
      case Some(Ok(x)) => ImportTally(before.imported + [x], before.errors)
      case Some(Err(e)) => ImportTally(before.imported, before.errors + [RowError(n, e)])
  }

  /** One more line extends the plan by what it reads as. */
  lemma ImportPlanStep(outcomes: seq<LineOutcome>, i: nat)
    requires 1 <= i < |outcomes|
    ensures var before := ImportPlan(outcomes, i);
      ImportPlan(outcomes, i + 1) == match outcomes[i]
        case None => before
        case Some(Ok(x)) => ImportTally(before.imported + [x], before.errors)
        case Some(Err(e)) => ImportTally(before.imported, before.errors + [RowError(i + 1, e)])
  {
  }

  /** Every import is a valid status for a found class and student on a date
      that passed the date check. */
  lemma ImportedAreValid(lines: seq<string>, classes: seq<ClassRecord>, active: seq<Student>, validDate: string -> bool,
                         outcomes: seq<LineOutcome>, x: Imported)
    requires outcomes == ReadLines(lines, classes, active, validDate)
    requires x in ImportPlan(outcomes, |outcomes|).imported
    ensures Q.ValidStatus(x.status) && x.classId != "" && x.studentId != "" && x.date != "" && validDate(x.date)
  {
    var i :| 1 <= i < |lines| && outcomes[i] == Some(Ok(x));
    ReadImportValid(lines, classes, active, validDate, x, i);
  }

  lemma ReadImportValid(lines: seq<string>, classes: seq<ClassRecord>, active: seq<Student>, validDate: string -> bool,
                        x: Imported, i: nat)
    requires i < |lines| && ReadLines(lines, classes, active, validDate)[i] == Some(Ok(x))
    ensures Q.ValidStatus(x.status) && x.classId != "" && x.studentId != "" && x.date != "" && validDate(x.date)
  {
    assert ImportLine(lines[i], classes, active, validDate) == Some(Ok(x));
  }

  /** The ledger after setting each imported line in turn. */
  function ApplyImports(ledger: D.Dict<string>, imported: seq<Imported>): (r: D.Dict<string>)
    ensures D.WellFormed(ledger) ==> D.WellFormed(r)
  {
    if imported == [] then ledger
    else
      var x := imported[|imported| - 1];
      var before := ApplyImports(ledger, imported[..|imported| - 1]);
      assert D.WellFormed(ledger) ==> D.WellFormed(D.Put(before, AttendanceKey(x.studentId, x.date), x.status)) by {
        if D.WellFormed(ledger) { D.PutWellFormed(before, AttendanceKey(x.studentId, x.date), x.status); }
      }
      D.Put(before, AttendanceKey(x.studentId, x.date), x.status)
  }

  function ImportMark(x: Imported): Mark {
    Mark(x.studentId, x.status)
  }

  function Read(outcome: LineOutcome): bool {
    outcome.Some?
  }

  /** Every line after the first that reads as something (by `ImportLine`,
      every line that is not blank) is either imported or reported. */
  lemma {:induction false} ImportPlanAccounts(outcomes: seq<LineOutcome>, n: nat)
    requires 1 <= n <= |outcomes|
    ensures var t := ImportPlan(outcomes, n);
      |t.imported| + |t.errors| == Seqs.Count(outcomes[1..n], Read)
  {
    if n > 1 {
      ImportPlanAccounts(outcomes, n - 1);
      assert outcomes[1..n] == outcomes[1..n - 1] + [outcomes[n - 1]];
      Seqs.CountAppend(outcomes[1..n - 1], [outcomes[n - 1]], Read);
      Seqs.CountCons([outcomes[n - 1]], Read);
    }
  }

  /** One more imported line sets its student's key on its own date. */
  lemma ApplyImportsSnoc(ledger: D.Dict<string>, imported: seq<Imported>, x: Imported)
    ensures ApplyImports(ledger, imported + [x])
      == D.Put(ApplyImports(ledger, imported), AttendanceKey(x.studentId, x.date), x.status)
  {
    assert (imported + [x])[..|imported|] == imported;
  }

  /** Setting one valid mark on a date puts its key. */
  lemma ApplyOneMark(ledger: D.Dict<string>, m: Mark, date: string)
    requires Q.ValidStatus(m.status)
    ensures ApplyMarks(ledger, [m], date) == D.Put(ledger, AttendanceKey(m.studentId, date), m.status)
  {
    assert [m][..0] == [];
  }

  /** Noting one more mark after some notes it last. */
  lemma NoteMarksSnoc(current: D.Dict<string>, marks: seq<Mark>, m: Mark)
    ensures NoteMarks(current, marks + [m]) == NoteMarks(NoteMarks(current, marks), [m])
  {
    assert (marks + [m])[..|marks|] == marks;
    assert [m][..0] == [];
  }

  /** The line written for a record of a student whose id and name no other
      active student shares reads back as that student's id, the record's
      date and its status. */
  lemma {:induction false} ImportReadsExportLine(active: seq<Student>, defs: D.Dict<ClassRecord>, stampText: string,
                                                 x: AttendanceRecord, values: seq<string>, k: nat)
    requires k < |active| && active[k].id == x.studentId
    requires forall i :: 0 <= i < |active| && i != k ==> active[i].id != active[k].id && active[i].name != active[k].name
    requires values == ExportLine(defs, D.FromEntries(Seqs.Map(active, IdEntry)), stampText, x)
    ensures Lookup(D.FromEntries(Seqs.Map(active, NameEntry)), Field(values, 2)) == Some(x.studentId)
    ensures values[0] == x.date
    ensures LabelStatus(Field(values, 3)) == "present" <==> x.status == "present"
  {
    ActiveByIdFinds(active, k);
    var namePairs := Seqs.Map(active, NameEntry);
    D.LastValueUnique(namePairs, k);
    D.FromEntriesLastWins(namePairs, active[k].name);
    LabelRoundTrip(x.status);
  }

  /** Every exported line of an active student whose id and name no other
      active student shares names that student, and an import finds the
      student's id by that name, whichever records are exported. */
  lemma ImportFindsExportedStudent(students: seq<Student>, defs: D.Dict<ClassRecord>, records: seq<AttendanceRecord>,
                                   stampText: string, j: nat, k: nat)
    requires var rows := Seqs.Map(records, ExportRow(defs, ActiveById(students), stampText));
      forall j, f :: 0 <= j < |rows| && f in rows[j] ==> Csv.PlainField(f)
    requires j < |records|
    requires var active := Store.StudentsOf(students, "", "active");
      k < |active| && active[k].id == records[j].studentId
      && (forall i :: 0 <= i < |active| && i != k ==> active[i].id != active[k].id && active[i].name != active[k].name)
    ensures var rows := Seqs.Map(records, ExportRow(defs, ActiveById(students), stampText));
      var lines := Text.Split(Csv.Encode([ExportHeader] + rows), '\n');
      j + 1 < |lines|
    ensures var rows := Seqs.Map(records, ExportRow(defs, ActiveById(students), stampText));
      var lines := Text.Split(Csv.Encode([ExportHeader] + rows), '\n');
      Lookup(D.FromEntries(Seqs.Map(Store.StudentsOf(students, "", "active"), NameEntry)), Field(Csv.DecodeRow(lines[j + 1]), 2))
        == Some(records[j].studentId)
  {
    var rows := Seqs.Map(records, ExportRow(defs, ActiveById(students), stampText));
    HeaderedReadsBack(rows);
    var lines := Text.Split(Csv.Encode([ExportHeader] + rows), '\n');
    assert Csv.DecodeRow(lines[j + 1]) == rows[j];
    assert rows[j] == ExportLine(defs, ActiveById(students), stampText, records[j]);
    ImportReadsExportLine(Store.StudentsOf(students, "", "active"), defs, stampText, records[j], rows[j], k);
  }

  /** A student whose id no other student shares is found by id. */
  lemma {:induction false} ActiveByIdFinds(active: seq<Student>, k: nat)
    requires k < |active|
    requires forall i :: 0 <= i < |active| && i != k ==> active[i].id != active[k].id
    ensures D.Get(D.FromEntries(Seqs.Map(active, IdEntry)), active[k].id) == Some(active[k])
  {
    D.LastValueUnique(Seqs.Map(active, IdEntry), k);
    D.FromEntriesLastWins(Seqs.Map(active, IdEntry), active[k].id);
  }

  /** The manager: a `currentAttendance` map from student id to the status
      last set through it, over the store it was built with. */
  class AttendanceManager {
    var currentAttendance: D.Dict<string>
    const store: Store.DataManager

    ghost predicate Valid()
      reads this, store
    {
      store.Valid() && D.WellFormed(currentAttendance)
    }

    constructor (dataManager: Store.DataManager)
      requires dataManager.Valid()
      ensures Valid()
      ensures store == dataManager && currentAttendance == []
    {
      store := dataManager;
      currentAttendance := [];
    }

    /** `setAttendanceStatus(studentId, classId, date, status)`: a status other
        than `present` or `absent` is refused with nothing changed; otherwise
        the status is noted for the student and marked in the store. */
    method SetAttendanceStatus(studentId: string, classId: string, date: string, status: string)
      returns (r: Result<bool, AttendanceError>)
      modifies this, store
      requires Valid()
      ensures Valid()
      ensures r == if Q.ValidStatus(status) then Ok(true) else Err(InvalidStatus)
      ensures currentAttendance == NoteMarks(old(currentAttendance), [Mark(studentId, status)])
      ensures store.attendance == ApplyMarks(old(store.attendance), [Mark(studentId, status)], date)
      ensures store.students == old(store.students) && store.classSchedule == old(store.classSchedule)
      ensures store.classDefinitions == old(store.classDefinitions)
    {
      assert [Mark(studentId, status)][..0] == [];
      if !Q.ValidStatus(status) {
        r := Err(InvalidStatus);
        return;
      }
      D.PutWellFormed(currentAttendance, studentId, status);
      currentAttendance := D.Put(currentAttendance, studentId, status);
      var ok := store.SetAttendanceStatus(studentId, classId, date, status);
      r := Ok(ok);
    }

    /** The `forEach` shared by `setBatchAttendanceStatus` and
        `copyLastAttendance`: each mark goes through `setAttendanceStatus`,
        a refusal is counted and logged and the loop goes on. */
    method MarkAll(marks: seq<Mark>, classId: string, date: string) returns (res: BatchResult)
      modifies this, store
      requires Valid()
      ensures Valid()
      ensures res == Batch(marks)
      ensures currentAttendance == NoteMarks(old(currentAttendance), marks)
      ensures store.attendance == ApplyMarks(old(store.attendance), marks, date)
      ensures store.students == old(store.students) && store.classSchedule == old(store.classSchedule)
      ensures store.classDefinitions == old(store.classDefinitions)
    {
      var success, failed, errors := 0, 0, [];
      var i := 0;
      while i < |marks|
        invariant 0 <= i <= |marks|
        invariant Valid()
        invariant BatchResult(success, failed, errors) == Batch(marks[..i])
        invariant currentAttendance == NoteMarks(old(currentAttendance), marks[..i])
        invariant store.attendance == ApplyMarks(old(store.attendance), marks[..i], date)
        invariant store.students == old(store.students) && store.classSchedule == old(store.classSchedule)
        invariant store.classDefinitions == old(store.classDefinitions)
      {
        var m := marks[i];
        assert marks[..i + 1][..i] == marks[..i];
        var r := SetAttendanceStatus(m.studentId, classId, date, m.status);
        if r.Ok? {
          success := success + 1;
        } else {
          failed := failed + 1;
          errors := errors + [MarkFailure(m.studentId, r.error)];
        }
        i := i + 1;
      }
      assert marks[..i] == marks;
      res := BatchResult(success, failed, errors);
    }

    /** `setBatchAttendanceStatus(studentIds, classId, date, status)`: every
        listed student is set to the one status (see `BatchUniform` and
        `BatchMarksEveryone`). */
    method SetBatchAttendanceStatus(studentIds: seq<string>, classId: string, date: string, status: string)
      returns (res: BatchResult)
      modifies this, store
      requires Valid()
      ensures Valid()
      ensures res == Batch(Uniform(studentIds, status))
      ensures store.attendance == ApplyMarks(old(store.attendance), Uniform(studentIds, status), date)
      ensures currentAttendance == NoteMarks(old(currentAttendance), Uniform(studentIds, status))
      ensures store.students == old(store.students) && store.classSchedule == old(store.classSchedule)
      ensures store.classDefinitions == old(store.classDefinitions)
    {
      res := MarkAll(Uniform(studentIds, status), classId, date);
    }

    /** `copyLastAttendance(classId, targetDate)`: refused when the class has
        no earlier record; otherwise the records of the latest earlier date
        are replayed on the target date (see `CopyCarriesStatuses`). */
    method CopyLastAttendance(classId: string, targetDate: string) returns (r: Result<CopyResult, AttendanceError>)
      modifies this, store
      requires Valid()
      ensures Valid()
      ensures var sources := CopySources(old(store.students), old(store.attendance), classId, targetDate);
        if sources == [] then
          r == Err(NothingToCopy) && store.attendance == old(store.attendance)
          && currentAttendance == old(currentAttendance)
        else
          var batch := Batch(CopyPlan(sources));
          r == Ok(CopyResult(batch.success, batch.failed, batch.errors, LatestDate(sources), targetDate))
          && store.attendance == ApplyMarks(old(store.attendance), CopyPlan(sources), targetDate)
          && currentAttendance == NoteMarks(old(currentAttendance), CopyPlan(sources))
      ensures store.students == old(store.students) && store.classSchedule == old(store.classSchedule)
      ensures store.classDefinitions == old(store.classDefinitions)
    {
      var sources := CopySources(store.students, store.attendance, classId, targetDate);
      if sources == [] {
        r := Err(NothingToCopy);
        return;
      }
      var last := LatestDate(sources);
      var batch := MarkAll(CopyPlan(sources), classId, targetDate);
      r := Ok(CopyResult(batch.success, batch.failed, batch.errors, last, targetDate));
    }

    /** `importAttendanceFromCSV(csvContent)`: every line after the header
        that is not blank is either set in the store as an import or reported
        with its line number, as `ImportPlan` lays out; names resolve through
        the class list and the active students, both taken before the loop;
        `total` counts the lines after the header, blank ones included. */
    method ImportAttendanceFromCSV(csv: string, validDate: string -> bool, now: string)
      returns (success: nat, errors: seq<RowError>, total: int)
      modifies this, store
      requires Valid()
      ensures Valid()
      ensures var lines := Text.Split(csv, '\n');
        var t := ImportPlan(ReadLines(lines, Store.ClassList(old(store.classDefinitions), now),
                                      Store.StudentsOf(old(store.students), "", "active"), validDate), |lines|);
        success == |t.imported| && errors == t.errors && total == |lines| - 1
        && store.attendance == ApplyImports(old(store.attendance), t.imported)
        && currentAttendance == NoteMarks(old(currentAttendance), Seqs.Map(t.imported, ImportMark))
      ensures store.students == old(store.students) && store.classSchedule == old(store.classSchedule)
      ensures store.classDefinitions == old(store.classDefinitions)
    {
      var lines := Text.Split(csv, '\n');
      var classes := Store.ClassList(store.classDefinitions, now);
      var active := Store.StudentsOf(store.students, "", "active");
      var imported;
      imported, errors := ApplyOutcomes(ReadLines(lines, classes, active, validDate));
      success := |imported|;
      total := |lines| - 1;
    }

    /** One imported line: its status is set, after the imports before it. */
    method ImportOne(ghost ledger: D.Dict<string>, ghost current: D.Dict<string>, ghost imported: seq<Imported>, x: Imported)
      modifies this, store
      requires Valid() && Q.ValidStatus(x.status)
      requires store.attendance == ApplyImports(ledger, imported)
      requires currentAttendance == NoteMarks(current, Seqs.Map(imported, ImportMark))
      ensures Valid()
      ensures store.attendance == ApplyImports(ledger, imported + [x])
      ensures currentAttendance == NoteMarks(current, Seqs.Map(imported + [x], ImportMark))
      ensures store.students == old(store.students) && store.classSchedule == old(store.classSchedule)
      ensures store.classDefinitions == old(store.classDefinitions)
    {
      var r := SetAttendanceStatus(x.studentId, x.classId, x.date, x.status);
      ApplyOneMark(ApplyImports(ledger, imported), ImportMark(x), x.date);
      ApplyImportsSnoc(ledger, imported, x);
      NoteMarksSnoc(current, Seqs.Map(imported, ImportMark), ImportMark(x));
      assert Seqs.Map(imported + [x], ImportMark) == Seqs.Map(imported, ImportMark) + [ImportMark(x)];
    }

    /** The loop of `importAttendanceFromCSV` over lines already read: each
        import is set in the store and each refusal reported. Reading a line
        depends only on the class and student lists taken before the loop,
        which setting a status leaves alone, so the lines may be read first. */
    method ApplyOutcomes(outcomes: seq<LineOutcome>) returns (imported: seq<Imported>, errors: seq<RowError>)
      modifies this, store
      requires Valid() && |outcomes| >= 1
      requires forall i :: 0 <= i < |outcomes| && outcomes[i].Some? && outcomes[i].value.Ok? ==>
        Q.ValidStatus(outcomes[i].value.value.status)
      ensures Valid()
      ensures ImportTally(imported, errors) == ImportPlan(outcomes, |outcomes|)
      ensures store.attendance == ApplyImports(old(store.attendance), imported)
      ensures currentAttendance == NoteMarks(old(currentAttendance), Seqs.Map(imported, ImportMark))
      ensures store.students == old(store.students) && store.classSchedule == old(store.classSchedule)
      ensures store.classDefinitions == old(store.classDefinitions)
    {
      imported, errors := [], [];
      ghost var ledger := store.attendance;
      ghost var current := currentAttendance;
      ghost var students, schedule, defs := store.students, store.classSchedule, store.classDefinitions;
      var i := 1;
      while i < |outcomes|
        invariant 1 <= i <= |outcomes|
        invariant Valid()
        invariant ImportTally(imported, errors) == ImportPlan(outcomes, i)
        invariant store.attendance == ApplyImports(ledger, imported)
        invariant currentAttendance == NoteMarks(current, Seqs.Map(imported, ImportMark))
        invariant store.students == students && store.classSchedule == schedule
        invariant store.classDefinitions == defs
      {
        imported, errors := ApplyOutcome(ledger, current, outcomes, i, imported, errors);
        i := i + 1;
      }
    }

    /** One turn of that loop: line `i` adds its import or its numbered error. */
    method ApplyOutcome(ghost ledger: D.Dict<string>, ghost current: D.Dict<string>, outcomes: seq<LineOutcome>, i: nat,
                        imported: seq<Imported>, errors: seq<RowError>)
      returns (imported': seq<Imported>, errors': seq<RowError>)
      modifies this, store
      requires Valid() && 1 <= i < |outcomes|
      requires outcomes[i].Some? && outcomes[i].value.Ok? ==> Q.ValidStatus(outcomes[i].value.value.status)
      requires ImportTally(imported, errors) == ImportPlan(outcomes, i)
      requires store.attendance == ApplyImports(ledger, imported)
      requires currentAttendance == NoteMarks(current, Seqs.Map(imported, ImportMark))
      ensures Valid()
      ensures ImportTally(imported', errors') == ImportPlan(outcomes, i + 1)
      ensures store.attendance == ApplyImports(ledger, imported')
      ensures currentAttendance == NoteMarks(current, Seqs.Map(imported', ImportMark))
      ensures store.students == old(store.students) && store.classSchedule == old(store.classSchedule)
      ensures store.classDefinitions == old(store.classDefinitions)
    {
      ImportPlanStep(outcomes, i);
      imported', errors' := imported, errors;
      match outcomes[i] {
        case None =>
        case Some(Ok(x)) =>
          ImportOne(ledger, current, imported, x);
          imported' := imported + [x];
        case Some(Err(e)) =>
          errors' := errors + [RowError(i + 1, e)];
      }
    }

    /** `clearAttendanceByDate(date, classId)`: saves back the records that
        survive and returns how many did not (see `ClearedCount` and
        `ClearByDateKeepsOthers`). */
    method ClearAttendanceByDate(date: string, classId: string) returns (deleted: int)
      modifies store
      requires Valid()
      ensures Valid()
      ensures deleted == |Store.AttendanceRecords(old(store.attendance))| - |ClearedRecords(old(store.attendance), date, classId)|
      ensures store.attendance == Store.BuildLedger(ClearedRecords(old(store.attendance), date, classId))
      ensures store.students == old(store.students) && store.classSchedule == old(store.classSchedule)
      ensures store.classDefinitions == old(store.classDefinitions)
    {
      var all := Store.AttendanceRecords(store.attendance);
      var kept := ClearedRecords(store.attendance, date, classId);
      deleted := |all| - |kept|;
      var ok := store.SaveAttendance(kept);
    }
  }
}
