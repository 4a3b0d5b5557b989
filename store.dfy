/** The `DataManager` of js/data.js: the four collections every other manager
    reads and changes, the operations that change them in place, and the
    read-side queries over them. */
module Store {
  import opened Wrappers
  import opened Entities
  import Text
  import Seqs
  import D = Dict
  import Rates

  /** The fallback names `getClassName` knows for the three built-in ids. */
  const BuiltinNames: D.Dict<string> :=
    [D.Entry("youth", "青年班"), D.Entry("children", "兒童班"), D.Entry("family", "家規班")]

  function Definition(name: string, startTime: string, endTime: string): ClassRecord {
    ClassRecord("", name, startTime, endTime, Number(6), "", "weekly", "", "")
  }

  /** The class definitions a fresh store starts with: three Saturday classes. */
  const DefaultDefinitions: D.Dict<ClassRecord> := [
    D.Entry("youth", Definition("青年班", "16:00", "17:30")),
    D.Entry("children", Definition("兒童班", "17:30", "19:00")),
    D.Entry("family", Definition("家規班", "10:00", "11:30"))]

  /** The record `addStudent` stores: a fresh id, the caller's fields spread
      over it, then today's join date and the `active` status. */
  function NewStoredStudent(data: StudentPatch, freshId: string, today: string): (s: Student)
    ensures s.id == data.id.GetOr(freshId) && s.joinDate == today && s.status == "active"
    ensures s.name == data.name.GetOr("") && s.classRef == data.classRef.GetOr("")
  {
    MergeStudent(NoStudent.(id := freshId), data).(joinDate := today, status := "active")
  }

  /** Field by field, the stored student holds what the caller's data gives,
      the fresh id or nothing where the data is silent, and always today's
      join date and the `active` status, whatever the data said. */
  lemma NewStoredStudentFields(data: StudentPatch, freshId: string, today: string)
    ensures data.id.Some? ==> NewStoredStudent(data, freshId, today).id == data.id.value
    ensures data.id.None? ==> NewStoredStudent(data, freshId, today).id == freshId
    ensures data.name.Some? ==> NewStoredStudent(data, freshId, today).name == data.name.value
    ensures data.name.None? ==> NewStoredStudent(data, freshId, today).name == ""
    ensures data.nickname.Some? ==> NewStoredStudent(data, freshId, today).nickname == data.nickname.value
    ensures data.nickname.None? ==> NewStoredStudent(data, freshId, today).nickname == ""
    ensures data.classRef.Some? ==> NewStoredStudent(data, freshId, today).classRef == data.classRef.value
    ensures data.classRef.None? ==> NewStoredStudent(data, freshId, today).classRef == ""
    ensures data.classId.Some? ==> NewStoredStudent(data, freshId, today).classId == data.classId.value
    ensures data.classId.None? ==> NewStoredStudent(data, freshId, today).classId == ""
    ensures data.className.Some? ==> NewStoredStudent(data, freshId, today).className == data.className.value
    ensures data.className.None? ==> NewStoredStudent(data, freshId, today).className == ""
    ensures data.phone.Some? ==> NewStoredStudent(data, freshId, today).phone == data.phone.value
    ensures data.phone.None? ==> NewStoredStudent(data, freshId, today).phone == ""
    ensures data.email.Some? ==> NewStoredStudent(data, freshId, today).email == data.email.value
    ensures data.email.None? ==> NewStoredStudent(data, freshId, today).email == ""
    ensures data.emergencyContactName.Some? ==> NewStoredStudent(data, freshId, today).emergencyContactName == data.emergencyContactName.value
    ensures data.emergencyContactName.None? ==> NewStoredStudent(data, freshId, today).emergencyContactName == ""
    ensures data.emergencyContactPhone.Some? ==> NewStoredStudent(data, freshId, today).emergencyContactPhone == data.emergencyContactPhone.value
    ensures data.emergencyContactPhone.None? ==> NewStoredStudent(data, freshId, today).emergencyContactPhone == ""
    ensures data.emergencyContact.Some? ==> NewStoredStudent(data, freshId, today).emergencyContact == data.emergencyContact.value
    ensures data.emergencyContact.None? ==> NewStoredStudent(data, freshId, today).emergencyContact == ""
    ensures data.emergencyPhone.Some? ==> NewStoredStudent(data, freshId, today).emergencyPhone == data.emergencyPhone.value
    ensures data.emergencyPhone.None? ==> NewStoredStudent(data, freshId, today).emergencyPhone == ""
    ensures data.notes.Some? ==> NewStoredStudent(data, freshId, today).notes == data.notes.value
    ensures data.notes.None? ==> NewStoredStudent(data, freshId, today).notes == ""
    ensures data.createdAt.Some? ==> NewStoredStudent(data, freshId, today).createdAt == data.createdAt.value
    ensures data.createdAt.None? ==> NewStoredStudent(data, freshId, today).createdAt == ""
    ensures data.updatedAt.Some? ==> NewStoredStudent(data, freshId, today).updatedAt == data.updatedAt.value
    ensures data.updatedAt.None? ==> NewStoredStudent(data, freshId, today).updatedAt == ""
    ensures NewStoredStudent(data, freshId, today).joinDate == today
    ensures NewStoredStudent(data, freshId, today).status == "active"
  {
    var blank := NoStudent.(id := freshId);
    assert blank.name == "" && blank.nickname == "" && blank.classRef == "" && blank.classId == ""
      && blank.className == "" && blank.phone == "" && blank.email == "" && blank.emergencyContactName == ""
      && blank.emergencyContactPhone == "" && blank.emergencyContact == "" && blank.emergencyPhone == ""
      && blank.notes == "" && blank.createdAt == "" && blank.updatedAt == "";
    MergeFieldwise(blank, data);
  }

  /** `students.findIndex(s => s.id === id)`, `None` for -1. */
  function FindStudent(students: seq<Student>, id: string): (r: Option<nat>)
    ensures r.None? <==> forall i :: 0 <= i < |students| ==> students[i].id != id
    ensures r.Some? ==> (r.value < |students| && students[r.value].id == id
      && forall i :: 0 <= i < r.value ==> students[i].id != id)
  {
    if students == [] then None
    else if students[0].id == id then Some(0)
    else match FindStudent(students[1..], id)
      case None => None
      case Some(i) => Some(i + 1)
  }

  /** `getStudent(id)`: the first student with that id, of any status. */
  function StudentById(students: seq<Student>, id: string): (r: Option<Student>)
    ensures r.None? <==> forall i :: 0 <= i < |students| ==> students[i].id != id
    ensures r.Some? ==> r.value in students && r.value.id == id
  {
    match FindStudent(students, id)
    case None => None
    case Some(i) => Some(students[i])
  }

  /** `getStudents(classId, status)`: the students with that status and, when a
      class id is given, in that class. An empty class id stands for `null`. */
  function StudentsOf(students: seq<Student>, classId: string, status: string): (r: seq<Student>)
    ensures forall s :: s in r <==> s in students && s.status == status && (classId != "" ==> s.classRef == classId)
    ensures |r| <= |students|
  {
    var byStatus := Seqs.Filter(students, (s: Student) => s.status == status);
    if classId != "" then Seqs.Filter(byStatus, (s: Student) => s.classRef == classId) else byStatus
  }

  /** `getClassName(id)`: the definition's name, else the built-in name, else the id itself. */
  function ClassName(defs: D.Dict<ClassRecord>, classId: string): (r: string)
    ensures (D.Get(defs, classId).Some? && D.Get(defs, classId).value.name != "") ==> r == D.Get(defs, classId).value.name
    ensures (D.Get(defs, classId).None? && D.Get(BuiltinNames, classId).None?) ==> r == classId
  {
    var defined := match D.Get(defs, classId) case Some(c) => c.name case None => "";
    if defined != "" then defined
    else match D.Get(BuiltinNames, classId)
      case Some(b) => b
      case None => classId
  }

  /** No two schedule entries share a date and a class. */
  predicate NoDuplicateMeetings(schedule: seq<ScheduleEntry>) {
    forall i, j :: 0 <= i < j < |schedule| ==>
      !(schedule[i].date == schedule[j].date && schedule[i].classId == schedule[j].classId)
  }

  predicate HasMeeting(schedule: seq<ScheduleEntry>, date: string, classId: string) {
    exists i :: 0 <= i < |schedule| && schedule[i].date == date && schedule[i].classId == classId
  }

  /** `getClassDates(classId)`: the dates of that class's meetings, sorted and
      then reversed, so latest first. */
  function ClassDates(schedule: seq<ScheduleEntry>, classId: string): (r: seq<string>)
    ensures multiset(r) == multiset(Seqs.Map(Seqs.Filter(schedule, (e: ScheduleEntry) => e.classId == classId), (e: ScheduleEntry) => e.date))
    ensures forall i, j :: 0 <= i < j < |r| ==> Text.LessEq(r[j], r[i])
  {
    var dates := Seqs.Map(Seqs.Filter(schedule, (e: ScheduleEntry) => e.classId == classId), (e: ScheduleEntry) => e.date);
    var sorted := Seqs.SortByText(dates, (d: string) => d);
    Seqs.Reverse(sorted)
  }

  /** Every returned date is a meeting date of the class and every meeting date
      of the class is returned. */
  lemma ClassDatesExact(schedule: seq<ScheduleEntry>, classId: string, d: string)
    ensures d in ClassDates(schedule, classId) <==> HasMeeting(schedule, d, classId)
  {
    var dates := Seqs.Map(Seqs.Filter(schedule, (e: ScheduleEntry) => e.classId == classId), (e: ScheduleEntry) => e.date);
    var r := ClassDates(schedule, classId);
    assert d in r <==> d in dates by {
      assert d in r <==> d in multiset(r);
      assert d in dates <==> d in multiset(dates);
    }
    if HasMeeting(schedule, d, classId) {
      MeetingDateListed(schedule, classId, d);
    }
    if d in dates {
      ListedDateMeets(schedule, classId, d);
    }
  }

  lemma MeetingDateListed(schedule: seq<ScheduleEntry>, classId: string, d: string)
    requires HasMeeting(schedule, d, classId)
    ensures d in Seqs.Map(Seqs.Filter(schedule, (e: ScheduleEntry) => e.classId == classId), (e: ScheduleEntry) => e.date)
  {
    var mine := Seqs.Filter(schedule, (e: ScheduleEntry) => e.classId == classId);
    var dates := Seqs.Map(mine, (e: ScheduleEntry) => e.date);
    var i :| 0 <= i < |schedule| && schedule[i].date == d && schedule[i].classId == classId;
    assert schedule[i] in mine;
    var j :| 0 <= j < |mine| && mine[j] == schedule[i];
    assert dates[j] == d;
  }

  lemma ListedDateMeets(schedule: seq<ScheduleEntry>, classId: string, d: string)
    requires d in Seqs.Map(Seqs.Filter(schedule, (e: ScheduleEntry) => e.classId == classId), (e: ScheduleEntry) => e.date)
    ensures HasMeeting(schedule, d, classId)
  {
    var mine := Seqs.Filter(schedule, (e: ScheduleEntry) => e.classId == classId);
    var dates := Seqs.Map(mine, (e: ScheduleEntry) => e.date);
    var j :| 0 <= j < |dates| && dates[j] == d;
    assert mine[j] in schedule && mine[j].classId == classId;
    var i :| 0 <= i < |schedule| && schedule[i] == mine[j];
    assert schedule[i].date == d;
  }

  /** `getAttendance(studentId, date)` as written at js/data.js:205: the stored
      status, or `unmarked` when the key is missing or its status is empty.
      The class's second `getAttendance` hides this one from every caller. */
  function LookupAttendance(attendance: D.Dict<string>, studentId: string, date: string): (r: string)
    ensures r == "unmarked" || D.Get(attendance, AttendanceKey(studentId, date)) == Some(r)
    ensures D.Get(attendance, AttendanceKey(studentId, date)).None? ==> r == "unmarked"
  {
    match D.Get(attendance, AttendanceKey(studentId, date))
    case Some(v) => if v != "" then v else "unmarked"
    case None => "unmarked"
  }

  /** The record `getAttendance()` makes of one ledger entry: date and
      student id are the key's first two `_` pieces. */
  function RecordOf(e: D.Entry<string>): AttendanceRecord {
    AttendanceRecord(e.key, KeyStudent(e.key), KeyDate(e.key), e.value)
  }

  /** `getAttendance()` as it takes effect: one record per ledger key, in key order. */
  function AttendanceRecords(attendance: D.Dict<string>): (r: seq<AttendanceRecord>)
    ensures |r| == |attendance|
    ensures forall i :: 0 <= i < |r| ==> (r[i].id == attendance[i].key && r[i].status == attendance[i].value
      && r[i].date == KeyDate(attendance[i].key) && r[i].studentId == KeyStudent(attendance[i].key))
  {
    Seqs.Map(attendance, RecordOf)
  }

  /** A record built from a key made by `markAttendance` carries that student
      and date, when neither contains an underscore. */
  lemma RecordOfMarkedKey(attendance: D.Dict<string>, i: nat, studentId: string, date: string)
    requires i < |attendance| && attendance[i].key == AttendanceKey(studentId, date)
    requires '_' !in studentId && '_' !in date
    ensures AttendanceRecords(attendance)[i].studentId == studentId
    ensures AttendanceRecords(attendance)[i].date == date
  {
    KeyRoundTrip(studentId, date);
  }

  /** What a `this.getAttendance(s.id, date)` call evaluates to: a status string
      for the definition the author meant, the record array for the one that
      takes effect. */
  datatype LookupValue = StatusText(s: string) | RecordArray(records: seq<AttendanceRecord>)

  /** The effective `getAttendance(studentId, date)`: the arguments are ignored. */
  function EffectiveLookup(attendance: D.Dict<string>, studentId: string, date: string): (r: LookupValue)
    ensures r.RecordArray?
  {
    RecordArray(AttendanceRecords(attendance))
  }

  datatype DayStats = DayStats(total: nat, present: nat, absent: nat, rate: nat)

  /** `getAttendanceStats(classId, date)` as written: the class's active
      students, and how many of them the lookup reports present or absent. */
  function EffectiveAttendanceStats(students: seq<Student>, attendance: D.Dict<string>, classId: string, date: string): (r: DayStats)
    ensures r.total == |StudentsOf(students, classId, "active")|
  {
    var cs := StudentsOf(students, classId, "active");
    var present := Seqs.Count(cs, LookupReports(attendance, date, "present"));
    var absent := Seqs.Count(cs, LookupReports(attendance, date, "absent"));
    DayStats(|cs|, present, absent, Rates.Rate(present, |cs|))
  }

  /** The test `getAttendanceStats` applies to each student: does the
      effective lookup give that status? */
  function LookupReports(attendance: D.Dict<string>, date: string, status: string): Student -> bool {
    (s: Student) => EffectiveLookup(attendance, s.id, date) == StatusText(status)
  }

  /** Because the lookup returns an array, no student is ever counted: the
      statistics report nobody present and nobody absent whatever is marked. */
  lemma EffectiveStatsAlwaysZero(students: seq<Student>, attendance: D.Dict<string>, classId: string, date: string)
    ensures EffectiveAttendanceStats(students, attendance, classId, date).present == 0
    ensures EffectiveAttendanceStats(students, attendance, classId, date).absent == 0
    ensures EffectiveAttendanceStats(students, attendance, classId, date).rate == 0
  {
    var cs := StudentsOf(students, classId, "active");
    Seqs.CountNone(cs, LookupReports(attendance, date, "present"));
    Seqs.CountNone(cs, LookupReports(attendance, date, "absent"));
    Rates.RateBounds(0, |cs|);
  }

  /** `getAttendanceStats` with the lookup its author meant. */
  function AttendanceStats(students: seq<Student>, attendance: D.Dict<string>, classId: string, date: string): (r: DayStats)
    ensures r.total == |StudentsOf(students, classId, "active")|
    ensures r.present + r.absent <= r.total && r.rate <= 100
    ensures r.total == 0 ==> r.rate == 0
  {
    var cs := StudentsOf(students, classId, "active");
    var p := (s: Student) => LookupAttendance(attendance, s.id, date) == "present";
    var q := (s: Student) => LookupAttendance(attendance, s.id, date) == "absent";
    var present := Seqs.Count(cs, p);
    var absent := Seqs.Count(cs, q);
    Seqs.CountDisjoint(cs, p, q);
    Rates.RateBounds(present, |cs|);
    DayStats(|cs|, present, absent, Rates.Rate(present, |cs|))
  }

  /** With the intended lookup, a class student marked present for that date is
      counted: marking one student present makes the count positive. */
  lemma MarkedStudentCounted(students: seq<Student>, attendance: D.Dict<string>, classId: string, date: string, s: Student)
    requires s in StudentsOf(students, classId, "active")
    requires D.Get(attendance, AttendanceKey(s.id, date)) == Some("present")
    ensures AttendanceStats(students, attendance, classId, date).present > 0
  {
    var cs := StudentsOf(students, classId, "active");
    var p := (x: Student) => LookupAttendance(attendance, x.id, date) == "present";
    assert s in Seqs.Filter(cs, p);
  }

  /** Bounds are JavaScript-truthy: an empty bound does not filter. */
  predicate InRange(date: string, startDate: string, endDate: string) {
    (startDate == "" || !Text.Less(date, startDate)) && (endDate == "" || !Text.Less(endDate, date))
  }

  /** `getFilteredAttendance`: the ledger keys in the date range whose student
      exists and matches the class and student filters. */
  function FilteredAttendance(students: seq<Student>, attendance: D.Dict<string>, startDate: string, endDate: string,
                              classFilter: string, studentFilter: string): (r: seq<string>)
    ensures forall k :: k in r <==> k in D.Keys(attendance) && KeyPassesFilters(students, k, startDate, endDate, classFilter, studentFilter)
  {
    Seqs.Filter(D.Keys(attendance), (k: string) => KeyPassesFilters(students, k, startDate, endDate, classFilter, studentFilter))
  }

  /** The test `getFilteredAttendance` applies to one key. */
  predicate KeyPassesFilters(students: seq<Student>, k: string, startDate: string, endDate: string,
                             classFilter: string, studentFilter: string) {
    InRange(KeyDate(k), startDate, endDate) &&
    match StudentById(students, KeyStudent(k))
    case None => false
    case Some(st) => (classFilter == "" || st.classRef == classFilter) && (studentFilter == "" || st.id == studentFilter)
  }

  /** A key passes the filters only if its date is in range and its student exists. */
  lemma FilteredKeysExist(students: seq<Student>, attendance: D.Dict<string>, startDate: string, endDate: string,
                          classFilter: string, studentFilter: string, k: string)
    requires k in FilteredAttendance(students, attendance, startDate, endDate, classFilter, studentFilter)
    ensures InRange(KeyDate(k), startDate, endDate)
    ensures exists i :: 0 <= i < |students| && students[i].id == KeyStudent(k)
    ensures classFilter != "" ==> StudentById(students, KeyStudent(k)).value.classRef == classFilter
  {
  }

  datatype PersonStats = PersonStats(present: nat, total: nat, rate: nat)

  /** `getStudentStats`: the student's keys within the range, and how many say present. */
  function StudentStats(attendance: D.Dict<string>, studentId: string, startDate: string, endDate: string): (r: PersonStats)
    ensures r.present <= r.total <= |attendance| && r.rate <= 100
    ensures r.total == 0 ==> r.rate == 0
  {
    var mine := Seqs.Filter(attendance, (e: D.Entry<string>) => KeyStudent(e.key) == studentId && InRange(KeyDate(e.key), startDate, endDate));
    var present := Seqs.Count(mine, (e: D.Entry<string>) => e.value == "present");
    Rates.RateBounds(present, |mine|);
    PersonStats(present, |mine|, Rates.Rate(present, |mine|))
  }

  /** `getClasses()`: one class per definition, in key order, with the id taken
      from the key and missing description and timestamps filled in. */
  function ClassList(defs: D.Dict<ClassRecord>, now: string): (r: seq<ClassRecord>)
    ensures |r| == |defs|
    ensures forall i :: 0 <= i < |r| ==> (r[i].id == defs[i].key && r[i].name == defs[i].value.name
      && r[i].startTime == defs[i].value.startTime && r[i].endTime == defs[i].value.endTime
      && r[i].dayOfWeek == defs[i].value.dayOfWeek)
  {
    Seqs.Map(defs, (e: D.Entry<ClassRecord>) =>
      ClassRecord(e.key, e.value.name, e.value.startTime, e.value.endTime, e.value.dayOfWeek,
                  e.value.description, "", Or(e.value.createdAt, now), Or(e.value.updatedAt, now)))
  }

  /** The store's `{...stored, ...incoming, updatedAt}` for a class manager's
      copy: the copy carries every field except `frequency` when it was loaded
      through `getClasses`, so a stored frequency survives. */
  function StoreMergeClass(stored: ClassRecord, incoming: ClassRecord, now: string): (r: ClassRecord)
    ensures r.frequency == Or(incoming.frequency, stored.frequency) && r.updatedAt == now
    ensures r.(frequency := incoming.frequency, updatedAt := incoming.updatedAt) == incoming
  {
    incoming.(frequency := Or(incoming.frequency, stored.frequency), updatedAt := now)
  }

  /** The ledger that `forEach(record => obj[date_studentId] = status)` builds. */
  function BuildLedger(records: seq<AttendanceRecord>): (d: D.Dict<string>)
    ensures D.WellFormed(d)
  {
    if records == [] then []
    else
      var r := records[|records| - 1];
      var prefix := BuildLedger(records[..|records| - 1]);
      D.PutWellFormed(prefix, AttendanceKey(r.studentId, r.date), r.status);
      D.Put(prefix, AttendanceKey(r.studentId, r.date), r.status)
  }

  /** One more record assigns its own key. */
  lemma BuildLedgerSnoc(records: seq<AttendanceRecord>, r: AttendanceRecord)
    ensures BuildLedger(records + [r]) == D.Put(BuildLedger(records), AttendanceKey(r.studentId, r.date), r.status)
  {
    assert (records + [r])[..|records|] == records;
  }

  /** The status of the last record whose key is `k`. */
  function LastStatus(records: seq<AttendanceRecord>, k: string): Option<string> {
    if records == [] then None
    else
      var r := records[|records| - 1];
      if AttendanceKey(r.studentId, r.date) == k then Some(r.status)
      else LastStatus(records[..|records| - 1], k)
  }

  /** The built ledger holds, for every key, the status of the last record with
      that key, and nothing for keys no record has: the last record wins. */
  lemma {:induction false} BuildLedgerLastWins(records: seq<AttendanceRecord>, k: string)
    ensures D.Get(BuildLedger(records), k) == LastStatus(records, k)
  {
    if records != [] {
      var r := records[|records| - 1];
      BuildLedgerLastWins(records[..|records| - 1], k);
      D.GetPut(BuildLedger(records[..|records| - 1]), AttendanceKey(r.studentId, r.date), r.status, k);
    }
  }

  /** The `forEach` that folds an attendance array into a ledger object. */
  method LedgerFromRecords(records: seq<AttendanceRecord>) returns (d: D.Dict<string>)
    ensures d == BuildLedger(records)
  {
    d := [];
    var i := 0;
    while i < |records|
      invariant 0 <= i <= |records|
      invariant d == BuildLedger(records[..i])
    {
      var r := records[i];
      assert records[..i + 1][..i] == records[..i];
      d := D.Put(d, AttendanceKey(r.studentId, r.date), r.status);
      i := i + 1;
    }
    assert records[..i] == records;
  }

  /** The `attendance` part of an import payload. */
  datatype AttendanceField = NoAttendance | RecordList(records: seq<AttendanceRecord>) | LedgerObject(ledger: D.Dict<string>)

  /** What `importAllData` receives; `None` is a missing property. */
  datatype ImportPayload = ImportPayload(
    students: Option<seq<Student>>, classes: Option<seq<ClassRecord>>,
    attendance: AttendanceField, classSchedule: Option<seq<ScheduleEntry>>)

  /** An array assigned where an object of definitions is expected: its keys
      are the indices "0", "1", ... */
  function IndexedDefinitions(classes: seq<ClassRecord>): (d: D.Dict<ClassRecord>)
    ensures |d| == |classes| && forall i :: 0 <= i < |d| ==> d[i] == D.Entry(Text.NatToString(i), classes[i])
    ensures D.WellFormed(d)
  {
    var d := seq(|classes|, i requires 0 <= i < |classes| => D.Entry(Text.NatToString(i), classes[i]));
    assert D.WellFormed(d) by {
      forall i, j | 0 <= i < j < |d|
        ensures d[i].key != d[j].key
      {
        if d[i].key == d[j].key {
          Text.NatToStringInjective(i, j);
        }
      }
    }
    d
  }

  /** The keys still present after the deleting loop has visited `keys[..n]`. */
  ghost function Undeleted(keys: seq<string>, n: nat, sub: string): string -> bool
    requires n <= |keys|
  {
    (k: string) => !(k in keys[..n] && Text.Contains(k, sub))
  }

  /** One iteration of the deleting loop. */
  lemma DropStep(original: D.Dict<string>, keys: seq<string>, i: nat, sub: string)
    requires i < |keys|
    ensures Text.Contains(keys[i], sub) ==>
      D.Remove(D.KeepKeys(original, Undeleted(keys, i, sub)), keys[i]) == D.KeepKeys(original, Undeleted(keys, i + 1, sub))
    ensures !Text.Contains(keys[i], sub) ==>
      D.KeepKeys(original, Undeleted(keys, i, sub)) == D.KeepKeys(original, Undeleted(keys, i + 1, sub))
  {
    var k := keys[i];
    var before := Undeleted(keys, i, sub);
    var after := Undeleted(keys, i + 1, sub);
    assert keys[..i + 1] == keys[..i] + [k];
    if Text.Contains(k, sub) {
      D.KeepKeysTwice(original, before, (x: string) => x != k);
      D.KeepKeysExt(original, (x: string) => before(x) && x != k, after);
    } else {
      D.KeepKeysExt(original, before, after);
    }
  }

  /** After the loop has visited every key of the ledger, exactly the keys
      containing `sub` are gone. */
  lemma DropDone(original: D.Dict<string>, keys: seq<string>, sub: string)
    requires keys == D.Keys(original)
    ensures D.KeepKeys(original, Undeleted(keys, |keys|, sub)) == D.KeepKeys(original, (k: string) => !Text.Contains(k, sub))
  {
    assert keys[..|keys|] == keys;
    forall i | 0 <= i < |original|
      ensures Undeleted(keys, |keys|, sub)(original[i].key) == !Text.Contains(original[i].key, sub)
    {
      assert original[i].key == keys[i];
    }
    D.KeepKeysExt(original, Undeleted(keys, |keys|, sub), (k: string) => !Text.Contains(k, sub));
  }

  /** The store: `students`, the `attendance` ledger keyed `date_studentId`,
      the `classSchedule` and the `classDefinitions` keyed by class id. */
  class DataManager {
    var students: seq<Student>
    var attendance: D.Dict<string>
    var classSchedule: seq<ScheduleEntry>
    var classDefinitions: D.Dict<ClassRecord>

    /** JavaScript objects never repeat a key. */
    ghost predicate Valid()
      reads this
    {
      D.WellFormed(attendance) && D.WellFormed(classDefinitions)
    }

    /** A store with nothing saved: empty collections and the default classes. */
    constructor ()
      ensures Valid()
      ensures students == [] && attendance == [] && classSchedule == []
      ensures classDefinitions == DefaultDefinitions
    {
      students := [];
      attendance := [];
      classSchedule := [];
      classDefinitions := DefaultDefinitions;
    }

    /** `addStudent(data)`: appends one student built by `NewStoredStudent`. */
    method AddStudent(data: StudentPatch, freshId: string, today: string) returns (s: Student)
      modifies this
      ensures s == NewStoredStudent(data, freshId, today)
      ensures students == old(students) + [s]
      ensures attendance == old(attendance) && classSchedule == old(classSchedule)
      ensures classDefinitions == old(classDefinitions)
    {
      s := NewStoredStudent(data, freshId, today);
      students := students + [s];
    }

    /** `updateStudent(id, data)`: spreads `data` over the first student with
      that id; `None` (the source's `null`) when there is none. */
    method UpdateStudent(id: string, data: StudentPatch) returns (r: Option<Student>)
      modifies this
      ensures r.None? <==> forall i :: 0 <= i < |old(students)| ==> old(students)[i].id != id
      ensures r.None? ==> students == old(students)
      ensures r.Some? ==> var i := FindStudent(old(students), id).value;
        r.value == MergeStudent(old(students)[i], data) && students == old(students)[i := r.value]
      ensures attendance == old(attendance) && classSchedule == old(classSchedule)
      ensures classDefinitions == old(classDefinitions)
    {
      match FindStudent(students, id)
      case None =>
        r := None;
      case Some(i) =>
        var merged := MergeStudent(students[i], data);
        students := students[i := merged];
        r := Some(merged);
    }

    /** The `Object.keys(attendance).forEach(k => { if (k.includes(sub)) delete attendance[k] })`
        loop shared by `deleteStudent` and `deleteClass`. */
    method DropKeysContaining(sub: string)
      modifies this
      requires Valid()
      ensures Valid()
      ensures attendance == D.KeepKeys(old(attendance), (k: string) => !Text.Contains(k, sub))
      ensures students == old(students) && classSchedule == old(classSchedule)
      ensures classDefinitions == old(classDefinitions)
    {
      var keys := D.Keys(attendance);
      ghost var original := attendance;
      D.KeepKeysAll(original, Undeleted(keys, 0, sub));
      var i := 0;
      while i < |keys|
        invariant 0 <= i <= |keys|
        invariant attendance == D.KeepKeys(original, Undeleted(keys, i, sub))
        invariant students == old(students) && classSchedule == old(classSchedule)
        invariant classDefinitions == old(classDefinitions)
      {
        DropStep(original, keys, i, sub);
        if Text.Contains(keys[i], sub) {
          attendance := D.Remove(attendance, keys[i]);
        }
        i := i + 1;
      }
      DropDone(original, keys, sub);
      D.KeepKeysWellFormed(original, (k: string) => !Text.Contains(k, sub));
    }

    /** `deleteStudent(id)`: removes every student with that id and every
        ledger key that contains the id anywhere. */
    method DeleteStudent(id: string)
      modifies this
      requires Valid()
      ensures Valid()
      ensures students == Seqs.Filter(old(students), (s: Student) => s.id != id)
      ensures attendance == D.KeepKeys(old(attendance), (k: string) => !Text.Contains(k, id))
      ensures classSchedule == old(classSchedule) && classDefinitions == old(classDefinitions)
    {
      students := Seqs.Filter(students, (s: Student) => s.id != id);
      DropKeysContaining(id);
    }

    /** `addClass(data)`: stores the definition under a fresh id and returns it. */
    method AddClass(data: ClassRecord, freshId: string) returns (classId: string)
      modifies this
      requires Valid()
      ensures Valid()
      ensures classId == freshId
      ensures classDefinitions == D.Put(old(classDefinitions), freshId, data)
      ensures students == old(students) && attendance == old(attendance) && classSchedule == old(classSchedule)
    {
      D.PutWellFormed(classDefinitions, freshId, data);
      classDefinitions := D.Put(classDefinitions, freshId, data);
      classId := freshId;
    }

    /** `deleteClass(classId)`: drops the definition, the class's students,
        the ledger keys containing the id, and the class's schedule entries. */
    method DeleteClass(classId: string)
      modifies this
      requires Valid()
      ensures Valid()
      ensures classDefinitions == D.Remove(old(classDefinitions), classId)
      ensures students == Seqs.Filter(old(students), (s: Student) => s.classRef != classId)
      ensures attendance == D.KeepKeys(old(attendance), (k: string) => !Text.Contains(k, classId))
      ensures classSchedule == Seqs.Filter(old(classSchedule), (e: ScheduleEntry) => e.classId != classId)
    {
      D.KeepKeysWellFormed(classDefinitions, (k: string) => k != classId);
      classDefinitions := D.Remove(classDefinitions, classId);
      students := Seqs.Filter(students, (s: Student) => s.classRef != classId);
      DropKeysContaining(classId);
      classSchedule := Seqs.Filter(classSchedule, (e: ScheduleEntry) => e.classId != classId);
    }

    /** `updateClass(classId, data)`: false for an unknown id, otherwise the
        manager's copy is spread over the definition with a new `updatedAt`. */
    method UpdateClass(classId: string, data: ClassRecord, now: string) returns (ok: bool)
      modifies this
      requires Valid()
      ensures Valid()
      ensures ok <==> D.HasKey(old(classDefinitions), classId)
      ensures !ok ==> classDefinitions == old(classDefinitions)
      ensures ok ==> classDefinitions == D.Put(old(classDefinitions), classId,
        StoreMergeClass(D.Get(old(classDefinitions), classId).value, data, now))
      ensures students == old(students) && attendance == old(attendance) && classSchedule == old(classSchedule)
    {
      match D.Get(classDefinitions, classId)
      case None =>
        ok := false;
      case Some(stored) =>
        var merged := StoreMergeClass(stored, data, now);
        D.PutWellFormed(classDefinitions, classId, merged);
        classDefinitions := D.Put(classDefinitions, classId, merged);
        ok := true;
    }

    /** `addClassDate({date, classId})`: false and no change when that meeting
        exists, otherwise one new entry at the end. */
    method AddClassDate(date: string, classId: string, created: string) returns (added: bool)
      modifies this
      ensures added <==> !HasMeeting(old(classSchedule), date, classId)
      ensures classSchedule == if added then old(classSchedule) + [ScheduleEntry(date, classId, created)] else old(classSchedule)
      ensures NoDuplicateMeetings(old(classSchedule)) ==> NoDuplicateMeetings(classSchedule)
      ensures students == old(students) && attendance == old(attendance) && classDefinitions == old(classDefinitions)
    {
      var i := 0;
      while i < |classSchedule|
        invariant 0 <= i <= |classSchedule|
        invariant forall j :: 0 <= j < i ==> !(classSchedule[j].date == date && classSchedule[j].classId == classId)
      {
        if classSchedule[i].date == date && classSchedule[i].classId == classId {
          return false;
        }
        i := i + 1;
      }
      classSchedule := classSchedule + [ScheduleEntry(date, classId, created)];
      added := true;
    }

    /** `deleteClassDate(date, classId)`: removes that meeting. */
    method DeleteClassDate(date: string, classId: string)
      modifies this
      ensures classSchedule == Seqs.Filter(old(classSchedule), (e: ScheduleEntry) => !(e.date == date && e.classId == classId))
      ensures !HasMeeting(classSchedule, date, classId)
      ensures students == old(students) && attendance == old(attendance) && classDefinitions == old(classDefinitions)
    {
      classSchedule := Seqs.Filter(classSchedule, (e: ScheduleEntry) => !(e.date == date && e.classId == classId));
    }

    /** `markAttendance(studentId, date, status)`: sets the one key for that
        student and date, overwriting an earlier mark. */
    method MarkAttendance(studentId: string, date: string, status: string)
      modifies this
      requires Valid()
      ensures Valid()
      ensures attendance == D.Put(old(attendance), AttendanceKey(studentId, date), status)
      ensures students == old(students) && classSchedule == old(classSchedule)
      ensures classDefinitions == old(classDefinitions)
    {
      D.PutWellFormed(attendance, AttendanceKey(studentId, date), status);
      attendance := D.Put(attendance, AttendanceKey(studentId, date), status);
    }

    /** `setAttendanceStatus(studentId, classId, date, status)`: marks and
        returns true; the class id is not used. */
    method SetAttendanceStatus(studentId: string, classId: string, date: string, status: string) returns (ok: bool)
      modifies this
      requires Valid()
      ensures Valid() && ok
      ensures attendance == D.Put(old(attendance), AttendanceKey(studentId, date), status)
      ensures students == old(students) && classSchedule == old(classSchedule)
      ensures classDefinitions == old(classDefinitions)
    {
      MarkAttendance(studentId, date, status);
      ok := true;
    }

    /** `saveAttendance(records)`: replaces the ledger by the one the records build. */
    method SaveAttendance(records: seq<AttendanceRecord>) returns (ok: bool)
      modifies this
      ensures Valid() && ok
      ensures attendance == BuildLedger(records)
      ensures students == old(students) && classSchedule == old(classSchedule)
      ensures classDefinitions == old(classDefinitions)
      requires Valid()
    {
      attendance := LedgerFromRecords(records);
      ok := true;
    }

    /** `importAllData(data)`: each present collection replaces the stored
        one; an array of classes becomes definitions keyed by index, an array
        of records is folded into a ledger, and a missing schedule empties it. */
    method ImportAllData(data: ImportPayload) returns (ok: bool)
      modifies this
      requires Valid()
      requires data.attendance.LedgerObject? ==> D.WellFormed(data.attendance.ledger)
      ensures Valid() && ok
      ensures students == if data.students.Some? then data.students.value else old(students)
      ensures classDefinitions == if data.classes.Some? then IndexedDefinitions(data.classes.value) else old(classDefinitions)
      ensures attendance == match data.attendance
        case NoAttendance => old(attendance)
        case RecordList(rs) => BuildLedger(rs)
        case LedgerObject(l) => l
      ensures classSchedule == data.classSchedule.GetOr([])
    {
      if data.students.Some? {
        students := data.students.value;
      }
      if data.classes.Some? {
        classDefinitions := IndexedDefinitions(data.classes.value);
      }
      match data.attendance {
        case NoAttendance =>
        case RecordList(rs) =>
          attendance := LedgerFromRecords(rs);
        case LedgerObject(l) =>
          attendance := l;
      }
      classSchedule := data.classSchedule.GetOr([]);
      ok := true;
    }
  }
}
