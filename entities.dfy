/** The records the data layer stores: students, class definitions, schedule
    entries and attendance records, plus the partial records (`{...a, ...b}`
    spreads) used to update them.

    JavaScript records are open objects. Here each entity has one datatype
    holding every field any part of the program reads or writes; a field the
    object does not have is the empty string, which JavaScript treats like
    `undefined` in every `||`, `if` and `!` test the program makes. */
module Entities {
  import opened Wrappers
  import Text

  /** A JavaScript value held in `dayOfWeek`: a number (from `parseInt` or the
      built-in definitions), a string (from a form's `<select>`), `NaN`, or
      nothing. */
  datatype DayValue = Number(n: int) | Str(s: string) | NaN | Absent {
    /** JavaScript truthiness of the value. */
    predicate Truthy() {
      match this
      case Number(n) => n != 0
      case Str(s) => s != ""
      case NaN => false
      case Absent => false
    }
  }

  /** `parseInt(d)`: numbers keep their value, strings are parsed, anything else
      is `NaN`. */
  function ParseDay(d: DayValue): (r: DayValue)
    ensures r.Number? || r.NaN?
    ensures d.Number? ==> r == d
  {
    match d
    case Number(n) => Number(n)
    case Str(s) => (match Text.ParseInt(s) case Some(v) => Number(v) case None => NaN)
    case NaN => NaN
    case Absent => NaN
  }

  /** `a === b` on two day values: only equal numbers are identical, `NaN` is not
      even identical to itself. */
  predicate StrictEquals(a: DayValue, b: DayValue) {
    match a
    case Number(x) => b.Number? && b.n == x
    case Str(x) => b.Str? && b.s == x
    case NaN => false
    case Absent => b.Absent?
  }

  /** `x || d` on a string. */
  function Or(x: string, d: string): string {
    if x != "" then x else d
  }

  /** A student, in the union of the shapes the store and both student managers
      give it. `classRef` is the stored `class` field (a class id). */
  datatype Student = Student(
    id: string, name: string, nickname: string,
    classRef: string, classId: string, className: string,
    phone: string, email: string,
    emergencyContactName: string, emergencyContactPhone: string,
    emergencyContact: string, emergencyPhone: string,
    notes: string, status: string, joinDate: string,
    createdAt: string, updatedAt: string)

  const NoStudent := Student("", "", "", "", "", "", "", "", "", "", "", "", "", "", "", "", "")

  /** The fields an object literal or form spreads over a student; `None` is a
      field the object does not have. */
  datatype StudentPatch = StudentPatch(
    id: Option<string>, name: Option<string>, nickname: Option<string>,
    classRef: Option<string>, classId: Option<string>, className: Option<string>,
    phone: Option<string>, email: Option<string>,
    emergencyContactName: Option<string>, emergencyContactPhone: Option<string>,
    emergencyContact: Option<string>, emergencyPhone: Option<string>,
    notes: Option<string>, status: Option<string>, joinDate: Option<string>,
    createdAt: Option<string>, updatedAt: Option<string>)

  const EmptyPatch := StudentPatch(None, None, None, None, None, None, None, None, None, None, None, None, None, None, None, None, None)

  /** `{...s, ...p}`. */
  function MergeStudent(s: Student, p: StudentPatch): (r: Student)
    ensures p == EmptyPatch ==> r == s
    ensures p.name.Some? ==> r.name == p.name.value
    ensures p.name.None? ==> r.name == s.name
    ensures p.className.None? ==> r.className == s.className
    ensures r.id == p.id.GetOr(s.id)
  {
    Student(
      p.id.GetOr(s.id), p.name.GetOr(s.name), p.nickname.GetOr(s.nickname),
      p.classRef.GetOr(s.classRef), p.classId.GetOr(s.classId), p.className.GetOr(s.className),
      p.phone.GetOr(s.phone), p.email.GetOr(s.email),
      p.emergencyContactName.GetOr(s.emergencyContactName), p.emergencyContactPhone.GetOr(s.emergencyContactPhone),
      p.emergencyContact.GetOr(s.emergencyContact), p.emergencyPhone.GetOr(s.emergencyPhone),
      p.notes.GetOr(s.notes), p.status.GetOr(s.status), p.joinDate.GetOr(s.joinDate),
      p.createdAt.GetOr(s.createdAt), p.updatedAt.GetOr(s.updatedAt))
  }

  /** Field by field, a spread takes each field the patch has and keeps
      each field it does not have. */
  lemma MergeFieldwise(s: Student, p: StudentPatch)
    ensures p.id.Some? ==> MergeStudent(s, p).id == p.id.value
    ensures p.id.None? ==> MergeStudent(s, p).id == s.id
    ensures p.name.Some? ==> MergeStudent(s, p).name == p.name.value
    ensures p.name.None? ==> MergeStudent(s, p).name == s.name
    ensures p.nickname.Some? ==> MergeStudent(s, p).nickname == p.nickname.value
    ensures p.nickname.None? ==> MergeStudent(s, p).nickname == s.nickname
    ensures p.classRef.Some? ==> MergeStudent(s, p).classRef == p.classRef.value
    ensures p.classRef.None? ==> MergeStudent(s, p).classRef == s.classRef
    ensures p.classId.Some? ==> MergeStudent(s, p).classId == p.classId.value
    ensures p.classId.None? ==> MergeStudent(s, p).classId == s.classId
    ensures p.className.Some? ==> MergeStudent(s, p).className == p.className.value
    ensures p.className.None? ==> MergeStudent(s, p).className == s.className
    ensures p.phone.Some? ==> MergeStudent(s, p).phone == p.phone.value
    ensures p.phone.None? ==> MergeStudent(s, p).phone == s.phone
    ensures p.email.Some? ==> MergeStudent(s, p).email == p.email.value
    ensures p.email.None? ==> MergeStudent(s, p).email == s.email
    ensures p.emergencyContactName.Some? ==> MergeStudent(s, p).emergencyContactName == p.emergencyContactName.value
    ensures p.emergencyContactName.None? ==> MergeStudent(s, p).emergencyContactName == s.emergencyContactName
    ensures p.emergencyContactPhone.Some? ==> MergeStudent(s, p).emergencyContactPhone == p.emergencyContactPhone.value
    ensures p.emergencyContactPhone.None? ==> MergeStudent(s, p).emergencyContactPhone == s.emergencyContactPhone
    ensures p.emergencyContact.Some? ==> MergeStudent(s, p).emergencyContact == p.emergencyContact.value
    ensures p.emergencyContact.None? ==> MergeStudent(s, p).emergencyContact == s.emergencyContact
    ensures p.emergencyPhone.Some? ==> MergeStudent(s, p).emergencyPhone == p.emergencyPhone.value
    ensures p.emergencyPhone.None? ==> MergeStudent(s, p).emergencyPhone == s.emergencyPhone
    ensures p.notes.Some? ==> MergeStudent(s, p).notes == p.notes.value
    ensures p.notes.None? ==> MergeStudent(s, p).notes == s.notes
    ensures p.status.Some? ==> MergeStudent(s, p).status == p.status.value
    ensures p.status.None? ==> MergeStudent(s, p).status == s.status
    ensures p.joinDate.Some? ==> MergeStudent(s, p).joinDate == p.joinDate.value
    ensures p.joinDate.None? ==> MergeStudent(s, p).joinDate == s.joinDate
    ensures p.createdAt.Some? ==> MergeStudent(s, p).createdAt == p.createdAt.value
    ensures p.createdAt.None? ==> MergeStudent(s, p).createdAt == s.createdAt
    ensures p.updatedAt.Some? ==> MergeStudent(s, p).updatedAt == p.updatedAt.value
    ensures p.updatedAt.None? ==> MergeStudent(s, p).updatedAt == s.updatedAt
  {
  }

  /** A complete student object seen as a spread: every field present. */
  function AsPatch(s: Student): StudentPatch {
    StudentPatch(
      Some(s.id), Some(s.name), Some(s.nickname),
      Some(s.classRef), Some(s.classId), Some(s.className),
      Some(s.phone), Some(s.email),
      Some(s.emergencyContactName), Some(s.emergencyContactPhone),
      Some(s.emergencyContact), Some(s.emergencyPhone),
      Some(s.notes), Some(s.status), Some(s.joinDate),
      Some(s.createdAt), Some(s.updatedAt))
  }

  /** Spreading a complete object over any record yields that object. */
  lemma MergeComplete(old_: Student, s: Student)
    ensures MergeStudent(old_, AsPatch(s)) == s
  {
  }

  /** A class definition (`classDefinitions[id]`) or a class manager's class. */
  datatype ClassRecord = ClassRecord(
    id: string, name: string, startTime: string, endTime: string,
    dayOfWeek: DayValue, description: string, frequency: string,
    createdAt: string, updatedAt: string)

  /** The fields of a class update (a form sends name, times, day and description). */
  datatype ClassPatch = ClassPatch(
    name: Option<string>, startTime: Option<string>, endTime: Option<string>,
    dayOfWeek: Option<DayValue>, description: Option<string>)

  /** `{...c, ...p}`. */
  function MergeClass(c: ClassRecord, p: ClassPatch): (r: ClassRecord)
    ensures r.id == c.id && r.frequency == c.frequency && r.createdAt == c.createdAt
    ensures r.startTime == p.startTime.GetOr(c.startTime) && r.endTime == p.endTime.GetOr(c.endTime)
    ensures r.dayOfWeek == p.dayOfWeek.GetOr(c.dayOfWeek)
  {
    c.(name := p.name.GetOr(c.name), startTime := p.startTime.GetOr(c.startTime),
       endTime := p.endTime.GetOr(c.endTime), dayOfWeek := p.dayOfWeek.GetOr(c.dayOfWeek),
       description := p.description.GetOr(c.description))
  }

  /** A `classSchedule` entry: one class meeting on one date. */
  datatype ScheduleEntry = ScheduleEntry(date: string, classId: string, created: string)

  /** An attendance record as `getAttendance()` builds it from a ledger key; it
      has no `classId` field. */
  datatype AttendanceRecord = AttendanceRecord(id: string, studentId: string, date: string, status: string)

  /** The ledger key `${date}_${studentId}`. */
  function AttendanceKey(studentId: string, date: string): (k: string)
    ensures |k| == |date| + 1 + |studentId|
  {
    date + "_" + studentId
  }

  /** `const [date, studentId] = key.split('_')`. */
  function KeyDate(key: string): string {
    Text.Part(Text.Split(key, '_'), 0)
  }

  function KeyStudent(key: string): string {
    Text.Part(Text.Split(key, '_'), 1)
  }

  /** A key built from a date and an id without underscores splits back into them. */
  lemma KeyRoundTrip(studentId: string, date: string)
    requires '_' !in studentId && '_' !in date
    ensures KeyDate(AttendanceKey(studentId, date)) == date
    ensures KeyStudent(AttendanceKey(studentId, date)) == studentId
  {
    Text.SplitAtSeparator(date, '_', studentId);
    Text.SplitNoSeparator(studentId, '_');
    assert date + "_" + studentId == date + ['_'] + studentId;
  }

  /** With underscore-free parts, distinct (date, student) pairs get distinct keys. */
  lemma KeyInjective(s1: string, d1: string, s2: string, d2: string)
    requires '_' !in s1 && '_' !in d1 && '_' !in s2 && '_' !in d2
    requires AttendanceKey(s1, d1) == AttendanceKey(s2, d2)
    ensures s1 == s2 && d1 == d2
  {
    KeyRoundTrip(s1, d1);
    KeyRoundTrip(s2, d2);
  }
}
