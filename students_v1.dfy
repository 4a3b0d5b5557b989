/** The first student manager (`js/students.js`): the page's list of students
    over the data store, the checks `addStudent` and `updateStudent` make, the
    cascade of `deleteStudent`, search, the count per class, the CSV export and
    import, and the form validation with its e-mail and phone patterns. */
module StudentsV1 {
  import opened Wrappers
  import opened Entities
  import Text
  import Seqs
  import Csv
  import D = Dict
  import Store

  /** Why a student operation was refused (the messages the source throws). */
  datatype StudentError =
    | MissingFields | DuplicateName | UnknownClass | NotFound | BlankName | SaveFailed

  /** The object a form or an import line hands to `addStudent`; an empty
      string is a missing field. */
  datatype StudentForm = StudentForm(
    name: string, className: string, phone: string, email: string,
    emergencyContact: string, emergencyPhone: string, notes: string)

  // ---------------------------------------------------------------- classes by name

  /** The position of the first class definition with that name. */
  function FirstNamed(defs: D.Dict<ClassRecord>, className: string): (r: Option<nat>)
    ensures r.None? <==> forall i :: 0 <= i < |defs| ==> defs[i].value.name != className
    ensures r.Some? ==> (r.value < |defs| && defs[r.value].value.name == className
      && forall i :: 0 <= i < r.value ==> defs[i].value.name != className)
  {
    if defs == [] then None
    else if defs[0].value.name == className then Some(0)
    else match FirstNamed(defs[1..], className)
      case None => None
      case Some(i) => Some(i + 1)
  }

  /** `getClassIdByName(className)`: the id of the first definition with that
      name, in key order; "" stands for `null`. */
  function ClassIdByName(defs: D.Dict<ClassRecord>, className: string): (r: string)
    ensures (forall i :: 0 <= i < |defs| ==> defs[i].value.name != className) ==> r == ""
    ensures FirstNamed(defs, className).Some? ==> r == defs[FirstNamed(defs, className).value].key
  {
    match FirstNamed(defs, className)
    case None => ""
    case Some(i) => defs[i].key
  }

  /** The id found by name names that class back: `getClassName` of it is the
      name looked up. */
  lemma ClassIdNamesClass(defs: D.Dict<ClassRecord>, className: string)
    requires D.WellFormed(defs) && className != ""
    requires FirstNamed(defs, className).Some?
    ensures Store.ClassName(defs, ClassIdByName(defs, className)) == className
  {
    D.GetAt(defs, FirstNamed(defs, className).value);
  }

  // ---------------------------------------------------------------- addStudent

  /** A listed student already has that name and a class displayed under that name. */
  predicate NameTaken(students: seq<Student>, defs: D.Dict<ClassRecord>, name: string, className: string) {
    exists i :: 0 <= i < |students| && students[i].name == name
      && Store.ClassName(defs, students[i].classRef) == className
  }

  /** The first check `addStudent` fails, if any: a missing field, a
      duplicate in the class, then a class name no definition has. */
  function AddStudentError(students: seq<Student>, defs: D.Dict<ClassRecord>, form: StudentForm): (r: Option<StudentError>)
    ensures r == Some(MissingFields) <==> (form.name == "" || form.className == "")
    ensures r == Some(DuplicateName) ==> NameTaken(students, defs, form.name, form.className)
    ensures r.None? <==> (form.name != "" && form.className != ""
      && !NameTaken(students, defs, form.name, form.className) && FirstNamed(defs, form.className).Some?
      && defs[FirstNamed(defs, form.className).value].key != "")
  {
    if form.name == "" || form.className == "" then Some(MissingFields)
    else if NameTaken(students, defs, form.name, form.className) then Some(DuplicateName)
    else if ClassIdByName(defs, form.className) == "" then Some(UnknownClass)
    else None
  }

  /** `studentForDataManager`: what `addStudent` hands to the store. */
  function StorePatch(form: StudentForm, classId: string): StudentPatch {
    EmptyPatch.(name := Some(Text.Trim(form.name)), classRef := Some(classId),
      phone := Some(form.phone), email := Some(form.email),
      emergencyContactName := Some(form.emergencyContact), emergencyContactPhone := Some(form.emergencyPhone),
      notes := Some(form.notes))
  }

  /** `formattedStudent`: the stored student with the display fields added. */
  function Formatted(stored: Student, className: string, classId: string): Student {
    stored.(className := className, classId := classId,
      emergencyContact := stored.emergencyContactName, emergencyPhone := stored.emergencyContactPhone)
  }

  /** The student `addStudent` appends to its list: the form's fields, the name
      trimmed, in the class found by name, active from `today`. */
  function NewStudent(form: StudentForm, classId: string, freshId: string, today: string): (s: Student)
    ensures s.id == freshId && s.name == Text.Trim(form.name) && s.status == "active" && s.joinDate == today
    ensures s.classRef == classId && s.classId == classId && s.className == form.className
    ensures s.phone == form.phone && s.email == form.email && s.notes == form.notes
    ensures s.emergencyContact == form.emergencyContact && s.emergencyPhone == form.emergencyPhone
    ensures s.emergencyContactName == form.emergencyContact && s.emergencyContactPhone == form.emergencyPhone
  {
    Formatted(Store.NewStoredStudent(StorePatch(form, classId), freshId, today), form.className, classId)
  }

  /** Once a form has been added, the same form is refused as a duplicate
      (when its name carries no surrounding white space for `trim` to take). */
  lemma AddedFormIsDuplicate(students: seq<Student>, defs: D.Dict<ClassRecord>, form: StudentForm, freshId: string, today: string)
    requires D.WellFormed(defs)
    requires AddStudentError(students, defs, form).None?
    requires Text.Trim(form.name) == form.name
    ensures AddStudentError(students + [NewStudent(form, ClassIdByName(defs, form.className), freshId, today)], defs, form)
      == Some(DuplicateName)
  {
    var s := NewStudent(form, ClassIdByName(defs, form.className), freshId, today);
    var after := students + [s];
    ClassIdNamesClass(defs, form.className);
    assert after[|students|] == s;
    assert NameTaken(after, defs, form.name, form.className);
  }

  // ---------------------------------------------------------------- updateStudent

  /** Another listed student (a different id) has that name and class name. */
  predicate NameClash(students: seq<Student>, id: string, name: string, className: string) {
    exists j :: 0 <= j < |students| && students[j].id != id && students[j].name == name
      && students[j].className == className
  }

  /** The first check `updateStudent` fails, if any. A name or class name in
      the patch that is empty counts as not given, as `||` has it. */
  function UpdateStudentError(students: seq<Student>, id: string, patch: StudentPatch): (r: Option<StudentError>)
    ensures r == Some(NotFound) <==> Store.FindStudent(students, id).None?
    ensures r == Some(BlankName) ==> patch.name.Some? && patch.name.value != "" && Text.IsBlank(patch.name.value)
  {
    match Store.FindStudent(students, id)
    case None => Some(NotFound)
    case Some(i) =>
      var name := patch.name.GetOr("");
      var className := patch.className.GetOr("");
      if name != "" && Text.IsBlank(name) then Some(BlankName)
      else if (name != "" || className != "")
        && NameClash(students, id, Or(name, students[i].name), Or(className, students[i].className))
      then Some(DuplicateName)
      else None
  }

  /** `updatedStudent`: the patch spread over the student with a new
      `updatedAt`, and the class id looked up again when a class name is given. */
  function Updated(s: Student, patch: StudentPatch, defs: D.Dict<ClassRecord>, now: string): (r: Student)
    ensures r.updatedAt == now
    ensures r.classId == if patch.className.GetOr("") != "" then ClassIdByName(defs, patch.className.value)
      else patch.classId.GetOr(s.classId)
    ensures r.(updatedAt := s.updatedAt, classId := s.classId) == MergeStudent(s, patch.(updatedAt := None, classId := None))
  {
    var merged := MergeStudent(s, patch).(updatedAt := now);
    if patch.className.GetOr("") != "" then merged.(classId := ClassIdByName(defs, patch.className.value)) else merged
  }

  /** An update that passes the checks leaves no other student (by id) with the
      updated name and class name. */
  lemma UpdateAvoidsClash(students: seq<Student>, id: string, patch: StudentPatch, defs: D.Dict<ClassRecord>, now: string)
    requires UpdateStudentError(students, id, patch).None?
    requires patch.name.GetOr("") != "" || patch.className.GetOr("") != ""
    requires patch.name != Some("") && patch.className != Some("")
    ensures var u := Updated(students[Store.FindStudent(students, id).value], patch, defs, now);
      forall j :: 0 <= j < |students| && students[j].id != id ==>
        !(students[j].name == u.name && students[j].className == u.className)
  {
    var i := Store.FindStudent(students, id).value;
    var u := Updated(students[i], patch, defs, now);
    assert u.name == Or(patch.name.GetOr(""), students[i].name);
    assert u.className == Or(patch.className.GetOr(""), students[i].className);
  }

  // ---------------------------------------------------------------- deleteStudent

  /** `getAttendance().filter(a => a.studentId === id)`. */
  function StudentAttendance(attendance: D.Dict<string>, id: string): (r: seq<AttendanceRecord>)
    ensures forall a :: a in r ==> a.studentId == id
  {
    Seqs.Filter(Store.AttendanceRecords(attendance), (a: AttendanceRecord) => a.studentId == id)
  }

  // ---------------------------------------------------------------- search

  /** The fields `searchStudents` looks in, against an already lower-cased,
      trimmed term. The phone is compared as typed. */
  predicate Matches(s: Student, term: string) {
    || Text.Contains(Text.Lower(s.name), term)
    || Text.Contains(Text.Lower(s.className), term)
    || (s.phone != "" && Text.Contains(s.phone, term))
    || (s.email != "" && Text.Contains(Text.Lower(s.email), term))
    || (s.emergencyContact != "" && Text.Contains(Text.Lower(s.emergencyContact), term))
  }

  /** `searchStudents(searchTerm)`: everything for a blank term, otherwise the
      students matching `searchTerm.toLowerCase().trim()`, in list order. */
  function SearchStudents(students: seq<Student>, searchTerm: string): (r: seq<Student>)
    ensures Text.IsBlank(searchTerm) ==> r == students
    ensures !Text.IsBlank(searchTerm) ==>
      forall s :: s in r <==> s in students && Matches(s, Text.Trim(Text.Lower(searchTerm)))
    ensures |r| <= |students|
  {
    if Text.IsBlank(searchTerm) then students
    else Seqs.Filter(students, (s: Student) => Matches(s, Text.Trim(Text.Lower(searchTerm))))
  }

  /** Searching for a student's own (non-blank) name finds that student. */
  lemma SearchFindsOwnName(students: seq<Student>, i: nat)
    requires i < |students| && !Text.IsBlank(students[i].name)
    ensures students[i] in SearchStudents(students, students[i].name)
  {
    Text.TrimIsInfix(Text.Lower(students[i].name));
  }

  // ---------------------------------------------------------------- count by class

  const Unassigned := "未分班"

  /** The key a student is counted under: its class name, or 未分班. */
  function ClassLabel(s: Student): string {
    Or(s.className, Unassigned)
  }

  /** `classCounts[tag] = (classCounts[tag] || 0) + 1`. */
  function Bump(counts: D.Dict<int>, tag: string): D.Dict<int> {
    D.Put(counts, tag, D.Get(counts, tag).GetOr(0) + 1)
  }

  /** One more under `tag`, the same under every other key. */
  lemma BumpGet(counts: D.Dict<int>, tag: string, k: string)
    ensures D.Get(Bump(counts, tag), k).GetOr(0) == D.Get(counts, k).GetOr(0) + (if tag == k then 1 else 0)
  {
    var v := D.Get(counts, tag).GetOr(0) + 1;
    assert Bump(counts, tag) == D.Put(counts, tag, v);
    D.GetPut(counts, tag, v, k);
    var after := D.Get(D.Put(counts, tag, v), k);
    if tag == k {
      assert after == Some(v);
    } else {
      assert after == D.Get(counts, k);
    }
  }

  /** Counting one more student of the list. */
  lemma CountStep(students: seq<Student>, i: nat, k: string)
    requires i < |students|
    ensures Seqs.Count(students[..i + 1], (s: Student) => ClassLabel(s) == k)
      == Seqs.Count(students[..i], (s: Student) => ClassLabel(s) == k) + (if ClassLabel(students[i]) == k then 1 else 0)
  {
    var p := (s: Student) => ClassLabel(s) == k;
    assert students[..i + 1] == students[..i] + [students[i]];
    Seqs.CountAppend(students[..i], [students[i]], p);
    Seqs.CountCons([students[i]], p);
    assert [students[i]][1..] == [];
  }

  /** The sum of a dictionary of counts. */
  function Total(d: D.Dict<int>): int {
    if d == [] then 0 else d[0].value + Total(d[1..])
  }

  /** Assigning a count replaces the old one in the sum. */
  lemma {:induction false} TotalPut(d: D.Dict<int>, k: string, v: int)
    ensures Total(D.Put(d, k, v)) + D.Get(d, k).GetOr(0) == Total(d) + v
  {
    if d != [] && d[0].key != k {
      TotalPut(d[1..], k, v);
      assert D.Put(d, k, v)[1..] == D.Put(d[1..], k, v);
    }
  }

  // ---------------------------------------------------------------- validation

  /** A run of the e-mail pattern's `[^\s@]+`. */
  predicate Atom(s: string) {
    |s| >= 1 && forall k :: 0 <= k < |s| ==> !Text.IsSpace(s[k]) && s[k] != '@'
  }

  /** `/^[^\s@]+@[^\s@]+\.[^\s@]+$/` matches: a run, `@`, a run, `.`, a run. */
  predicate EmailPattern(e: string) {
    exists i, j :: 0 < i && i + 1 < j < |e| - 1 && e[i] == '@' && e[j] == '.'
      && Atom(e[..i]) && Atom(e[i + 1..j]) && Atom(e[j + 1..])
  }

  /** The position of the first `c` in `s`. */
  function FirstAt(s: string, c: char): (r: Option<nat>)
    ensures r.None? <==> c !in s
    ensures r.Some? ==> r.value < |s| && s[r.value] == c && forall k :: 0 <= k < r.value ==> s[k] != c
  {
    if s == [] then None
    else if s[0] == c then Some(0)
    else match FirstAt(s[1..], c)
      case None => None
      case Some(i) => Some(i + 1)
  }

  /** The one-pass reading of the e-mail pattern: no white space, one `@`
      that is not first, and a `.` at least two places after it that is not last. */
  predicate EmailScan(e: string) {
    (forall k :: 0 <= k < |e| ==> !Text.IsSpace(e[k]))
    && FirstAt(e, '@').Some? && 0 < FirstAt(e, '@').value
    && (forall k :: FirstAt(e, '@').value < k < |e| ==> e[k] != '@')
    && exists j :: FirstAt(e, '@').value + 1 < j < |e| - 1 && e[j] == '.'
  }

  /** `isValidEmail(email)`. */
  function IsValidEmail(e: string): (r: bool)
    ensures r <==> EmailPattern(e)
  {
    PatternIsScan(e);
    ScanIsPattern(e);
    EmailScan(e)
  }

  /** Every character inside a run is neither white space nor `@`. */
  lemma AtomChar(e: string, lo: nat, hi: nat, k: nat)
    requires lo <= k < hi <= |e| && Atom(e[lo..hi])
    ensures !Text.IsSpace(e[k]) && e[k] != '@'
  {
    assert e[lo..hi][k - lo] == e[k];
  }

  /** A match of the pattern has no white space and no `@` but the one at `i`. */
  lemma PatternChars(e: string, i: nat, j: nat)
    requires 0 < i && i + 1 < j < |e| - 1 && e[i] == '@' && e[j] == '.'
    requires Atom(e[..i]) && Atom(e[i + 1..j]) && Atom(e[j + 1..])
    ensures forall k :: 0 <= k < |e| ==> !Text.IsSpace(e[k]) && (k != i ==> e[k] != '@')
  {
    assert e[..i] == e[0..i] && e[j + 1..] == e[j + 1..|e|];
    forall k | 0 <= k < |e|
      ensures !Text.IsSpace(e[k]) && (k != i ==> e[k] != '@')
    {
      if k < i {
        AtomChar(e, 0, i, k);
      } else if i < k < j {
        AtomChar(e, i + 1, j, k);
      } else if j < k {
        AtomChar(e, j + 1, |e|, k);
      }
    }
  }

  lemma PatternIsScan(e: string)
    ensures EmailPattern(e) ==> EmailScan(e)
  {
    if EmailPattern(e) {
      var i, j :| 0 < i && i + 1 < j < |e| - 1 && e[i] == '@' && e[j] == '.'
        && Atom(e[..i]) && Atom(e[i + 1..j]) && Atom(e[j + 1..]);
      PatternChars(e, i, j);
      assert FirstAt(e, '@') == Some(i);
    }
  }

  lemma ScanIsPattern(e: string)
    ensures EmailScan(e) ==> EmailPattern(e)
  {
    if !EmailScan(e) {
      return;
    }
    var i := FirstAt(e, '@').value;
    var j :| i + 1 < j < |e| - 1 && e[j] == '.';
    assert Atom(e[..i]);
    assert Atom(e[i + 1..j]);
    assert Atom(e[j + 1..]);
  }

  /** A character the phone pattern `[\d\s\-\+\(\)]` allows. */
  predicate PhoneChar(c: char) {
    Text.IsDigit(c) || Text.IsSpace(c) || c == '-' || c == '+' || c == '(' || c == ')'
  }

  /** `phone.replace(/\D/g, '')`. */
  function DigitsOf(p: string): (r: string)
    ensures |r| == Seqs.Count(p, Text.IsDigit)
  {
    if p == [] then ""
    else (if Text.IsDigit(p[0]) then [p[0]] else "") + DigitsOf(p[1..])
  }

  /** `isValidPhone(phone)`: only pattern characters, and at least eight digits. */
  function IsValidPhone(p: string): (r: bool)
    ensures r <==> (forall k :: 0 <= k < |p| ==> PhoneChar(p[k])) && Seqs.Count(p, Text.IsDigit) >= 8
  {
    |p| >= 1 && (forall k :: 0 <= k < |p| ==> PhoneChar(p[k])) && |DigitsOf(p)| >= 8
  }

  /** What `validateStudentData` complains about. */
  datatype FieldError = NameRequired | ClassRequired | BadEmail | BadPhone

  /** `[e]` when the check fails, nothing otherwise. */
  function Flag(failed: bool, e: FieldError): (r: seq<FieldError>)
    ensures e in r <==> failed
    ensures forall x :: x in r ==> x == e
  {
    if failed then [e] else []
  }

  /** The complaints for the four checks' outcomes, in the source's order. */
  function Complaints(noName: bool, noClass: bool, badEmail: bool, badPhone: bool): seq<FieldError> {
    Flag(noName, NameRequired) + Flag(noClass, ClassRequired) + Flag(badEmail, BadEmail) + Flag(badPhone, BadPhone)
  }

  lemma ComplaintsMembers(noName: bool, noClass: bool, badEmail: bool, badPhone: bool)
    ensures var r := Complaints(noName, noClass, badEmail, badPhone);
      (NameRequired in r <==> noName) && (ClassRequired in r <==> noClass)
      && (BadEmail in r <==> badEmail) && (BadPhone in r <==> badPhone)
  {
    var a, b, c, d := Flag(noName, NameRequired), Flag(noClass, ClassRequired), Flag(badEmail, BadEmail), Flag(badPhone, BadPhone);
    assert Complaints(noName, noClass, badEmail, badPhone) == a + b + c + d;
  }

  /** `validateStudentData(studentData)`. */
  function ValidateStudentData(form: StudentForm): seq<FieldError> {
    Complaints(Text.IsBlank(form.name), Text.IsBlank(form.className),
      form.email != "" && !IsValidEmail(form.email), form.phone != "" && !IsValidPhone(form.phone))
  }

  /** Each complaint is made exactly when its check fails; the e-mail one
      against the pattern itself. */
  lemma ValidationComplaints(form: StudentForm)
    ensures var r := ValidateStudentData(form);
      && (NameRequired in r <==> Text.IsBlank(form.name))
      && (ClassRequired in r <==> Text.IsBlank(form.className))
      && (BadEmail in r <==> form.email != "" && !EmailPattern(form.email))
      && (BadPhone in r <==> form.phone != "" && !IsValidPhone(form.phone))
  {
    ComplaintsMembers(Text.IsBlank(form.name), Text.IsBlank(form.className),
      form.email != "" && !IsValidEmail(form.email), form.phone != "" && !IsValidPhone(form.phone));
  }

  /** A form that validates is never refused by `addStudent` for a missing field. */
  lemma ValidFormHasRequiredFields(students: seq<Student>, defs: D.Dict<ClassRecord>, form: StudentForm)
    requires ValidateStudentData(form) == []
    ensures AddStudentError(students, defs, form) != Some(MissingFields)
  {
    ValidationComplaints(form);
    assert Text.Trim("") == "";
  }

  // ---------------------------------------------------------------- CSV

  const StudentCsvHeader: seq<string> := ["姓名", "班別", "聯絡電話", "電子郵件", "緊急聯絡人", "緊急聯絡電話", "備註", "建立日期"]

  /** One exported row; `dateText` is the locale date of `createdAt`. */
  function StudentCsvRow(s: Student, dateText: string -> string): seq<string> {
    [s.name, s.className, s.phone, s.email, s.emergencyContact, s.emergencyPhone, s.notes, dateText(s.createdAt)]
  }

  /** `exportStudentsToCSV()`. */
  function ExportStudentsToCSV(students: seq<Student>, dateText: string -> string): string {
    Csv.Encode([StudentCsvHeader] + Seqs.Map(students, (s: Student) => StudentCsvRow(s, dateText)))
  }

  /** The `studentData` an import line yields, by column position. */
  function ParseStudentLine(line: string): StudentForm {
    var v := Csv.DecodeRow(line);
    StudentForm(Text.Part(v, 0), Text.Part(v, 1), Text.Part(v, 2), Text.Part(v, 3),
      Text.Part(v, 4), Text.Part(v, 5), Text.Part(v, 6))
  }

  /** The form an import line yields: none for a blank line or one without a
      name and a class name. */
  function LineForm(line: string): (r: Option<StudentForm>)
    ensures r.Some? ==> r.value == ParseStudentLine(line) && r.value.name != "" && r.value.className != ""
    ensures r.None? <==> (Text.IsBlank(line) || ParseStudentLine(line).name == "" || ParseStudentLine(line).className == "")
  {
    if Text.IsBlank(line) then None
    else
      var form := ParseStudentLine(line);
      if form.name != "" && form.className != "" then Some(form) else None
  }

  /** Every exported field of the student is one the dialect carries unchanged. */
  predicate CsvSafe(s: Student, dateText: string -> string) {
    forall i :: 0 <= i < |StudentCsvRow(s, dateText)| ==> Csv.PlainField(StudentCsvRow(s, dateText)[i])
  }

  lemma HeaderPlain()
    ensures forall i :: 0 <= i < |StudentCsvHeader| ==> Csv.PlainField(StudentCsvHeader[i])
  {
  }

  /** The export and import column orders coincide: the line exported for a
      student reads back as that student's form. */
  lemma ExportedStudentReadsBack(students: seq<Student>, dateText: string -> string, k: nat)
    requires forall i :: 0 <= i < |students| ==> CsvSafe(students[i], dateText)
    requires k < |students|
    ensures var lines := Text.Split(ExportStudentsToCSV(students, dateText), '\n');
      var s := students[k];
      |lines| == |students| + 1
      && ParseStudentLine(lines[k + 1])
        == StudentForm(s.name, s.className, s.phone, s.email, s.emergencyContact, s.emergencyPhone, s.notes)
  {
    var rows := Seqs.Map(students, (s: Student) => StudentCsvRow(s, dateText));
    HeaderPlain();
    RowsPlain(students, dateText);
    Csv.TableReadsBack(StudentCsvHeader, rows);
    var lines := Text.Split(ExportStudentsToCSV(students, dateText), '\n');
    assert Csv.DecodeRow(lines[k + 1]) == StudentCsvRow(students[k], dateText);
    ParseOfRow(lines[k + 1], StudentCsvRow(students[k], dateText));
  }

  /** The exported rows of CSV-safe students are made of plain fields. */
  lemma RowsPlain(students: seq<Student>, dateText: string -> string)
    requires forall i :: 0 <= i < |students| ==> CsvSafe(students[i], dateText)
    ensures var rows := Seqs.Map(students, (s: Student) => StudentCsvRow(s, dateText));
      (forall j :: 0 <= j < |rows| ==> |rows[j]| >= 1)
      && forall j, i :: 0 <= j < |rows| && 0 <= i < |rows[j]| ==> Csv.PlainField(rows[j][i])
  {
    var rows := Seqs.Map(students, (s: Student) => StudentCsvRow(s, dateText));
    forall j | 0 <= j < |rows|
      ensures |rows[j]| >= 1 && forall i :: 0 <= i < |rows[j]| ==> Csv.PlainField(rows[j][i])
    {
      assert rows[j] == StudentCsvRow(students[j], dateText);
      assert CsvSafe(students[j], dateText);
    }
  }

  /** A line that decodes to an eight-cell row parses to its first seven cells. */
  lemma ParseOfRow(line: string, row: seq<string>)
    requires |row| == 8 && Csv.DecodeRow(line) == row
    ensures ParseStudentLine(line) == StudentForm(row[0], row[1], row[2], row[3], row[4], row[5], row[6])
  {
  }

  /** How an import line failed: its 1-based line number and the error. */
  datatype RowError = RowError(line: nat, error: StudentError)

  /** Where `importStudentsFromCSV` stands after some lines: the students
      appended to the store, the students added to the list and the
      refusals. The list is the one the manager started with followed by the
      students added; the store's list likewise. */
  datatype StudentImport = StudentImport(stored: seq<Student>, added: seq<Student>, errors: seq<RowError>)

  /** One turn of the import loop on line `i` (0-based) whose gate gave
      `gate`, for a manager that started from `start` over the definitions
      `defs`: a line that fails the gate changes nothing; any other goes
      through `addStudent`'s checks against the students held by then, and is
      either logged as line `i + 1` or added with the id `freshId`. */
  function ImportedLine(start: seq<Student>, defs: D.Dict<ClassRecord>, st: StudentImport, gate: Option<StudentForm>,
                        i: nat, freshId: string, today: string): (r: StudentImport)
    ensures gate.None? ==> r == st
    ensures gate.Some? && AddStudentError(start + st.added, defs, gate.value).Some? ==>
      r.added == st.added && r.stored == st.stored
      && r.errors == st.errors + [RowError(i + 1, AddStudentError(start + st.added, defs, gate.value).value)]
    ensures gate.Some? && AddStudentError(start + st.added, defs, gate.value).None? ==>
      (var classId := ClassIdByName(defs, gate.value.className);
       r.added == st.added + [NewStudent(gate.value, classId, freshId, today)] && r.errors == st.errors
       && r.stored == st.stored + [Store.NewStoredStudent(StorePatch(gate.value, classId), freshId, today)])
  {
    match gate
    case None => st
    case Some(form) =>
      match AddStudentError(start + st.added, defs, form)
      case Some(e) => st.(errors := st.errors + [RowError(i + 1, e)])
      case None =>
        var classId := ClassIdByName(defs, form.className);
        st.(stored := st.stored + [Store.NewStoredStudent(StorePatch(form, classId), freshId, today)],
            added := st.added + [NewStudent(form, classId, freshId, today)])
  }

  /** The import after lines `1 .. n - 1` of the file, whose gates are
      `gates`, for a manager holding `start` over the definitions `defs`;
      `freshIdAt(i)` is the id the store gives the student of line `i`. */
  function ImportStudents(gates: seq<Option<StudentForm>>, freshIdAt: nat -> string, today: string,
                          start: seq<Student>, defs: D.Dict<ClassRecord>, n: nat): (r: StudentImport)
    requires 1 <= n <= |gates|
    ensures |r.added| + |r.errors| <= n - 1 && |r.stored| == |r.added|
    ensures ErrorLinesWithin(r.errors, n)
    decreases n
  {
    if n == 1 then StudentImport([], [], [])
    else
      var prev := ImportStudents(gates, freshIdAt, today, start, defs, n - 1);
      var r := ImportedLine(start, defs, prev, gates[n - 1], n - 1, freshIdAt(n - 1), today);
      ErrorLinesStep(prev.errors, r.errors, n);
      r
  }

  /** The logged line numbers lie in `2 .. n`. */
  predicate ErrorLinesWithin(errors: seq<RowError>, n: nat) {
    forall k :: 0 <= k < |errors| ==> 2 <= errors[k].line <= n
  }

  lemma ErrorLinesStep(before: seq<RowError>, after: seq<RowError>, n: nat)
    requires n >= 2
    requires ErrorLinesWithin(before, n - 1)
    requires after == before || (exists e :: after == before + [RowError(n, e)])
    ensures ErrorLinesWithin(after, n)
  {
    if after != before {
      forall k | 0 <= k < |after|
        ensures 2 <= after[k].line <= n
      {
        if k < |before| {
          assert after[k] == before[k];
        }
      }
    }
  }

  /** How many of lines `1 .. n - 1` pass the import's gate. */
  function GatedLines(gates: seq<Option<StudentForm>>, n: nat): nat
    requires 1 <= n <= |gates|
    decreases n
  {
    if n == 1 then 0 else GatedLines(gates, n - 1) + (if gates[n - 1].Some? then 1 else 0)
  }

  /** Every line that passes the gate is either added or refused, and no
      other line is. */
  lemma {:induction false} ImportAccountsForGatedLines(gates: seq<Option<StudentForm>>, freshIdAt: nat -> string,
                                                       today: string, start: seq<Student>, defs: D.Dict<ClassRecord>, n: nat)
    requires 1 <= n <= |gates|
    ensures var r := ImportStudents(gates, freshIdAt, today, start, defs, n);
      |r.added| + |r.errors| == GatedLines(gates, n)
    decreases n
  {
    if n > 1 {
      ImportAccountsForGatedLines(gates, freshIdAt, today, start, defs, n - 1);
    }
  }

  /** `s` is the student `addStudent` makes from one of lines `1 .. n - 1`
      that passed the gate, with that line's id. */
  predicate MadeFromLine(s: Student, gates: seq<Option<StudentForm>>, freshIdAt: nat -> string,
                         today: string, defs: D.Dict<ClassRecord>, n: nat)
    requires n <= |gates|
  {
    exists j :: 1 <= j < n && gates[j].Some?
      && s == NewStudent(gates[j].value, ClassIdByName(defs, gates[j].value.className), freshIdAt(j), today)
  }

  /** Every student in `added` is made from a gated line. */
  predicate AddedFromLines(added: seq<Student>, gates: seq<Option<StudentForm>>, freshIdAt: nat -> string,
                           today: string, defs: D.Dict<ClassRecord>, n: nat)
    requires n <= |gates|
  {
    forall k :: 0 <= k < |added| ==> MadeFromLine(added[k], gates, freshIdAt, today, defs, n)
  }

  lemma AddedFromLinesStep(before: seq<Student>, after: seq<Student>, gates: seq<Option<StudentForm>>,
                           freshIdAt: nat -> string, today: string, defs: D.Dict<ClassRecord>, n: nat)
    requires 2 <= n <= |gates|
    requires AddedFromLines(before, gates, freshIdAt, today, defs, n - 1)
    requires after == before
      || (gates[n - 1].Some?
          && after == before + [NewStudent(gates[n - 1].value, ClassIdByName(defs, gates[n - 1].value.className), freshIdAt(n - 1), today)])
    ensures AddedFromLines(after, gates, freshIdAt, today, defs, n)
  {
    forall k | 0 <= k < |after|
      ensures MadeFromLine(after[k], gates, freshIdAt, today, defs, n)
    {
      if k < |before| {
        assert after[k] == before[k];
        var j :| 1 <= j < n - 1 && gates[j].Some?
          && before[k] == NewStudent(gates[j].value, ClassIdByName(defs, gates[j].value.className), freshIdAt(j), today);
      } else {
        assert gates[n - 1].Some?
          && after[k] == NewStudent(gates[n - 1].value, ClassIdByName(defs, gates[n - 1].value.className), freshIdAt(n - 1), today);
      }
    }
  }

  /** Each added student is the one `addStudent` makes from some gated line,
      with that line's id. */
  lemma {:induction false} ImportedStudentsComeFromLines(gates: seq<Option<StudentForm>>, freshIdAt: nat -> string,
                                                         today: string, start: seq<Student>, defs: D.Dict<ClassRecord>, n: nat)
    requires 1 <= n <= |gates|
    ensures AddedFromLines(ImportStudents(gates, freshIdAt, today, start, defs, n).added, gates, freshIdAt, today, defs, n)
    decreases n
  {
    if n > 1 {
      var prev := ImportStudents(gates, freshIdAt, today, start, defs, n - 1);
      ImportedStudentsComeFromLines(gates, freshIdAt, today, start, defs, n - 1);
      AddedFromLinesStep(prev.added, ImportStudents(gates, freshIdAt, today, start, defs, n).added, gates, freshIdAt, today, defs, n);
    }
  }

  /** `e` names a line that passed the gate, with the reason `addStudent` gave
      for it against the students held by then. */
  predicate LineRefused(e: RowError, gates: seq<Option<StudentForm>>, freshIdAt: nat -> string,
                            today: string,
                        start: seq<Student>, defs: D.Dict<ClassRecord>)
  {
    1 <= e.line - 1 < |gates| && gates[e.line - 1].Some?
    && AddStudentError(start + ImportStudents(gates, freshIdAt, today, start, defs, e.line - 1).added, defs, gates[e.line - 1].value) == Some(e.error)
  }

  /** Every error in `errors` names one of lines `1 .. n - 1` that passed the
      gate, with the reason `addStudent` gave for it. */
  predicate ErrorsFromLines(errors: seq<RowError>, gates: seq<Option<StudentForm>>, freshIdAt: nat -> string,
                            today: string,
                            start: seq<Student>, defs: D.Dict<ClassRecord>, n: nat)
  {
    forall k :: 0 <= k < |errors| ==> errors[k].line - 1 < n && LineRefused(errors[k], gates, freshIdAt, today, start, defs)
  }

  lemma ErrorsFromLinesStep(prev: StudentImport, gates: seq<Option<StudentForm>>, freshIdAt: nat -> string,
                            today: string,
                            start: seq<Student>, defs: D.Dict<ClassRecord>, n: nat)
    requires 2 <= n <= |gates|
    requires prev == ImportStudents(gates, freshIdAt, today, start, defs, n - 1)
    requires ErrorsFromLines(prev.errors, gates, freshIdAt, today, start, defs, n - 1)
    ensures ErrorsFromLines(ImportedLine(start, defs, prev, gates[n - 1], n - 1, freshIdAt(n - 1), today).errors,
                            gates, freshIdAt, today, start, defs, n)
  {
    var after := ImportedLine(start, defs, prev, gates[n - 1], n - 1, freshIdAt(n - 1), today).errors;
    forall k | 0 <= k < |after|
      ensures after[k].line - 1 < n && LineRefused(after[k], gates, freshIdAt, today, start, defs)
    {
      if k < |prev.errors| {
        assert after[k] == prev.errors[k];
      } else {
        var e := after[k];
        assert e.line == n;
        assert ImportStudents(gates, freshIdAt, today, start, defs, n - 1).added == prev.added;
      }
    }
  }

  /** Each logged error names a gated line and the reason `addStudent` gave
      for it against the students held by then. */
  lemma {:induction false} ImportErrorsComeFromLines(gates: seq<Option<StudentForm>>, freshIdAt: nat -> string,
                                                     today: string, start: seq<Student>, defs: D.Dict<ClassRecord>, n: nat)
    requires 1 <= n <= |gates|
    ensures ErrorsFromLines(ImportStudents(gates, freshIdAt, today, start, defs, n).errors, gates, freshIdAt, today, start, defs, n)
    decreases n
  {
    if n > 1 {
      var prev := ImportStudents(gates, freshIdAt, today, start, defs, n - 1);
      ImportErrorsComeFromLines(gates, freshIdAt, today, start, defs, n - 1);
      ErrorsFromLinesStep(prev, gates, freshIdAt, today, start, defs, n);
    }
  }

  /** The form an exported student's line is meant to read back as. */
  function ExportedForm(s: Student): StudentForm {
    StudentForm(s.name, s.className, s.phone, s.email, s.emergencyContact, s.emergencyPhone, s.notes)
  }

  /** A student written by the export and read by the import passes the gate
      as their own form; where `addStudent` accepts it, they are added with
      their own name, class name, contacts and notes, and no error is
      logged. */
  lemma ImportAddsExportedStudent(start: seq<Student>, defs: D.Dict<ClassRecord>, st: StudentImport, s: Student,
                                  dateText: string -> string, i: nat, freshId: string, today: string)
    requires CsvSafe(s, dateText)
    requires s.name != "" && s.className != ""
    requires AddStudentError(start + st.added, defs, ExportedForm(s)).None?
    ensures LineForm(Csv.EncodeRow(StudentCsvRow(s, dateText))) == Some(ExportedForm(s))
    ensures var r := ImportedLine(start, defs, st, Some(ExportedForm(s)), i, freshId, today);
      |r.added| == |st.added| + 1 && r.errors == st.errors
      && var a := r.added[|st.added|];
      a.name == s.name && a.className == s.className && a.phone == s.phone && a.email == s.email
      && a.emergencyContact == s.emergencyContact && a.emergencyPhone == s.emergencyPhone && a.notes == s.notes
  {
    ExportedLineForm(s, dateText);
    ExportedNameTrimmed(s, dateText);
    AcceptedFormAdded(start, defs, st, ExportedForm(s), i, freshId, today);
  }

  /** A CSV-safe student's name has no white space at either end. */
  lemma ExportedNameTrimmed(s: Student, dateText: string -> string)
    requires CsvSafe(s, dateText)
    ensures s.name == [] || (!Text.IsSpace(s.name[0]) && !Text.IsSpace(s.name[|s.name| - 1]))
  {
    assert Csv.PlainField(StudentCsvRow(s, dateText)[0]);
  }

  /** A form `addStudent` accepts, with a trimmed name, is added with its own
      fields. */
  lemma AcceptedFormAdded(start: seq<Student>, defs: D.Dict<ClassRecord>, st: StudentImport, form: StudentForm,
                          i: nat, freshId: string, today: string)
    requires AddStudentError(start + st.added, defs, form).None?
    requires form.name == [] || (!Text.IsSpace(form.name[0]) && !Text.IsSpace(form.name[|form.name| - 1]))
    ensures var r := ImportedLine(start, defs, st, Some(form), i, freshId, today);
      |r.added| == |st.added| + 1 && r.errors == st.errors
      && var a := r.added[|st.added|];
      a.name == form.name && a.className == form.className && a.phone == form.phone && a.email == form.email
      && a.emergencyContact == form.emergencyContact && a.emergencyPhone == form.emergencyPhone && a.notes == form.notes
  {
    Text.TrimOfTrimmed(form.name);
  }

  /** An exported student line passes the import's gate as the student's
      own form. */
  lemma ExportedLineForm(s: Student, dateText: string -> string)
    requires CsvSafe(s, dateText)
    requires s.name != "" && s.className != ""
    ensures LineForm(Csv.EncodeRow(StudentCsvRow(s, dateText))) == Some(ExportedForm(s))
  {
    var row := StudentCsvRow(s, dateText);
    assert forall j :: 0 <= j < |row| ==> Csv.PlainField(row[j]);
    ParseEncodedLine(row);
    Csv.EncodedRowNotBlank(row);
    GateOf(Csv.EncodeRow(row), ExportedForm(s));
  }

  /** A line of eight plain cells parses to the first seven of them. */
  lemma ParseEncodedLine(row: seq<string>)
    requires |row| == 8 && forall j :: 0 <= j < 8 ==> Csv.PlainField(row[j])
    ensures ParseStudentLine(Csv.EncodeRow(row)) == StudentForm(row[0], row[1], row[2], row[3], row[4], row[5], row[6])
  {
    Csv.DecodeEncodeRow(row);
  }

  /** A non-blank line that parses with a name and a class name passes the
      gate as what it parses to. */
  lemma GateOf(line: string, form: StudentForm)
    requires !Text.IsBlank(line) && ParseStudentLine(line) == form && form.name != "" && form.className != ""
    ensures LineForm(line) == Some(form)
  {
  }

  /** The manager: its list of students and the store it writes through. */
  class StudentManager {
    var students: seq<Student>
    const store: Store.DataManager

    constructor (dataManager: Store.DataManager)
      ensures store == dataManager && students == []
    {
      store := dataManager;
      students := [];
    }

    /** `loadStudents()`: the store's active students, as stored. */
    method LoadStudents() returns (r: seq<Student>)
      modifies this
      ensures students == Store.StudentsOf(store.students, "", "active") && r == students
      ensures forall s :: s in students <==> s in store.students && s.status == "active"
    {
      students := Store.StudentsOf(store.students, "", "active");
      r := students;
    }

    /** `addStudent(studentData)`: refused by the first failing check with
        nothing changed; otherwise the store appends the student and the list
        appends its formatted copy. The store always answers, so the
        "save failed" branch cannot be taken. */
    method AddStudent(form: StudentForm, freshId: string, today: string) returns (r: Result<Student, StudentError>)
      modifies this, store
      ensures r.Err? <==> AddStudentError(old(students), old(store.classDefinitions), form).Some?
      ensures r.Err? ==> (r.error == AddStudentError(old(students), old(store.classDefinitions), form).value
        && students == old(students) && store.students == old(store.students))
      ensures r.Ok? ==> (var classId := ClassIdByName(old(store.classDefinitions), form.className);
        r.value == NewStudent(form, classId, freshId, today) && students == old(students) + [r.value]
        && store.students == old(store.students) + [Store.NewStoredStudent(StorePatch(form, classId), freshId, today)])
      ensures store.attendance == old(store.attendance) && store.classSchedule == old(store.classSchedule)
      ensures store.classDefinitions == old(store.classDefinitions)
    {
      var err := AddStudentError(students, store.classDefinitions, form);
      if err.Some? {
        r := Err(err.value);
        return;
      }
      var classId := ClassIdByName(store.classDefinitions, form.className);
      var stored := store.AddStudent(StorePatch(form, classId), freshId, today);
      var s := Formatted(stored, form.className, classId);
      students := students + [s];
      r := Ok(s);
    }

    /** `updateStudent(studentId, updatedData)`: refused by the first failing
        check; otherwise the store spreads the updated student over its own
        copy and, when it knows the id, the list replaces that one student. */
    method UpdateStudent(id: string, patch: StudentPatch, now: string) returns (r: Result<Student, StudentError>)
      modifies this, store
      ensures UpdateStudentError(old(students), id, patch).Some? ==>
        (r == Err(UpdateStudentError(old(students), id, patch).value)
          && students == old(students) && store.students == old(store.students))
      ensures UpdateStudentError(old(students), id, patch).None? ==>
        (var i := Store.FindStudent(old(students), id).value;
         var u := Updated(old(students)[i], patch, old(store.classDefinitions), now);
         match Store.FindStudent(old(store.students), id)
         case Some(k) => r == Ok(u) && students == old(students)[i := u] && store.students == old(store.students)[k := u]
         case None => r == Err(SaveFailed) && students == old(students) && store.students == old(store.students))
      ensures store.attendance == old(store.attendance) && store.classSchedule == old(store.classSchedule)
      ensures store.classDefinitions == old(store.classDefinitions)
    {
      var err := UpdateStudentError(students, id, patch);
      if err.Some? {
        r := Err(err.value);
        return;
      }
      var i := Store.FindStudent(students, id).value;
      var u := Updated(students[i], patch, store.classDefinitions, now);
      var saved := store.UpdateStudent(id, AsPatch(u));
      if saved.Some? {
        MergeComplete(old(store.students)[Store.FindStudent(old(store.students), id).value], u);
        students := students[i := u];
        r := Ok(u);
      } else {
        r := Err(SaveFailed);
      }
    }

    /** `deleteStudent(studentId)`, with the answer to its confirmation given:
        an unknown id is an error; a declined confirmation while records exist
        returns false with nothing changed; otherwise the store cascades the
        delete and exactly that student leaves the list. */
    method DeleteStudent(id: string, confirmed: bool) returns (r: Result<bool, StudentError>)
      modifies this, store
      requires store.Valid()
      ensures store.Valid()
      ensures Store.FindStudent(old(students), id).None? <==> r == Err(NotFound)
      ensures r == Ok(true) <==> (Store.FindStudent(old(students), id).Some?
        && (|StudentAttendance(old(store.attendance), id)| == 0 || confirmed))
      ensures r != Ok(true) ==> (students == old(students) && store.students == old(store.students)
        && store.attendance == old(store.attendance))
      ensures r == Ok(true) ==> (var i := Store.FindStudent(old(students), id).value;
        students == old(students)[..i] + old(students)[i + 1..]
        && store.students == Seqs.Filter(old(store.students), (s: Student) => s.id != id)
        && store.attendance == D.KeepKeys(old(store.attendance), (k: string) => !Text.Contains(k, id)))
      ensures store.classSchedule == old(store.classSchedule) && store.classDefinitions == old(store.classDefinitions)
    {
      var found := Store.FindStudent(students, id);
      if found.None? {
        r := Err(NotFound);
        return;
      }
      var records := StudentAttendance(store.attendance, id);
      if |records| > 0 && !confirmed {
        r := Ok(false);
        return;
      }
      store.DeleteStudent(id);
      students := students[..found.value] + students[found.value + 1..];
      r := Ok(true);
    }

    /** `getStudentsCountByClass()`: one key per class name (未分班 for none),
        counting the students under it; the counts add up to the list's length. */
    method StudentsCountByClass() returns (counts: D.Dict<int>)
      ensures D.WellFormed(counts) && Total(counts) == |students|
      ensures forall k :: D.Get(counts, k).GetOr(0) == Seqs.Count(students, (s: Student) => ClassLabel(s) == k)
    {
      counts := [];
      var i := 0;
      while i < |students|
        invariant 0 <= i <= |students|
        invariant D.WellFormed(counts) && Total(counts) == i
        invariant forall k :: D.Get(counts, k).GetOr(0) == Seqs.Count(students[..i], (s: Student) => ClassLabel(s) == k)
      {
        var tag := ClassLabel(students[i]);
        D.PutWellFormed(counts, tag, D.Get(counts, tag).GetOr(0) + 1);
        TotalPut(counts, tag, D.Get(counts, tag).GetOr(0) + 1);
        forall k
          ensures D.Get(Bump(counts, tag), k).GetOr(0) == Seqs.Count(students[..i + 1], (s: Student) => ClassLabel(s) == k)
        {
          BumpGet(counts, tag, k);
          CountStep(students, i, k);
        }
        counts := Bump(counts, tag);
        i := i + 1;
      }
      assert students[..i] == students;
    }

    /** One turn of the import loop, on line `i` whose gate gave `gate`: a
        line that fails the gate is skipped, any other is handed to
        `addStudent` and counted as added or logged as refused. The list, the
        store's students and the tallies move as `ImportedLine` says, the
        list being `start` and the store's list `stored` followed by the
        students added so far. */
    method ImportStep(ghost start: seq<Student>, ghost stored: seq<Student>, ghost st: StudentImport,
                      gate: Option<StudentForm>, i: nat, freshId: string, today: string,
                      success: nat, errors: seq<RowError>)
      returns (success': nat, errors': seq<RowError>)
      modifies this, store
      requires students == start + st.added && store.students == stored + st.stored
      requires success == |st.added| && errors == st.errors
      ensures var t := ImportedLine(start, old(store.classDefinitions), st, gate, i, freshId, today);
        students == start + t.added && store.students == stored + t.stored
        && success' == |t.added| && errors' == t.errors
      ensures store.attendance == old(store.attendance) && store.classSchedule == old(store.classSchedule)
      ensures store.classDefinitions == old(store.classDefinitions)
    {
      success', errors' := success, errors;
      if gate.None? {
        return;
      }
      var r := AddStudent(gate.value, freshId, today);
      match r {
        case Ok(s) =>
          assert start + (st.added + [s]) == (start + st.added) + [s];
          assert stored + (st.stored + [store.students[|store.students| - 1]]) == (stored + st.stored) + [store.students[|store.students| - 1]];
          success' := success + 1;
        case Err(e) =>
          errors' := errors + [RowError(i + 1, e)];
      }
    }

    /** `importStudentsFromCSV(csvContent)`: every non-blank line after the
        first with a name and a class name is handed to `addStudent`; each
        refusal is logged with its line number. `freshIdAt(i)` is the id the
        store gives the student of line `i`. The list, the store's students
        and the tallies end as `ImportStudents` says; nothing else in the
        store changes. */
    method ImportStudentsFromCSV(csv: string, freshIdAt: nat -> string, today: string)
      returns (success: nat, errors: seq<RowError>, total: int)
      modifies this, store
      ensures var lines := Text.Split(csv, '\n');
        var p := ImportStudents(Seqs.Map(lines, LineForm), freshIdAt, today, old(students), old(store.classDefinitions), |lines|);
        total == |lines| - 1 && students == old(students) + p.added && store.students == old(store.students) + p.stored
        && success == |p.added| && errors == p.errors
      ensures success + |errors| <= total
      ensures store.attendance == old(store.attendance) && store.classSchedule == old(store.classSchedule)
      ensures store.classDefinitions == old(store.classDefinitions)
    {
      var lines := Text.Split(csv, '\n');
      ghost var gates := Seqs.Map(lines, LineForm);
      ghost var start := students;
      ghost var stored := store.students;
      ghost var defs := store.classDefinitions;
      total := |lines| - 1;
      success := 0;
      errors := [];
      var i := 1;
      while i < |lines|
        invariant 1 <= i <= |lines|
        invariant var p := ImportStudents(gates, freshIdAt, today, start, defs, i);
          students == start + p.added && store.students == stored + p.stored && success == |p.added| && errors == p.errors
        invariant store.attendance == old(store.attendance) && store.classSchedule == old(store.classSchedule)
        invariant store.classDefinitions == defs
      {
        ghost var p := ImportStudents(gates, freshIdAt, today, start, defs, i);
        var gate := LineForm(lines[i]);
        assert gate == gates[i];
        assert ImportStudents(gates, freshIdAt, today, start, defs, i + 1)
          == ImportedLine(start, defs, p, gate, i, freshIdAt(i), today);
        success, errors := ImportStep(start, stored, p, gate, i, freshIdAt(i), today, success, errors);
        i := i + 1;
      }
    }
  }
}
