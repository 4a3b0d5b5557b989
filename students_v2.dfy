/** The second student manager (`google-sites-deploy-backup/js/students.js`):
    it normalises what it loads, filters out inactive students, takes the
    class id a form carries, checks duplicates by (name, class id), keeps
    stored contact details an edit leaves blank, and searches nicknames too.
    The checks of `updateStudent`, the cascade of `deleteStudent` and the
    class lookup by name behave as in the first manager. */
module StudentsV2 {
  import opened Wrappers
  import opened Entities
  import Text
  import Seqs
  import D = Dict
  import Store
  import V1 = StudentsV1

  /** The object a form hands to `addStudent`: the first manager's fields
      plus a nickname and, when the form already knows it, the class id. */
  datatype StudentForm = StudentForm(
    name: string, nickname: string, className: string, classId: string,
    phone: string, email: string, emergencyContact: string, emergencyPhone: string, notes: string)

  // ---------------------------------------------------------------- loading and filters

  /** One stored student as `loadStudents` lists it. */
  function Normalised(s: Student, defs: D.Dict<ClassRecord>): (r: Student)
    ensures r.id == s.id && r.name == s.name && r.classRef == s.classRef
    ensures r.classId == s.classRef && r.className == Store.ClassName(defs, s.classRef)
    ensures r.status == Or(s.status, "active") && r.status != "" && r.nickname == s.nickname
    ensures r.emergencyContact == s.emergencyContactName && r.emergencyPhone == s.emergencyContactPhone
    ensures r.emergencyContactName == s.emergencyContactName && r.emergencyContactPhone == s.emergencyContactPhone
    ensures r.phone == s.phone && r.email == s.email && r.notes == s.notes
  {
    s.(classId := s.classRef, className := Store.ClassName(defs, s.classRef),
       status := Or(s.status, "active"), nickname := Or(s.nickname, ""),
       emergencyContact := Or(s.emergencyContactName, ""), emergencyPhone := Or(s.emergencyContactPhone, ""))
  }

  /** Normalising is idempotent: a loaded student loads back unchanged. */
  lemma NormalisedTwice(s: Student, defs: D.Dict<ClassRecord>)
    ensures Normalised(Normalised(s, defs), defs) == Normalised(s, defs)
  {
  }

  /** `loadStudents()`'s list: the store's active students, normalised.
      `getStudents()` returns active students only, so the `'active'` default
      never fires. */
  function Loaded(stored: seq<Student>, defs: D.Dict<ClassRecord>): (r: seq<Student>)
    ensures |r| == |Store.StudentsOf(stored, "", "active")|
    ensures forall i :: 0 <= i < |r| ==>
      (r[i].status == "active" && r[i] == Normalised(Store.StudentsOf(stored, "", "active")[i], defs))
  {
    var active := Store.StudentsOf(stored, "", "active");
    assert forall i :: 0 <= i < |active| ==> active[i] in active;
    Seqs.Map(active, (s: Student) => Normalised(s, defs))
  }

  /** `getActiveStudents()`. */
  function ActiveStudents(students: seq<Student>): (r: seq<Student>)
    ensures forall s :: s in r <==> s in students && s.status != "inactive"
  {
    Seqs.Filter(students, (s: Student) => s.status != "inactive")
  }

  /** `getStudentsByClass(classId)`: the non-inactive students whose stored
      `class` is that id. */
  function StudentsByClass(students: seq<Student>, classId: string): (r: seq<Student>)
    ensures forall s :: s in r <==> s in students && s.classRef == classId && s.status != "inactive"
  {
    Seqs.Filter(students, (s: Student) => s.classRef == classId && s.status != "inactive")
  }

  /** A class's students are the active students of that class, in the same order. */
  lemma ByClassWithinActive(students: seq<Student>, classId: string)
    ensures StudentsByClass(students, classId)
      == Seqs.Filter(ActiveStudents(students), (s: Student) => s.classRef == classId)
  {
    Seqs.FilterFilterAs(students, (s: Student) => s.status != "inactive", (s: Student) => s.classRef == classId,
      (s: Student) => s.classRef == classId && s.status != "inactive");
  }

  // ---------------------------------------------------------------- classes by name

  /** The position of the first class in the list with that name. */
  function FirstClassNamed(classes: seq<ClassRecord>, className: string): (r: Option<nat>)
    ensures r.None? <==> forall i :: 0 <= i < |classes| ==> classes[i].name != className
    ensures r.Some? ==> (r.value < |classes| && classes[r.value].name == className
      && forall i :: 0 <= i < r.value ==> classes[i].name != className)
  {
    if classes == [] then None
    else if classes[0].name == className then Some(0)
    else match FirstClassNamed(classes[1..], className)
      case None => None
      case Some(i) => Some(i + 1)
  }

  /** `getClassIdByName(className)`: the id of the first class `getClasses()`
      lists under that name; "" stands for `null`. */
  function ClassIdByName(classes: seq<ClassRecord>, className: string): string {
    match FirstClassNamed(classes, className)
    case None => ""
    case Some(i) => classes[i].id
  }

  /** Looking the name up in the class list finds the same id as looking it
      up in the definitions, as the first manager does. */
  lemma SameClassLookup(defs: D.Dict<ClassRecord>, className: string, now: string)
    ensures ClassIdByName(Store.ClassList(defs, now), className) == V1.ClassIdByName(defs, className)
  {
    var list := Store.ClassList(defs, now);
    var a := FirstClassNamed(list, className);
    var b := V1.FirstNamed(defs, className);
    assert a.None? <==> b.None?;
    assert a.Some? ==> a.value == b.value;
  }

  // ---------------------------------------------------------------- addStudent

  /** The class id `addStudent` settles on: the form's own, else the one found by name. */
  function ResolvedClassId(classes: seq<ClassRecord>, form: StudentForm): string {
    Or(form.classId, ClassIdByName(classes, form.className))
  }

  /** A listed student already has that name and class id. */
  predicate Duplicate(students: seq<Student>, name: string, classId: string) {
    exists i :: 0 <= i < |students| && students[i].name == name && students[i].classId == classId
  }

  /** The first check `addStudent` fails, if any: a missing field, a class
      id that neither the form nor the name supplies, then a duplicate. */
  function AddStudentError(students: seq<Student>, classes: seq<ClassRecord>, form: StudentForm): (r: Option<V1.StudentError>)
    ensures r == Some(V1.MissingFields) <==> (form.name == "" || form.className == "")
    ensures r == Some(V1.UnknownClass) ==> (form.classId == "" && ClassIdByName(classes, form.className) == "")
    ensures r == Some(V1.DuplicateName) ==> Duplicate(students, form.name, ResolvedClassId(classes, form))
    ensures r.None? ==> (ResolvedClassId(classes, form) != "" && !Duplicate(students, form.name, ResolvedClassId(classes, form)))
  {
    if form.name == "" || form.className == "" then Some(V1.MissingFields)
    else if ResolvedClassId(classes, form) == "" then Some(V1.UnknownClass)
    else if Duplicate(students, form.name, ResolvedClassId(classes, form)) then Some(V1.DuplicateName)
    else None
  }

  /** A form carrying a class id is never refused for an unknown class, whatever its name. */
  lemma GivenClassIdIsUsed(students: seq<Student>, classes: seq<ClassRecord>, form: StudentForm)
    requires form.classId != ""
    ensures AddStudentError(students, classes, form) != Some(V1.UnknownClass)
    ensures ResolvedClassId(classes, form) == form.classId
  {
  }

  /** `studentForDataManager`: what `addStudent` hands to the store. */
  function StorePatch(form: StudentForm, classId: string, now: string): StudentPatch {
    EmptyPatch.(name := Some(Text.Trim(form.name)), nickname := Some(form.nickname), classRef := Some(classId),
      phone := Some(form.phone), email := Some(form.email),
      emergencyContactName := Some(form.emergencyContact), emergencyContactPhone := Some(form.emergencyPhone),
      notes := Some(form.notes), createdAt := Some(now), updatedAt := Some(now))
  }

  /** `formattedStudent`: the stored student with the display fields added. */
  function Formatted(stored: Student, className: string, classId: string): Student {
    stored.(className := className, classId := classId, nickname := Or(stored.nickname, ""),
      emergencyContact := stored.emergencyContactName, emergencyPhone := stored.emergencyContactPhone)
  }

  /** The student `addStudent` appends to its list. */
  function NewStudent(form: StudentForm, classId: string, freshId: string, today: string, now: string): (s: Student)
    ensures s.id == freshId && s.name == Text.Trim(form.name) && s.nickname == form.nickname
    ensures s.status == "active" && s.joinDate == today && s.createdAt == now && s.updatedAt == now
    ensures s.classRef == classId && s.classId == classId && s.className == form.className
    ensures s.phone == form.phone && s.email == form.email && s.notes == form.notes
    ensures s.emergencyContact == form.emergencyContact && s.emergencyPhone == form.emergencyPhone
  {
    Formatted(Store.NewStoredStudent(StorePatch(form, classId, now), freshId, today), form.className, classId)
  }

  /** Once a form has been added, the same form is refused as a duplicate
      (when its name carries no surrounding white space for `trim` to take). */
  lemma AddedFormIsDuplicate(students: seq<Student>, classes: seq<ClassRecord>, form: StudentForm,
                             freshId: string, today: string, now: string)
    requires AddStudentError(students, classes, form).None?
    requires Text.Trim(form.name) == form.name
    ensures AddStudentError(students + [NewStudent(form, ResolvedClassId(classes, form), freshId, today, now)], classes, form)
      == Some(V1.DuplicateName)
  {
    var after := students + [NewStudent(form, ResolvedClassId(classes, form), freshId, today, now)];
    assert after[|students|].name == form.name;
    assert Duplicate(after, form.name, ResolvedClassId(classes, form));
  }

  // ---------------------------------------------------------------- updateStudent

  /** A stored contact value survives an edit that leaves that field empty or absent. */
  function Kept(stored: string, given: Option<string>, merged: string): string {
    if stored != "" && given.GetOr("") == "" then stored else merged
  }

  /** `updatedStudent`: the patch spread over the student with a new
      `updatedAt`, the four contact fields kept where the edit leaves them
      blank, and the class id looked up again when a class name is given. */
  function Updated(s: Student, patch: StudentPatch, classes: seq<ClassRecord>, now: string): (r: Student)
    ensures r.phone == Or(patch.phone.GetOr(""), s.phone)
    ensures r.email == Or(patch.email.GetOr(""), s.email)
    ensures r.emergencyContact == Or(patch.emergencyContact.GetOr(""), s.emergencyContact)
    ensures r.emergencyPhone == Or(patch.emergencyPhone.GetOr(""), s.emergencyPhone)
    ensures r.updatedAt == now
    ensures r.classId == if patch.className.GetOr("") != "" then ClassIdByName(classes, patch.className.value)
      else patch.classId.GetOr(s.classId)
    ensures r.name == patch.name.GetOr(s.name) && r.className == patch.className.GetOr(s.className)
    ensures r.emergencyContactName == patch.emergencyContactName.GetOr(s.emergencyContactName)
    ensures r.emergencyContactPhone == patch.emergencyContactPhone.GetOr(s.emergencyContactPhone)
  {
    var merged := MergeStudent(s, patch).(updatedAt := now);
    var kept := merged.(
      phone := Kept(s.phone, patch.phone, merged.phone),
      email := Kept(s.email, patch.email, merged.email),
      emergencyContact := Kept(s.emergencyContact, patch.emergencyContact, merged.emergencyContact),
      emergencyPhone := Kept(s.emergencyPhone, patch.emergencyPhone, merged.emergencyPhone));
    if patch.className.GetOr("") != "" then kept.(classId := ClassIdByName(classes, patch.className.value)) else kept
  }

  /** A blank edit never erases a stored contact value, and a filled one
      always replaces it. */
  lemma BlankEditKeepsContacts(s: Student, patch: StudentPatch, classes: seq<ClassRecord>, now: string)
    ensures var r := Updated(s, patch, classes, now);
      && (patch.phone.GetOr("") == "" ==> r.phone == s.phone)
      && (patch.phone.GetOr("") != "" ==> r.phone == patch.phone.value)
      && (patch.email.GetOr("") == "" ==> r.email == s.email)
      && (patch.emergencyContact.GetOr("") == "" ==> r.emergencyContact == s.emergencyContact)
      && (patch.emergencyPhone.GetOr("") == "" ==> r.emergencyPhone == s.emergencyPhone)
  {
  }

  /** As written, the edit of an emergency contact reaches only the display
      field: the store keeps the old `emergencyContactName`, and the next
      `loadStudents` shows that one again. */
  lemma ReloadShowsStoredContact(s: Student, patch: StudentPatch, classes: seq<ClassRecord>, defs: D.Dict<ClassRecord>, now: string)
    ensures Normalised(Updated(s, patch, classes, now), defs).emergencyContact
      == patch.emergencyContactName.GetOr(s.emergencyContactName)
    ensures Normalised(Updated(s, patch, classes, now), defs).emergencyPhone
      == patch.emergencyContactPhone.GetOr(s.emergencyContactPhone)
  {
  }

  /** An edit the form makes: a student whose contact is A, edited to B,
      reloads with A. */
  lemma EditedContactLostOnReload()
    ensures var s := NoStudent.(emergencyContactName := "A", emergencyContact := "A");
      var patch := EmptyPatch.(emergencyContact := Some("B"));
      Normalised(Updated(s, patch, [], "t"), []).emergencyContact == "A"
  {
    var s := NoStudent.(emergencyContactName := "A", emergencyContact := "A");
    var patch := EmptyPatch.(emergencyContact := Some("B"));
    ReloadShowsStoredContact(s, patch, [], [], "t");
  }

  /** The update the code evidently intends: the edited contact is also
      written to the stored fields `loadStudents` reads. */
  function UpdatedIntended(s: Student, patch: StudentPatch, classes: seq<ClassRecord>, now: string): Student {
    var u := Updated(s, patch, classes, now);
    u.(emergencyContactName := u.emergencyContact, emergencyContactPhone := u.emergencyPhone)
  }

  /** With the intended update, a reload shows the contact as edited (or as
      kept, for a blank edit). */
  lemma IntendedReloadKeepsEdit(s: Student, patch: StudentPatch, classes: seq<ClassRecord>, defs: D.Dict<ClassRecord>, now: string)
    ensures Normalised(UpdatedIntended(s, patch, classes, now), defs).emergencyContact
      == Or(patch.emergencyContact.GetOr(""), s.emergencyContact)
    ensures Normalised(UpdatedIntended(s, patch, classes, now), defs).emergencyPhone
      == Or(patch.emergencyPhone.GetOr(""), s.emergencyPhone)
    ensures Normalised(UpdatedIntended(s, patch, classes, now), defs).phone == Or(patch.phone.GetOr(""), s.phone)
  {
  }

  // ---------------------------------------------------------------- search

  /** The first manager's fields, plus the nickname. */
  predicate Matches(s: Student, term: string) {
    V1.Matches(s, term) || (s.nickname != "" && Text.Contains(Text.Lower(s.nickname), term))
  }

  /** `searchStudents(searchTerm)`. */
  function SearchStudents(students: seq<Student>, searchTerm: string): (r: seq<Student>)
    ensures Text.IsBlank(searchTerm) ==> r == students
    ensures !Text.IsBlank(searchTerm) ==>
      forall s :: s in r <==> s in students && Matches(s, Text.Trim(Text.Lower(searchTerm)))
  {
    if Text.IsBlank(searchTerm) then students
    else Seqs.Filter(students, (s: Student) => Matches(s, Text.Trim(Text.Lower(searchTerm))))
  }

  /** Every student the first manager's search finds, this one finds too;
      searching for a student's own nickname finds that student. */
  lemma SearchWidensFirst(students: seq<Student>, searchTerm: string)
    ensures forall s :: s in V1.SearchStudents(students, searchTerm) ==> s in SearchStudents(students, searchTerm)
  {
  }

  lemma SearchFindsOwnNickname(students: seq<Student>, i: nat)
    requires i < |students| && !Text.IsBlank(students[i].nickname)
    ensures students[i] in SearchStudents(students, students[i].nickname)
  {
    Text.TrimIsInfix(Text.Lower(students[i].nickname));
  }

  // ---------------------------------------------------------------- the manager

  /** The manager: its list of students and the store it writes through. */
  class StudentManager {
    var students: seq<Student>
    const store: Store.DataManager

    constructor (dataManager: Store.DataManager)
      ensures store == dataManager && students == []
    {
      store := dataManager;
      students := [];
    }

    /** `loadStudents()`: the store's active students, normalised. */
    method LoadStudents() returns (r: seq<Student>)
      modifies this
      ensures students == Loaded(store.students, store.classDefinitions) && r == students
    {
      students := Loaded(store.students, store.classDefinitions);
      r := students;
    }

    /** `addStudent(studentData)`: refused by the first failing check with
        nothing changed; otherwise the store appends the student and the list
        appends its formatted copy. `now` is both the clock reading the
        timestamps take and the one `getClasses()` fills missing dates with. */
    method AddStudent(form: StudentForm, freshId: string, today: string, now: string) returns (r: Result<Student, V1.StudentError>)
      modifies this, store
      ensures var classes := Store.ClassList(old(store.classDefinitions), now);
        && (r.Err? <==> AddStudentError(old(students), classes, form).Some?)
        && (r.Err? ==> (r.error == AddStudentError(old(students), classes, form).value
              && students == old(students) && store.students == old(store.students)))
        && (r.Ok? ==> (r.value == NewStudent(form, ResolvedClassId(classes, form), freshId, today, now)
              && students == old(students) + [r.value]
              && store.students == old(store.students)
                + [Store.NewStoredStudent(StorePatch(form, ResolvedClassId(classes, form), now), freshId, today)]))
      ensures store.attendance == old(store.attendance) && store.classSchedule == old(store.classSchedule)
      ensures store.classDefinitions == old(store.classDefinitions)
    {
      var classes := Store.ClassList(store.classDefinitions, now);
      var err := AddStudentError(students, classes, form);
      if err.Some? {
        r := Err(err.value);
        return;
      }
      var classId := ResolvedClassId(classes, form);
      var stored := store.AddStudent(StorePatch(form, classId, now), freshId, today);
      var s := Formatted(stored, form.className, classId);
      students := students + [s];
      r := Ok(s);
    }

    /** `updateStudent(studentId, updatedData)`: the first manager's checks;
        then the store spreads the updated student over its copy and, when it
        knows the id, the list replaces that one student. */
    method UpdateStudent(id: string, patch: StudentPatch, now: string) returns (r: Result<Student, V1.StudentError>)
      modifies this, store
      ensures V1.UpdateStudentError(old(students), id, patch).Some? ==>
        (r == Err(V1.UpdateStudentError(old(students), id, patch).value)
          && students == old(students) && store.students == old(store.students))
      ensures V1.UpdateStudentError(old(students), id, patch).None? ==>
        (var i := Store.FindStudent(old(students), id).value;
         var u := Updated(old(students)[i], patch, Store.ClassList(old(store.classDefinitions), now), now);
         match Store.FindStudent(old(store.students), id)
         case Some(k) => r == Ok(u) && students == old(students)[i := u] && store.students == old(store.students)[k := u]
         case None => r == Err(V1.SaveFailed) && students == old(students) && store.students == old(store.students))
      ensures store.attendance == old(store.attendance) && store.classSchedule == old(store.classSchedule)
      ensures store.classDefinitions == old(store.classDefinitions)
    {
      var err := V1.UpdateStudentError(students, id, patch);
      if err.Some? {
        r := Err(err.value);
        return;
      }
      var i := Store.FindStudent(students, id).value;
      var u := Updated(students[i], patch, Store.ClassList(store.classDefinitions, now), now);
      var saved := store.UpdateStudent(id, AsPatch(u));
      if saved.Some? {
        MergeComplete(old(store.students)[Store.FindStudent(old(store.students), id).value], u);
        students := students[i := u];
        r := Ok(u);
      } else {
        r := Err(V1.SaveFailed);
      }
    }

    /** `deleteStudent(studentId)`, with the answer to its confirmation given. */
    method DeleteStudent(id: string, confirmed: bool) returns (r: Result<bool, V1.StudentError>)
      modifies this, store
      requires store.Valid()
      ensures store.Valid()
      ensures Store.FindStudent(old(students), id).None? <==> r == Err(V1.NotFound)
      ensures r == Ok(true) <==> (Store.FindStudent(old(students), id).Some?
        && (|V1.StudentAttendance(old(store.attendance), id)| == 0 || confirmed))
      ensures r != Ok(true) ==> (students == old(students) && store.students == old(store.students)
        && store.attendance == old(store.attendance))
      ensures r == Ok(true) ==> (var i := Store.FindStudent(old(students), id).value;
        students == old(students)[..i] + old(students)[i + 1..]
        && store.students == Seqs.Filter(old(store.students), (s: Student) => s.id != id)
        && store.attendance == D.KeepKeys(old(store.attendance), (k: string) => !Text.Contains(k, id)))
      ensures store.classSchedule == old(store.classSchedule) && store.classDefinitions == old(store.classDefinitions)
    {
      var found := Store.FindStudent(students, id);
      if found.None? {
        r := Err(V1.NotFound);
        return;
      }
      var records := V1.StudentAttendance(store.attendance, id);
      if |records| > 0 && !confirmed {
        r := Ok(false);
        return;
      }
      store.DeleteStudent(id);
      students := students[..found.value] + students[found.value + 1..];
      r := Ok(true);
    }
  }
}
