/** The helpers of the page controller (`js/app.js`) that compute rather than
    draw: the day arithmetic behind the attendance date buttons, the weekday
    and colour labels, the status toggle, and the checks `saveStudent` and
    `saveClass` make on a form before handing it to a manager. */
module App {
  import opened Wrappers
  import opened Entities
  import Text
  import Classes
  import StudentsV1
  import D = Dict
  import Store

  // ---------------------------------------------------------------- class dates

  /** Day `k` from today (negative: in the past) falls on weekday `targetDay`
      when today is weekday `currentDay`. */
  predicate ClassDay(currentDay: int, targetDay: int, k: int) {
    (k - (targetDay - currentDay)) % 7 == 0
  }

  /** The day arithmetic of `calculateClassDate(baseDate, dayOfWeek, offset)`:
      how many days from today (weekday `currentDay`) the class on weekday
      `targetDay` is shown for the button `offset` (-1 previous, 0 today,
      1 next, 2 the one after); any other offset keeps the plain difference. */
  function DaysToTarget(currentDay: int, targetDay: int, offset: int): int {
    var d := targetDay - currentDay;
    if offset == 0 then (if d < 0 then d + 7 else d)
    else if offset == -1 then (if d > 0 then d - 7 else if d == 0 then -7 else d - 7)
    else if offset == 1 then (if d <= 0 then d + 7 else d)
    else if offset == 2 then (if d <= 0 then d + 14 else d + 7)
    else d
  }

  /** `calculateClassDate` as a day count: `parseInt(dayOfWeek)` is `NaN` for a
      day that holds no number, and the date computed from it is invalid. */
  function ClassDateOffset(currentDay: int, dayOfWeek: DayValue, offset: int): (r: Option<int>)
    ensures r.None? <==> ParseDay(dayOfWeek).NaN?
    ensures r.Some? ==> r.value == DaysToTarget(currentDay, ParseDay(dayOfWeek).n, offset)
  {
    match ParseDay(dayOfWeek)
    case Number(t) => Some(DaysToTarget(currentDay, t, offset))
    case _ => None
  }

  /** For weekdays 0–6 every button lands on a class day, in these ranges:
      today's class within the coming week, the next one a day to a week
      ahead, the one after eight to fourteen days ahead, and the previous one
      one to thirteen days back. */
  lemma DaysToTargetRanges(currentDay: int, targetDay: int, offset: int)
    requires 0 <= currentDay < 7 && 0 <= targetDay < 7
    requires offset in {-1, 0, 1, 2}
    ensures ClassDay(currentDay, targetDay, DaysToTarget(currentDay, targetDay, offset))
    ensures offset == 0 ==> 0 <= DaysToTarget(currentDay, targetDay, offset) <= 6
    ensures offset == 1 ==> 1 <= DaysToTarget(currentDay, targetDay, offset) <= 7
    ensures offset == 2 ==> 8 <= DaysToTarget(currentDay, targetDay, offset) <= 14
    ensures offset == -1 ==> -13 <= DaysToTarget(currentDay, targetDay, offset) <= -1
  {
  }

  /** No class day lies in `[lo, hi)`. */
  predicate NoClassDayIn(currentDay: int, targetDay: int, lo: int, hi: int) {
    forall k :: lo <= k < hi ==> !ClassDay(currentDay, targetDay, k)
  }

  /** Two class days are a whole number of weeks apart, so two within a week
      of each other are the same day. */
  lemma ClassDaysAWeekApart(currentDay: int, targetDay: int, j: int, k: int)
    requires ClassDay(currentDay, targetDay, j) && ClassDay(currentDay, targetDay, k)
    requires j <= k < j + 7
    ensures j == k
  {
    var d := targetDay - currentDay;
    var a := (j - d) / 7;
    var b := (k - d) / 7;
    assert j - d == 7 * a && k - d == 7 * b;
    assert 0 <= 7 * (b - a) < 7;
  }

  /** A class day `r` with no other class day in the week before it is the
      first class day after `r - 7`. */
  lemma FirstAfter(currentDay: int, targetDay: int, r: int)
    requires ClassDay(currentDay, targetDay, r)
    ensures NoClassDayIn(currentDay, targetDay, r - 6, r)
  {
    forall k | r - 6 <= k < r
      ensures !ClassDay(currentDay, targetDay, k)
    {
      if ClassDay(currentDay, targetDay, k) {
        ClassDaysAWeekApart(currentDay, targetDay, k, r);
      }
    }
  }

  /** What the buttons mean, read off the arithmetic: "today" is the first
      class day from today on, "next" the first one after today, and "the
      one after" the first one after that. "Previous" is the latest class day
      before today only when the class weekday is not earlier in the week
      than today. */
  lemma {:induction false} DaysToTargetNearest(currentDay: int, targetDay: int)
    requires 0 <= currentDay < 7 && 0 <= targetDay < 7
    ensures NoClassDayIn(currentDay, targetDay, 0, DaysToTarget(currentDay, targetDay, 0))
    ensures NoClassDayIn(currentDay, targetDay, 1, DaysToTarget(currentDay, targetDay, 1))
    ensures NoClassDayIn(currentDay, targetDay, DaysToTarget(currentDay, targetDay, 1) + 1, DaysToTarget(currentDay, targetDay, 2))
    ensures targetDay >= currentDay ==> NoClassDayIn(currentDay, targetDay, DaysToTarget(currentDay, targetDay, -1) + 1, 0)
  {
    var r0 := DaysToTarget(currentDay, targetDay, 0);
    var r1 := DaysToTarget(currentDay, targetDay, 1);
    var r2 := DaysToTarget(currentDay, targetDay, 2);
    var rp := DaysToTarget(currentDay, targetDay, -1);
    DaysToTargetRanges(currentDay, targetDay, 0);
    DaysToTargetRanges(currentDay, targetDay, 1);
    DaysToTargetRanges(currentDay, targetDay, 2);
    FirstAfter(currentDay, targetDay, r0);
    FirstAfter(currentDay, targetDay, r1);
    FirstAfter(currentDay, targetDay, r2);
    assert r2 == r1 + 7;
    if targetDay >= currentDay {
      DaysToTargetRanges(currentDay, targetDay, -1);
      assert rp == r0 - 7;
      forall k | rp + 1 <= k < 0
        ensures !ClassDay(currentDay, targetDay, k)
      {
        if ClassDay(currentDay, targetDay, k) {
          ClassDaysAWeekApart(currentDay, targetDay, rp, k);
        }
      }
    }
  }

  /** As written, "previous" goes back two classes when the class weekday is
      earlier in the week than today: on a Wednesday, for a Monday class, it
      shows the Monday nine days back, although the class two days back lies
      between it and today. */
  lemma PreviousSkipsAClass()
    ensures DaysToTarget(3, 1, -1) == -9
    ensures ClassDay(3, 1, -2) && DaysToTarget(3, 1, -1) < -2 < 0
  {
  }

  /** The day arithmetic as evidently intended: "previous" is always one week
      before "today", the latest class day before today. */
  function DaysToTargetIntended(currentDay: int, targetDay: int, offset: int): int {
    var d := targetDay - currentDay;
    if offset == -1 then (if d < 0 then d else d - 7)
    else DaysToTarget(currentDay, targetDay, offset)
  }

  /** The intended "previous" lands on a class day within the past week,
      with no class day between it and today, a week before "today". */
  lemma {:induction false} IntendedPreviousIsLatest(currentDay: int, targetDay: int)
    requires 0 <= currentDay < 7 && 0 <= targetDay < 7
    ensures var r := DaysToTargetIntended(currentDay, targetDay, -1);
      ClassDay(currentDay, targetDay, r) && -7 <= r <= -1
      && r == DaysToTargetIntended(currentDay, targetDay, 0) - 7
      && NoClassDayIn(currentDay, targetDay, r + 1, 0)
  {
    var r := DaysToTargetIntended(currentDay, targetDay, -1);
    assert ClassDay(currentDay, targetDay, r);
    forall k | r + 1 <= k < 0
      ensures !ClassDay(currentDay, targetDay, k)
    {
      if ClassDay(currentDay, targetDay, k) {
        ClassDaysAWeekApart(currentDay, targetDay, r, k);
      }
    }
  }

  // ---------------------------------------------------------------- labels

  /** `getDayName(dayOfWeek)`: `days[parseInt(dayOfWeek)] || ''`. */
  function DayName(dayOfWeek: DayValue): (r: string)
    ensures r != "" <==> ParseDay(dayOfWeek).Number? && 0 <= ParseDay(dayOfWeek).n < 7
    ensures r != "" ==> r == Classes.DayNames[ParseDay(dayOfWeek).n]
  {
    match ParseDay(dayOfWeek)
    case Number(n) => if 0 <= n < 7 then Classes.DayNameLength(n); Classes.DayNames[n] else ""
    case _ => ""
  }

  /** On numbers the page and the class manager name days alike; the page
      also names a day stored as text with white space or a sign around it,
      which the manager leaves unnamed. */
  lemma DayNameAgreesWithClasses(n: int)
    ensures DayName(Number(n)) == Classes.GetDayName(Number(n))
    ensures DayName(Str(" 3")) == Classes.DayNames[3] && Classes.GetDayName(Str(" 3")) == ""
  {
    assert Text.TrimStart(" 3") == "3";
    assert Text.DigitRun("3", false) == "3";
  }

  /** One colour rule: any of the keywords selects the class. */
  datatype ColourRule = ColourRule(keywords: seq<string>, cssClass: string)

  /** The rules in the order they are tried. */
  const ColourRules: seq<ColourRule> := [
    ColourRule(["青年", "Youth"], "class-youth"),
    ColourRule(["兒童", "Children"], "class-children"),
    ColourRule(["家規", "Family"], "class-family")]

  /** The name contains one of the keywords. */
  predicate AnyKeyword(keywords: seq<string>, className: string) {
    keywords != [] && (Text.Contains(className, keywords[0]) || AnyKeyword(keywords[1..], className))
  }

  lemma KeywordPair(a: string, b: string, className: string)
    ensures AnyKeyword([a, b], className) <==> Text.Contains(className, a) || Text.Contains(className, b)
  {
    assert [a, b][1..] == [b];
    assert [b][1..] == [];
    assert !AnyKeyword([], className);
    assert AnyKeyword([b], className) <==> Text.Contains(className, b);
  }

  /** The class of the first rule with a keyword in the name, else the default. */
  function FirstRule(rules: seq<ColourRule>, className: string): string {
    if rules == [] then "class-default"
    else if AnyKeyword(rules[0].keywords, className) then rules[0].cssClass
    else FirstRule(rules[1..], className)
  }

  /** `getClassColorClass(className)`. */
  function ClassColorClass(className: string): (r: string)
    ensures r in {"class-unassigned", "class-youth", "class-children", "class-family", "class-default"}
    ensures r == "class-unassigned" <==> className == ""
  {
    if className == "" then "class-unassigned"
    else if Text.Contains(className, "青年") || Text.Contains(className, "Youth") then "class-youth"
    else if Text.Contains(className, "兒童") || Text.Contains(className, "Children") then "class-children"
    else if Text.Contains(className, "家規") || Text.Contains(className, "Family") then "class-family"
    else "class-default"
  }

  /** A named class is coloured by the first rule one of whose keywords it
      contains, or by default when it contains none. */
  lemma ClassColorIsFirstRule(className: string)
    requires className != ""
    ensures ClassColorClass(className) == FirstRule(ColourRules, className)
  {
    var rules := ColourRules;
    KeywordPair("青年", "Youth", className);
    KeywordPair("兒童", "Children", className);
    KeywordPair("家規", "Family", className);
    var family := rules[1..][1..];
    var children := rules[1..];
    assert family == [ColourRule(["家規", "Family"], "class-family")];
    assert family[1..] == [];
    assert FirstRule(family, className)
      == if Text.Contains(className, "家規") || Text.Contains(className, "Family") then "class-family" else "class-default" by {
      assert FirstRule(family[1..], className) == "class-default";
    }
    assert children == [ColourRule(["兒童", "Children"], "class-children")] + family;
    assert children[0].keywords == ["兒童", "Children"] && children[1..] == family;
    assert rules[0].keywords == ["青年", "Youth"] && rules[1..] == children;
  }

  /** A name with a youth keyword is a youth class whatever else it says. */
  lemma YouthWins(className: string)
    requires Text.Contains(className, "Youth")
    ensures ClassColorClass(className) == "class-youth"
  {
  }

  // ---------------------------------------------------------------- status toggle

  /** The status `toggleStudentStatus` writes: `'active'` for an inactive
      student, `'inactive'` for any other. */
  function ToggledStatus(status: string): (r: string)
    ensures r in {"active", "inactive"}
    ensures r == "active" <==> status == "inactive"
  {
    if status == "inactive" then "active" else "inactive"
  }

  /** Toggling twice gives back a status that was one of the two. */
  lemma ToggleTwice(status: string)
    requires status in {"active", "inactive"}
    ensures ToggledStatus(ToggledStatus(status)) == status
  {
  }

  /** The update `toggleStudentStatus(studentId)` sends: `None` when the id
      names no listed student (the page only reports it). */
  function TogglePatch(students: seq<Student>, id: string): (r: Option<StudentPatch>)
    ensures r.None? <==> Store.FindStudent(students, id).None?
  {
    match Store.FindStudent(students, id)
    case None => None
    case Some(i) => Some(EmptyPatch.(status := Some(ToggledStatus(students[i].status))))
  }

  /** The toggle passes the manager's update checks and changes only the
      status (and the update stamp) of the student it names. */
  lemma ToggleChangesOnlyStatus(students: seq<Student>, id: string, defs: D.Dict<ClassRecord>, now: string)
    requires Store.FindStudent(students, id).Some?
    ensures var i := Store.FindStudent(students, id).value;
      var u := StudentsV1.Updated(students[i], TogglePatch(students, id).value, defs, now);
      StudentsV1.UpdateStudentError(students, id, TogglePatch(students, id).value).None?
      && u.status == ToggledStatus(students[i].status)
      && u.(status := students[i].status, updatedAt := students[i].updatedAt) == students[i]
  {
  }

  // ---------------------------------------------------------------- saveStudent

  /** The student form's fields as typed. */
  datatype StudentInput = StudentInput(
    name: string, nickname: string, classId: string, phone: string, email: string,
    emergencyContact: string, emergencyPhone: string, notes: string)

  /** Why `saveStudent` stops before calling the manager. */
  datatype SaveAbort = NoName | NoClass | UnknownClass | MissingField | EndNotAfterStart

  /** `classes.find(c => c.id === classId)`: the position of the first class with that id. */
  function FindClass(classes: seq<ClassRecord>, id: string): (r: Option<nat>)
    ensures r.None? <==> forall i :: 0 <= i < |classes| ==> classes[i].id != id
    ensures r.Some? ==> (r.value < |classes| && classes[r.value].id == id
      && forall i :: 0 <= i < r.value ==> classes[i].id != id)
  {
    if classes == [] then None
    else if classes[0].id == id then Some(0)
    else match FindClass(classes[1..], id)
      case None => None
      case Some(i) => Some(i + 1)
  }

  /** A typed field, trimmed, when it is not empty after trimming. */
  function Given(text: string): Option<string> {
    if Text.Trim(text) != "" then Some(Text.Trim(text)) else None
  }

  /** The `formData` object `saveStudent` builds. */
  function StudentFormData(input: StudentInput, classes: seq<ClassRecord>): StudentPatch {
    var className := match FindClass(classes, input.classId) case Some(i) => classes[i].name case None => "";
    EmptyPatch.(name := Some(Text.Trim(input.name)), nickname := Some(Text.Trim(input.nickname)),
      className := Some(className), classId := Some(input.classId), notes := Some(Text.Trim(input.notes)),
      phone := Given(input.phone), email := Given(input.email),
      emergencyContact := Given(input.emergencyContact), emergencyPhone := Given(input.emergencyPhone))
  }

  /** `saveStudent()` up to the manager call: the form data, or why it stopped. */
  function SaveStudent(input: StudentInput, classes: seq<ClassRecord>): (r: Result<StudentPatch, SaveAbort>)
    ensures r == Err(NoName) <==> Text.Trim(input.name) == ""
    ensures r == Err(NoClass) <==> Text.Trim(input.name) != "" && input.classId == ""
    ensures r == Err(UnknownClass) <==> (Text.Trim(input.name) != "" && input.classId != ""
      && forall i :: 0 <= i < |classes| ==> classes[i].id != input.classId)
    ensures r.Ok? ==> r.value == StudentFormData(input, classes)
  {
    var formData := StudentFormData(input, classes);
    if formData.name.value == "" then Err(NoName)
    else if input.classId == "" then Err(NoClass)
    else if FindClass(classes, input.classId).None? then Err(UnknownClass)
    else Ok(formData)
  }

  /** What a saved form carries: the trimmed, non-empty name, the chosen
      class's id and name, and each optional contact field exactly when it
      was filled in, trimmed. */
  lemma SavedStudentFields(input: StudentInput, classes: seq<ClassRecord>)
    requires SaveStudent(input, classes).Ok?
    ensures var p := SaveStudent(input, classes).value;
      p.name == Some(Text.Trim(input.name)) && p.name.value != ""
      && p.classId == Some(input.classId) && input.classId != ""
      && (exists i :: 0 <= i < |classes| && classes[i].id == input.classId && p.className == Some(classes[i].name))
      && (p.phone.Some? <==> !Text.IsBlank(input.phone)) && (p.phone.Some? ==> p.phone.value == Text.Trim(input.phone))
      && (p.email.Some? <==> !Text.IsBlank(input.email)) && (p.email.Some? ==> p.email.value == Text.Trim(input.email))
      && (p.emergencyContact.Some? <==> !Text.IsBlank(input.emergencyContact))
      && (p.emergencyPhone.Some? <==> !Text.IsBlank(input.emergencyPhone))
      && p.status.None? && p.id.None?
  {
    var i := FindClass(classes, input.classId).value;
    assert classes[i].id == input.classId;
  }

  /** The object `addStudent` of `js/students.js` reads from the form data;
      an absent field reads as empty. */
  function AsAddForm(p: StudentPatch): StudentsV1.StudentForm {
    StudentsV1.StudentForm(p.name.GetOr(""), p.className.GetOr(""), p.phone.GetOr(""), p.email.GetOr(""),
      p.emergencyContact.GetOr(""), p.emergencyPhone.GetOr(""), p.notes.GetOr(""))
  }

  /** A saved form whose class has a name never fails `addStudent` for a
      missing field. */
  lemma SavedStudentHasRequiredFields(input: StudentInput, classes: seq<ClassRecord>,
                                      students: seq<Student>, defs: D.Dict<ClassRecord>)
    requires SaveStudent(input, classes).Ok?
    requires classes[FindClass(classes, input.classId).value].name != ""
    ensures StudentsV1.AddStudentError(students, defs, AsAddForm(SaveStudent(input, classes).value)) != Some(StudentsV1.MissingFields)
  {
  }

  // ---------------------------------------------------------------- saveClass

  /** The class form's fields as typed (the day is the select's text). */
  datatype ClassInput = ClassInput(name: string, startTime: string, endTime: string, dayOfWeek: string, description: string)

  /** `saveClass()` up to the manager call: the form data, or why it stopped.
      `startTime >= endTime` compares the texts. */
  function SaveClass(input: ClassInput): (r: Result<Classes.ClassForm, SaveAbort>)
    ensures r == Err(MissingField) <==> (Text.Trim(input.name) == "" || input.startTime == ""
      || input.endTime == "" || input.dayOfWeek == "")
    ensures r == Err(EndNotAfterStart) <==> (Text.Trim(input.name) != "" && input.startTime != ""
      && input.endTime != "" && input.dayOfWeek != "" && !Text.Less(input.startTime, input.endTime))
    ensures r.Ok? ==> r.value == Classes.ClassForm(Text.Trim(input.name), input.startTime, input.endTime,
      Str(input.dayOfWeek), Text.Trim(input.description))
  {
    var f := Classes.ClassForm(Text.Trim(input.name), input.startTime, input.endTime,
      Str(input.dayOfWeek), Text.Trim(input.description));
    if f.name == "" || f.startTime == "" || f.endTime == "" || input.dayOfWeek == "" then Err(MissingField)
    else if !Text.Less(f.startTime, f.endTime) then Err(EndNotAfterStart)
    else Ok(f)
  }

  /** A form `saveClass` lets through fails `validateClassData` only on the
      format of a time: the name, both times, the day and their order are
      all there. */
  lemma SavedClassPassesPresenceChecks(input: ClassInput, f: Classes.ClassForm)
    requires SaveClass(input) == Ok(f)
    ensures Classes.ValidateClassData(f)
      == (if Classes.IsValidTime(f.startTime) then [] else [Classes.BadStartFormat])
       + (if Classes.IsValidTime(f.endTime) then [] else [Classes.BadEndFormat])
  {
    SavedClassShape(input, f);
    PresentFieldsValidate(f);
  }

  /** The form `saveClass` lets through has a trimmed, non-empty name, both
      times in order and a day text. */
  lemma SavedClassShape(input: ClassInput, f: Classes.ClassForm)
    requires SaveClass(input) == Ok(f)
    ensures f.name != "" && Text.Trim(f.name) == f.name && f.startTime != "" && f.endTime != ""
    ensures Text.Less(f.startTime, f.endTime) && f.dayOfWeek.Str? && f.dayOfWeek.s != ""
  {
    Text.TrimOfTrimmed(Text.Trim(input.name));
  }

  lemma PresentFieldsValidate(f: Classes.ClassForm)
    requires f.name != "" && Text.Trim(f.name) == f.name && f.startTime != "" && f.endTime != ""
    requires Text.Less(f.startTime, f.endTime) && f.dayOfWeek.Str? && f.dayOfWeek.s != ""
    ensures Classes.ValidateClassData(f)
      == (if Classes.IsValidTime(f.startTime) then [] else [Classes.BadStartFormat])
       + (if Classes.IsValidTime(f.endTime) then [] else [Classes.BadEndFormat])
  {
  }
}
