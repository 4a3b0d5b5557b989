/** The `ClassManager` of js/classes.js: the manager's own list of classes,
    kept beside the store's `classDefinitions`, and the scheduling rules it
    enforces when classes are added, edited, deleted and imported. */
module Classes {
  import opened Wrappers
  import opened Entities
  import Text
  import Seqs
  import Csv
  import D = Dict
  import Store

  /** Why an operation was refused; each stands for one thrown message. */
  datatype ClassError =
    | MissingFields | DuplicateName | BadTimeFormat | EndNotAfterStart | TimeConflict | SaveFailed
    | NotFound | BlankName | BadStartFormat | BadEndFormat
    | MissingName | MissingStart | MissingEnd | MissingDay

  /** The object a form or a CSV line hands to `addClass`. */
  datatype ClassForm = ClassForm(name: string, startTime: string, endTime: string, dayOfWeek: DayValue, description: string)

  // ---------------------------------------------------------------- times

  predicate HourPair(a: char, b: char) {
    ((a == '0' || a == '1') && Text.IsDigit(b)) || (a == '2' && '0' <= b <= '3')
  }

  predicate MinutePart(s: string) {
    |s| == 3 && s[0] == ':' && '0' <= s[1] <= '5' && Text.IsDigit(s[2])
  }

  /** `isValidTime`: the pattern `^([01]?[0-9]|2[0-3]):[0-5][0-9]$`. */
  predicate IsValidTime(t: string) {
    (|t| == 4 && Text.IsDigit(t[0]) && MinutePart(t[1..]))
    || (|t| == 5 && HourPair(t[0], t[1]) && MinutePart(t[2..]))
  }

  /** The text of hour `h` and minute `m`, the hour with or without a leading zero. */
  function ClockText(h: nat, m: nat, padded: bool): string
    requires h < 24 && m < 60
  {
    (if padded || h >= 10 then [Text.DigitChar(h / 10)] else [])
      + [Text.DigitChar(h % 10), ':', Text.DigitChar(m / 10), Text.DigitChar(m % 10)]
  }

  /** `t` names a time of day. */
  ghost predicate DenotesTime(t: string) {
    exists h: nat, m: nat, padded: bool :: h < 24 && m < 60 && t == ClockText(h, m, padded)
  }

  lemma DigitRoundTrip(c: char)
    requires Text.IsDigit(c)
    ensures Text.DigitValue(c) < 10 && Text.DigitChar(Text.DigitValue(c)) == c
  {
  }

  /** The pattern accepts exactly `H:MM` and `HH:MM` with hour 0–23 and minute 00–59. */
  lemma IsValidTimeExactly(t: string)
    ensures IsValidTime(t) <==> DenotesTime(t)
  {
    if IsValidTime(t) {
      ValidTimeDenotes(t);
    }
    if DenotesTime(t) {
      var h: nat, m: nat, padded: bool :| h < 24 && m < 60 && t == ClockText(h, m, padded);
      ClockTextValid(h, m, padded);
    }
  }

  /** Two decimal digits read as a number split back into those digits. */
  lemma TwoDigits(a: nat, b: nat)
    requires a < 10 && b < 10
    ensures (10 * a + b) / 10 == a && (10 * a + b) % 10 == b
  {
  }

  /** A text the pattern accepts is the clock text of its hour and minute. */
  lemma ValidTimeDenotes(t: string)
    requires IsValidTime(t)
    ensures DenotesTime(t)
  {
    var n := |t|;
    DigitRoundTrip(t[n - 2]);
    DigitRoundTrip(t[n - 1]);
    var m := 10 * Text.DigitValue(t[n - 2]) + Text.DigitValue(t[n - 1]);
    TwoDigits(Text.DigitValue(t[n - 2]), Text.DigitValue(t[n - 1]));
    if n == 4 {
      DigitRoundTrip(t[0]);
      var h := Text.DigitValue(t[0]);
      assert t == ClockText(h, m, false);
    } else {
      DigitRoundTrip(t[0]);
      DigitRoundTrip(t[1]);
      var h := 10 * Text.DigitValue(t[0]) + Text.DigitValue(t[1]);
      TwoDigits(Text.DigitValue(t[0]), Text.DigitValue(t[1]));
      assert t == ClockText(h, m, true);
    }
  }

  /** Every clock text is accepted by the pattern. */
  lemma ClockTextValid(h: nat, m: nat, padded: bool)
    requires h < 24 && m < 60
    ensures IsValidTime(ClockText(h, m, padded))
  {
    var t := ClockText(h, m, padded);
    if padded || h >= 10 {
      assert t[1..] == [Text.DigitChar(h % 10), ':', Text.DigitChar(m / 10), Text.DigitChar(m % 10)];
      assert t[2..] == [':', Text.DigitChar(m / 10), Text.DigitChar(m % 10)];
    } else {
      assert t[1..] == [':', Text.DigitChar(m / 10), Text.DigitChar(m % 10)];
    }
  }

  /** Minutes since midnight of a valid time. */
  function Minutes(t: string): (r: nat)
    requires IsValidTime(t)
    ensures r < 24 * 60
  {
    var n := |t|;
    var h := if n == 4 then Text.DigitValue(t[0]) else 10 * Text.DigitValue(t[0]) + Text.DigitValue(t[1]);
    h * 60 + 10 * Text.DigitValue(t[n - 2]) + Text.DigitValue(t[n - 1])
  }

  /** For zero-padded times the string order the code compares with is the
      order of the clock. */
  lemma PaddedTimesCompareByClock(a: string, b: string)
    requires IsValidTime(a) && IsValidTime(b) && |a| == 5 && |b| == 5
    ensures Text.Less(a, b) <==> Minutes(a) < Minutes(b)
  {
    var a0, a1, a3, a4 := Text.DigitValue(a[0]), Text.DigitValue(a[1]), Text.DigitValue(a[3]), Text.DigitValue(a[4]);
    var b0, b1, b3, b4 := Text.DigitValue(b[0]), Text.DigitValue(b[1]), Text.DigitValue(b[3]), Text.DigitValue(b[4]);
    assert Minutes(a) == 600 * a0 + 60 * a1 + 10 * a3 + a4;
    assert Minutes(b) == 600 * b0 + 60 * b1 + 10 * b3 + b4;
    if a[0] != b[0] {
      assert Text.Less(a, b) <==> a0 < b0;
    } else if a[1] != b[1] {
      assert Text.Less(a, b) == Text.Less(a[1..], b[1..]);
      assert Text.Less(a[1..], b[1..]) <==> a1 < b1;
    } else {
      assert Text.Less(a, b) == Text.Less(a[1..], b[1..]);
      assert Text.Less(a[1..], b[1..]) == Text.Less(a[2..], b[2..]);
      assert Text.Less(a[2..], b[2..]) == Text.Less(a[3..], b[3..]);
      if a[3] != b[3] {
        assert Text.Less(a[3..], b[3..]) <==> a3 < b3;
      } else {
        assert Text.Less(a[3..], b[3..]) == Text.Less(a[4..], b[4..]);
        if a[4] != b[4] {
          assert Text.Less(a[4..], b[4..]) <==> a4 < b4;
        } else {
          assert a[4..] == b[4..];
          Text.LessIrreflexive(a[4..]);
        }
      }
    }
  }

  /** Without the leading zero the order breaks: `9:00` is earlier than `10:00`
      on the clock but sorts after it, so a 9:00–10:00 class fails the
      start-before-end check. */
  lemma UnpaddedHourSortsLate()
    ensures IsValidTime("9:00") && IsValidTime("10:00")
    ensures Minutes("9:00") < Minutes("10:00")
    ensures Text.Less("10:00", "9:00")
  {
  }

  // ---------------------------------------------------------------- conflicts

  /** The three-clause overlap test of `checkTimeConflict`, with `>=`, `<`,
      `>` and `<=` on strings. */
  predicate Overlaps(newStart: string, newEnd: string, existingStart: string, existingEnd: string) {
    (!Text.Less(newStart, existingStart) && Text.Less(newStart, existingEnd))
    || (Text.Less(existingStart, newEnd) && !Text.Less(existingEnd, newEnd))
    || (!Text.Less(existingStart, newStart) && !Text.Less(newEnd, existingEnd))
  }

  /** Whether `existing` blocks a class at `start`–`end` on `day`: not the
      excluded class, the same `dayOfWeek` by `===` against `parseInt(day)`,
      and overlapping. An empty `excludeId` excludes nothing. */
  predicate ConflictsWith(existing: ClassRecord, start: string, end: string, day: DayValue, excludeId: string) {
    !(excludeId != "" && existing.id == excludeId)
    && StrictEquals(existing.dayOfWeek, ParseDay(day))
    && Overlaps(start, end, existing.startTime, existing.endTime)
  }

  /** `checkTimeConflict(classData, excludeClassId)`: `this.classes.some(...)`. */
  function CheckTimeConflict(classes: seq<ClassRecord>, start: string, end: string, day: DayValue, excludeId: string): (r: bool)
    ensures r <==> exists i :: 0 <= i < |classes| && ConflictsWith(classes[i], start, end, day, excludeId)
  {
    if classes == [] then false
    else if ConflictsWith(classes[0], start, end, day, excludeId) then true
    else
      var r := CheckTimeConflict(classes[1..], start, end, day, excludeId);
      assert r ==> exists i :: 0 <= i < |classes| && ConflictsWith(classes[i], start, end, day, excludeId) by {
        if r {
          var i :| 0 <= i < |classes[1..]| && ConflictsWith(classes[1..][i], start, end, day, excludeId);
          assert classes[i + 1] == classes[1..][i];
        }
      }
      assert (exists i :: 0 <= i < |classes| && ConflictsWith(classes[i], start, end, day, excludeId)) ==> r by {
        if exists i :: 0 <= i < |classes| && ConflictsWith(classes[i], start, end, day, excludeId) {
          var i :| 0 <= i < |classes| && ConflictsWith(classes[i], start, end, day, excludeId);
          assert i != 0;
          assert classes[1..][i - 1] == classes[i];
        }
      }
      r
  }

  /** `a < b` followed by `b <= c` gives `a < c`. */
  lemma LessThenLessEq(a: string, b: string, c: string)
    requires Text.Less(a, b) && !Text.Less(c, b)
    ensures Text.Less(a, c)
  {
    Text.NotLessIsGreaterEq(c, b);
    if b != c {
      Text.LessTransitive(a, b, c);
    }
  }

  /** `a <= b` followed by `b < c` gives `a < c`. */
  lemma LessEqThenLess(a: string, b: string, c: string)
    requires !Text.Less(b, a) && Text.Less(b, c)
    ensures Text.Less(a, c)
  {
    Text.NotLessIsGreaterEq(b, a);
    if a != b {
      Text.LessTransitive(a, b, c);
    }
  }

  /** For intervals that start before they end, the three clauses say exactly
      that the half-open intervals [start, end) intersect. */
  lemma OverlapIsHalfOpen(ns: string, ne: string, es: string, ee: string)
    requires Text.Less(ns, ne) && Text.Less(es, ee)
    ensures Overlaps(ns, ne, es, ee) <==> Text.Less(ns, ee) && Text.Less(es, ne)
  {
    if Overlaps(ns, ne, es, ee) {
      if !Text.Less(ns, es) && Text.Less(ns, ee) {
        LessEqThenLess(es, ns, ne);
      } else if Text.Less(es, ne) && !Text.Less(ee, ne) {
        LessThenLessEq(ns, ne, ee);
      } else {
        LessEqThenLess(ns, es, ee);
        LessThenLessEq(es, ee, ne);
      }
    }
    if Text.Less(ns, ee) && Text.Less(es, ne) {
      if Text.Less(ns, es) {
        Text.LessAsymmetric(ns, es);
        Text.LessTotal(ne, ee);
        if ne == ee {
          Text.LessIrreflexive(ne);
        } else if Text.Less(ee, ne) {
          Text.LessAsymmetric(ee, ne);
        }
      }
    }
  }

  /** A class ending when another starts does not clash with it, in either order. */
  lemma BackToBackNoOverlap(a: string, b: string, c: string)
    requires Text.Less(a, b) && Text.Less(b, c)
    ensures !Overlaps(a, b, b, c) && !Overlaps(b, c, a, b)
  {
    OverlapIsHalfOpen(a, b, b, c);
    OverlapIsHalfOpen(b, c, a, b);
    Text.LessIrreflexive(b);
  }

  /** The two Saturday sample classes, 16:00–17:30 and 17:30–19:00, do not clash. */
  lemma SampleClassesDoNotClash()
    ensures !Overlaps("16:00", "17:30", "17:30", "19:00") && !Overlaps("17:30", "19:00", "16:00", "17:30")
  {
    assert Text.Less("16:00", "17:30") by {
      assert "16:00"[1..] == "6:00" && "17:30"[1..] == "7:30";
    }
    assert Text.Less("17:30", "19:00") by {
      assert "17:30"[1..] == "7:30" && "19:00"[1..] == "9:00";
    }
    BackToBackNoOverlap("16:00", "17:30", "19:00");
  }

  // ---------------------------------------------------------------- the schedule invariant

  /** Two classes meet on the same weekday, by the number their days parse to. */
  predicate SameDay(a: ClassRecord, b: ClassRecord) {
    ParseDay(a.dayOfWeek).Number? && ParseDay(a.dayOfWeek) == ParseDay(b.dayOfWeek)
  }

  predicate WellTimed(c: ClassRecord) {
    Text.Less(c.startTime, c.endTime)
  }

  /** The half-open intervals of two classes do not intersect. */
  predicate Apart(a: ClassRecord, b: ClassRecord) {
    !(Text.Less(a.startTime, b.endTime) && Text.Less(b.startTime, a.endTime))
  }

  /** What the conflict check is there to keep: every class starts before it
      ends, and no two classes on the same weekday overlap. */
  predicate ScheduleSound(classes: seq<ClassRecord>) {
    (forall i :: 0 <= i < |classes| ==> WellTimed(classes[i]))
    && (forall i, j :: 0 <= i < |classes| && 0 <= j < |classes| && i != j && SameDay(classes[i], classes[j])
          ==> Apart(classes[i], classes[j]))
  }

  /** Every stored day is already what `parseInt` makes of it (a number or `NaN`). */
  predicate DaysParsed(classes: seq<ClassRecord>) {
    forall i :: 0 <= i < |classes| ==> ParseDay(classes[i].dayOfWeek) == classes[i].dayOfWeek
  }

  /** The class `addClass` builds: name trimmed, day parsed, weekly, stamped now. */
  function NewClass(form: ClassForm, id: string, now: string): (c: ClassRecord)
    ensures c.id == id && c.name == Text.Trim(form.name) && c.dayOfWeek == ParseDay(form.dayOfWeek)
    ensures c.startTime == form.startTime && c.endTime == form.endTime && c.description == form.description
  {
    ClassRecord(id, Text.Trim(form.name), form.startTime, form.endTime, ParseDay(form.dayOfWeek),
                form.description, "weekly", now, now)
  }

  /** The checks of `addClass`, in the order it makes them. */
  function AddClassError(classes: seq<ClassRecord>, form: ClassForm): Option<ClassError> {
    if form.name == "" || form.startTime == "" || form.endTime == "" || !form.dayOfWeek.Truthy() then Some(MissingFields)
    else if exists i :: 0 <= i < |classes| && classes[i].name == form.name then Some(DuplicateName)
    else if !IsValidTime(form.startTime) || !IsValidTime(form.endTime) then Some(BadTimeFormat)
    else if !Text.Less(form.startTime, form.endTime) then Some(EndNotAfterStart)
    else if CheckTimeConflict(classes, form.startTime, form.endTime, form.dayOfWeek, "") then Some(TimeConflict)
    else None
  }

  /** The same-day test the conflict check means: both days parse to the same number. */
  predicate ConflictsIntended(existing: ClassRecord, start: string, end: string, day: DayValue, excludeId: string) {
    !(excludeId != "" && existing.id == excludeId)
    && ParseDay(day).Number? && ParseDay(existing.dayOfWeek) == ParseDay(day)
    && Overlaps(start, end, existing.startTime, existing.endTime)
  }

  /** `checkTimeConflict` with both days parsed before they are compared. */
  function CheckTimeConflictIntended(classes: seq<ClassRecord>, start: string, end: string, day: DayValue, excludeId: string): (r: bool)
    ensures r <==> exists i :: 0 <= i < |classes| && ConflictsIntended(classes[i], start, end, day, excludeId)
  {
    if classes == [] then false
    else if ConflictsIntended(classes[0], start, end, day, excludeId) then true
    else
      var r := CheckTimeConflictIntended(classes[1..], start, end, day, excludeId);
      assert r ==> exists i :: 0 <= i < |classes| && ConflictsIntended(classes[i], start, end, day, excludeId) by {
        if r {
          var i :| 0 <= i < |classes[1..]| && ConflictsIntended(classes[1..][i], start, end, day, excludeId);
          assert classes[i + 1] == classes[1..][i];
        }
      }
      assert (exists i :: 0 <= i < |classes| && ConflictsIntended(classes[i], start, end, day, excludeId)) ==> r by {
        if exists i :: 0 <= i < |classes| && ConflictsIntended(classes[i], start, end, day, excludeId) {
          var i :| 0 <= i < |classes| && ConflictsIntended(classes[i], start, end, day, excludeId);
          assert i != 0;
          assert classes[1..][i - 1] == classes[i];
        }
      }
      r
  }

  /** A day is given when it parses to a weekday 0–6; Sunday's 0 counts. */
  predicate DayGiven(d: DayValue) {
    ParseDay(d).Number? && 0 <= ParseDay(d).n < 7
  }

  /** `addClass`'s checks as intended: a day is missing only when it names no
      weekday, and days are parsed on both sides of the conflict test. */
  function AddClassErrorIntended(classes: seq<ClassRecord>, form: ClassForm): Option<ClassError> {
    if form.name == "" || form.startTime == "" || form.endTime == "" || !DayGiven(form.dayOfWeek) then Some(MissingFields)
    else if exists i :: 0 <= i < |classes| && classes[i].name == form.name then Some(DuplicateName)
    else if !IsValidTime(form.startTime) || !IsValidTime(form.endTime) then Some(BadTimeFormat)
    else if !Text.Less(form.startTime, form.endTime) then Some(EndNotAfterStart)
    else if CheckTimeConflictIntended(classes, form.startTime, form.endTime, form.dayOfWeek, "") then Some(TimeConflict)
    else None
  }

  /** While every stored day is a parsed number, the written test and the
      intended one agree. */
  lemma ConflictChecksAgree(classes: seq<ClassRecord>, start: string, end: string, day: DayValue, excludeId: string)
    requires DaysParsed(classes)
    ensures CheckTimeConflict(classes, start, end, day, excludeId) == CheckTimeConflictIntended(classes, start, end, day, excludeId)
  {
    forall i | 0 <= i < |classes|
      ensures ConflictsWith(classes[i], start, end, day, excludeId) == ConflictsIntended(classes[i], start, end, day, excludeId)
    {
      assert ParseDay(classes[i].dayOfWeek) == classes[i].dayOfWeek;
    }
  }

  /** A well-timed class that clashes (by the intended test) with no stored
      class keeps the schedule sound. */
  lemma ClearSlotKeepsScheduleSound(classes: seq<ClassRecord>, form: ClassForm, id: string, now: string)
    requires ScheduleSound(classes)
    requires IsValidTime(form.startTime) && IsValidTime(form.endTime) && Text.Less(form.startTime, form.endTime)
    requires !CheckTimeConflictIntended(classes, form.startTime, form.endTime, form.dayOfWeek, "")
    ensures ScheduleSound(classes + [NewClass(form, id, now)])
  {
    var c := NewClass(form, id, now);
    var cs := classes + [c];
    assert cs[|classes|] == c && forall k :: 0 <= k < |classes| ==> cs[k] == classes[k];
    forall k | 0 <= k < |classes| && SameDay(c, classes[k])
      ensures Apart(c, classes[k]) && Apart(classes[k], c)
    {
      assert !ConflictsIntended(classes[k], form.startTime, form.endTime, form.dayOfWeek, "");
      ClearPairApart(classes[k], form, c);
    }
    forall i, j | 0 <= i < |cs| && 0 <= j < |cs| && i != j && SameDay(cs[i], cs[j])
      ensures Apart(cs[i], cs[j])
    {
      if i == |classes| {
        assert Apart(c, classes[j]);
      } else if j == |classes| {
        assert SameDay(c, classes[i]);
      }
    }
  }

  /** One stored class against the new one that does not clash with it. */
  lemma ClearPairApart(e: ClassRecord, form: ClassForm, c: ClassRecord)
    requires WellTimed(e) && Text.Less(form.startTime, form.endTime)
    requires c.startTime == form.startTime && c.endTime == form.endTime && c.dayOfWeek == ParseDay(form.dayOfWeek)
    requires SameDay(c, e)
    requires !ConflictsIntended(e, form.startTime, form.endTime, form.dayOfWeek, "")
    ensures Apart(c, e) && Apart(e, c)
  {
    OverlapIsHalfOpen(c.startTime, c.endTime, e.startTime, e.endTime);
  }

  /** A class that passes the intended checks keeps the schedule sound. */
  lemma IntendedAddKeepsScheduleSound(classes: seq<ClassRecord>, form: ClassForm, id: string, now: string)
    requires ScheduleSound(classes)
    requires AddClassErrorIntended(classes, form).None?
    ensures ScheduleSound(classes + [NewClass(form, id, now)])
  {
    ClearSlotKeepsScheduleSound(classes, form, id, now);
  }

  /** The written check keeps the schedule sound as long as every stored day
      is a parsed number. */
  lemma AddClassKeepsScheduleSound(classes: seq<ClassRecord>, form: ClassForm, id: string, now: string)
    requires ScheduleSound(classes) && DaysParsed(classes)
    requires AddClassError(classes, form).None?
    ensures ScheduleSound(classes + [NewClass(form, id, now)])
    ensures DaysParsed(classes + [NewClass(form, id, now)])
  {
    ConflictChecksAgree(classes, form.startTime, form.endTime, form.dayOfWeek, "");
    ClearSlotKeepsScheduleSound(classes, form, id, now);
    var cs := classes + [NewClass(form, id, now)];
    assert forall i :: 0 <= i < |classes| ==> cs[i] == classes[i];
  }

  /** `parseInt("6")` is 6. */
  lemma TextSixIsSaturday()
    ensures ParseDay(Str("6")) == Number(6)
  {
    Text.ParseIntOfNat(6);
    assert Text.NatToString(6) == "6";
  }

  /** The order facts about the four times of the example below. */
  lemma ExampleTimes()
    ensures IsValidTime("16:30") && IsValidTime("17:00")
    ensures Text.Less("16:00", "17:30") && Text.Less("16:30", "17:00")
    ensures Text.Less("16:30", "17:30") && Text.Less("16:00", "17:00")
    ensures !Text.Less("16:30", "16:00")
  {
    assert "16:00"[1..] == "6:00" && "17:30"[1..] == "7:30" && "16:30"[1..] == "6:30" && "17:00"[1..] == "7:00";
    assert "16:30"[1..][1..] == ":30" && "16:00"[1..][1..] == ":00";
    assert ":30"[1..] == "30" && ":00"[1..] == "00";
  }

  const ExampleExisting := ClassRecord("class_1", "青年班", "16:00", "17:30", Str("6"), "", "weekly", "", "")
  const ExampleForm := ClassForm("兒童班", "16:30", "17:00", Number(6), "")

  /** The written check lets the example class through. */
  lemma ExampleAccepted()
    ensures AddClassError([ExampleExisting], ExampleForm).None?
  {
    ExampleFormPasses();
    assert !ConflictsWith(ExampleExisting, "16:30", "17:00", Number(6), "");
    assert !CheckTimeConflict([ExampleExisting], "16:30", "17:00", Number(6), "");
  }

  /** Once added, the example class overlaps the stored one on the same day. */
  lemma ExampleClashes()
    ensures !ScheduleSound([ExampleExisting, NewClass(ExampleForm, "class_2", "")])
  {
    ExampleTimes();
    TextSixIsSaturday();
    var c := NewClass(ExampleForm, "class_2", "");
    assert SameDay(c, ExampleExisting) && !Apart(c, ExampleExisting);
    var cs := [ExampleExisting, c];
    assert cs[1] == c && cs[0] == ExampleExisting;
  }

  /** A class whose day was saved as the form's text, as `updateClass` saves
      it, is invisible to the written check: a Saturday 16:30–17:00 class is
      accepted on top of a Saturday 16:00–17:30 one, and the schedule is no
      longer sound. */
  lemma TextDayEscapesConflictCheck()
    ensures AddClassError([ExampleExisting], ExampleForm).None?
    ensures ScheduleSound([ExampleExisting])
    ensures !ScheduleSound([ExampleExisting, NewClass(ExampleForm, "class_2", "")])
  {
    ExistingSound();
    ExampleAccepted();
    ExampleClashes();
  }

  /** The stored class alone makes a sound schedule. */
  lemma ExistingSound()
    ensures ScheduleSound([ExampleExisting])
  {
    ExampleTimes();
    assert WellTimed(ExampleExisting);
  }

  /** The intended check refuses that class. */
  lemma IntendedCheckCatchesTextDay()
    ensures AddClassErrorIntended([ExampleExisting], ExampleForm) == Some(TimeConflict)
  {
    ExampleFormPasses();
    ExampleConflictsIntended();
  }

  /** The example form passes every check before the conflict check. */
  lemma ExampleFormPasses()
    ensures ExampleForm.name != "" && ExampleForm.dayOfWeek.Truthy() && DayGiven(ExampleForm.dayOfWeek)
    ensures !exists i :: 0 <= i < |[ExampleExisting]| && [ExampleExisting][i].name == ExampleForm.name
    ensures IsValidTime(ExampleForm.startTime) && IsValidTime(ExampleForm.endTime)
    ensures Text.Less(ExampleForm.startTime, ExampleForm.endTime)
  {
    ExampleTimes();
    assert "兒童班" != "青年班";
  }

  /** The intended check sees the stored class on the example's day. */
  lemma ExampleConflictsIntended()
    ensures CheckTimeConflictIntended([ExampleExisting], "16:30", "17:00", Number(6), "")
  {
    ExampleTimes();
    TextSixIsSaturday();
    assert ConflictsIntended(ExampleExisting, "16:30", "17:00", Number(6), "");
  }

  // ---------------------------------------------------------------- day names

  const DayNames: seq<string> := ["星期日", "星期一", "星期二", "星期三", "星期四", "星期五", "星期六"]

  /** The array slot `days[dayOfWeek]` reads: a number 0–6, or a string that
      is one of the indices "0"–"6". */
  function DayIndex(d: DayValue): (r: Option<nat>)
    ensures r.Some? ==> r.value < 7
    ensures d.Number? ==> (r.Some? <==> 0 <= d.n < 7) && (r.Some? ==> r.value == d.n)
    ensures d.Str? ==> (r.Some? <==> |d.s| == 1 && '0' <= d.s[0] <= '6')
    ensures d.Str? && r.Some? ==> [Text.DigitChar(r.value)] == d.s
    ensures d.NaN? || d.Absent? ==> r.None?
  {
    match d
    case Number(n) => if 0 <= n < 7 then Some(n) else None
    case Str(s) => if |s| == 1 && '0' <= s[0] <= '6' then Some(s[0] as int - '0' as int) else None
    case NaN => None
    case Absent => None
  }

  /** `getDayName(dayOfWeek)`: `days[dayOfWeek] || ''`. */
  function GetDayName(d: DayValue): string {
    match DayIndex(d)
    case Some(k) => DayNames[k]
    case None => ""
  }

  /** `getDayOfWeekByName(name)`: `days.indexOf(name)`. */
  function GetDayOfWeekByName(name: string): (r: int)
    ensures -1 <= r < 7
  {
    IndexOf(DayNames, name)
  }

  /** `names.indexOf(name)`. */
  function IndexOf(names: seq<string>, name: string): (r: int)
    ensures -1 <= r < |names|
  {
    if names == [] then -1
    else if names[0] == name then 0
    else
      var r := IndexOf(names[1..], name);
      if r == -1 then -1 else r + 1
  }

  /** `indexOf` finds the first occurrence, and answers -1 exactly when there
      is none. */
  lemma {:induction false} IndexOfFindsFirst(names: seq<string>, name: string)
    ensures var r := IndexOf(names, name);
      (r >= 0 ==> names[r] == name && forall k :: 0 <= k < r ==> names[k] != name)
      && (r == -1 <==> name !in names)
  {
    if names != [] && names[0] != name {
      IndexOfFindsFirst(names[1..], name);
      assert name in names[1..] <==> name in names;
    }
  }

  /** The number of a day name is the position of the first day so called,
      and -1 exactly when no day is. */
  lemma DayOfWeekByNameMeaning(name: string)
    ensures var r := GetDayOfWeekByName(name);
      (r >= 0 ==> DayNames[r] == name && forall k :: 0 <= k < r ==> DayNames[k] != name)
      && (r == -1 <==> name !in DayNames)
  {
    IndexOfFindsFirst(DayNames, name);
  }

  /** The seven names are distinct. */
  lemma DayNamesDistinct()
    ensures forall i, j :: 0 <= i < j < 7 ==> DayNames[i] != DayNames[j]
  {
  }

  /** Naming a day and looking the name up again gives the day back; a day
      out of range has the empty name, which is no day. */
  lemma DayNameRoundTrip(d: int)
    ensures 0 <= d < 7 ==> GetDayOfWeekByName(GetDayName(Number(d))) == d
    ensures !(0 <= d < 7) ==> GetDayName(Number(d)) == "" && GetDayOfWeekByName("") == -1
  {
    DayNamesDistinct();
    if 0 <= d < 7 {
      DayOfWeekByNameMeaning(DayNames[d]);
    }
    DayOfWeekByNameMeaning("");
  }

  // ---------------------------------------------------------------- validation

  /** `dayOfWeek === undefined || dayOfWeek === null || dayOfWeek === ''`. */
  predicate DayMissing(d: DayValue) {
    d.Absent? || d == Str("")
  }

  /** `validateClassData(classData)`: the error list, in the order the checks run. */
  function ValidateClassData(f: ClassForm): (errors: seq<ClassError>)
    ensures errors == [] <==> (!Text.IsBlank(f.name) && IsValidTime(f.startTime) && IsValidTime(f.endTime)
      && Text.Less(f.startTime, f.endTime) && !DayMissing(f.dayOfWeek))
    ensures |errors| <= 5
  {
    (if f.name == "" || Text.IsBlank(f.name) then [MissingName] else [])
    + (if f.startTime == "" then [MissingStart] else if !IsValidTime(f.startTime) then [BadStartFormat] else [])
    + (if f.endTime == "" then [MissingEnd] else if !IsValidTime(f.endTime) then [BadEndFormat] else [])
    + (if f.startTime != "" && f.endTime != "" && !Text.Less(f.startTime, f.endTime) then [EndNotAfterStart] else [])
    + (if DayMissing(f.dayOfWeek) then [MissingDay] else [])
  }

  /** A form `validateClassData` passes, with a truthy day, can fail
      `addClass` only on a taken name or a clash. */
  lemma ValidFormFailsOnlyOnClashes(classes: seq<ClassRecord>, f: ClassForm)
    requires ValidateClassData(f) == [] && f.dayOfWeek.Truthy()
    ensures AddClassError(classes, f) in {None, Some(DuplicateName), Some(TimeConflict)}
  {
    if f.name == "" {
      Text.BlankIffAllSpace(f.name);
    }
  }

  /** Sunday as the number 0 (what the CSV import passes) passes
      `validateClassData` but `addClass` takes it for a missing field. */
  lemma NumericSundayRejected(classes: seq<ClassRecord>, f: ClassForm)
    requires f.dayOfWeek == Number(0)
    ensures AddClassError(classes, f) == Some(MissingFields)
    ensures ValidateClassData(f) == [] <==> ValidateClassData(f.(dayOfWeek := Number(6))) == []
  {
  }

  // ---------------------------------------------------------------- schedule and statistics

  /** The test "held on weekday `d`" that fills one slot of the timetable. */
  function OnDay(d: nat): ClassRecord -> bool {
    (c: ClassRecord) => DayIndex(c.dayOfWeek) == Some(d)
  }

  /** A class whose day names no slot. */
  predicate NoDay(c: ClassRecord) {
    DayIndex(c.dayOfWeek).None?
  }

  datatype DayBucket = DayBucket(dayName: string, classes: seq<ClassRecord>)

  /** `generateSchedule()`: seven slots named by `getDayName`, each holding
      the classes of that day sorted by start time. A class whose day is no
      slot makes `schedule[day].classes` undefined and the call throws. */
  function GenerateSchedule(classes: seq<ClassRecord>): (r: Result<seq<DayBucket>, string>)
    ensures r.Ok? <==> forall i :: 0 <= i < |classes| ==> !NoDay(classes[i])
    ensures r.Ok? ==> |r.value| == 7 && forall d :: 0 <= d < 7 ==>
      (r.value[d].dayName == DayNames[d]
        && Seqs.SortedByText(r.value[d].classes, (c: ClassRecord) => c.startTime)
        && multiset(r.value[d].classes) == multiset(Seqs.Filter(classes, OnDay(d))))
  {
    if exists i :: 0 <= i < |classes| && NoDay(classes[i]) then Err("TypeError")
    else Ok(seq(7, (d: int) requires 0 <= d < 7 =>
      DayBucket(DayNames[d], Seqs.SortByText(Seqs.Filter(classes, OnDay(d)), (c: ClassRecord) => c.startTime))))
  }

  /** Every class has one day or none, so the per-day counts and the count of
      day-less classes add up to the number of classes. */
  lemma {:induction false} DayCountsCoverAll(classes: seq<ClassRecord>)
    ensures Seqs.Count(classes, OnDay(0)) + Seqs.Count(classes, OnDay(1)) + Seqs.Count(classes, OnDay(2))
      + Seqs.Count(classes, OnDay(3)) + Seqs.Count(classes, OnDay(4)) + Seqs.Count(classes, OnDay(5))
      + Seqs.Count(classes, OnDay(6)) + Seqs.Count(classes, NoDay) == |classes|
  {
    if classes != [] {
      DayCountsCoverAll(classes[1..]);
      Seqs.CountCons(classes, OnDay(0));
      Seqs.CountCons(classes, OnDay(1));
      Seqs.CountCons(classes, OnDay(2));
      Seqs.CountCons(classes, OnDay(3));
      Seqs.CountCons(classes, OnDay(4));
      Seqs.CountCons(classes, OnDay(5));
      Seqs.CountCons(classes, OnDay(6));
      Seqs.CountCons(classes, NoDay);
      ExactlyOneDay(classes[0]);
    }
  }

  /** A class falls on exactly one weekday, or has none. */
  lemma ExactlyOneDay(c: ClassRecord)
    ensures (if OnDay(0)(c) then 1 else 0) + (if OnDay(1)(c) then 1 else 0) + (if OnDay(2)(c) then 1 else 0)
      + (if OnDay(3)(c) then 1 else 0) + (if OnDay(4)(c) then 1 else 0) + (if OnDay(5)(c) then 1 else 0)
      + (if OnDay(6)(c) then 1 else 0) + (if NoDay(c) then 1 else 0) == 1
  {
  }

  lemma {:induction false} NoDayCountZero(classes: seq<ClassRecord>)
    requires forall i :: 0 <= i < |classes| ==> !NoDay(classes[i])
    ensures Seqs.Count(classes, NoDay) == 0
  {
    if classes != [] {
      NoDayCountZero(classes[1..]);
    }
  }

  lemma BucketSize(classes: seq<ClassRecord>, d: nat)
    requires GenerateSchedule(classes).Ok? && d < 7
    ensures |GenerateSchedule(classes).value[d].classes| == Seqs.Count(classes, OnDay(d))
  {
    var b := GenerateSchedule(classes).value[d].classes;
    assert |multiset(b)| == |multiset(Seqs.Filter(classes, OnDay(d)))|;
  }

  /** When the timetable can be built, its slots hold every class once. */
  lemma ScheduleHoldsEveryClass(classes: seq<ClassRecord>)
    requires GenerateSchedule(classes).Ok?
    ensures var b := GenerateSchedule(classes).value;
      |b[0].classes| + |b[1].classes| + |b[2].classes| + |b[3].classes| + |b[4].classes| + |b[5].classes| + |b[6].classes| == |classes|
  {
    DayCountsCoverAll(classes);
    NoDayCountZero(classes);
    BucketSize(classes, 0);
    BucketSize(classes, 1);
    BucketSize(classes, 2);
    BucketSize(classes, 3);
    BucketSize(classes, 4);
    BucketSize(classes, 5);
    BucketSize(classes, 6);
  }

  // ---------------------------------------------------------------- CSV

  const ClassCsvHeader: seq<string> := ["班組名稱", "上課日期", "開始時間", "結束時間", "課堂時長(分鐘)", "描述", "建立日期"]

  /** One exported class: the duration and the locale date text are given. */
  function ClassCsvRow(c: ClassRecord, duration: ClassRecord -> string, dateText: string -> string): (row: seq<string>)
    ensures |row| == |ClassCsvHeader|
  {
    [c.name, GetDayName(c.dayOfWeek), c.startTime, c.endTime, duration(c), c.description, dateText(c.createdAt)]
  }

  /** `exportClassesToCSV()`. */
  function ExportClassesToCSV(classes: seq<ClassRecord>, duration: ClassRecord -> string, dateText: string -> string): string {
    Csv.Encode([ClassCsvHeader] + Seqs.Map(classes, (c: ClassRecord) => ClassCsvRow(c, duration, dateText)))
  }

  /** The `classData` one CSV line becomes: name, day (by name, -1 when
      unknown), start, end, and description from the sixth column. */
  function ParseClassLine(line: string): ClassForm {
    var v := Csv.DecodeRow(line);
    ClassForm(Text.Part(v, 0), Text.Part(v, 2), Text.Part(v, 3), Number(GetDayOfWeekByName(Text.Part(v, 1))), Text.Part(v, 5))
  }

  /** The import's own gate before `addClass` is tried. */
  predicate Importable(f: ClassForm) {
    f.name != "" && f.startTime != "" && f.endTime != "" && f.dayOfWeek != Number(-1)
  }

  /** The form an import line yields: none for a blank line or one that fails
      the gate. */
  function LineForm(line: string): (r: Option<ClassForm>)
    ensures r.Some? ==> Importable(r.value) && r.value == ParseClassLine(line)
    ensures r.None? <==> (Text.IsBlank(line) || !Importable(ParseClassLine(line)))
  {
    if Text.IsBlank(line) then None
    else
      var form := ParseClassLine(line);
      if Importable(form) then Some(form) else None
  }

  /** The exported fields of a class the dialect carries unchanged. */
  predicate CsvSafe(c: ClassRecord, duration: ClassRecord -> string, dateText: string -> string) {
    Csv.PlainField(c.name) && Csv.PlainField(c.startTime) && Csv.PlainField(c.endTime)
    && Csv.PlainField(c.description) && Csv.PlainField(duration(c)) && Csv.PlainField(dateText(c.createdAt))
    && c.dayOfWeek.Number? && 0 <= c.dayOfWeek.n < 7
  }

  /** A character of the CJK Unified Ideographs block. */
  predicate Ideograph(c: char) { '\U{4E00}' <= c <= '\U{9FFF}' }

  /** A string of ideographs is a plain CSV field. */
  lemma IdeographsPlain(f: string)
    requires |f| > 0 && forall i :: 0 <= i < |f| ==> Ideograph(f[i])
    ensures Csv.PlainField(f)
  {
    assert !Text.IsSpace(f[0]) && !Text.IsSpace(f[|f| - 1]);
    assert forall c :: c in f ==> Ideograph(c);
  }

  /** Every day name has three characters. */
  lemma DayNameLength(k: nat)
    requires k < 7
    ensures |DayNames[k]| == 3
  {
  }

  lemma DayNamesPlain(k: nat)
    requires k < 7
    ensures Csv.PlainField(DayNames[k])
  {
    var n := DayNames[k];
    assert |n| == 3 && Ideograph(n[0]) && Ideograph(n[1]) && Ideograph(n[2]);
    IdeographsPlain(n);
  }

  /** The name a weekday exports under is a plain field. */
  lemma DayNamePlain(d: DayValue)
    requires d.Number? && 0 <= d.n < 7
    ensures Csv.PlainField(GetDayName(d))
  {
    assert DayIndex(d) == Some(d.n);
    DayNamesPlain(d.n);
  }

  /** The cells of an exported class row are plain fields. */
  lemma ClassRowPlain(c: ClassRecord, duration: ClassRecord -> string, dateText: string -> string)
    requires CsvSafe(c, duration, dateText)
    ensures forall i :: 0 <= i < 7 ==> Csv.PlainField(ClassCsvRow(c, duration, dateText)[i])
  {
    DayNamePlain(c.dayOfWeek);
  }

  /** A line of seven plain cells parses to the cells it was made from. */
  lemma ParseEncodedLine(row: seq<string>)
    requires |row| == 7 && forall i :: 0 <= i < 7 ==> Csv.PlainField(row[i])
    ensures ParseClassLine(Csv.EncodeRow(row)) == ClassForm(row[0], row[2], row[3], Number(GetDayOfWeekByName(row[1])), row[5])
  {
    Csv.DecodeEncodeRow(row);
  }

  /** An exported class line reads back as the class's name, day, times and
      description. */
  lemma ClassLineRoundTrip(c: ClassRecord, duration: ClassRecord -> string, dateText: string -> string)
    requires CsvSafe(c, duration, dateText)
    ensures ParseClassLine(Csv.EncodeRow(ClassCsvRow(c, duration, dateText)))
      == ClassForm(c.name, c.startTime, c.endTime, c.dayOfWeek, c.description)
  {
    ClassRowPlain(c, duration, dateText);
    ParseEncodedLine(ClassCsvRow(c, duration, dateText));
    DayNameRoundTrip(c.dayOfWeek.n);
  }

  /** Line `k + 2` of an exported file reads back as the `k`-th class. */
  lemma ExportedClassReadsBack(classes: seq<ClassRecord>, duration: ClassRecord -> string, dateText: string -> string, k: nat)
    requires forall i :: 0 <= i < |classes| ==> CsvSafe(classes[i], duration, dateText)
    requires k < |classes|
    ensures var lines := Text.Split(ExportClassesToCSV(classes, duration, dateText), '\n');
      |lines| == |classes| + 1
      && ParseClassLine(lines[k + 1]) == ClassForm(classes[k].name, classes[k].startTime, classes[k].endTime,
                                                     classes[k].dayOfWeek, classes[k].description)
  {
    var rows := [ClassCsvHeader] + Seqs.Map(classes, (c: ClassRecord) => ClassCsvRow(c, duration, dateText));
    forall r, i | r in rows && 0 <= i < |r|
      ensures '\n' !in r[i]
    {
      if r != ClassCsvHeader {
        var j :| 0 <= j < |classes| && r == ClassCsvRow(classes[j], duration, dateText);
        DayNamesPlain(classes[j].dayOfWeek.n);
      }
    }
    Csv.EncodeLines(rows);
    ClassLineRoundTrip(classes[k], duration, dateText);
  }

  /** A Sunday class exports as 星期日, which reads back as the number 0, and
      `addClass` refuses it as a missing field. */
  lemma ExportedSundayNotReimported(classes: seq<ClassRecord>, c: ClassRecord, duration: ClassRecord -> string, dateText: string -> string)
    requires CsvSafe(c, duration, dateText) && c.dayOfWeek == Number(0)
    ensures ParseClassLine(Csv.EncodeRow(ClassCsvRow(c, duration, dateText))).dayOfWeek == Number(0)
    ensures AddClassError(classes, ParseClassLine(Csv.EncodeRow(ClassCsvRow(c, duration, dateText)))) == Some(MissingFields)
  {
    ClassLineRoundTrip(c, duration, dateText);
  }

  /** The intended required-field check lets that Sunday line through. */
  lemma IntendedCheckAcceptsSunday(classes: seq<ClassRecord>, c: ClassRecord, duration: ClassRecord -> string, dateText: string -> string)
    requires CsvSafe(c, duration, dateText) && c.dayOfWeek == Number(0)
    requires c.name != "" && c.startTime != "" && c.endTime != ""
    ensures AddClassErrorIntended(classes, ParseClassLine(Csv.EncodeRow(ClassCsvRow(c, duration, dateText)))) != Some(MissingFields)
  {
    ClassLineRoundTrip(c, duration, dateText);
    var f := ParseClassLine(Csv.EncodeRow(ClassCsvRow(c, duration, dateText)));
    IntendedFieldsPresent(classes, f);
  }

  lemma IntendedFieldsPresent(classes: seq<ClassRecord>, f: ClassForm)
    requires f.name != "" && f.startTime != "" && f.endTime != "" && DayGiven(f.dayOfWeek)
    ensures AddClassErrorIntended(classes, f) != Some(MissingFields)
  {
  }

  // ---------------------------------------------------------------- the manager

  /** `classes.findIndex(c => c.id === id)`, `None` for -1. */
  function ClassIndex(classes: seq<ClassRecord>, id: string): (r: Option<nat>)
    ensures r.None? <==> forall i :: 0 <= i < |classes| ==> classes[i].id != id
    ensures r.Some? ==> (r.value < |classes| && classes[r.value].id == id
      && forall i :: 0 <= i < r.value ==> classes[i].id != id)
  {
    if classes == [] then None
    else if classes[0].id == id then Some(0)
    else match ClassIndex(classes[1..], id)
      case None => None
      case Some(i) => Some(i + 1)
  }

  /** The checks of `updateClass`, in order. An empty or missing patch field
      is skipped by the checks; the start-before-end check falls back to the
      stored times. */
  function UpdateClassError(classes: seq<ClassRecord>, classId: string, patch: ClassPatch): Option<ClassError> {
    match ClassIndex(classes, classId)
    case None => Some(NotFound)
    case Some(i) =>
      var name := patch.name.GetOr("");
      var start := patch.startTime.GetOr("");
      var end := patch.endTime.GetOr("");
      if name != "" && Text.IsBlank(name) then Some(BlankName)
      else if name != "" && exists j :: 0 <= j < |classes| && classes[j].id != classId && classes[j].name == name then Some(DuplicateName)
      else if start != "" && !IsValidTime(start) then Some(BadStartFormat)
      else if end != "" && !IsValidTime(end) then Some(BadEndFormat)
      else if !Text.Less(Or(start, classes[i].startTime), Or(end, classes[i].endTime)) then Some(EndNotAfterStart)
      else
        var t := MergeClass(classes[i], patch);
        if CheckTimeConflict(classes, t.startTime, t.endTime, t.dayOfWeek, classId) then Some(TimeConflict)
        else None
  }

  predicate UniqueIds(classes: seq<ClassRecord>) {
    forall i, j :: 0 <= i < j < |classes| ==> classes[i].id != classes[j].id
  }

  /** The class `updateClass` saves: the patch spread over the class, stamped now. */
  function UpdatedClass(c: ClassRecord, patch: ClassPatch, now: string): ClassRecord {
    MergeClass(c, patch).(updatedAt := now)
  }

  /** An accepted edit that sets no time to "" keeps the schedule sound, as
      long as the other classes' days are parsed numbers. */
  lemma UpdateClassKeepsScheduleSound(classes: seq<ClassRecord>, classId: string, patch: ClassPatch, now: string)
    requires ScheduleSound(classes) && DaysParsed(classes) && UniqueIds(classes)
    requires patch.startTime != Some("") && patch.endTime != Some("")
    requires UpdateClassError(classes, classId, patch).None?
    ensures ClassIndex(classes, classId).Some?
    ensures var i := ClassIndex(classes, classId).value;
      ScheduleSound(classes[i := UpdatedClass(classes[i], patch, now)])
  {
    UpdateAccepted(classes, classId, patch, now);
    var i := ClassIndex(classes, classId).value;
    var u := UpdatedClass(classes[i], patch, now);
    var cs := classes[i := u];
    forall p, q | 0 <= p < |cs| && 0 <= q < |cs| && p != q && SameDay(cs[p], cs[q])
      ensures Apart(cs[p], cs[q])
    {
      if p == i || q == i {
        var k := if p == i then q else p;
        UpdatedApart(classes, classId, i, u, k);
      } else {
        assert cs[p] == classes[p] && cs[q] == classes[q];
      }
    }
  }

  /** What an accepted edit guarantees of the saved class: it starts before it
      ends and the written check found no other class in its slot. */
  lemma UpdateAccepted(classes: seq<ClassRecord>, classId: string, patch: ClassPatch, now: string)
    requires patch.startTime != Some("") && patch.endTime != Some("")
    requires UpdateClassError(classes, classId, patch).None?
    ensures ClassIndex(classes, classId).Some?
    ensures var i := ClassIndex(classes, classId).value;
      var u := UpdatedClass(classes[i], patch, now);
      classes[i].id == classId && WellTimed(u)
      && !CheckTimeConflict(classes, u.startTime, u.endTime, u.dayOfWeek, classId)
  {
    var i := ClassIndex(classes, classId).value;
    var t := MergeClass(classes[i], patch);
    assert t.startTime == Or(patch.startTime.GetOr(""), classes[i].startTime);
    assert t.endTime == Or(patch.endTime.GetOr(""), classes[i].endTime);
  }

  /** A stored class on the edited class's day, other than it, is apart from it. */
  lemma UpdatedApart(classes: seq<ClassRecord>, classId: string, i: nat, u: ClassRecord, k: nat)
    requires DaysParsed(classes) && UniqueIds(classes) && ScheduleSound(classes)
    requires i < |classes| && classes[i].id == classId && k < |classes| && k != i
    requires WellTimed(u) && (SameDay(u, classes[k]) || SameDay(classes[k], u))
    requires !CheckTimeConflict(classes, u.startTime, u.endTime, u.dayOfWeek, classId)
    ensures Apart(u, classes[k]) && Apart(classes[k], u)
  {
    var e := classes[k];
    assert e.id != classId by {
      if k < i { assert classes[k].id != classes[i].id; } else { assert classes[i].id != classes[k].id; }
    }
    assert ParseDay(e.dayOfWeek) == e.dayOfWeek;
    assert WellTimed(e);
    assert !ConflictsWith(e, u.startTime, u.endTime, u.dayOfWeek, classId);
    OverlapIsHalfOpen(u.startTime, u.endTime, e.startTime, e.endTime);
  }

  /** The active students `getStudents(classId)` lists. */
  function ClassStudents(students: seq<Student>, classId: string): seq<Student> {
    Store.StudentsOf(students, classId, "active")
  }

  /** The records `deleteClass` counts: those whose student (by `getStudent`)
      has `class === classId`. */
  function ClassAttendance(students: seq<Student>, attendance: D.Dict<string>, classId: string): (r: seq<AttendanceRecord>)
    ensures forall a :: a in r ==> (Store.StudentById(students, a.studentId).Some?
      && Store.StudentById(students, a.studentId).value.classRef == classId)
  {
    Seqs.Filter(Store.AttendanceRecords(attendance), (a: AttendanceRecord) =>
      match Store.StudentById(students, a.studentId)
      case Some(s) => s.classRef == classId
      case None => false)
  }

  /** How an import line failed: its 1-based line number and the error. */
  datatype RowError = RowError(line: nat, error: ClassError)

  /** Where `importClassesFromCSV` stands after some lines: the store's
      definitions, the classes added and the refusals. The manager's list is
      the one it started with followed by the classes added. */
  datatype ClassImport = ClassImport(defs: D.Dict<ClassRecord>, added: seq<ClassRecord>, errors: seq<RowError>)

  /** One turn of the import loop on line `i` (0-based) whose gate gave
      `gate`, for a manager that started from `start`: a line that fails the
      gate changes nothing; any other goes through `addClass`'s checks
      against the classes held by then, and is either logged as line
      `i + 1` or added under `'class_' + stamp`. */
  function ImportedLine(start: seq<ClassRecord>, st: ClassImport, gate: Option<ClassForm>, i: nat, stamp: string, now: string): (r: ClassImport)
    ensures gate.None? ==> r == st
    ensures gate.Some? && AddClassError(start + st.added, gate.value).Some? ==>
      r.added == st.added && r.errors == st.errors + [RowError(i + 1, AddClassError(start + st.added, gate.value).value)]
    ensures gate.Some? && AddClassError(start + st.added, gate.value).None? ==>
      r.added == st.added + [NewClass(gate.value, "class_" + stamp, now)] && r.errors == st.errors
      && r.defs == D.Put(st.defs, "class_" + stamp, NewClass(gate.value, "", now))
  {
    match gate
    case None => st
    case Some(form) =>
      match AddClassError(start + st.added, form)
      case Some(e) => st.(errors := st.errors + [RowError(i + 1, e)])
      case None =>
        st.(defs := D.Put(st.defs, "class_" + stamp, NewClass(form, "", now)),
            added := st.added + [NewClass(form, "class_" + stamp, now)])
  }

  /** The import after lines `1 .. n - 1` of the file, whose gates are
      `gates`, for a manager holding `start` and a store holding `defs`;
      `stampAt(i)` is the clock reading when line `i` is added. */
  function ImportClasses(gates: seq<Option<ClassForm>>, stampAt: nat -> string, now: string,
                         start: seq<ClassRecord>, defs: D.Dict<ClassRecord>, n: nat): (r: ClassImport)
    requires 1 <= n <= |gates|
    ensures |r.added| + |r.errors| <= n - 1
    ensures ErrorLinesWithin(r.errors, n)
    decreases n
  {
    if n == 1 then ClassImport(defs, [], [])
    else
      var prev := ImportClasses(gates, stampAt, now, start, defs, n - 1);
      var r := ImportedLine(start, prev, gates[n - 1], n - 1, stampAt(n - 1), now);
      ErrorLinesStep(prev.errors, r.errors, n);
      r
  }

  /** The logged line numbers lie in `2 .. n`. */
  predicate ErrorLinesWithin(errors: seq<RowError>, n: nat) {
    forall k :: 0 <= k < |errors| ==> 2 <= errors[k].line <= n
  }

  lemma ErrorLinesStep(before: seq<RowError>, after: seq<RowError>, n: nat)
    requires n >= 2
    requires ErrorLinesWithin(before, n - 1)
    requires after == before || (exists e :: after == before + [RowError(n, e)])
    ensures ErrorLinesWithin(after, n)
  {
    if after != before {
      forall k | 0 <= k < |after|
        ensures 2 <= after[k].line <= n
      {
        if k < |before| {
          assert after[k] == before[k];
        }
      }
    }
  }

  /** How many of lines `1 .. n - 1` pass the import's gate. */
  function GatedLines(gates: seq<Option<ClassForm>>, n: nat): nat
    requires 1 <= n <= |gates|
    decreases n
  {
    if n == 1 then 0 else GatedLines(gates, n - 1) + (if gates[n - 1].Some? then 1 else 0)
  }

  /** Every line that passes the gate is either added or refused, and no
      other line is. */
  lemma {:induction false} ImportAccountsForGatedLines(gates: seq<Option<ClassForm>>, stampAt: nat -> string, now: string,
                                                       start: seq<ClassRecord>, defs: D.Dict<ClassRecord>, n: nat)
    requires 1 <= n <= |gates|
    ensures var r := ImportClasses(gates, stampAt, now, start, defs, n);
      |r.added| + |r.errors| == GatedLines(gates, n)
    decreases n
  {
    if n > 1 {
      ImportAccountsForGatedLines(gates, stampAt, now, start, defs, n - 1);
    }
  }

  /** `c` is the class `addClass` makes from one of lines `1 .. n - 1` that
      passed the gate, with that line's clock reading. */
  predicate MadeFromLine(c: ClassRecord, gates: seq<Option<ClassForm>>, stampAt: nat -> string, now: string, n: nat)
    requires n <= |gates|
  {
    exists j :: 1 <= j < n && gates[j].Some? && c == NewClass(gates[j].value, "class_" + stampAt(j), now)
  }

  /** Every class in `added` is made from a gated line. */
  predicate AddedFromLines(added: seq<ClassRecord>, gates: seq<Option<ClassForm>>, stampAt: nat -> string, now: string, n: nat)
    requires n <= |gates|
  {
    forall k :: 0 <= k < |added| ==> MadeFromLine(added[k], gates, stampAt, now, n)
  }

  lemma AddedFromLinesStep(before: seq<ClassRecord>, after: seq<ClassRecord>, gates: seq<Option<ClassForm>>,
                           stampAt: nat -> string, now: string, n: nat)
    requires 2 <= n <= |gates|
    requires AddedFromLines(before, gates, stampAt, now, n - 1)
    requires after == before
      || (gates[n - 1].Some? && after == before + [NewClass(gates[n - 1].value, "class_" + stampAt(n - 1), now)])
    ensures AddedFromLines(after, gates, stampAt, now, n)
  {
    forall k | 0 <= k < |after|
      ensures MadeFromLine(after[k], gates, stampAt, now, n)
    {
      if k < |before| {
        assert after[k] == before[k];
        var j :| 1 <= j < n - 1 && gates[j].Some? && before[k] == NewClass(gates[j].value, "class_" + stampAt(j), now);
      } else {
        assert gates[n - 1].Some? && after[k] == NewClass(gates[n - 1].value, "class_" + stampAt(n - 1), now);
      }
    }
  }

  /** Each added class is the class `addClass` makes from some gated line,
      with that line's clock reading. */
  lemma {:induction false} ImportedClassesComeFromLines(gates: seq<Option<ClassForm>>, stampAt: nat -> string, now: string,
                                                        start: seq<ClassRecord>, defs: D.Dict<ClassRecord>, n: nat)
    requires 1 <= n <= |gates|
    ensures AddedFromLines(ImportClasses(gates, stampAt, now, start, defs, n).added, gates, stampAt, now, n)
    decreases n
  {
    if n > 1 {
      var prev := ImportClasses(gates, stampAt, now, start, defs, n - 1);
      ImportedClassesComeFromLines(gates, stampAt, now, start, defs, n - 1);
      AddedFromLinesStep(prev.added, ImportClasses(gates, stampAt, now, start, defs, n).added, gates, stampAt, now, n);
    }
  }

  /** `e` names a line that passed the gate, with the reason `addClass` gave
      for it against the classes held by then. */
  predicate LineRefused(e: RowError, gates: seq<Option<ClassForm>>, stampAt: nat -> string, now: string,
                        start: seq<ClassRecord>, defs: D.Dict<ClassRecord>)
  {
    1 <= e.line - 1 < |gates| && gates[e.line - 1].Some?
    && AddClassError(start + ImportClasses(gates, stampAt, now, start, defs, e.line - 1).added, gates[e.line - 1].value) == Some(e.error)
  }

  /** Every error in `errors` names one of lines `1 .. n - 1` that passed the
      gate, with the reason `addClass` gave for it. */
  predicate ErrorsFromLines(errors: seq<RowError>, gates: seq<Option<ClassForm>>, stampAt: nat -> string, now: string,
                            start: seq<ClassRecord>, defs: D.Dict<ClassRecord>, n: nat)
  {
    forall k :: 0 <= k < |errors| ==> errors[k].line - 1 < n && LineRefused(errors[k], gates, stampAt, now, start, defs)
  }

  lemma ErrorsFromLinesStep(prev: ClassImport, gates: seq<Option<ClassForm>>, stampAt: nat -> string, now: string,
                            start: seq<ClassRecord>, defs: D.Dict<ClassRecord>, n: nat)
    requires 2 <= n <= |gates|
    requires prev == ImportClasses(gates, stampAt, now, start, defs, n - 1)
    requires ErrorsFromLines(prev.errors, gates, stampAt, now, start, defs, n - 1)
    ensures ErrorsFromLines(ImportedLine(start, prev, gates[n - 1], n - 1, stampAt(n - 1), now).errors,
                            gates, stampAt, now, start, defs, n)
  {
    var after := ImportedLine(start, prev, gates[n - 1], n - 1, stampAt(n - 1), now).errors;
    forall k | 0 <= k < |after|
      ensures after[k].line - 1 < n && LineRefused(after[k], gates, stampAt, now, start, defs)
    {
      if k < |prev.errors| {
        assert after[k] == prev.errors[k];
      } else {
        var e := after[k];
        assert e.line == n;
        assert ImportClasses(gates, stampAt, now, start, defs, n - 1).added == prev.added;
      }
    }
  }

  /** Each logged error names a gated line and the reason `addClass` gave for
      it against the classes held by then. */
  lemma {:induction false} ImportErrorsComeFromLines(gates: seq<Option<ClassForm>>, stampAt: nat -> string, now: string,
                                                     start: seq<ClassRecord>, defs: D.Dict<ClassRecord>, n: nat)
    requires 1 <= n <= |gates|
    ensures ErrorsFromLines(ImportClasses(gates, stampAt, now, start, defs, n).errors, gates, stampAt, now, start, defs, n)
    decreases n
  {
    if n > 1 {
      var prev := ImportClasses(gates, stampAt, now, start, defs, n - 1);
      ImportErrorsComeFromLines(gates, stampAt, now, start, defs, n - 1);
      ErrorsFromLinesStep(prev, gates, stampAt, now, start, defs, n);
    }
  }

  /** A weekday class written by the export and read by the import, where
      `addClass` accepts it, is added with its own name, times, day and
      description, and no error is logged. */
  lemma ImportAddsExportedClass(start: seq<ClassRecord>, st: ClassImport, c: ClassRecord, duration: ClassRecord -> string,
                                dateText: string -> string, i: nat, stamp: string, now: string)
    requires CsvSafe(c, duration, dateText)
    requires c.name != "" && c.startTime != "" && c.endTime != ""
    requires AddClassError(start + st.added, ClassForm(c.name, c.startTime, c.endTime, c.dayOfWeek, c.description)).None?
    ensures var r := ImportedLine(start, st, LineForm(Csv.EncodeRow(ClassCsvRow(c, duration, dateText))), i, stamp, now);
      |r.added| == |st.added| + 1 && r.errors == st.errors
      && r.added[|st.added|].name == c.name && r.added[|st.added|].dayOfWeek == c.dayOfWeek
      && r.added[|st.added|].startTime == c.startTime && r.added[|st.added|].endTime == c.endTime
      && r.added[|st.added|].description == c.description
  {
    var line := Csv.EncodeRow(ClassCsvRow(c, duration, dateText));
    var form := ClassForm(c.name, c.startTime, c.endTime, c.dayOfWeek, c.description);
    ClassLineRoundTrip(c, duration, dateText);
    Csv.EncodedRowNotBlank(ClassCsvRow(c, duration, dateText));
    assert LineForm(line) == Some(form);
    Text.TrimOfTrimmed(c.name);
  }

  /** The manager: its list of classes and the store it writes through. */
  class ClassManager {
    var classes: seq<ClassRecord>
    const store: Store.DataManager

    constructor (dataManager: Store.DataManager)
      ensures store == dataManager && classes == []
    {
      store := dataManager;
      classes := [];
    }

    /** `loadClasses()`: the store's `getClasses()`. */
    method LoadClasses(now: string) returns (r: seq<ClassRecord>)
      modifies this
      ensures classes == Store.ClassList(store.classDefinitions, now) && r == classes
    {
      classes := Store.ClassList(store.classDefinitions, now);
      r := classes;
    }

    /** `addClass(classData)`: refused by the first failing check with nothing
        changed; otherwise the new class goes to the store under
        `'class_' + stamp` and is appended to the list. The id is never empty,
        so the "save failed" branch cannot be taken. */
    method AddClass(form: ClassForm, stamp: string, now: string) returns (r: Result<ClassRecord, ClassError>)
      modifies this, store
      requires store.Valid()
      ensures store.Valid()
      ensures r.Err? <==> AddClassError(old(classes), form).Some?
      ensures r.Err? ==> (r.error == AddClassError(old(classes), form).value && classes == old(classes)
        && store.classDefinitions == old(store.classDefinitions))
      ensures r.Ok? ==> (r.value == NewClass(form, "class_" + stamp, now) && classes == old(classes) + [r.value]
        && store.classDefinitions == D.Put(old(store.classDefinitions), "class_" + stamp, NewClass(form, "", now)))
      ensures store.students == old(store.students) && store.attendance == old(store.attendance)
      ensures store.classSchedule == old(store.classSchedule)
    {
      var err := AddClassError(classes, form);
      if err.Some? {
        r := Err(err.value);
        return;
      }
      var id := store.AddClass(NewClass(form, "", now), "class_" + stamp);
      var c := NewClass(form, id, now);
      classes := classes + [c];
      r := Ok(c);
    }

    /** `updateClass(classId, updatedData)`: refused by the first failing
        check; otherwise the store is updated and, when it knows the id, the
        class at its index is replaced and nothing else in the list moves. */
    method UpdateClass(classId: string, patch: ClassPatch, now: string) returns (r: Result<ClassRecord, ClassError>)
      modifies this, store
      requires store.Valid()
      ensures store.Valid()
      ensures UpdateClassError(old(classes), classId, patch).Some? ==>
        (r == Err(UpdateClassError(old(classes), classId, patch).value) && classes == old(classes)
          && store.classDefinitions == old(store.classDefinitions))
      ensures UpdateClassError(old(classes), classId, patch).None? ==>
        (var i := ClassIndex(old(classes), classId).value;
         var u := UpdatedClass(old(classes)[i], patch, now);
         if D.HasKey(old(store.classDefinitions), classId) then
           r == Ok(u) && classes == old(classes)[i := u]
           && store.classDefinitions == D.Put(old(store.classDefinitions), classId,
                Store.StoreMergeClass(D.Get(old(store.classDefinitions), classId).value, u, now))
         else
           r == Err(SaveFailed) && classes == old(classes) && store.classDefinitions == old(store.classDefinitions))
      ensures store.students == old(store.students) && store.attendance == old(store.attendance)
      ensures store.classSchedule == old(store.classSchedule)
    {
      var err := UpdateClassError(classes, classId, patch);
      if err.Some? {
        r := Err(err.value);
        return;
      }
      var i := ClassIndex(classes, classId).value;
      var u := UpdatedClass(classes[i], patch, now);
      var ok := store.UpdateClass(classId, u, now);
      if ok {
        classes := classes[i := u];
        r := Ok(u);
      } else {
        r := Err(SaveFailed);
      }
    }

    /** `deleteClass(classId)`, with the answers to its two confirmations
        given: an unknown id is an error; a declined confirmation returns
        false with nothing changed; otherwise the store cascades the delete
        and exactly that class leaves the list. */
    method DeleteClass(classId: string, confirmStudents: bool, confirmRecords: bool) returns (r: Result<bool, ClassError>)
      modifies this, store
      requires store.Valid()
      ensures store.Valid()
      ensures ClassIndex(old(classes), classId).None? <==> r == Err(NotFound)
      ensures r == Ok(true) <==> (ClassIndex(old(classes), classId).Some?
        && (|ClassStudents(old(store.students), classId)| == 0 || confirmStudents)
        && (|ClassAttendance(old(store.students), old(store.attendance), classId)| == 0 || confirmRecords))
      ensures r != Ok(true) ==> (classes == old(classes) && store.students == old(store.students)
        && store.attendance == old(store.attendance) && store.classSchedule == old(store.classSchedule)
        && store.classDefinitions == old(store.classDefinitions))
      ensures r == Ok(true) ==> (var i := ClassIndex(old(classes), classId).value;
        classes == old(classes)[..i] + old(classes)[i + 1..]
        && store.classDefinitions == D.Remove(old(store.classDefinitions), classId)
        && store.students == Seqs.Filter(old(store.students), (s: Student) => s.classRef != classId)
        && store.attendance == D.KeepKeys(old(store.attendance), (k: string) => !Text.Contains(k, classId))
        && store.classSchedule == Seqs.Filter(old(store.classSchedule), (e: ScheduleEntry) => e.classId != classId))
    {
      var found := ClassIndex(classes, classId);
      if found.None? {
        r := Err(NotFound);
        return;
      }
      var i := found.value;
      var students := ClassStudents(store.students, classId);
      if |students| > 0 && !confirmStudents {
        r := Ok(false);
        return;
      }
      var records := ClassAttendance(store.students, store.attendance, classId);
      if |records| > 0 && !confirmRecords {
        r := Ok(false);
        return;
      }
      store.DeleteClass(classId);
      classes := classes[..i] + classes[i + 1..];
      r := Ok(true);
    }

    /** The counting part of `getClassStatistics()`: the number of classes and,
        for each weekday, how many classes fall on it. A class with no valid
        day is not counted here; the source's `byDay['']++` on a missing
        entry would leave `NaN` under the empty name. */
    method ClassStatistics() returns (total: nat, byDay: seq<nat>)
      ensures total == |classes|
      ensures |byDay| == 7 && forall d :: 0 <= d < 7 ==> byDay[d] == Seqs.Count(classes, OnDay(d))
    {
      total := |classes|;
      byDay := [0, 0, 0, 0, 0, 0, 0];
      var i := 0;
      while i < |classes|
        invariant 0 <= i <= |classes|
        invariant |byDay| == 7 && forall d :: 0 <= d < 7 ==> byDay[d] == Seqs.Count(classes[..i], OnDay(d))
      {
        assert classes[..i + 1] == classes[..i] + [classes[i]];
        forall d | 0 <= d < 7 {
          Seqs.FilterAppend(classes[..i], [classes[i]], OnDay(d));
        }
        match DayIndex(classes[i].dayOfWeek) {
          case Some(k) => byDay := byDay[k := byDay[k] + 1];
          case None =>
        }
        i := i + 1;
      }
      assert classes[..i] == classes;
    }

    /** One turn of the import loop, on line `i` whose gate gave `gate`: a
        line that fails the gate is skipped, any other is handed to
        `addClass` and counted as added or logged as refused. The list, the
        store's definitions and the tallies move as `ImportedLine` says, the
        list being `start` followed by the classes added so far. */
    method ImportStep(ghost start: seq<ClassRecord>, ghost st: ClassImport, gate: Option<ClassForm>, i: nat,
                      stamp: string, now: string, success: nat, errors: seq<RowError>)
      returns (success': nat, errors': seq<RowError>)
      modifies this, store
      requires store.Valid()
      requires classes == start + st.added && store.classDefinitions == st.defs
      requires success == |st.added| && errors == st.errors
      ensures store.Valid()
      ensures var t := ImportedLine(start, st, gate, i, stamp, now);
        classes == start + t.added && store.classDefinitions == t.defs
        && success' == |t.added| && errors' == t.errors
      ensures store.students == old(store.students) && store.attendance == old(store.attendance)
      ensures store.classSchedule == old(store.classSchedule)
    {
      success', errors' := success, errors;
      if gate.None? {
        return;
      }
      var r := AddClass(gate.value, stamp, now);
      match r {
        case Ok(c) =>
          assert start + (st.added + [c]) == (start + st.added) + [c];
          success' := success + 1;
        case Err(e) =>
          errors' := errors + [RowError(i + 1, e)];
      }
    }

    /** `importClassesFromCSV(csvContent)`: every non-blank line after the
        first that passes the import's gate is handed to `addClass`; each
        refusal is logged with its line number. `stampAt(i)` is the clock
        reading when line `i` is added. The list, the store's definitions and
        the tallies end as `ImportClasses` says. */
    method ImportClassesFromCSV(csv: string, stampAt: nat -> string, now: string)
      returns (success: nat, errors: seq<RowError>, total: int)
      modifies this, store
      requires store.Valid()
      ensures store.Valid()
      ensures var lines := Text.Split(csv, '\n');
        var p := ImportClasses(Seqs.Map(lines, LineForm), stampAt, now, old(classes), old(store.classDefinitions), |lines|);
        total == |lines| - 1 && classes == old(classes) + p.added && store.classDefinitions == p.defs
        && success == |p.added| && errors == p.errors
      ensures success + |errors| <= total
      ensures store.students == old(store.students) && store.attendance == old(store.attendance)
      ensures store.classSchedule == old(store.classSchedule)
    {
      var lines := Text.Split(csv, '\n');
      ghost var gates := Seqs.Map(lines, LineForm);
      ghost var start := classes;
      ghost var defs := store.classDefinitions;
      total := |lines| - 1;
      success := 0;
      errors := [];
      var i := 1;
      while i < |lines|
        invariant 1 <= i <= |lines|
        invariant store.Valid()
        invariant var p := ImportClasses(gates, stampAt, now, start, defs, i);
          classes == start + p.added && store.classDefinitions == p.defs && success == |p.added| && errors == p.errors
        invariant store.students == old(store.students) && store.attendance == old(store.attendance)
        invariant store.classSchedule == old(store.classSchedule)
      {
        ghost var p := ImportClasses(gates, stampAt, now, start, defs, i);
        var gate := LineForm(lines[i]);
        assert gate == gates[i];
        assert ImportClasses(gates, stampAt, now, start, defs, i + 1) == ImportedLine(start, p, gate, i, stampAt(i), now);
        success, errors := ImportStep(start, p, gate, i, stampAt(i), now, success, errors);
        i := i + 1;
      }
    }
  }
}
