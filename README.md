# Attendance book: a verified model of the data layer

This project models the data layer of a small attendance book for a
study group. The modelled parts are:

- its client-side store: students, classes, a class schedule and an attendance ledger;
- the managers that validate and change the store;
- the read-side statistics;
- the CSV and sheet-row codecs;
- three Apps Script back ends that keep the students, the timetable and
  the attendance in a spreadsheet.

Every operation below is stated in Dafny and proved against its
specification.

The model keeps the form of the code it describes:

- **Store.** `DataManager` is the class `Store.DataManager`. Its fields
  `students`, `attendance`, `classSchedule` and `classDefinitions` are
  reassigned by its methods.
- **Managers.** The class, student and attendance managers are classes over
  their own lists and a shared `DataManager`.
- **Filter and count chains.** These become functions, with lemmas about them.
- **Loops.** Loops in the source (grouping by date, the batch tallies,
  the CSV imports, the sheet readers) are methods with loop invariants,
  proved against those functions.
- **Spreadsheets.** A spreadsheet is a class holding named sheets. A sheet
  holds a `seq` of rows of strings, overwritten block by block as
  `getRange(...).setValues` does.

JavaScript values are modelled as follows:

- **Objects used as dictionaries** (the attendance ledger, the class
  definitions, the `currentAttendance` Map, the header-keyed records of the
  simplest script) become association lists in insertion order (module
  `Dict`):
  - writing an existing key keeps its place;
  - a new key goes to the end;
  - `delete` filters the key out.
- **Missing fields.** A missing field is the empty string, and `x || d` is `Entities.Or`.
- **Day of the week.** `dayOfWeek` can be a number, a string, `NaN` or
  absent (`Entities.DayValue`), and `parseInt` is modelled.
- **String comparison.** `<` and `>=` on strings are the lexicographic
  order `Text.Less`.
- **Rounding.** `Math.round(p / t * 100)` is the integer
  `(200p + t) div 2t`, and 0 when `t` is 0.
- **Outside inputs.** Ids taken from `Date.now()`, timestamps, the answers
  to `confirm()` and a date-validity test are parameters.

Two quirks of the source are modelled as written and stated as lemmas:

- **The second `getAttendance` wins.** `getAttendance` is declared twice in
  js/data.js, and the later declaration wins. `getAttendanceStats`
  therefore receives the list of all records instead of one status, and
  always reports zero present and zero absent (`Store.EffectiveStatsAlwaysZero`).
  The intended lookup is modelled beside it (`Store.LookupAttendance`,
  `Store.AttendanceStats`).
- **Records carry no `classId`.** The attendance records that
  `getAttendance()` builds have no `classId`. So every `record.classId ===
  classId` filter matches nothing:
  - clearing by date with a class deletes nothing (`Attendance.ClearedRecords`);
  - `getAttendanceStatsByDateRange` with a class is empty;
  - `getAttendanceSummary` with a class is all zeros (`AttendanceQueries.RangeRowsFacts`, `AttendanceQueries.AttendanceSummary`).

## Model

| member | source | states |
|---|---|---|
| Entities.ParseDay | js/classes.js:64 | `parseInt` of a day: always a number or NaN, and a number is kept as it is |
| Entities.MergeStudent | js/data.js:87-95 | `{...student, ...patch}`: an empty patch changes nothing; the name is the patch's when it has one and the stored one otherwise; an unpatched class name is kept; the id is the patch's or the stored one |
| Entities.MergeFieldwise | js/data.js:87-95 | for each of the seventeen student fields, the spread takes the patch's value when the patch has the field and keeps the stored value when it does not |
| Entities.MergeComplete | js/students.js:115-119 | a patch carrying every field of a student yields exactly that student |
| Entities.MergeClass | js/classes.js:141-152 | `{...class, ...patch}` in `updateClass`: id, frequency and creation time kept; times and day taken from the patch when it has them |
| Entities.AttendanceKey | js/data.js:200 | the key `date + "_" + studentId` is one character longer than its two parts together |
| Entities.KeyRoundTrip | js/data.js:200 | when neither part holds `_`, splitting a key on `_` gives back the date and the student id (see also js/data.js:582-590) |
| Entities.KeyInjective | js/data.js:200 | when no part holds `_`, two keys are equal only for the same date and student |
| Rates.RateRounds | js/attendance.js:164 | the integer rate is `Math.round(100 * present / total)`: the nearest whole percent, halves rounding up |
| Rates.RateBounds | js/attendance.js:164 | a rate lies in 0..100, is 0 with nobody present and 100 with everybody present |
| Rates.RateMonotone | js/statistics.js:131 | more present records for the same total never lowers the rate |
| Csv.UnquotePlain | js/classes.js:367 | a field with no quote, comma, newline or edge space is read back unchanged after quoting, quote removal and trimming |
| Csv.DecodeEncodeRow | js/classes.js:350-352 | a row of such fields, written as `"a","b",...` and read by splitting on `,`, removing `"` and trimming, is the same row (see also js/classes.js:367) |
| Csv.EncodeRowOneLine | js/classes.js:350-352 | an encoded row holds no newline when its fields hold none |
| Csv.EncodeLines | js/classes.js:350-352 | splitting a file on newlines gives back its encoded rows one per line (see also js/classes.js:366) |
| Csv.DecodeEncodeFile | js/students.js:221-223 | every line of an encoded file decodes to its row (see also js/students.js:241) |
| Csv.TableReadsBack | js/attendance.js:450-452 | a header plus rows, written and read back, gives the header at line 0 and row `j` at line `j + 1` (see also js/attendance.js:481) |
| Store.NewStoredStudent | js/data.js:75-81 | the stored student takes the fresh id unless the data gives one, today's join date and status `active`, and the data's name and class |
| Store.NewStoredStudentFields | js/data.js:75-81 | for every other field too, the stored student holds the data's value when the data has the field and is empty when it does not; the join date and status are today's and `active` even when the data gives others |
| Store.FindStudent | js/data.js:88 | `findIndex` by id: none iff no student has the id, otherwise the first index holding it |
| Store.StudentById | js/data.js:116-118 | `find` by id: none iff no student has the id, otherwise a student with that id |
| Store.StudentsOf | js/data.js:108-114 | `getStudents(classId, status)`: exactly the students with that status, and of that class when a class is given |
| Store.ClassName | js/data.js:148-155 | a defined class's non-empty name wins; an unknown id that is not a built-in class is its own name |
| Store.ClassDates | js/data.js:182-188 | exactly the dates of the class's schedule entries (as a multiset), in non-increasing string order |
| Store.ClassDatesExact | js/data.js:182-188 | a date is listed iff the schedule holds a meeting of that class on it |
| Store.LookupAttendance | js/data.js:205-208 | the intended lookup: the stored status for `date_studentId`, or `unmarked` when there is none |
| Store.AttendanceRecords | js/data.js:580-592 | `getAttendance()`: one record per ledger key in key order, with the key as id, the status stored, and date and student id split from the key |
| Store.RecordOfMarkedKey | js/data.js:582-590 | the record built from a key that `markAttendance` wrote carries that student and date |
| Store.EffectiveLookup | js/data.js:580 | the `getAttendance(studentId, date)` calls actually receive the array of all records |
| Store.EffectiveAttendanceStats | js/data.js:210-225 | `getAttendanceStats` as it runs: its total is the number of active students of the class |
| Store.EffectiveStatsAlwaysZero | js/data.js:210-225 | as it runs, `getAttendanceStats` reports present = absent = 0 and rate 0, whatever the ledger holds |
| Store.AttendanceStats | js/data.js:210-225 | the intended statistics: total is the active students of the class, present + absent ≤ total, rate ≤ 100 and 0 for an empty class |
| Store.MarkedStudentCounted | js/data.js:210-214 | with the intended lookup, a student of the class marked present makes `present` positive |
| Store.FilteredAttendance | js/data.js:228-245 | exactly the ledger keys whose date is within the inclusive bounds and whose student exists and passes the class and student filters |
| Store.FilteredKeysExist | js/data.js:229-244 | every key returned is within the date bounds, names an existing student, and that student is in the filtered class |
| Store.StudentStats | js/data.js:247-266 | `getStudentStats`: present ≤ total ≤ size of the ledger, rate ≤ 100 and 0 when the total is 0 |
| Store.ClassList | js/data.js:522-533 | `getClasses()`: one class per definition, in order, with the definition's key as id and its name, times and day |
| Store.StoreMergeClass | js/data.js:535-541 | the stored class after `updateClass`: the incoming fields, the frequency defaulting to the stored one, `updatedAt` refreshed |
| Store.BuildLedger | js/data.js:568-575 | the ledger that `saveAttendance` builds from a list of records has distinct keys |
| Store.BuildLedgerSnoc | js/data.js:571-574 | one more record writes its `date_studentId` key with its status |
| Store.BuildLedgerLastWins | js/data.js:571-574 | the status kept under a key is that of the last record with that key |
| Store.LedgerFromRecords | js/data.js:503-507 | the `forEach` loop of `importAllData` builds the same ledger as `saveAttendance` |
| Store.IndexedDefinitions | js/data.js:497-499 | an imported class array becomes an object keyed `"0"`, `"1"`, ... in order, with distinct keys |
| Store.DropStep | js/data.js:100-104 | one turn of the delete-while-iterating loop removes the key iff it contains the substring |
| Store.DropDone | js/data.js:100-104 | after the loop, the ledger keeps exactly the keys that do not contain the substring |
| Store.DataManager.constructor | js/data.js:3-16 | an empty store with the three built-in class definitions |
| Store.DataManager.AddStudent | js/data.js:75-85 | appends exactly the new stored student and changes nothing else |
| Store.DataManager.UpdateStudent | js/data.js:87-95 | null and no change iff no student has the id; otherwise only that index changes, to the merge of the stored student and the data |
| Store.DataManager.DropKeysContaining | js/data.js:100-104 | removes exactly the attendance keys containing the substring, in place, and nothing else |
| Store.DataManager.DeleteStudent | js/data.js:97-106 | removes every student with the id and every attendance key containing the id; all else unchanged |
| Store.DataManager.AddClass | js/data.js:121-126 | stores the class under the fresh id, returns that id, and changes nothing else |
| Store.DataManager.DeleteClass | js/data.js:128-146 | removes the definition, the students of the class, the attendance keys containing the class id, and the class's schedule entries |
| Store.DataManager.UpdateClass | js/data.js:535-546 | succeeds iff the class is defined; then only that definition changes, to the merged class |
| Store.DataManager.AddClassDate | js/data.js:158-173 | added iff the (date, class) meeting is new; then exactly one entry is appended, otherwise nothing changes; no duplicate meetings are ever created |
| Store.DataManager.DeleteClassDate | js/data.js:175-180 | removes exactly the entries of that meeting; afterwards there is none |
| Store.DataManager.MarkAttendance | js/data.js:199-203 | writes the status under `date_studentId`, overwriting an earlier one, and changes nothing else |
| Store.DataManager.SetAttendanceStatus | js/data.js:563-566 | always succeeds and writes the status under `date_studentId` |
| Store.DataManager.SaveAttendance | js/data.js:568-578 | replaces the ledger by the one built from the records, the last record for each key winning |
| Store.DataManager.ImportAllData | js/data.js:492-519 | replaces each part that the data holds: a record list goes through the ledger builder, a class array is re-keyed by index, and the schedule defaults to empty |
| SyncRows.ConvertDataToRows | js/data.js:413-453 | fails iff classes are missing or the attendance is not a list; otherwise a header, then one five-cell row per student, class and record |
| SyncRows.ExportNeverConverts | js/data.js:269-278 | the object that `syncToGoogleSheets` passes (from `exportAllData`) never converts: it has no `classes` and its attendance is not a list (see also js/data.js:370-373) |
| SyncRows.ExportAllData | js/data.js:269-278 | the `exportAllData` payload; `SyncRows.ExportNeverConverts` proves the converter always refuses it |
| SyncRows.ExportForSyncConverts | js/data.js:413-453 | data shaped as the converter expects always converts, to 1 + students + classes + records rows |
| SyncRows.ExportForSync | js/data.js:413-453 | the payload `convertDataToRows` expects; `SyncRows.ExportForSyncConverts` proves it converts to a row per entity |
| SyncRows.AddRow | js/data.js:461-486 | each row read adds at most one student, class or record |
| SyncRows.ReadRows | js/data.js:455-490 | reading rows yields at most one item per row |
| SyncRows.ConvertRowsToData | js/data.js:455-490 | the loop skips the header row and reads the rest as `ReadRows` does; no rows gives empty data |
| SyncRows.ReadStudentRows | js/data.js:463-468 | rows written from students read back as those students, appended in order |
| SyncRows.ReadClassRows | js/data.js:469-474 | rows written from classes read back as those classes, appended in order |
| SyncRows.ReadRecordRows | js/data.js:475-480 | rows written from records read back as those records, appended in order |
| SyncRows.RowsRoundTrip | js/data.js:413-490 | when the item encoder and parser invert each other, rows from `convertDataToRows` read back to the same students, classes and records |
| Classes.IsValidTimeExactly | js/classes.js:409-412 | `isValidTime` accepts exactly `H:MM` or `HH:MM` with hour 0–23 and minute 00–59 |
| Classes.Minutes | js/classes.js:409-412 | a valid time denotes a minute of the day, below 24·60 |
| Classes.PaddedTimesCompareByClock | js/classes.js:49 | for zero-padded times, string order is clock order (see also js/classes.js:229-233) |
| Classes.UnpaddedHourSortsLate | js/classes.js:409-412 | `9:00` is valid and earlier than `10:00`, yet sorts after it as a string (see also js/classes.js:49) |
| Classes.CheckTimeConflict | js/classes.js:211-236 | a conflict is reported iff some class other than the excluded one, on the same day, passes the three-clause overlap test |
| Classes.OverlapIsHalfOpen | js/classes.js:229-233 | for intervals with start < end, the three-clause test equals `newStart < end && start < newEnd` |
| Classes.BackToBackNoOverlap | js/classes.js:229-233 | touching intervals never overlap |
| Classes.SampleClassesDoNotClash | js/app.js:82-96 | the sample classes 16:00–17:30 and 17:30–19:00 do not conflict |
| Classes.NewClass | js/classes.js:60-69 | the class that `addClass` builds: the given id, the name trimmed, the day parsed, and the times and description kept |
| Classes.AddClassError | js/classes.js:30-57 | the checks of `addClass` in source order; what they accept is stated by `Classes.ValidFormFailsOnlyOnClashes`, `Classes.AddClassKeepsScheduleSound` and `Classes.ClassManager.AddClass` |
| Classes.CheckTimeConflictIntended | js/classes.js:211-236 | the corrected check, comparing parsed days, finds a conflict iff a clashing class exists |
| Classes.ConflictChecksAgree | js/classes.js:218 | when every stored day is a parsed number, the check as written and the corrected check agree |
| Classes.IntendedAddKeepsScheduleSound | js/classes.js:30-88 | with the corrected check, adding a class keeps the timetable free of clashes |
| Classes.AddClassKeepsScheduleSound | js/classes.js:30-88 | `addClass` keeps a clash-free timetable of parsed days clash-free |
| Classes.TextDayEscapesConflictCheck | js/classes.js:218 | a class stored with the text day `"6"` is not compared against a new Saturday class, so a clash is accepted |
| Classes.IntendedCheckCatchesTextDay | js/classes.js:218 | the corrected check reports that clash |
| Classes.DayIndex | js/classes.js:414-417 | `days[dayOfWeek]`: a number 0..6 selects itself; a one-character text `"0"`..`"6"` selects the day it spells, as a JavaScript array index does; anything else selects nothing |
| Classes.GetDayOfWeekByName | js/classes.js:419-422 | `indexOf` among the day names: -1..6 |
| Classes.IndexOfFindsFirst | js/classes.js:419-422 | `indexOf` gives the first position of the name, and -1 iff it is absent |
| Classes.DayOfWeekByNameMeaning | js/classes.js:419-422 | a day's number is the first position of its name among the day names, and -1 iff it is not a day name |
| Classes.DayNamesDistinct | js/classes.js:415 | the seven day names differ |
| Classes.DayNameRoundTrip | js/classes.js:414-422 | `getDayOfWeekByName(getDayName(d)) == d` for d in 0..6; an out-of-range day has the name `''`, which maps to -1 |
| Classes.GetDayName | js/classes.js:414-417 | `getDayName`: the day's name for a day index 0..6, `''` otherwise; its meaning is stated by `Classes.DayNameRoundTrip` (looking the name up again gives the day back) and `Classes.DayNamesDistinct` |
| Classes.ValidateClassData | js/classes.js:425-454 | no errors iff the name is not blank, both times are valid, start < end, and a day is given |
| Classes.ValidFormFailsOnlyOnClashes | js/classes.js:30-88 | a form that validates can be refused by `addClass` only as a duplicate name or a time conflict (see also js/classes.js:425-454) |
| Classes.NumericSundayRejected | js/classes.js:33 | `addClass` refuses Sunday (day 0) as a missing field, though validation treats it like any other day |
| Classes.GenerateSchedule | js/classes.js:315-341 | fails iff some class has no valid day; otherwise seven named buckets, each holding that day's classes sorted by start time |
| Classes.DayCountsCoverAll | js/classes.js:315-341 | each class is counted under exactly one day or as dayless |
| Classes.ExactlyOneDay | js/classes.js:320-330 | a class falls in exactly one day bucket or in none |
| Classes.NoDayCountZero | js/classes.js:315-341 | when every class has a day, no class is dayless |
| Classes.BucketSize | js/classes.js:315-341 | a day's bucket holds as many classes as meet that day |
| Classes.ScheduleHoldsEveryClass | js/classes.js:315-341 | the seven buckets together hold every class |
| Classes.ClassCsvRow | js/classes.js:345-353 | a class's CSV row has one cell per header column |
| Classes.LineForm | js/classes.js:370-388 | a blank line or a line missing the required fields is skipped; otherwise the form parsed from it |
| Classes.ClassRowPlain | js/classes.js:345-353 | a class whose fields need no escaping gives a row of plain cells |
| Classes.ParseEncodedLine | js/classes.js:370-380 | reading an encoded class row gives its name, times, day (by name) and description |
| Classes.ParseClassLine | js/classes.js:375-383 | the `classData` an import line gives: name, day by name, times and description by column; its meaning is stated by `Classes.ParseEncodedLine` and `Classes.ClassLineRoundTrip` |
| Classes.ClassLineRoundTrip | js/classes.js:343-402 | a class exported as CSV re-imports with the same name, day, start, end and description |
| Classes.ExportedClassReadsBack | js/classes.js:343-402 | in an exported file, line `k + 1` reads back as class `k` |
| Classes.ExportClassesToCSV | js/classes.js:343-360 | `exportClassesToCSV`: the quoted header and one quoted row per class, joined by line breaks; its meaning is stated by `Classes.ExportedClassReadsBack` (line `k + 1` reads back as class `k`) |
| Classes.ExportedSundayNotReimported | js/classes.js:33 | an exported Sunday class is refused as missing fields when imported again (see also js/classes.js:343-402) |
| Classes.IntendedCheckAcceptsSunday | js/classes.js:33 | with a presence check that treats 0 as given, the re-imported Sunday class passes it |
| Classes.IntendedFieldsPresent | js/classes.js:33 | with that check, a form with all fields present is never refused as missing fields |
| Classes.ClassIndex | js/classes.js:92 | `findIndex` by id: none iff no class has the id, otherwise the first index |
| Classes.UpdateClassKeepsScheduleSound | js/classes.js:90-159 | an accepted update keeps a clash-free timetable clash-free |
| Classes.UpdateClassError | js/classes.js:90-137 | the checks of `updateClass` in source order; what they accept is stated by `Classes.UpdateClassKeepsScheduleSound` and `Classes.ClassManager.UpdateClass` |
| Classes.UpdatedClass | js/classes.js:140-144 | the patch spread over the class and stamped now; its fields are stated by `Entities.MergeClass`, and `Classes.UpdateClassKeepsScheduleSound` proves the saved class keeps the timetable clash-free |
| Classes.ClassAttendance | js/classes.js:181-187 | the class's records all belong to students of that class |
| Classes.ClassManager.constructor | js/classes.js:3-6 | a manager over the store with no classes loaded |
| Classes.ClassManager.LoadClasses | js/classes.js:8-16 | the loaded classes are the store's class list |
| Classes.ClassManager.AddClass | js/classes.js:30-88 | fails iff a check fails, reporting the first failing one in source order and changing nothing; otherwise appends the new class and stores it |
| Classes.ClassManager.UpdateClass | js/classes.js:90-159 | rejects as the checks say, with no change; otherwise only that index changes, to the merged class, and the store is updated |
| Classes.ClassManager.DeleteClass | js/classes.js:161-208 | unknown id fails; a declined confirmation returns false with no change; otherwise exactly that class is removed here and in the store |
| Classes.ClassManager.ClassStatistics | js/classes.js:277-290 | the total is the number of classes, and each day's count the classes on that day |
| Classes.ImportedLine | js/classes.js:371-391 | one turn of the import loop: a skipped line changes nothing; a line `addClass` refuses appends its 1-based number and the reason; an accepted one appends the class made under `'class_' + stamp` and stores it under that key |
| Classes.ImportClasses | js/classes.js:371-392 | after lines 1 to n - 1, the imports and errors fit in those lines and every error line lies in 2 to n |
| Classes.ImportAccountsForGatedLines | js/classes.js:371-392 | every non-blank line with a name, times and a known day is either imported or logged, and no other line is |
| Classes.ImportedClassesComeFromLines | js/classes.js:385-388 | each imported class is the one `addClass` makes from some gated line, with that line's clock reading |
| Classes.ImportErrorsComeFromLines | js/classes.js:389-391 | each logged error names a gated line and the reason `addClass` gave for it against the classes held by then |
| Classes.ImportAddsExportedClass | js/classes.js:374-387 | an exported weekday class that `addClass` accepts re-imports with its own name, day, times and description, and no error |
| Classes.ClassManager.ImportStep | js/classes.js:371-391 | one line with its error caught: the list, the store's definitions and the counters become exactly `ImportedLine`'s, and the rest of the store is untouched |
| Classes.ClassManager.ImportClassesFromCSV | js/classes.js:363-403 | total is the line count minus the header; the list, the store's definitions, the success count and the errors are exactly those of `ImportClasses` over the file's lines; the rest of the store is untouched |
| Attendance.ApplyMarks | js/attendance.js:337-360 | marking a list keeps the ledger's keys distinct |
| Attendance.NoteMarks | js/attendance.js:122 | noting marks in `currentAttendance` keeps its keys distinct |
| Attendance.Batch | js/attendance.js:337-360 | the tally: success + failed = number of ids, one error per failure, successes are the valid statuses |
| Attendance.ApplyMarksLastWins | js/data.js:199-203 | after a batch, a key holds the last valid mark for it, or its old value when none |
| Attendance.UniqueMarkWins | js/attendance.js:345-353 | a student marked once with a valid status ends with that status |
| Attendance.BatchUniform | js/attendance.js:337-360 | a batch with one status succeeds for every id or fails for every id |
| Attendance.UniformLastMark | js/attendance.js:345-353 | with one valid status for all, each listed student's last mark is that status |
| Attendance.BatchMarksEveryone | js/attendance.js:337-360 | after a valid batch every listed student holds the status, and every other key keeps its old value |
| Attendance.PutKeepsWellKeyed | js/data.js:200 | writing a key built from `_`-free parts keeps every key splittable |
| Attendance.RecordKeysDistinct | js/data.js:580-592 | the records of a ledger have distinct (date, student) keys |
| Attendance.SaveFreshRecord | js/data.js:568-578 | saving one more record with a new key appends that entry to the ledger |
| Attendance.RebuildFiltered | js/data.js:568-578 | saving a filtered record list yields the ledger filtered by the same test on keys (see also js/data.js:580-592) |
| Attendance.SaveAllRoundTrip | js/data.js:568-578 | saving all records of a ledger gives back the same ledger (see also js/data.js:580-592) |
| Attendance.ClearedRecords | js/attendance.js:523-544 | without a class, exactly the records off that date are kept; with a class, every record is kept |
| Attendance.ClearedCount | js/attendance.js:536 | the count returned is the number of records on that date, or 0 with a class |
| Attendance.ClearByDateKeepsOthers | js/attendance.js:523-544 | the saved ledger is the old one without the keys on that date (unchanged with a class) |
| Attendance.CopySources | js/attendance.js:369-374 | exactly the records of active students of the class dated before the target |
| Attendance.LatestDate | js/attendance.js:374-381 | the source date is one of the records' dates and no record is later |
| Attendance.CopyPlan | js/attendance.js:382 | the marks copied are at most the source records |
| Attendance.CopyCarriesStatuses | js/attendance.js:391-399 | every copied mark carries the status of a record on the latest source date |
| Attendance.LabelStatus | js/attendance.js:491 | import reads `出席` as present and anything else as absent, so always a valid status |
| Attendance.LabelRoundTrip | js/attendance.js:445 | the export label of a status imports back as present iff the status was present (see also js/attendance.js:491) |
| Attendance.StatusLabel | js/attendance.js:445 | `出席` for a present record and `缺席` otherwise; `Attendance.LabelRoundTrip` proves a label imports back as present iff the status was present |
| Attendance.ExportRecords | js/attendance.js:420-430 | exactly the records within the inclusive dates, of active students of the class when one is given |
| Attendance.ExportLine | js/attendance.js:437-447 | five cells: the date, the status label and the stamp in place, and the student's name when known |
| Attendance.HeaderPlain | js/attendance.js:436 | the header cells need no escaping |
| Attendance.HeaderedReadsBack | js/attendance.js:413-459 | an exported file splits into the header line and one line per row, each decoding to its row |
| Attendance.LineReadsBack | js/attendance.js:445 | the status column of an exported line reads back as present iff the record was present (see also js/attendance.js:491) |
| Attendance.LinesReadBack | js/attendance.js:413-459 | the status of every exported record reads back from its line |
| Attendance.ExportReadsBack | js/attendance.js:413-459 | what `exportAttendanceToCSV` writes splits into the header and one decodable line per exported record |
| Attendance.ExportAttendanceCSV | js/attendance.js:413-459 | `exportAttendanceToCSV`: the quoted header and one quoted row per exported record; its meaning is stated by `Attendance.ExportReadsBack` |
| Attendance.ImportLine | js/attendance.js:480-505 | a blank line is skipped; an accepted line has a valid status, a class, a student and a valid non-empty date |
| Attendance.ReadLines | js/attendance.js:477-510 | every line is read on its own |
| Attendance.ImportPlan | js/attendance.js:477-516 | imports and errors fit in the lines after the header; each error names its line (from 2) and that line's error, each import comes from some line |
| Attendance.ImportPlanStep | js/attendance.js:477-510 | one more line adds its import, its numbered error, or nothing |
| Attendance.ImportedAreValid | js/attendance.js:493-504 | every imported mark has a valid status, class, student and date |
| Attendance.ApplyImports | js/attendance.js:504 | applying imports keeps the ledger's keys distinct |
| Attendance.ImportPlanAccounts | js/attendance.js:477-516 | imports plus errors equal the non-blank lines after the header |
| Attendance.ApplyImportsSnoc | js/attendance.js:504 | one more import writes its key with its status |
| Attendance.ImportReadsExportLine | js/attendance.js:437-447 | an exported line, read by the import, names the same student, date and status (see also js/attendance.js:480-505) |
| Attendance.ImportFindsExportedStudent | js/attendance.js:413-520 | importing an exported file finds each exported record's student by name and restores its status |
| Attendance.AttendanceManager.constructor | js/attendance.js:3-7 | a manager over the store with an empty `currentAttendance` |
| Attendance.AttendanceManager.SetAttendanceStatus | js/attendance.js:114-133 | an invalid status fails and changes nothing; a valid one is noted and written under `date_studentId` |
| Attendance.AttendanceManager.MarkAll | js/attendance.js:345-353 | the loop of a batch: the tally, the noted marks and the ledger are those of the whole list |
| Attendance.AttendanceManager.SetBatchAttendanceStatus | js/attendance.js:337-360 | the tally and the new ledger are those of marking every id with the status, successes not rolled back |
| Attendance.AttendanceManager.CopyLastAttendance | js/attendance.js:363-410 | no source records fails with no change; otherwise the latest source date's statuses are marked on the target date |
| Attendance.AttendanceManager.ImportAttendanceFromCSV | js/attendance.js:462-520 | successes, errors and total are those of the import plan, and the ledger is the old one with the imports applied |
| Attendance.AttendanceManager.ImportOne | js/attendance.js:504 | one accepted line is marked in the ledger and noted |
| Attendance.AttendanceManager.ApplyOutcomes | js/attendance.js:477-510 | the loop over the read lines produces the plan's imports and errors and applies the imports |
| Attendance.AttendanceManager.ClearAttendanceByDate | js/attendance.js:523-544 | returns the number of records removed, and saves exactly the kept records |
| AttendanceQueries.Tally | js/attendance.js:161-164 | total is the records, present and absent are counts by status, the rate is 0..100, 0 with no records and 100 when all are present |
| AttendanceQueries.StudentRecords | js/attendance.js:152-158 | exactly that student's records with a date within the inclusive bounds |
| AttendanceQueries.StudentAttendanceStats | js/attendance.js:148-176 | present + absent ≤ total ≤ records, rate ≤ 100 and 0 when total is 0 |
| AttendanceQueries.StudentStatsCountsOnlyMatches | js/attendance.js:148-176 | one more record changes the stats iff it is that student's and within the dates, then by exactly one |
| AttendanceQueries.BucketIndex | js/attendance.js:195-197 | the date's group: none iff no group has the date |
| AttendanceQueries.GroupByDate | js/attendance.js:193-210 | the `forEach` grouping builds the groups `Buckets` describes |
| AttendanceQueries.DateSummarySnoc | js/attendance.js:199-209 | a record adds to its own date's summary only |
| AttendanceQueries.AddToExistingKeepsGrouped | js/attendance.js:199-209 | a record for a known date keeps the groups exact |
| AttendanceQueries.AddNewKeepsGrouped | js/attendance.js:195-209 | a record for a new date opens a group and keeps the groups exact |
| AttendanceQueries.BucketsGrouped | js/attendance.js:193-210 | the groups are one per distinct date, each the exact summary of that date's records |
| AttendanceQueries.DateSummaryBounds | js/attendance.js:199-209 | in a group, distinct students ≤ total and present + absent ≤ total |
| AttendanceQueries.SortedRowsOfBuckets | js/attendance.js:214-229 | the per-date rows are sorted by date and their totals sum to the number of records |
| AttendanceQueries.RowsAreSummaries | js/attendance.js:214-229 | every row summarises its date's records |
| AttendanceQueries.RowsDistinct | js/attendance.js:214-229 | no date has two rows |
| AttendanceQueries.RowsCover | js/attendance.js:214-229 | every record's date has a row |
| AttendanceQueries.RowsTotal | js/attendance.js:214-229 | the row totals sum to the number of records |
| AttendanceQueries.ClassRecords | js/attendance.js:184-190 | exactly the records within the dates of active students, of the class when one is given |
| AttendanceQueries.ClassAttendanceStats | js/attendance.js:179-235 | the overall tally of those records, and per-date rows sorted ascending whose totals sum to the overall total |
| AttendanceQueries.RangeRecords | js/attendance.js:243-249 | only records within the dates |
| AttendanceQueries.AttendanceStatsByDateRange | js/attendance.js:238-290 | the loop builds the per-date rows that `RangeRows` describes |
| AttendanceQueries.RangeRowsFacts | js/attendance.js:238-290 | empty with a class; otherwise rows sorted by date, one per date, each within the bounds |
| AttendanceQueries.RangeRows | js/attendance.js:238-290 | the rows of `getAttendanceStatsByDateRange`; their meaning is stated by `AttendanceQueries.RangeRowsFacts`, and `AttendanceQueries.AttendanceStatsByDateRange` builds them by a loop |
| AttendanceQueries.StudentRows | js/attendance.js:296-303 | one row per student, holding that student's stats |
| AttendanceQueries.AbsenceCandidates | js/attendance.js:296-305 | active students with at least one record, each with their stats |
| AttendanceQueries.MostAbsentStudents | js/attendance.js:293-312 | at most `limit` rows, all candidates, in non-increasing order of absences |
| AttendanceQueries.MostAbsentAreTheMost | js/attendance.js:293-312 | a candidate left out has no more absences than anyone listed, and none is left out when the limit allows |
| AttendanceQueries.RateCandidates | js/attendance.js:318-327 | active students with at least `minClasses` records, each with their stats |
| AttendanceQueries.LowestAttendanceStudents | js/attendance.js:315-334 | at most `limit` rows, all candidates, in non-decreasing order of rate |
| AttendanceQueries.LowestAreTheLowest | js/attendance.js:315-334 | a candidate left out has a rate no lower than anyone listed, and none is left out when the limit allows |
| AttendanceQueries.AttendanceSummary | js/attendance.js:553-588 | distinct students and distinct dates ≤ records, present + absent ≤ records, rate ≤ 100; all zero with a class |
| AttendanceQueries.SummaryRecords | js/attendance.js:555-567 | the records `getAttendanceSummary` keeps after its three filters; the bounds over them are stated by `AttendanceQueries.AttendanceSummary` |
| AttendanceQueries.UniqueDatesAreGroups | js/attendance.js:570-572 | the distinct-date count is the number of date groups |
| AttendanceQueries.GroupDatesAreRecordDates | js/attendance.js:570-572 | the groups' dates are exactly the records' dates |
| AttendanceQueries.DistinctDatesCount | js/attendance.js:570-572 | groups with distinct dates have as many dates as groups |
| Statistics.ReportRecords | js/statistics.js:12-33 | exactly the ledger records within the dates, of the class's active students when a class is given |
| Statistics.GenerateStatistics | js/statistics.js:8-69 | counts those records; present + absent ≤ them; total classes is 1 with a class and the definitions otherwise; average 0 with no records |
| Statistics.UnfilteredReportCountsLedger | js/statistics.js:8-69 | with no filter, the report counts every ledger key and every class |
| Statistics.StudentAttendanceStats | js/statistics.js:122-143 | present + absent ≤ total ≤ ledger size, rate ≤ 100 and 0 when total is 0 |
| Statistics.StudentStatsCountKeys | js/statistics.js:122-143 | total counts the keys of that student within the inclusive dates, and present those marked present |
| Statistics.RankCandidates | js/statistics.js:72-90 | the students with at least one record, each with their stats |
| Statistics.Ranking | js/statistics.js:72-98 | at most `limit` candidates, in non-increasing order of rate |
| Statistics.RankingAreTheBest | js/statistics.js:72-98 | a candidate left out has a rate no higher than anyone ranked, and none is left out when the limit allows |
| Statistics.ClassStatsById | js/statistics.js:146-183 | total is the class's keys within the dates, present + absent ≤ total, rate ≤ 100, class count ≤ total |
| Statistics.ClassCountIsDateGroups | js/statistics.js:160-165 | the class count is the number of distinct dates |
| Statistics.ReportAgreesWithClassStats | js/statistics.js:8-69 | with a class given, the report and the class statistics count the same records (see also js/statistics.js:146-183) |
| Statistics.ClassAttendanceStats | js/statistics.js:101-119 | one row per class definition, in non-increasing order of average rate |
| Statistics.EveryClassHasARow | js/statistics.js:101-119 | every definition's row is present |
| Statistics.NoClassHasTwoRows | js/statistics.js:101-119 | no class id appears twice |
| Statistics.DailyRecords | js/statistics.js:190-205 | exactly the ledger records within the optional bounds, of the class when one is given |
| Statistics.DailyStatsFacts | js/statistics.js:186-233 | one row per distinct date, sorted ascending, each within the bounds, totals summing to the records |
| Statistics.DailyAttendanceStats | js/statistics.js:186-233 | the rows of `getDailyAttendanceStats`; their meaning is stated by `Statistics.DailyStatsFacts` |
| Statistics.RankingCells | js/statistics.js:309-317 | row `j` holds rank `j + 1` and that student's figures |
| Statistics.ExportStatisticsToCSV | js/statistics.js:278-302 | an unknown report type fails; each known type gives its own CSV |
| Statistics.RankingCsvReadsBack | js/statistics.js:304-321 | the ranking CSV is a header plus one line per ranked student, each decoding to its cells |
| Statistics.RankingCsv | js/statistics.js:304-321 | the file `exportStudentRankingCSV` writes; its meaning is stated by `Statistics.RankingCsvReadsBack` and `Statistics.RankColumnReadsBack` |
| Statistics.RankColumnReadsBack | js/statistics.js:304-321 | the rank column reads 1..n in order |
| Statistics.DailyCsvReadsBack | js/statistics.js:344-361 | the daily CSV is a header plus one decodable line per day |
| Statistics.DailyCsv | js/statistics.js:344-361 | the file `exportDailyStatsCSV` writes; its meaning is stated by `Statistics.DailyCsvReadsBack` |
| Statistics.ClassStatsCsvReadsBack | js/statistics.js:324-341 | the class CSV is a header plus one decodable line per class |
| Statistics.ClassStatsCsv | js/statistics.js:324-341 | the file `exportClassStatsCSV` writes; its meaning is stated by `Statistics.ClassStatsCsvReadsBack` |
| StudentsV1.FirstNamed | js/students.js:300-308 | the first definition with that name, or none iff no definition has it |
| StudentsV1.ClassIdByName | js/students.js:300-308 | the key of the first definition with that name, `''` when there is none |
| StudentsV1.ClassIdNamesClass | js/students.js:300-308 | the class found by name has that name (see also js/data.js:148-155) |
| StudentsV1.AddStudentError | js/students.js:33-50 | missing fields iff name or class is empty; a duplicate only when that name is taken in a class of that name; none iff all checks pass |
| StudentsV1.NewStudent | js/students.js:53-76 | the fresh id, the name trimmed, status active, today's join date, the class id found, and the form's contact fields |
| StudentsV1.AddedFormIsDuplicate | js/students.js:38-44 | once added, the same form is refused as a duplicate |
| StudentsV1.UpdateStudentError | js/students.js:89-112 | not found iff the id is unknown; a blank-name refusal only for a whitespace name |
| StudentsV1.Updated | js/students.js:115-124 | patched fields override, `updatedAt` is refreshed, and the class id is recomputed when a class name is given |
| StudentsV1.UpdateAvoidsClash | js/students.js:101-112 | an accepted update leaves no other student with the same name in the same class |
| StudentsV1.StudentAttendance | js/students.js:150 | only that student's records |
| StudentsV1.SearchStudents | js/students.js:172-186 | everyone for a blank term; otherwise exactly the students matching the lower-cased term |
| StudentsV1.SearchFindsOwnName | js/students.js:172-186 | a student is found by their own name |
| StudentsV1.BumpGet | js/students.js:199-202 | counting a student adds one to its label and nothing else |
| StudentsV1.TotalPut | js/students.js:199-202 | the sum of the counts grows by the change |
| StudentsV1.FirstAt | js/students.js:311-312 | the first position of a character, none iff absent |
| StudentsV1.IsValidEmail | js/students.js:310-313 | `isValidEmail` holds iff the address matches `[^\s@]+@[^\s@]+\.[^\s@]+` |
| StudentsV1.PatternIsScan | js/students.js:310-313 | an address that matches the pattern passes the scan |
| StudentsV1.ScanIsPattern | js/students.js:310-313 | an address that passes the scan matches the pattern |
| StudentsV1.DigitsOf | js/students.js:317 | the digits kept number the digits of the string |
| StudentsV1.IsValidPhone | js/students.js:315-318 | holds iff every character is a digit, space, `-`, `+`, `(` or `)` and there are at least 8 digits |
| StudentsV1.Flag | js/students.js:273-293 | an error is listed iff its check failed |
| StudentsV1.ValidationComplaints | js/students.js:273-293 | each complaint is listed iff its field fails: blank name, blank class, bad email when given, bad phone when given |
| StudentsV1.ValidateStudentData | js/students.js:273-293 | `validateStudentData`: the four complaints in source order; their meaning is stated by `StudentsV1.ValidationComplaints` |
| StudentsV1.ValidFormHasRequiredFields | js/students.js:33-35 | a form that validates is never refused as missing fields (see also js/students.js:273-293) |
| StudentsV1.LineForm | js/students.js:236-251 | a blank line or one lacking name or class is skipped; otherwise the parsed form |
| StudentsV1.ParseStudentLine | js/students.js:241-251 | the `studentData` an import line gives, by column; its meaning is stated by `StudentsV1.LineForm` and `StudentsV1.ExportedStudentReadsBack` |
| StudentsV1.ExportedStudentReadsBack | js/students.js:208-251 | the exported file has the header line and one line per student, and line `k + 1` imports back with student `k`'s columns |
| StudentsV1.ExportStudentsToCSV | js/students.js:208-226 | `exportStudentsToCSV`: the quoted header and one quoted row per student; its meaning is stated by `StudentsV1.ExportedStudentReadsBack` |
| StudentsV1.StudentManager.constructor | js/students.js:3-6 | a manager over the store with no students loaded |
| StudentsV1.StudentManager.LoadStudents | js/students.js:8-16 | exactly the store's active students |
| StudentsV1.StudentManager.AddStudent | js/students.js:30-85 | fails iff a check fails, changing nothing; otherwise appends the new student here and in the store |
| StudentsV1.StudentManager.UpdateStudent | js/students.js:87-139 | rejects with no change as the checks say; otherwise only that student changes, to the updated one, here and in the store |
| StudentsV1.StudentManager.DeleteStudent | js/students.js:141-170 | unknown id fails; declined with records returns false with no change; otherwise exactly that student is removed |
| StudentsV1.StudentManager.StudentsCountByClass | js/students.js:196-205 | each label's count is its number of students (`未分班` for none), and the counts sum to the students |
| StudentsV1.ImportedLine | js/students.js:237-259 | one turn of the import loop: a skipped line changes nothing; a line `addStudent` refuses appends its 1-based number and the reason; an accepted one appends the new student, with the class id its class name finds, to the list and to the store |
| StudentsV1.ImportStudents | js/students.js:237-260 | after lines 1 to n - 1, the imports and errors fit in those lines, the store gains one student per import, and every error line lies in 2 to n |
| StudentsV1.ImportAccountsForGatedLines | js/students.js:237-260 | every non-blank line with a name and a class name is either imported or logged, and no other line is |
| StudentsV1.ImportedStudentsComeFromLines | js/students.js:253-255 | each imported student is the one `addStudent` makes from some gated line, with that line's id |
| StudentsV1.ImportErrorsComeFromLines | js/students.js:257-259 | each logged error names a gated line and the reason `addStudent` gave for it against the students held by then |
| StudentsV1.ImportAddsExportedStudent | js/students.js:240-255 | an exported student passes the gate as their own form and, where `addStudent` accepts it, re-imports with their own name, class, contacts and notes, and no error |
| StudentsV1.StudentManager.ImportStep | js/students.js:237-259 | one line with its error caught: the list, the store's students and the counters become exactly `ImportedLine`'s; attendance, schedule and definitions are untouched |
| StudentsV1.StudentManager.ImportStudentsFromCSV | js/students.js:229-270 | total is the line count minus the header; the list, the store's students, the success count and the errors are exactly those of `ImportStudents` over the file's lines; the rest of the store is untouched |
| StudentsV2.Normalised | google-sites-deploy-backup/js/students.js:11-24 | `classId = class`, the class name looked up, status defaulting to active, nickname kept, emergency contact from `emergencyContactName` |
| StudentsV2.NormalisedTwice | google-sites-deploy-backup/js/students.js:11-24 | normalising twice is normalising once |
| StudentsV2.Loaded | google-sites-deploy-backup/js/students.js:8-31 | one normalised student per active stored student, in order |
| StudentsV2.ActiveStudents | google-sites-deploy-backup/js/students.js:37-39 | exactly the students whose status is not `inactive` |
| StudentsV2.StudentsByClass | google-sites-deploy-backup/js/students.js:45-47 | exactly the class's students whose status is not `inactive` |
| StudentsV2.ByClassWithinActive | google-sites-deploy-backup/js/students.js:37-47 | a class's students are the active students of that class |
| StudentsV2.FirstClassNamed | google-sites-deploy-backup/js/students.js:347-362 | the first class with that name, none iff no class has it |
| StudentsV2.SameClassLookup | google-sites-deploy-backup/js/students.js:347-362 | the lookup by name finds the same class id as the first version's |
| StudentsV2.AddStudentError | google-sites-deploy-backup/js/students.js:54-75 | missing fields iff name or class name is empty; unknown class only when no class id is given and none has the name |
| StudentsV2.GivenClassIdIsUsed | google-sites-deploy-backup/js/students.js:59-66 | a given class id is used as it is and never refused as unknown |
| StudentsV2.ResolvedClassId | google-sites-deploy-backup/js/students.js:59-66 | the class id `addStudent` settles on: the form's own, else the one found by name; its meaning is stated by `StudentsV2.GivenClassIdIsUsed` and `StudentsV2.SameClassLookup` |
| StudentsV2.NewStudent | google-sites-deploy-backup/js/students.js:78-89 | the fresh id, the name trimmed, nickname kept, status active, join and creation times, the resolved class |
| StudentsV2.AddedFormIsDuplicate | google-sites-deploy-backup/js/students.js:69-75 | once added, the same form is refused as a duplicate |
| StudentsV2.Updated | google-sites-deploy-backup/js/students.js:147-170 | a blank or missing phone, email, emergency contact or emergency phone keeps the stored value |
| StudentsV2.BlankEditKeepsContacts | google-sites-deploy-backup/js/students.js:153-165 | each contact field is kept when the edit is blank and replaced when it is not |
| StudentsV2.ReloadShowsStoredContact | google-sites-deploy-backup/js/students.js:11-24 | after an update and a reload, the emergency contact shown is the stored `emergencyContactName` (see also google-sites-deploy-backup/js/students.js:153-165) |
| StudentsV2.EditedContactLostOnReload | google-sites-deploy-backup/js/students.js:11-24 | an edited emergency contact `B` shows as the old `A` after a reload (see also google-sites-deploy-backup/js/students.js:153-165) |
| StudentsV2.IntendedReloadKeepsEdit | google-sites-deploy-backup/js/students.js:153-165 | when the update also writes `emergencyContactName`, the edit survives a reload |
| StudentsV2.UpdatedIntended | google-sites-deploy-backup/js/students.js:153-165 | the corrected update, which also writes the stored contact fields; `StudentsV2.IntendedReloadKeepsEdit` proves the edit survives a reload |
| StudentsV2.SearchStudents | google-sites-deploy-backup/js/students.js:218-233 | everyone for a blank term; otherwise exactly the students matching, nickname included |
| StudentsV2.SearchWidensFirst | google-sites-deploy-backup/js/students.js:218-233 | every student the first version finds is found here |
| StudentsV2.SearchFindsOwnNickname | google-sites-deploy-backup/js/students.js:227 | a student is found by their own nickname |
| StudentsV2.StudentManager.constructor | google-sites-deploy-backup/js/students.js:3-6 | a manager over the store with no students loaded |
| StudentsV2.StudentManager.LoadStudents | google-sites-deploy-backup/js/students.js:8-31 | the loaded students are the normalised active ones |
| StudentsV2.StudentManager.AddStudent | google-sites-deploy-backup/js/students.js:49-117 | fails iff a check fails, changing nothing; otherwise appends the new student here and in the store |
| StudentsV2.StudentManager.UpdateStudent | google-sites-deploy-backup/js/students.js:119-185 | rejects with no change as the checks say; otherwise only that student changes, keeping contact fields an edit leaves blank |
| StudentsV2.StudentManager.DeleteStudent | google-sites-deploy-backup/js/students.js:187-216 | unknown id fails; declined returns false with no change; otherwise exactly that student is removed |
| App.ClassDateOffset | js/app.js:1277-1317 | none iff the day does not parse; otherwise the day offset for that weekday |
| App.DaysToTargetRanges | js/app.js:1283-1312 | the result falls on the class's weekday: offset 0 in 0..6, 1 in 1..7, 2 in 8..14, -1 in -13..-1 |
| App.ClassDaysAWeekApart | js/app.js:1283-1312 | two class days less than a week apart are the same day |
| App.DaysToTargetNearest | js/app.js:1286-1312 | no class day is skipped: offset 0 gives the nearest class day from today on, 1 the nearest after today, 2 the next one after that, and -1, while this week's class day is still ahead, the latest one before today |
| App.PreviousSkipsAClass | js/app.js:1291-1299 | with today Wednesday and the class on Monday, offset -1 goes back 9 days though a class was 2 days ago |
| App.IntendedPreviousIsLatest | js/app.js:1291-1299 | the corrected offset -1 is the latest class day before today, one week before the offset 0 day |
| App.DayName | js/app.js:1123-1126 | the name of the parsed day for 0..6, `''` otherwise |
| App.DayNameAgreesWithClasses | js/app.js:1123-1126 | for numbers it agrees with the class manager; for the text `" 3"` only this one parses it (see also js/classes.js:414-417) |
| App.ClassColorClass | js/app.js:1128-1141 | one of the five colour classes; unassigned iff the name is empty |
| App.ClassColorIsFirstRule | js/app.js:1132-1140 | the colour is that of the first of youth, children, family whose keyword appears, else default |
| App.YouthWins | js/app.js:1132-1133 | a name containing `Youth` is coloured youth, whatever else it contains |
| App.ToggledStatus | js/app.js:1047 | `inactive` becomes `active`, anything else `inactive` |
| App.ToggleTwice | js/app.js:1047 | toggling a valid status twice gives it back |
| App.TogglePatch | js/app.js:1040-1051 | a patch exists iff the student exists |
| App.ToggleChangesOnlyStatus | js/app.js:1051 | the toggle update is accepted and changes only the status and update time (see also js/students.js:87-139) |
| App.FindClass | js/app.js:755 | the first class with the id, none iff no class has it |
| App.SaveStudent | js/app.js:751-797 | aborts on an empty name, then no class, then an unknown class; otherwise the form, contact fields included only when non-empty |
| App.SavedStudentFields | js/app.js:761-778 | the saved form has the trimmed name, the class id and that class's name, and exactly the non-empty contact fields |
| App.SavedStudentHasRequiredFields | js/app.js:784-797 | a form `saveStudent` accepts, when the chosen class has a name, is never refused as missing fields (see also js/students.js:33-35) |
| App.SaveClass | js/app.js:856-877 | aborts when a field is empty, then when start ≥ end; otherwise the form |
| App.SavedClassPassesPresenceChecks | js/app.js:868-877 | validation of a saved form can only complain about time formats (see also js/classes.js:425-454) |
| App.PresentFieldsValidate | js/classes.js:425-454 | a form with all fields present and ordered times fails validation only on time formats |
| Sheets.Overlay | google-apps-script-complete.js:279 | `getRange(top, ...).setValues(block)`: the block's rows replace or extend the grid from that row on |
| Sheets.OverlayEmpty | google-apps-script-complete.js:279 | writing at the top of an empty sheet gives the block |
| Sheets.OverlayAppend | google-apps-script-complete.js:353-354 | writing after the last row appends the block |
| Sheets.OverlayHeader | google-apps-script-example.js:212-213 | writing a header over row 1 keeps every later row |
| Sheets.Sheet.Clear | google-apps-script-complete.js:277 | `clear()` empties the sheet |
| Sheets.Sheet.SetValues | google-apps-script-complete.js:295 | the sheet becomes the overlay of the block |
| Sheets.Sheet.ClearContentFrom | google-apps-script-example.js:206-209 | clears every row from the given one on |
| Sheets.Spreadsheet.SheetByName | google-apps-script-complete.js:86 | `getSheetByName`: null iff no sheet has the name |
| Sheets.Spreadsheet.Values | google-apps-script-complete.js:96 | a sheet's rows, none iff there is no such sheet |
| Sheets.Spreadsheet.InsertSheet | google-apps-script-complete.js:271-274 | a new empty sheet under that name |
| Sheets.StudentRow | google-apps-script-complete.js:283-293 | nine cells in header order, status defaulting to `在讀` and the creation time to now |
| Sheets.StudentRowReadsBack | google-apps-script-complete.js:112-127 | a written student row reads back as the same student (see also google-apps-script-complete.js:283-293) |
| Sheets.StoredTwice | google-apps-script-complete.js:283-293 | filling in the status and creation-time defaults twice is the same as once, and a student that already has both is written unchanged |
| Sheets.KeepRows | google-apps-script-complete.js:112-127 | the rows kept by a reader's test, each read, in order |
| Sheets.KeepRowsIsFilterMap | google-apps-script-complete.js:112-127 | the reader is a filter then a map |
| Sheets.KeepMappedRows | google-apps-script-complete.js:112-127 | reading written rows filters and maps the written values (see also google-apps-script-complete.js:283-293) |
| Sheets.ClassRowStep | google-apps-script-complete.js:177-183 | one turn of the class-name loop |
| ScriptComplete.StudentsReply | google-apps-script-complete.js:82-144 | a missing sheet or one with ≤ 1 row gives an empty list with count 0; count is always the list's length |
| ScriptComplete.GetStudents | google-apps-script-complete.js:82-144 | the loop reads the reply `StudentsReply` describes |
| ScriptComplete.SyncedStudents | google-apps-script-complete.js:277-296 | the header, then one nine-cell row per student |
| ScriptComplete.SyncedStudentsReadBack | google-apps-script-complete.js:112-127 | reading the synced sheet gives back the students with a non-empty id, in order (see also google-apps-script-complete.js:277-296) |
| ScriptComplete.ReadStudents | google-apps-script-complete.js:112-127 | the students `getStudents` reads: the rows below the header with an id; `ScriptComplete.StudentsReply` and `ScriptComplete.SyncedStudentsReadBack` state their meaning |
| ScriptComplete.SyncStudents | google-apps-script-complete.js:259-313 | a non-array payload fails leaving the sheet map and the students sheet's rows unchanged; otherwise the reply counts the students, the sheet (created when missing) holds exactly the synced rows, every other name keeps its sheet, and, with one sheet per name, every other sheet keeps its rows |
| ScriptComplete.ClassesReply | google-apps-script-complete.js:147-200 | an empty list with count 0 for a missing or header-only sheet; count is always the length |
| ScriptComplete.ClassNamesMeaning | google-apps-script-complete.js:174-183 | the names are distinct, and a name is listed iff it is the non-empty trimmed column B of some row below the header |
| ScriptComplete.ClassNames | google-apps-script-complete.js:174-183 | the distinct class names `getClasses` reads; their meaning is stated by `ScriptComplete.ClassNamesMeaning` |
| ScriptComplete.SetStep | google-apps-script-complete.js:177-182 | one turn of the `Set` loop keeps the list equal to the distinct names so far |
| ScriptComplete.GetClasses | google-apps-script-complete.js:147-200 | the loop reads the reply `ClassesReply` describes |
| ScriptComplete.ReadClassNames | google-apps-script-complete.js:174-183 | the loop with its `Set` of seen names lists exactly `ClassNames`: each trimmed column-B name once, in order of first appearance |
| ScriptComplete.ScheduleReply | google-apps-script-complete.js:203-256 | an empty list for a missing or header-only sheet; count is always the length |
| ScriptComplete.ScheduleListsRowsWithIds | google-apps-script-complete.js:228-241 | exactly the rows with an id, each read as a schedule entry |
| ScriptComplete.ReadSchedule | google-apps-script-complete.js:228-241 | the entries `getSchedule` reads; their meaning is stated by `ScriptComplete.ScheduleListsRowsWithIds` |
| ScriptComplete.GetSchedule | google-apps-script-complete.js:203-256 | the loop reads the reply `ScheduleReply` describes |
| ScriptComplete.AppendedAttendance | google-apps-script-complete.js:328-355 | the old rows are kept, a header heads a new or empty sheet, and one row per record follows |
| ScriptComplete.AppendTwice | google-apps-script-complete.js:344-355 | syncing two batches appends them as one batch would |
| ScriptComplete.SyncAttendance | google-apps-script-complete.js:316-372 | a non-array payload fails leaving the sheet map and the attendance sheet's rows unchanged; otherwise the rows are appended (below a header on an empty or new sheet) and their number reported, every other name keeps its sheet, and, with one sheet per name, every other sheet keeps its rows |
| ScriptComplete.DoGet | google-apps-script-complete.js:13-38 | each known action gives its reply; any other fails with `Invalid action` and the action's text |
| ScriptComplete.DoPost | google-apps-script-complete.js:41-72 | no `postData`, empty contents (both `沒有收到數據`), malformed JSON and unknown actions fail leaving the sheet map and both sheets' rows unchanged; a missing payload fails with its own message and the same no-change guarantee; each sync gives its exact reply and rows, and leaves the other sync's sheet as it was |
| ScriptExample.StudentsReply | google-apps-script-example.js:60-108 | a missing sheet fails; ≤ 1 row is an empty list; count is always the length |
| ScriptExample.NamedStudentsMeaning | google-apps-script-example.js:79-94 | exactly the rows with a name, each with an id made up when missing and status defaulting to `在讀` |
| ScriptExample.NamedStudents | google-apps-script-example.js:79-94 | the students `getStudents` reads, ids made up when missing; their meaning is stated by `ScriptExample.NamedStudentsMeaning` and `ScriptExample.MadeUpIdsDiffer` |
| ScriptExample.MadeUpIdsDiffer | google-apps-script-example.js:83 | made-up ids of different rows differ |
| ScriptExample.GetStudents | google-apps-script-example.js:60-108 | the loop reads the reply `StudentsReply` describes |
| ScriptExample.ClassesReply | google-apps-script-example.js:111-148 | a missing sheet fails; otherwise count is the length |
| ScriptExample.ListedClassesMeaning | google-apps-script-example.js:129-134 | a name is listed iff it is a non-empty trimmed column B below the header; duplicates are kept |
| ScriptExample.ListedClasses | google-apps-script-example.js:129-134 | the class names `getClasses` reads; their meaning is stated by `ScriptExample.ListedClassesMeaning` |
| ScriptExample.GetClasses | google-apps-script-example.js:111-148 | the loop reads the reply `ClassesReply` describes |
| ScriptExample.ReadClassNames | google-apps-script-example.js:129-134 | the loop lists exactly `ListedClasses`: every non-empty trimmed column-B name, repeats kept, in sheet order |
| ScriptExample.ScheduleReply | google-apps-script-example.js:151-195 | a missing sheet fails; otherwise count is the length |
| ScriptExample.ScheduleListsRowsWithIds | google-apps-script-example.js:169-181 | exactly the rows with an id, column E read as the weekday |
| ScriptExample.ReadSchedule | google-apps-script-example.js:169-181 | the entries `getSchedule` reads; their meaning is stated by `ScriptExample.ScheduleListsRowsWithIds` |
| ScriptExample.GetSchedule | google-apps-script-example.js:151-195 | the loop reads the reply `ScheduleReply` describes |
| ScriptExample.HeaderOver | google-apps-script-example.js:212-213 | the header is written over the first nine cells of row 1 |
| ScriptExample.RewrittenStudents | google-apps-script-example.js:206-230 | the header row, then one row per student; nothing of the old rows below it |
| ScriptExample.SyncStudents | google-apps-script-example.js:198-243 | a missing sheet fails; otherwise the sheet holds the rewritten rows, and a missing payload fails only after writing |
| ScriptExample.SyncedStudentsReadBack | google-apps-script-example.js:79-94 | reading the rewritten sheet gives back the named students, in order (see also google-apps-script-example.js:206-230) |
| ScriptExample.DoGet | google-apps-script-example.js:12-35 | each known action gives its reply; any other fails with `Invalid action` |
| ScriptExample.DoPost | google-apps-script-example.js:37-57 | no `postData` fails with a `TypeError`, empty contents and malformed JSON with a `SyntaxError`, and unknown actions fail, all with no change; `syncStudents` fails on a missing sheet, and otherwise rewrites it and replies with the count, or with the `TypeError` of a missing payload |
| ScriptBasic.Zip | google-apps-script.js:69-71 | each header cell paired with the cell below it, `''` when falsy |
| ScriptBasic.RowRecordMeaning | google-apps-script.js:66-75 | a key is in the record iff it is a header, and holds the cell below its last column |
| ScriptBasic.RowObject | google-apps-script.js:68-73 | the loop over the header builds that record |
| ScriptBasic.StudentsReply | google-apps-script.js:48-94 | ≤ 1 row gives an empty list with no count; otherwise one record per row below the header |
| ScriptBasic.GetStudents | google-apps-script.js:48-94 | the nested loops build the reply `StudentsReply` describes |
| ScriptBasic.SyncedRows | google-apps-script.js:102-123 | the header, then one row per student |
| ScriptBasic.SyncStudents | google-apps-script.js:97-142 | the sheet is cleared and rewritten; a missing payload fails only after that |
| ScriptBasic.StudentRecord | google-apps-script.js:66-75 | a synced student reads back as a record with exactly the nine header keys and the student's fields (see also google-apps-script.js:109-122) |
| ScriptBasic.SyncedStudentsReadBack | google-apps-script.js:48-94 | reading the synced sheet gives one such record per student, in order (see also google-apps-script.js:97-142) |
| ScriptBasic.DoGet | google-apps-script.js:8-25 | `getStudents` is served, anything else fails with `Invalid action` |
| ScriptBasic.DoPost | google-apps-script.js:27-45 | no `postData` fails with a `TypeError`, empty contents and malformed JSON with a `SyntaxError`, all with no change; an unknown action fails with no change; `syncStudents` rewrites the sheet and replies with the count, or with the `TypeError` of a missing payload |

## Left out

- The user interface: rendering, modals, toasts, tab switching, the DOM
  parts of the attendance manager, and the global wrapper functions in
  js/app.js.
- Persistence: `localStorage` loading and `saveData`. A store starts empty
  with the built-in classes, and saving is not modelled.
- The network and the spreadsheet client:
  - `gapi` calls in `syncToGoogleSheets` / `syncFromGoogleSheets`
    (only their row converters are modelled);
  - `SpreadsheetApp` and `ContentService` beyond reading and writing rows;
  - everything under api/.
- Clock and `Date` arithmetic:
  - ids and timestamps are parameters;
  - `calculateClassDate` is modelled from the weekday numbers on;
  - `generateClassSchedule`, `getUpcomingClasses`, `getClassDuration`,
    `getStatisticsSummary`, `getRecentStudents` and `getIncompleteStudents`
    depend on the date and are not modelled;
  - locale date formatting in CSV exports is a parameter.
- `ensureDataIntegrity`: the typed model cannot hold a store part that is
  not a list or an object, so the repair it performs has nothing to act on.
- Floating point: rates are the integer rounding of the exact quotient.
  Float rounding error at exact halves is not modelled.
- `localeCompare` is the plain code-point order of strings.
- Text handling:
  - only ASCII lower-casing is modelled for searches;
  - Unicode case folding and normalisation are not.
- Thrown errors:
  - they are modelled by the names `TypeError` and `SyntaxError` only;
  - the engine's message text is not.
- `StudentsV1.SearchStudents`, `StudentsV1.ExportStudentsToCSV`: a missing
  field is the empty string. A student stored in the store's own shape
  (`class` and no `className`, js/data.js:111) makes the source's search
  throw a `TypeError` on `className.toLowerCase()` (js/students.js:181),
  and its export writes the text `undefined` (js/students.js:212). The
  model treats the missing name as `""`: the search does not match on it
  and the export writes an empty cell.
- JavaScript orders integer-like object keys numerically. Ledger keys begin
  with a date, and class ids are not integer-like, except those that
  `importAllData` builds from an array (`"0"`, `"1"`, ...), which it
  inserts in numeric order anyway.
- Sheet rows:
  - `getLastRow()` is taken to be the number of rows held;
  - clearing content truncates the rows.
- The simplest script's reply timestamp.
- `ScriptExample.SyncStudents`: the reply after a missing payload is the
  `TypeError` thrown by `students.length`. The rows it has already
  written are modelled.
- `ScriptBasic.DoPost`, `ScriptExample.DoPost`: the reply to a failed
  request is the error's kind (`TypeError` for no `postData`, `SyntaxError`
  for empty, missing or malformed contents), not the engine's full message.
- A payload that is not an array is modelled as a missing one.
- `ScriptComplete`, `ScriptExample` and `ScriptBasic` readers (`getStudents`, `getClasses`, `getSchedule`): every
  cell is text, kept exactly as written. Number and date cells that
  `getValues()` can return are not modelled. Two behaviours are lost:
  - `className.trim()` throwing on a number cell in the complete script
    (google-apps-script-complete.js:179), which its catch turns into an error reply;
  - `row[4] || ''` turning a numeric Sunday `0` into `''`
    (google-apps-script-complete.js:228-241).
  The read-back lemmas (`SyncedStudentsReadBack`) rely on cells being text.
- `AttendanceQueries.AttendanceStatsByDateRange`, `Attendance.AttendanceManager.ClearAttendanceByDate`:
  with a class id, the `record.classId === classId` filters match
  nothing. This is modelled as written and not corrected, because the
  records have no class to correct it with.

## Findings

| source | as written | input that shows it | evidently intended | confidence | as-written member | corrected member |
|---|---|---|---|---|---|---|
| js/classes.js:218 | `existingClass.dayOfWeek !== dayOfWeek` compares a stored day that `updateClass` kept as the form's text (js/classes.js:141-152) with a parsed number, so the two never match | a Saturday class stored with day `"6"`, 16:00–17:30; `addClass` of a Saturday class (day 6) 16:30–17:00 is accepted | compare parsed days, so the clash is reported | not executed; high | Classes.TextDayEscapesConflictCheck | Classes.IntendedCheckCatchesTextDay |
| js/classes.js:33 | `!classData.dayOfWeek` treats day 0 as missing | an exported Sunday class (day 0), imported again, is refused as missing fields | only an absent or empty day is missing | not executed; high | Classes.ExportedSundayNotReimported | Classes.IntendedCheckAcceptsSunday |
| google-sites-deploy-backup/js/students.js:153-165 | the update keeps and writes `emergencyContact`, but loading reads `emergencyContactName` (lines 11-24) | a student with contact `A` edited to `B` shows `A` after a reload | the edited contact is stored under the field that loading reads | not executed; medium | StudentsV2.EditedContactLostOnReload | StudentsV2.IntendedReloadKeepsEdit |
| js/data.js:431 | `convertDataToRows` calls `data.classes.forEach`, but `syncToGoogleSheets` passes it `exportAllData()` (js/data.js:269-278), which has no `classes` | any store at all: `syncToGoogleSheets` throws before writing a row | pass the class list and the attendance records the converter expects | not executed; high | SyncRows.ExportNeverConverts | SyncRows.ExportForSyncConverts |
| js/app.js:1291-1299 | offset -1 subtracts 7 even when the class day has already passed this week | today Wednesday (3), class on Monday (1): the result is -9, yet -2 is a class day | the previous class is the latest class day before today | not executed; medium | App.PreviousSkipsAClass | App.IntendedPreviousIsLatest |
