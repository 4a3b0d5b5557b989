/** The `StatisticsManager` of js/statistics.js: read-only reports over the
    store's students, class definitions and attendance ledger, and the CSV
    files made of them. Nothing here changes the store. */
module Statistics {
  import opened Wrappers
  import opened Entities
  import Text
  import Seqs
  import Csv
  import D = Dict
  import Store
  import Rates
  import Q = AttendanceQueries

  /** The `filters` object: `None` stands for a field that is `undefined`. */
  datatype Filters = Filters(classId: Option<string>, startDate: Option<string>, endDate: Option<string>)

  /** A filter field as a truthy test sees it: missing and empty both mean "no filter". */
  function Truthy(o: Option<string>): string { o.GetOr("") }

  /** The record's student is found (the first one with that id) in `pool`
      and belongs to class `classId`. */
  predicate InClassOf(pool: seq<Student>, classId: string, x: AttendanceRecord) {
    match Store.StudentById(pool, x.studentId)
    case None => false
    case Some(s) => s.classRef == classId
  }

  // ----- the overall report -----

  datatype Period = Period(startDate: string, endDate: string)

  /** `{ totalStudents, totalClasses, totalAttendance, totalAbsent, averageAttendance, totalAttendanceRecords, period }`. */
  datatype Report = Report(totalStudents: nat, totalClasses: nat, totalAttendance: nat, totalAbsent: nat,
                           averageAttendance: nat, totalAttendanceRecords: nat, period: Period)

  const OpenStart := "開始"
  const OpenEnd := "現在"

  /** The ledger records `generateStatistics` keeps: when a class is given,
      those whose student (among the active students) is in it; then the
      truthy date bounds. */
  function ReportRecords(students: seq<Student>, ledger: D.Dict<string>, classId: string, startDate: string, endDate: string): (r: seq<AttendanceRecord>)
    ensures forall x :: x in r <==> (x in Store.AttendanceRecords(ledger) && Store.InRange(x.date, startDate, endDate)
      && (classId != "" ==> InClassOf(Store.StudentsOf(students, "", "active"), classId, x)))
  {
    var active := Store.StudentsOf(students, "", "active");
    Seqs.Filter(Store.AttendanceRecords(ledger),
      (x: AttendanceRecord) => (classId == "" || InClassOf(active, classId, x)) && Store.InRange(x.date, startDate, endDate))
  }

  /** `generateStatistics(filters)`. */
  function GenerateStatistics(students: seq<Student>, defs: D.Dict<ClassRecord>, ledger: D.Dict<string>, f: Filters): (r: Report)
    ensures r.totalAttendanceRecords == |ReportRecords(students, ledger, Truthy(f.classId), Truthy(f.startDate), Truthy(f.endDate))|
    ensures r.totalAttendanceRecords <= |ledger|
    ensures r.totalAttendance + r.totalAbsent <= r.totalAttendanceRecords
    ensures r.averageAttendance <= 100 && (r.totalAttendanceRecords == 0 ==> r.averageAttendance == 0)
    ensures r.totalClasses == if Truthy(f.classId) != "" then 1 else |defs|
    ensures r.totalStudents == |Store.StudentsOf(students, Truthy(f.classId), "active")|
    ensures r.period.startDate == (if Truthy(f.startDate) != "" then Truthy(f.startDate) else OpenStart)
    ensures r.period.endDate == (if Truthy(f.endDate) != "" then Truthy(f.endDate) else OpenEnd)
  {
    var classId := Truthy(f.classId);
    var t := Q.Tally(ReportRecords(students, ledger, classId, Truthy(f.startDate), Truthy(f.endDate)));
    Report(|Store.StudentsOf(students, classId, "active")|, if classId != "" then 1 else |defs|,
           t.present, t.absent, t.rate, t.total,
           Period(if Truthy(f.startDate) != "" then Truthy(f.startDate) else OpenStart,
                  if Truthy(f.endDate) != "" then Truthy(f.endDate) else OpenEnd))
  }

  /** With no filter the report counts the whole ledger, and its present
      count is the number of keys marked present. */
  lemma UnfilteredReportCountsLedger(students: seq<Student>, defs: D.Dict<ClassRecord>, ledger: D.Dict<string>)
    ensures var r := GenerateStatistics(students, defs, ledger, Filters(None, None, None));
      r.totalAttendanceRecords == |ledger| && r.totalClasses == |defs|
      && r.totalAttendance == Seqs.Count(ledger, (e: D.Entry<string>) => e.value == "present")
  {
    var records := Store.AttendanceRecords(ledger);
    var active := Store.StudentsOf(students, "", "active");
    Seqs.FilterAll(records, (x: AttendanceRecord) => ("" == "" || InClassOf(active, "", x)) && Store.InRange(x.date, "", ""));
    Seqs.CountMap(ledger, Store.RecordOf, Q.IsPresent, (e: D.Entry<string>) => e.value == "present");
  }

  // ----- one student -----

  /** The test `getStudentAttendanceStats` applies to one ledger key. */
  predicate CountsFor(studentId: string, startDate: string, endDate: string, e: D.Entry<string>) {
    KeyStudent(e.key) == studentId && Store.InRange(KeyDate(e.key), startDate, endDate)
  }

  /** The test `getStudentAttendanceStats` applies to one record. */
  function CountsRecord(studentId: string, startDate: string, endDate: string): AttendanceRecord -> bool {
    (x: AttendanceRecord) => x.studentId == studentId && Store.InRange(x.date, startDate, endDate)
  }

  /** `getStudentAttendanceStats(studentId, startDate, endDate)`. */
  function StudentAttendanceStats(ledger: D.Dict<string>, studentId: string, startDate: string, endDate: string): (r: Q.Stats)
    ensures r.present + r.absent <= r.total <= |ledger| && r.rate <= 100 && (r.total == 0 ==> r.rate == 0)
  {
    Q.StudentAttendanceStats(Store.AttendanceRecords(ledger), studentId, startDate, endDate)
  }

  /** Counting the records a filter keeps that pass a second test counts the
      records passing both. */
  lemma CountKept(records: seq<AttendanceRecord>, p: AttendanceRecord -> bool, t: AttendanceRecord -> bool,
                  ledger: D.Dict<string>, q: D.Entry<string> -> bool)
    requires records == Store.AttendanceRecords(ledger)
    requires forall e :: q(e) == (p(Store.RecordOf(e)) && t(Store.RecordOf(e)))
    ensures Seqs.Count(Seqs.Filter(records, p), t) == Seqs.Count(ledger, q)
  {
    var both := (x: AttendanceRecord) => p(x) && t(x);
    Seqs.FilterFilterAs(records, p, t, both);
    Seqs.CountMap(ledger, Store.RecordOf, both, q);
  }

  /** The student's tally counts exactly the ledger keys whose student part is
      that student and whose date part is inside the truthy bounds: all of
      them in the total, those marked present and absent in the two counts. */
  lemma StudentStatsCountKeys(ledger: D.Dict<string>, studentId: string, startDate: string, endDate: string)
    ensures StudentAttendanceStats(ledger, studentId, startDate, endDate).total
      == Seqs.Count(ledger, (e: D.Entry<string>) => CountsFor(studentId, startDate, endDate, e))
    ensures StudentAttendanceStats(ledger, studentId, startDate, endDate).present
      == Seqs.Count(ledger, (e: D.Entry<string>) => CountsFor(studentId, startDate, endDate, e) && e.value == "present")
    ensures StudentAttendanceStats(ledger, studentId, startDate, endDate).absent
      == Seqs.Count(ledger, (e: D.Entry<string>) => CountsFor(studentId, startDate, endDate, e) && e.value == "absent")
  {
    var records := Store.AttendanceRecords(ledger);
    var p := CountsRecord(studentId, startDate, endDate);
    Seqs.CountMap(ledger, Store.RecordOf, p, (e: D.Entry<string>) => CountsFor(studentId, startDate, endDate, e));
    CountKept(records, p, Q.IsPresent, ledger, (e: D.Entry<string>) => CountsFor(studentId, startDate, endDate, e) && e.value == "present");
    CountKept(records, p, Q.IsAbsent, ledger, (e: D.Entry<string>) => CountsFor(studentId, startDate, endDate, e) && e.value == "absent");
  }

  // ----- the ranking -----

  /** `{ id, name, className, ...stats }`. */
  datatype RankRow = RankRow(id: string, name: string, className: string, stats: Q.Stats)

  function RankRowOf(defs: D.Dict<ClassRecord>, ledger: D.Dict<string>, startDate: string, endDate: string): Student -> RankRow {
    (s: Student) => RankRow(s.id, s.name, Store.ClassName(defs, s.classRef), StudentAttendanceStats(ledger, s.id, startDate, endDate))
  }

  /** `(a, b) => b.attendanceRate - a.attendanceRate` as an ascending key. */
  function RankKey(r: RankRow): int { 0 - r.stats.rate as int }

  predicate HasRecords(r: RankRow) { r.stats.total > 0 }

  /** The active students of the class (all of them without a class), each
      with the tally of their records, keeping those with at least one. */
  function RankCandidates(students: seq<Student>, defs: D.Dict<ClassRecord>, ledger: D.Dict<string>,
                          classId: string, startDate: string, endDate: string): (r: seq<RankRow>)
    ensures forall x :: x in r ==> (x.stats.total > 0 && x.stats == StudentAttendanceStats(ledger, x.id, startDate, endDate))
    ensures forall s :: (s in Store.StudentsOf(students, classId, "active")
      && RankRowOf(defs, ledger, startDate, endDate)(s).stats.total > 0) ==> RankRowOf(defs, ledger, startDate, endDate)(s) in r
  {
    var rows := Seqs.Map(Store.StudentsOf(students, classId, "active"), RankRowOf(defs, ledger, startDate, endDate));
    Seqs.Filter(rows, HasRecords)
  }

  /** `getStudentAttendanceRanking(limit, classId, startDate, endDate)`: at
      most `limit` students with records, by decreasing attendance rate. */
  function Ranking(students: seq<Student>, defs: D.Dict<ClassRecord>, ledger: D.Dict<string>,
                   limit: int, classId: string, startDate: string, endDate: string): (r: seq<RankRow>)
    ensures limit >= 0 ==> |r| <= limit
    ensures forall i :: 0 <= i < |r| ==> r[i] in RankCandidates(students, defs, ledger, classId, startDate, endDate)
    ensures forall i :: 0 <= i < |r| ==> r[i].stats.total > 0
    ensures forall i, j :: 0 <= i < j < |r| ==> r[i].stats.rate >= r[j].stats.rate
  {
    var candidates := RankCandidates(students, defs, ledger, classId, startDate, endDate);
    Seqs.SortSliceMembers(candidates, RankKey, limit);
    Seqs.Slice0(Seqs.SortByInt(candidates, RankKey), limit)
  }

  /** Nobody left out of the ranking has a higher rate than anyone in it, and
      when `limit` covers every candidate nobody is left out. */
  lemma RankingAreTheBest(students: seq<Student>, defs: D.Dict<ClassRecord>, ledger: D.Dict<string>,
                          limit: int, classId: string, startDate: string, endDate: string, y: RankRow)
    requires y in RankCandidates(students, defs, ledger, classId, startDate, endDate)
    ensures var r := Ranking(students, defs, ledger, limit, classId, startDate, endDate);
      (y !in r ==> forall i :: 0 <= i < |r| ==> r[i].stats.rate >= y.stats.rate)
      && (limit >= |RankCandidates(students, defs, ledger, classId, startDate, endDate)| ==> y in r)
  {
    var sorted := Seqs.SortByInt(RankCandidates(students, defs, ledger, classId, startDate, endDate), RankKey);
    assert y in multiset(sorted);
    var r := Seqs.Slice0(sorted, limit);
    if y !in r {
      Seqs.SortedPrefixDominates(sorted, RankKey, limit, y);
    }
  }

  // ----- one class -----

  /** `{ total, present, absent, averageAttendanceRate, studentCount, classCount }`. */
  datatype ClassSummary = ClassSummary(total: nat, present: nat, absent: nat, averageAttendanceRate: nat,
                                       studentCount: nat, classCount: nat)

  /** The ledger records `getClassAttendanceStatsById` keeps. */
  function ClassKeys(students: seq<Student>, ledger: D.Dict<string>, classId: string, startDate: string, endDate: string): seq<AttendanceRecord> {
    Q.ClassRecords(students, Store.AttendanceRecords(ledger), classId, startDate, endDate)
  }

  /** `getClassAttendanceStatsById(classId, startDate, endDate)`: the tally of
      the records of the class's active students inside the truthy bounds,
      the number of those students, and the number of distinct dates. */
  function ClassStatsById(students: seq<Student>, ledger: D.Dict<string>, classId: string, startDate: string, endDate: string): (r: ClassSummary)
    ensures r.total == |ClassKeys(students, ledger, classId, startDate, endDate)| <= |ledger|
    ensures r.present + r.absent <= r.total && r.averageAttendanceRate <= 100
    ensures r.total == 0 ==> r.averageAttendanceRate == 0
    ensures r.studentCount == |Store.StudentsOf(students, classId, "active")|
    ensures r.classCount <= r.total && (r.total > 0 ==> r.classCount >= 1)
  {
    var recs := ClassKeys(students, ledger, classId, startDate, endDate);
    var t := Q.Tally(recs);
    Seqs.ImageSize(recs, Q.DateOf);
    assert recs != [] ==> Q.DateOf(recs[0]) in Seqs.Image(recs, Q.DateOf);
    ClassSummary(t.total, t.present, t.absent, t.rate, |Store.StudentsOf(students, classId, "active")|,
                 |Seqs.Image(recs, Q.DateOf)|)
  }

  /** The class count is the number of groups the per-date grouping of the
      same records makes. */
  lemma ClassCountIsDateGroups(students: seq<Student>, ledger: D.Dict<string>, classId: string, startDate: string, endDate: string)
    ensures ClassStatsById(students, ledger, classId, startDate, endDate).classCount
      == |Q.Buckets(ClassKeys(students, ledger, classId, startDate, endDate))|
  {
    var recs := ClassKeys(students, ledger, classId, startDate, endDate);
    var buckets := Q.Buckets(recs);
    Q.BucketsGrouped(recs);
    Q.GroupDatesAreRecordDates(recs, buckets);
    Q.DistinctDatesCount(buckets);
  }

  /** When no two active students share an id, the report for a class counts
      the same records as that class's own statistics. */
  lemma ReportAgreesWithClassStats(students: seq<Student>, defs: D.Dict<ClassRecord>, ledger: D.Dict<string>,
                                   classId: string, startDate: string, endDate: string)
    requires classId != ""
    requires UniqueActiveIds(students)
    ensures var r := GenerateStatistics(students, defs, ledger, Filters(Some(classId), Some(startDate), Some(endDate)));
      var c := ClassStatsById(students, ledger, classId, startDate, endDate);
      r.totalAttendanceRecords == c.total && r.totalAttendance == c.present && r.totalAbsent == c.absent
      && r.averageAttendance == c.averageAttendanceRate && r.totalStudents == c.studentCount
  {
    var records := Store.AttendanceRecords(ledger);
    var active := Store.StudentsOf(students, "", "active");
    var classStudents := Store.StudentsOf(students, classId, "active");
    forall x: AttendanceRecord
      ensures InClassOf(active, classId, x) <==> Store.StudentById(classStudents, x.studentId).Some?
    {
      SameStudentInClass(students, active, classStudents, classId, x.studentId);
    }
    Seqs.FilterExt(records,
      (x: AttendanceRecord) => (classId == "" || InClassOf(active, classId, x)) && Store.InRange(x.date, startDate, endDate),
      (x: AttendanceRecord) => Store.StudentById(classStudents, x.studentId).Some? && Store.InRange(x.date, startDate, endDate));
  }

  /** No two active students share an id. */
  predicate UniqueActiveIds(students: seq<Student>) {
    forall i, j :: 0 <= i < j < |students| && students[i].status == "active" && students[j].status == "active" ==> students[i].id != students[j].id
  }

  /** With unique active ids, finding a student among the active students and
      checking the class is the same as finding them among the class's. */
  lemma SameStudentInClass(students: seq<Student>, active: seq<Student>, classStudents: seq<Student>, classId: string, id: string)
    requires classId != ""
    requires active == Store.StudentsOf(students, "", "active") && classStudents == Store.StudentsOf(students, classId, "active")
    requires UniqueActiveIds(students)
    ensures (match Store.StudentById(active, id) case None => false case Some(s) => s.classRef == classId)
      <==> Store.StudentById(classStudents, id).Some?
  {
    match Store.StudentById(active, id)
    case None =>
    case Some(s) =>
      if s.classRef == classId {
        assert s in classStudents;
        var k :| 0 <= k < |classStudents| && classStudents[k] == s;
      }
  }

  // ----- every class -----

  /** `{ id, name, dayOfWeek, time, ...stats }`. */
  datatype ClassRow = ClassRow(id: string, name: string, dayOfWeek: DayValue, time: string, stats: ClassSummary)

  function ClassRowOf(students: seq<Student>, ledger: D.Dict<string>, startDate: string, endDate: string): D.Entry<ClassRecord> -> ClassRow {
    (e: D.Entry<ClassRecord>) => ClassRow(e.key, e.value.name, e.value.dayOfWeek, e.value.startTime + " - " + e.value.endTime,
                                          ClassStatsById(students, ledger, e.key, startDate, endDate))
  }

  /** `(a, b) => b.averageAttendanceRate - a.averageAttendanceRate` as an ascending key. */
  function ClassRateKey(r: ClassRow): int { 0 - r.stats.averageAttendanceRate as int }

  function ClassRowId(r: ClassRow): string { r.id }

  /** `getClassAttendanceStats(startDate, endDate)`: one row per class
      definition, by decreasing average attendance rate. */
  function ClassAttendanceStats(students: seq<Student>, defs: D.Dict<ClassRecord>, ledger: D.Dict<string>,
                                startDate: string, endDate: string): (r: seq<ClassRow>)
    ensures |r| == |defs|
    ensures multiset(r) == multiset(Seqs.Map(defs, ClassRowOf(students, ledger, startDate, endDate)))
    ensures forall i, j :: 0 <= i < j < |r| ==> r[i].stats.averageAttendanceRate >= r[j].stats.averageAttendanceRate
  {
    Seqs.SortByInt(Seqs.Map(defs, ClassRowOf(students, ledger, startDate, endDate)), ClassRateKey)
  }

  /** Every class definition has its row. */
  lemma EveryClassHasARow(students: seq<Student>, defs: D.Dict<ClassRecord>, ledger: D.Dict<string>,
                          startDate: string, endDate: string)
    ensures forall i :: 0 <= i < |defs| ==>
      ClassRowOf(students, ledger, startDate, endDate)(defs[i]) in ClassAttendanceStats(students, defs, ledger, startDate, endDate)
  {
    var rows := Seqs.Map(defs, ClassRowOf(students, ledger, startDate, endDate));
    forall i | 0 <= i < |defs|
      ensures rows[i] in ClassAttendanceStats(students, defs, ledger, startDate, endDate)
    {
      assert rows[i] in multiset(rows);
    }
  }

  /** The definitions' keys being distinct, no class has two rows. */
  lemma NoClassHasTwoRows(students: seq<Student>, defs: D.Dict<ClassRecord>, ledger: D.Dict<string>,
                          startDate: string, endDate: string)
    requires D.WellFormed(defs)
    ensures var r := ClassAttendanceStats(students, defs, ledger, startDate, endDate);
      forall i, j :: 0 <= i < j < |r| ==> r[i].id != r[j].id
  {
    var rows := Seqs.Map(defs, ClassRowOf(students, ledger, startDate, endDate));
    assert forall i :: 0 <= i < |rows| ==> ClassRowId(rows[i]) == defs[i].key;
    Seqs.PermutationKeepsKeysDistinct(rows, ClassAttendanceStats(students, defs, ledger, startDate, endDate), ClassRowId);
  }

  // ----- day by day -----

  /** `date < startDate || date > endDate` rejects the record; a missing
      bound compares false and rejects nothing. */
  predicate DayWithin(date: string, startDate: Option<string>, endDate: Option<string>) {
    !(startDate.Some? && Text.Less(date, startDate.value)) && !(endDate.Some? && Text.Less(endDate.value, date))
  }

  /** The ledger records `getDailyAttendanceStats` keeps: inside the bounds
      and, when a class is given, of a student (of any status) in it. */
  function DailyRecords(students: seq<Student>, ledger: D.Dict<string>, startDate: Option<string>, endDate: Option<string>,
                        classId: string): (r: seq<AttendanceRecord>)
    ensures forall x :: x in r <==> (x in Store.AttendanceRecords(ledger) && DayWithin(x.date, startDate, endDate)
      && (classId != "" ==> InClassOf(students, classId, x)))
  {
    Seqs.Filter(Store.AttendanceRecords(ledger),
      (x: AttendanceRecord) => DayWithin(x.date, startDate, endDate) && (classId == "" || InClassOf(students, classId, x)))
  }

  /** `getDailyAttendanceStats(startDate, endDate, classId)`: the records
      grouped by date, one row per date with its rate, sorted by date. */
  function DailyAttendanceStats(students: seq<Student>, ledger: D.Dict<string>, startDate: Option<string>, endDate: Option<string>,
                                classId: string): seq<Q.DayRow> {
    Seqs.SortByText(Seqs.Map(Q.Buckets(DailyRecords(students, ledger, startDate, endDate, classId)), Q.DayRowOf), Q.DayRowDate)
  }

  /** The daily rows are sorted by date, one per date that has records and
      each that date's tally, every date inside the bounds, and their totals
      add up to the number of records kept. */
  lemma DailyStatsFacts(students: seq<Student>, ledger: D.Dict<string>, startDate: Option<string>, endDate: Option<string>, classId: string)
    ensures var recs := DailyRecords(students, ledger, startDate, endDate, classId);
      var rows := DailyAttendanceStats(students, ledger, startDate, endDate, classId);
      Seqs.SortedByText(rows, Q.DayRowDate)
      && Seqs.SumBy(rows, Q.DayRowTotal) == |recs|
      && (forall i, j :: 0 <= i < j < |rows| ==> rows[i].date != rows[j].date)
      && (forall k :: 0 <= k < |recs| ==> recs[k].date in Seqs.Map(rows, Q.DayRowDate))
      && (forall i :: 0 <= i < |rows| ==> rows[i] == Q.DayRowOf(Q.DateSummary(recs, rows[i].date)) && rows[i].total > 0)
      && (forall i :: 0 <= i < |rows| ==> DayWithin(rows[i].date, startDate, endDate))
  {
    var recs := DailyRecords(students, ledger, startDate, endDate, classId);
    var rows := DailyAttendanceStats(students, ledger, startDate, endDate, classId);
    Q.SortedRowsOfBuckets(recs, Q.DayRowOf, Q.DayRowDate, Q.DayRowTotal);
    DaysWithin(recs, rows, startDate, endDate);
  }

  /** Rows that summarise records inside the bounds lie inside the bounds. */
  lemma DaysWithin(recs: seq<AttendanceRecord>, rows: seq<Q.DayRow>, startDate: Option<string>, endDate: Option<string>)
    requires forall k :: 0 <= k < |recs| ==> DayWithin(recs[k].date, startDate, endDate)
    requires forall i :: 0 <= i < |rows| ==> Q.DateSummary(recs, rows[i].date).total > 0
    ensures forall i :: 0 <= i < |rows| ==> DayWithin(rows[i].date, startDate, endDate)
  {
    forall i | 0 <= i < |rows|
      ensures DayWithin(rows[i].date, startDate, endDate)
    {
      Q.DateSummaryWitness(recs, rows[i].date);
    }
  }

  // ----- CSV files -----

  /** `` `${rate}%` ``. */
  function Percent(rate: nat): string { Text.NatToString(rate) + "%" }

  const RankingHeader: seq<string> := ["排名", "學員姓名", "班別", "總課堂數", "出席次數", "缺席次數", "出席率"]

  /** A ranking line: rank, name, class, total, present, absent, rate. */
  function RankCells(rank: nat, x: RankRow): seq<string> {
    [Text.NatToString(rank), x.name, x.className, Text.NatToString(x.stats.total),
     Text.NatToString(x.stats.present), Text.NatToString(x.stats.absent), Percent(x.stats.rate)]
  }

  function RankingCells(ranking: seq<RankRow>): (rows: seq<seq<string>>)
    ensures |rows| == |ranking| && forall j :: 0 <= j < |rows| ==> rows[j] == RankCells(j + 1, ranking[j])
  {
    seq(|ranking|, j requires 0 <= j < |ranking| => RankCells(j + 1, ranking[j]))
  }

  /** The file `exportStudentRankingCSV` writes for a ranking. */
  function RankingCsv(ranking: seq<RankRow>): string {
    Csv.Encode([RankingHeader] + RankingCells(ranking))
  }

  const ClassStatsHeader: seq<string> := ["課堂名稱", "上課時間", "學員數", "課堂次數", "總出席次數", "總缺席次數", "平均出席率"]

  function ClassCells(c: ClassRow): seq<string> {
    [c.name, c.time, Text.NatToString(c.stats.studentCount), Text.NatToString(c.stats.classCount),
     Text.NatToString(c.stats.present), Text.NatToString(c.stats.absent), Percent(c.stats.averageAttendanceRate)]
  }

  /** The file `exportClassStatsCSV` writes for the class rows. */
  function ClassStatsCsv(rows: seq<ClassRow>): string {
    Csv.Encode([ClassStatsHeader] + Seqs.Map(rows, ClassCells))
  }

  const DailyHeader: seq<string> := ["日期", "總出席記錄", "出席次數", "缺席次數", "出席率"]

  function DayCells(d: Q.DayRow): seq<string> {
    [d.date, Text.NatToString(d.total), Text.NatToString(d.present), Text.NatToString(d.absent), Percent(d.rate)]
  }

  /** The file `exportDailyStatsCSV` writes for the daily rows. */
  function DailyCsv(rows: seq<Q.DayRow>): string {
    Csv.Encode([DailyHeader] + Seqs.Map(rows, DayCells))
  }

  datatype StatsError = UnsupportedExportType

  /** `exportStatisticsToCSV(type, filters)`: the three report files, and an
      error for any other type. */
  function ExportStatisticsToCSV(kind: string, students: seq<Student>, defs: D.Dict<ClassRecord>, ledger: D.Dict<string>,
                                 f: Filters): (r: Result<string, StatsError>)
    ensures r.Err? <==> kind != "student_ranking" && kind != "class_stats" && kind != "daily_stats"
    ensures kind == "student_ranking" ==>
      r == Ok(RankingCsv(Ranking(students, defs, ledger, 100, Truthy(f.classId), Truthy(f.startDate), Truthy(f.endDate))))
    ensures kind == "class_stats" ==>
      r == Ok(ClassStatsCsv(ClassAttendanceStats(students, defs, ledger, Truthy(f.startDate), Truthy(f.endDate))))
    ensures kind == "daily_stats" ==>
      r == Ok(DailyCsv(DailyAttendanceStats(students, ledger, f.startDate, f.endDate, Truthy(f.classId))))
  {
    if kind == "student_ranking" then
      Ok(RankingCsv(Ranking(students, defs, ledger, 100, Truthy(f.classId), Truthy(f.startDate), Truthy(f.endDate))))
    else if kind == "class_stats" then
      Ok(ClassStatsCsv(ClassAttendanceStats(students, defs, ledger, Truthy(f.startDate), Truthy(f.endDate))))
    else if kind == "daily_stats" then
      Ok(DailyCsv(DailyAttendanceStats(students, ledger, f.startDate, f.endDate, Truthy(f.classId))))
    else Err(UnsupportedExportType)
  }

  /** Decimal numbers and percentages are plain CSV fields. */
  lemma NumbersPlain(n: nat)
    ensures Csv.PlainField(Text.NatToString(n)) && Csv.PlainField(Percent(n))
  {
    var s := Text.NatToString(n);
    assert Percent(n)[|Percent(n)| - 1] == '%';
    assert forall c :: c in Percent(n) ==> c == '%' || c in s;
  }

  /** The fixed headers are plain CSV fields. */
  lemma HeadersPlain()
    ensures forall i :: 0 <= i < |RankingHeader| ==> Csv.PlainField(RankingHeader[i])
    ensures forall i :: 0 <= i < |ClassStatsHeader| ==> Csv.PlainField(ClassStatsHeader[i])
    ensures forall i :: 0 <= i < |DailyHeader| ==> Csv.PlainField(DailyHeader[i])
  {
  }

  /** The ranking file has the header and then one line per ranked student,
      whose first field reads back as its rank `1..n` in order and whose
      other fields are the student's name, class and counts. */
  lemma RankingCsvReadsBack(ranking: seq<RankRow>)
    requires forall j :: 0 <= j < |ranking| ==> Csv.PlainField(ranking[j].name) && Csv.PlainField(ranking[j].className)
    ensures var lines := Text.Split(RankingCsv(ranking), '\n');
      |lines| == |ranking| + 1 && Csv.DecodeRow(lines[0]) == RankingHeader
    ensures var lines := Text.Split(RankingCsv(ranking), '\n');
      forall j :: 1 <= j < |lines| ==> Csv.DecodeRow(lines[j]) == RankCells(j, ranking[j - 1])
  {
    var rows := RankingCells(ranking);
    HeadersPlain();
    forall j, i | 0 <= j < |rows| && 0 <= i < |rows[j]|
      ensures Csv.PlainField(rows[j][i])
    {
      RankCellsPlain(j + 1, ranking[j]);
    }
    Csv.TableReadsBack(RankingHeader, rows);
  }

  /** The first field of a decoded line is a run of digits worth `n`. */
  predicate ReadsAsNumber(fields: seq<string>, n: nat) {
    fields != [] && (forall i :: 0 <= i < |fields[0]| ==> Text.IsDigit(fields[0][i])) && Text.DecimalValue(fields[0]) == n
  }

  /** Read back from the ranking file, line `j` starts with the number `j`:
      the ranks run 1, 2, ... in file order. */
  lemma RankColumnReadsBack(ranking: seq<RankRow>)
    requires forall j :: 0 <= j < |ranking| ==> Csv.PlainField(ranking[j].name) && Csv.PlainField(ranking[j].className)
    ensures var lines := Text.Split(RankingCsv(ranking), '\n');
      forall j :: 1 <= j < |lines| ==> ReadsAsNumber(Csv.DecodeRow(lines[j]), j)
  {
    RankingCsvReadsBack(ranking);
    var lines := Text.Split(RankingCsv(ranking), '\n');
    forall j | 1 <= j < |lines|
      ensures ReadsAsNumber(Csv.DecodeRow(lines[j]), j)
    {
      assert Csv.DecodeRow(lines[j]) == RankCells(j, ranking[j - 1]);
      Text.NatToStringValue(j);
    }
  }

  lemma RankCellsPlain(rank: nat, x: RankRow)
    requires Csv.PlainField(x.name) && Csv.PlainField(x.className)
    ensures forall i :: 0 <= i < |RankCells(rank, x)| ==> Csv.PlainField(RankCells(rank, x)[i])
  {
    NumbersPlain(rank);
    NumbersPlain(x.stats.total);
    NumbersPlain(x.stats.present);
    NumbersPlain(x.stats.absent);
    NumbersPlain(x.stats.rate);
  }

  /** The daily file has the header and then one line per day, reading back
      as that day's date, counts and rate. */
  lemma DailyCsvReadsBack(rows: seq<Q.DayRow>)
    requires forall j :: 0 <= j < |rows| ==> Csv.PlainField(rows[j].date)
    ensures var lines := Text.Split(DailyCsv(rows), '\n');
      |lines| == |rows| + 1 && Csv.DecodeRow(lines[0]) == DailyHeader
      && forall j :: 0 <= j < |rows| ==> Csv.DecodeRow(lines[j + 1]) == DayCells(rows[j])
  {
    var cells := Seqs.Map(rows, DayCells);
    HeadersPlain();
    forall j, i | 0 <= j < |cells| && 0 <= i < |cells[j]|
      ensures Csv.PlainField(cells[j][i])
    {
      NumbersPlain(rows[j].total);
      NumbersPlain(rows[j].present);
      NumbersPlain(rows[j].absent);
      NumbersPlain(rows[j].rate);
    }
    Csv.TableReadsBack(DailyHeader, cells);
  }

  /** The class file has the header and then one line per class row, reading
      back as that class's name, time, counts and rate. */
  lemma ClassStatsCsvReadsBack(rows: seq<ClassRow>)
    requires forall j :: 0 <= j < |rows| ==> Csv.PlainField(rows[j].name) && Csv.PlainField(rows[j].time)
    ensures var lines := Text.Split(ClassStatsCsv(rows), '\n');
      |lines| == |rows| + 1 && Csv.DecodeRow(lines[0]) == ClassStatsHeader
      && forall j :: 0 <= j < |rows| ==> Csv.DecodeRow(lines[j + 1]) == ClassCells(rows[j])
  {
    var cells := Seqs.Map(rows, ClassCells);
    HeadersPlain();
    forall j, i | 0 <= j < |cells| && 0 <= i < |cells[j]|
      ensures Csv.PlainField(cells[j][i])
    {
      NumbersPlain(rows[j].stats.studentCount);
      NumbersPlain(rows[j].stats.classCount);
      NumbersPlain(rows[j].stats.present);
      NumbersPlain(rows[j].stats.absent);
      NumbersPlain(rows[j].stats.averageAttendanceRate);
    }
    Csv.TableReadsBack(ClassStatsHeader, cells);
  }
}
