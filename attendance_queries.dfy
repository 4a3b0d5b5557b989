/** The read side of the attendance manager: tallies for one student, the
    per-date groupings behind the class and date-range statistics, the two
    student rankings and the summary. Every query reads the record array the
    store's effective `getAttendance()` returns, one record per ledger key;
    those records carry no `classId`, so a class filter on them drops
    everything. */
module AttendanceQueries {
  import opened Wrappers
  import opened Entities
  import Text
  import Seqs
  import Store
  import Rates

  /** The two statuses `setAttendanceStatus` accepts. */
  predicate ValidStatus(status: string) {
    status == "present" || status == "absent"
  }

  predicate IsPresent(r: AttendanceRecord) { r.status == "present" }

  predicate IsAbsent(r: AttendanceRecord) { r.status == "absent" }

  function StudentIdOf(r: AttendanceRecord): string { r.studentId }

  function DateOf(r: AttendanceRecord): string { r.date }

  /** `record => record.date === date`. */
  function OnDate(date: string): AttendanceRecord -> bool {
    (r: AttendanceRecord) => r.date == date
  }

  /** `{ total, present, absent, attendanceRate }`. */
  datatype Stats = Stats(total: nat, present: nat, absent: nat, rate: nat)

  /** The counts over a list of records and the rounded share present. A
      record with any other status counts in the total only. */
  function Tally(recs: seq<AttendanceRecord>): (r: Stats)
    ensures r.total == |recs| && r.present + r.absent <= r.total
    ensures r.present == Seqs.Count(recs, IsPresent) && r.absent == Seqs.Count(recs, IsAbsent)
    ensures r.rate <= 100 && (r.total == 0 ==> r.rate == 0)
    ensures r.total > 0 && r.present == r.total ==> r.rate == 100
  {
    Seqs.CountDisjoint(recs, IsPresent, IsAbsent);
    var p := Seqs.Count(recs, IsPresent);
    Rates.RateBounds(p, |recs|);
    Stats(|recs|, p, Seqs.Count(recs, IsAbsent), Rates.Rate(p, |recs|))
  }

  // ----- one student -----

  /** The three successive filters of `getStudentAttendanceStats`: the
      student's records, then `date >= startDate` and `date <= endDate` when
      those bounds are truthy. */
  function StudentRecords(records: seq<AttendanceRecord>, studentId: string, startDate: string, endDate: string): (r: seq<AttendanceRecord>)
    ensures forall x :: x in r <==> x in records && x.studentId == studentId && Store.InRange(x.date, startDate, endDate)
  {
    Seqs.Filter(records, (x: AttendanceRecord) => x.studentId == studentId && Store.InRange(x.date, startDate, endDate))
  }

  /** `getStudentAttendanceStats(studentId, startDate, endDate)`. */
  function StudentAttendanceStats(records: seq<AttendanceRecord>, studentId: string, startDate: string, endDate: string): (r: Stats)
    ensures r.total <= |records| && r.present + r.absent <= r.total
    ensures r.rate <= 100 && (r.total == 0 ==> r.rate == 0)
  {
    Tally(StudentRecords(records, studentId, startDate, endDate))
  }

  /** Only that student's records inside the bounds count: one more record of
      anyone else, or outside the bounds, leaves the tally as it was, and one
      more matching record adds one to the total and to its status's count. */
  lemma StudentStatsCountsOnlyMatches(records: seq<AttendanceRecord>, x: AttendanceRecord, studentId: string, startDate: string, endDate: string)
    ensures var before := StudentAttendanceStats(records, studentId, startDate, endDate);
      var after := StudentAttendanceStats(records + [x], studentId, startDate, endDate);
      if x.studentId == studentId && Store.InRange(x.date, startDate, endDate) then
        after.total == before.total + 1
        && after.present == before.present + (if IsPresent(x) then 1 else 0)
        && after.absent == before.absent + (if IsAbsent(x) then 1 else 0)
      else after == before
  {
    var p := (y: AttendanceRecord) => y.studentId == studentId && Store.InRange(y.date, startDate, endDate);
    Seqs.FilterAppend(records, [x], p);
    var mine := Seqs.Filter(records, p);
    if p(x) {
      assert Seqs.Filter([x], p) == [x];
      Seqs.CountAppend(mine, [x], IsPresent);
      Seqs.CountAppend(mine, [x], IsAbsent);
    } else {
      assert Seqs.Filter([x], p) == [];
      assert mine + [] == mine;
    }
  }

  // ----- grouping by date -----

  /** One `attendanceByDate[date]` (or `statsByDate[date]`) entry. */
  datatype Bucket = Bucket(date: string, total: nat, present: nat, absent: nat, students: set<string>)

  function TotalOf(b: Bucket): int { b.total }

  /** The entry created for a date not seen before. */
  function EmptyBucket(date: string): Bucket {
    Bucket(date, 0, 0, 0, {})
  }

  /** What the `forEach` body does to a date's entry for one record. */
  function Bump(b: Bucket, r: AttendanceRecord): Bucket {
    Bucket(b.date, b.total + 1,
      if IsPresent(r) then b.present + 1 else b.present,
      if IsAbsent(r) then b.absent + 1 else b.absent,
      b.students + {r.studentId})
  }

  /** Where the entry for `date` sits among the entries, in insertion order. */
  function BucketIndex(buckets: seq<Bucket>, date: string): (r: Option<nat>)
    ensures r.None? <==> forall i :: 0 <= i < |buckets| ==> buckets[i].date != date
    ensures r.Some? ==> r.value < |buckets| && buckets[r.value].date == date
  {
    if buckets == [] then None
    else if buckets[0].date == date then Some(0)
    else match BucketIndex(buckets[1..], date)
      case None => None
      case Some(i) => Some(i + 1)
  }

  /** The entries after one more record: its date's entry is created when
      missing and then bumped. */
  function AddRecord(buckets: seq<Bucket>, r: AttendanceRecord): seq<Bucket> {
    match BucketIndex(buckets, r.date)
    case Some(i) => buckets[i := Bump(buckets[i], r)]
    case None => buckets + [Bump(EmptyBucket(r.date), r)]
  }

  /** The entries, in insertion order, after the whole `forEach`. */
  function Buckets(recs: seq<AttendanceRecord>): seq<Bucket> {
    if recs == [] then []
    else AddRecord(Buckets(recs[..|recs| - 1]), recs[|recs| - 1])
  }

  /** The `forEach` that fills the group-by object. */
  method GroupByDate(recs: seq<AttendanceRecord>) returns (buckets: seq<Bucket>)
    ensures buckets == Buckets(recs)
  {
    buckets := [];
    var i := 0;
    while i < |recs|
      invariant 0 <= i <= |recs|
      invariant buckets == Buckets(recs[..i])
    {
      var r := recs[i];
      assert recs[..i + 1][..i] == recs[..i];
      var found := BucketIndex(buckets, r.date);
      var k: nat;
      if found.None? {
        buckets := buckets + [EmptyBucket(r.date)];
        k := |buckets| - 1;
      } else {
        k := found.value;
      }
      buckets := buckets[k := Bump(buckets[k], r)];
      i := i + 1;
    }
    assert recs[..i] == recs;
  }

  /** The entry a date ought to have, computed from that date's records alone. */
  function DateSummary(recs: seq<AttendanceRecord>, date: string): Bucket {
    var day := Seqs.Filter(recs, OnDate(date));
    Bucket(date, |day|, Seqs.Count(day, IsPresent), Seqs.Count(day, IsAbsent), Seqs.Image(day, StudentIdOf))
  }

  /** One more record changes only its own date's summary, by one bump. */
  lemma DateSummarySnoc(recs: seq<AttendanceRecord>, x: AttendanceRecord, date: string)
    ensures DateSummary(recs + [x], date) == if x.date == date then Bump(DateSummary(recs, date), x) else DateSummary(recs, date)
  {
    var day := Seqs.Filter(recs, OnDate(date));
    Seqs.FilterAppend(recs, [x], OnDate(date));
    if x.date == date {
      assert Seqs.Filter([x], OnDate(date)) == [x];
      Seqs.CountAppend(day, [x], IsPresent);
      Seqs.CountAppend(day, [x], IsAbsent);
      assert Seqs.Image(day + [x], StudentIdOf) == Seqs.Image(day, StudentIdOf) + {x.studentId};
    } else {
      assert Seqs.Filter([x], OnDate(date)) == [];
      assert day + [] == day;
    }
  }

  /** A date no record has summarises to the empty entry. */
  lemma DateSummaryOfMissing(recs: seq<AttendanceRecord>, date: string)
    requires forall k :: 0 <= k < |recs| ==> recs[k].date != date
    ensures DateSummary(recs, date) == EmptyBucket(date)
  {
    Seqs.FilterNone(recs, OnDate(date));
  }

  /** A date whose summary counts something is the date of some record. */
  lemma DateSummaryWitness(recs: seq<AttendanceRecord>, date: string)
    requires DateSummary(recs, date).total > 0
    ensures exists k :: 0 <= k < |recs| && recs[k].date == date
  {
    var day := Seqs.Filter(recs, OnDate(date));
    assert day[0] in recs;
  }

  /** The entries are a faithful grouping of the records: each is its date's
      summary and non-empty, no date has two, every record's date has one, and
      the totals add up to the number of records. */
  ghost predicate Grouped(recs: seq<AttendanceRecord>, buckets: seq<Bucket>) {
    (forall i :: 0 <= i < |buckets| ==> buckets[i] == DateSummary(recs, buckets[i].date) && buckets[i].total > 0)
    && (forall i, j :: 0 <= i < j < |buckets| ==> buckets[i].date != buckets[j].date)
    && (forall k :: 0 <= k < |recs| ==> BucketIndex(buckets, recs[k].date).Some?)
    && Seqs.SumBy(buckets, TotalOf) == |recs|
  }

  /** Adding the next record keeps the grouping faithful, when its date
      already has an entry. */
  lemma AddToExistingKeepsGrouped(recs: seq<AttendanceRecord>, buckets: seq<Bucket>, x: AttendanceRecord, i: nat)
    requires Grouped(recs, buckets)
    requires BucketIndex(buckets, x.date) == Some(i)
    ensures Grouped(recs + [x], AddRecord(buckets, x))
  {
    var nb := buckets[i := Bump(buckets[i], x)];
    assert AddRecord(buckets, x) == nb;
    BumpedEntryDistinct(buckets, x, i);
    BumpedEntrySummarises(recs, buckets, x, i);
    BumpedEntryCovers(recs, buckets, x, i);
    Seqs.SumByUpdate(buckets, i, Bump(buckets[i], x), TotalOf);
    GroupedIntro(recs + [x], nb);
  }

  /** Bumping an entry keeps the dates distinct, and only that entry has the
      record's date. */
  lemma BumpedEntryDistinct(buckets: seq<Bucket>, x: AttendanceRecord, i: nat)
    requires forall j, k :: 0 <= j < k < |buckets| ==> buckets[j].date != buckets[k].date
    requires i < |buckets| && buckets[i].date == x.date
    ensures var nb := buckets[i := Bump(buckets[i], x)];
      forall j, k :: 0 <= j < k < |nb| ==> nb[j].date != nb[k].date
    ensures forall j :: 0 <= j < |buckets| && j != i ==> buckets[j].date != x.date
  {
    var nb := buckets[i := Bump(buckets[i], x)];
    assert forall j :: 0 <= j < |nb| ==> nb[j].date == buckets[j].date;
  }

  /** With a known date's entry bumped, every entry still summarises its date. */
  lemma BumpedEntrySummarises(recs: seq<AttendanceRecord>, buckets: seq<Bucket>, x: AttendanceRecord, i: nat)
    requires forall j :: 0 <= j < |buckets| ==> buckets[j] == DateSummary(recs, buckets[j].date) && buckets[j].total > 0
    requires i < |buckets| && buckets[i].date == x.date
    requires forall j :: 0 <= j < |buckets| && j != i ==> buckets[j].date != x.date
    ensures var nb := buckets[i := Bump(buckets[i], x)];
      forall j :: 0 <= j < |nb| ==> nb[j] == DateSummary(recs + [x], nb[j].date) && nb[j].total > 0
  {
    var nb := buckets[i := Bump(buckets[i], x)];
    forall j | 0 <= j < |nb|
      ensures nb[j] == DateSummary(recs + [x], nb[j].date) && nb[j].total > 0
    {
      DateSummarySnoc(recs, x, buckets[j].date);
    }
  }

  /** With a known date's entry bumped, every record's date has an entry. */
  lemma BumpedEntryCovers(recs: seq<AttendanceRecord>, buckets: seq<Bucket>, x: AttendanceRecord, i: nat)
    requires forall k :: 0 <= k < |recs| ==> BucketIndex(buckets, recs[k].date).Some?
    requires i < |buckets| && buckets[i].date == x.date
    ensures var nb := buckets[i := Bump(buckets[i], x)];
      forall k :: 0 <= k < |recs| + 1 ==> BucketIndex(nb, (recs + [x])[k].date).Some?
  {
    var nb := buckets[i := Bump(buckets[i], x)];
    var all := recs + [x];
    forall k | 0 <= k < |all|
      ensures BucketIndex(nb, all[k].date).Some?
    {
      if k < |recs| {
        var m := BucketIndex(buckets, recs[k].date).value;
        assert nb[m].date == recs[k].date;
      } else {
        assert nb[i].date == x.date;
      }
    }
  }

  /** Adding the next record keeps the grouping faithful, when its date is
      new: the new entry goes last. */
  lemma AddNewKeepsGrouped(recs: seq<AttendanceRecord>, buckets: seq<Bucket>, x: AttendanceRecord)
    requires Grouped(recs, buckets)
    requires BucketIndex(buckets, x.date).None?
    ensures Grouped(recs + [x], AddRecord(buckets, x))
  {
    var created := Bump(EmptyBucket(x.date), x);
    assert AddRecord(buckets, x) == buckets + [created];
    NewDateHasNoRecords(recs, buckets, x.date);
    NewEntrySummarises(recs, buckets, x);
    NewEntryCovers(recs, buckets, x);
    NewEntryDistinct(buckets, x);
    Seqs.SumByAppend(buckets, [created], TotalOf);
    GroupedIntro(recs + [x], buckets + [created]);
  }

  /** The four facts make a faithful grouping. */
  lemma GroupedIntro(recs: seq<AttendanceRecord>, buckets: seq<Bucket>)
    requires forall i :: 0 <= i < |buckets| ==> buckets[i] == DateSummary(recs, buckets[i].date) && buckets[i].total > 0
    requires forall i, j :: 0 <= i < j < |buckets| ==> buckets[i].date != buckets[j].date
    requires forall k :: 0 <= k < |recs| ==> BucketIndex(buckets, recs[k].date).Some?
    requires Seqs.SumBy(buckets, TotalOf) == |recs|
    ensures Grouped(recs, buckets)
  {
  }

  /** An entry for a date not yet present keeps the dates distinct. */
  lemma NewEntryDistinct(buckets: seq<Bucket>, x: AttendanceRecord)
    requires forall i, j :: 0 <= i < j < |buckets| ==> buckets[i].date != buckets[j].date
    requires BucketIndex(buckets, x.date).None?
    ensures var nb := buckets + [Bump(EmptyBucket(x.date), x)];
      forall i, j :: 0 <= i < j < |nb| ==> nb[i].date != nb[j].date
  {
  }

  /** With a new date's entry appended, every entry still summarises its date. */
  lemma NewEntrySummarises(recs: seq<AttendanceRecord>, buckets: seq<Bucket>, x: AttendanceRecord)
    requires forall i :: 0 <= i < |buckets| ==> buckets[i] == DateSummary(recs, buckets[i].date) && buckets[i].total > 0
    requires forall k :: 0 <= k < |recs| ==> recs[k].date != x.date
    ensures var nb := buckets + [Bump(EmptyBucket(x.date), x)];
      forall j :: 0 <= j < |nb| ==> nb[j] == DateSummary(recs + [x], nb[j].date) && nb[j].total > 0
  {
    DateSummaryOfMissing(recs, x.date);
    DateSummarySnoc(recs, x, x.date);
    forall j | 0 <= j < |buckets|
      ensures buckets[j] == DateSummary(recs + [x], buckets[j].date)
    {
      DateSummarySnoc(recs, x, buckets[j].date);
    }
  }

  /** With a new date's entry appended, every record's date has an entry. */
  lemma NewEntryCovers(recs: seq<AttendanceRecord>, buckets: seq<Bucket>, x: AttendanceRecord)
    requires forall k :: 0 <= k < |recs| ==> BucketIndex(buckets, recs[k].date).Some?
    ensures var nb := buckets + [Bump(EmptyBucket(x.date), x)];
      forall k :: 0 <= k < |recs| + 1 ==> BucketIndex(nb, (recs + [x])[k].date).Some?
  {
    var nb := buckets + [Bump(EmptyBucket(x.date), x)];
    var all := recs + [x];
    forall k | 0 <= k < |all|
      ensures BucketIndex(nb, all[k].date).Some?
    {
      if k < |recs| {
        var m := BucketIndex(buckets, recs[k].date).value;
        assert nb[m].date == recs[k].date;
      } else {
        assert nb[|buckets|].date == x.date;
      }
    }
  }

  /** A date without an entry is the date of no record. */
  lemma NewDateHasNoRecords(recs: seq<AttendanceRecord>, buckets: seq<Bucket>, date: string)
    requires forall k :: 0 <= k < |recs| ==> BucketIndex(buckets, recs[k].date).Some?
    requires BucketIndex(buckets, date).None?
    ensures forall k :: 0 <= k < |recs| ==> recs[k].date != date
  {
    forall k | 0 <= k < |recs|
      ensures recs[k].date != date
    {
      var m := BucketIndex(buckets, recs[k].date).value;
      assert buckets[m].date == recs[k].date;
    }
  }

  /** The `forEach` groups faithfully. */
  lemma {:induction false} BucketsGrouped(recs: seq<AttendanceRecord>)
    ensures Grouped(recs, Buckets(recs))
  {
    if recs != [] {
      var init := recs[..|recs| - 1];
      var x := recs[|recs| - 1];
      var prev := Buckets(init);
      assert init + [x] == recs;
      assert Buckets(recs) == AddRecord(prev, x);
      BucketsGrouped(init);
      match BucketIndex(prev, x.date) {
        case Some(i) => AddToExistingKeepsGrouped(init, prev, x, i);
        case None => AddNewKeepsGrouped(init, prev, x);
      }
    }
  }

  /** The counts of one date's summary are consistent: each student counted
      once at most, and the two statuses within the total. */
  lemma DateSummaryBounds(recs: seq<AttendanceRecord>, date: string)
    ensures var b := DateSummary(recs, date);
      |b.students| <= b.total && b.present + b.absent <= b.total
  {
    var day := Seqs.Filter(recs, OnDate(date));
    Seqs.ImageSize(day, StudentIdOf);
    Seqs.CountDisjoint(day, IsPresent, IsAbsent);
  }

  /** `Object.values(groups)` turned into rows by `row` and sorted by date:
      sorted, one row per date that has records and none for other dates,
      each the row of that date's summary, with totals adding up to the
      number of records. */
  lemma SortedRowsOfBuckets<R(!new)>(recs: seq<AttendanceRecord>, row: Bucket -> R, date: R -> string, total: R -> int)
    requires forall b :: date(row(b)) == b.date && total(row(b)) == b.total
    ensures var rows := Seqs.SortByText(Seqs.Map(Buckets(recs), row), date);
      Seqs.SortedByText(rows, date)
      && Seqs.SumBy(rows, total) == |recs|
      && (forall i :: 0 <= i < |rows| ==>
            rows[i] == row(DateSummary(recs, date(rows[i]))) && DateSummary(recs, date(rows[i])).total > 0)
      && (forall i, j :: 0 <= i < j < |rows| ==> date(rows[i]) != date(rows[j]))
      && (forall k :: 0 <= k < |recs| ==> recs[k].date in Seqs.Map(rows, date))
  {
    var buckets := Buckets(recs);
    BucketsGrouped(recs);
    RowsTotal(recs, buckets, row, date, total);
    RowsAreSummaries(recs, buckets, row, date);
    RowsDistinct(buckets, row, date);
    RowsCover(recs, buckets, row, date);
  }

  /** Each sorted row is the row of its date's summary, which is not empty. */
  lemma RowsAreSummaries<R(!new)>(recs: seq<AttendanceRecord>, buckets: seq<Bucket>, row: Bucket -> R, date: R -> string)
    requires forall i :: 0 <= i < |buckets| ==> buckets[i] == DateSummary(recs, buckets[i].date) && buckets[i].total > 0
    requires forall b :: date(row(b)) == b.date
    ensures var rows := Seqs.SortByText(Seqs.Map(buckets, row), date);
      forall i :: 0 <= i < |rows| ==>
        rows[i] == row(DateSummary(recs, date(rows[i]))) && DateSummary(recs, date(rows[i])).total > 0
  {
    RowsFromEntries(buckets, row, date);
  }

  /** No two sorted rows share a date. */
  lemma RowsDistinct<R(!new)>(buckets: seq<Bucket>, row: Bucket -> R, date: R -> string)
    requires forall i, j :: 0 <= i < j < |buckets| ==> buckets[i].date != buckets[j].date
    requires forall b :: date(row(b)) == b.date
    ensures var rows := Seqs.SortByText(Seqs.Map(buckets, row), date);
      forall i, j :: 0 <= i < j < |rows| ==> date(rows[i]) != date(rows[j])
  {
    var mapped := Seqs.Map(buckets, row);
    Seqs.PermutationKeepsKeysDistinct(mapped, Seqs.SortByText(mapped, date), date);
  }

  /** Every record's date has a sorted row. */
  lemma RowsCover<R(!new)>(recs: seq<AttendanceRecord>, buckets: seq<Bucket>, row: Bucket -> R, date: R -> string)
    requires forall k :: 0 <= k < |recs| ==> BucketIndex(buckets, recs[k].date).Some?
    requires forall b :: date(row(b)) == b.date
    ensures var rows := Seqs.SortByText(Seqs.Map(buckets, row), date);
      forall k :: 0 <= k < |recs| ==> recs[k].date in Seqs.Map(rows, date)
  {
    var mapped := Seqs.Map(buckets, row);
    var rows := Seqs.SortByText(mapped, date);
    forall k | 0 <= k < |recs|
      ensures recs[k].date in Seqs.Map(rows, date)
    {
      var j := BucketIndex(buckets, recs[k].date).value;
      assert mapped[j] in multiset(rows);
      var i :| 0 <= i < |rows| && rows[i] == mapped[j];
      assert Seqs.Map(rows, date)[i] == recs[k].date;
    }
  }

  /** The sorted rows' totals add up to the number of records. */
  lemma RowsTotal<R(!new)>(recs: seq<AttendanceRecord>, buckets: seq<Bucket>, row: Bucket -> R, date: R -> string, total: R -> int)
    requires Seqs.SumBy(buckets, TotalOf) == |recs|
    requires forall b :: total(row(b)) == b.total
    ensures Seqs.SumBy(Seqs.SortByText(Seqs.Map(buckets, row), date), total) == |recs|
  {
    var mapped := Seqs.Map(buckets, row);
    Seqs.SumBySortByText(mapped, date, total);
    Seqs.SumByMap(buckets, row, total, TotalOf);
  }

  /** Every sorted row is the row of some entry, which summarises its date. */
  lemma RowsFromEntries<R(!new)>(buckets: seq<Bucket>, row: Bucket -> R, date: R -> string)
    ensures var rows := Seqs.SortByText(Seqs.Map(buckets, row), date);
      forall i :: 0 <= i < |rows| ==> exists j :: 0 <= j < |buckets| && rows[i] == row(buckets[j])
  {
    var mapped := Seqs.Map(buckets, row);
    var rows := Seqs.SortByText(mapped, date);
    forall i | 0 <= i < |rows|
      ensures exists j :: 0 <= j < |buckets| && rows[i] == row(buckets[j])
    {
      assert rows[i] in multiset(mapped);
      var j :| 0 <= j < |mapped| && mapped[j] == rows[i];
    }
  }

  // ----- one class -----

  /** A `byDate` entry of `getClassAttendanceStats`. */
  datatype DayRow = DayRow(date: string, total: nat, present: nat, absent: nat, rate: nat)

  function DayRowOf(b: Bucket): DayRow {
    DayRow(b.date, b.total, b.present, b.absent, Rates.Rate(b.present, b.total))
  }

  function DayRowDate(r: DayRow): string { r.date }

  function DayRowTotal(r: DayRow): int { r.total }

  /** `{ total, present, absent, averageAttendanceRate, byDate }`. */
  datatype ClassStats = ClassStats(overall: Stats, byDate: seq<DayRow>)

  /** The records `getClassAttendanceStats` keeps: those of a student found
      among the class's active students, inside the truthy bounds. */
  function ClassRecords(students: seq<Student>, records: seq<AttendanceRecord>, classId: string, startDate: string, endDate: string): (r: seq<AttendanceRecord>)
    ensures forall x :: x in r <==> (x in records && Store.InRange(x.date, startDate, endDate)
      && exists s :: s in students && s.id == x.studentId && s.status == "active" && (classId != "" ==> s.classRef == classId))
  {
    var classStudents := Store.StudentsOf(students, classId, "active");
    Seqs.Filter(records, (x: AttendanceRecord) => Store.StudentById(classStudents, x.studentId).Some? && Store.InRange(x.date, startDate, endDate))
  }

  /** `getClassAttendanceStats(classId, startDate, endDate)`: the overall
      tally of the class's records and one row per date, sorted by date, each
      the tally of that date's records; the rows' totals add up to the
      overall total and every date with a record has its row. */
  method ClassAttendanceStats(students: seq<Student>, records: seq<AttendanceRecord>, classId: string, startDate: string, endDate: string)
    returns (r: ClassStats)
    ensures var recs := ClassRecords(students, records, classId, startDate, endDate);
      r.overall == Tally(recs)
      && Seqs.SortedByText(r.byDate, DayRowDate)
      && Seqs.SumBy(r.byDate, DayRowTotal) == r.overall.total
      && (forall i :: 0 <= i < |r.byDate| ==> r.byDate[i] == DayRowOf(DateSummary(recs, DayRowDate(r.byDate[i]))) && r.byDate[i].total > 0)
      && (forall i, j :: 0 <= i < j < |r.byDate| ==> DayRowDate(r.byDate[i]) != DayRowDate(r.byDate[j]))
      && (forall k :: 0 <= k < |recs| ==> recs[k].date in Seqs.Map(r.byDate, DayRowDate))
  {
    var recs := ClassRecords(students, records, classId, startDate, endDate);
    var buckets := GroupByDate(recs);
    r := ClassStats(Tally(recs), Seqs.SortByText(Seqs.Map(buckets, DayRowOf), DayRowDate));
    assert r.byDate == DayRows(recs);
    DayRowsFacts(recs);
  }

  /** The per-date rows of some records, sorted by date: each summarises its
      date, no date twice, every record's date present, totals adding up. */
  lemma DayRowsFacts(recs: seq<AttendanceRecord>)
    ensures Seqs.SortedByText(DayRows(recs), DayRowDate)
    ensures Seqs.SumBy(DayRows(recs), DayRowTotal) == |recs|
    ensures forall i :: 0 <= i < |DayRows(recs)| ==>
      DayRows(recs)[i] == DayRowOf(DateSummary(recs, DayRowDate(DayRows(recs)[i]))) && DayRows(recs)[i].total > 0
    ensures forall i, j :: 0 <= i < j < |DayRows(recs)| ==> DayRowDate(DayRows(recs)[i]) != DayRowDate(DayRows(recs)[j])
    ensures forall k :: 0 <= k < |recs| ==> recs[k].date in Seqs.Map(DayRows(recs), DayRowDate)
  {
    SortedRowsOfBuckets(recs, DayRowOf, DayRowDate, DayRowTotal);
  }

  /** The `byDate` rows of some records. */
  function DayRows(recs: seq<AttendanceRecord>): seq<DayRow> {
    Seqs.SortByText(Seqs.Map(Buckets(recs), DayRowOf), DayRowDate)
  }

  // ----- a date range -----

  /** An entry of `getAttendanceStatsByDateRange`. */
  datatype RangeRow = RangeRow(date: string, total: nat, present: nat, absent: nat, uniqueStudents: nat, rate: nat)

  function RangeRowOf(b: Bucket): RangeRow {
    RangeRow(b.date, b.total, b.present, b.absent, |b.students|, Rates.Rate(b.present, b.total))
  }

  function RangeRowDate(r: RangeRow): string { r.date }

  function RangeRowTotal(r: RangeRow): int { r.total }

  /** `startDate <= date <= endDate` with both bounds applied as given. */
  predicate Between(date: string, startDate: string, endDate: string) {
    !Text.Less(date, startDate) && !Text.Less(endDate, date)
  }

  function InWindow(startDate: string, endDate: string): AttendanceRecord -> bool {
    (x: AttendanceRecord) => Between(x.date, startDate, endDate)
  }

  /** The records `getAttendanceStatsByDateRange` keeps. A class filter keeps
      none, since no record carries a `classId`. */
  function RangeRecords(records: seq<AttendanceRecord>, startDate: string, endDate: string, classId: string): (r: seq<AttendanceRecord>)
    ensures forall x :: x in r ==> x in records && Between(x.date, startDate, endDate)
  {
    var inRange := Seqs.Filter(records, InWindow(startDate, endDate));
    if classId != "" then [] else inRange
  }

  /** The rows `getAttendanceStatsByDateRange` returns: the date groups of
      the records in range, as rows sorted by date. */
  function RangeRows(records: seq<AttendanceRecord>, startDate: string, endDate: string, classId: string): seq<RangeRow> {
    Seqs.SortByText(Seqs.Map(Buckets(RangeRecords(records, startDate, endDate, classId)), RangeRowOf), RangeRowDate)
  }

  /** `getAttendanceStatsByDateRange(startDate, endDate, classId)`. */
  method AttendanceStatsByDateRange(records: seq<AttendanceRecord>, startDate: string, endDate: string, classId: string)
    returns (rows: seq<RangeRow>)
    ensures rows == RangeRows(records, startDate, endDate, classId)
  {
    var recs := RangeRecords(records, startDate, endDate, classId);
    var buckets := GroupByDate(recs);
    rows := Seqs.SortByText(Seqs.Map(buckets, RangeRowOf), RangeRowDate);
  }

  /** The range rows: one per date inside the bounds that has records, sorted
      by date, each the tally of that date with its number of distinct
      students; the totals add up to the number of records in range. A class
      id yields no rows. */
  lemma RangeRowsFacts(records: seq<AttendanceRecord>, startDate: string, endDate: string, classId: string)
    ensures var rows := RangeRows(records, startDate, endDate, classId);
      (classId != "" ==> rows == [])
      && Seqs.SortedByText(rows, RangeRowDate)
      && (forall i, j :: 0 <= i < j < |rows| ==> rows[i].date != rows[j].date)
      && (forall i :: 0 <= i < |rows| ==> (Between(rows[i].date, startDate, endDate)
           && 0 < rows[i].total && rows[i].uniqueStudents <= rows[i].total
           && rows[i].present + rows[i].absent <= rows[i].total && rows[i].rate <= 100))
      && (classId == "" ==> Seqs.SumBy(rows, RangeRowTotal) == Seqs.Count(records, InWindow(startDate, endDate)))
  {
    var recs := RangeRecords(records, startDate, endDate, classId);
    SortedRowsOfBuckets(recs, RangeRowOf, RangeRowDate, RangeRowTotal);
    RangeRowsBounded(recs, RangeRows(records, startDate, endDate, classId), startDate, endDate);
  }

  /** Rows that are summaries of in-range records lie in range and count
      consistently. */
  lemma RangeRowsBounded(recs: seq<AttendanceRecord>, rows: seq<RangeRow>, startDate: string, endDate: string)
    requires forall x :: x in recs ==> Between(x.date, startDate, endDate)
    requires forall i :: 0 <= i < |rows| ==> rows[i] == RangeRowOf(DateSummary(recs, rows[i].date)) && rows[i].total > 0
    ensures forall i :: 0 <= i < |rows| ==> (Between(rows[i].date, startDate, endDate)
      && rows[i].uniqueStudents <= rows[i].total
      && rows[i].present + rows[i].absent <= rows[i].total && rows[i].rate <= 100)
  {
    forall i | 0 <= i < |rows|
      ensures Between(rows[i].date, startDate, endDate)
      ensures rows[i].uniqueStudents <= rows[i].total && rows[i].present + rows[i].absent <= rows[i].total && rows[i].rate <= 100
    {
      DateSummaryWitness(recs, rows[i].date);
      DateSummaryBounds(recs, rows[i].date);
      Rates.RateBounds(rows[i].present, rows[i].total);
    }
  }

  // ----- rankings -----

  /** `{ ...student, ...stats }`. */
  datatype StudentRow = StudentRow(student: Student, stats: Stats)

  /** `(a, b) => b.absent - a.absent` as an ascending key. */
  function AbsentKey(r: StudentRow): int { 0 - r.stats.absent as int }

  /** `(a, b) => a.attendanceRate - b.attendanceRate`. */
  function RateKey(r: StudentRow): int { r.stats.rate }

  /** Every student with their tally between the bounds. */
  function StudentRows(students: seq<Student>, records: seq<AttendanceRecord>, startDate: string, endDate: string): (r: seq<StudentRow>)
    ensures |r| == |students|
    ensures forall i :: 0 <= i < |r| ==> r[i] == StudentRow(students[i], StudentAttendanceStats(records, students[i].id, startDate, endDate))
  {
    Seqs.Map(students, (s: Student) => StudentRow(s, StudentAttendanceStats(records, s.id, startDate, endDate)))
  }

  predicate HasRecords(r: StudentRow) { r.stats.total > 0 }

  /** The active students that have at least one record between the bounds. */
  function AbsenceCandidates(students: seq<Student>, records: seq<AttendanceRecord>, startDate: string, endDate: string): (r: seq<StudentRow>)
    ensures forall x :: x in r ==> (x.stats.total > 0 && x.student in students && x.student.status == "active"
      && x.stats == StudentAttendanceStats(records, x.student.id, startDate, endDate))
  {
    var active := Store.StudentsOf(students, "", "active");
    Seqs.Filter(StudentRows(active, records, startDate, endDate), HasRecords)
  }

  /** `getMostAbsentStudents(limit, startDate, endDate)`: at most `limit`
      active students with records, by decreasing number of absences. */
  function MostAbsentStudents(students: seq<Student>, records: seq<AttendanceRecord>, limit: int, startDate: string, endDate: string): (r: seq<StudentRow>)
    ensures limit >= 0 ==> |r| <= limit
    ensures forall i :: 0 <= i < |r| ==> (r[i].stats.total > 0 && r[i].student in students && r[i].student.status == "active"
      && r[i].stats == StudentAttendanceStats(records, r[i].student.id, startDate, endDate))
    ensures forall i, j :: 0 <= i < j < |r| ==> r[i].stats.absent >= r[j].stats.absent
  {
    Seqs.SortSliceMembers(AbsenceCandidates(students, records, startDate, endDate), AbsentKey, limit);
    Seqs.Slice0(Seqs.SortByInt(AbsenceCandidates(students, records, startDate, endDate), AbsentKey), limit)
  }

  /** No student left out of the list has more absences than one in it, and
      when `limit` is large enough nobody is left out. */
  lemma MostAbsentAreTheMost(students: seq<Student>, records: seq<AttendanceRecord>, limit: int, startDate: string, endDate: string, y: StudentRow)
    requires y in AbsenceCandidates(students, records, startDate, endDate)
    ensures var r := MostAbsentStudents(students, records, limit, startDate, endDate);
      (y !in r ==> forall i :: 0 <= i < |r| ==> r[i].stats.absent >= y.stats.absent)
      && (limit >= |AbsenceCandidates(students, records, startDate, endDate)| ==> y in r)
  {
    var candidates := AbsenceCandidates(students, records, startDate, endDate);
    var sorted := Seqs.SortByInt(candidates, AbsentKey);
    assert y in multiset(sorted);
    var r := Seqs.Slice0(sorted, limit);
    if y !in r {
      Seqs.SortedPrefixDominates(sorted, AbsentKey, limit, y);
    }
  }

  /** The students `getLowestAttendanceStudents` ranks: active, with at least
      `minClasses` records over all dates. */
  function RateCandidates(students: seq<Student>, records: seq<AttendanceRecord>, minClasses: int): (r: seq<StudentRow>)
    ensures forall x :: x in r ==> (x.stats.total >= minClasses && x.student in students && x.student.status == "active"
      && x.stats == StudentAttendanceStats(records, x.student.id, "", ""))
  {
    var active := Store.StudentsOf(students, "", "active");
    Seqs.Filter(StudentRows(active, records, "", ""), (x: StudentRow) => x.stats.total >= minClasses)
  }

  /** `getLowestAttendanceStudents(limit, minClasses)`: at most `limit`
      students with enough records, by increasing attendance rate. */
  function LowestAttendanceStudents(students: seq<Student>, records: seq<AttendanceRecord>, limit: int, minClasses: int): (r: seq<StudentRow>)
    ensures limit >= 0 ==> |r| <= limit
    ensures forall i :: 0 <= i < |r| ==> (r[i].stats.total >= minClasses && r[i].student in students
      && r[i].student.status == "active" && r[i].stats == StudentAttendanceStats(records, r[i].student.id, "", ""))
    ensures forall i, j :: 0 <= i < j < |r| ==> r[i].stats.rate <= r[j].stats.rate
  {
    Seqs.SortSliceMembers(RateCandidates(students, records, minClasses), RateKey, limit);
    Seqs.Slice0(Seqs.SortByInt(RateCandidates(students, records, minClasses), RateKey), limit)
  }

  /** No student left out of the list has a lower rate than one in it, and
      when `limit` is large enough nobody is left out. */
  lemma LowestAreTheLowest(students: seq<Student>, records: seq<AttendanceRecord>, limit: int, minClasses: int, y: StudentRow)
    requires y in RateCandidates(students, records, minClasses)
    ensures var r := LowestAttendanceStudents(students, records, limit, minClasses);
      (y !in r ==> forall i :: 0 <= i < |r| ==> r[i].stats.rate <= y.stats.rate)
      && (limit >= |RateCandidates(students, records, minClasses)| ==> y in r)
  {
    var sorted := Seqs.SortByInt(RateCandidates(students, records, minClasses), RateKey);
    assert y in multiset(sorted);
    var r := Seqs.Slice0(sorted, limit);
    if y !in r {
      Seqs.SortedPrefixDominates(sorted, RateKey, limit, y);
    }
  }

  // ----- summary -----

  /** `{ totalRecords, presentCount, absentCount, uniqueStudents, uniqueDates, overallAttendanceRate }`. */
  datatype Summary = Summary(totalRecords: nat, presentCount: nat, absentCount: nat,
                             uniqueStudents: nat, uniqueDates: nat, overallRate: nat)

  /** The records `getAttendanceSummary` keeps: none under a class filter,
      otherwise those inside the truthy bounds. */
  function SummaryRecords(records: seq<AttendanceRecord>, classId: string, startDate: string, endDate: string): seq<AttendanceRecord> {
    if classId != "" then [] else Seqs.Filter(records, (x: AttendanceRecord) => Store.InRange(x.date, startDate, endDate))
  }

  /** `getAttendanceSummary(classId, startDate, endDate)`. */
  function AttendanceSummary(records: seq<AttendanceRecord>, classId: string, startDate: string, endDate: string): (r: Summary)
    ensures r.uniqueStudents <= r.totalRecords && r.uniqueDates <= r.totalRecords
    ensures r.presentCount + r.absentCount <= r.totalRecords && r.overallRate <= 100
    ensures classId != "" ==> r == Summary(0, 0, 0, 0, 0, 0)
    ensures r.totalRecords <= |records|
  {
    var recs := SummaryRecords(records, classId, startDate, endDate);
    var t := Tally(recs);
    Seqs.ImageSize(recs, StudentIdOf);
    Seqs.ImageSize(recs, DateOf);
    Summary(t.total, t.present, t.absent, |Seqs.Image(recs, StudentIdOf)|, |Seqs.Image(recs, DateOf)|, t.rate)
  }

  /** The summary's `uniqueDates` is the number of rows the per-date grouping
      of the same records has. */
  lemma UniqueDatesAreGroups(records: seq<AttendanceRecord>, classId: string, startDate: string, endDate: string)
    ensures AttendanceSummary(records, classId, startDate, endDate).uniqueDates
      == |Buckets(SummaryRecords(records, classId, startDate, endDate))|
  {
    var recs := SummaryRecords(records, classId, startDate, endDate);
    var buckets := Buckets(recs);
    BucketsGrouped(recs);
    GroupDatesAreRecordDates(recs, buckets);
    DistinctDatesCount(buckets);
  }

  function BucketDate(b: Bucket): string { b.date }

  /** The dates of a faithful grouping are exactly the records' dates. */
  lemma GroupDatesAreRecordDates(recs: seq<AttendanceRecord>, buckets: seq<Bucket>)
    requires Grouped(recs, buckets)
    ensures Seqs.Image(recs, DateOf) == Seqs.Image(buckets, BucketDate)
  {
    forall d | d in Seqs.Image(recs, DateOf)
      ensures d in Seqs.Image(buckets, BucketDate)
    {
      var x :| x in recs && DateOf(x) == d;
      var k :| 0 <= k < |recs| && recs[k] == x;
      RecordDateInBuckets(recs, buckets, k);
    }
    forall d | d in Seqs.Image(buckets, BucketDate)
      ensures d in Seqs.Image(recs, DateOf)
    {
      var b :| b in buckets && BucketDate(b) == d;
      var j :| 0 <= j < |buckets| && buckets[j] == b;
      BucketDateInRecords(recs, buckets, j);
    }
  }

  /** A record's date is the date of an entry. */
  lemma RecordDateInBuckets(recs: seq<AttendanceRecord>, buckets: seq<Bucket>, k: nat)
    requires Grouped(recs, buckets) && k < |recs|
    ensures recs[k].date in Seqs.Image(buckets, BucketDate)
  {
    var j := BucketIndex(buckets, recs[k].date).value;
    assert buckets[j] in buckets && BucketDate(buckets[j]) == recs[k].date;
  }

  /** An entry's date is the date of a record. */
  lemma BucketDateInRecords(recs: seq<AttendanceRecord>, buckets: seq<Bucket>, j: nat)
    requires Grouped(recs, buckets) && j < |buckets|
    ensures buckets[j].date in Seqs.Image(recs, DateOf)
  {
    DateSummaryWitness(recs, buckets[j].date);
    var k :| 0 <= k < |recs| && recs[k].date == buckets[j].date;
    assert recs[k] in recs && DateOf(recs[k]) == buckets[j].date;
  }

  /** Entries with pairwise different dates have as many dates as entries. */
  lemma {:induction false} DistinctDatesCount(buckets: seq<Bucket>)
    requires forall i, j :: 0 <= i < j < |buckets| ==> buckets[i].date != buckets[j].date
    ensures |Seqs.Image(buckets, BucketDate)| == |buckets|
  {
    if buckets != [] {
      var init := buckets[..|buckets| - 1];
      var last := buckets[|buckets| - 1];
      DistinctDatesCount(init);
      assert buckets == init + [last];
      Seqs.ImageSnoc(init, last, BucketDate);
      assert forall j :: 0 <= j < |init| ==> init[j].date != last.date;
    }
  }
}
