/** What the three Apps Script back ends (`google-apps-script*.js`) have in
    common: a spreadsheet of named sheets whose cells they read with
    `getDataRange().getValues()` and write with `getRange(...).setValues(...)`,
    the nine-column student row, and the JSON replies they send.

    A sheet's `values` are its rows up to the last one holding content (what
    `getDataRange` covers and `getLastRow` counts). Rows may be ragged; a
    cell past the end of a row is empty, as the padded range reads it. Cells
    are text, and an empty cell is the falsy value the scripts test for. */
module Sheets {
  import opened Wrappers
  import opened Entities
  import Text
  import Seqs
  import D = Dict

  type Row = seq<string>

  /** `row[i]`: the cell in column `i` (from 0), empty past the row's end. */
  function CellAt(row: Row, i: nat): string {
    if i < |row| then row[i] else ""
  }

  /** The cells of `row` from column `n` on. */
  function Beyond(row: Row, n: nat): Row {
    if n <= |row| then row[n..] else []
  }

  /** The rows after writing `block` with its top-left cell at row `top`
      (from 0), column 1: the cells the block covers take its values, every
      other cell keeps its own. */
  function Overlay(grid: seq<Row>, top: nat, block: seq<Row>): (r: seq<Row>)
    ensures |r| == if top + |block| <= |grid| || block == [] then |grid| else top + |block|
  {
    var n := if top + |block| <= |grid| || block == [] then |grid| else top + |block|;
    seq(n, i requires 0 <= i < n =>
      if top <= i < top + |block| then block[i - top] + Beyond(if i < |grid| then grid[i] else [], |block[i - top]|)
      else if i < |grid| then grid[i] else [])
  }

  /** Writing rows into a sheet just emptied gives exactly those rows. */
  lemma OverlayEmpty(block: seq<Row>)
    ensures Overlay([], 0, block) == block
  {
    var r := Overlay([], 0, block);
    forall i | 0 <= i < |r|
      ensures r[i] == block[i]
    {
      assert block[i] + Beyond([], |block[i]|) == block[i];
    }
  }

  /** Writing rows just below the last row appends them. */
  lemma OverlayAppend(grid: seq<Row>, block: seq<Row>)
    ensures Overlay(grid, |grid|, block) == grid + block
  {
    var r := Overlay(grid, |grid|, block);
    forall i | 0 <= i < |r|
      ensures r[i] == (grid + block)[i]
    {
      if i >= |grid| {
        assert block[i - |grid|] + Beyond([], |block[i - |grid|]|) == block[i - |grid|];
      }
    }
  }

  /** Writing a header over the first row keeps that row's cells beyond it
      and every later row. */
  lemma OverlayHeader(grid: seq<Row>, header: Row)
    ensures Overlay(grid, 0, [header])
      == if grid == [] then [header] else [header + Beyond(grid[0], |header|)] + grid[1..]
  {
    var r := Overlay(grid, 0, [header]);
    var e := if grid == [] then [header] else [header + Beyond(grid[0], |header|)] + grid[1..];
    assert |r| == |e|;
    forall i | 0 <= i < |r|
      ensures r[i] == e[i]
    {
      if i == 0 && grid == [] {
        assert header + Beyond([], |header|) == header;
      }
    }
  }

  /** One sheet of a spreadsheet. */
  class Sheet {
    var values: seq<Row>

    /** `insertSheet(name)`: a new, empty sheet. */
    constructor ()
      ensures values == []
    {
      values := [];
    }

    /** `clear()`: no content left. */
    method Clear()
      modifies this
      ensures values == []
    {
      values := [];
    }

    /** `getRange(top + 1, 1, |block|, width).setValues(block)`; a range must
        have a row. */
    method SetValues(top: nat, block: seq<Row>)
      requires block != []
      modifies this
      ensures values == Overlay(old(values), top, block)
    {
      values := Overlay(values, top, block);
    }

    /** `getRange(first + 1, 1, lastRow - first, lastColumn).clearContent()`:
        the rows from `first` on lose their content, so the sheet ends before
        them. */
    method ClearContentFrom(first: nat)
      modifies this
      ensures values == old(values)[..if first <= |old(values)| then first else |old(values)|]
    {
      if first <= |values| {
        values := values[..first];
      }
    }
  }

  /** A spreadsheet: its sheets by name. */
  class Spreadsheet {
    var sheets: map<string, Sheet>

    constructor (sheets: map<string, Sheet>)
      ensures this.sheets == sheets
    {
      this.sheets := sheets;
    }

    /** `getSheetByName(name)`: `null` when there is none. */
    function SheetByName(name: string): (s: Sheet?)
      reads this
      ensures s != null <==> name in sheets
      ensures s != null ==> s == sheets[name]
    {
      if name in sheets then sheets[name] else null
    }

    /** The rows of the sheet so named, `None` when there is none. */
    function Values(name: string): (v: Option<seq<Row>>)
      reads this, sheets.Values
      ensures v.Some? <==> name in sheets
    {
      if name in sheets then Some(sheets[name].values) else None
    }

    /** Each name has a sheet of its own, as in a spreadsheet. */
    predicate Apart()
      reads this
    {
      forall a, b :: a in sheets && b in sheets && a != b ==> sheets[a] != sheets[b]
    }

    /** The sheets with these names. */
    function Named(names: set<string>): set<Sheet>
      reads this
    {
      set n | n in names && n in sheets :: sheets[n]
    }

    /** `insertSheet(name)`: a new, empty sheet under that name. */
    method InsertSheet(name: string) returns (s: Sheet)
      modifies this
      ensures fresh(s) && s.values == []
      ensures sheets == old(sheets)[name := s]
    {
      s := new Sheet();
      sheets := sheets[name := s];
    }
  }

  // ---------------------------------------------------------------- students in a sheet

  /** A student as the scripts read and write it (`class` is the class name). */
  datatype SheetStudent = SheetStudent(
    id: string, name: string, nickname: string, cls: string, phone: string,
    email: string, status: string, remarks: string, createdAt: string)

  /** The header row every script writes. */
  const StudentHeader: Row := ["id", "name", "nickname", "class", "phone", "email", "status", "remarks", "createdAt"]

  /** The status a student without one is given: enrolled. */
  const Enrolled := "在讀"

  /** The row `syncStudents` writes for a student: each field or empty, the
      status defaulting to enrolled and the creation time to `createdAt`. */
  function StudentRow(s: SheetStudent, createdAt: string): (r: Row)
    ensures |r| == |StudentHeader|
  {
    [s.id, s.name, s.nickname, s.cls, s.phone, s.email, Or(s.status, Enrolled), s.remarks, Or(s.createdAt, createdAt)]
  }

  /** `StudentRow` as the function a `map` over the students applies. */
  function WriteStudent(createdAt: string): SheetStudent -> Row {
    (s: SheetStudent) => StudentRow(s, createdAt)
  }

  /** The student `getStudents` builds from a row: columns A to I, with the
      id, status and creation time defaulting when the cell is empty. */
  function StudentOfRow(row: Row, id: string, createdAt: string): SheetStudent {
    SheetStudent(Or(CellAt(row, 0), id), CellAt(row, 1), CellAt(row, 2), CellAt(row, 3), CellAt(row, 4),
      CellAt(row, 5), Or(CellAt(row, 6), Enrolled), CellAt(row, 7), Or(CellAt(row, 8), createdAt))
  }

  /** The student as a sheet keeps it: the defaults filled in. */
  function Stored(s: SheetStudent, createdAt: string): SheetStudent {
    s.(status := Or(s.status, Enrolled), createdAt := Or(s.createdAt, createdAt))
  }

  /** A written row reads back as the stored student, whatever default the
      reader would use, once the writer's default time is not empty. */
  lemma StudentRowReadsBack(s: SheetStudent, createdAt: string, id: string, readAt: string)
    requires createdAt != ""
    ensures StudentOfRow(StudentRow(s, createdAt), id, readAt) == Stored(s, createdAt).(id := Or(s.id, id))
  {
  }

  /** Storing is idempotent, and a student with a status and a creation time
      is stored as it is. */
  lemma StoredTwice(s: SheetStudent, createdAt: string)
    requires createdAt != ""
    ensures Stored(Stored(s, createdAt), createdAt) == Stored(s, createdAt)
    ensures s.status != "" && s.createdAt != "" ==> Stored(s, createdAt) == s
    ensures Stored(s, createdAt).status != "" && Stored(s, createdAt).createdAt != ""
  {
  }

  // ---------------------------------------------------------------- reading rows

  /** The `for` loop of a reader: each row passing `keep`, read by `read`, in
      sheet order. */
  function KeepRows<T>(rows: seq<Row>, keep: Row -> bool, read: Row -> T): (r: seq<T>)
    ensures |r| <= |rows|
  {
    if rows == [] then []
    else
      var last := rows[|rows| - 1];
      KeepRows(rows[..|rows| - 1], keep, read) + (if keep(last) then [read(last)] else [])
  }

  /** One more turn of a reader's loop over the rows below the header. */
  lemma KeepRowsNext<T>(data: seq<Row>, i: nat, keep: Row -> bool, read: Row -> T)
    requires 1 <= i < |data|
    ensures KeepRows(data[1..i + 1], keep, read)
      == KeepRows(data[1..i], keep, read) + (if keep(data[i]) then [read(data[i])] else [])
  {
    assert data[1..i + 1][..i - 1] == data[1..i];
  }

  /** What a reader lists is what it reads from the rows it keeps. */
  lemma {:induction false} KeepRowsMembers<T>(rows: seq<Row>, keep: Row -> bool, read: Row -> T, x: T)
    ensures x in KeepRows(rows, keep, read) <==> exists i :: 0 <= i < |rows| && keep(rows[i]) && read(rows[i]) == x
  {
    if rows != [] {
      var init := rows[..|rows| - 1];
      KeepRowsMembers(init, keep, read, x);
      if exists i :: 0 <= i < |rows| && keep(rows[i]) && read(rows[i]) == x {
        var i :| 0 <= i < |rows| && keep(rows[i]) && read(rows[i]) == x;
        if i < |rows| - 1 {
          assert init[i] == rows[i];
        }
      }
      if exists i :: 0 <= i < |init| && keep(init[i]) && read(init[i]) == x {
        var i :| 0 <= i < |init| && keep(init[i]) && read(init[i]) == x;
        assert rows[i] == init[i];
      }
    }
  }

  /** The same, for the rows below a header row. */
  lemma KeepRowsBelowHeader<T>(values: seq<Row>, keep: Row -> bool, read: Row -> T, x: T)
    requires values != []
    ensures x in KeepRows(values[1..], keep, read)
      <==> exists i :: 1 <= i < |values| && keep(values[i]) && read(values[i]) == x
  {
    var rows := values[1..];
    KeepRowsMembers(rows, keep, read, x);
    if exists i :: 1 <= i < |values| && keep(values[i]) && read(values[i]) == x {
      var i :| 1 <= i < |values| && keep(values[i]) && read(values[i]) == x;
      assert rows[i - 1] == values[i];
    }
    if exists i :: 0 <= i < |rows| && keep(rows[i]) && read(rows[i]) == x {
      var i :| 0 <= i < |rows| && keep(rows[i]) && read(rows[i]) == x;
      assert values[i + 1] == rows[i];
    }
  }

  /** The loop is a `filter` followed by a `map`. */
  lemma {:induction false} KeepRowsIsFilterMap<T>(rows: seq<Row>, keep: Row -> bool, read: Row -> T)
    ensures KeepRows(rows, keep, read) == Seqs.Map(Seqs.Filter(rows, keep), read)
  {
    if rows != [] {
      var init := rows[..|rows| - 1];
      var last := rows[|rows| - 1];
      KeepRowsIsFilterMap(init, keep, read);
      assert rows == init + [last];
      Seqs.FilterAppend(init, [last], keep);
      assert Seqs.Filter([last], keep) == if keep(last) then [last] else [];
    }
  }

  /** Reading rows written from a list reads the list back, filtered. */
  lemma {:induction false} KeepMappedRows<T(!new), U>(xs: seq<T>, write: T -> Row, keep: Row -> bool, read: Row -> U,
                                                  kept: T -> bool, back: T -> U)
    requires forall x :: keep(write(x)) == kept(x)
    requires forall x :: kept(x) ==> read(write(x)) == back(x)
    ensures KeepRows(Seqs.Map(xs, write), keep, read) == Seqs.Map(Seqs.Filter(xs, kept), back)
  {
    if xs != [] {
      var init := xs[..|xs| - 1];
      var last := xs[|xs| - 1];
      KeepMappedRows(init, write, keep, read, kept, back);
      assert xs == init + [last];
      var rows := Seqs.Map(xs, write);
      assert rows[..|rows| - 1] == Seqs.Map(init, write);
      assert rows[|rows| - 1] == write(last);
      Seqs.MapFilterSnoc(init, last, kept, back);
    }
  }

  /** The trimmed text of column B, the class names the readers collect. */
  function ColumnB(row: Row): string {
    Text.Trim(CellAt(row, 1))
  }

  /** `if (row[0])`: the row has an id. */
  predicate HasId(row: Row) {
    CellAt(row, 0) != ""
  }

  /** `className && className.trim()`: column B holds a name. */
  predicate HasClassName(row: Row) {
    ColumnB(row) != ""
  }

  /** A turn of a loop collecting the class names of the rows below the
      header. */
  lemma ClassRowStep(data: seq<Row>, i: nat, names: seq<string>)
    requires 1 <= i < |data| && names == KeepRows(data[1..i], HasClassName, ColumnB)
    ensures KeepRows(data[1..i + 1], HasClassName, ColumnB)
      == if ColumnB(data[i]) != "" then names + [ColumnB(data[i])] else names
  {
    KeepRowsNext(data, i, HasClassName, ColumnB);
    assert names + [] == names;
  }

  /** A class of the timetable sheet, under the key each script uses for
      its day: `dayOfWeek` in one, `weekday` in another. */
  datatype TimetableEntry =
    | ByDayOfWeek(id: string, name: string, startTime: string, endTime: string, dayOfWeek: string, description: string)
    | ByWeekday(id: string, name: string, startTime: string, endTime: string, weekday: string, description: string)

  // ---------------------------------------------------------------- replies

  /** The JSON object a handler answers with. A `count` that the reply does
      not carry is `None`; the free-text `message` some replies carry is kept. */
  datatype Reply =
    | StudentList(students: seq<SheetStudent>, count: int)
    | ClassList(classes: seq<string>, count: int)
    | ScheduleList(schedule: seq<TimetableEntry>, count: int)
    | RecordList(records: seq<D.Dict<string>>, total: Option<int>, message: string)
    | Synced(message: string, synced: Option<int>)
    | Failure(error: string)

  /** `error.toString()` of `new Error(message)`. */
  function Thrown(message: string): string {
    "Error: " + message
  }

  /** How `error.toString()` of an error the engine raises begins: a
      property read of `undefined` raises a `TypeError`, and `JSON.parse` of
      text that is no JSON a `SyntaxError`. The rest of the text is the
      engine's wording. */
  const TypeError := "TypeError"
  const SyntaxError := "SyntaxError"

  /** A post request as the handlers see it: no `postData` at all, a
      `postData` whose `contents` is empty or missing, contents `JSON.parse`
      rejects, or the parsed object (`None` for a property that is missing
      or holds no array). */
  datatype Post<S, A> =
    | NoContents
    | EmptyContents
    | Malformed
    | Body(action: Option<string>, students: Option<seq<S>>, attendance: Option<seq<A>>)

  /** `'' + action` for the error message: `undefined` when the request has none. */
  function ActionText(action: Option<string>): string {
    action.GetOr("undefined")
  }

  /** `成功同步 N 筆學員資料`. */
  function SyncedStudentsMessage(n: nat): string {
    "成功同步 " + Text.NatToString(n) + " 筆學員資料"
  }
}
