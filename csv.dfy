/** The CSV dialect shared by the class, student and attendance exports and
    imports: every field is wrapped in double quotes, fields are joined with
    `,` and rows with `\n`; reading splits on `\n`, then on `,`, removes every
    `"` from each piece and trims it. There is no escaping, so a field holding
    `,`, `"` or a line break does not survive the trip. */
module Csv {
  import Text
  import Seqs

  /** `parts.join(sep)`; the empty array joins to "". */
  function Join(parts: seq<string>, sep: char): (r: string)
    ensures |parts| == 1 ==> r == parts[0]
  {
    if parts == [] then ""
    else if |parts| == 1 then parts[0]
    else parts[0] + [sep] + Join(parts[1..], sep)
  }

  /** `"${field}"`. */
  function Quote(field: string): string {
    "\"" + field + "\""
  }

  /** One row: `row.map(field => `"${field}"`).join(',')`. */
  function EncodeRow(fields: seq<string>): string {
    Join(Seqs.Map(fields, Quote), ',')
  }

  /** The whole file: `rows.map(EncodeRow).join('\n')`. */
  function Encode(rows: seq<seq<string>>): string {
    Join(Seqs.Map(rows, EncodeRow), '\n')
  }

  /** `v.replace(/"/g, '')`. */
  function StripQuotes(s: string): (r: string)
    ensures '"' !in r
    ensures forall c :: c in r ==> c in s
  {
    if s == [] then ""
    else if s[0] == '"' then StripQuotes(s[1..])
    else [s[0]] + StripQuotes(s[1..])
  }

  /** `line.split(',').map(v => v.replace(/"/g, '').trim())`. */
  function DecodeRow(line: string): (r: seq<string>)
    ensures |r| >= 1
  {
    Seqs.Map(Text.Split(line, ','), (v: string) => Text.Trim(StripQuotes(v)))
  }

  /** A field the dialect carries unchanged: no separator, no quote, and no
      white space at either end for `trim` to take. */
  predicate PlainField(f: string) {
    ',' !in f && '"' !in f && '\n' !in f
    && (f == [] || (!Text.IsSpace(f[0]) && !Text.IsSpace(f[|f| - 1])))
  }

  lemma {:induction false} StripQuotesNone(s: string)
    requires '"' !in s
    ensures StripQuotes(s) == s
  {
    if s != [] {
      StripQuotesNone(s[1..]);
      assert [s[0]] + s[1..] == s;
    }
  }

  lemma {:induction false} StripQuotesAppend(a: string, b: string)
    ensures StripQuotes(a + b) == StripQuotes(a) + StripQuotes(b)
  {
    if a == [] {
      assert a + b == b;
    } else {
      assert (a + b)[1..] == a[1..] + b;
      StripQuotesAppend(a[1..], b);
    }
  }

  /** A separator that occurs in no part occurs in the join only between parts. */
  lemma {:induction false} JoinAvoids(parts: seq<string>, sep: char, c: char)
    requires c != sep
    requires forall i :: 0 <= i < |parts| ==> c !in parts[i]
    ensures c !in Join(parts, sep)
  {
    if |parts| > 1 {
      JoinAvoids(parts[1..], sep, c);
    }
  }

  /** Splitting a join on a separator no part contains gives the parts back. */
  lemma {:induction false} SplitJoin(parts: seq<string>, sep: char)
    requires |parts| >= 1
    requires forall i :: 0 <= i < |parts| ==> sep !in parts[i]
    ensures Text.Split(Join(parts, sep), sep) == parts
  {
    if |parts| == 1 {
      Text.SplitNoSeparator(parts[0], sep);
    } else {
      SplitJoin(parts[1..], sep);
      Text.SplitAtSeparator(parts[0], sep, Join(parts[1..], sep));
      assert [parts[0]] + parts[1..] == parts;
    }
  }

  /** A quoted plain field reads back as itself. */
  lemma UnquotePlain(f: string)
    requires PlainField(f)
    ensures Text.Trim(StripQuotes(Quote(f))) == f
  {
    var q := "\"";
    assert StripQuotes(q) == [] by {
      assert q[1..] == [];
    }
    StripQuotesAppend(q + f, q);
    StripQuotesAppend(q, f);
    StripQuotesNone(f);
    assert StripQuotes(Quote(f)) == f;
    Text.TrimOfTrimmed(f);
  }

  /** A row of plain fields reads back as the same fields. */
  lemma DecodeEncodeRow(fields: seq<string>)
    requires |fields| >= 1
    requires forall i :: 0 <= i < |fields| ==> PlainField(fields[i])
    ensures DecodeRow(EncodeRow(fields)) == fields
  {
    var quoted := Seqs.Map(fields, Quote);
    forall i | 0 <= i < |quoted|
      ensures ',' !in quoted[i]
    {
      assert quoted[i] == "\"" + fields[i] + "\"";
    }
    SplitJoin(quoted, ',');
    var r := DecodeRow(EncodeRow(fields));
    forall i | 0 <= i < |fields|
      ensures r[i] == fields[i]
    {
      UnquotePlain(fields[i]);
    }
  }

  /** An encoded row of fields without line breaks has no line break. */
  lemma EncodeRowOneLine(fields: seq<string>)
    requires forall i :: 0 <= i < |fields| ==> '\n' !in fields[i]
    ensures '\n' !in EncodeRow(fields)
  {
    var quoted := Seqs.Map(fields, Quote);
    forall i | 0 <= i < |quoted|
      ensures '\n' !in quoted[i]
    {
      assert quoted[i] == "\"" + fields[i] + "\"";
    }
    JoinAvoids(quoted, ',', '\n');
  }

  /** An encoded row of at least one field is never a blank line: it opens
      with a quote. */
  lemma EncodedRowNotBlank(fields: seq<string>)
    requires |fields| >= 1
    ensures !Text.IsBlank(EncodeRow(fields))
  {
    var quoted := Seqs.Map(fields, Quote);
    var r := EncodeRow(fields);
    assert quoted[0] == "\"" + fields[0] + "\"";
    assert r[0] == '"' by {
      if |quoted| > 1 {
        assert r == quoted[0] + [','] + Join(quoted[1..], ',');
      }
    }
    Text.BlankIffAllSpace(r);
  }

  /** The lines of an encoded file are the encoded rows, in order. */
  lemma EncodeLines(rows: seq<seq<string>>)
    requires |rows| >= 1
    requires forall r, i :: r in rows && 0 <= i < |r| ==> '\n' !in r[i]
    ensures Text.Split(Encode(rows), '\n') == Seqs.Map(rows, EncodeRow)
  {
    var lines := Seqs.Map(rows, EncodeRow);
    forall k | 0 <= k < |lines|
      ensures '\n' !in lines[k]
    {
      EncodeRowOneLine(rows[k]);
    }
    SplitJoin(lines, '\n');
  }

  /** A file of rows of plain fields reads back row by row. */
  lemma DecodeEncodeFile(rows: seq<seq<string>>)
    requires |rows| >= 1
    requires forall k :: 0 <= k < |rows| ==> |rows[k]| >= 1
    requires forall k, i :: 0 <= k < |rows| && 0 <= i < |rows[k]| ==> PlainField(rows[k][i])
    ensures var lines := Text.Split(Encode(rows), '\n');
      |lines| == |rows| && forall k :: 0 <= k < |rows| ==> DecodeRow(lines[k]) == rows[k]
  {
    forall r, i | r in rows && 0 <= i < |r|
      ensures '\n' !in r[i]
    {
      var k :| 0 <= k < |rows| && rows[k] == r;
      assert PlainField(rows[k][i]);
    }
    EncodeLines(rows);
    var lines := Text.Split(Encode(rows), '\n');
    forall k | 0 <= k < |rows|
      ensures DecodeRow(lines[k]) == rows[k]
    {
      assert lines[k] == EncodeRow(rows[k]);
      DecodeEncodeRow(rows[k]);
    }
  }

  /** A file of plain rows under a plain header reads back line by line. */
  lemma TableReadsBack(header: seq<string>, rows: seq<seq<string>>)
    requires |header| >= 1 && forall i :: 0 <= i < |header| ==> PlainField(header[i])
    requires forall j :: 0 <= j < |rows| ==> |rows[j]| >= 1
    requires forall j, i :: 0 <= j < |rows| && 0 <= i < |rows[j]| ==> PlainField(rows[j][i])
    ensures var lines := Text.Split(Encode([header] + rows), '\n');
      |lines| == |rows| + 1 && DecodeRow(lines[0]) == header
      && forall j :: 0 <= j < |rows| ==> DecodeRow(lines[j + 1]) == rows[j]
  {
    var all := [header] + rows;
    assert forall k :: 1 <= k < |all| ==> all[k] == rows[k - 1];
    DecodeEncodeFile(all);
    assert forall j :: 0 <= j < |rows| ==> all[j + 1] == rows[j];
  }
}
