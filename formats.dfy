/** qimba/formats.py: a sample, and the sample sheet that holds samples in insertion order,
    loads them from a tab-separated table, writes them back, and sorts them. A table is given
    as its rows of cells, the way the `csv` reader yields them; file paths are kept as the
    text they were given. */
module Formats {
  import opened Wrappers
  import opened Text
  import Sorting

  /** A sample: its id, forward read file, optional reverse read file and free-form
      attributes (`attributes or {}` makes a missing map the empty one). */
  datatype Sample = Sample(id: string, forward: string, reverse: Option<string>, attributes: map<string, string>)
  {
    /** `Sample.get_attr`. */
    function GetAttr(attr: string): Option<string>
    {
      if attr in attributes then Some(attributes[attr]) else None
    }

    /** `str(sample)`: id, forward and reverse (empty when there is none), tab-separated. */
    function Line(): string
    {
      Join("\t", [id, forward, reverse.GetOr("")])
    }
  }

  /** The exceptions the sheet raises. */
  datatype SheetError =
    | DuplicateSample(id: string)                       // ValueError from add_sample
    | SampleNotFound(id: string)                        // KeyError
    | EmptyFile                                         // ValueError: no header line
    | NoHeaderCell                                      // IndexError: `headers[0]` of an empty header line
    | NoIdColumn                                        // ValueError: blank first header
    | MissingColumns(missing: set<string>)              // ValueError
    | WrongWidth(line: nat, expected: nat, got: nat)    // ValueError, with the file's line number
    | InvalidSortCriterion(criterion: string)           // ValueError from sort

  /** `SortBy`. */
  datatype SortKey = BySampleId | ByForwardRead

  const Required: set<string> := {"Forward", "Reverse"}

  /** The header written when the sheet has no columns. */
  const DefaultColumns: seq<string> := ["SampleID", "Forward", "Reverse"]

  function Ids(ss: seq<Sample>): (ids: seq<string>)
    ensures |ids| == |ss|
    ensures forall i :: 0 <= i < |ss| ==> ids[i] == ss[i].id
  {
    seq(|ss|, i requires 0 <= i < |ss| => ss[i].id)
  }

  /** The dictionary's keys: no id is held twice. */
  ghost predicate DistinctIds(ss: seq<Sample>)
  {
    forall i, j :: 0 <= i < j < |ss| ==> ss[i].id != ss[j].id
  }

  /** Where the sample with id `id` sits, if anywhere. */
  function Position(ss: seq<Sample>, id: string): (r: Option<nat>)
    ensures r.Some? ==> r.value < |ss| && ss[r.value].id == id
    ensures r.None? <==> id !in Ids(ss)
    decreases |ss|
  {
    if |ss| == 0 then None
    else if ss[|ss| - 1].id == id then Some(|ss| - 1)
    else
      assert Ids(ss) == Ids(ss[..|ss| - 1]) + [ss[|ss| - 1].id];
      Position(ss[..|ss| - 1], id)
  }

  /** Deleting the entry at `k` keeps the others, in order, and no id twice. */
  lemma RemoveKeepsOthers(ss: seq<Sample>, k: nat)
    requires DistinctIds(ss) && k < |ss|
    ensures var rest := ss[..k] + ss[k + 1..];
      DistinctIds(rest) && |rest| == |ss| - 1
      && ss[k].id !in Ids(rest)
      && forall x :: x != ss[k].id ==> (x in Ids(rest) <==> x in Ids(ss))
  {
    var rest := ss[..k] + ss[k + 1..];
    forall x | x in Ids(ss) && x != ss[k].id
      ensures x in Ids(rest)
    {
      var i :| 0 <= i < |ss| && Ids(ss)[i] == x;
      if i < k {
        assert rest[i] == ss[i];
      } else {
        assert rest[i - 1] == ss[i];
      }
    }
    forall x | x in Ids(rest)
      ensures x in Ids(ss) && x != ss[k].id
    {
      var i :| 0 <= i < |rest| && Ids(rest)[i] == x;
      if i < k {
        assert rest[i] == ss[i];
      } else {
        assert rest[i] == ss[i + 1];
      }
    }
  }

  /** `get_samples_by_attr`: the ids whose sample has attribute `attr` equal to `value`, in
      sheet order. */
  function IdsWithAttr(ss: seq<Sample>, attr: string, value: string): seq<string>
    decreases |ss|
  {
    if |ss| == 0 then []
    else
      var s := ss[|ss| - 1];
      IdsWithAttr(ss[..|ss| - 1], attr, value) + (if s.GetAttr(attr) == Some(value) then [s.id] else [])
  }

  /** An id is listed exactly when one of its samples has the wanted attribute value; a sample
      without the attribute never matches. */
  lemma {:induction false} IdsWithAttrExact(ss: seq<Sample>, attr: string, value: string)
    ensures forall x :: x in IdsWithAttr(ss, attr, value) <==>
      (exists i :: 0 <= i < |ss| && ss[i].id == x && attr in ss[i].attributes && ss[i].attributes[attr] == value)
    ensures |IdsWithAttr(ss, attr, value)| <= |ss|
    decreases |ss|
  {
    if |ss| > 0 {
      var p := ss[..|ss| - 1];
      IdsWithAttrExact(p, attr, value);
      forall x | x in IdsWithAttr(ss, attr, value)
        ensures exists i :: 0 <= i < |ss| && ss[i].id == x && attr in ss[i].attributes && ss[i].attributes[attr] == value
      {
        if x in IdsWithAttr(p, attr, value) {
          var i :| 0 <= i < |p| && p[i].id == x && attr in p[i].attributes && p[i].attributes[attr] == value;
          assert ss[i] == p[i];
        }
      }
      forall x | exists i :: 0 <= i < |ss| && ss[i].id == x && attr in ss[i].attributes && ss[i].attributes[attr] == value
        ensures x in IdsWithAttr(ss, attr, value)
      {
        var i :| 0 <= i < |ss| && ss[i].id == x && attr in ss[i].attributes && ss[i].attributes[attr] == value;
        if i < |p| {
          assert p[i] == ss[i];
        }
      }
    }
  }

  /** Where in the sheet the samples `get_samples_by_attr` lists sit, in sheet order. */
  ghost function MatchPositions(ss: seq<Sample>, attr: string, value: string): seq<nat>
    decreases |ss|
  {
    if |ss| == 0 then []
    else
      var n := |ss| - 1;
      MatchPositions(ss[..n], attr, value) + (if ss[n].GetAttr(attr) == Some(value) then [n] else [])
  }

  /** The listed ids sit at increasing positions of matching samples. */
  lemma {:induction false} MatchPositionsAt(ss: seq<Sample>, attr: string, value: string)
    ensures var r, pos := IdsWithAttr(ss, attr, value), MatchPositions(ss, attr, value);
      |pos| == |r|
      && (forall i :: 0 <= i < |pos| ==> pos[i] < |ss| && ss[pos[i]].id == r[i] && ss[pos[i]].GetAttr(attr) == Some(value))
      && (forall i, j :: 0 <= i < j < |pos| ==> pos[i] < pos[j])
    decreases |ss|
  {
    if |ss| > 0 {
      var n := |ss| - 1;
      MatchPositionsAt(ss[..n], attr, value);
      var pos := MatchPositions(ss[..n], attr, value);
      forall i | 0 <= i < |pos| ensures ss[..n][pos[i]] == ss[pos[i]] {
      }
    }
  }

  /** `get_samples_by_attr` lists ids in the order their samples sit in the sheet, and lists
      each id once when the sheet holds each id once. */
  lemma IdsWithAttrOrder(ss: seq<Sample>, attr: string, value: string)
    ensures var r := IdsWithAttr(ss, attr, value);
      forall i, j :: 0 <= i < j < |r| ==>
        exists p, q :: 0 <= p < q < |ss| && ss[p].id == r[i] && ss[q].id == r[j]
    ensures var r := IdsWithAttr(ss, attr, value);
      DistinctIds(ss) ==> forall i, j :: 0 <= i < j < |r| ==> r[i] != r[j]
  {
    var r, pos := IdsWithAttr(ss, attr, value), MatchPositions(ss, attr, value);
    MatchPositionsAt(ss, attr, value);
    forall i, j | 0 <= i < j < |r|
      ensures exists p, q :: 0 <= p < q < |ss| && ss[p].id == r[i] && ss[q].id == r[j]
    {
      assert pos[i] < pos[j] && ss[pos[i]].id == r[i] && ss[pos[j]].id == r[j];
    }
  }

  // ---------------------------------------------------------------------------------------
  // Loading

  /** The header names with surrounding whitespace stripped. */
  function Names(headers: seq<string>): (names: seq<string>)
    ensures |names| == |headers|
  {
    seq(|headers|, i requires 0 <= i < |headers| => Strip(headers[i]))
  }

  /** `{col.strip(): idx for idx, col in enumerate(headers)}`, given the stripped names: each
      name maps to a column carrying it, and to the last such column when the name repeats. */
  function ColumnIndex(names: seq<string>): (m: map<string, nat>)
    ensures forall c :: c in m ==> m[c] < |names| && names[m[c]] == c
    ensures forall i :: 0 <= i < |names| ==> names[i] in m && i <= m[names[i]]
    decreases |names|
  {
    if |names| == 0 then map[]
    else ColumnIndex(names[..|names| - 1])[names[|names| - 1] := |names| - 1]
  }

  /** The column index names both required columns and only real columns. */
  ghost predicate IndexCovers(headers: seq<string>, m: map<string, nat>)
  {
    "Forward" in m && "Reverse" in m && forall c :: c in m ==> m[c] < |headers|
  }

  /** Once neither required column is missing, the index covers the header. */
  lemma ColumnIndexCovers(headers: seq<string>)
    requires Required - ColumnIndex(Names(headers)).Keys == {}
    ensures IndexCovers(headers, ColumnIndex(Names(headers)))
  {
    var m := ColumnIndex(Names(headers));
    assert |Names(headers)| == |headers|;
    assert "Forward" !in Required - m.Keys && "Reverse" !in Required - m.Keys;
  }

  /** The attribute columns of a data row: every indexed name except the required ones and
      the first header as written (unstripped). */
  function AttributeNames(headers: seq<string>, m: map<string, nat>): set<string>
    requires |headers| > 0
  {
    set c | c in m && c !in Required && c != headers[0]
  }

  /** The sample a data row of the right width describes. */
  function RowSample(headers: seq<string>, m: map<string, nat>, row: seq<string>): Sample
    requires |headers| > 0 && |row| == |headers| && IndexCovers(headers, m)
  {
    var rev := row[m["Reverse"]];
    Sample(Strip(row[0]), row[m["Forward"]], if IsBlank(rev) then None else Some(rev),
      map c | c in AttributeNames(headers, m) :: row[m[c]])
  }

  /** One data row, read after the samples `ss`: a row of the wrong width raises, a row with a
      blank id is skipped, a repeated id raises. */
  function ReadRow(headers: seq<string>, m: map<string, nat>, ss: seq<Sample>, row: seq<string>, line: nat)
    : Result<seq<Sample>, SheetError>
    requires |headers| > 0 && IndexCovers(headers, m)
  {
    if |row| != |headers| then Err(WrongWidth(line, |headers|, |row|))
    else if IsBlank(row[0]) then Ok(ss)
    else
      var s := RowSample(headers, m, row);
      if s.id in Ids(ss) then Err(DuplicateSample(s.id)) else Ok(ss + [s])
  }

  /** The data rows, read in order; the row at index `k` is line `k + 2` of the file. */
  function LoadRows(headers: seq<string>, m: map<string, nat>, rows: seq<seq<string>>): Result<seq<Sample>, SheetError>
    requires |headers| > 0 && IndexCovers(headers, m)
    decreases |rows|
  {
    if |rows| == 0 then Ok([])
    else
      match LoadRows(headers, m, rows[..|rows| - 1])
      case Err(e) => Err(e)
      case Ok(ss) => ReadRow(headers, m, ss, rows[|rows| - 1], |rows| + 1)
  }

  datatype Loaded = Loaded(columns: seq<string>, samples: seq<Sample>)

  /** `SampleSheet.load_from_file` on the rows of the file. */
  function Load(table: seq<seq<string>>): Result<Loaded, SheetError>
  {
    if |table| == 0 then Err(EmptyFile)
    else
      var headers := table[0];
      if |headers| == 0 then Err(NoHeaderCell)
      else if IsBlank(headers[0]) then Err(NoIdColumn)
      else
        var m := ColumnIndex(Names(headers));
        var missing := Required - m.Keys;
        if missing != {} then Err(MissingColumns(missing))
        else
          ColumnIndexCovers(headers);
          match LoadRows(headers, m, table[1..])
          case Err(e) => Err(e)
          case Ok(ss) => Ok(Loaded(headers, ss))
  }

  /** Reading one more row. */
  lemma LoadRowsNext(headers: seq<string>, m: map<string, nat>, rows: seq<seq<string>>, k: nat)
    requires |headers| > 0 && IndexCovers(headers, m)
    requires k < |rows| && LoadRows(headers, m, rows[..k]).Ok?
    ensures LoadRows(headers, m, rows[..k + 1]) == ReadRow(headers, m, LoadRows(headers, m, rows[..k]).value, rows[k], k + 2)
  {
    assert rows[..k + 1][..k] == rows[..k];
  }

  /** Once a prefix of the rows raises, the whole table raises the same way. */
  lemma {:induction false} LoadRowsStops(headers: seq<string>, m: map<string, nat>, rows: seq<seq<string>>, k: nat)
    requires |headers| > 0 && IndexCovers(headers, m)
    requires k <= |rows| && LoadRows(headers, m, rows[..k]).Err?
    ensures LoadRows(headers, m, rows) == LoadRows(headers, m, rows[..k])
    decreases |rows| - k
  {
    if k < |rows| {
      assert rows[..k + 1][..k] == rows[..k];
      LoadRowsStops(headers, m, rows, k + 1);
    } else {
      assert rows[..k] == rows;
    }
  }

  /** A sample as loading leaves it: a trimmed, non-blank id; a reverse file that is absent
      rather than blank; and no attribute named after a required column or after the
      (unstripped) first header. */
  ghost predicate LoadedSample(first: string, s: Sample)
  {
    s.id != "" && Trimmed(s.id)
    && (s.reverse.Some? ==> !IsBlank(s.reverse.value))
    && "Forward" !in s.attributes && "Reverse" !in s.attributes && first !in s.attributes
  }

  lemma RowSampleShape(headers: seq<string>, m: map<string, nat>, row: seq<string>)
    requires |headers| > 0 && |row| == |headers| && IndexCovers(headers, m)
    requires !IsBlank(row[0])
    ensures LoadedSample(headers[0], RowSample(headers, m, row))
  {
    BlankIffStripEmpty(row[0]);
    StripTrimmed(row[0]);
  }

  /** Reading one row keeps the ids distinct and every sample as loading leaves it. */
  lemma ReadRowShape(headers: seq<string>, m: map<string, nat>, ss: seq<Sample>, row: seq<string>, line: nat)
    requires |headers| > 0 && IndexCovers(headers, m)
    requires DistinctIds(ss) && forall i :: 0 <= i < |ss| ==> LoadedSample(headers[0], ss[i])
    requires ReadRow(headers, m, ss, row, line).Ok?
    ensures var ts := ReadRow(headers, m, ss, row, line).value;
      DistinctIds(ts) && |ts| <= |ss| + 1 && forall i :: 0 <= i < |ts| ==> LoadedSample(headers[0], ts[i])
  {
    if |row| == |headers| && !IsBlank(row[0]) {
      var s := RowSample(headers, m, row);
      RowSampleShape(headers, m, row);
      assert s.id !in Ids(ss);
      AppendShape(headers[0], ss, s);
    }
  }

  /** Appending a sample as loading leaves it, under a new id. */
  lemma AppendShape(first: string, ss: seq<Sample>, s: Sample)
    requires DistinctIds(ss) && forall i :: 0 <= i < |ss| ==> LoadedSample(first, ss[i])
    requires LoadedSample(first, s) && s.id !in Ids(ss)
    ensures DistinctIds(ss + [s]) && forall i :: 0 <= i < |ss + [s]| ==> LoadedSample(first, (ss + [s])[i])
  {
    var ts := ss + [s];
    forall i | 0 <= i < |ts| ensures LoadedSample(first, ts[i]) {
      if i < |ss| {
        assert ts[i] == ss[i];
      }
    }
    forall i, j | 0 <= i < j < |ts| ensures ts[i].id != ts[j].id {
      if j < |ss| {
        assert ts[i] == ss[i] && ts[j] == ss[j];
      } else {
        assert ts[i] == ss[i] && ts[j] == s;
        assert Ids(ss)[i] == ss[i].id;
      }
    }
  }

  /** What a loaded sheet holds: distinct ids, at most one sample per row, each sample as
      loading leaves it. */
  lemma {:induction false} LoadRowsShape(headers: seq<string>, m: map<string, nat>, rows: seq<seq<string>>)
    requires |headers| > 0 && IndexCovers(headers, m)
    requires LoadRows(headers, m, rows).Ok?
    ensures var ss := LoadRows(headers, m, rows).value;
      DistinctIds(ss) && |ss| <= |rows| && forall i :: 0 <= i < |ss| ==> LoadedSample(headers[0], ss[i])
    decreases |rows|
  {
    if |rows| > 0 {
      LoadRowsShape(headers, m, rows[..|rows| - 1]);
      var ss := LoadRows(headers, m, rows[..|rows| - 1]).value;
      ReadRowShape(headers, m, ss, rows[|rows| - 1], |rows| + 1);
    }
  }

  lemma ReadRowErrors(headers: seq<string>, m: map<string, nat>, ss: seq<Sample>, row: seq<string>, line: nat)
    requires |headers| > 0 && IndexCovers(headers, m)
    ensures |row| != |headers| ==> ReadRow(headers, m, ss, row, line) == Err(WrongWidth(line, |headers|, |row|))
    ensures |row| == |headers| && ReadRow(headers, m, ss, row, line).Err? ==>
      ReadRow(headers, m, ss, row, line).error.DuplicateSample?
  {
  }

  /** Loading succeeds only when every row has the header's width. */
  lemma {:induction false} LoadRowsOkWidth(headers: seq<string>, m: map<string, nat>, rows: seq<seq<string>>)
    requires |headers| > 0 && IndexCovers(headers, m)
    requires LoadRows(headers, m, rows).Ok?
    ensures forall k :: 0 <= k < |rows| ==> |rows[k]| == |headers|
    decreases |rows|
  {
    if |rows| > 0 {
      var p := rows[..|rows| - 1];
      LoadRowsOkWidth(headers, m, p);
      ReadRowErrors(headers, m, LoadRows(headers, m, p).value, rows[|rows| - 1], |rows| + 1);
      forall k | 0 <= k < |p|
        ensures |rows[k]| == |headers|
      {
        assert p[k] == rows[k];
      }
    }
  }

  /** A failed load is a repeated id, or names the first row of the wrong width by its line
      number. */
  lemma {:induction false} LoadRowsErrWidth(headers: seq<string>, m: map<string, nat>, rows: seq<seq<string>>)
    requires |headers| > 0 && IndexCovers(headers, m)
    requires LoadRows(headers, m, rows).Err?
    ensures var e := LoadRows(headers, m, rows).error;
      e.DuplicateSample?
      || (e.WrongWidth? && 2 <= e.line <= |rows| + 1
          && e.expected == |headers| && e.got == |rows[e.line - 2]| != |headers|
          && forall k :: 0 <= k < e.line - 2 ==> |rows[k]| == |headers|)
    decreases |rows|
  {
    var p := rows[..|rows| - 1];
    var q := LoadRows(headers, m, p);
    if q.Ok? {
      LoadRowsOkWidth(headers, m, p);
      ReadRowErrors(headers, m, q.value, rows[|rows| - 1], |rows| + 1);
      forall k | 0 <= k < |p|
        ensures |rows[k]| == |headers|
      {
        assert p[k] == rows[k];
      }
    } else {
      LoadRowsErrWidth(headers, m, p);
      if q.error.WrongWidth? {
        forall k | 0 <= k < q.error.line - 2
          ensures |rows[k]| == |headers|
        {
          assert p[k] == rows[k];
        }
        assert p[q.error.line - 2] == rows[q.error.line - 2];
      }
    }
  }

  /** Loading either raises or yields the first row as the columns and well-formed samples. */
  lemma LoadShape(table: seq<seq<string>>)
    requires Load(table).Ok?
    ensures |table| > 0 && Load(table).value.columns == table[0]
    ensures var ss := Load(table).value.samples;
      DistinctIds(ss) && |ss| < |table| && forall i :: 0 <= i < |ss| ==> LoadedSample(table[0][0], ss[i])
  {
    ColumnIndexCovers(table[0]);
    LoadRowsShape(table[0], ColumnIndex(Names(table[0])), table[1..]);
  }

  // ---------------------------------------------------------------------------------------
  // Rendering

  /** The cell written under column `col`: the forward file, the reverse file or nothing, or
      the attribute or nothing. */
  function Cell(col: string, s: Sample): string
  {
    if col == "Forward" then s.forward
    else if col == "Reverse" then s.reverse.GetOr("")
    else s.GetAttr(col).GetOr("")
  }

  function Rest(columns: seq<string>): seq<string>
  {
    if |columns| == 0 then [] else columns[1..]
  }

  /** A sample's row: its id, then a cell for every column after the first. */
  function RowOf(columns: seq<string>, s: Sample): (row: seq<string>)
  {
    [s.id] + seq(|Rest(columns)|, i requires 0 <= i < |Rest(columns)| => Cell(Rest(columns)[i], s))
  }

  /** The rows `save_to_file` writes: the columns, then one row per sample in sheet order. */
  function Saved(columns: seq<string>, ss: seq<Sample>): (rows: seq<seq<string>>)
    ensures |rows| == |ss| + 1
  {
    [columns] + seq(|ss|, i requires 0 <= i < |ss| => RowOf(columns, ss[i]))
  }

  /** The lines of `str(sheet)`: the tab-joined rows under the sheet's columns, or under a
      fixed three-column header when it has none. */
  function TextLines(columns: seq<string>, ss: seq<Sample>): (lines: seq<string>)
    ensures |lines| == |ss| + 1
  {
    if |columns| > 0 then
      [Join("\t", columns)] + seq(|ss|, i requires 0 <= i < |ss| => Join("\t", RowOf(columns, ss[i])))
    else
      [Join("\t", DefaultColumns)] + seq(|ss|, i requires 0 <= i < |ss| => ss[i].Line())
  }

  /** Every written row has one cell per column, the id first and each named cell under its
      column. */
  lemma RowOfCells(columns: seq<string>, s: Sample)
    requires |columns| > 0
    ensures |RowOf(columns, s)| == |columns| && RowOf(columns, s)[0] == s.id
    ensures forall i :: 1 <= i < |columns| ==> RowOf(columns, s)[i] == Cell(columns[i], s)
  {
  }

  /** `str(sheet)` shows the rows `save_to_file` writes; without columns it shows the rows
      written under `SampleID`, `Forward`, `Reverse`, each line being `str(sample)`. */
  lemma TextShowsSaved(columns: seq<string>, ss: seq<Sample>)
    ensures |columns| > 0 ==>
      forall i :: 0 <= i < |ss| + 1 ==> TextLines(columns, ss)[i] == Join("\t", Saved(columns, ss)[i])
    ensures |columns| == 0 ==>
      forall i :: 0 <= i < |ss| + 1 ==> TextLines(columns, ss)[i] == Join("\t", Saved(DefaultColumns, ss)[i])
  {
    var shown := if |columns| > 0 then columns else DefaultColumns;
    forall i | 0 <= i < |ss| + 1 ensures TextLines(columns, ss)[i] == Join("\t", Saved(shown, ss)[i]) {
      TextLineAt(columns, ss, i);
    }
  }

  lemma TextLineAt(columns: seq<string>, ss: seq<Sample>, i: nat)
    requires i < |ss| + 1
    ensures TextLines(columns, ss)[i] == Join("\t", Saved(if |columns| > 0 then columns else DefaultColumns, ss)[i])
  {
    var shown := if |columns| > 0 then columns else DefaultColumns;
    SavedAt(shown, ss, i);
    if 0 < i && |columns| == 0 {
      DefaultRow(ss[i - 1]);
    }
  }

  /** Showing one more sample adds its line. */
  lemma TextLinesNext(columns: seq<string>, ss: seq<Sample>, n: nat)
    requires n < |ss|
    ensures TextLines(columns, ss[..n + 1]) == TextLines(columns, ss[..n])
      + [if |columns| > 0 then Join("\t", RowOf(columns, ss[n])) else ss[n].Line()]
  {
    var a := TextLines(columns, ss[..n + 1]);
    var b := TextLines(columns, ss[..n]) + [if |columns| > 0 then Join("\t", RowOf(columns, ss[n])) else ss[n].Line()];
    assert |a| == |b|;
    forall i | 0 <= i < |a| ensures a[i] == b[i] {
      if 0 < i <= n {
        assert ss[..n + 1][i - 1] == ss[..n][i - 1];
      }
    }
    assert a == b;
  }

  lemma SavedAt(columns: seq<string>, ss: seq<Sample>, i: nat)
    requires i < |ss| + 1
    ensures Saved(columns, ss)[i] == if i == 0 then columns else RowOf(columns, ss[i - 1])
  {
  }

  /** Under the fixed three-column header a row is `str(sample)`'s fields. */
  lemma DefaultRow(s: Sample)
    ensures RowOf(DefaultColumns, s) == [s.id, s.forward, s.reverse.GetOr("")]
  {
    assert Rest(DefaultColumns) == ["Forward", "Reverse"];
  }

  /** `str(sample)` splits back into its id, forward and reverse when none holds a tab. */
  lemma SampleLineFields(s: Sample)
    requires '\t' !in s.id && '\t' !in s.forward && '\t' !in s.reverse.GetOr("")
    ensures Split(s.Line(), '\t') == [s.id, s.forward, s.reverse.GetOr("")]
  {
    SplitJoin([s.id, s.forward, s.reverse.GetOr("")], '\t');
  }

  // ---------------------------------------------------------------------------------------
  // Writing then loading

  /** Columns that load back as written: a non-blank first header that is not a required one,
      both required columns, and every name trimmed. A name may repeat: every column under
      that name holds the same cell, and loading reads the last of them. */
  ghost predicate SavableColumns(columns: seq<string>)
  {
    |columns| > 0 && columns[0] != "" && columns[0] !in Required
    && "Forward" in columns && "Reverse" in columns
    && (forall i :: 0 <= i < |columns| ==> Trimmed(columns[i]))
  }

  /** The names that load as attributes: those after the first that are neither required nor
      the first header itself. */
  function AttributeColumns(columns: seq<string>): set<string>
  {
    set i | 1 <= i < |columns| && columns[i] !in Required && columns[i] != columns[0] :: columns[i]
  }

  /** A sample that loads back as written: a non-blank trimmed id, a non-blank reverse file if
      any, and a value for exactly the attribute columns. */
  ghost predicate SavableSample(columns: seq<string>, s: Sample)
  {
    s.id != "" && Trimmed(s.id)
    && (s.reverse.Some? ==> !IsBlank(s.reverse.value))
    && s.attributes.Keys == AttributeColumns(columns)
  }

  /** Trimmed names are their own stripped names. */
  lemma NamesOfTrimmed(columns: seq<string>)
    requires forall i :: 0 <= i < |columns| ==> Trimmed(columns[i])
    ensures Names(columns) == columns
  {
    forall i | 0 <= i < |columns|
      ensures Names(columns)[i] == columns[i]
    {
      StripTrimmed(columns[i]);
    }
  }

  /** With no name repeated, the column index maps each name to its own column. */
  lemma ColumnIndexDistinct(names: seq<string>)
    requires forall i, j :: 0 <= i < j < |names| ==> names[i] != names[j]
    ensures forall i :: 0 <= i < |names| ==> names[i] in ColumnIndex(names) && ColumnIndex(names)[names[i]] == i
  {
    var m := ColumnIndex(names);
    forall i | 0 <= i < |names|
      ensures m[names[i]] == i
    {
      var j := m[names[i]];
      assert names[j] == names[i];
    }
  }

  /** `m` maps every name it holds to a column carrying that name, names both required
      columns, and leaves exactly the attribute columns as attributes. */
  ghost predicate NameIndexed(columns: seq<string>, m: map<string, nat>)
  {
    |columns| > 0 && IndexCovers(columns, m)
    && (forall c :: c in m ==> columns[m[c]] == c)
    && AttributeNames(columns, m) == AttributeColumns(columns)
  }

  /** Under savable columns, the header index maps each name to a column carrying it, repeated
      or not, and the attributes it reads are the attribute columns. */
  lemma ColumnIndexOfSavable(columns: seq<string>)
    requires SavableColumns(columns)
    ensures NameIndexed(columns, ColumnIndex(Names(columns)))
  {
    NamesOfTrimmed(columns);
    var m := ColumnIndex(columns);
    NameIndexedIn(columns, "Forward");
    NameIndexedIn(columns, "Reverse");
    AttributeNamesOfIndex(columns, m);
  }

  /** Every name of the header is a key of its index. */
  lemma NameIndexedIn(names: seq<string>, x: string)
    requires x in names
    ensures x in ColumnIndex(names)
  {
    var i :| 0 <= i < |names| && names[i] == x;
    assert names[i] in ColumnIndex(names);
  }

  /** An index of every name by a column carrying it leaves exactly the attribute columns as
      attributes. */
  lemma AttributeNamesOfIndex(columns: seq<string>, m: map<string, nat>)
    requires |columns| > 0
    requires forall c :: c in m ==> m[c] < |columns| && columns[m[c]] == c
    requires forall i :: 0 <= i < |columns| ==> columns[i] in m
    ensures AttributeNames(columns, m) == AttributeColumns(columns)
  {
    forall c | c in AttributeNames(columns, m)
      ensures c in AttributeColumns(columns)
    {
      var i := m[c];
      assert columns[i] == c && i != 0;
    }
    forall c | c in AttributeColumns(columns)
      ensures c in AttributeNames(columns, m)
    {
      var i :| 1 <= i < |columns| && columns[i] !in Required && columns[i] != columns[0] && columns[i] == c;
      assert columns[i] in m;
    }
  }

  /** The attribute cells of a written row read back as the sample's attributes. */
  lemma AttributesOfRow(columns: seq<string>, m: map<string, nat>, row: seq<string>, s: Sample)
    requires NameIndexed(columns, m) && |row| == |columns|
    requires AttributeColumns(columns) == s.attributes.Keys
    requires forall i :: 1 <= i < |columns| ==> row[i] == Cell(columns[i], s)
    ensures (map c | c in AttributeNames(columns, m) :: row[m[c]]) == s.attributes
  {
    var t := map c | c in AttributeNames(columns, m) :: row[m[c]];
    forall c | c in t
      ensures t[c] == s.attributes[c]
    {
      var i := m[c];
      assert columns[i] == c && c != columns[0];
      assert row[i] == Cell(c, s);
    }
  }

  /** A written row loads back as the sample it was written from. */
  lemma RowSampleOfRow(columns: seq<string>, m: map<string, nat>, s: Sample)
    requires SavableColumns(columns) && NameIndexed(columns, m) && SavableSample(columns, s)
    ensures var row := RowOf(columns, s);
      |row| == |columns| && !IsBlank(row[0]) && RowSample(columns, m, row) == s
  {
    RowOfCells(columns, s);
    RowSampleOfCells(columns, m, RowOf(columns, s), s);
  }

  /** A row whose cells are a sample's cells reads back as that sample, whichever of the
      columns carrying a name the index picks. */
  lemma RowSampleOfCells(columns: seq<string>, m: map<string, nat>, row: seq<string>, s: Sample)
    requires NameIndexed(columns, m) && |row| == |columns| && columns[0] !in Required
    requires AttributeColumns(columns) == s.attributes.Keys
    requires row[0] == s.id && s.id != "" && Trimmed(s.id)
    requires forall i :: 1 <= i < |columns| ==> row[i] == Cell(columns[i], s)
    requires s.reverse.Some? ==> !IsBlank(s.reverse.value)
    ensures !IsBlank(row[0]) && RowSample(columns, m, row) == s
  {
    StripTrimmed(s.id);
    var t := RowSample(columns, m, row);
    var f, r := m["Forward"], m["Reverse"];
    assert columns[f] == "Forward" && columns[r] == "Reverse";
    assert row[f] == Cell("Forward", s) && row[r] == Cell("Reverse", s);
    assert t.forward == s.forward;
    if s.reverse.None? {
      assert IsBlank("");
    }
    assert t.reverse == s.reverse;
    AttributesOfRow(columns, m, row, s);
  }

  /** The row written for `s` reads back as `s`. */
  ghost predicate Reloads(columns: seq<string>, m: map<string, nat>, s: Sample)
  {
    |columns| > 0 && IndexCovers(columns, m) && |RowOf(columns, s)| == |columns|
    && !IsBlank(RowOf(columns, s)[0]) && RowSample(columns, m, RowOf(columns, s)) == s
  }

  /** Rows each of which reads as one more sample load as those samples. */
  lemma {:induction false} LoadRowsEach(columns: seq<string>, m: map<string, nat>, rows: seq<seq<string>>, ss: seq<Sample>)
    requires |columns| > 0 && IndexCovers(columns, m) && |rows| == |ss|
    requires forall k :: 0 <= k < |rows| ==> ReadRow(columns, m, ss[..k], rows[k], k + 2) == Ok(ss[..k + 1])
    ensures LoadRows(columns, m, rows) == Ok(ss)
    decreases |rows|
  {
    if |rows| > 0 {
      var n := |rows| - 1;
      assert LoadRows(columns, m, rows[..n]) == Ok(ss[..n]) by {
        forall k | 0 <= k < n
          ensures ReadRow(columns, m, ss[..n][..k], rows[..n][k], k + 2) == Ok(ss[..n][..k + 1])
        {
          assert ss[..n][..k] == ss[..k] && ss[..n][..k + 1] == ss[..k + 1] && rows[..n][k] == rows[k];
        }
        LoadRowsEach(columns, m, rows[..n], ss[..n]);
      }
      LoadRowsNext(columns, m, rows, n);
      assert rows[..n + 1] == rows;
      assert ReadRow(columns, m, ss[..n], rows[n], n + 2) == Ok(ss[..n + 1]);
      assert ss[..n + 1] == ss;
    }
  }

  /** The row written for the sample at index `k` reads back as that sample, after the ones before it. */
  lemma ReadSavedRow(columns: seq<string>, m: map<string, nat>, ss: seq<Sample>, k: nat)
    requires |columns| > 0 && IndexCovers(columns, m) && DistinctIds(ss) && k < |ss|
    requires Reloads(columns, m, ss[k])
    ensures ReadRow(columns, m, ss[..k], RowOf(columns, ss[k]), k + 2) == Ok(ss[..k + 1])
  {
    NotBefore(ss, k);
    PrefixSnoc(ss, k);
    ReadRowNew(columns, m, ss[..k], ss[k], k + 2);
  }

  /** Among distinct ids, none before index `k` is the id at `k`. */
  lemma NotBefore(ss: seq<Sample>, k: nat)
    requires DistinctIds(ss) && k < |ss|
    ensures ss[k].id !in Ids(ss[..k])
  {
    forall i | 0 <= i < k ensures Ids(ss[..k])[i] != ss[k].id {
      assert ss[..k][i] == ss[i];
    }
  }

  lemma PrefixSnoc<T>(s: seq<T>, k: nat)
    requires k < |s|
    ensures s[..k] + [s[k]] == s[..k + 1]
  {
  }

  /** The row written for a sample that reloads, read under a new id, appends that sample. */
  lemma ReadRowNew(columns: seq<string>, m: map<string, nat>, p: seq<Sample>, s: Sample, line: nat)
    requires |columns| > 0 && IndexCovers(columns, m)
    requires Reloads(columns, m, s) && s.id !in Ids(p)
    ensures ReadRow(columns, m, p, RowOf(columns, s), line) == Ok(p + [s])
  {
  }

  lemma LoadRowsOfSaved(columns: seq<string>, m: map<string, nat>, ss: seq<Sample>)
    requires |columns| > 0 && IndexCovers(columns, m) && DistinctIds(ss)
    requires forall i :: 0 <= i < |ss| ==> Reloads(columns, m, ss[i])
    ensures LoadRows(columns, m, Saved(columns, ss)[1..]) == Ok(ss)
  {
    var rows := Saved(columns, ss)[1..];
    forall k | 0 <= k < |rows| ensures ReadRow(columns, m, ss[..k], rows[k], k + 2) == Ok(ss[..k + 1]) {
      SavedAt(columns, ss, k + 1);
      ReadSavedRow(columns, m, ss, k);
    }
    LoadRowsEach(columns, m, rows, ss);
  }

  /** Writing a sheet and loading what was written gives back the same columns and the same
      samples in the same order. */
  lemma SaveLoadRoundTrip(columns: seq<string>, ss: seq<Sample>)
    requires SavableColumns(columns) && DistinctIds(ss)
    requires forall i :: 0 <= i < |ss| ==> SavableSample(columns, ss[i])
    ensures Load(Saved(columns, ss)) == Ok(Loaded(columns, ss))
  {
    var m := ColumnIndex(Names(columns));
    var table := Saved(columns, ss);
    SavedAt(columns, ss, 0);
    SavableHeader(columns);
    SavedRowsLoad(columns, m, ss);
    LoadOfRows(table, ss);
  }

  /** A savable header passes the header checks of loading. */
  lemma SavableHeader(columns: seq<string>)
    requires SavableColumns(columns)
    ensures !IsBlank(columns[0])
    ensures var m := ColumnIndex(Names(columns)); Required - m.Keys == {} && NameIndexed(columns, m)
  {
    assert !IsBlank(columns[0]) by {
      assert Trimmed(columns[0]) && !IsSpace(columns[0][0]);
    }
    var m := ColumnIndex(Names(columns));
    assert NameIndexed(columns, m) by {
      ColumnIndexOfSavable(columns);
    }
    assert "Forward" in m && "Reverse" in m;
  }

  /** The data rows written for savable samples load back as those samples. */
  lemma SavedRowsLoad(columns: seq<string>, m: map<string, nat>, ss: seq<Sample>)
    requires SavableColumns(columns) && NameIndexed(columns, m) && DistinctIds(ss)
    requires forall i :: 0 <= i < |ss| ==> SavableSample(columns, ss[i])
    ensures LoadRows(columns, m, Saved(columns, ss)[1..]) == Ok(ss)
  {
    forall i | 0 <= i < |ss|
      ensures Reloads(columns, m, ss[i])
    {
      RowSampleOfRow(columns, m, ss[i]);
    }
    LoadRowsOfSaved(columns, m, ss);
  }

  /** A repeated column name round-trips too: both `X` columns are written with the
      attribute, and loading reads it from the last one. */
  lemma SaveLoadRepeatedColumn()
    ensures var columns := ["ID", "Forward", "Reverse", "X", "X"];
      var ss := [Sample("s1", "s1_R1.fq", None, map["X" := "v"])];
      Load(Saved(columns, ss)) == Ok(Loaded(columns, ss))
  {
    var columns := ["ID", "Forward", "Reverse", "X", "X"];
    var s := Sample("s1", "s1_R1.fq", None, map["X" := "v"]);
    assert columns[1] == "Forward" && columns[2] == "Reverse";
    assert AttributeColumns(columns) == {"X"} by {
      assert columns[3] == "X";
    }
    SaveLoadRoundTrip(columns, [s]);
  }

  /** A file whose header names an id column and both required columns, and whose data rows
      load, loads as that header and those samples. */
  lemma LoadOfRows(table: seq<seq<string>>, ss: seq<Sample>)
    requires |table| > 0 && |table[0]| > 0 && !IsBlank(table[0][0])
    requires Required - ColumnIndex(Names(table[0])).Keys == {}
    requires IndexCovers(table[0], ColumnIndex(Names(table[0])))
    requires LoadRows(table[0], ColumnIndex(Names(table[0])), table[1..]) == Ok(ss)
    ensures Load(table) == Ok(Loaded(table[0], ss))
  {
  }

  // ---------------------------------------------------------------------------------------
  // Sorting

  /** `SortBy(by.lower())`, for a criterion given as text. */
  function ParseSortKey(criterion: string): Result<SortKey, SheetError>
  {
    var l := Lower(criterion);
    if l == "sample_id" then Ok(BySampleId)
    else if l == "forward_read" then Ok(ByForwardRead)
    else Err(InvalidSortCriterion(criterion))
  }

  lemma LowerIdempotent(s: string)
    ensures Lower(Lower(s)) == Lower(s)
  {
  }

  /** The criterion is read without regard to case, and only its two values are accepted. */
  lemma ParseSortKeyIgnoresCase(criterion: string)
    ensures ParseSortKey(Lower(criterion)) == ParseSortKey(criterion) || (ParseSortKey(criterion).Err? && ParseSortKey(Lower(criterion)).Err?)
    ensures ParseSortKey(criterion).Ok? <==> Lower(criterion) in {"sample_id", "forward_read"}
    ensures ParseSortKey(criterion).Err? ==> ParseSortKey(criterion).error == InvalidSortCriterion(criterion)
  {
    LowerIdempotent(criterion);
  }

  function KeyOf(k: SortKey): Sample -> string
  {
    match k
    case BySampleId => (s: Sample) => s.id
    case ByForwardRead => (s: Sample) => s.forward
  }

  /** `sorted(samples, key=...)`. */
  function SortedSamples(ss: seq<Sample>, k: SortKey): seq<Sample>
  {
    Sorting.SortBy(ss, KeyOf(k))
  }


  /** Taking the same element out of two permutations of each other leaves permutations. */
  lemma RemoveMatching<T>(a: seq<T>, b: seq<T>, k: nat)
    requires multiset(a) == multiset(b) && |b| > 0 && k < |a| && a[k] == b[|b| - 1]
    ensures multiset(a[..k] + a[k + 1..]) == multiset(b[..|b| - 1])
  {
    assert a == a[..k] + [a[k]] + a[k + 1..];
    assert multiset(a) == multiset(a[..k]) + multiset{a[k]} + multiset(a[k + 1..]);
    assert multiset(a[..k] + a[k + 1..]) == multiset(a[..k]) + multiset(a[k + 1..]);
    assert b == b[..|b| - 1] + [b[|b| - 1]];
    assert multiset(b) == multiset(b[..|b| - 1]) + multiset{b[|b| - 1]};
    assert multiset(a[..k] + a[k + 1..]) + multiset{a[k]} == multiset(b[..|b| - 1]) + multiset{a[k]};
    assert multiset(a[..k] + a[k + 1..]) == multiset(a) - multiset{a[k]};
  }

  /** Reordering a sequence of samples with distinct ids keeps the ids distinct. */
  lemma {:induction false} DistinctIdsPermutation(a: seq<Sample>, b: seq<Sample>)
    requires multiset(a) == multiset(b) && DistinctIds(a)
    ensures DistinctIds(b)
    decreases |b|
  {
    if |b| > 0 {
      var x := b[|b| - 1];
      var b' := b[..|b| - 1];
      assert b == b' + [x];
      assert x in multiset(a);
      var k :| 0 <= k < |a| && a[k] == x;
      var a' := a[..k] + a[k + 1..];
      RemoveMatching(a, b, k);
      RemoveKeepsOthers(a, k);
      DistinctIdsPermutation(a', b');
      forall i | 0 <= i < |b'|
        ensures b'[i].id != x.id
      {
        assert b'[i] in multiset(a');
        var j :| 0 <= j < |a'| && a'[j] == b'[i];
        assert Ids(a')[j] == b'[i].id;
      }
    }
  }

  /** Sorting keeps exactly the same samples, puts them in ascending order of the key, keeps
      the ids distinct, and sorting again changes nothing. */
  lemma SortedSamplesSpec(ss: seq<Sample>, k: SortKey)
    ensures multiset(SortedSamples(ss, k)) == multiset(ss)
    ensures Sorting.SortedBy(SortedSamples(ss, k), KeyOf(k))
    ensures DistinctIds(ss) ==> DistinctIds(SortedSamples(ss, k))
    ensures SortedSamples(SortedSamples(ss, k), k) == SortedSamples(ss, k)
  {
    Sorting.SortByPermutes(ss, KeyOf(k));
    Sorting.SortBySorted(ss, KeyOf(k));
    Sorting.SortByIdempotent(ss, KeyOf(k));
    if DistinctIds(ss) {
      DistinctIdsPermutation(ss, SortedSamples(ss, k));
    }
  }

  // ---------------------------------------------------------------------------------------
  // The sheet

  /** `SampleSheet`: the insertion-ordered dictionary from id to sample is held as its values
      in order (each keyed by its own id), next to the header columns. */
  class SampleSheet {
    var samples: seq<Sample>
    var columns: seq<string>

    ghost predicate Valid()
      reads this
    {
      DistinctIds(samples)
    }

    constructor ()
      ensures Valid() && samples == [] && columns == []
    {
      samples := [];
      columns := [];
    }

    /** `len(sheet)`. */
    function Len(): nat
      reads this
    {
      |samples|
    }

    /** `add_sample`: a new id goes last; a known id raises and leaves the sheet as it was. */
    method AddSample(id: string, forward: string, reverse: Option<string>, attributes: map<string, string>)
      returns (r: Outcome<SheetError>)
      requires Valid()
      modifies this
      ensures Valid() && columns == old(columns)
      ensures id in old(Ids(samples)) ==> r == Fail(DuplicateSample(id)) && samples == old(samples)
      ensures id !in old(Ids(samples)) ==>
        r == Pass && samples == old(samples) + [Sample(id, forward, reverse, attributes)] && Len() == old(Len()) + 1
    {
      if Position(samples, id).Some? {
        return Fail(DuplicateSample(id));
      }
      samples := samples + [Sample(id, forward, reverse, attributes)];
      r := Pass;
    }

    /** `remove_sample`: an unknown id raises `KeyError`; otherwise only that sample goes. */
    method RemoveSample(id: string) returns (r: Outcome<SheetError>)
      requires Valid()
      modifies this
      ensures Valid() && columns == old(columns)
      ensures id !in old(Ids(samples)) ==> r == Fail(SampleNotFound(id)) && samples == old(samples)
      ensures id in old(Ids(samples)) ==>
        var k := Position(old(samples), id).value;
        r == Pass && samples == old(samples)[..k] + old(samples)[k + 1..]
        && id !in Ids(samples) && Len() == old(Len()) - 1
        && forall x :: x != id ==> (x in Ids(samples) <==> x in old(Ids(samples)))
    {
      var k := Position(samples, id);
      if k.None? {
        return Fail(SampleNotFound(id));
      }
      RemoveKeepsOthers(samples, k.value);
      samples := samples[..k.value] + samples[k.value + 1..];
      r := Pass;
    }

    /** `get_sample`: the sample with that id, or `KeyError`. */
    function GetSample(id: string): (r: Result<Sample, SheetError>)
      reads this
      ensures r.Ok? <==> id in Ids(samples)
      ensures r.Ok? ==> r.value in samples && r.value.id == id
      ensures r.Err? ==> r.error == SampleNotFound(id)
    {
      match Position(samples, id)
      case Some(k) => Ok(samples[k])
      case None => Err(SampleNotFound(id))
    }

    /** `get_sample_attr`: `KeyError` for an unknown sample, else the attribute or `None`. */
    function GetSampleAttr(id: string, attr: string): (r: Result<Option<string>, SheetError>)
      reads this
      ensures r.Err? <==> id !in Ids(samples)
      ensures r.Err? ==> r.error == SampleNotFound(id)
      ensures r.Ok? ==> exists s :: s in samples && s.id == id && r.value == s.GetAttr(attr)
      ensures r.Ok? ==> (r.value.None? <==> attr !in GetSample(id).value.attributes)
    {
      match GetSample(id)
      case Ok(s) => Ok(s.GetAttr(attr))
      case Err(e) => Err(e)
    }

    /** `get_samples_by_attr`. */
    function GetSamplesByAttr(attr: string, value: string): seq<string>
      reads this
    {
      IdsWithAttr(samples, attr, value)
    }

    /** `load_from_file`, on the rows of the file: a new sheet holding what `Load` reads, or the
        exception it raises. */
    static method LoadFromFile(table: seq<seq<string>>) returns (r: Result<SampleSheet, SheetError>)
      ensures r.Ok? <==> Load(table).Ok?
      ensures r.Err? ==> r.error == Load(table).error
      ensures r.Ok? ==>
        fresh(r.value) && r.value.Valid()
        && r.value.columns == Load(table).value.columns && r.value.samples == Load(table).value.samples
    {
      if |table| == 0 {
        return Err(EmptyFile);
      }
      var headers := table[0];
      var sheet := new SampleSheet();
      sheet.columns := headers;
      if |headers| == 0 {
        return Err(NoHeaderCell);
      }
      if IsBlank(headers[0]) {
        return Err(NoIdColumn);
      }
      var m := ColumnIndex(Names(headers));
      var missing := Required - m.Keys;
      if missing != {} {
        return Err(MissingColumns(missing));
      }
      ColumnIndexCovers(headers);
      var rows := table[1..];
      var k := 0;
      while k < |rows|
        invariant 0 <= k <= |rows|
        invariant fresh(sheet) && sheet.Valid() && sheet.columns == headers
        invariant LoadRows(headers, m, rows[..k]) == Ok(sheet.samples)
      {
        LoadRowsNext(headers, m, rows, k);
        var o := sheet.LoadRow(headers, m, rows[k], k + 2);
        if o.Fail? {
          LoadRowsStops(headers, m, rows, k + 1);
          return Err(o.error);
        }
        k := k + 1;
      }
      assert rows[..k] == rows;
      return Ok(sheet);
    }

    /** One data row of `load_from_file`, read into this sheet as line `line` of the file. */
    method LoadRow(headers: seq<string>, m: map<string, nat>, row: seq<string>, line: nat) returns (o: Outcome<SheetError>)
      requires Valid() && |headers| > 0 && IndexCovers(headers, m)
      modifies this
      ensures Valid() && columns == old(columns)
      ensures o.Pass? ==> ReadRow(headers, m, old(samples), row, line) == Ok(samples)
      ensures o.Fail? ==> ReadRow(headers, m, old(samples), row, line) == Err(o.error)
    {
      if |row| != |headers| {
        return Fail(WrongWidth(line, |headers|, |row|));
      }
      if IsBlank(row[0]) {
        return Pass;
      }
      var s := RowSample(headers, m, row);
      o := AddSample(s.id, s.forward, s.reverse, s.attributes);
    }

    /** `save_to_file` without absolute paths: the rows it writes. */
    method SaveRows() returns (rows: seq<seq<string>>)
      ensures rows == Saved(columns, samples)
    {
      rows := [columns];
      var rest := Rest(columns);
      var n := 0;
      while n < |samples|
        invariant 0 <= n <= |samples|
        invariant rows == Saved(columns, samples[..n])
      {
        var s := samples[n];
        var row := [s.id];
        var j := 0;
        while j < |rest|
          invariant 0 <= j <= |rest|
          invariant row == [s.id] + seq(j, i requires 0 <= i < j => Cell(rest[i], s))
        {
          row := row + [Cell(rest[j], s)];
          j := j + 1;
        }
        assert row == RowOf(columns, s);
        rows := rows + [row];
        n := n + 1;
        assert Saved(columns, samples[..n]) == Saved(columns, samples[..n - 1]) + [RowOf(columns, samples[n - 1])];
      }
      assert samples[..n] == samples;
    }

    /** `str(sheet)`. */
    method ToText() returns (text: string)
      ensures text == Join("\n", TextLines(columns, samples))
    {
      var lines: seq<string>;
      if |columns| > 0 {
        lines := [Join("\t", columns)];
        var n := 0;
        while n < |samples|
          invariant 0 <= n <= |samples|
          invariant lines == TextLines(columns, samples[..n])
        {
          var row := RowOf(columns, samples[n]);
          TextLinesNext(columns, samples, n);
          lines := lines + [Join("\t", row)];
          n := n + 1;
        }
        assert samples[..n] == samples;
      } else {
        lines := [Join("\t", DefaultColumns)];
        var n := 0;
        while n < |samples|
          invariant 0 <= n <= |samples|
          invariant lines == TextLines(columns, samples[..n])
        {
          TextLinesNext(columns, samples, n);
          lines := lines + [samples[n].Line()];
          n := n + 1;
        }
        assert samples[..n] == samples;
      }
      text := Join("\n", lines);
    }

    /** `sort`: a new sheet with the same columns and the samples in the order of the chosen
        key; an unknown criterion raises. This sheet is left as it was. */
    method Sort(criterion: string) returns (r: Result<SampleSheet, SheetError>)
      requires Valid()
      ensures r.Err? <==> ParseSortKey(criterion).Err?
      ensures r.Err? ==> r.error == InvalidSortCriterion(criterion)
      ensures r.Ok? ==>
        fresh(r.value) && r.value.Valid() && r.value.columns == columns
        && r.value.samples == SortedSamples(samples, ParseSortKey(criterion).value)
    {
      var key := ParseSortKey(criterion);
      if key.Err? {
        return Err(key.error);
      }
      var sorted := SortedSamples(samples, key.value);
      SortedSamplesSpec(samples, key.value);
      var sheet := new SampleSheet();
      sheet.columns := columns;
      var n := 0;
      while n < |sorted|
        invariant 0 <= n <= |sorted|
        invariant fresh(sheet) && sheet.Valid() && sheet.columns == columns
        invariant sheet.samples == sorted[..n]
      {
        var s := sorted[n];
        assert s.id !in Ids(sorted[..n]);
        var _ := sheet.AddSample(s.id, s.forward, s.reverse, s.attributes);
        n := n + 1;
        assert sorted[..n] == sorted[..n - 1] + [s];
      }
      assert sorted[..n] == sorted;
      return Ok(sheet);
    }
  }
}
