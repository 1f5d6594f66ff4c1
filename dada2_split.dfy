/** `qimba dada2-split` (qimba/commands/dada2_split.py): validates a DADA2 sequence table,
    totals each sequence's counts, and renders a FASTA file of ASVs and a simplified table.
    The table is given as the rows the csv reader yields; a blank line is the empty row. */
module Dada2Split {
  import opened Wrappers
  import opened Text
  import Fasta

  /** What makes a data row invalid; the row's line number is kept beside it. */
  datatype Fault =
    | WrongWidth(got: nat, expected: nat)
    | BadSequence(shown: string)
    | BadCount(column: string, count: string)

  /** The `click.BadParameter` errors of `validate_tsv`. */
  datatype SplitError =
    | EmptyFile
    | TooFewColumns(columns: nat)
    | RowFault(line: nat, fault: Fault)
    | NoSequences

  /** The `(headers, sequences)` pair `validate_tsv` returns. */
  datatype Validated = Validated(headers: seq<string>, sequences: seq<string>)

  /** A character of `'ACGTN'` once upper-cased. */
  predicate IsBase(c: char)
  {
    c in "ACGTNacgtn"
  }

  predicate IsSequence(s: string)
  {
    s != "" && forall i :: 0 <= i < |s| ==> IsBase(s[i])
  }

  /** A count cell: empty, or all digits. */
  predicate IsCount(s: string)
  {
    s == "" || IsDigits(s)
  }

  /** A non-empty data row that passes every check of `validate_tsv`. */
  predicate GoodRow(headers: seq<string>, row: seq<string>)
  {
    |row| == |headers| && |row| > 0 && IsSequence(row[0])
    && forall j :: 1 <= j < |row| ==> IsCount(row[j])
  }

  /** A data row `validate_tsv` lets through: blank, or good. */
  predicate Acceptable(headers: seq<string>, row: seq<string>)
  {
    row == [] || GoodRow(headers, row)
  }

  /** The first count cell at or after `from` that is neither empty nor digits. */
  function FirstBadCount(row: seq<string>, from: nat): (r: Option<nat>)
    ensures r.Some? ==> from <= r.value < |row| && !IsCount(row[r.value])
    ensures r.Some? ==> forall j :: from <= j < r.value ==> IsCount(row[j])
    ensures r.None? <==> forall j :: from <= j < |row| ==> IsCount(row[j])
    decreases |row| - from
  {
    if from >= |row| then None
    else if !IsCount(row[from]) then Some(from)
    else FirstBadCount(row, from + 1)
  }

  /** `sequence[:50]`, as the message shows it. */
  function Shown(s: string): (r: string)
    ensures |r| <= 50 && |r| <= |s| && r == s[..|r|]
    ensures |s| <= 50 ==> r == s
  {
    if |s| <= 50 then s else s[..50]
  }

  /** The error `validate_tsv` raises for a non-empty data row on line `line`, if any:
      width first, then the sequence cell, then the first bad count. */
  function RowError(headers: seq<string>, row: seq<string>, line: nat): (e: Option<SplitError>)
    requires row != []
    ensures e.None? <==> GoodRow(headers, row)
    ensures e.Some? ==> e.value.RowFault? && e.value.line == line
    ensures e.Some? && e.value.fault.WrongWidth? <==> e.Some? && |row| != |headers|
    ensures e.Some? && e.value.fault.BadSequence? <==>
      e.Some? && |row| == |headers| && !IsSequence(row[0])
    ensures e.Some? && e.value.fault.BadSequence? ==> e.value.fault.shown == Shown(row[0])
    ensures e.Some? && e.value.fault.BadCount? ==>
      |row| == |headers| && IsSequence(row[0]) &&
      exists j :: FirstBadCount(row, 1) == Some(j) && e.value.fault == BadCount(headers[j], row[j])
  {
    if |row| != |headers| then Some(RowFault(line, WrongWidth(|row|, |headers|)))
    else if !IsSequence(row[0]) then Some(RowFault(line, BadSequence(Shown(row[0]))))
    else
      match FirstBadCount(row, 1)
      case Some(j) => Some(RowFault(line, BadCount(headers[j], row[j])))
      case None => None
  }

  /** The index of the first data row at or after `from` that `validate_tsv` rejects. */
  function FirstBadRow(headers: seq<string>, table: seq<seq<string>>, from: nat): (r: Option<nat>)
    ensures r.Some? ==> from <= r.value < |table| && !Acceptable(headers, table[r.value])
    ensures r.Some? ==> forall k :: from <= k < r.value ==> Acceptable(headers, table[k])
    ensures r.None? <==> forall k :: from <= k < |table| ==> Acceptable(headers, table[k])
    decreases |table| - from
  {
    if from >= |table| then None
    else if !Acceptable(headers, table[from]) then Some(from)
    else FirstBadRow(headers, table, from + 1)
  }

  /** The first cells of the non-empty rows, in order. */
  function Firsts(rows: seq<seq<string>>): (s: seq<string>)
    ensures |s| <= |rows|
    decreases |rows|
  {
    if |rows| == 0 then []
    else
      var last := rows[|rows| - 1];
      Firsts(rows[..|rows| - 1]) + (if last == [] then [] else [last[0]])
  }

  /** What `validate_tsv` returns or raises for a table. Line numbers count every physical row,
      the header being line 1, so the row at index `k` is on line `k + 1`. */
  function Validate(table: seq<seq<string>>): Result<Validated, SplitError>
  {
    if |table| == 0 then Err(EmptyFile)
    else if |table[0]| < 2 then Err(TooFewColumns(|table[0]|))
    else
      match FirstBadRow(table[0], table, 1)
      case Some(k) => Err(RowError(table[0], table[k], k + 1).value)
      case None =>
        var sequences := Firsts(table[1..]);
        if sequences == [] then Err(NoSequences) else Ok(Validated(table[0], sequences))
  }

  /** `validate_tsv` as the loop it is. */
  method ValidateTsv(table: seq<seq<string>>) returns (r: Result<Validated, SplitError>)
    ensures r == Validate(table)
  {
    if |table| == 0 {
      return Err(EmptyFile);
    }
    var headers := table[0];
    if |headers| < 2 {
      return Err(TooFewColumns(|headers|));
    }
    var sequences: seq<string> := [];
    var lineNum := 1;
    var i := 1;
    while i < |table|
      invariant 1 <= i <= |table| && lineNum == i
      invariant forall k :: 1 <= k < i ==> Acceptable(headers, table[k])
      invariant sequences == Firsts(table[1..i])
    {
      var row := table[i];
      lineNum := lineNum + 1;
      assert table[1..i + 1][..i - 1] == table[1..i];
      if row != [] {
        if |row| != |headers| {
          assert FirstBadRow(headers, table, 1) == Some(i);
          return Err(RowFault(lineNum, WrongWidth(|row|, |headers|)));
        }
        var sequence := row[0];
        if !IsSequence(sequence) {
          assert FirstBadRow(headers, table, 1) == Some(i);
          return Err(RowFault(lineNum, BadSequence(Shown(sequence))));
        }
        var j := 1;
        while j < |row|
          invariant 1 <= j <= |row|
          invariant forall m :: 1 <= m < j ==> IsCount(row[m])
        {
          if !IsCount(row[j]) {
            assert FirstBadCount(row, 1) == Some(j);
            assert FirstBadRow(headers, table, 1) == Some(i);
            return Err(RowFault(lineNum, BadCount(headers[j], row[j])));
          }
          j := j + 1;
        }
        sequences := sequences + [sequence];
      }
      i := i + 1;
    }
    assert table[1..i] == table[1..];
    if sequences == [] {
      return Err(NoSequences);
    }
    return Ok(Validated(headers, sequences));
  }

  lemma {:induction false} FirstsOfAcceptable(headers: seq<string>, rows: seq<seq<string>>)
    requires forall k :: 0 <= k < |rows| ==> Acceptable(headers, rows[k])
    ensures forall i :: 0 <= i < |Firsts(rows)| ==> IsSequence(Firsts(rows)[i])
    decreases |rows|
  {
    if |rows| > 0 {
      FirstsOfAcceptable(headers, rows[..|rows| - 1]);
    }
  }

  /** `validate_tsv` returns exactly when the header has at least two columns, every non-empty
      data row is good, and there is at least one; it then returns the header unchanged and the
      sequence cells of the non-empty rows in order, each a non-empty string over ACGTN. */
  lemma ValidateOk(table: seq<seq<string>>)
    ensures Validate(table).Ok? <==>
      |table| > 0 && |table[0]| >= 2
      && (forall k :: 1 <= k < |table| ==> Acceptable(table[0], table[k]))
      && Firsts(table[1..]) != []
    ensures Validate(table).Ok? ==>
      Validate(table).value.headers == table[0]
      && Validate(table).value.sequences == Firsts(table[1..])
      && forall i :: 0 <= i < |Validate(table).value.sequences| ==> IsSequence(Validate(table).value.sequences[i])
  {
    if Validate(table).Ok? {
      var rows := table[1..];
      forall k | 0 <= k < |rows| ensures Acceptable(table[0], rows[k]) {
        assert rows[k] == table[k + 1];
      }
      FirstsOfAcceptable(table[0], rows);
    }
  }

  /** A rejected data row: its line number is its 1-based position counting the header and blank
      rows, it is not blank and fails a check, and every data row before it passed. */
  lemma ValidateRowFault(table: seq<seq<string>>)
    requires Validate(table).Err? && Validate(table).error.RowFault?
    ensures var line := Validate(table).error.line;
      2 <= line <= |table| && table[line - 1] != [] && !GoodRow(table[0], table[line - 1])
      && forall k :: 1 <= k < line - 1 ==> Acceptable(table[0], table[k])
  {
  }

  /** `int(count) if count else 0` for a count cell. */
  function CellValue(c: string): nat
  {
    if IsDigits(c) then ParseNat(c) else 0
  }

  /** `sum(...)` of the cell values. */
  function CellsSum(cells: seq<string>): nat
    decreases |cells|
  {
    if |cells| == 0 then 0 else CellsSum(cells[..|cells| - 1]) + CellValue(cells[|cells| - 1])
  }

  /** A sequence's total over the samples: the sum of its count cells. */
  function RowTotal(row: seq<string>): nat
    requires row != []
  {
    CellsSum(row[1..])
  }

  /** Every count cell of a row is something `int` accepts, or empty. */
  predicate CellsAreCounts(row: seq<string>)
  {
    forall j :: 1 <= j < |row| ==> IsCount(row[j])
  }

  /** The ASV identifier `ASV{idx}`. */
  function AsvName(idx: nat): (name: string)
    ensures |name| > 3 && name[..3] == "ASV" && NoSpace(name)
  {
    "ASV" + NatToString(idx)
  }

  /** `seq_counts` after the loop: each non-empty row's total under its sequence, a later row
      overwriting an earlier one with the same sequence. */
  function Totals(rows: seq<seq<string>>): map<string, nat>
    decreases |rows|
  {
    if |rows| == 0 then map[]
    else
      var last := rows[|rows| - 1];
      var before := Totals(rows[..|rows| - 1]);
      if last == [] then before else before[last[0] := RowTotal(last)]
  }

  /** `simplified_rows` after the loop: each non-empty row with its sequence replaced by
      `ASV{idx}`, where `idx` is its 1-based position among all data rows. */
  function Simplified(rows: seq<seq<string>>): (out: seq<seq<string>>)
    ensures |out| == |Firsts(rows)|
    decreases |rows|
  {
    if |rows| == 0 then []
    else
      var last := rows[|rows| - 1];
      Simplified(rows[..|rows| - 1]) + (if last == [] then [] else [[AsvName(|rows|)] + last[1..]])
  }

  datatype Tallied = Tallied(counts: map<string, nat>, rows: seq<seq<string>>)

  /** The loop of `cli` over the data rows (the header already skipped). A cell `int` rejects
      raises `ValueError`; the error carries that row's `idx`. */
  method Tally(rows: seq<seq<string>>) returns (r: Result<Tallied, nat>)
    ensures r.Ok? <==> forall k :: 0 <= k < |rows| ==> CellsAreCounts(rows[k])
    ensures r.Ok? ==> r.value == Tallied(Totals(rows), Simplified(rows))
    ensures r.Err? ==> 1 <= r.error <= |rows| && !CellsAreCounts(rows[r.error - 1])
    ensures r.Err? ==> forall k :: 0 <= k < r.error - 1 ==> CellsAreCounts(rows[k])
  {
    var seqCounts: map<string, nat> := map[];
    var simplifiedRows: seq<seq<string>> := [];
    var k := 0;
    while k < |rows|
      invariant k <= |rows|
      invariant forall m :: 0 <= m < k ==> CellsAreCounts(rows[m])
      invariant seqCounts == Totals(rows[..k])
      invariant simplifiedRows == Simplified(rows[..k])
    {
      var idx := k + 1;
      var row := rows[k];
      assert rows[..k + 1][..k] == rows[..k];
      if !CellsAreCounts(row) {
        return Err(idx);
      }
      if row != [] {
        var sequence := row[0];
        seqCounts := seqCounts[sequence := CellsSum(row[1..])];
        simplifiedRows := simplifiedRows + [[AsvName(idx)] + row[1..]];
      }
      k := k + 1;
    }
    assert rows[..k] == rows;
    return Ok(Tallied(seqCounts, simplifiedRows));
  }

  /** The sequences counted are exactly the sequences of the non-empty rows. */
  lemma {:induction false} TotalsKeys(rows: seq<seq<string>>)
    ensures forall x :: x in Totals(rows) <==> x in Firsts(rows)
    decreases |rows|
  {
    if |rows| > 0 {
      TotalsKeys(rows[..|rows| - 1]);
    }
  }

  /** A sequence's total is the total of the last non-empty row holding it. */
  lemma {:induction false} TotalsLast(rows: seq<seq<string>>, k: nat)
    requires k < |rows| && rows[k] != []
    requires forall m :: k < m < |rows| && rows[m] != [] ==> rows[m][0] != rows[k][0]
    ensures rows[k][0] in Totals(rows) && Totals(rows)[rows[k][0]] == RowTotal(rows[k])
    decreases |rows|
  {
    if k < |rows| - 1 {
      var p := rows[..|rows| - 1];
      assert p[k] == rows[k];
      TotalsLast(p, k);
    }
  }

  /** Without blank rows the simplified rows are the input rows in order, the `i`-th renamed
      `ASV{i+1}` and its count cells kept verbatim. */
  lemma {:induction false} SimplifiedNoBlanks(rows: seq<seq<string>>)
    requires forall k :: 0 <= k < |rows| ==> rows[k] != []
    ensures |Simplified(rows)| == |rows|
    ensures forall k :: 0 <= k < |rows| ==> Simplified(rows)[k] == [AsvName(k + 1)] + rows[k][1..]
    decreases |rows|
  {
    if |rows| > 0 {
      var p := rows[..|rows| - 1];
      SimplifiedNoBlanks(p);
      FirstsNoBlanks(p);
    }
  }

  lemma {:induction false} FirstsNoBlanks(rows: seq<seq<string>>)
    requires forall k :: 0 <= k < |rows| ==> rows[k] != []
    ensures |Firsts(rows)| == |rows|
    decreases |rows|
  {
    if |rows| > 0 {
      FirstsNoBlanks(rows[..|rows| - 1]);
    }
  }

  /** For every input: the non-empty row at index `k` becomes the simplified row
      `ASV{k+1}` plus its count cells, placed after one simplified row per earlier non-empty row,
      and its sequence sits at that same position in the sequence list. Blank rows take an index
      but no position. */
  lemma {:induction false} SimplifiedAt(rows: seq<seq<string>>, k: nat)
    requires k < |rows| && rows[k] != []
    ensures |Firsts(rows[..k])| < |Simplified(rows)|
    ensures Simplified(rows)[|Firsts(rows[..k])|] == [AsvName(k + 1)] + rows[k][1..]
    ensures Firsts(rows)[|Firsts(rows[..k])|] == rows[k][0]
    decreases |rows|
  {
    var p := rows[..|rows| - 1];
    if k == |rows| - 1 {
      assert p == rows[..k];
    } else {
      assert p[k] == rows[k] && p[..k] == rows[..k];
      SimplifiedAt(p, k);
    }
  }

  /** An instance of `SimplifiedAt`: a blank data row still takes an `idx`; after one, the simplified table names the next
      sequence `ASV3` while the FASTA file, numbered by position in the sequence list, calls it `ASV2`. */
  lemma BlankRowSkipsAnIndex()
    ensures var rows := [["AC", "1"], [], ["GT", "2"]];
      Simplified(rows) == [[AsvName(1), "1"], [AsvName(3), "2"]] && Firsts(rows) == ["AC", "GT"]
  {
    var r1 := [["AC", "1"]];
    var r2 := r1 + [[]];
    var rows := r2 + [["GT", "2"]];
    assert r1[..0] == [] && r2[..1] == r1 && rows[..2] == r2;
    assert [AsvName(1)] + r1[0][1..] == [AsvName(1), "1"];
    assert [AsvName(3)] + rows[2][1..] == [AsvName(3), "2"];
    assert Simplified(r1) == [[AsvName(1), "1"]] && Firsts(r1) == ["AC"];
    assert Simplified(r2) == [[AsvName(1), "1"]] && Firsts(r2) == ["AC"];
    assert rows == [["AC", "1"], [], ["GT", "2"]];
  }

  /** The header line `>ASV{idx} counts={total}` of one FASTA entry. */
  function FastaHeader(idx: nat, total: nat): string
  {
    ">" + AsvName(idx) + " counts=" + NatToString(total)
  }

  /** The lines `write_fasta` writes: two per sequence, numbered from 1 in list order. */
  function FastaLines(sequences: seq<string>, counts: map<string, nat>): (lines: seq<string>)
    requires forall i :: 0 <= i < |sequences| ==> sequences[i] in counts
    ensures |lines| == 2 * |sequences|
    ensures forall i :: 0 <= i < |sequences| ==>
      lines[2 * i] == FastaHeader(i + 1, counts[sequences[i]]) && lines[2 * i + 1] == sequences[i]
    decreases |sequences|
  {
    if |sequences| == 0 then []
    else
      var n := |sequences|;
      FastaLines(sequences[..n - 1], counts) + [FastaHeader(n, counts[sequences[n - 1]]), sequences[n - 1]]
  }

  /** `write_fasta`; a sequence missing from `counts` would raise `KeyError`. */
  method WriteFasta(sequences: seq<string>, counts: map<string, nat>) returns (lines: seq<string>)
    requires forall i :: 0 <= i < |sequences| ==> sequences[i] in counts
    ensures lines == FastaLines(sequences, counts)
  {
    lines := [];
    var i := 0;
    while i < |sequences|
      invariant i <= |sequences|
      invariant lines == FastaLines(sequences[..i], counts)
    {
      var idx := i + 1;
      var s := sequences[i];
      assert sequences[..i + 1][..i] == sequences[..i];
      lines := lines + [FastaHeader(idx, counts[s])];
      lines := lines + [s];
      i := i + 1;
    }
    assert sequences[..i] == sequences;
  }

  /** The records the FASTA reader finds in what `write_fasta` wrote. */
  function AsvRecords(sequences: seq<string>, counts: map<string, nat>): (rs: seq<Fasta.Record>)
    requires forall i :: 0 <= i < |sequences| ==> sequences[i] in counts
    ensures |rs| == |sequences|
    decreases |sequences|
  {
    if |sequences| == 0 then []
    else
      var n := |sequences|;
      AsvRecords(sequences[..n - 1], counts)
        + [Fasta.Record(AsvName(n), "counts=" + NatToString(counts[sequences[n - 1]]), sequences[n - 1])]
  }

  /** A sequence line is its own stripped form and is not a header, so it is one piece. */
  lemma SequenceLine(s: string)
    requires IsSequence(s)
    ensures Fasta.NoHeaders([s]) && Fasta.Body([s]) == [s]
  {
    BaseNotSpace(s[0]);
    BaseNotSpace(s[|s| - 1]);
    StripTrimmed(s);
    assert !Fasta.IsHeaderLine(s);
    assert Fasta.Body([s]) == [s] by {
      assert [s][1..] == [];
    }
  }

  /** A base is neither whitespace nor the header mark. */
  lemma BaseNotSpace(c: char)
    requires IsBase(c)
    ensures !IsSpace(c) && c != '>'
  {
  }

  /** A header line `>name tail` whose name is a word and whose tail starts and ends with a non-space. */
  lemma HeaderLine(name: string, tail: string)
    requires name != "" && NoSpace(name)
    requires tail != "" && !IsSpace(tail[0]) && !IsSpace(tail[|tail| - 1])
    ensures var h := ">" + name + " " + tail;
      Fasta.IsHeaderLine(h) && Strip(h) == h && h != ">" && h[1..] == name + " " + tail
  {
    var h := ">" + name + " " + tail;
    assert h[1..] == name + " " + tail;
    assert h[|h| - 1] == tail[|tail| - 1];
    StripTrimmed(h);
  }

  /** One entry read back after lines that parse without failure adds one record, from the text
      after the `>` and the sequence. */
  lemma ParseAppendEntry(lines: seq<string>, rs: seq<Fasta.Record>, h: string, s: string)
    requires Fasta.Parse(lines) == Fasta.Parsed(rs, None)
    requires Fasta.IsHeaderLine(h) && Strip(h) == h && h != ">"
    requires IsSequence(s)
    ensures Fasta.Parse(lines + [h, s]) == Fasta.Parsed(rs + [Fasta.RecordOf(Fasta.Raw(h[1..], [s]))], None)
  {
    SequenceLine(s);
    Fasta.ParseOneRecord(h, [s]);
    assert [h] + [s] == [h, s];
    Fasta.ParseConcat(lines, [h, s]);
  }

  /** The header of entry `idx` splits into the name `ASV{idx}` and the comment `counts={total}`. */
  lemma FastaHeaderParts(idx: nat, total: nat)
    ensures var tail := "counts=" + NatToString(total);
      FastaHeader(idx, total) == ">" + AsvName(idx) + " " + tail
      && tail != "" && !IsSpace(tail[0]) && !IsSpace(tail[|tail| - 1])
  {
    var d := NatToString(total);
    var tail := "counts=" + d;
    assert tail[|tail| - 1] == d[|d| - 1];
  }

  /** Reading back what `write_fasta` wrote yields, in order, one record per sequence, named
      `ASV1`, `ASV2`, ..., with comment `counts={total}` and the sequence itself. */
  lemma {:induction false} FastaRoundTrip(sequences: seq<string>, counts: map<string, nat>)
    requires forall i :: 0 <= i < |sequences| ==> sequences[i] in counts && IsSequence(sequences[i])
    ensures Fasta.Parse(FastaLines(sequences, counts)) == Fasta.Parsed(AsvRecords(sequences, counts), None)
    decreases |sequences|
  {
    var n := |sequences|;
    if n == 0 {
      assert Fasta.Kinds([]) == [];
    } else {
      var p := sequences[..n - 1];
      forall i | 0 <= i < |p| ensures p[i] in counts && IsSequence(p[i]) {
        assert p[i] == sequences[i];
      }
      FastaRoundTrip(p, counts);
      FastaStep(sequences, counts);
    }
  }

  /** The last entry written reads back as one more record. */
  lemma FastaStep(sequences: seq<string>, counts: map<string, nat>)
    requires |sequences| > 0
    requires forall i :: 0 <= i < |sequences| ==> sequences[i] in counts && IsSequence(sequences[i])
    requires Fasta.Parse(FastaLines(sequences[..|sequences| - 1], counts))
      == Fasta.Parsed(AsvRecords(sequences[..|sequences| - 1], counts), None)
    ensures Fasta.Parse(FastaLines(sequences, counts)) == Fasta.Parsed(AsvRecords(sequences, counts), None)
  {
    var n := |sequences|;
    var p := sequences[..n - 1];
    var s := sequences[n - 1];
    var total := counts[s];
    var h := FastaHeader(n, total);
    var lines, rs := FastaLines(p, counts), AsvRecords(p, counts);
    var rec := Fasta.Record(AsvName(n), "counts=" + NatToString(total), s);
    assert IsSequence(s);
    assert Fasta.Parse(lines + [h, s]) == Fasta.Parsed(rs + [rec], None) by {
      HeaderEntry(n, total, s);
      ParseAppendEntry(lines, rs, h, s);
    }
    assert FastaLines(sequences, counts) == lines + [h, s];
    assert AsvRecords(sequences, counts) == rs + [rec];
  }

  /** The header line of entry `idx` is a stripped header whose record carries the name `ASV{idx}`
      and the comment `counts={total}`. */
  lemma HeaderEntry(idx: nat, total: nat, s: string)
    ensures var h := FastaHeader(idx, total);
      Fasta.IsHeaderLine(h) && Strip(h) == h && h != ">"
      && Fasta.RecordOf(Fasta.Raw(h[1..], [s])) == Fasta.Record(AsvName(idx), "counts=" + NatToString(total), s)
  {
    var tail := "counts=" + NatToString(total);
    FastaHeaderParts(idx, total);
    HeaderLine(AsvName(idx), tail);
    Fasta.HeaderOfWords(AsvName(idx), tail);
  }

  /** What `cli` writes: the FASTA lines and the rows of the simplified table. */
  datatype Output = Output(fasta: seq<string>, tsv: seq<seq<string>>)

  /** `cli`: validate, tally the same rows again, then render both outputs. The tally cannot
      fail once the table has been validated. */
  method Split(table: seq<seq<string>>) returns (r: Result<Output, SplitError>)
    ensures r.Err? <==> Validate(table).Err?
    ensures r.Err? ==> r.error == Validate(table).error
    ensures r.Ok? ==> |table| > 0
    ensures r.Ok? ==> forall i :: 0 <= i < |Validate(table).value.sequences| ==> Validate(table).value.sequences[i] in Totals(table[1..])
    ensures r.Ok? ==> r.value == Output(FastaLines(Validate(table).value.sequences, Totals(table[1..])),
                                        [table[0]] + Simplified(table[1..]))
  {
    var v := ValidateTsv(table);
    if v.Err? {
      return Err(v.error);
    }
    ValidateOk(table);
    var rows := table[1..];
    forall k | 0 <= k < |rows| ensures CellsAreCounts(rows[k]) {
      assert rows[k] == table[k + 1];
    }
    var t := Tally(rows);
    if t.Err? {
      assert false;
    }
    TotalsKeys(rows);
    var fasta := WriteFasta(v.value.sequences, t.value.counts);
    return Ok(Output(fasta, [v.value.headers] + t.value.rows));
  }

  /** The FASTA file `cli` writes reads back as one record per validated sequence. */
  lemma SplitFastaReadsBack(table: seq<seq<string>>)
    requires Validate(table).Ok?
    ensures var v := Validate(table).value; var counts := Totals(table[1..]);
      (forall i :: 0 <= i < |v.sequences| ==> v.sequences[i] in counts)
      && Fasta.Parse(FastaLines(v.sequences, counts)).failedAt.None?
      && |Fasta.Parse(FastaLines(v.sequences, counts)).records| == |v.sequences|
  {
    var v := Validate(table).value;
    ValidateOk(table);
    TotalsKeys(table[1..]);
    FastaRoundTrip(v.sequences, Totals(table[1..]));
  }
}
