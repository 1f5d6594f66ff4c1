/** `check_tsv` (qimba/commands/check_tab.py): the shape of a tab-separated file.
    The file is given as its rows, each already split into fields. */
module CheckTab {
  import opened Wrappers

  /** `(rows, columns, column_counts)`: row count, width of the first row, and width histogram. */
  datatype Summary = Summary(rows: nat, columns: nat, distribution: map<nat, nat>)

  /** The `ValueError` of strict mode: the 1-based row number, the first row's width and this row's. */
  datatype CheckError = Inconsistent(row: nat, expected: nat, got: nat)

  /** The widths that occur among the rows. */
  function Widths(rows: seq<seq<string>>): set<nat>
  {
    set i | 0 <= i < |rows| :: |rows[i]|
  }

  /** How many rows have `w` fields. */
  function CountWidth(rows: seq<seq<string>>, w: nat): nat
    decreases |rows|
  {
    if |rows| == 0 then 0
    else CountWidth(rows[..|rows| - 1], w) + (if |rows[|rows| - 1]| == w then 1 else 0)
  }

  /** The width histogram: each occurring width mapped to its number of rows. */
  function Histogram(rows: seq<seq<string>>): map<nat, nat>
  {
    map w | w in Widths(rows) :: CountWidth(rows, w)
  }

  /** Some key of a non-empty histogram. */
  ghost function Pick(m: map<nat, nat>): (k: nat)
    requires |m| > 0
    ensures k in m
  {
    assert exists k :: k in m.Keys by { assert |m.Keys| > 0; }
    var k :| k in m; k
  }

  /** The sum of the values of a histogram. */
  ghost function Total(m: map<nat, nat>): nat
    decreases |m|
  {
    if |m| == 0 then 0
    else
      var k := Pick(m);
      assert |m - {k}| < |m| by { assert (m - {k}).Keys == m.Keys - {k}; }
      m[k] + Total(m - {k})
  }

  /** The sum does not depend on which key is taken out first. */
  lemma {:induction false} TotalRemove(m: map<nat, nat>, k: nat)
    requires k in m
    ensures Total(m) == m[k] + Total(m - {k})
    decreases |m|
  {
    var j := Pick(m);
    assert Total(m) == m[j] + Total(m - {j});
    if j != k {
      assert (m - {j}).Keys == m.Keys - {j};
      assert (m - {k}).Keys == m.Keys - {k};
      TotalRemove(m - {j}, k);
      TotalRemove(m - {k}, j);
      assert m - {j} - {k} == m - {k} - {j};
    }
  }

  lemma TotalUpdate(m: map<nat, nat>, k: nat, v: nat)
    ensures Total(m[k := v]) == Total(m - {k}) + v
  {
    var m' := m[k := v];
    TotalRemove(m', k);
    assert m' - {k} == m - {k};
  }

  lemma CountWidthAbsent(rows: seq<seq<string>>, w: nat)
    requires w !in Widths(rows)
    ensures CountWidth(rows, w) == 0
    decreases |rows|
  {
    if |rows| > 0 {
      var p := rows[..|rows| - 1];
      assert Widths(p) <= Widths(rows) by {
        forall x | x in Widths(p) ensures x in Widths(rows) {
          var i :| 0 <= i < |p| && |p[i]| == x;
          assert |rows[i]| == x;
        }
      }
      assert |rows[|rows| - 1]| in Widths(rows);
      CountWidthAbsent(p, w);
    }
  }

  /** Adding a row adds one to the count of its width and leaves every other count alone. */
  lemma HistogramStep(rows: seq<seq<string>>, i: nat)
    requires i < |rows|
    ensures var h := Histogram(rows[..i]); var w := |rows[i]|;
      Histogram(rows[..i + 1]) == h[w := (if w in h then h[w] else 0) + 1]
  {
    var h := Histogram(rows[..i]);
    var w := |rows[i]|;
    var p := rows[..i + 1];
    assert p[..i] == rows[..i];
    assert Widths(p) == Widths(rows[..i]) + {w} by {
      forall x | x in Widths(p) ensures x in Widths(rows[..i]) + {w} {
        var j :| 0 <= j < |p| && |p[j]| == x;
        if j < i { assert rows[..i][j] == p[j]; }
      }
      forall x | x in Widths(rows[..i]) ensures x in Widths(p) {
        var j :| 0 <= j < i && |rows[..i][j]| == x;
        assert p[j] == rows[..i][j];
      }
      assert |p[i]| == w;
    }
    if w !in h {
      CountWidthAbsent(rows[..i], w);
    }
  }

  /** The histogram's keys are exactly the widths that occur. */
  lemma HistogramKeys(rows: seq<seq<string>>)
    ensures Histogram(rows).Keys == Widths(rows)
  {
  }

  /** The histogram's counts add up to the number of rows. */
  lemma {:induction false} HistogramTotal(rows: seq<seq<string>>)
    ensures Total(Histogram(rows)) == |rows|
    decreases |rows|
  {
    if |rows| > 0 {
      var n := |rows| - 1;
      HistogramTotal(rows[..n]);
      HistogramStep(rows, n);
      assert rows[..n + 1] == rows;
      TotalBump(Histogram(rows[..n]), |rows[n]|);
    }
  }

  /** Counting one more item of kind `w` adds one to the total. */
  lemma TotalBump(h: map<nat, nat>, w: nat)
    ensures Total(h[w := (if w in h then h[w] else 0) + 1]) == Total(h) + 1
  {
    if w in h {
      TotalBumpKnown(h, w);
    } else {
      TotalBumpNew(h, w);
    }
  }

  lemma TotalBumpKnown(h: map<nat, nat>, w: nat)
    requires w in h
    ensures Total(h[w := h[w] + 1]) == Total(h) + 1
  {
    TotalUpdate(h, w, h[w] + 1);
    TotalRemove(h, w);
  }

  lemma TotalBumpNew(h: map<nat, nat>, w: nat)
    requires w !in h
    ensures Total(h[w := 1]) == Total(h) + 1
  {
    TotalUpdate(h, w, 1);
    assert h - {w} == h;
  }

  /** `check_tsv(filename, strict)` over the rows the csv reader yields. */
  method CheckTsv(table: seq<seq<string>>, strict: bool) returns (r: Result<Summary, CheckError>)
    ensures !strict ==> r.Ok?
    ensures r.Ok? ==> r.value.rows == |table|
    ensures r.Ok? ==> r.value.columns == if |table| == 0 then 0 else |table[0]|
    ensures r.Ok? ==> r.value.distribution == Histogram(table)
    ensures r.Ok? && strict ==> forall i :: 0 <= i < |table| ==> |table[i]| == |table[0]|
    ensures r.Err? ==> strict && 2 <= r.error.row <= |table|
    ensures r.Err? ==> r.error.expected == |table[0]| && r.error.got == |table[r.error.row - 1]| != r.error.expected
    ensures r.Err? ==> forall i :: 0 <= i < r.error.row - 1 ==> |table[i]| == |table[0]|
  {
    var rows: nat := 0;
    var columns: nat := 0;
    var counts: map<nat, nat> := map[];
    while rows < |table|
      invariant rows <= |table|
      invariant counts == Histogram(table[..rows])
      invariant columns == if rows == 0 then 0 else |table[0]|
      invariant strict ==> forall i :: 0 <= i < rows ==> |table[i]| == columns
    {
      var colCount := |table[rows]|;
      HistogramStep(table, rows);
      counts := counts[colCount := (if colCount in counts then counts[colCount] else 0) + 1];
      if rows == 0 {
        columns := colCount;
      } else if strict && colCount != columns {
        return Err(Inconsistent(rows + 1, columns, colCount));
      }
      rows := rows + 1;
    }
    assert table[..rows] == table;
    return Ok(Summary(rows, columns, counts));
  }

  /** A strict check that returns found a single width, so its histogram has at most one key. */
  lemma StrictSingleWidth(table: seq<seq<string>>)
    requires forall i :: 0 <= i < |table| ==> |table[i]| == |table[0]|
    ensures |Histogram(table).Keys| <= 1
  {
    assert Histogram(table).Keys == Widths(table);
    if |table| > 0 {
      assert Widths(table) == {|table[0]|};
    } else {
      assert Widths(table) == {};
    }
  }
}
