/**
 * The missing-value quality gate of biostatistics_projekt.py (lines 13-18):
 * the analysis proceeds only when the null cells of the five-column
 * projection are less than ten percent of its NON-null cells.
 */
module QualityGate {
  import opened Table

  /** The threshold, in percent, below which the analysis proceeds. */
  const ThresholdPercent: real := 10.0

  /**
   * numpy's value of `missing / count * 100` for two integer counts: a
   * finite ratio, `inf` for a positive count over zero, or `nan` for 0/0.
   */
  datatype Percent = Finite(value: real) | Infinite | NotANumber

  /** `our_patients.isnull().sum().sum()` */
  function Missing(rows: seq<Row>): (m: nat)
    ensures m <= |Projection| * |rows|
  {
    NullCells(rows, Projection)
  }

  /** `our_patients.count().sum()` */
  function NonNull(rows: seq<Row>): (n: nat)
    ensures n + Missing(rows) == |Projection| * |rows|
  {
    CountCells(rows, Projection)
  }

  /** Both totals are sums over the five projected columns. */
  lemma ByColumn(rows: seq<Row>)
    ensures Missing(rows) == ColumnNulls(rows, NDays) + ColumnNulls(rows, Status) + ColumnNulls(rows, Age)
                             + ColumnNulls(rows, Sex) + ColumnNulls(rows, Stage)
  {
    assert NullCells(rows, [Stage]) == ColumnNulls(rows, Stage) + NullCells(rows, []);
    assert NullCells(rows, [Sex, Stage]) == ColumnNulls(rows, Sex) + NullCells(rows, [Stage]);
    assert NullCells(rows, [Age, Sex, Stage]) == ColumnNulls(rows, Age) + NullCells(rows, [Sex, Stage]);
    assert NullCells(rows, [Status, Age, Sex, Stage]) == ColumnNulls(rows, Status) + NullCells(rows, [Age, Sex, Stage]);
    assert NullCells(rows, Projection) == ColumnNulls(rows, NDays) + NullCells(rows, [Status, Age, Sex, Stage]);
  }

  /** The two counts together cover every cell of the projection. */
  lemma CellsPartition(rows: seq<Row>)
    ensures Missing(rows) + NonNull(rows) == 5 * |rows|
  {
  }

  /** `percent = (missing_values / all_values) * 100` */
  function MissingPercent(rows: seq<Row>): (p: Percent)
    ensures p.Finite? <==> NonNull(rows) > 0
    ensures p.Finite? ==> p.value >= 0.0
    ensures p == NotANumber <==> |rows| == 0
  {
    var m, n := Missing(rows), NonNull(rows);
    CellsPartition(rows);
    if n > 0 then Finite(m as real / n as real * 100.0)
    else if m > 0 then Infinite
    else NotANumber
  }

  /** `percent < 10`, which is false for `inf` and for `nan`. */
  predicate Proceeds(rows: seq<Row>)
    ensures Proceeds(rows) ==> |rows| > 0 && NonNull(rows) > 0
  {
    var p := MissingPercent(rows);
    p.Finite? && p.value < ThresholdPercent
  }

  /** The gate, restated over integers: `missing * 100 < 10 * nonNull`. */
  lemma ProceedsIff(rows: seq<Row>)
    ensures Proceeds(rows) <==> Missing(rows) * 100 < 10 * NonNull(rows)
  {
    if NonNull(rows) > 0 {
      PercentBelowThreshold(Missing(rows), NonNull(rows));
    }
  }

  /**
   * The gate decided from the per-column null counts alone: with `k` null
   * cells it proceeds exactly when `k * 100 < 10 * (5 * rows - k)`.
   */
  lemma GateFromColumnNulls(rows: seq<Row>, k: nat)
    requires ColumnNulls(rows, NDays) + ColumnNulls(rows, Status) + ColumnNulls(rows, Age)
             + ColumnNulls(rows, Sex) + ColumnNulls(rows, Stage) == k
    ensures Missing(rows) == k && NonNull(rows) == 5 * |rows| - k
    ensures Proceeds(rows) <==> k * 100 < 10 * (5 * |rows| - k)
  {
    ByColumn(rows);
    CellsPartition(rows);
    ProceedsIff(rows);
  }

  lemma PercentBelowThreshold(m: nat, n: nat)
    requires n > 0
    ensures m as real / n as real * 100.0 < 10.0 <==> m * 100 < 10 * n
  {
    var M, N := m as real, n as real;
    var p := M / N * 100.0;
    assert p * N == M * 100.0 by {
      assert M / N * N == M;
    }
    assert (m * 100) as real == M * 100.0 && (10 * n) as real == 10.0 * N;
    if p < 10.0 {
      ScaleStrict(p, 10.0, N);
      assert M * 100.0 < 10.0 * N;
    } else {
      ScaleWeak(10.0, p, N);
      assert 10.0 * N <= M * 100.0;
    }
  }

  lemma ScaleStrict(x: real, y: real, k: real)
    requires x < y && k > 0.0
    ensures x * k < y * k
  {
  }

  lemma ScaleWeak(x: real, y: real, k: real)
    requires x <= y && k > 0.0
    ensures x * k <= y * k
  {
  }

  /** With no non-null cell (in particular, an empty table) the gate aborts. */
  lemma AbortsWithoutData(rows: seq<Row>)
    requires NonNull(rows) == 0
    ensures !Proceeds(rows)
    ensures |rows| == 0 || MissingPercent(rows) == Infinite
  {
    CellsPartition(rows);
  }

  /** A non-empty table without any null cell passes the gate at 0 percent. */
  lemma ProceedsWhenComplete(rows: seq<Row>)
    requires |rows| > 0
    requires forall i, c | 0 <= i < |rows| :: !IsNull(rows[i], c)
    ensures MissingPercent(rows) == Finite(0.0)
    ensures Proceeds(rows)
  {
    NoNullsInColumns(rows, Projection);
    CellsPartition(rows);
  }

  lemma {:induction false} NoNullsInColumns(rows: seq<Row>, cols: seq<Column>)
    requires forall i, c | 0 <= i < |rows| :: !IsNull(rows[i], c)
    ensures NullCells(rows, cols) == 0
  {
    if cols != [] {
      NoNullsInColumn(rows, cols[0]);
      NoNullsInColumns(rows, cols[1..]);
    }
  }

  lemma {:induction false} NoNullsInColumn(rows: seq<Row>, c: Column)
    requires forall i | 0 <= i < |rows| :: !IsNull(rows[i], c)
    ensures ColumnNulls(rows, c) == 0
  {
    if rows != [] {
      assert !IsNull(rows[0], c);
      NoNullsInColumn(rows[1..], c);
    }
  }

  /** `b` is `a` with zero or more null cells filled in, and nothing else changed about nullness. */
  ghost predicate MoreComplete(a: seq<Row>, b: seq<Row>)
  {
    |a| == |b| && forall i, c | 0 <= i < |a| :: IsNull(b[i], c) ==> IsNull(a[i], c)
  }

  /**
   * The gate is monotone: filling null cells of a table never turns
   * "proceed" into "abort".
   */
  lemma Monotone(a: seq<Row>, b: seq<Row>)
    requires MoreComplete(a, b)
    requires Proceeds(a)
    ensures Proceeds(b)
  {
    FewerNullCells(a, b, Projection);
    CellsPartition(a);
    CellsPartition(b);
    ProceedsIff(a);
    ProceedsIff(b);
  }

  lemma {:induction false} FewerNullCells(a: seq<Row>, b: seq<Row>, cols: seq<Column>)
    requires MoreComplete(a, b)
    ensures NullCells(b, cols) <= NullCells(a, cols)
  {
    if cols != [] {
      FewerColumnNulls(a, b, cols[0]);
      FewerNullCells(a, b, cols[1..]);
    }
  }

  lemma {:induction false} FewerColumnNulls(a: seq<Row>, b: seq<Row>, c: Column)
    requires MoreComplete(a, b)
    ensures ColumnNulls(b, c) <= ColumnNulls(a, c)
  {
    if a != [] {
      assert IsNull(b[0], c) ==> IsNull(a[0], c);
      assert MoreComplete(a[1..], b[1..]) by {
        forall i, c' | 0 <= i < |a| - 1
          ensures IsNull(b[1..][i], c') ==> IsNull(a[1..][i], c')
        {
          assert IsNull(b[i + 1], c') ==> IsNull(a[i + 1], c');
        }
      }
      FewerColumnNulls(a[1..], b[1..], c);
    }
  }

  /**
   * The reading of the gate over ALL cells of the projection (rows times
   * five), which is not what the script computes.
   */
  predicate ProceedsOverAllCells(rows: seq<Row>)
  {
    Missing(rows) * 100 < 10 * (5 * |rows|)
  }

  /**
   * Dividing by the non-null cells makes the script's gate stricter than
   * the all-cells reading: whatever the script lets through, that reading
   * lets through as well.
   */
  lemma StricterThanAllCells(rows: seq<Row>)
    ensures Proceeds(rows) ==> ProceedsOverAllCells(rows)
  {
    ProceedsIff(rows);
    CellsPartition(rows);
  }

  /**
   * Eleven rows with five null Stage cells: 5 of 55 cells (9.1 percent) are
   * missing, but the script divides by the 50 non-null cells, gets exactly
   * 10 percent, and aborts.
   */
  lemma AllCellsReadingDiffers()
    ensures var rows := ElevenRowsFiveNull();
            !Proceeds(rows) && ProceedsOverAllCells(rows)
  {
    var rows := ElevenRowsFiveNull();
    ElevenRowsColumnNulls(NDays);
    ElevenRowsColumnNulls(Status);
    ElevenRowsColumnNulls(Age);
    ElevenRowsColumnNulls(Sex);
    ElevenRowsColumnNulls(Stage);
    GateFromColumnNulls(rows, 5);
  }

  lemma ElevenRowsColumnNulls(c: Column)
    ensures |ElevenRowsFiveNull()| == 11
    ensures ColumnNulls(ElevenRowsFiveNull(), c) == if c == Stage then 5 else 0
  {
    var full, noStage := FullRow(), FullRow().(stage := None);
    var a, b := Repeat(full, 6), Repeat(noStage, 5);
    ColumnNullsAppend(a, b, c);
    ColumnNullsConstant(a, full, c);
    ColumnNullsConstant(b, noStage, c);
  }

  function FullRow(): Row
  {
    Row(Some(400), Some(Death), Some(20000), Some("F"), Some(3))
  }

  function ElevenRowsFiveNull(): seq<Row>
  {
    Repeat(FullRow(), 6) + Repeat(FullRow().(stage := None), 5)
  }

  function Repeat(r: Row, n: nat): seq<Row>
  {
    seq(n, _ => r)
  }

  lemma {:induction false} ColumnNullsAppend(a: seq<Row>, b: seq<Row>, c: Column)
    ensures ColumnNulls(a + b, c) == ColumnNulls(a, c) + ColumnNulls(b, c)
  {
    if a == [] {
      assert a + b == b;
    } else {
      assert (a + b)[1..] == a[1..] + b;
      ColumnNullsAppend(a[1..], b, c);
    }
  }

  lemma {:induction false} ColumnNullsConstant(rows: seq<Row>, r: Row, c: Column)
    requires forall i | 0 <= i < |rows| :: rows[i] == r
    ensures ColumnNulls(rows, c) == if IsNull(r, c) then |rows| else 0
  {
    if rows != [] {
      ColumnNullsConstant(rows[1..], r, c);
    }
  }
}
