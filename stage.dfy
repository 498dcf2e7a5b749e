/**
 * The disease-stage pie chart of biostatistics_projekt.py (lines 45-57):
 * missing stages are filled with 'Unknown', the categories are counted
 * and listed by descending frequency, and a fixed list of five labels is
 * laid over those counts by position.
 */
module StageComposition {
  import opened Table

  /** A cell of the filled Stage series: a stage number or the text 'Unknown'. */
  datatype StageValue = Level(stage: int) | Unknown

  /** The labels the chart puts on the slices, first to last. */
  const StageLabels: seq<string> := ["Stage 3", "Stage 4", "Stage 2", "Stage 1", "No Data"]

  /** `our_patients['Stage'].fillna('Unknown')` */
  function FillStage(rows: seq<Row>): (filled: seq<StageValue>)
    ensures |filled| == |rows|
    ensures forall i | 0 <= i < |rows| :: rows[i].stage.None? ==> filled[i] == Unknown
    ensures forall i | 0 <= i < |rows| :: rows[i].stage.Some? ==> filled[i] == Level(rows[i].stage.value)
  {
    seq(|rows|, i requires 0 <= i < |rows| =>
      if rows[i].stage.None? then Unknown else Level(rows[i].stage.value))
  }

  /** How often `v` occurs in `xs`. */
  function Tally(xs: seq<StageValue>, v: StageValue): nat
  {
    if xs == [] then 0 else (if xs[0] == v then 1 else 0) + Tally(xs[1..], v)
  }

  /** A category has a positive frequency exactly when it occurs. */
  lemma {:induction false} TallyPositive(xs: seq<StageValue>, v: StageValue)
    ensures Tally(xs, v) > 0 <==> v in xs
  {
    if xs != [] {
      TallyPositive(xs[1..], v);
      assert xs == [xs[0]] + xs[1..];
    }
  }

  ghost predicate NoDuplicates(ks: seq<StageValue>)
  {
    forall i, j | 0 <= i < j < |ks| :: ks[i] != ks[j]
  }

  /** Listed by descending frequency in `xs`. */
  ghost predicate ByDescendingTally(ks: seq<StageValue>, xs: seq<StageValue>)
  {
    forall i, j | 0 <= i < j < |ks| :: Tally(xs, ks[i]) >= Tally(xs, ks[j])
  }

  /** The categories of `xs`, each once, in order of first occurrence. */
  function Distinct(xs: seq<StageValue>): (ks: seq<StageValue>)
    ensures NoDuplicates(ks)
    ensures forall v :: v in ks <==> v in xs
  {
    if xs == [] then []
    else
      var prefix := Distinct(xs[..|xs| - 1]);
      var last := xs[|xs| - 1];
      assert xs == xs[..|xs| - 1] + [last];
      if last in prefix then prefix else prefix + [last]
  }

  /** Puts `k` before the first category that is no more frequent than it (ties included). */
  function Insert(k: StageValue, ks: seq<StageValue>, xs: seq<StageValue>): (r: seq<StageValue>)
    ensures |r| == |ks| + 1
    ensures forall v :: v in r <==> v == k || v in ks
  {
    if ks == [] || Tally(xs, k) >= Tally(xs, ks[0]) then [k] + ks
    else [ks[0]] + Insert(k, ks[1..], xs)
  }

  lemma {:induction false} InsertKeepsOrder(k: StageValue, ks: seq<StageValue>, xs: seq<StageValue>)
    requires ByDescendingTally(ks, xs)
    ensures ByDescendingTally(Insert(k, ks, xs), xs)
  {
    if ks != [] && Tally(xs, k) < Tally(xs, ks[0]) {
      var rest := Insert(k, ks[1..], xs);
      assert ByDescendingTally(ks[1..], xs);
      InsertKeepsOrder(k, ks[1..], xs);
      assert forall v | v in rest :: Tally(xs, v) <= Tally(xs, ks[0]);
      assert Insert(k, ks, xs) == [ks[0]] + rest;
    }
  }

  lemma {:induction false} InsertKeepsDistinct(k: StageValue, ks: seq<StageValue>, xs: seq<StageValue>)
    ensures NoDuplicates(ks) && k !in ks ==> NoDuplicates(Insert(k, ks, xs))
  {
    if NoDuplicates(ks) && k !in ks && ks != [] && Tally(xs, k) < Tally(xs, ks[0]) {
      var rest := Insert(k, ks[1..], xs);
      assert NoDuplicates(ks[1..]);
      InsertKeepsDistinct(k, ks[1..], xs);
      assert ks[0] !in rest;
      assert Insert(k, ks, xs) == [ks[0]] + rest;
    }
  }

  /** Orders the categories `ks` by descending frequency in `xs` (insertion sort). */
  function SortByTally(ks: seq<StageValue>, xs: seq<StageValue>): (r: seq<StageValue>)
    ensures |r| == |ks|
    ensures forall v :: v in r <==> v in ks
    ensures ByDescendingTally(r, xs)
    ensures NoDuplicates(ks) ==> NoDuplicates(r)
  {
    if ks == [] then []
    else
      var rest := SortByTally(ks[1..], xs);
      InsertKeepsOrder(ks[0], rest, xs);
      assert NoDuplicates(ks) ==> NoDuplicates(ks[1..]) && ks[0] !in ks[1..];
      InsertKeepsDistinct(ks[0], rest, xs);
      Insert(ks[0], rest, xs)
  }

  /** Pairs each category with its frequency. */
  function WithTallies(ks: seq<StageValue>, xs: seq<StageValue>): seq<(StageValue, nat)>
  {
    seq(|ks|, i requires 0 <= i < |ks| => (ks[i], Tally(xs, ks[i])))
  }

  function Categories(vc: seq<(StageValue, nat)>): seq<StageValue>
  {
    seq(|vc|, i requires 0 <= i < |vc| => vc[i].0)
  }

  function SumCounts(vc: seq<(StageValue, nat)>): nat
  {
    if vc == [] then 0 else vc[0].1 + SumCounts(vc[1..])
  }

  /**
   * What `value_counts()` of `xs` is: each category of `xs` exactly once,
   * with its positive frequency, by non-increasing frequency, the
   * frequencies adding up to the length of `xs`.
   */
  ghost predicate IsValueCounts(xs: seq<StageValue>, vc: seq<(StageValue, nat)>)
  {
    && NoDuplicates(Categories(vc))
    && (forall v :: v in Categories(vc) <==> v in xs)
    && (forall i | 0 <= i < |vc| :: vc[i].1 == Tally(xs, vc[i].0) && vc[i].1 > 0)
    && (forall i, j | 0 <= i < j < |vc| :: vc[i].1 >= vc[j].1)
    && SumCounts(vc) == |xs|
  }

  /** `stage.value_counts()`; among equal frequencies, first occurrence comes first. */
  function ValueCounts(xs: seq<StageValue>): (vc: seq<(StageValue, nat)>)
    ensures IsValueCounts(xs, vc)
  {
    var ks := SortByTally(Distinct(xs), xs);
    var vc := WithTallies(ks, xs);
    assert Categories(vc) == ks;
    forall v | v in ks ensures Tally(xs, v) > 0 {
      TallyPositive(xs, v);
    }
    SumOfTallies(ks, xs);
    vc
  }

  /** How many elements of `xs` lie in `s`. */
  function TallyAmong(xs: seq<StageValue>, s: set<StageValue>): nat
  {
    if xs == [] then 0 else (if xs[0] in s then 1 else 0) + TallyAmong(xs[1..], s)
  }

  lemma {:induction false} TallyAmongInsert(xs: seq<StageValue>, k: StageValue, s: set<StageValue>)
    requires k !in s
    ensures TallyAmong(xs, {k} + s) == Tally(xs, k) + TallyAmong(xs, s)
  {
    if xs != [] {
      TallyAmongInsert(xs[1..], k, s);
    }
  }

  lemma {:induction false} TallyAmongAll(xs: seq<StageValue>, s: set<StageValue>)
    requires forall v | v in xs :: v in s
    ensures TallyAmong(xs, s) == |xs|
  {
    if xs != [] {
      assert xs[0] in xs;
      TallyAmongAll(xs[1..], s);
    }
  }

  lemma {:induction false} SumOfTalliesAmong(ks: seq<StageValue>, xs: seq<StageValue>)
    requires NoDuplicates(ks)
    ensures SumCounts(WithTallies(ks, xs)) == TallyAmong(xs, set v | v in ks)
  {
    if ks == [] {
      assert (set v | v in ks) == {};
      TallyAmongNone(xs);
    } else {
      assert WithTallies(ks, xs)[1..] == WithTallies(ks[1..], xs);
      assert NoDuplicates(ks[1..]);
      SumOfTalliesAmong(ks[1..], xs);
      assert ks[0] !in ks[1..];
      assert (set v | v in ks) == {ks[0]} + (set v | v in ks[1..]);
      TallyAmongInsert(xs, ks[0], set v | v in ks[1..]);
    }
  }

  lemma {:induction false} TallyAmongNone(xs: seq<StageValue>)
    ensures TallyAmong(xs, {}) == 0
  {
    if xs != [] {
      TallyAmongNone(xs[1..]);
    }
  }

  /** Over distinct categories covering `xs`, the frequencies add up to `|xs|`. */
  lemma SumOfTallies(ks: seq<StageValue>, xs: seq<StageValue>)
    requires NoDuplicates(ks)
    requires forall v | v in xs :: v in ks
    ensures SumCounts(WithTallies(ks, xs)) == |xs|
  {
    SumOfTalliesAmong(ks, xs);
    TallyAmongAll(xs, set v | v in ks);
  }

  /** The chart the script draws, or its "no valid data" notice. */
  datatype StageChart = Pie(counts: seq<(StageValue, nat)>, labels: seq<string>) | NoValidData

  /**
   * Lines 46-57: fill, count, and either draw the pie with the fixed labels
   * or report that there is no valid data. The pie's slices are the value
   * counts; label i goes on slice i.
   */
  function StagePie(rows: seq<Row>): (chart: StageChart)
    ensures chart.NoValidData? <==> |rows| == 0
    ensures chart.Pie? ==> chart.labels == StageLabels && IsValueCounts(FillStage(rows), chart.counts)
  {
    var counts := ValueCounts(FillStage(rows));
    if counts != [] then Pie(counts, StageLabels) else NoValidData
  }

  /**
   * Label i is laid on the i-th largest count, whatever category that count
   * belongs to: the label names a stage only by position.
   */
  lemma LabelsArePositional(rows: seq<Row>, i: nat)
    requires StagePie(rows).Pie?
    requires i < |StagePie(rows).counts| && i < |StageLabels|
    ensures StagePie(rows).labels[i] == StageLabels[i]
    ensures forall j | i < j < |StagePie(rows).counts| :: StagePie(rows).counts[i].1 >= StagePie(rows).counts[j].1
    ensures StagePie(rows).counts[i].1 == Tally(FillStage(rows), StagePie(rows).counts[i].0)
  {
  }

  /**
   * A non-empty table whose Stage column is entirely missing yields one
   * slice, of category 'Unknown' and size |rows|; the label list handed to
   * the pie for that one slice starts with 'Stage 3', not with 'No Data'.
   */
  lemma AllMissingStagesLabelledStage3(rows: seq<Row>)
    requires |rows| > 0
    requires forall i | 0 <= i < |rows| :: rows[i].stage.None?
    ensures StagePie(rows) == Pie([(Unknown, |rows|)], StageLabels)
    ensures StagePie(rows).labels[0] == "Stage 3"
  {
    var xs := FillStage(rows);
    var chart := StagePie(rows);
    var vc := chart.counts;
    assert forall v | v in xs :: v == Unknown;
    assert xs[0] in xs;
    assert Unknown in Categories(vc);
    forall i | 0 <= i < |vc| ensures vc[i].0 == Unknown {
      assert Categories(vc)[i] in xs;
    }
    TallyOfConstant(xs, Unknown);
    SumOfEqualCounts(vc, |xs|);
    assert |xs| * |vc| == |xs| * 1;
  }

  /**
   * When every category of the series is equally frequent, `k` times, every
   * slice of the value counts is `k` rows, and there are |xs| / k slices.
   */
  lemma EvenValueCounts(xs: seq<StageValue>, vc: seq<(StageValue, nat)>, k: nat)
    requires IsValueCounts(xs, vc)
    requires forall v | v in xs :: Tally(xs, v) == k
    ensures forall i | 0 <= i < |vc| :: vc[i].1 == k
    ensures k * |vc| == |xs|
  {
    forall i | 0 <= i < |vc| ensures vc[i].1 == k {
      assert Categories(vc)[i] in xs;
    }
    SumOfEqualCounts(vc, k);
  }

  /** Frequencies that are all `c` add up to `c` times their number. */
  lemma {:induction false} SumOfEqualCounts(vc: seq<(StageValue, nat)>, c: nat)
    requires forall i | 0 <= i < |vc| :: vc[i].1 == c
    ensures SumCounts(vc) == c * |vc|
  {
    if vc != [] {
      SumOfEqualCounts(vc[1..], c);
    }
  }

  lemma {:induction false} TallyOfConstant(xs: seq<StageValue>, v: StageValue)
    requires forall i | 0 <= i < |xs| :: xs[i] == v
    ensures Tally(xs, v) == |xs|
  {
    if xs != [] {
      TallyOfConstant(xs[1..], v);
    }
  }
}
