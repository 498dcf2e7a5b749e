/**
 * The script top to bottom (biostatistics_projekt.py:13-136): the quality
 * gate decides, and only when it passes are the charts' data derived.
 * Only the data each chart receives is modelled, not the drawing.
 */
module Pipeline {
  import opened Table
  import QualityGate
  import Composition
  import StageComposition
  import StatusGroups
  import SurvivalInput

  /** What the reporting steps receive, in the order the script runs them. */
  datatype Report =
    | Aborted
    | Completed(sexSlices: seq<nat>,
                stage: StageComposition.StageChart,
                statusSlices: seq<nat>,
                groups: StatusGroups.Groups,
                survival: seq<SurvivalInput.SurvivalRow>)

  /**
   * Line 18: below ten percent missing the reporting runs, otherwise it is
   * skipped. A completed report's box-plot groups are as large as the
   * matching slices of the status pie, and a non-empty table always has a
   * stage pie.
   */
  function Analyse(rows: seq<Row>): (r: Report)
    ensures r.Aborted? <==> !QualityGate.Proceeds(rows)
    ensures r.Completed? ==> |rows| > 0 && r.stage.Pie?
    ensures r.Completed? ==> |r.survival| == |rows| && |r.statusSlices| == 3
    ensures r.Completed? ==>
              |r.groups.censored| == r.statusSlices[0]
              && |r.groups.censoredTx| == r.statusSlices[1]
              && |r.groups.died| == r.statusSlices[2]
  {
    if QualityGate.Proceeds(rows) then
      SurvivalInput.RecodeIsPointwise(rows);
      Completed(Composition.SexSlices(rows),
                StageComposition.StagePie(rows),
                Composition.StatusSlices(rows),
                StatusGroups.Partition(rows),
                SurvivalInput.Recode(SurvivalInput.SurvivalView(rows)))
    else
      Aborted
  }

  function Patient(age: int, sex: string, stage: Option<int>, status: string, nDays: int): Row
  {
    Row(Some(nDays), Some(status), Some(age), Some(sex), stage)
  }

  /**
   * Ten patients, six men and four women, stages 1 to 4 twice each and two
   * missing, statuses C, C, C, CL, CL, D, D, D, D, D.
   */
  function TenPatients(): seq<Row>
  {
    [ Patient(9000, "M", Some(1), Censored, 400),   Patient(11000, "M", Some(1), Censored, 1200),
      Patient(13000, "M", Some(2), Censored, 2500), Patient(15000, "M", Some(2), CensoredTx, 3100),
      Patient(17000, "M", Some(3), CensoredTx, 800), Patient(19000, "M", Some(3), Death, 150),
      Patient(21000, "F", Some(4), Death, 1700),    Patient(23000, "F", Some(4), Death, 2200),
      Patient(24000, "F", None, Death, 950),        Patient(25000, "F", None, Death, 3900) ]
  }

  /**
   * Two null Stage cells out of fifty: 2/48 is about 4.2 percent, so the
   * gate passes; the sex pie gets [6, 4], the status pie [3, 2, 5], and the
   * stage pie five slices of two rows each, one per stage 1 to 4 and one
   * for 'Unknown'.
   */
  lemma TenPatientScenario()
    ensures ScenarioReport(Analyse(TenPatients()))
  {
    TenPatientsPassGate();
    TenPatientsSlices();
    TenPatientsStages();
    ScenarioOf(TenPatients());
  }

  lemma ScenarioOf(rows: seq<Row>)
    requires QualityGate.Proceeds(rows)
    requires Composition.SexSlices(rows) == [6, 4] && Composition.StatusSlices(rows) == [3, 2, 5]
    requires FiveStagePairs(StageComposition.StagePie(rows))
    ensures ScenarioReport(Analyse(rows))
  {
  }

  /** A table that passes the gate is reported with the slices and the pie of its own rows. */
  /** The report the ten-patient table is expected to give. */
  ghost predicate ScenarioReport(r: Report)
  {
    && r.Completed?
    && r.sexSlices == [6, 4]
    && r.statusSlices == [3, 2, 5]
    && FiveStagePairs(r.stage)
  }

  /** Five slices of 2, one for each of stages 1 to 4 and one for 'Unknown'. */
  ghost predicate FiveStagePairs(chart: StageComposition.StageChart)
  {
    && chart.Pie?
    && |chart.counts| == 5
    && (forall i | 0 <= i < 5 :: chart.counts[i].1 == 2)
    && forall v :: v in StageComposition.Categories(chart.counts) <==> v in TenPatientStages()
  }

  lemma TenPatientsPassGate()
    ensures QualityGate.Missing(TenPatients()) == 2
    ensures QualityGate.Proceeds(TenPatients())
  {
    var rows := TenPatients();
    assert |rows| == 10;
    assert ColumnNulls(rows, NDays) == 0 && ColumnNulls(rows, Status) == 0 && ColumnNulls(rows, Age) == 0;
    assert ColumnNulls(rows, Sex) == 0 && ColumnNulls(rows, Stage) == 2;
    QualityGate.GateFromColumnNulls(rows, 2);
  }

  lemma TenPatientsSlices()
    ensures Composition.SexSlices(TenPatients()) == [6, 4]
    ensures Composition.StatusSlices(TenPatients()) == [3, 2, 5]
  {
    var rows := TenPatients();
    TenPatientsOccurrences(SexColumn(rows), Composition.Male);
    TenPatientsOccurrences(SexColumn(rows), Composition.Female);
    TenPatientsOccurrences(StatusColumn(rows), Censored);
    TenPatientsOccurrences(StatusColumn(rows), CensoredTx);
    TenPatientsOccurrences(StatusColumn(rows), Death);
  }

  /** Unfolds `Occurrences` over a ten-cell column. */
  lemma TenPatientsOccurrences(col: seq<Option<string>>, v: string)
    requires |col| == 10
    ensures Occurrences(col, v) == (if col[0] == Some(v) then 1 else 0) + (if col[1] == Some(v) then 1 else 0)
      + (if col[2] == Some(v) then 1 else 0) + (if col[3] == Some(v) then 1 else 0)
      + (if col[4] == Some(v) then 1 else 0) + (if col[5] == Some(v) then 1 else 0)
      + (if col[6] == Some(v) then 1 else 0) + (if col[7] == Some(v) then 1 else 0)
      + (if col[8] == Some(v) then 1 else 0) + (if col[9] == Some(v) then 1 else 0)
  {
    forall k | 0 <= k < 10
      ensures Occurrences(col[k..], v) == (if col[k] == Some(v) then 1 else 0) + Occurrences(col[k + 1..], v)
    {
      OccurrencesStep(col, k, v);
    }
    assert col[10..] == [] && col[0..] == col;
  }

  lemma TenPatientsStages()
    ensures FiveStagePairs(StageComposition.StagePie(TenPatients()))
  {
    TenPatientsFilled();
    StagesInPairs(TenPatients());
  }

  /** The five stage categories of the ten patients: stages 1 to 4 and 'Unknown'. */
  function TenPatientStages(): set<StageComposition.StageValue>
  {
    {StageComposition.Level(1), StageComposition.Level(2), StageComposition.Level(3),
     StageComposition.Level(4), StageComposition.Unknown}
  }

  /** A table whose filled Stage column is two of each category gets five slices of 2, one per category. */
  lemma StagesInPairs(rows: seq<Row>)
    requires StageComposition.FillStage(rows) == StagePairs()
    ensures FiveStagePairs(StageComposition.StagePie(rows))
  {
    var chart := StageComposition.StagePie(rows);
    StagePairsTallies();
    StageComposition.EvenValueCounts(StagePairs(), chart.counts, 2);
    StagePairsCategories();
  }

  lemma StagePairsCategories()
    ensures forall v :: v in StagePairs() <==> v in TenPatientStages()
  {
  }

  function StagePairs(): seq<StageComposition.StageValue>
  {
    var l1, l2, l3, l4, u := StageComposition.Level(1), StageComposition.Level(2),
                             StageComposition.Level(3), StageComposition.Level(4), StageComposition.Unknown;
    [l1, l1] + [l2, l2] + [l3, l3] + [l4, l4] + [u, u]
  }

  lemma TenPatientsFilled()
    ensures StageComposition.FillStage(TenPatients()) == StagePairs()
  {
  }

  lemma StagePairsTallies()
    ensures forall v | v in StagePairs() :: StageComposition.Tally(StagePairs(), v) == 2
  {
    var l1, l2, l3, l4, u := StageComposition.Level(1), StageComposition.Level(2),
                             StageComposition.Level(3), StageComposition.Level(4), StageComposition.Unknown;
    forall v | v in StagePairs() ensures StageComposition.Tally(StagePairs(), v) == 2 {
      TallyAppend([l1, l1] + [l2, l2] + [l3, l3] + [l4, l4], [u, u], v);
      TallyAppend([l1, l1] + [l2, l2] + [l3, l3], [l4, l4], v);
      TallyAppend([l1, l1] + [l2, l2], [l3, l3], v);
      TallyAppend([l1, l1], [l2, l2], v);
      TallyOfPair(l1, v);
      TallyOfPair(l2, v);
      TallyOfPair(l3, v);
      TallyOfPair(l4, v);
      TallyOfPair(u, v);
    }
  }

  lemma TallyOfPair(a: StageComposition.StageValue, v: StageComposition.StageValue)
    ensures StageComposition.Tally([a, a], v) == if a == v then 2 else 0
  {
    assert [a, a][1..] == [a];
    assert [a][1..] == [];
    assert StageComposition.Tally([a], v) == (if a == v then 1 else 0) + StageComposition.Tally([], v);
  }

  lemma {:induction false} TallyAppend(a: seq<StageComposition.StageValue>, b: seq<StageComposition.StageValue>,
                                       v: StageComposition.StageValue)
    ensures StageComposition.Tally(a + b, v) == StageComposition.Tally(a, v) + StageComposition.Tally(b, v)
  {
    if a == [] {
      assert a + b == b;
    } else {
      assert (a + b)[1..] == a[1..] + b;
      TallyAppend(a[1..], b, v);
    }
  }

  lemma OccurrencesStep(col: seq<Option<string>>, k: nat, v: string)
    requires k < |col|
    ensures Occurrences(col[k..], v) == (if col[k] == Some(v) then 1 else 0) + Occurrences(col[k + 1..], v)
  {
    assert col[k..][1..] == col[k + 1..];
  }
}
