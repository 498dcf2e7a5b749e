/**
 * The slice values of the sex pie chart (biostatistics_projekt.py:34-39)
 * and of the status pie chart (lines 77-85): numbers of rows equal to each
 * category, by boolean-mask filtering, in a fixed order.
 */
module Composition {
  import opened Table

  const Male: string := "M"
  const Female: string := "F"

  /** `[male, female]`: the rows whose Sex is 'M', then those whose Sex is 'F'. */
  function SexSlices(rows: seq<Row>): (slices: seq<nat>)
    ensures |slices| == 2
    ensures slices[0] == Occurrences(SexColumn(rows), Male)
    ensures slices[1] == Occurrences(SexColumn(rows), Female)
    ensures slices[0] + slices[1] <= |rows|
    ensures slices[0] + slices[1] == |rows| <==>
              forall i | 0 <= i < |rows| :: rows[i].sex == Some(Male) || rows[i].sex == Some(Female)
  {
    var col := SexColumn(rows);
    OccurrencesAmongInsert(col, Male, {Female});
    OccurrencesAmongSingle(col, Female);
    assert {Male} + {Female} == {Male, Female};
    assert forall i | 0 <= i < |rows| :: col[i] == rows[i].sex;
    [Occurrences(col, Male), Occurrences(col, Female)]
  }

  /** `status_list = [C, CL, D]`: the rows with each status code, in that order. */
  function StatusSlices(rows: seq<Row>): (slices: seq<nat>)
    ensures |slices| == 3
    ensures slices[0] == Occurrences(StatusColumn(rows), Censored)
    ensures slices[1] == Occurrences(StatusColumn(rows), CensoredTx)
    ensures slices[2] == Occurrences(StatusColumn(rows), Death)
    ensures slices[0] + slices[1] + slices[2] <= |rows|
    ensures slices[0] + slices[1] + slices[2] == |rows| <==>
              forall i | 0 <= i < |rows| :: rows[i].status in {Some(Censored), Some(CensoredTx), Some(Death)}
  {
    var col := StatusColumn(rows);
    StatusCountsAmong(col);
    assert forall i | 0 <= i < |rows| :: col[i] == rows[i].status;
    [Occurrences(col, Censored), Occurrences(col, CensoredTx), Occurrences(col, Death)]
  }

  /** The three status counts add up to the rows whose status is one of the three codes. */
  lemma StatusCountsAmong(col: seq<Option<string>>)
    ensures Occurrences(col, Censored) + Occurrences(col, CensoredTx) + Occurrences(col, Death)
            == OccurrencesAmong(col, {Censored, CensoredTx, Death})
  {
    OccurrencesAmongInsert(col, Censored, {CensoredTx, Death});
    OccurrencesAmongInsert(col, CensoredTx, {Death});
    OccurrencesAmongSingle(col, Death);
    assert {Censored} + {CensoredTx, Death} == {Censored, CensoredTx, Death};
    assert {CensoredTx} + {Death} == {CensoredTx, Death};
  }
}
