/**
 * The working table of the cirrhosis analysis: one record per patient,
 * restricted to the five columns the analysis reads (N_Days, Status, Age,
 * Sex, Stage). Any cell may be null, as a NaN is in the loaded frame.
 */
module Table {

  datatype Option<T> = None | Some(value: T)

  /** The five projected columns, in the order the script selects them. */
  datatype Column = NDays | Status | Age | Sex | Stage

  const Projection: seq<Column> := [NDays, Status, Age, Sex, Stage]

  /** The status codes of the data set: censored, censored due to liver transplant, death. */
  const Censored: string := "C"
  const CensoredTx: string := "CL"
  const Death: string := "D"

  datatype Row = Row(nDays: Option<int>, status: Option<string>, age: Option<int>,
                     sex: Option<string>, stage: Option<int>)

  predicate IsNull(row: Row, c: Column) {
    match c
    case NDays => row.nDays.None?
    case Status => row.status.None?
    case Age => row.age.None?
    case Sex => row.sex.None?
    case Stage => row.stage.None?
  }

  /** `isnull().sum()` of one column: how many of its cells are null. */
  function ColumnNulls(rows: seq<Row>, c: Column): (k: nat)
    ensures k <= |rows|
  {
    if rows == [] then 0
    else (if IsNull(rows[0], c) then 1 else 0) + ColumnNulls(rows[1..], c)
  }

  /** `count()` of one column: how many of its cells are not null. */
  function ColumnCount(rows: seq<Row>, c: Column): (k: nat)
    ensures k + ColumnNulls(rows, c) == |rows|
  {
    if rows == [] then 0
    else (if IsNull(rows[0], c) then 0 else 1) + ColumnCount(rows[1..], c)
  }

  /** `isnull().sum().sum()` over the columns `cols`. */
  function NullCells(rows: seq<Row>, cols: seq<Column>): (k: nat)
    ensures k <= |cols| * |rows|
  {
    if cols == [] then 0
    else
      var k := ColumnNulls(rows, cols[0]) + NullCells(rows, cols[1..]);
      assert |cols| * |rows| == (|cols| - 1) * |rows| + |rows|;
      k
  }

  /** `count().sum()` over the columns `cols`: every cell is either null or counted. */
  function CountCells(rows: seq<Row>, cols: seq<Column>): (k: nat)
    ensures k + NullCells(rows, cols) == |cols| * |rows|
  {
    if cols == [] then 0
    else
      var k := ColumnCount(rows, cols[0]) + CountCells(rows, cols[1..]);
      assert |cols| * |rows| == (|cols| - 1) * |rows| + |rows|;
      k
  }

  /** The Status column as a series of optional strings. */
  function StatusColumn(rows: seq<Row>): seq<Option<string>>
  {
    seq(|rows|, i requires 0 <= i < |rows| => rows[i].status)
  }

  /** The Sex column as a series of optional strings. */
  function SexColumn(rows: seq<Row>): seq<Option<string>>
  {
    seq(|rows|, i requires 0 <= i < |rows| => rows[i].sex)
  }

  /** `len(col[col == v])`: the cells equal to `v`; a null cell equals nothing. */
  function Occurrences(col: seq<Option<string>>, v: string): (k: nat)
    ensures k <= |col|
    ensures k == |col| <==> forall i | 0 <= i < |col| :: col[i] == Some(v)
  {
    if col == [] then 0
    else (if col[0] == Some(v) then 1 else 0) + Occurrences(col[1..], v)
  }

  /** The cells whose value lies in `vs`; null cells are never counted. */
  function OccurrencesAmong(col: seq<Option<string>>, vs: set<string>): (k: nat)
    ensures k <= |col|
    ensures k == |col| <==> forall i | 0 <= i < |col| :: col[i].Some? && col[i].value in vs
  {
    if col == [] then 0
    else (if col[0].Some? && col[0].value in vs then 1 else 0) + OccurrencesAmong(col[1..], vs)
  }

  /** Counting one more value is adding its occurrences. */
  lemma {:induction false} OccurrencesAmongInsert(col: seq<Option<string>>, v: string, vs: set<string>)
    requires v !in vs
    ensures OccurrencesAmong(col, {v} + vs) == Occurrences(col, v) + OccurrencesAmong(col, vs)
  {
    if col != [] {
      OccurrencesAmongInsert(col[1..], v, vs);
    }
  }

  lemma OccurrencesAmongSingle(col: seq<Option<string>>, v: string)
    ensures OccurrencesAmong(col, {v}) == Occurrences(col, v)
  {
    OccurrencesAmongInsert(col, v, {});
    assert {v} + {} == {v};
  }
}
