/**
 * The input of the Kaplan-Meier fit (biostatistics_projekt.py:121-122):
 * the (Status, N_Days) view of the table, with `replace('D', 0)` and then
 * `replace(['C', 'CL'], 1)` applied to every cell of the view.
 */
module SurvivalInput {
  import opened Table

  /** A cell of the two-column view: a number, a text, or null. */
  datatype Cell = Num(n: int) | Text(s: string) | Null

  datatype SurvivalRow = SurvivalRow(status: Cell, nDays: Cell)

  function TextCell(o: Option<string>): Cell
  {
    if o.Some? then Text(o.value) else Null
  }

  function NumCell(o: Option<int>): Cell
  {
    if o.Some? then Num(o.value) else Null
  }

  /** `our_patients.loc[:, ['Status', 'N_Days']]` */
  function SurvivalView(rows: seq<Row>): (view: seq<SurvivalRow>)
    ensures |view| == |rows|
  {
    seq(|rows|, i requires 0 <= i < |rows| => SurvivalRow(TextCell(rows[i].status), NumCell(rows[i].nDays)))
  }

  /** `replace(targets, value)` on one cell: only a text equal to a target changes. */
  function ReplaceCell(c: Cell, targets: set<string>, value: int): Cell
  {
    if c.Text? && c.s in targets then Num(value) else c
  }

  /** `DataFrame.replace(targets, value)`: the same replacement in every cell of every column. */
  function Replace(view: seq<SurvivalRow>, targets: set<string>, value: int): (r: seq<SurvivalRow>)
    ensures |r| == |view|
  {
    if view == [] then []
    else
      [SurvivalRow(ReplaceCell(view[0].status, targets, value), ReplaceCell(view[0].nDays, targets, value))]
      + Replace(view[1..], targets, value)
  }

  /** `n_df.replace('D', 0).replace(['C', 'CL'], 1)` */
  function Recode(view: seq<SurvivalRow>): (r: seq<SurvivalRow>)
    ensures |r| == |view|
  {
    Replace(Replace(view, {Death}, 0), {Censored, CensoredTx}, 1)
  }

  /**
   * The recoding, status by status: 'D' becomes 0, 'C' and 'CL' become 1,
   * any other text and a null stay as they are.
   */
  function EventIndicator(status: Option<string>): Cell
  {
    if status == Some(Death) then Num(0)
    else if status == Some(Censored) || status == Some(CensoredTx) then Num(1)
    else TextCell(status)
  }

  lemma {:induction false} ReplaceAt(view: seq<SurvivalRow>, targets: set<string>, value: int, i: nat)
    requires i < |view|
    ensures Replace(view, targets, value)[i]
            == SurvivalRow(ReplaceCell(view[i].status, targets, value), ReplaceCell(view[i].nDays, targets, value))
  {
    if i > 0 {
      ReplaceAt(view[1..], targets, value, i - 1);
    }
  }

  /**
   * The recoded view has one row per patient; its status is the event
   * indicator of that patient's own status alone, and its N_Days is the
   * patient's N_Days unchanged.
   */
  lemma RecodeIsPointwise(rows: seq<Row>)
    ensures |Recode(SurvivalView(rows))| == |rows|
    ensures forall i | 0 <= i < |rows| ::
              Recode(SurvivalView(rows))[i] == SurvivalRow(EventIndicator(rows[i].status), NumCell(rows[i].nDays))
  {
    var view := SurvivalView(rows);
    forall i | 0 <= i < |rows|
      ensures Recode(view)[i] == SurvivalRow(EventIndicator(rows[i].status), NumCell(rows[i].nDays))
    {
      ReplaceAt(view, {Death}, 0, i);
      ReplaceAt(Replace(view, {Death}, 0), {Censored, CensoredTx}, 1, i);
    }
  }

  /** The event indicator is 0 for death, 1 for both kinds of censoring. */
  lemma EventIndicatorValues(status: Option<string>)
    ensures status == Some(Death) <==> EventIndicator(status) == Num(0)
    ensures status == Some(Censored) || status == Some(CensoredTx) <==> EventIndicator(status) == Num(1)
    ensures status.None? <==> EventIndicator(status) == Null
  {
  }
}
