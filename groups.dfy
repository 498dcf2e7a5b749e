/**
 * The three status groups of the box plot (biostatistics_projekt.py:101-103):
 * `our_patients.loc[our_patients['Status'] == s]` for s = 'C', 'CL', 'D'.
 */
module StatusGroups {
  import opened Table
  import Composition

  /** `rows.loc[rows['Status'] == s]`: the rows with status `s`, in table order. */
  function WithStatus(rows: seq<Row>, s: string): (group: seq<Row>)
    ensures |group| == Occurrences(StatusColumn(rows), s)
    ensures forall j | 0 <= j < |group| :: group[j].status == Some(s)
  {
    if rows == [] then []
    else
      assert StatusColumn(rows)[1..] == StatusColumn(rows[1..]);
      (if rows[0].status == Some(s) then [rows[0]] else []) + WithStatus(rows[1..], s)
  }

  /** The positions in `rows` of the rows with status `s`, increasing. */
  function MatchingIndices(rows: seq<Row>, s: string): (idx: seq<nat>)
    ensures forall j | 0 <= j < |idx| :: idx[j] < |rows|
    ensures forall j, k | 0 <= j < k < |idx| :: idx[j] < idx[k]
    ensures forall p :: p in idx <==> 0 <= p < |rows| && rows[p].status == Some(s)
  {
    if rows == [] then []
    else
      var tail := MatchingIndices(rows[1..], s);
      ShiftedMatches(rows, s, tail);
      var shifted := Shift(tail);
      (if rows[0].status == Some(s) then [0] else []) + shifted
  }

  function Shift(idx: seq<nat>): seq<nat>
  {
    seq(|idx|, j requires 0 <= j < |idx| => idx[j] + 1)
  }

  /** The matching positions of the tail, moved up by one, are the matching positions past the head. */
  lemma ShiftedMatches(rows: seq<Row>, s: string, tail: seq<nat>)
    requires rows != []
    requires forall p :: p in tail <==> 0 <= p < |rows| - 1 && rows[1..][p].status == Some(s)
    ensures forall p :: p in Shift(tail) <==> 1 <= p < |rows| && rows[p].status == Some(s)
  {
    var shifted := Shift(tail);
    forall p ensures p in shifted <==> 1 <= p < |rows| && rows[p].status == Some(s) {
      if p in shifted {
        var j :| 0 <= j < |shifted| && shifted[j] == p;
        assert tail[j] in tail;
      }
      if 1 <= p < |rows| && rows[p].status == Some(s) {
        assert rows[1..][p - 1] == rows[p];
        var j :| 0 <= j < |tail| && tail[j] == p - 1;
        assert shifted[j] == p;
      }
    }
  }

  /**
   * A group is an order-preserving selection: its j-th row is the row of
   * the table at the j-th matching position.
   */
  lemma {:induction false} WithStatusSelects(rows: seq<Row>, s: string)
    ensures |MatchingIndices(rows, s)| == |WithStatus(rows, s)|
    ensures forall j | 0 <= j < |WithStatus(rows, s)| :: WithStatus(rows, s)[j] == rows[MatchingIndices(rows, s)[j]]
  {
    if rows != [] {
      WithStatusSelects(rows[1..], s);
      var g', idx' := WithStatus(rows[1..], s), MatchingIndices(rows[1..], s);
      var matches := rows[0].status == Some(s);
      assert WithStatus(rows, s) == (if matches then [rows[0]] else []) + g';
      assert MatchingIndices(rows, s) == (if matches then [0] else []) + Shift(idx');
      SelectionCons(rows, g', idx', matches);
    }
  }

  /** Prepending the head row (or not) to a selection of the tail gives a selection of the whole. */
  lemma SelectionCons(rows: seq<Row>, g: seq<Row>, idx: seq<nat>, withHead: bool)
    requires rows != [] && |g| == |idx|
    requires forall j | 0 <= j < |g| :: idx[j] < |rows| - 1 && g[j] == rows[1..][idx[j]]
    ensures var g', idx' := (if withHead then [rows[0]] else []) + g, (if withHead then [0] else []) + Shift(idx);
            |g'| == |idx'| && forall j | 0 <= j < |g'| :: g'[j] == rows[idx'[j]]
  {
    var h: seq<Row> := if withHead then [rows[0]] else [];
    var hi: seq<nat> := if withHead then [0] else [];
    forall j | 0 <= j < |h + g| ensures (h + g)[j] == rows[(hi + Shift(idx))[j]] {
      if j >= |h| {
        assert (h + g)[j] == g[j - |h|];
        assert (hi + Shift(idx))[j] == idx[j - |h|] + 1;
      }
    }
  }

  /** The three frames the box plot draws, one per status code. */
  datatype Groups = Groups(censored: seq<Row>, censoredTx: seq<Row>, died: seq<Row>)

  /** Lines 101-103; each group is as large as its slice of the status pie. */
  function Partition(rows: seq<Row>): (g: Groups)
    ensures |g.censored| == Occurrences(StatusColumn(rows), Censored)
    ensures |g.censoredTx| == Occurrences(StatusColumn(rows), CensoredTx)
    ensures |g.died| == Occurrences(StatusColumn(rows), Death)
    ensures forall j | 0 <= j < |g.censored| :: g.censored[j].status == Some(Censored)
    ensures forall j | 0 <= j < |g.censoredTx| :: g.censoredTx[j].status == Some(CensoredTx)
    ensures forall j | 0 <= j < |g.died| :: g.died[j].status == Some(Death)
  {
    Groups(WithStatus(rows, Censored), WithStatus(rows, CensoredTx), WithStatus(rows, Death))
  }

  /**
   * By row position, the three groups are pairwise disjoint, and together
   * they are exactly the rows whose status is one of the three codes.
   */
  lemma PartitionByPosition(rows: seq<Row>)
    ensures forall p :: !(p in MatchingIndices(rows, Censored) && p in MatchingIndices(rows, CensoredTx))
    ensures forall p :: !(p in MatchingIndices(rows, Censored) && p in MatchingIndices(rows, Death))
    ensures forall p :: !(p in MatchingIndices(rows, CensoredTx) && p in MatchingIndices(rows, Death))
    ensures forall p | 0 <= p < |rows| ::
              (p in MatchingIndices(rows, Censored) || p in MatchingIndices(rows, CensoredTx)
               || p in MatchingIndices(rows, Death))
              <==> rows[p].status in {Some(Censored), Some(CensoredTx), Some(Death)}
  {
  }

  /**
   * The three groups never hold more rows than the table, and hold all of
   * them exactly when every row has one of the three status codes.
   */
  lemma GroupSizes(rows: seq<Row>)
    ensures var g := Partition(rows);
            |g.censored| + |g.censoredTx| + |g.died| <= |rows|
    ensures var g := Partition(rows);
            |g.censored| + |g.censoredTx| + |g.died| == |rows| <==>
              forall i | 0 <= i < |rows| :: rows[i].status in {Some(Censored), Some(CensoredTx), Some(Death)}
  {
    Composition.StatusCountsAmong(StatusColumn(rows));
    assert forall i | 0 <= i < |rows| :: StatusColumn(rows)[i] == rows[i].status;
  }
}
