/** GROUP BY: partition of the filtered rows, and what aggregates over the parts add up to. */
module Grouping {
  import opened Values
  import opened Keys
  import opened Schema
  import opened Eval

  datatype Group = Group(repr: Row, rows: seq<Row>)

  /** Every row has a cell at every GROUP BY position. */
  predicate Fits(rows: seq<Row>, pos: seq<nat>) {
    forall i, k :: 0 <= i < |rows| && 0 <= k < |pos| ==> pos[k] < |rows[i]|
  }

  predicate FitsRow(row: Row, pos: seq<nat>) { forall k :: 0 <= k < |pos| ==> pos[k] < |row| }

  function GroupValues(row: Row, pos: seq<nat>): (vs: seq<Value>)
    requires FitsRow(row, pos)
    ensures |vs| == |pos| && forall k :: 0 <= k < |pos| ==> vs[k] == row[pos[k]]
  {
    seq(|pos|, k requires 0 <= k < |pos| => row[pos[k]])
  }

  function KeyOf(row: Row, pos: seq<nat>): string
    requires FitsRow(row, pos)
  {
    GroupKey(GroupValues(row, pos))
  }

  // --- the reference -----------------------------------------------------------------------------------

  function KeysOf(rows: seq<Row>, pos: seq<nat>): (ks: seq<string>)
    requires Fits(rows, pos)
    ensures |ks| == |rows|
    decreases |rows|
  {
    if rows == [] then [] else KeysOf(rows[..|rows| - 1], pos) + [KeyOf(rows[|rows| - 1], pos)]
  }

  /** The distinct keys, in the order of their first occurrence. */
  function Distinct(ks: seq<string>): seq<string> {
    if ks == [] then []
    else
      var before, k := Distinct(ks[..|ks| - 1]), ks[|ks| - 1];
      if k in before then before else before + [k]
  }

  /** The rows with key k, in their original order. */
  function Members(rows: seq<Row>, pos: seq<nat>, k: string): seq<Row>
    requires Fits(rows, pos)
    decreases |rows|
  {
    if rows == [] then []
    else
      var before, row := Members(rows[..|rows| - 1], pos, k), rows[|rows| - 1];
      if KeyOf(row, pos) == k then before + [row] else before
  }

  predicate NoDuplicates(ks: seq<string>) { forall i, j :: 0 <= i < j < |ks| ==> ks[i] != ks[j] }

  lemma {:induction false} DistinctKeys(ks: seq<string>)
    ensures NoDuplicates(Distinct(ks))
    ensures forall k :: k in Distinct(ks) <==> k in ks
  {
    if ks != [] {
      DistinctKeys(ks[..|ks| - 1]);
      assert ks == ks[..|ks| - 1] + [ks[|ks| - 1]];
    }
  }

  lemma {:induction false} MembersNonEmpty(rows: seq<Row>, pos: seq<nat>, k: string)
    requires Fits(rows, pos)
    ensures Members(rows, pos, k) != [] <==> k in KeysOf(rows, pos)
    decreases |rows|
  {
    if rows != [] { MembersNonEmpty(rows[..|rows| - 1], pos, k); }
  }

  function GroupAt(rows: seq<Row>, pos: seq<nat>, k: string): Group
    requires Fits(rows, pos)
  {
    var ms := Members(rows, pos, k);
    Group(if ms == [] then [] else ms[0], ms)
  }

  function GroupKeys(rows: seq<Row>, pos: seq<nat>): seq<string>
    requires Fits(rows, pos)
  {
    Distinct(KeysOf(rows, pos))
  }

  /** One group per distinct key, in order of first occurrence. */
  predicate AreGroups(gs: seq<Group>, rows: seq<Row>, pos: seq<nat>)
    requires Fits(rows, pos)
  {
    var ks := GroupKeys(rows, pos);
    |gs| == |ks| && forall i :: 0 <= i < |gs| ==> gs[i] == GroupAt(rows, pos, ks[i])
  }

  // --- the grouping loop ------------------------------------------------------------------------------------

  /** The key map of the loop sends each known key to its group. */
  predicate IndexOk(gi: map<string, nat>, ks: seq<string>) {
    && (forall k :: k in gi ==> gi[k] < |ks| && ks[gi[k]] == k)
    && (forall i :: 0 <= i < |ks| ==> ks[i] in gi && gi[ks[i]] == i)
  }

  lemma GroupStep(rows: seq<Row>, pos: seq<nat>, n: nat, gs: seq<Group>, gi: map<string, nat>)
    requires Fits(rows, pos) && n < |rows| && FitsRow(rows[n], pos)
    requires AreGroups(gs, rows[..n], pos) && IndexOk(gi, GroupKeys(rows[..n], pos))
    ensures
      var row, k := rows[n], KeyOf(rows[n], pos);
      && (k in gi ==>
           && AreGroups(gs[gi[k] := Group(gs[gi[k]].repr, gs[gi[k]].rows + [row])], rows[..n + 1], pos)
           && GroupKeys(rows[..n + 1], pos) == GroupKeys(rows[..n], pos))
      && (k !in gi ==>
           && AreGroups(gs + [Group(row, [row])], rows[..n + 1], pos)
           && GroupKeys(rows[..n + 1], pos) == GroupKeys(rows[..n], pos) + [k])
  {
    var row, k := rows[n], KeyOf(rows[n], pos);
    var now, later := rows[..n], rows[..n + 1];
    var ks := GroupKeys(now, pos);
    assert later[..n] == now && later[n] == row;
    assert KeysOf(later, pos) == KeysOf(now, pos) + [k];
    assert KeysOf(later, pos)[..n] == KeysOf(now, pos);
    DistinctKeys(KeysOf(now, pos));
    assert k in ks <==> k in gi;
    forall k' ensures k' != k ==> GroupAt(later, pos, k') == GroupAt(now, pos, k') { }
    MembersNonEmpty(now, pos, k);
  }

  /** The loop over the filtered rows. */
  method GroupRows(rows: seq<Row>, pos: seq<nat>) returns (gs: seq<Group>)
    requires Fits(rows, pos)
    ensures AreGroups(gs, rows, pos)
  {
    gs := [];
    var gi: map<string, nat> := map[];
    for n := 0 to |rows|
      invariant AreGroups(gs, rows[..n], pos) && IndexOk(gi, GroupKeys(rows[..n], pos))
    {
      var row := rows[n];
      assert FitsRow(row, pos);
      var k := KeyOf(row, pos);
      GroupStep(rows, pos, n, gs, gi);
      if k in gi {
        gs := gs[gi[k] := Group(gs[gi[k]].repr, gs[gi[k]].rows + [row])];
      } else {
        gi := gi[k := |gs|];
        gs := gs + [Group(row, [row])];
      }
    }
    assert rows[..|rows|] == rows;
  }

  // --- partition ----------------------------------------------------------------------------------------------

  /** Two rows have the same group exactly when their group values agree one by one. */
  lemma SameGroupIff(a: Row, b: Row, pos: seq<nat>)
    requires FitsRow(a, pos) && FitsRow(b, pos)
    ensures KeyOf(a, pos) == KeyOf(b, pos) <==>
            forall k :: 0 <= k < |pos| ==> SameGroupValue(a[pos[k]], b[pos[k]])
  {
    var va, vb := GroupValues(a, pos), GroupValues(b, pos);
    GroupKeyInjective(va, vb);
    assert forall k :: 0 <= k < |pos| ==> va[k] == a[pos[k]] && vb[k] == b[pos[k]];
  }

  // --- sums over groups ----------------------------------------------------------------------------------------

  function Total(rows: seq<Row>, w: Row -> int): int {
    if rows == [] then 0 else Total(rows[..|rows| - 1], w) + w(rows[|rows| - 1])
  }

  function TotalOver(ks: seq<string>, rows: seq<Row>, pos: seq<nat>, w: Row -> int): int
    requires Fits(rows, pos)
    decreases |ks|
  {
    if ks == [] then 0
    else TotalOver(ks[..|ks| - 1], rows, pos, w) + Total(Members(rows, pos, ks[|ks| - 1]), w)
  }

  lemma {:induction false} OneMoreRow(ks: seq<string>, rows: seq<Row>, pos: seq<nat>, w: Row -> int)
    requires rows != [] && Fits(rows, pos) && NoDuplicates(ks)
    ensures
      var row, before := rows[|rows| - 1], rows[..|rows| - 1];
      TotalOver(ks, rows, pos, w) ==
      TotalOver(ks, before, pos, w) + if KeyOf(row, pos) in ks then w(row) else 0
    decreases |ks|
  {
    if ks != [] {
      var init, k := ks[..|ks| - 1], ks[|ks| - 1];
      var row, before := rows[|rows| - 1], rows[..|rows| - 1];
      assert ks == init + [k] && k !in init;
      OneMoreRow(init, rows, pos, w);
      var ms := Members(before, pos, k);
      assert (ms + [row])[..|ms|] == ms;
    }
  }

  lemma KeysAfterRow(rows: seq<Row>, pos: seq<nat>)
    requires rows != [] && Fits(rows, pos)
    ensures
      var before, k := rows[..|rows| - 1], KeyOf(rows[|rows| - 1], pos);
      var ks := GroupKeys(before, pos);
      && NoDuplicates(ks) && NoDuplicates(GroupKeys(rows, pos))
      && GroupKeys(rows, pos) == (if k in ks then ks else ks + [k])
      && (k !in ks ==> Members(before, pos, k) == [])
  {
    var before, k := rows[..|rows| - 1], KeyOf(rows[|rows| - 1], pos);
    assert KeysOf(rows, pos)[..|rows| - 1] == KeysOf(before, pos);
    DistinctKeys(KeysOf(before, pos));
    DistinctKeys(KeysOf(rows, pos));
    MembersNonEmpty(before, pos, k);
  }

  lemma OneMoreKey(ks: seq<string>, k: string, rows: seq<Row>, pos: seq<nat>, w: Row -> int)
    requires Fits(rows, pos) && k !in KeysOf(rows, pos)
    ensures TotalOver(ks + [k], rows, pos, w) == TotalOver(ks, rows, pos, w)
  {
    assert (ks + [k])[..|ks|] == ks && (ks + [k])[|ks|] == k;
    MembersNonEmpty(rows, pos, k);
  }

  /** A key that is new with the last row has no rows before it. */
  lemma NewKeyAddsNothing(rows: seq<Row>, pos: seq<nat>, w: Row -> int)
    requires rows != [] && Fits(rows, pos)
    ensures
      var before := rows[..|rows| - 1];
      TotalOver(GroupKeys(rows, pos), before, pos, w) == TotalOver(GroupKeys(before, pos), before, pos, w)
  {
    var before, k := rows[..|rows| - 1], KeyOf(rows[|rows| - 1], pos);
    KeysAfterRow(rows, pos);
    DistinctKeys(KeysOf(before, pos));
    if k !in GroupKeys(before, pos) { OneMoreKey(GroupKeys(before, pos), k, before, pos, w); }
  }

  /** Any quantity summed per row adds up over the groups to the same quantity over all rows. */
  lemma {:induction false} GroupsAddUp(rows: seq<Row>, pos: seq<nat>, w: Row -> int)
    requires Fits(rows, pos)
    ensures TotalOver(GroupKeys(rows, pos), rows, pos, w) == Total(rows, w)
    decreases |rows|
  {
    if rows != [] {
      GroupsAddUp(rows[..|rows| - 1], pos, w);
      NewKeyAddsNothing(rows, pos, w);
      KeysAfterRow(rows, pos);
      OneMoreRow(GroupKeys(rows, pos), rows, pos, w);
    }
  }

  // --- aggregates as totals ---------------------------------------------------------------------------------------

  function CountWeight(pos: nat): Row -> int { (row: Row) => if pos < |row| && !row[pos].VNull? then 1 else 0 }

  function SumWeight(pos: nat): Row -> int { (row: Row) => if pos < |row| && row[pos].VInt? then row[pos].i else 0 }

  lemma {:induction false} CellsSnoc(rows: seq<Row>, pos: nat, row: Row)
    requires Cells(rows, pos).Some? && pos < |row|
    ensures Cells(rows + [row], pos) ==
            Some(Cells(rows, pos).value + if row[pos].VNull? then [] else [row[pos]])
    decreases |rows|
  {
    if rows == [] {
      assert rows + [row] == [row] && [row][1..] == [];
      var none: seq<Value> := [];
      assert [row[pos]] + none == none + [row[pos]] && none + none == none;
    } else {
      assert (rows + [row])[1..] == rows[1..] + [row];
      CellsSnoc(rows[1..], pos, row);
      var rest, last := Cells(rows[1..], pos).value, if row[pos].VNull? then [] else [row[pos]];
      assert [rows[0][pos]] + (rest + last) == ([rows[0][pos]] + rest) + last;
    }
  }

  /** count(col) and the integer sum of a column are per-row totals, so they add up over groups
      (the stored results modulo 2^64). */
  lemma {:induction false} AggregatesAreTotals(rows: seq<Row>, pos: nat)
    requires forall i :: 0 <= i < |rows| ==> pos < |rows[i]|
    ensures Cells(rows, pos).Some?
    ensures |Cells(rows, pos).value| == Total(rows, CountWeight(pos))
    ensures SumInts(Cells(rows, pos).value) == Total(rows, SumWeight(pos))
    decreases |rows|
  {
    if rows != [] {
      var before, row := rows[..|rows| - 1], rows[|rows| - 1];
      AggregatesAreTotals(before, pos);
      CellsSnoc(before, pos, row);
      assert rows == before + [row];
      var vs := Cells(before, pos).value;
      if !row[pos].VNull? { assert (vs + [row[pos]])[..|vs|] == vs; }
      else { assert vs + [] == vs; }
    }
  }

  /** min and max are values of the group and bound all of them. */
  lemma {:induction false} BestIsBound(vs: seq<Value>, wantMin: bool)
    requires vs != []
    ensures Best(vs, wantMin) in vs
    ensures forall i :: 0 <= i < |vs| ==>
              if wantMin then Compare(Best(vs, wantMin), vs[i]) <= 0 else Compare(vs[i], Best(vs, wantMin)) <= 0
    decreases |vs|
  {
    var best := Best(vs, wantMin);
    CompareAntisymmetric(best, best);
    if |vs| > 1 {
      var init, v := vs[..|vs| - 1], vs[|vs| - 1];
      BestIsBound(init, wantMin);
      var b := Best(init, wantMin);
      assert b in vs by { var i :| 0 <= i < |init| && init[i] == b; assert vs[i] == b; }
      CompareAntisymmetric(v, b);
      forall i | 0 <= i < |vs|
        ensures if wantMin then Compare(best, vs[i]) <= 0 else Compare(vs[i], best) <= 0
      {
        if i < |init| {
          assert vs[i] == init[i];
          if wantMin { CompareTransitive(v, b, vs[i]); } else { CompareTransitive(vs[i], b, v); }
        }
      }
    }
  }
}
