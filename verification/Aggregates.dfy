/** The loops of `evalAggregate`, and aggregates per group against aggregates over all rows. */
module Aggregates {
  import opened Values
  import opened Schema
  import opened Eval
  import opened Grouping
  import opened SqlOrder

  predicate InRange(rows: seq<Row>, pos: nat) { forall i :: 0 <= i < |rows| ==> pos < |rows[i]| }

  lemma WrapAdd(a: int, b: int)
    ensures Wrap64(Wrap64(a) + b) == Wrap64(a + b)
  {
    var k := (Wrap64(a) - a) / TWO_64;
    assert Wrap64(a) == a + k * TWO_64;
    assert (a + b + k * TWO_64) % TWO_64 == (a + b) % TWO_64;
  }

  lemma {:induction false} CellsPrefix(rows: seq<Row>, pos: nat, n: nat)
    requires InRange(rows, pos) && n < |rows|
    ensures Cells(rows[..n], pos).Some?
    ensures rows[n][pos].VNull? ==> Cells(rows[..n + 1], pos) == Cells(rows[..n], pos)
    ensures !rows[n][pos].VNull? ==> Cells(rows[..n + 1], pos) == Some(Cells(rows[..n], pos).value + [rows[n][pos]])
  {
    AggregatesAreTotals(rows[..n], pos);
    CellsSnoc(rows[..n], pos, rows[n]);
    assert rows[..n] + [rows[n]] == rows[..n + 1];
    assert Cells(rows[..n], pos).value + [] == Cells(rows[..n], pos).value;
  }

  lemma {:induction false} CellsContain(rows: seq<Row>, pos: nat, n: nat)
    requires InRange(rows, pos) && n < |rows| && !rows[n][pos].VNull?
    ensures Cells(rows, pos).Some? && rows[n][pos] in Cells(rows, pos).value
    decreases |rows|
  {
    AggregatesAreTotals(rows, pos);
    AggregatesAreTotals(rows[1..], pos);
    if n > 0 { CellsContain(rows[1..], pos, n - 1); }
  }

  method CountCells(rows: seq<Row>, pos: nat) returns (r: Outcome<Value>)
    requires InRange(rows, pos)
    ensures r == Aggregate("count", false, rows, pos)
  {
    var n: int := 0;
    for i := 0 to |rows|
      invariant Cells(rows[..i], pos).Some? && n == Wrap64(|Cells(rows[..i], pos).value|)
    {
      CellsPrefix(rows, pos, i);
      if !rows[i][pos].VNull? {
        WrapAdd(|Cells(rows[..i], pos).value|, 1);
        n := Wrap64(n + 1);
      }
    }
    assert rows[..|rows|] == rows;
    return Ok(VInt(n));
  }

  lemma SumStateStep(vs: seq<Value>, v: Value, sumI: int, sumF: Float, any: bool, allInt: bool)
    requires IsNumeric(v) && SumState(vs, sumI, sumF, any, allInt)
    ensures v.VInt? ==> SumState(vs + [v], Wrap64(sumI + v.i), sumF, true, allInt)
    ensures v.VFloat? ==> SumState(vs + [v], sumI, FloatOp.add(sumF, v.f), true, false)
  {
    SumStep(vs, v);
  }

  /** A cell that is not a number fails the whole aggregate. */
  lemma NotANumber(rows: seq<Row>, pos: nat, i: nat)
    requires InRange(rows, pos) && i < |rows| && !rows[i][pos].VNull? && !IsNumeric(rows[i][pos])
    ensures Aggregate("sum", false, rows, pos) == Err("42883") && Aggregate("avg", false, rows, pos) == Err("42883")
  {
    CellsContain(rows, pos, i);
  }

  /** The sum read off the loop's variables. */
  lemma SumFinished(rows: seq<Row>, pos: nat, sumI: int, sumF: Float, any: bool, allInt: bool)
    requires Cells(rows, pos).Some? && SumState(Cells(rows, pos).value, sumI, sumF, any, allInt)
    ensures Aggregate("sum", false, rows, pos) ==
      Ok(if !any then VNull else if allInt then VInt(sumI) else VFloat(FloatOp.add(Fin(Round(sumI)), sumF)))
  {
  }

  method Sum(rows: seq<Row>, pos: nat) returns (r: Outcome<Value>)
    requires InRange(rows, pos)
    ensures r == Aggregate("sum", false, rows, pos)
  {
    var sumI: int, sumF, any, allInt := 0, Fin(0), false, true;
    for i := 0 to |rows|
      invariant Cells(rows[..i], pos).Some?
      invariant SumState(Cells(rows[..i], pos).value, sumI, sumF, any, allInt)
    {
      CellsPrefix(rows, pos, i);
      ghost var vs := Cells(rows[..i], pos).value;
      var v := rows[i][pos];
      if !v.VNull? {
        if !IsNumeric(v) {
          NotANumber(rows, pos, i);
          return Err("42883");
        }
        SumStateStep(vs, v, sumI, sumF, any, allInt);
        any := true;
        match v {
          case VInt(n) => sumI := Wrap64(sumI + n);
          case VFloat(f) => sumF := FloatOp.add(sumF, f); allInt := false;
        }
      }
    }
    assert rows[..|rows|] == rows;
    SumFinished(rows, pos, sumI, sumF, any, allInt);
    if !any { return Ok(VNull); }
    if allInt { return Ok(VInt(sumI)); }
    return Ok(VFloat(FloatOp.add(Fin(Round(sumI)), sumF)));
  }

  predicate SumState(vs: seq<Value>, sumI: int, sumF: Float, any: bool, allInt: bool) {
    && AllNumeric(vs) && sumI == Wrap64(SumInts(vs)) && sumF == SumFloats(vs)
    && any == (vs != []) && allInt == AllInt(vs)
  }

  lemma SumStep(vs: seq<Value>, v: Value)
    requires IsNumeric(v) && AllNumeric(vs)
    ensures AllNumeric(vs + [v])
    ensures Wrap64(SumInts(vs + [v])) == if v.VInt? then Wrap64(Wrap64(SumInts(vs)) + v.i) else Wrap64(SumInts(vs))
    ensures SumFloats(vs + [v]) == if v.VFloat? then FloatOp.add(SumFloats(vs), v.f) else SumFloats(vs)
    ensures AllInt(vs + [v]) <==> AllInt(vs) && v.VInt?
    ensures SumAsFloats(vs + [v]) == FloatOp.add(SumAsFloats(vs), AsFloat(v))
  {
    assert (vs + [v])[..|vs|] == vs;
    if v.VInt? { WrapAdd(SumInts(vs), v.i); }
    if AllInt(vs + [v]) {
      assert forall i :: 0 <= i < |vs| ==> vs[i] == (vs + [v])[i];
      assert (vs + [v])[|vs|] == v;
    }
  }

  predicate AvgState(vs: seq<Value>, sum: Float, n: int) {
    AllNumeric(vs) && sum == SumAsFloats(vs) && n == Wrap64(|vs|)
  }

  lemma AvgStateStep(vs: seq<Value>, v: Value, sum: Float, n: int)
    requires IsNumeric(v) && AvgState(vs, sum, n)
    ensures AvgState(vs + [v], FloatOp.add(sum, AsFloat(v)), Wrap64(n + 1))
  {
    SumStep(vs, v);
    WrapAdd(|vs|, 1);
  }

  lemma AvgFinished(rows: seq<Row>, pos: nat, sum: Float, n: int)
    requires Cells(rows, pos).Some? && AvgState(Cells(rows, pos).value, sum, n)
    ensures Aggregate("avg", false, rows, pos) == Ok(if n == 0 then VNull else VFloat(FloatOp.div(sum, Fin(Round(n)))))
  {
  }

  method Avg(rows: seq<Row>, pos: nat) returns (r: Outcome<Value>)
    requires InRange(rows, pos)
    ensures r == Aggregate("avg", false, rows, pos)
  {
    var sum, n: int := Fin(0), 0;
    for i := 0 to |rows|
      invariant Cells(rows[..i], pos).Some?
      invariant AvgState(Cells(rows[..i], pos).value, sum, n)
    {
      CellsPrefix(rows, pos, i);
      var v := rows[i][pos];
      if !v.VNull? {
        if !IsNumeric(v) {
          NotANumber(rows, pos, i);
          return Err("42883");
        }
        AvgStateStep(Cells(rows[..i], pos).value, v, sum, n);
        sum, n := FloatOp.add(sum, AsFloat(v)), Wrap64(n + 1);
      }
    }
    assert rows[..|rows|] == rows;
    AvgFinished(rows, pos, sum, n);
    if n == 0 { return Ok(VNull); }
    return Ok(VFloat(FloatOp.div(sum, Fin(Round(n)))));
  }

  method MinMax(rows: seq<Row>, pos: nat, wantMin: bool) returns (r: Outcome<Value>)
    requires InRange(rows, pos)
    ensures r == Aggregate(if wantMin then "min" else "max", false, rows, pos)
    ensures r.Ok? && IsExtreme(rows, pos, wantMin, r.value)
  {
    var best: Option<Value> := None;
    for i := 0 to |rows|
      invariant Cells(rows[..i], pos).Some?
      invariant var vs := Cells(rows[..i], pos).value;
                best == if vs == [] then None else Some(Best(vs, wantMin))
    {
      CellsPrefix(rows, pos, i);
      ghost var vs := Cells(rows[..i], pos).value;
      var v := rows[i][pos];
      if !v.VNull? {
        assert (vs + [v])[..|vs|] == vs;
        if best.None? {
          best := Some(v);
        } else {
          var c := Compare(v, best.value);
          if (if wantMin then c < 0 else c > 0) { best := Some(v); }
        }
      }
    }
    assert rows[..|rows|] == rows;
    r := Ok(if best.None? then VNull else best.value);
    ExtremeMeaning(rows, pos, wantMin);
  }

  // --- what the results mean --------------------------------------------------------------------------------

  lemma {:induction false} CellsComeFrom(rows: seq<Row>, pos: nat, v: Value)
    requires InRange(rows, pos) && Cells(rows, pos).Some? && v in Cells(rows, pos).value
    ensures exists i :: 0 <= i < |rows| && rows[i][pos] == v && v != VNull
    decreases |rows|
  {
    AggregatesAreTotals(rows[1..], pos);
    if v == rows[0][pos] && !v.VNull? {
      assert rows[0][pos] == v;
    } else {
      CellsComeFrom(rows[1..], pos, v);
      var i :| 0 <= i < |rows[1..]| && rows[1..][i][pos] == v && v != VNull;
      assert rows[i + 1][pos] == v;
    }
  }

  /** v is NULL if all cells are; otherwise it is a cell, and no cell that is not NULL stands before it
      (behind it, for the maximum). NaN stands neither before nor behind a number. */
  ghost predicate IsExtreme(rows: seq<Row>, pos: nat, wantMin: bool, v: Value)
    requires InRange(rows, pos)
  {
    && (v == VNull <==> forall i :: 0 <= i < |rows| ==> rows[i][pos] == VNull)
    && (v != VNull ==>
          && (exists i :: 0 <= i < |rows| && rows[i][pos] == v)
          && forall i :: 0 <= i < |rows| && rows[i][pos] != VNull ==>
               if wantMin then !Below(rows[i][pos], v) else !Below(v, rows[i][pos]))
  }

  /** min is a least cell of the column and max a greatest one. */
  lemma ExtremeMeaning(rows: seq<Row>, pos: nat, wantMin: bool)
    requires InRange(rows, pos)
    ensures
      var r := Aggregate(if wantMin then "min" else "max", false, rows, pos);
      r.Ok? && IsExtreme(rows, pos, wantMin, r.value)
  {
    AggregatesAreTotals(rows, pos);
    var vs := Cells(rows, pos).value;
    forall i | 0 <= i < |rows| && rows[i][pos] != VNull ensures rows[i][pos] in vs { CellsContain(rows, pos, i); }
    if vs != [] {
      var v := Best(vs, wantMin);
      BestIsBound(vs, wantMin);
      CellsComeFrom(rows, pos, v);
      forall i | 0 <= i < |rows| && rows[i][pos] != VNull
        ensures if wantMin then !Below(rows[i][pos], v) else !Below(v, rows[i][pos])
      {
        var k :| 0 <= k < |vs| && vs[k] == rows[i][pos];
        CompareIsOrder(v, vs[k]);
        CompareIsOrder(vs[k], v);
      }
    }
  }

  /** Every cell is a number or NULL. */
  predicate NumberColumn(rows: seq<Row>, pos: nat)
    requires InRange(rows, pos)
  {
    forall i :: 0 <= i < |rows| ==> rows[i][pos] == VNull || IsNumeric(rows[i][pos])
  }

  /** The cells a total is taken of: the numbers, or the floats alone. */
  predicate Counted(v: Value, floatsOnly: bool) { v.VFloat? || (v.VInt? && !floatsOnly) }

  /** The running totals as floats, from the first row to the last. */
  ghost predicate RunningTotals(rows: seq<Row>, pos: nat, floatsOnly: bool, acc: seq<Float>)
    requires InRange(rows, pos)
  {
    && |acc| == |rows| + 1 && acc[0] == Fin(0)
    && forall i :: 0 <= i < |rows| ==> var v := rows[i][pos];
         acc[i + 1] == if Counted(v, floatsOnly) then FloatOp.add(acc[i], AsFloat(v)) else acc[i]
  }

  /** The totals over the cells so far are the code's sums. */
  ghost predicate TotalsMatch(rows: seq<Row>, pos: nat, floatsOnly: bool, total: Float)
    requires InRange(rows, pos)
  {
    && Cells(rows, pos).Some? && (AllNumeric(Cells(rows, pos).value) <==> NumberColumn(rows, pos))
    && (AllNumeric(Cells(rows, pos).value) ==>
          total == if floatsOnly then SumFloats(Cells(rows, pos).value) else SumAsFloats(Cells(rows, pos).value))
  }

  lemma TotalsStep(rows: seq<Row>, pos: nat, floatsOnly: bool, n: nat, total: Float)
    requires InRange(rows, pos) && n < |rows| && TotalsMatch(rows[..n], pos, floatsOnly, total)
    ensures
      var v := rows[n][pos];
      TotalsMatch(rows[..n + 1], pos, floatsOnly,
                  if Counted(v, floatsOnly) then FloatOp.add(total, AsFloat(v)) else total)
  {
    CellsPrefix(rows, pos, n);
    var vs, v := Cells(rows[..n], pos).value, rows[n][pos];
    assert rows[..n + 1] == rows[..n] + [rows[n]];
    assert NumberColumn(rows[..n + 1], pos) <==> NumberColumn(rows[..n], pos) && (v == VNull || IsNumeric(v));
    if !v.VNull? {
      assert AllNumeric(vs + [v]) <==> AllNumeric(vs) && IsNumeric(v) by {
        if AllNumeric(vs + [v]) {
          assert forall i :: 0 <= i < |vs| ==> vs[i] == (vs + [v])[i];
          assert (vs + [v])[|vs|] == v;
        }
      }
      if AllNumeric(vs) && IsNumeric(v) { SumStep(vs, v); }
    }
  }

  lemma TotalsOf(rows: seq<Row>, pos: nat, floatsOnly: bool) returns (acc: seq<Float>)
    requires InRange(rows, pos)
    ensures RunningTotals(rows, pos, floatsOnly, acc) && TotalsMatch(rows, pos, floatsOnly, acc[|rows|])
  {
    acc := [Fin(0)];
    for n := 0 to |rows|
      invariant RunningTotals(rows[..n], pos, floatsOnly, acc) && TotalsMatch(rows[..n], pos, floatsOnly, acc[n])
    {
      TotalsStep(rows, pos, floatsOnly, n, acc[n]);
      var v := rows[n][pos];
      acc := acc + [if Counted(v, floatsOnly) then FloatOp.add(acc[n], AsFloat(v)) else acc[n]];
    }
    assert rows[..|rows|] == rows;
  }

  /** avg of a column of numbers is the total of all of them as floats, divided by their number; NULL if
      there are none. Any other cell that is not NULL is an error. */
  lemma AvgMeaning(rows: seq<Row>, pos: nat) returns (acc: seq<Float>)
    requires InRange(rows, pos) && |rows| <= MAX_INT64
    ensures RunningTotals(rows, pos, false, acc)
    ensures
      var n := Total(rows, CountWeight(pos));
      Aggregate("avg", false, rows, pos) ==
      if !NumberColumn(rows, pos) then Err("42883")
      else Ok(if n == 0 then VNull else VFloat(FloatOp.div(acc[|rows|], Fin(Round(n)))))
  {
    acc := TotalsOf(rows, pos, false);
    AggregatesAreTotals(rows, pos);
    CountAtMost(rows, pos);
  }

  lemma {:induction false} CountAtMost(rows: seq<Row>, pos: nat)
    ensures 0 <= Total(rows, CountWeight(pos)) <= |rows|
    decreases |rows|
  {
    if rows != [] { CountAtMost(rows[..|rows| - 1], pos); }
  }

  /** sum of a column of numbers: NULL if there are none; the sum modulo 2^64 if all are integers; with a
      float among them, the integers' sum as a float plus the total of the floats. */
  lemma SumMeaning(rows: seq<Row>, pos: nat) returns (acc: seq<Float>)
    requires InRange(rows, pos)
    ensures RunningTotals(rows, pos, true, acc)
    ensures
      var ints := Wrap64(Total(rows, SumWeight(pos)));
      Aggregate("sum", false, rows, pos) ==
      if !NumberColumn(rows, pos) then Err("42883")
      else if forall i :: 0 <= i < |rows| ==> rows[i][pos] == VNull then Ok(VNull)
      else if forall i :: 0 <= i < |rows| ==> !rows[i][pos].VFloat? then Ok(VInt(ints))
      else Ok(VFloat(FloatOp.add(Fin(Round(ints)), acc[|rows|])))
  {
    acc := TotalsOf(rows, pos, true);
    AggregatesAreTotals(rows, pos);
    var vs := Cells(rows, pos).value;
    if NumberColumn(rows, pos) {
      CellKinds(rows, pos);
    }
  }

  /** No cells, or only integers among them, seen from the rows. */
  lemma CellKinds(rows: seq<Row>, pos: nat)
    requires InRange(rows, pos) && NumberColumn(rows, pos)
    ensures Cells(rows, pos).Some?
    ensures Cells(rows, pos).value == [] <==> forall i :: 0 <= i < |rows| ==> rows[i][pos] == VNull
    ensures AllInt(Cells(rows, pos).value) <==> forall i :: 0 <= i < |rows| ==> !rows[i][pos].VFloat?
  {
    AggregatesAreTotals(rows, pos);
    var vs := Cells(rows, pos).value;
    forall i | 0 <= i < |rows| && rows[i][pos] != VNull ensures rows[i][pos] in vs { CellsContain(rows, pos, i); }
    forall k | 0 <= k < |vs| ensures exists i :: 0 <= i < |rows| && rows[i][pos] == vs[k] && vs[k] != VNull {
      CellsComeFrom(rows, pos, vs[k]);
    }
  }

  // --- per group and over all rows --------------------------------------------------------------------------

  /** The integer result; a sum over no values counts as 0. */
  function IntOf(o: Outcome<Value>): int { if o.Ok? && o.value.VInt? then o.value.i else 0 }

  /** The results of the aggregate over the groups of the given keys, added up. */
  function OverGroups(name: string, ks: seq<string>, rows: seq<Row>, pos: seq<nat>, p: nat): int
    requires Fits(rows, pos)
    decreases |ks|
  {
    if ks == [] then 0
    else
      OverGroups(name, ks[..|ks| - 1], rows, pos, p) +
      IntOf(Aggregate(name, false, Members(rows, pos, ks[|ks| - 1]), p))
  }

  /** Every cell of the column is an integer or NULL. */
  predicate IntColumn(rows: seq<Row>, p: nat) {
    forall i :: 0 <= i < |rows| ==> p < |rows[i]| && (rows[i][p].VInt? || rows[i][p].VNull?)
  }

  lemma {:induction false} MembersFit(rows: seq<Row>, pos: seq<nat>, k: string, p: nat)
    requires Fits(rows, pos) && InRange(rows, p)
    ensures InRange(Members(rows, pos, k), p)
    ensures IntColumn(rows, p) ==> IntColumn(Members(rows, pos, k), p)
    decreases |rows|
  {
    if rows != [] { MembersFit(rows[..|rows| - 1], pos, k, p); }
  }

  lemma {:induction false} IntCells(rows: seq<Row>, p: nat)
    requires IntColumn(rows, p)
    ensures Cells(rows, p).Some? && AllNumeric(Cells(rows, p).value) && AllInt(Cells(rows, p).value)
    decreases |rows|
  {
    if rows != [] { IntCells(rows[1..], p); }
  }

  lemma CountIsTotal(rows: seq<Row>, p: nat)
    requires InRange(rows, p)
    ensures Aggregate("count", false, rows, p) == Ok(VInt(Wrap64(Total(rows, CountWeight(p)))))
  {
    AggregatesAreTotals(rows, p);
  }

  lemma SumIsTotal(rows: seq<Row>, p: nat)
    requires IntColumn(rows, p)
    ensures
      var o := Aggregate("sum", false, rows, p);
      && IntOf(o) == Wrap64(Total(rows, SumWeight(p)))
      && (Total(rows, CountWeight(p)) != 0 ==> o == Ok(VInt(IntOf(o))))
      && (Total(rows, CountWeight(p)) == 0 ==> o == Ok(VNull))
  {
    AggregatesAreTotals(rows, p);
    IntCells(rows, p);
    assert Cells(rows, p).value == [] ==> SumInts(Cells(rows, p).value) == 0;
  }

  lemma WrapSplit(n: int) returns (q: int)
    ensures Wrap64(n) == n + q * TWO_64
  {
    q := (Wrap64(n) - n) / TWO_64;
  }

  lemma WrapMultiple(n: int, m: int, q: int)
    requires m == n + q * TWO_64
    ensures Wrap64(m) == Wrap64(n)
  {
    assert (n + q * TWO_64) % TWO_64 == n % TWO_64;
  }

  /** Within each group the aggregate is the total of w, modulo 2^64. */
  ghost predicate TotalsPerGroup(name: string, rows: seq<Row>, pos: seq<nat>, p: nat, w: Row -> int)
    requires Fits(rows, pos)
  {
    forall k :: IntOf(Aggregate(name, false, Members(rows, pos, k), p)) == Wrap64(Total(Members(rows, pos, k), w))
  }

  lemma {:induction false} OverGroupsSplit(
    name: string, ks: seq<string>, rows: seq<Row>, pos: seq<nat>, p: nat, w: Row -> int) returns (q: int)
    requires Fits(rows, pos) && TotalsPerGroup(name, rows, pos, p, w)
    ensures OverGroups(name, ks, rows, pos, p) == TotalOver(ks, rows, pos, w) + q * TWO_64
    decreases |ks|
  {
    if ks == [] {
      q := 0;
    } else {
      var q1 := OverGroupsSplit(name, ks[..|ks| - 1], rows, pos, p, w);
      var q2 := WrapSplit(Total(Members(rows, pos, ks[|ks| - 1]), w));
      q := q1 + q2;
    }
  }

  lemma OverGroupsIsTotal(name: string, ks: seq<string>, rows: seq<Row>, pos: seq<nat>, p: nat, w: Row -> int)
    requires Fits(rows, pos) && TotalsPerGroup(name, rows, pos, p, w)
    ensures Wrap64(OverGroups(name, ks, rows, pos, p)) == Wrap64(TotalOver(ks, rows, pos, w))
  {
    var q := OverGroupsSplit(name, ks, rows, pos, p, w);
    WrapMultiple(TotalOver(ks, rows, pos, w), OverGroups(name, ks, rows, pos, p), q);
  }

  lemma CountsPerGroup(rows: seq<Row>, pos: seq<nat>, p: nat)
    requires Fits(rows, pos) && InRange(rows, p)
    ensures TotalsPerGroup("count", rows, pos, p, CountWeight(p))
  {
    forall k
      ensures IntOf(Aggregate("count", false, Members(rows, pos, k), p)) ==
              Wrap64(Total(Members(rows, pos, k), CountWeight(p)))
    {
      MembersFit(rows, pos, k, p);
      CountIsTotal(Members(rows, pos, k), p);
    }
  }

  lemma SumsPerGroup(rows: seq<Row>, pos: seq<nat>, p: nat)
    requires Fits(rows, pos) && IntColumn(rows, p)
    ensures TotalsPerGroup("sum", rows, pos, p, SumWeight(p))
  {
    forall k
      ensures IntOf(Aggregate("sum", false, Members(rows, pos, k), p)) ==
              Wrap64(Total(Members(rows, pos, k), SumWeight(p)))
    {
      MembersFit(rows, pos, k, p);
      SumIsTotal(Members(rows, pos, k), p);
    }
  }

  /** The counts of all groups add up to the count over all rows, and so do the sums of an integer
      column, modulo 2^64. */
  lemma GroupAggregatesAddUp(rows: seq<Row>, pos: seq<nat>, p: nat)
    requires Fits(rows, pos) && InRange(rows, p)
    ensures Aggregate("count", false, rows, p) ==
            Ok(VInt(Wrap64(OverGroups("count", GroupKeys(rows, pos), rows, pos, p))))
    ensures IntColumn(rows, p) ==>
      IntOf(Aggregate("sum", false, rows, p)) == Wrap64(OverGroups("sum", GroupKeys(rows, pos), rows, pos, p))
    ensures IntColumn(rows, p) && (exists i :: 0 <= i < |rows| && !rows[i][p].VNull?) ==>
      Aggregate("sum", false, rows, p) == Ok(VInt(Wrap64(OverGroups("sum", GroupKeys(rows, pos), rows, pos, p))))
  {
    var ks := GroupKeys(rows, pos);
    CountIsTotal(rows, p);
    CountsPerGroup(rows, pos, p);
    OverGroupsIsTotal("count", ks, rows, pos, p, CountWeight(p));
    GroupsAddUp(rows, pos, CountWeight(p));
    if IntColumn(rows, p) {
      SumIsTotal(rows, p);
      SumsPerGroup(rows, pos, p);
      OverGroupsIsTotal("sum", ks, rows, pos, p, SumWeight(p));
      GroupsAddUp(rows, pos, SumWeight(p));
      AggregatesAreTotals(rows, p);
      if i :| 0 <= i < |rows| && !rows[i][p].VNull? { CellsContain(rows, p, i); }
    }
  }
}
