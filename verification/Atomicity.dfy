/** What a failing statement leaves behind outside a transaction, and what UPDATE does to NOT NULL. */
module Atomicity {
  import opened Values
  import opened Schema
  import opened Ast
  import opened Eval
  import opened Tables
  import EM = EngineModel
  import TM = TxnModel
  import opened Accessor
  import P = Plans
  import Q = Query
  import opened Shortcut
  import opened Dml
  import opened DmlMeaning

  // --- NOT NULL under UPDATE ------------------------------------------------------------------------------

  lemma CoerceKeepsNull(col: Column, v: Value)
    requires CoerceFor(col, v).Ok?
    ensures CoerceFor(col, v).value.VNull? <==> v.VNull?
  {
    CheckStoresKind(col.typ, v);
    if v.VText? && col.typ.TTimestamp? && ParseTime(v.s).Some? {
      CheckStoresKind(col.typ, VTime(ParseTime(v.s).value));
    }
  }

  /** The last SET of the column is NULL on this row. */
  predicate SetsNull(c: Ctx, sets: seq<SetCol>, row: Row, j: nat) {
    var last := LastSet(sets, j);
    last.Some? && EvalValue(c, last.value, row) == Ok(VNull)
  }

  /** UPDATE does not look at NOT NULL. A row that honours it still does after the assignments if and
      only if no NOT NULL column is last set to NULL. */
  lemma UpdateKeepsNotNullIff(c: Ctx, cols: seq<Column>, sets: seq<SetCol>, row: Row)
    requires |row| == |cols| && NotNullOk(cols, row) && forall i :: 0 <= i < |sets| ==> sets[i].idx < |cols|
    requires Assigned(c, cols, sets, row, row).Ok?
    ensures NotNullOk(cols, Assigned(c, cols, sets, row, row).value) <==>
            forall j :: 0 <= j < |cols| && !cols[j].primary && cols[j].notNull ==> !SetsNull(c, sets, row, j)
  {
    var out := Assigned(c, cols, sets, row, row).value;
    forall j | 0 <= j < |cols| && !cols[j].primary && cols[j].notNull
      ensures out[j].VNull? <==> SetsNull(c, sets, row, j)
    {
      AssignedCells(c, cols, sets, row, row, j);
      var last := LastSet(sets, j);
      if last.Some? { CoerceKeepsNull(cols[j], EvalValue(c, last.value, row).value); }
    }
  }

  // --- failing statements ---------------------------------------------------------------------------------

  /** Every table shows the same rows. */
  ghost predicate SameRows(a: Acc, b: Acc) { forall n :: RowsAt(a, n) == RowsAt(b, n) }

  /** The id the table would hand out next is not in use. */
  predicate CounterIsFree(acc: Acc, name: string)
    requires ColsAt(acc, name).Some?
  {
    NewId(acc, name, 0) !in RowsAt(acc, name)
  }

  lemma RefusedCallChangesNothing(acc: Acc, c: TM.Call)
    requires Separate(acc) && !Perform(acc, c).ok
    ensures SameRows(Perform(acc, c).acc, acc)
  {
    PerformFrames(acc, c);
  }

  // --- INSERT ----------------------------------------------------------------------------------------------

  lemma InsertOneFrame(acc: Acc, name: string, cols: seq<Column>, targets: seq<nat>, exprs: seq<Expr>, now: int)
    requires Separate(acc) && ColsAt(acc, name) == Some(cols) && forall i :: 0 <= i < |targets| ==> targets[i] < |cols|
    ensures
      var r := InsertOne(acc, name, cols, targets, exprs, now);
      && Separate(r.acc) && ColsAt(r.acc, name) == Some(cols) && RowsAt(acc, name).Keys <= RowsAt(r.acc, name).Keys
      && (!r.res.Ok? ==> SameRows(r.acc, acc))
      && (r.res.Ok? && acc.Direct? && CounterIsFree(acc, name) ==>
        exists id :: id in RowsAt(r.acc, name) && id !in RowsAt(acc, name))
  {
    var p := PrepareRow(cols, targets, exprs, now);
    if p.Ok? && FkRowOk(acc, cols, p.value.row) {
      var c := InsertCall(name, p.value);
      PerformFrame(acc, c, name);
      if Perform(acc, c).ok {
        PerformStores(acc, c);
        assert StoredBy(acc, c).id in RowsAt(Perform(acc, c).acc, name);
      } else {
        RefusedCallChangesNothing(acc, c);
      }
    }
  }

  lemma {:induction false} InsertAllGrows(
    acc: Acc, name: string, cols: seq<Column>, targets: seq<nat>, rows: seq<seq<Expr>>, now: int, n: nat)
    requires Separate(acc) && ColsAt(acc, name) == Some(cols) && forall i :: 0 <= i < |targets| ==> targets[i] < |cols|
    ensures RowsAt(acc, name).Keys <= RowsAt(InsertAll(acc, name, cols, targets, rows, now, n).acc, name).Keys
    decreases |rows|
  {
    if rows != [] {
      InsertOneFrame(acc, name, cols, targets, rows[0], now);
      var r := InsertOne(acc, name, cols, targets, rows[0], now);
      if r.res.Ok? { InsertAllGrows(r.acc, name, cols, targets, rows[1..], now, n + 1); }
    }
  }

  /** A failing INSERT leaves the rows as they were if and only if its first row already failed. */
  lemma FailedInsertIsCleanIff(
    acc: Acc, name: string, cols: seq<Column>, targets: seq<nat>, rows: seq<seq<Expr>>, now: int)
    requires acc.Direct? && Separate(acc) && ColsAt(acc, name) == Some(cols) && CounterIsFree(acc, name)
    requires forall i :: 0 <= i < |targets| ==> targets[i] < |cols|
    requires !InsertAll(acc, name, cols, targets, rows, now, 0).res.Ok?
    ensures rows != []
    ensures SameRows(InsertAll(acc, name, cols, targets, rows, now, 0).acc, acc) <==>
            !InsertOne(acc, name, cols, targets, rows[0], now).res.Ok?
  {
    InsertOneFrame(acc, name, cols, targets, rows[0], now);
    var r := InsertOne(acc, name, cols, targets, rows[0], now);
    if r.res.Ok? {
      InsertAllGrows(r.acc, name, cols, targets, rows[1..], now, 1);
      var id :| id in RowsAt(r.acc, name) && id !in RowsAt(acc, name);
      assert id in RowsAt(InsertAll(acc, name, cols, targets, rows, now, 0).acc, name);
    }
  }

  // --- DELETE ----------------------------------------------------------------------------------------------

  lemma DeleteOneFrame(acc: Acc, name: string, id: int64)
    requires Separate(acc)
    ensures
      var r := DeleteOne(acc, name, id);
      && Separate(r.acc) && RowsAt(r.acc, name).Keys <= RowsAt(acc, name).Keys
      && (!r.res.Ok? ==> SameRows(r.acc, acc))
      && (r.res.Ok? ==> id in RowsAt(acc, name) && id !in RowsAt(r.acc, name))
  {
    if !Referenced(acc, name, id) {
      PerformFrame(acc, TM.Remove(name, id), name);
      if Perform(acc, TM.Remove(name, id)).ok {
        PerformRemove(acc, name, id);
      } else {
        RefusedCallChangesNothing(acc, TM.Remove(name, id));
      }
    }
  }

  lemma {:induction false} DeleteAllShrinks(acc: Acc, name: string, cands: seq<P.Stored>, n: nat)
    requires Separate(acc)
    ensures RowsAt(DeleteAll(acc, name, cands, n).acc, name).Keys <= RowsAt(acc, name).Keys
    decreases |cands|
  {
    if cands != [] {
      DeleteOneFrame(acc, name, cands[0].id);
      var r := DeleteOne(acc, name, cands[0].id);
      if r.res.Ok? { DeleteAllShrinks(r.acc, name, cands[1..], n + 1); }
    }
  }

  /** The same for DELETE. */
  lemma FailedDeleteIsCleanIff(acc: Acc, name: string, cands: seq<P.Stored>)
    requires Separate(acc) && !DeleteAll(acc, name, cands, 0).res.Ok?
    ensures cands != []
    ensures SameRows(DeleteAll(acc, name, cands, 0).acc, acc) <==> !DeleteOne(acc, name, cands[0].id).res.Ok?
  {
    DeleteOneFrame(acc, name, cands[0].id);
    var r := DeleteOne(acc, name, cands[0].id);
    if r.res.Ok? { DeleteAllShrinks(r.acc, name, cands[1..], 1); }
  }

  // --- UPDATE of one row -------------------------------------------------------------------------------------

  function NewRow(now: int, name: string, cols: seq<Column>, sets: seq<SetCol>, cand: P.Stored): (r: Outcome<Row>)
    requires |cand.row| == |cols| && forall i :: 0 <= i < |sets| ==> sets[i].idx < |cols|
    ensures r.Ok? ==> |r.value| == |cols|
  {
    Assigned(Ctx(TableScope(name, cols), now, None), cols, sets, cand.row, cand.row)
  }

  /** The row is to move to another key, and nothing stands against deleting it first. */
  ghost predicate MoveStarts(acc: Acc, now: int, name: string, cols: seq<Column>, sets: seq<SetCol>, cand: P.Stored)
    requires |cand.row| == |cols| && forall i :: 0 <= i < |sets| ==> sets[i].idx < |cols|
  {
    var out := NewRow(now, name, cols, sets, cand);
    out.Ok? && FkRowOk(acc, cols, out.value) && Moves(cols, cand.row, out.value) && !Referenced(acc, name, cand.id)
  }

  /** The table shows the candidate. */
  predicate Current(acc: Acc, name: string, cand: P.Stored) {
    cand.id in RowsAt(acc, name) && RowsAt(acc, name)[cand.id] == cand.row
  }

  /** x is a row that was not there before, or not like this; it is the candidate or new. */
  predicate Differs(acc: Acc, after: Acc, name: string, id: int64, x: int64) {
    && x in RowsAt(after, name) && (x == id || x !in RowsAt(acc, name))
    && (x in RowsAt(acc, name) ==> RowsAt(after, name)[x] != RowsAt(acc, name)[x])
  }

  predicate KeepsOthers(acc: Acc, after: Acc, name: string, id: int64) {
    forall x :: x in RowsAt(acc, name) && x != id ==>
      x in RowsAt(after, name) && RowsAt(after, name)[x] == RowsAt(acc, name)[x]
  }

  lemma InPlaceFrame(acc: Acc, name: string, cand: P.Stored, out: Row)
    requires Separate(acc) && Current(acc, name, cand)
    ensures
      var r := Perform(acc, TM.Update(name, cand.id, out));
      && KeepsOthers(acc, r.acc, name, cand.id)
      && (!r.ok || out == cand.row ==> SameRows(r.acc, acc))
      && (r.ok && out != cand.row ==> Differs(acc, r.acc, name, cand.id, cand.id))
  {
    var c := TM.Update(name, cand.id, out);
    PerformFrames(acc, c);
    if Perform(acc, c).ok { PerformUpdate(acc, name, cand.id, out); }
  }

  /** A move whose delete has run, whether its put succeeds or not. */
  lemma MoveFrame(acc: Acc, name: string, cand: P.Stored, key: int64, out: Row)
    requires acc.Direct? && Separate(acc) && Current(acc, name, cand) && ColsAt(acc, name).Some?
    requires CounterIsFree(acc, name)
    requires !Referenced(acc, name, cand.id) && out != cand.row
    ensures
      var r := MoveRow(acc, name, cand.id, key, out);
      && KeepsOthers(acc, r.acc, name, cand.id)
      && (r.res.Ok? ==> exists x :: Differs(acc, r.acc, name, cand.id, x))
      && (!r.res.Ok? ==> RowsAt(r.acc, name) == RowsAt(acc, name) - {cand.id})
  {
    var remove, put := TM.Remove(name, cand.id), TM.Insert(name, key, -1, out);
    assert Perform(acc, remove).ok;
    PerformRemove(acc, name, cand.id);
    PerformFrame(acc, remove, name);
    var mid := Perform(acc, remove).acc;
    RemoveKeepsCounter(acc, name, cand.id, key);
    PerformFrame(mid, put, name);
    if Perform(mid, put).ok {
      PerformInsert(mid, name, key, -1, out);
      assert Differs(acc, Perform(mid, put).acc, name, cand.id, NewId(acc, name, key));
    }
  }

  /** One row of an UPDATE: other rows stay; it leaves everything as it was if it is set to what it
      already holds, or fails other than in the middle of a move. */
  lemma UpdateOneFrame(acc: Acc, now: int, name: string, cols: seq<Column>, sets: seq<SetCol>, cand: P.Stored)
    requires acc.Direct? && Separate(acc) && ColsAt(acc, name) == Some(cols) && CounterIsFree(acc, name)
    requires Current(acc, name, cand) && |cand.row| == |cols| && forall i :: 0 <= i < |sets| ==> sets[i].idx < |cols|
    ensures
      var r := UpdateOne(acc, now, name, cols, sets, cand);
      var out := NewRow(now, name, cols, sets, cand);
      && KeepsOthers(acc, r.acc, name, cand.id)
      && (r.res.Ok? && out == Ok(cand.row) ==> SameRows(r.acc, acc))
      && (r.res.Ok? && out != Ok(cand.row) ==> exists x :: Differs(acc, r.acc, name, cand.id, x))
      && (!r.res.Ok? && !MoveStarts(acc, now, name, cols, sets, cand) ==> SameRows(r.acc, acc))
      && (!r.res.Ok? && MoveStarts(acc, now, name, cols, sets, cand) ==>
        RowsAt(r.acc, name) == RowsAt(acc, name) - {cand.id})
  {
    var out := NewRow(now, name, cols, sets, cand);
    if out.Ok? && FkRowOk(acc, cols, out.value) {
      if !Moves(cols, cand.row, out.value) {
        InPlaceFrame(acc, name, cand, out.value);
      } else if !Referenced(acc, name, cand.id) {
        MoveFrame(acc, name, cand, out.value[PkIndex(cols, 0).value].i, out.value);
      }
    }
  }

  lemma UpdateOneCatalog(acc: Acc, now: int, name: string, cols: seq<Column>, sets: seq<SetCol>, cand: P.Stored)
    requires Separate(acc) && |cand.row| == |cols| && forall i :: 0 <= i < |sets| ==> sets[i].idx < |cols|
    ensures
      var r := UpdateOne(acc, now, name, cols, sets, cand);
      && Separate(r.acc) && r.acc.Direct? == acc.Direct? && r.acc.e.ids == acc.e.ids
      && forall n :: ColsAt(r.acc, n) == ColsAt(acc, n)
  {
    var out := NewRow(now, name, cols, sets, cand);
    if out.Ok? && FkRowOk(acc, cols, out.value) {
      var remove, update := TM.Remove(name, cand.id), TM.Update(name, cand.id, out.value);
      PerformFrames(acc, update);
      PerformFrame(acc, update, name);
      PerformFrames(acc, remove);
      PerformFrame(acc, remove, name);
      if Moves(cols, cand.row, out.value) {
        var mid, put := Perform(acc, remove).acc, TM.Insert(name, out.value[PkIndex(cols, 0).value].i, -1, out.value);
        PerformFrames(mid, put);
        PerformFrame(mid, put, name);
      }
    }
  }

  // --- UPDATE of all rows --------------------------------------------------------------------------------------

  predicate Fits(acc: Acc, name: string, cols: seq<Column>, sets: seq<SetCol>, cands: seq<P.Stored>) {
    && ColsAt(acc, name) == Some(cols) && (forall i :: 0 <= i < |sets| ==> sets[i].idx < |cols|)
    && (forall i :: 0 <= i < |cands| ==> |cands[i].row| == |cols| && Current(acc, name, cands[i]))
    && (forall i, j :: 0 <= i < j < |cands| ==> cands[i].id != cands[j].id)
  }

  /** While the statement runs, the id counter never names a stored row. */
  ghost predicate CounterStaysFree(
    acc: Acc, now: int, name: string, cols: seq<Column>, sets: seq<SetCol>, cands: seq<P.Stored>)
    requires Fitting(cols, cands) && forall i :: 0 <= i < |sets| ==> sets[i].idx < |cols|
    decreases |cands|
  {
    cands == [] ||
    (&& ColsAt(acc, name).Some? && CounterIsFree(acc, name)
     && var r := UpdateOne(acc, now, name, cols, sets, cands[0]);
        r.res.Ok? ==> CounterStaysFree(r.acc, now, name, cols, sets, cands[1..]))
  }

  /** How many rows succeed before the first failure. */
  ghost function Before(
    acc: Acc, now: int, name: string, cols: seq<Column>, sets: seq<SetCol>, cands: seq<P.Stored>): (k: nat)
    requires Fitting(cols, cands) && forall i :: 0 <= i < |sets| ==> sets[i].idx < |cols|
    ensures k <= |cands|
    ensures forall n: nat :: !UpdateAll(acc, now, name, cols, sets, cands, n).res.Ok? ==> k < |cands|
    decreases |cands|
  {
    if cands == [] then 0
    else
      var r := UpdateOne(acc, now, name, cols, sets, cands[0]);
      if r.res.Ok? then 1 + Before(r.acc, now, name, cols, sets, cands[1..]) else 0
  }

  lemma FitsTail(acc: Acc, now: int, name: string, cols: seq<Column>, sets: seq<SetCol>, cands: seq<P.Stored>)
    requires acc.Direct? && Separate(acc) && Fits(acc, name, cols, sets, cands) && cands != []
    requires CounterIsFree(acc, name)
    ensures
      var r := UpdateOne(acc, now, name, cols, sets, cands[0]);
      r.acc.Direct? && Separate(r.acc) && Fits(r.acc, name, cols, sets, cands[1..])
  {
    UpdateOneCatalog(acc, now, name, cols, sets, cands[0]);
    UpdateOneFrame(acc, now, name, cols, sets, cands[0]);
    var r, rest := UpdateOne(acc, now, name, cols, sets, cands[0]), cands[1..];
    forall i | 0 <= i < |rest| ensures |rest[i].row| == |cols| && Current(r.acc, name, rest[i]) {
      assert rest[i] == cands[i + 1] && cands[0].id != cands[i + 1].id;
    }
    forall i, j | 0 <= i < j < |rest| ensures rest[i].id != rest[j].id { assert cands[i + 1].id != cands[j + 1].id; }
  }

  /** A row that is not among the candidates is never touched. */
  lemma {:induction false} RowPersists(
    acc: Acc, now: int, name: string, cols: seq<Column>, sets: seq<SetCol>, cands: seq<P.Stored>, n: nat, x: int64)
    requires acc.Direct? && Separate(acc) && Fits(acc, name, cols, sets, cands)
    requires CounterStaysFree(acc, now, name, cols, sets, cands)
    requires x in RowsAt(acc, name) && x !in IdsOf(cands)
    ensures
      var after := UpdateAll(acc, now, name, cols, sets, cands, n).acc;
      x in RowsAt(after, name) && RowsAt(after, name)[x] == RowsAt(acc, name)[x]
    decreases |cands|
  {
    if cands != [] {
      IdsCons(cands);
      UpdateOneFrame(acc, now, name, cols, sets, cands[0]);
      FitsTail(acc, now, name, cols, sets, cands);
      var r := UpdateOne(acc, now, name, cols, sets, cands[0]);
      if r.res.Ok? { RowPersists(r.acc, now, name, cols, sets, cands[1..], n + 1, x); }
    }
  }

  /** A change made by the first row is still there at the end. */
  lemma ChangePersists(
    acc: Acc, now: int, name: string, cols: seq<Column>, sets: seq<SetCol>, cands: seq<P.Stored>, n: nat)
    requires acc.Direct? && Separate(acc) && Fits(acc, name, cols, sets, cands) && cands != []
    requires CounterStaysFree(acc, now, name, cols, sets, cands)
    requires UpdateOne(acc, now, name, cols, sets, cands[0]).res.Ok?
    requires NewRow(now, name, cols, sets, cands[0]) != Ok(cands[0].row)
    ensures !SameRows(UpdateAll(acc, now, name, cols, sets, cands, n).acc, acc)
  {
    var r := UpdateOne(acc, now, name, cols, sets, cands[0]);
    UpdateOneFrame(acc, now, name, cols, sets, cands[0]);
    FitsTail(acc, now, name, cols, sets, cands);
    var x :| Differs(acc, r.acc, name, cands[0].id, x);
    assert x !in IdsOf(cands[1..]) by {
      forall i | 0 <= i < |cands[1..]| ensures cands[1..][i].id != x {
        assert cands[1..][i] == cands[i + 1] && Current(acc, name, cands[i + 1]) && cands[0].id != cands[i + 1].id;
      }
    }
    RowPersists(r.acc, now, name, cols, sets, cands[1..], n + 1, x);
  }

  lemma SameViewSameMoves(a: Acc, b: Acc, now: int, name: string, cols: seq<Column>, sets: seq<SetCol>, cand: P.Stored)
    requires |cand.row| == |cols| && forall i :: 0 <= i < |sets| ==> sets[i].idx < |cols|
    requires SameRows(a, b) && a.e.ids == b.e.ids && forall n :: ColsAt(a, n) == ColsAt(b, n)
    ensures MoveStarts(a, now, name, cols, sets, cand) ==> MoveStarts(b, now, name, cols, sets, cand)
  {
    if Referenced(b, name, cand.id) {
      var child, ci, id :| RefersAt(b, child, ci, id, name, cand.id) && !(child == name && id == cand.id);
      assert RefersAt(a, child, ci, id, name, cand.id);
    }
  }

  /** The first k candidates are set to what they already hold, and the next one does not get deleted
      on its way to another key. */
  ghost predicate NoTrace(
    acc: Acc, now: int, name: string, cols: seq<Column>, sets: seq<SetCol>, cands: seq<P.Stored>, k: nat)
    requires Fitting(cols, cands) && k < |cands| && forall i :: 0 <= i < |sets| ==> sets[i].idx < |cols|
  {
    && (forall i :: 0 <= i < k ==> NewRow(now, name, cols, sets, cands[i]) == Ok(cands[i].row))
    && !MoveStarts(acc, now, name, cols, sets, cands[k])
  }

  lemma NoTraceTail(
    a: Acc, b: Acc, now: int, name: string, cols: seq<Column>, sets: seq<SetCol>, cands: seq<P.Stored>, k: nat)
    requires Fitting(cols, cands) && k + 1 < |cands| && forall i :: 0 <= i < |sets| ==> sets[i].idx < |cols|
    requires SameRows(a, b) && a.e.ids == b.e.ids && forall n :: ColsAt(a, n) == ColsAt(b, n)
    requires NewRow(now, name, cols, sets, cands[0]) == Ok(cands[0].row)
    ensures NoTrace(a, now, name, cols, sets, cands, k + 1) <==> NoTrace(b, now, name, cols, sets, cands[1..], k)
  {
    var rest := cands[1..];
    assert rest[k] == cands[k + 1] && forall i :: 0 <= i < |rest| ==> rest[i] == cands[i + 1];
    assert forall i :: 0 < i < |cands| ==> cands[i] == rest[i - 1];
    SameViewSameMoves(a, b, now, name, cols, sets, rest[k]);
    SameViewSameMoves(b, a, now, name, cols, sets, rest[k]);
  }

  /** A failing UPDATE leaves the rows as they were if and only if every row before the failing one was
      set to what it already held, and the failing one was not deleted on its way to another key. */
  lemma {:induction false} FailedUpdateIsCleanIff(
    acc: Acc, now: int, name: string, cols: seq<Column>, sets: seq<SetCol>, cands: seq<P.Stored>, n: nat)
    requires acc.Direct? && Separate(acc) && Fits(acc, name, cols, sets, cands)
    requires CounterStaysFree(acc, now, name, cols, sets, cands)
    requires !UpdateAll(acc, now, name, cols, sets, cands, n).res.Ok?
    ensures
      var k := Before(acc, now, name, cols, sets, cands);
      SameRows(UpdateAll(acc, now, name, cols, sets, cands, n).acc, acc) <==>
        NoTrace(acc, now, name, cols, sets, cands, k)
    decreases |cands|
  {
    var r := UpdateOne(acc, now, name, cols, sets, cands[0]);
    UpdateOneFrame(acc, now, name, cols, sets, cands[0]);
    if !r.res.Ok? {
      if MoveStarts(acc, now, name, cols, sets, cands[0]) { assert cands[0].id !in RowsAt(r.acc, name); }
    } else if NewRow(now, name, cols, sets, cands[0]) != Ok(cands[0].row) {
      ChangePersists(acc, now, name, cols, sets, cands, n);
    } else {
      FailsLater(acc, now, name, cols, sets, cands, n);
    }
  }

  lemma FailsLater(acc: Acc, now: int, name: string, cols: seq<Column>, sets: seq<SetCol>, cands: seq<P.Stored>, n: nat)
    requires acc.Direct? && Separate(acc) && Fits(acc, name, cols, sets, cands) && cands != []
    requires CounterStaysFree(acc, now, name, cols, sets, cands)
    requires !UpdateAll(acc, now, name, cols, sets, cands, n).res.Ok?
    requires UpdateOne(acc, now, name, cols, sets, cands[0]).res.Ok?
    requires NewRow(now, name, cols, sets, cands[0]) == Ok(cands[0].row)
    ensures
      var k := Before(acc, now, name, cols, sets, cands);
      SameRows(UpdateAll(acc, now, name, cols, sets, cands, n).acc, acc) <==>
        NoTrace(acc, now, name, cols, sets, cands, k)
    decreases |cands|, 0
  {
    var r, rest := UpdateOne(acc, now, name, cols, sets, cands[0]), cands[1..];
    UpdateOneFrame(acc, now, name, cols, sets, cands[0]);
    UpdateOneCatalog(acc, now, name, cols, sets, cands[0]);
    FitsTail(acc, now, name, cols, sets, cands);
    FailedUpdateIsCleanIff(r.acc, now, name, cols, sets, rest, n + 1);
    NoTraceTail(acc, r.acc, now, name, cols, sets, cands, Before(r.acc, now, name, cols, sets, rest));
  }

  // --- whole statements ------------------------------------------------------------------------------------------

  lemma CandidatesIncreasing(now: int, name: string, rel: P.Relation, where: Option<Expr>)
    requires Increasing(rel.stored) && CollectCandidates(now, name, rel, where).Ok?
    ensures Increasing(CollectCandidates(now, name, rel, where).value)
  {
    if P.UniqueEquality(where, name, rel.cols).None? {
      ScanIncreasing(Ctx(TableScope(name, rel.cols), now, None), where, rel.stored);
    }
  }

  lemma CandidatesAreRows(now: int, name: string, cols: seq<Column>, rows: Rows, where: Option<Expr>)
    requires CollectCandidates(now, name, P.Relation(cols, Listing(rows)), where).Ok?
    ensures
      var cands := CollectCandidates(now, name, P.Relation(cols, Listing(rows)), where).value;
      Increasing(cands) && forall i :: 0 <= i < |cands| ==> cands[i].id in rows && rows[cands[i].id] == cands[i].row
  {
    var rel := P.Relation(cols, Listing(rows));
    ListingLists(rows);
    CandidatesIncreasing(now, name, rel, where);
    CandidatesWithin(now, name, rel, where);
    var cands := CollectCandidates(now, name, rel, where).value;
    forall i | 0 <= i < |cands| ensures cands[i].id in rows && rows[cands[i].id] == cands[i].row {
      assert cands[i] in rel.stored;
    }
  }

  /** The rows of an UPDATE or DELETE are rows of the table, each once. */
  lemma AffectedAreRows(run: Q.Runner, acc: Acc, now: int, name: string, where: Option<Expr>)
    requires name in DbOf(acc) && Affected(run, acc, now, name, where).Ok?
    ensures
      var cands := Affected(run, acc, now, name, where).value;
      Increasing(cands) && forall i :: 0 <= i < |cands| ==> Current(acc, name, cands[i])
  {
    var cols := DbOf(acc)[name].cols;
    var w := PrepareWhere(run, acc, now, TableScope(name, cols), where);
    CandidatesAreRows(now, name, cols, RowsAt(acc, name), w.value);
  }

  /** No id the statement hands out is in use. */
  ghost predicate CounterFine(run: Q.Runner, acc: Acc, now: int, s: Statement) {
    s.table in DbOf(acc) && !s.DeleteRows? ==>
      && CounterIsFree(acc, s.table)
      && (s.UpdateRows? ==>
           var p := PlanUpdate(run, acc, now, s.table, s.sets, s.where);
           p.Ok? ==> CounterStaysFree(acc, now, s.table, DbOf(acc)[s.table].cols, p.value.sets, p.value.cands))
  }

  /** What the statement has done before it fails: a first row inserted or deleted; or a row set to
      something new or deleted on its way to another key. */
  ghost predicate LeavesTrace(run: Q.Runner, acc: Acc, now: int, s: Statement) {
    && s.table in DbOf(acc)
    && var cols := DbOf(acc)[s.table].cols;
       match s
       case InsertRows(name, names, rows) =>
         var targets := TargetsOf(cols, names);
         targets.Ok? && rows != [] && InsertOne(acc, name, cols, targets.value, rows[0], now).res.Ok?
       case DeleteRows(name, where) =>
         var cands := Affected(run, acc, now, name, where);
         cands.Ok? && cands.value != [] && DeleteOne(acc, name, cands.value[0].id).res.Ok?
       case UpdateRows(name, sets, where) =>
         var p := PlanUpdate(run, acc, now, name, sets, where);
         p.Ok? && var k := Before(acc, now, name, cols, p.value.sets, p.value.cands);
                  k < |p.value.cands| && !NoTrace(acc, now, name, cols, p.value.sets, p.value.cands, k)
  }

  lemma FailedUpdateStatement(
    run: Q.Runner, acc: Acc, now: int, name: string, sets: seq<Assignment>, where: Option<Expr>)
    requires acc.Direct? && Separate(acc) && CounterFine(run, acc, now, UpdateRows(name, sets, where))
    requires !ExecUpdate(run, acc, now, name, sets, where).res.Ok?
    ensures SameRows(ExecUpdate(run, acc, now, name, sets, where).acc, acc) <==>
            !LeavesTrace(run, acc, now, UpdateRows(name, sets, where))
  {
    if name in DbOf(acc) && PlanUpdate(run, acc, now, name, sets, where).Ok? {
      var p, cols := PlanUpdate(run, acc, now, name, sets, where).value, DbOf(acc)[name].cols;
      AffectedAreRows(run, acc, now, name, where);
      FailedUpdateIsCleanIff(acc, now, name, cols, p.sets, p.cands, 0);
    }
  }

  /** A statement that fails outside a transaction leaves all rows as they were if and only if it had
      done nothing to them before. */
  lemma FailedStatementIsCleanIff(run: Q.Runner, acc: Acc, now: int, s: Statement)
    requires acc.Direct? && Separate(acc) && CounterFine(run, acc, now, s)
    requires !Exec(run, acc, now, s).res.Ok?
    ensures SameRows(Exec(run, acc, now, s).acc, acc) <==> !LeavesTrace(run, acc, now, s)
  {
    match s
    case UpdateRows(name, sets, where) => FailedUpdateStatement(run, acc, now, name, sets, where);
    case InsertRows(name, names, rows) =>
      if name in DbOf(acc) && TargetsOf(DbOf(acc)[name].cols, names).Ok? {
        var cols := DbOf(acc)[name].cols;
        FailedInsertIsCleanIff(acc, name, cols, TargetsOf(cols, names).value, rows, now);
      }
    case DeleteRows(name, where) =>
      if name in DbOf(acc) && Affected(run, acc, now, name, where).Ok? {
        FailedDeleteIsCleanIff(acc, name, Affected(run, acc, now, name, where).value);
      }
  }

  // --- the id counter ---------------------------------------------------------------------------------------------

  /** The counter is positive, above every stored id, and at least m below the largest id. */
  predicate Roomy(acc: Acc, name: string, m: nat) {
    var t := TM.TableNamed(acc.e, name);
    t.Some? && IdsBelow(t.value) && 0 < t.value.nextID && t.value.nextID + m <= MAX_INT64
  }

  lemma RoomyIsFree(acc: Acc, name: string, m: nat)
    requires acc.Direct? && Roomy(acc, name, m)
    ensures ColsAt(acc, name).Some? && CounterIsFree(acc, name)
  {
  }

  /** A put takes at most one number more than the counter or its own id. */
  lemma PutKeepsRoom(t: TableState, pkIdx: int, rowID: int64, row: Row, mustExist: bool, m: nat)
    requires IdsBelow(t) && 0 < t.nextID && t.nextID + m <= MAX_INT64 && 0 < m && rowID + m <= MAX_INT64
    ensures
      var t' := PutState(t, pkIdx, rowID, row, mustExist);
      && IdsBelow(t') && 0 < t'.nextID && t'.nextID + m - 1 <= MAX_INT64
      && (mustExist ==> t'.nextID == t.nextID)
  {
  }

  lemma RemoveKeepsRoom(acc: Acc, name: string, id: int64, m: nat)
    requires acc.Direct? && Roomy(acc, name, m)
    ensures Roomy(Perform(acc, TM.Remove(name, id)).acc, name, m)
  {
  }

  lemma InsertKeepsRoom(acc: Acc, name: string, key: int64, pkIdx: int, row: Row, m: nat)
    requires acc.Direct? && Roomy(acc, name, m) && 0 < m && key + m <= MAX_INT64
    ensures Roomy(Perform(acc, TM.Insert(name, key, pkIdx, row)).acc, name, m - 1)
  {
    PutKeepsRoom(TM.TableNamed(acc.e, name).value, pkIdx, key, row, false, m);
  }

  lemma UpdateKeepsRoom(acc: Acc, name: string, id: int64, row: Row, m: nat)
    requires acc.Direct? && Roomy(acc, name, m) && 0 < m && id in RowsAt(acc, name)
    ensures Roomy(Perform(acc, TM.Update(name, id, row)).acc, name, m - 1)
  {
    PutKeepsRoom(TM.TableNamed(acc.e, name).value, -1, id, row, true, m);
  }

  /** The row is not moved to one of the m largest keys. */
  predicate KeyHasRoom(now: int, name: string, cols: seq<Column>, sets: seq<SetCol>, cand: P.Stored, m: nat)
    requires |cand.row| == |cols| && forall i :: 0 <= i < |sets| ==> sets[i].idx < |cols|
  {
    var out := NewRow(now, name, cols, sets, cand);
    out.Ok? && Moves(cols, cand.row, out.value) ==> out.value[PkIndex(cols, 0).value].i + m <= MAX_INT64
  }

  lemma UpdateOneKeepsRoom(
    acc: Acc, now: int, name: string, cols: seq<Column>, sets: seq<SetCol>, cand: P.Stored, m: nat)
    requires acc.Direct? && Roomy(acc, name, m) && 0 < m && Current(acc, name, cand)
    requires |cand.row| == |cols| && forall i :: 0 <= i < |sets| ==> sets[i].idx < |cols|
    requires KeyHasRoom(now, name, cols, sets, cand, m)
    ensures Roomy(UpdateOne(acc, now, name, cols, sets, cand).acc, name, m - 1)
  {
    var out := NewRow(now, name, cols, sets, cand);
    if out.Ok? && FkRowOk(acc, cols, out.value) {
      if !Moves(cols, cand.row, out.value) {
        UpdateKeepsRoom(acc, name, cand.id, out.value, m);
      } else if !Referenced(acc, name, cand.id) {
        var remove := TM.Remove(name, cand.id);
        RemoveKeepsRoom(acc, name, cand.id, m);
        InsertKeepsRoom(Perform(acc, remove).acc, name, out.value[PkIndex(cols, 0).value].i, -1, out.value, m);
      }
    }
  }

  /** With room for one number per candidate the counter never names a stored row. */
  lemma {:induction false} RoomKeepsCounterFree(
    acc: Acc, now: int, name: string, cols: seq<Column>, sets: seq<SetCol>, cands: seq<P.Stored>)
    requires acc.Direct? && Separate(acc) && Fits(acc, name, cols, sets, cands) && Roomy(acc, name, |cands|)
    requires forall i :: 0 <= i < |cands| ==> KeyHasRoom(now, name, cols, sets, cands[i], |cands|)
    ensures CounterStaysFree(acc, now, name, cols, sets, cands)
    decreases |cands|
  {
    if cands != [] {
      RoomyIsFree(acc, name, |cands|);
      FitsTail(acc, now, name, cols, sets, cands);
      UpdateOneKeepsRoom(acc, now, name, cols, sets, cands[0], |cands|);
      var r, rest := UpdateOne(acc, now, name, cols, sets, cands[0]), cands[1..];
      forall i | 0 <= i < |rest| ensures KeyHasRoom(now, name, cols, sets, rest[i], |rest|) {
        assert KeyHasRoom(now, name, cols, sets, cands[i + 1], |cands|);
      }
      RoomKeepsCounterFree(r.acc, now, name, cols, sets, rest);
    }
  }

  /** What a caller can check before the statement: the counter of the table is ahead of its ids, and
      neither it nor a key a row is moved to is within reach of the largest int64. */
  ghost predicate HasRoom(run: Q.Runner, acc: Acc, now: int, s: Statement) {
    s.table in DbOf(acc) && !s.DeleteRows? ==>
      && Roomy(acc, s.table, 0)
      && (s.UpdateRows? ==>
           var p, cols := PlanUpdate(run, acc, now, s.table, s.sets, s.where), DbOf(acc)[s.table].cols;
           p.Ok? ==>
             && Roomy(acc, s.table, |p.value.cands|)
             && forall i :: 0 <= i < |p.value.cands| ==>
                  KeyHasRoom(now, s.table, cols, p.value.sets, p.value.cands[i], |p.value.cands|))
  }

  lemma RoomIsFine(run: Q.Runner, acc: Acc, now: int, s: Statement)
    requires acc.Direct? && Separate(acc) && HasRoom(run, acc, now, s)
    ensures CounterFine(run, acc, now, s)
  {
    if s.table in DbOf(acc) && !s.DeleteRows? {
      RoomyIsFree(acc, s.table, 0);
      if s.UpdateRows? && PlanUpdate(run, acc, now, s.table, s.sets, s.where).Ok? {
        var p := PlanUpdate(run, acc, now, s.table, s.sets, s.where).value;
        AffectedAreRows(run, acc, now, s.table, s.where);
        RoomKeepsCounterFree(acc, now, s.table, DbOf(acc)[s.table].cols, p.sets, p.cands);
      }
    }
  }

  /** The same from what can be checked before the call. */
  lemma FailedStatementInRoomIsCleanIff(run: Q.Runner, acc: Acc, now: int, s: Statement)
    requires acc.Direct? && Separate(acc) && HasRoom(run, acc, now, s)
    requires !Exec(run, acc, now, s).res.Ok?
    ensures SameRows(Exec(run, acc, now, s).acc, acc) <==> !LeavesTrace(run, acc, now, s)
  {
    RoomIsFine(run, acc, now, s);
    FailedStatementIsCleanIff(run, acc, now, s);
  }

  // --- it happens --------------------------------------------------------------------------------------------------

  lemma {:induction false} ScanWithoutCondition(c: Ctx, stored: seq<P.Stored>)
    ensures Scan(c, None, stored) == Ok(stored)
    decreases |stored|
  {
    if stored != [] {
      ScanWithoutCondition(c, stored[1..]);
      assert [stored[0]] + stored[1..] == stored;
    }
  }

  /** UPDATE name SET col = v, without a condition. */
  lemma SetEveryRow(run: Q.Runner, acc: Acc, now: int, name: string, col: string, v: Value)
    requires name in DbOf(acc) && ColumnNamed(DbOf(acc)[name].cols, col, 0).Some?
    requires Fitting(DbOf(acc)[name].cols, DbOf(acc)[name].stored)
    ensures
      var rel := DbOf(acc)[name];
      Exec(run, acc, now, UpdateRows(name, [Assignment(col, Lit(v))], None)) ==
      UpdateAll(acc, now, name, rel.cols, [SetCol(ColumnNamed(rel.cols, col, 0).value, Lit(v))], rel.stored, 0)
  {
    var rel, sets := DbOf(acc)[name], [Assignment(col, Lit(v))];
    assert sets[1..] == [];
    var ci := ColumnNamed(rel.cols, col, 0).value;
    assert SetCols(rel.cols, sets) == Ok([SetCol(ci, Lit(v))]) by {
      assert [SetCol(ci, Lit(v))] + [] == [SetCol(ci, Lit(v))];
    }
    assert ValidateSets(TableScope(name, rel.cols), sets).None?;
    ScanWithoutCondition(Ctx(TableScope(name, rel.cols), now, None), rel.stored);
    assert Affected(run, acc, now, name, None) == Ok(rel.stored);
  }

  lemma FirstListed(rows: Rows, m: int64)
    requires IsLeast(m, rows.Keys)
    ensures Listing(rows) != [] && Listing(rows)[0] == P.Stored(m, rows[m])
  {
  }

  function Holding(cols: seq<Column>, rows: Rows): Acc {
    Direct(EM.EngineState(map["t" := 1], map[1 := TableState(cols, rows, 3, map[])], 2))
  }

  const ID := Column("id", TInt, false, true, false, false, "", "")
  const FILLED := Column("a", TInt, true, false, false, false, "", "")
  const TWO_ROWS: Rows := map[1 := [VInt(1)], 2 := [VInt(2)]]

  lemma HoldingIsShown(cols: seq<Column>, rows: Rows)
    requires forall id :: id in rows ==> |rows[id]| == |cols|
    ensures
      var acc := Holding(cols, rows);
      && Separate(acc) && "t" in DbOf(acc) && DbOf(acc)["t"] == P.Relation(cols, Listing(rows))
      && ColsAt(acc, "t") == Some(cols) && RowsAt(acc, "t") == rows && Fitting(cols, Listing(rows))
  {
    ListingLists(rows);
  }

  lemma NothingRefers(rows: Rows, key: int64)
    ensures !Referenced(Holding([ID], rows), "t", key)
  {
    var acc := Holding([ID], rows);
    forall child, ci, id ensures !RefersAt(acc, child, ci, id, "t", key) {
      if child in acc.e.ids { assert child == "t" && ColsAt(acc, child) == Some([ID]); }
    }
  }

  /** UPDATE t SET id = 2 with rows 1 and 2: the statement fails, and row 1 is gone. */
  lemma FailedMoveLosesRow(run: Q.Runner, now: int)
    ensures
      var r := Exec(run, Holding([ID], TWO_ROWS), now, UpdateRows("t", [Assignment("id", Lit(VInt(2)))], None));
      r.res == Err("23505") && RowsAt(r.acc, "t") == map[2 := [VInt(2)]]
  {
    var acc, sets := Holding([ID], TWO_ROWS), [SetCol(0, Lit(VInt(2)))];
    HoldingIsShown([ID], TWO_ROWS);
    assert IsLeast(1, TWO_ROWS.Keys);
    FirstListed(TWO_ROWS, 1);
    SetEveryRow(run, acc, now, "t", "id", VInt(2));
    MoveOntoOther(now);
  }

  lemma MoveOntoOther(now: int)
    ensures
      var r := UpdateOne(Holding([ID], TWO_ROWS), now, "t", [ID], [SetCol(0, Lit(VInt(2)))], P.Stored(1, [VInt(1)]));
      r.res == Err("23505") && RowsAt(r.acc, "t") == map[2 := [VInt(2)]]
  {
    var acc, sets, cand := Holding([ID], TWO_ROWS), [SetCol(0, Lit(VInt(2)))], P.Stored(1, [VInt(1)]);
    NothingRefers(TWO_ROWS, 1);
    assert sets[1..] == [] && [VInt(1)][0 := VInt(2)] == [VInt(2)];
    assert NewRow(now, "t", [ID], sets, cand) == Ok([VInt(2)]);
    assert Perform(acc, TM.Remove("t", 1)).ok;
    PerformRemove(acc, "t", 1);
    assert TWO_ROWS - {1} == map[2 := [VInt(2)]];
  }

  const ONE_ROW: Rows := map[1 := [VInt(1)]]

  lemma SetToNull(now: int)
    ensures
      var r := UpdateOne(Holding([FILLED], ONE_ROW), now, "t", [FILLED], [SetCol(0, Lit(VNull))],
        P.Stored(1, [VInt(1)]));
      r.res.Ok? && RowsAt(r.acc, "t") == map[1 := [VNull]]
  {
    var acc, sets, cand := Holding([FILLED], ONE_ROW), [SetCol(0, Lit(VNull))], P.Stored(1, [VInt(1)]);
    assert sets[1..] == [] && [VInt(1)][0 := VNull] == [VNull];
    assert NewRow(now, "t", [FILLED], sets, cand) == Ok([VNull]);
    assert Perform(acc, TM.Update("t", 1, [VNull])).ok;
    PerformUpdate(acc, "t", 1, [VNull]);
  }

  /** UPDATE t SET a = NULL succeeds although a is NOT NULL. */
  lemma NotNullIsOverwritten(run: Q.Runner, now: int)
    ensures
      var r := Exec(run, Holding([FILLED], ONE_ROW), now, UpdateRows("t", [Assignment("a", Lit(VNull))], None));
      r.res.Ok? && RowsAt(r.acc, "t") == map[1 := [VNull]]
    ensures NotNullOk([FILLED], [VInt(1)]) && !NotNullOk([FILLED], [VNull])
  {
    var acc, cand := Holding([FILLED], ONE_ROW), P.Stored(1, [VInt(1)]);
    HoldingIsShown([FILLED], ONE_ROW);
    FirstListed(ONE_ROW, 1);
    assert Listing(ONE_ROW) == [cand] by { assert ONE_ROW - {1} == map[]; }
    SetEveryRow(run, acc, now, "t", "a", VNull);
    SetToNull(now);
    assert [cand][1..] == [];
  }

  lemma PrepareSample(now: int)
    ensures TargetsOf([ID], []) == Ok([0])
    ensures PrepareRow([ID], [0], [Lit(VInt(1))], now) == Ok(Prepared([VInt(1)], ByValue(1)))
  {
    assert seq(1, i => i) == [0];
    assert seq(1, i => VNull) == [VNull] && [0][1..] == [] && [VNull][0 := VInt(1)] == [VInt(1)];
  }

  lemma InsertTwice(now: int)
    ensures
      var r := InsertAll(Holding([ID], map[]), "t", [ID], [0], [[Lit(VInt(1))], [Lit(VInt(1))]], now, 0);
      r.res == Err("23505") && RowsAt(r.acc, "t") == map[1 := [VInt(1)]]
  {
    var acc, rows := Holding([ID], map[]), [[Lit(VInt(1))], [Lit(VInt(1))]];
    PrepareSample(now);
    assert rows[1..] == [[Lit(VInt(1))]] && rows[1..][1..] == [];
    assert Perform(acc, TM.Insert("t", 1, -1, [VInt(1)])).ok;
    PerformInsert(acc, "t", 1, -1, [VInt(1)]);
  }

  /** INSERT INTO t VALUES (1), (1): the statement fails, and the first row stays. */
  lemma FailedInsertLeavesRow(run: Q.Runner, now: int)
    ensures
      var r := Exec(run, Holding([ID], map[]), now, InsertRows("t", [], [[Lit(VInt(1))], [Lit(VInt(1))]]));
      r.res == Err("23505") && RowsAt(r.acc, "t") == map[1 := [VInt(1)]]
  {
    HoldingIsShown([ID], map[]);
    PrepareSample(now);
    InsertTwice(now);
  }

  // --- the hypothesis on the counter is needed ---------------------------------------------------------------------

  const TAKEN: Rows := map[3 := [VInt(1)]]

  lemma PrepareTaken(now: int)
    ensures PrepareRow([FILLED], [0], [Lit(VInt(1))], now) == Ok(Prepared([VInt(1)], ByEngine(-1)))
    ensures PrepareRow([FILLED], [0], [Lit(VBool(true))], now) == Err("22P02")
  {
    assert seq(1, i => VNull) == [VNull] && [0][1..] == [] && [VNull][0 := VInt(1)] == [VInt(1)];
  }

  /** If the counter names a stored row, INSERT INTO t VALUES (1), (TRUE) may store its first row over an
      equal one: the statement fails on its second row, and the rows are as they were. */
  lemma TakenCounterHidesTrace(now: int)
    ensures
      var acc, rows := Holding([FILLED], TAKEN), [[Lit(VInt(1))], [Lit(VBool(true))]];
      var r := InsertAll(acc, "t", [FILLED], [0], rows, now, 0);
      && !r.res.Ok? && InsertOne(acc, "t", [FILLED], [0], rows[0], now).res.Ok?
      && RowsAt(r.acc, "t") == RowsAt(acc, "t")
  {
    var acc, rows := Holding([FILLED], TAKEN), [[Lit(VInt(1))], [Lit(VBool(true))]];
    PrepareTaken(now);
    assert rows[1..] == [[Lit(VBool(true))]];
    assert Perform(acc, TM.Insert("t", 0, -1, [VInt(1)])).ok;
    PerformInsert(acc, "t", 0, -1, [VInt(1)]);
    assert TAKEN[3 := [VInt(1)]] == TAKEN;
  }
}
