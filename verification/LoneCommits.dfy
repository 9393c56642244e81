/** A transaction nobody interferes with: when its COMMIT succeeds. */
module LoneCommits {
  import opened Values
  import opened Keys
  import opened Schema
  import opened UniqueIndex
  import opened Tables
  import opened WalCodec
  import opened EngineModel
  import opened TxnModel
  import opened Sessions
  import opened Accessor

  /** No two committed rows share a UNIQUE value, and table ids fit the log's 32 bits. */
  predicate CleanBase(e: EngineState) {
    && IdsInjective(e)
    && forall n :: n in e.ids ==>
         e.ids[n] < 0x1_0000_0000 && e.ids[n] in e.tabs && UniqueRows(e.tabs[e.ids[n]].cols, e.tabs[e.ids[n]].rows)
  }

  function Started(id: uint64): TxnState { TxnState(id, [], map[], false) }

  // --- what successful calls keep -----------------------------------------------------------------------

  /** Every table the buffer mentions exists, and the transaction sees no UNIQUE value twice. */
  predicate CleanBuffer(e: EngineState, t: TxnState) {
    && IdsInjective(e)
    && (forall n :: n in e.ids ==> e.ids[n] in e.tabs && UniqueRows(e.tabs[e.ids[n]].cols, RowsAt(Buffered(e, t), n)))
    && (forall i :: 0 <= i < |t.ops| ==> t.ops[i].name in e.ids)
  }

  lemma CallAddsOneOp(e: EngineState, t: TxnState, c: Call)
    requires DoCall(e, t, c).error.None?
    ensures c.name in e.ids && exists op :: DoCall(e, t, c).t.ops == t.ops + [Op(c.name, op)]
  {
    assert DoCall(e, t, c).t.ops == t.ops + [Op(c.name, DoCall(e, t, c).t.ops[|t.ops|].op)];
  }

  lemma CallKeepsClean(e: EngineState, t: TxnState, c: Call)
    requires CleanBuffer(e, t) && DoCall(e, t, c).error.None?
    ensures CleanBuffer(DoCall(e, t, c).e, DoCall(e, t, c).t)
  {
    var acc, r := Buffered(e, t), DoCall(e, t, c);
    PerformFrame(acc, c, c.name);
    CallKeepsEngine(e, t, c);
    assert forall i :: 0 <= i < |r.t.ops| ==> r.t.ops[i].name in e.ids by { CallAddsOneOp(e, t, c); }
    forall n | n in r.e.ids
      ensures r.e.ids[n] in r.e.tabs && UniqueRows(r.e.tabs[r.e.ids[n]].cols, RowsAt(Buffered(r.e, r.t), n))
    {
      PerformKeepsUnique(acc, c, n);
    }
  }

  lemma {:induction false} CallsKeepClean(e: EngineState, t: TxnState, calls: seq<Call>)
    requires CleanBuffer(e, t) && RunCalls(e, t, calls).error.None?
    ensures CleanBuffer(RunCalls(e, t, calls).e, RunCalls(e, t, calls).t)
    ensures RunCalls(e, t, calls).e.ids == e.ids
    decreases |calls|
  {
    if calls != [] {
      var r := DoCall(e, t, calls[0]);
      CallKeepsClean(e, t, calls[0]);
      CallKeepsEngine(e, t, calls[0]);
      CallsKeepClean(r.e, r.t, calls[1..]);
    }
  }

  // --- superseded puts --------------------------------------------------------------------------------------

  predicate SameRow(a: Op, b: Op) { a.name == b.name && a.op.id == b.op.id }

  /** A later operation of the buffer is on the same row. */
  predicate Superseded(ops: seq<Op>, i: nat) {
    exists j :: i < j < |ops| && SameRow(ops[i], ops[j])
  }

  /** A put nothing supersedes is what the transaction sees of its row. */
  lemma {:induction false} LastPutIsSeen(rows: Rows, ops: seq<Op>, i: nat)
    requires i < |ops| && ops[i].op.PutRow? && !Superseded(ops, i)
    ensures Find(Overlay(rows, ops, ops[i].name), ops[i].op.id) == Some(ops[i].op.row)
    decreases |ops|
  {
    var init, name := ops[..|ops| - 1], ops[i].name;
    OverlaySnoc(rows, ops, name);
    if i < |ops| - 1 {
      assert forall j :: i < j < |init| ==> init[j] == ops[j];
      LastPutIsSeen(rows, init, i);
      assert !SameRow(ops[i], ops[|ops| - 1]);
    }
  }

  /** At the end another row of the table holds a UNIQUE value of the i-th operation, a put. */
  predicate GivenAway(e: EngineState, ops: seq<Op>, i: nat)
    requires i < |ops| && ops[i].name in e.ids && e.ids[ops[i].name] in e.tabs
  {
    var o, t := ops[i], e.tabs[e.ids[ops[i].name]];
    && o.op.PutRow?
    && exists ci :: ci in UniqueCols(t.cols) && !FreeIn(Overlay(t.rows, ops, o.name), o.op.id, o.op.row, ci)
  }

  /** Every call succeeded and nobody else has committed since. COMMIT then succeeds if and only if no
      value of a superseded put has since been given to another row, and the transaction has not
      removed a committed row and inserted one with its id. */
  lemma LoneCommitIff(e: EngineState, id: uint64, calls: seq<Call>)
    requires CleanBase(e) && RunCalls(e, Started(id), calls).error.None?
    ensures
      var r := RunCalls(e, Started(id), calls);
      && SameEngine(r.e, e)
      && (forall i :: 0 <= i < |r.t.ops| ==> r.t.ops[i].name in r.e.ids && r.e.ids[r.t.ops[i].name] in r.e.tabs)
      && (CommitOk(r.e, r.t) <==>
          && (forall i :: 0 <= i < |r.t.ops| && Superseded(r.t.ops, i) ==> !GivenAway(r.e, r.t.ops, i))
          && InsertsFree(e, r.t.inserts))
  {
    var r := RunCalls(e, Started(id), calls);
    CallsKeepEngine(e, Started(id), calls);
    CallsKeepClean(e, Started(id), calls);
    CommitOkByOp(r.e, r.t);
    forall i | 0 <= i < |r.t.ops| && !Superseded(r.t.ops, i) ensures OpOk(r.e, r.t.ops, r.t.ops[i]) {
      LastIsOk(r.e, r.t, i);
    }
    assert forall i :: 0 <= i < |r.t.ops| ==> (OpOk(r.e, r.t.ops, r.t.ops[i]) <==> !GivenAway(r.e, r.t.ops, i));
    assert forall name :: CommittedRows(r.e, name) == CommittedRows(e, name);
  }

  lemma LastIsOk(e: EngineState, t: TxnState, i: nat)
    requires CleanBuffer(e, t) && i < |t.ops| && !Superseded(t.ops, i)
    ensures OpOk(e, t.ops, t.ops[i])
  {
    if t.ops[i].op.PutRow? { LastPutIsSeen(CommittedRows(e, t.ops[i].name), t.ops, i); }
  }

  // --- both ways to fail -----------------------------------------------------------------------------------------

  /** t(id INT PRIMARY KEY, k INT UNIQUE). */
  const UNIQUE_COLS :=
    [Column("id", TInt, false, true, false, false, "", ""), Column("k", TInt, false, false, false, true, "", "")]

  function OneTable(rows: Rows, idx: Index): EngineState {
    EngineState(map["t" := 0], map[0 := TableState(UNIQUE_COLS, rows, 2, map[1 := idx])], 1)
  }

  function K(id: int64, k: int64): Row { [VInt(id), VInt(k)] }

  lemma UniqueColsOfSample()
    ensures UniqueCols(UNIQUE_COLS) == {1}
  {
  }

  lemma OneMoreOp(rows: Rows, ops: seq<Op>, op: RowOp)
    ensures Overlay(rows, ops + [Op("t", op)], "t") == StepRows(Overlay(rows, ops, "t"), op)
  {
    OverlaySnoc(rows, ops + [Op("t", op)], "t");
    assert (ops + [Op("t", op)])[..|ops|] == ops;
  }

  lemma OneCall(e: EngineState, t: TxnState, a: Call)
    ensures RunCalls(e, t, [a]) == DoCall(e, t, a)
  {
    assert [a][1..] == [];
  }

  lemma TwoCalls(e: EngineState, t: TxnState, a: Call, b: Call)
    requires DoCall(e, t, a).error.None?
    ensures RunCalls(e, t, [a, b]) == DoCall(DoCall(e, t, a).e, DoCall(e, t, a).t, b)
  {
    assert [a, b][1..] == [b];
    OneCall(DoCall(e, t, a).e, DoCall(e, t, a).t, b);
  }

  const FIRST := Insert("t", 1, -1, K(1, 7))
  const SECOND := Update("t", 1, K(1, 8))
  const THIRD := Insert("t", 2, -1, K(2, 7))

  const O1 := Op("t", PutRow(1, K(1, 7)))
  const O2 := Op("t", PutRow(1, K(1, 8)))
  const O3 := Op("t", PutRow(2, K(2, 7)))

  lemma SampleOverlays()
    ensures Overlay(map[], [], "t") == map[] && Overlay(map[], [O1], "t") == map[1 := K(1, 7)]
    ensures Overlay(map[], [O1, O2], "t") == map[1 := K(1, 8)]
    ensures Overlay(map[], [O1, O2, O3], "t") == map[1 := K(1, 8), 2 := K(2, 7)]
  {
    OneMoreOp(map[], [], O1.op);
    OneMoreOp(map[], [O1], O2.op);
    OneMoreOp(map[], [O1, O2], O3.op);
    assert [] + [O1] == [O1] && [O1] + [O2] == [O1, O2] && [O1, O2] + [O3] == [O1, O2, O3];
  }

  lemma SampleChecks()
    ensures UniqueOk(UNIQUE_COLS, map[], 1, K(1, 7)) && UniqueOk(UNIQUE_COLS, map[1 := K(1, 7)], 1, K(1, 8))
    ensures UniqueOk(UNIQUE_COLS, map[1 := K(1, 8)], 2, K(2, 7))
  {
    UniqueColsOfSample();
    UniqKeyInjective(VInt(7), VInt(8));
  }

  lemma AllThreeSucceed(id: uint64)
    ensures
      var r := RunCalls(OneTable(map[], map[]), Started(id), [FIRST, SECOND, THIRD]);
      r.error.None? && r.e == OneTable(map[], map[]) && r.t.ops == [O1, O2, O3]
  {
    var e := OneTable(map[], map[]);
    SampleOverlays();
    SampleChecks();
    var r1 := DoCall(e, Started(id), FIRST);
    assert r1.error.None? && r1.e == e && r1.t.ops == [O1];
    var r2 := DoCall(e, r1.t, SECOND);
    assert r2.error.None? && r2.e == e && r2.t.ops == [O1, O2];
    TwoCalls(e, r1.t, SECOND, THIRD);
    assert [FIRST, SECOND, THIRD][1..] == [SECOND, THIRD];
  }

  /** INSERT INTO t VALUES (1, 7); UPDATE t SET k = 8 WHERE id = 1; INSERT INTO t VALUES (2, 7). All
      three calls succeed; the superseded put of row 1 makes COMMIT fail. */
  lemma SupersededPutIsRefused(id: uint64)
    ensures
      var r := RunCalls(OneTable(map[], map[]), Started(id), [FIRST, SECOND, THIRD]);
      r.error.None? && !CommitOk(r.e, r.t)
  {
    UniqueColsOfSample();
    AllThreeSucceed(id);
    SampleOverlays();
    var r := RunCalls(OneTable(map[], map[]), Started(id), [FIRST, SECOND, THIRD]);
    assert SameRow(r.t.ops[0], r.t.ops[1]);
    var final := Overlay(map[], r.t.ops, "t");
    assert 2 in final && CellKey(final[2], 1) == CellKey(K(1, 7), 1);
    assert !FreeIn(final, 1, K(1, 7), 1);
    assert Superseded(r.t.ops, 0) && GivenAway(r.e, r.t.ops, 0);
    LoneCommitIff(OneTable(map[], map[]), id, [FIRST, SECOND, THIRD]);
  }

  /** DELETE FROM t WHERE id = 1; INSERT INTO t VALUES (1, 7), the row that was there. Both calls
      succeed; COMMIT takes the id for somebody else's. */
  lemma ReinsertedRowIsRefused(id: uint64)
    ensures
      var e := OneTable(map[1 := K(1, 7)], map[UniqKey(VInt(7)) := 1]);
      var r := RunCalls(e, Started(id), [Remove("t", 1), Insert("t", 1, -1, K(1, 7))]);
      r.error.None? && !CommitOk(r.e, r.t)
  {
    var rows: Rows := map[1 := K(1, 7)];
    var e := OneTable(rows, map[UniqKey(VInt(7)) := 1]);
    UniqueColsOfSample();
    OneMoreOp(rows, [], DelRow(1));
    OneMoreOp(rows, [Op("t", DelRow(1))], PutRow(1, K(1, 7)));
    TwoCalls(e, Started(id), Remove("t", 1), Insert("t", 1, -1, K(1, 7)));
    LoneCommitIff(e, id, [Remove("t", 1), Insert("t", 1, -1, K(1, 7))]);
  }
}
