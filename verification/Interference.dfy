/** Two connections and foreign keys: COMMIT validates UNIQUE columns and inserted ids, not references. */
module Interference {
  import opened Values
  import opened Schema
  import opened Eval
  import opened Tables
  import opened WalCodec
  import opened EngineModel
  import TM = TxnModel
  import opened Accessor
  import opened Dml
  import DS = DmlSessions

  // --- rows a transaction leaves alone --------------------------------------------------------------------

  predicate Touched(ops: seq<TM.Op>, name: string, id: int64) {
    exists i :: 0 <= i < |ops| && ops[i].name == name && ops[i].op.id == id
  }

  lemma {:induction false} UntouchedStays(rows: Rows, ops: seq<TM.Op>, name: string, id: int64)
    requires !Touched(ops, name, id)
    ensures TM.Find(TM.Overlay(rows, ops, name), id) == TM.Find(rows, id)
    decreases |ops|
  {
    if ops != [] {
      var init, last := ops[..|ops| - 1], ops[|ops| - 1];
      TM.OverlaySnoc(rows, ops, name);
      assert forall i :: 0 <= i < |init| ==> init[i] == ops[i];
      UntouchedStays(rows, init, name, id);
      assert !(last.name == name && last.op.id == id);
    }
  }

  // --- the condition ----------------------------------------------------------------------------------------

  /** What the transaction has written refers to rows that are there at the time of COMMIT. */
  ghost predicate OwnRefsOk(e: EngineState, t: TM.TxnState) {
    var acc := Buffered(e, t);
    forall name, id ::
      name in e.ids && ColsAt(acc, name).Some? && Touched(t.ops, name, id) && id in RowsAt(acc, name) ==>
      FkRowOk(acc, ColsAt(acc, name).value, RowsAt(acc, name)[id])
  }

  /** A committed row the transaction leaves alone refers to a row that it removes. */
  ghost predicate Orphans(e: EngineState, t: TM.TxnState, child: string, id: int64) {
    var base := Direct(e);
    && child in e.ids && ColsAt(base, child).Some? && id in RowsAt(base, child) && !Touched(t.ops, child, id)
    && exists ci :: OrphansAt(Buffered(e, t), ColsAt(base, child).value, RowsAt(base, child)[id], ci)
  }

  predicate OrphansAt(acc: Acc, cols: seq<Column>, row: Row, ci: nat) {
    && ci < |cols| && ci < |row| && cols[ci].fkTable != "" && row[ci].VInt?
    && row[ci].i !in RowsAt(acc, cols[ci].fkTable)
  }

  lemma UntouchedRefs(e: EngineState, t: TM.TxnState, name: string, id: int64)
    requires FkOk(Direct(e)) && name in e.ids && ColsAt(Direct(e), name).Some? && !Touched(t.ops, name, id)
    requires id in RowsAt(Buffered(e, t), name)
    ensures id in RowsAt(Direct(e), name) && RowsAt(Buffered(e, t), name)[id] == RowsAt(Direct(e), name)[id]
    ensures FkRowOk(Buffered(e, t), ColsAt(Direct(e), name).value, RowsAt(Direct(e), name)[id]) <==>
            !Orphans(e, t, name, id)
  {
    var base, acc := Direct(e), Buffered(e, t);
    UntouchedStays(RowsAt(base, name), t.ops, name, id);
    var cols, row := ColsAt(base, name).value, RowsAt(base, name)[id];
    assert FkRowOk(base, cols, row);
    if !FkRowOk(acc, cols, row) {
      var ci: nat :| ci < |cols| && ci < |row| && cols[ci].fkTable != "" && !row[ci].VNull? &&
                     !(row[ci].VInt? && row[ci].i in RowsAt(acc, cols[ci].fkTable));
      assert OrphansAt(acc, cols, row, ci);
    }
  }

  lemma OverlayFkIff(e: EngineState, t: TM.TxnState)
    requires FkOk(Direct(e))
    ensures FkOk(Buffered(e, t)) <==> OwnRefsOk(e, t) && forall child, id :: !Orphans(e, t, child, id)
  {
    var acc := Buffered(e, t);
    if FkOk(acc) {
      forall child, id ensures !Orphans(e, t, child, id) {
        if Orphans(e, t, child, id) {
          UntouchedStays(RowsAt(Direct(e), child), t.ops, child, id);
          UntouchedRefs(e, t, child, id);
        }
      }
    }
    if OwnRefsOk(e, t) && forall child, id :: !Orphans(e, t, child, id) {
      forall name, id | name in acc.e.ids && ColsAt(acc, name).Some? && id in RowsAt(acc, name)
        ensures FkRowOk(acc, ColsAt(acc, name).value, RowsAt(acc, name)[id])
      {
        if !Touched(t.ops, name, id) { UntouchedRefs(e, t, name, id); }
      }
    }
  }

  /** Whatever others have committed since BEGIN: a successful COMMIT over tables whose foreign keys are in
      order keeps them so if and only if the rows it brings refer to rows that are still there, and no
      row it leaves alone refers to one that it removes. */
  lemma CommitKeepsFkIff(e: EngineState, t: TM.TxnState)
    requires Healthy(e) && TM.Named(e) && TM.CommitOk(e, t) && FkOk(Direct(e))
    ensures FkOk(Direct(TM.Committed(e, t))) <==> OwnRefsOk(e, t) && forall child, id :: !Orphans(e, t, child, id)
  {
    var a, b := Buffered(e, t), Direct(TM.Committed(e, t));
    TM.CommitKeepsCatalog(e, t);
    forall n ensures ColsAt(b, n) == ColsAt(a, n) && RowsAt(b, n) == RowsAt(a, n) { DS.CommittedView(e, t, n); }
    assert b.e.ids == a.e.ids;
    if FkOk(a) { SameViewKeepsFk(a, b); }
    if FkOk(b) { SameViewKeepsFk(b, a); }
    OverlayFkIff(e, t);
  }

  // --- it happens -------------------------------------------------------------------------------------------------

  const PARENT := [Column("id", TInt, false, true, false, false, "", "")]
  const CHILD := [Column("id", TInt, false, true, false, false, "", ""),
    Column("p", TInt, false, false, false, false, "p", "id")]

  /** Table p with the given rows, table c(id, p REFERENCES p) without any. */
  function Family(parents: Rows): EngineState {
    EngineState(map["p" := 1, "c" := 2],
                map[1 := TableState(PARENT, parents, 2, map[]), 2 := TableState(CHILD, map[], 1, map[])], 3)
  }

  const ADULT: Rows := map[1 := [VInt(1)]]
  const INFANT: Row := [VInt(1), VInt(1)]

  lemma FamilyIsFine(parents: Rows)
    ensures Healthy(Family(parents)) && TM.Named(Family(parents)) && FkOk(Direct(Family(parents)))
  {
    var e := Family(parents);
    assert UniqueCols(PARENT) == {} && UniqueCols(CHILD) == {};
    assert e.ids["p"] == 1 && e.ids["c"] == 2;
    assert ColsAt(Direct(e), "p") == Some(PARENT) && RowsAt(Direct(e), "c") == map[];
  }

  /** The transaction after INSERT INTO c VALUES (1, 1). */
  function WithInfant(id: uint64): TM.TxnState {
    TM.TxnState(id, [TM.Op("c", PutRow(1, INFANT))], map["c" := {1}], false)
  }

  lemma InfantIsAccepted(id: uint64)
    ensures
      var r := InsertPrepared(Buffered(Family(ADULT), TM.TxnState(id, [], map[], false)), "c", CHILD,
        Prepared(INFANT, ByValue(1)));
      r.res == Ok(1) && r.acc == Buffered(Family(ADULT), WithInfant(id))
  {
    var acc := Buffered(Family(ADULT), TM.TxnState(id, [], map[], false));
    assert RowsAt(acc, "p") == ADULT && RowsAt(acc, "c") == map[];
    assert UniqueCols(CHILD) == {};
    assert FkRowOk(acc, CHILD, INFANT);
    assert [] + [TM.Op("c", PutRow(1, INFANT))] == [TM.Op("c", PutRow(1, INFANT))];
    assert {} + {1} == {1};
  }

  lemma AdultIsDeleted()
    ensures
      var r := DeleteOne(Direct(Family(ADULT)), "p", 1);
      r.res == Ok(1) && r.acc == Direct(Family(map[]))
  {
    var acc := Direct(Family(ADULT));
    forall child, ci, id ensures !RefersAt(acc, child, ci, id, "p", 1) {
      if child in acc.e.ids { assert child == "p" || child == "c"; assert ColsAt(acc, "p") == Some(PARENT); }
    }
    assert ADULT - {1} == map[];
    assert Family(ADULT).tabs[1 := TableState(PARENT, map[], 2, map[])] == Family(map[]).tabs;
  }

  lemma InfantCommits(id: uint64)
    ensures
      var e, t := Family(map[]), WithInfant(id);
      TM.CommitOk(e, t) && RowsAt(Buffered(e, t), "c") == map[1 := INFANT] && RowsAt(Buffered(e, t), "p") == map[]
  {
    var e, t := Family(map[]), WithInfant(id);
    assert UniqueCols(CHILD) == {};
    assert t.ops[..0] == [];
    TM.OverlaySnoc(map[], t.ops, "c");
    TM.OverlaySnoc(map[], t.ops, "p");
    TM.CommitOkByOp(e, t);
  }

  /** One connection inserts a child in a transaction, another deletes the parent, and the first commits:
      every step succeeds, and the child refers to nothing. */
  lemma ParentVanishesBeforeCommit(id: uint64)
    ensures
      var began := Buffered(Family(ADULT), TM.TxnState(id, [], map[], false));
      var inserted := InsertPrepared(began, "c", CHILD, Prepared(INFANT, ByValue(1)));
      var deleted := DeleteOne(Direct(inserted.acc.e), "p", 1);
      && inserted.res == Ok(1) && inserted.acc.Buffered? && deleted.res == Ok(1)
      && FkOk(deleted.acc) && TM.CommitOk(deleted.acc.e, inserted.acc.t)
      && !FkOk(Direct(TM.Committed(deleted.acc.e, inserted.acc.t)))
  {
    InfantIsAccepted(id);
    AdultIsDeleted();
    InfantCommits(id);
    FamilyIsFine(map[]);
    var e, t := Family(map[]), WithInfant(id);
    assert Touched(t.ops, "c", 1) by { assert t.ops[0].name == "c" && t.ops[0].op.id == 1; }
    assert ColsAt(Buffered(e, t), "c") == Some(CHILD);
    assert !FkRowOk(Buffered(e, t), CHILD, INFANT) by { assert CHILD[1].fkTable == "p" && INFANT[1] == VInt(1); }
    CommitKeepsFkIff(e, t);
  }
}
