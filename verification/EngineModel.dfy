/** The whole engine as a value: catalog, tables, replay of committed operations, and recovery of a
    history without DROP from any snapshot taken along the way. */
module EngineModel {
  import opened Values
  import opened Schema
  import opened Tables
  import opened TableHistory
  import opened WalCodec

  datatype EngineState = EngineState(ids: map<string, nat>, tabs: map<nat, TableState>, nextTable: nat)

  const EmptyEngine := EngineState(map[], map[], 0)

  // --- applyRecord ---------------------------------------------------------------------------

  function AddTable(e: EngineState, name: string, cols: seq<Column>): EngineState {
    EngineState(e.ids[name := e.nextTable], e.tabs[e.nextTable := EmptyTable(cols)], e.nextTable + 1)
  }

  predicate IsRow(r: Record) { r.Put? || r.Delete? }

  function RowOpOf(r: Record): RowOp
    requires IsRow(r)
  {
    if r.Put? then PutRow(r.id, r.row) else DelRow(r.id)
  }

  /** The log record of a row operation. */
  function RowRecord(tx: uint64, table: uint32, op: RowOp): Record {
    match op
    case PutRow(id, row) => Record.Put(tx, table, id, row)
    case DelRow(id) => Record.Delete(tx, table, id)
  }

  function RemoveTable(e: EngineState, name: string): EngineState
    requires name in e.ids
  {
    e.(ids := e.ids - {name}, tabs := e.tabs - {e.ids[name]})
  }

  /** `applyRecord`; None is the error for an unknown table id. */
  function ApplyRecord(e: EngineState, r: Record): Option<EngineState> {
    match r
    case Begin(_) => Some(e)
    case Commit(_) => Some(e)
    case Create(_, ddl) => Some(if ddl.name in e.ids then e else AddTable(e, ddl.name, ddl.cols))
    case Drop(_, ddl) => Some(if ddl.name in e.ids then RemoveTable(e, ddl.name) else e)
    case _ =>
      if r.table in e.tabs
      then Some(e.(tabs := e.tabs[r.table := ApplyOp(e.tabs[r.table], RowOpOf(r))]))
      else None
  }

  function ApplyAll(e: EngineState, ops: seq<Record>): Option<EngineState>
    decreases |ops|
  {
    if ops == [] then Some(e)
    else match ApplyRecord(e, ops[0])
      case None => None
      case Some(e') => ApplyAll(e', ops[1..])
  }

  predicate WellFormed(e: EngineState) {
    && (forall t :: t in e.tabs ==> t < e.nextTable)
    && (forall n :: n in e.ids ==> e.ids[n] in e.tabs)
  }

  ghost predicate Healthy(e: EngineState) {
    WellFormed(e) && forall t :: t in e.tabs ==> ValidIndex(e.tabs[t])
  }

  predicate NoDrop(ops: seq<Record>) { forall r :: r in ops ==> !r.Drop? }

  lemma {:induction false} ApplyAllConcat(e: EngineState, a: seq<Record>, b: seq<Record>)
    ensures ApplyAll(e, a).Some? ==> ApplyAll(e, a + b) == ApplyAll(ApplyAll(e, a).value, b)
    ensures ApplyAll(e, a).None? ==> ApplyAll(e, a + b).None?
    decreases |a|
  {
    if a == [] {
      assert a + b == b;
    } else {
      assert (a + b)[1..] == a[1..] + b;
      match ApplyRecord(e, a[0])
      case None =>
      case Some(e') => ApplyAllConcat(e', a[1..], b);
    }
  }

  // --- the catalog part ------------------------------------------------------------------------

  datatype Catalog = Catalog(ids: map<string, nat>, defs: map<nat, seq<Column>>, next: nat)

  function CatalogOf(e: EngineState): Catalog {
    Catalog(e.ids, map t | t in e.tabs :: e.tabs[t].cols, e.nextTable)
  }

  function CatStep(c: Catalog, r: Record): Catalog {
    if r.Create? && r.ddl.name !in c.ids
    then Catalog(c.ids[r.ddl.name := c.next], c.defs[c.next := r.ddl.cols], c.next + 1)
    else c
  }

  function CatRun(c: Catalog, ops: seq<Record>): Catalog
    decreases |ops|
  {
    if ops == [] then c else CatRun(CatStep(c, ops[0]), ops[1..])
  }

  /** Every row operation meets an existing table. */
  predicate CatOk(c: Catalog, ops: seq<Record>)
    decreases |ops|
  {
    ops == [] || ((IsRow(ops[0]) ==> ops[0].table in c.defs) && CatOk(CatStep(c, ops[0]), ops[1..]))
  }

  lemma RecordOnCatalog(e: EngineState, r: Record)
    requires WellFormed(e) && !r.Drop? && ApplyRecord(e, r).Some?
    ensures WellFormed(ApplyRecord(e, r).value) && CatalogOf(ApplyRecord(e, r).value) == CatStep(CatalogOf(e), r)
  {
    assert CatalogOf(ApplyRecord(e, r).value).defs == CatStep(CatalogOf(e), r).defs;
  }

  lemma {:induction false} ApplyAllCatalog(e: EngineState, ops: seq<Record>)
    requires WellFormed(e) && NoDrop(ops)
    ensures ApplyAll(e, ops).Some? <==> CatOk(CatalogOf(e), ops)
    ensures ApplyAll(e, ops).Some? ==>
      WellFormed(ApplyAll(e, ops).value) && CatalogOf(ApplyAll(e, ops).value) == CatRun(CatalogOf(e), ops)
    decreases |ops|
  {
    if ops != [] {
      var r := ops[0];
      assert r in ops;
      match ApplyRecord(e, r)
      case None =>
      case Some(e') =>
        RecordOnCatalog(e, r);
        ApplyAllCatalog(e', ops[1..]);
    }
  }

  predicate Grows(a: Catalog, b: Catalog) { a.ids.Keys <= b.ids.Keys && a.defs.Keys <= b.defs.Keys }

  lemma {:induction false} CatGrows(c: Catalog, ops: seq<Record>)
    ensures Grows(c, CatRun(c, ops))
    decreases |ops|
  {
    if ops != [] { CatGrows(CatStep(c, ops[0]), ops[1..]); }
  }

  /** Everything `ops` mentions already exists in c. */
  predicate Covered(c: Catalog, ops: seq<Record>) {
    forall r :: r in ops ==> (r.Create? ==> r.ddl.name in c.ids) && (IsRow(r) ==> r.table in c.defs)
  }

  lemma {:induction false} CoveredAfter(c: Catalog, ops: seq<Record>)
    requires CatOk(c, ops)
    ensures Covered(CatRun(c, ops), ops)
    decreases |ops|
  {
    if ops != [] {
      CoveredAfter(CatStep(c, ops[0]), ops[1..]);
      CatGrows(CatStep(c, ops[0]), ops[1..]);
      assert ops == [ops[0]] + ops[1..];
    }
  }

  lemma {:induction false} CoveredIsNoOp(c: Catalog, ops: seq<Record>)
    requires Covered(c, ops)
    ensures CatOk(c, ops) && CatRun(c, ops) == c
    decreases |ops|
  {
    if ops != [] {
      assert ops[0] in ops && forall r :: r in ops[1..] ==> r in ops;
      CoveredIsNoOp(c, ops[1..]);
    }
  }

  lemma {:induction false} CatConcat(c: Catalog, a: seq<Record>, b: seq<Record>)
    ensures CatRun(c, a + b) == CatRun(CatRun(c, a), b)
    ensures CatOk(c, a + b) <==> CatOk(c, a) && CatOk(CatRun(c, a), b)
    decreases |a|
  {
    if a == [] {
      assert a + b == b;
    } else {
      assert (a + b)[1..] == a[1..] + b;
      CatConcat(CatStep(c, a[0]), a[1..], b);
    }
  }

  /** Replaying all of a log over the catalog reached after a part of it meets no unknown table and
      ends in the same catalog, table ids included. */
  lemma CatalogReplay(c: Catalog, before: seq<Record>, after: seq<Record>)
    requires CatOk(c, before + after)
    ensures CatOk(CatRun(c, before), before + after)
    ensures CatRun(CatRun(c, before), before + after) == CatRun(c, before + after)
  {
    CatConcat(c, before, after);
    CoveredAfter(c, before);
    CoveredIsNoOp(CatRun(c, before), before);
    CatConcat(CatRun(c, before), before, after);
  }

  // --- one table at a time --------------------------------------------------------------------

  function Proj(ops: seq<Record>, t: nat): seq<RowOp>
    decreases |ops|
  {
    if ops == [] then []
    else if IsRow(ops[0]) && ops[0].table == t then [RowOpOf(ops[0])] + Proj(ops[1..], t)
    else Proj(ops[1..], t)
  }

  lemma {:induction false} ProjConcat(a: seq<Record>, b: seq<Record>, t: nat)
    ensures Proj(a + b, t) == Proj(a, t) + Proj(b, t)
    decreases |a|
  {
    if a == [] {
      assert a + b == b;
    } else {
      assert (a + b)[1..] == a[1..] + b;
      ProjConcat(a[1..], b, t);
    }
  }

  /** Table t of e, or the empty table it will start from. */
  function TableOr(e: EngineState, t: nat, cols: seq<Column>): TableState {
    if t in e.tabs then e.tabs[t] else EmptyTable(cols)
  }

  /** Applying a log acts on each table like its own part of the log. */
  lemma {:induction false} ApplyAllTable(e: EngineState, ops: seq<Record>, t: nat)
    requires WellFormed(e) && NoDrop(ops) && ApplyAll(e, ops).Some?
    requires t in ApplyAll(e, ops).value.tabs
    ensures
      var after := ApplyAll(e, ops).value.tabs[t];
      after == RunOps(TableOr(e, t, after.cols), Proj(ops, t))
    decreases |ops|
  {
    if ops != [] {
      var r := ops[0];
      assert r in ops;
      var e' := ApplyRecord(e, r).value;
      var after := ApplyAll(e, ops).value.tabs[t];
      ApplyAllTable(e', ops[1..], t);
      RunShape(TableOr(e', t, after.cols), Proj(ops[1..], t));
      if IsRow(r) && r.table == t {
        assert Proj(ops, t)[1..] == Proj(ops[1..], t);
        RunShape(e'.tabs[t], Proj(ops[1..], t));
      }
    }
  }

  lemma {:induction false} ProjOfMissing(e: EngineState, ops: seq<Record>, t: nat)
    requires WellFormed(e) && NoDrop(ops) && ApplyAll(e, ops).Some?
    requires t !in ApplyAll(e, ops).value.tabs
    ensures t !in e.tabs && Proj(ops, t) == []
    decreases |ops|
  {
    if ops != [] {
      assert ops[0] in ops;
      ProjOfMissing(ApplyRecord(e, ops[0]).value, ops[1..], t);
    }
  }

  // --- histories of committed transactions --------------------------------------------------------

  type Txns = seq<seq<Record>>

  function Flatten(hist: Txns): seq<Record> {
    if hist == [] then [] else hist[0] + Flatten(hist[1..])
  }

  /** A committed CREATE TABLE. */
  predicate IsCreateTxn(e: EngineState, txn: seq<Record>) {
    |txn| == 1 && txn[0].Create? && txn[0].ddl.name !in e.ids
  }

  /** Committed row operations that passed validation in every table. */
  predicate IsRowTxn(e: EngineState, txn: seq<Record>) {
    && (forall r :: r in txn ==> IsRow(r) && r.table in e.tabs)
    && (forall t :: t in e.tabs ==>
         PutsOk(e.tabs[t].cols, RunRows(e.tabs[t].rows, Proj(txn, t)), Proj(txn, t)))
  }

  predicate ValidTxn(e: EngineState, txn: seq<Record>) { IsCreateTxn(e, txn) || IsRowTxn(e, txn) }

  function Exec(e: EngineState, txn: seq<Record>): EngineState {
    match ApplyAll(e, txn)
    case Some(e') => e'
    case None => e
  }

  function ExecAll(e: EngineState, hist: Txns): EngineState
    decreases |hist|
  {
    if hist == [] then e else ExecAll(Exec(e, hist[0]), hist[1..])
  }

  predicate ValidRun(e: EngineState, hist: Txns)
    decreases |hist|
  {
    hist == [] || (ValidTxn(e, hist[0]) && ValidRun(Exec(e, hist[0]), hist[1..]))
  }

  lemma {:induction false} RowTxnOk(c: Catalog, txn: seq<Record>)
    requires forall r :: r in txn ==> IsRow(r) && r.table in c.defs
    ensures CatOk(c, txn) && CatRun(c, txn) == c && NoDrop(txn)
    decreases |txn|
  {
    if txn != [] {
      assert txn[0] in txn && forall r :: r in txn[1..] ==> r in txn;
      RowTxnOk(c, txn[1..]);
    }
  }

  lemma ValidTxnSucceeds(e: EngineState, txn: seq<Record>)
    requires WellFormed(e) && ValidTxn(e, txn)
    ensures NoDrop(txn) && ApplyAll(e, txn) == Some(Exec(e, txn)) && WellFormed(Exec(e, txn))
  {
    if IsCreateTxn(e, txn) {
      assert txn == [txn[0]] && txn[1..] == [];
      ApplyAllCatalog(e, txn);
    } else {
      RowTxnOk(CatalogOf(e), txn);
      ApplyAllCatalog(e, txn);
    }
  }

  lemma {:induction false} ValidRunSucceeds(e: EngineState, hist: Txns)
    requires WellFormed(e) && ValidRun(e, hist)
    ensures NoDrop(Flatten(hist))
    ensures ApplyAll(e, Flatten(hist)) == Some(ExecAll(e, hist)) && WellFormed(ExecAll(e, hist))
    decreases |hist|
  {
    if hist != [] {
      ValidTxnSucceeds(e, hist[0]);
      ValidRunSucceeds(Exec(e, hist[0]), hist[1..]);
      ApplyAllConcat(e, hist[0], Flatten(hist[1..]));
    }
  }

  lemma {:induction false} FlattenSplit(a: Txns, b: Txns)
    ensures Flatten(a + b) == Flatten(a) + Flatten(b)
    decreases |a|
  {
    if a == [] {
      assert a + b == b && Flatten(a) + Flatten(b) == Flatten(b);
    } else {
      assert (a + b)[1..] == a[1..] + b && (a + b)[0] == a[0];
      FlattenSplit(a[1..], b);
      assert a[0] + (Flatten(a[1..]) + Flatten(b)) == a[0] + Flatten(a[1..]) + Flatten(b);
    }
  }

  lemma {:induction false} RunSplit(e: EngineState, a: Txns, b: Txns)
    ensures ValidRun(e, a + b) <==> ValidRun(e, a) && ValidRun(ExecAll(e, a), b)
    ensures ExecAll(e, a + b) == ExecAll(ExecAll(e, a), b)
    decreases |a|
  {
    if a == [] {
      assert a + b == b;
    } else {
      assert (a + b)[1..] == a[1..] + b && (a + b)[0] == a[0];
      RunSplit(Exec(e, a[0]), a[1..], b);
    }
  }

  lemma ValidRunSplit(e: EngineState, a: Txns, b: Txns)
    ensures ValidRun(e, a + b) <==> ValidRun(e, a) && ValidRun(ExecAll(e, a), b)
    ensures ExecAll(e, a + b) == ExecAll(ExecAll(e, a), b)
    ensures Flatten(a + b) == Flatten(a) + Flatten(b)
  {
    FlattenSplit(a, b);
    RunSplit(e, a, b);
  }

  // --- what a history means for one table ---------------------------------------------------------

  function ProjHistory(hist: Txns, t: nat): (h: History)
    ensures |h| == |hist|
  {
    if hist == [] then [] else [Proj(hist[0], t)] + ProjHistory(hist[1..], t)
  }

  lemma {:induction false} ProjFlatten(hist: Txns, t: nat)
    ensures Proj(Flatten(hist), t) == Concat(ProjHistory(hist, t))
    decreases |hist|
  {
    if hist != [] {
      ProjConcat(hist[0], Flatten(hist[1..]), t);
      ProjFlatten(hist[1..], t);
      assert ProjHistory(hist, t)[1..] == ProjHistory(hist[1..], t);
    }
  }

  lemma {:induction false} ProjHistorySplit(a: Txns, b: Txns, t: nat)
    ensures ProjHistory(a + b, t) == ProjHistory(a, t) + ProjHistory(b, t)
    decreases |a|
  {
    if a == [] {
      assert a + b == b;
    } else {
      assert (a + b)[1..] == a[1..] + b;
      ProjHistorySplit(a[1..], b, t);
    }
  }

  lemma {:induction false} ProjNothing(txn: seq<Record>, t: nat)
    requires forall r :: r in txn ==> !(IsRow(r) && r.table == t)
    ensures Proj(txn, t) == []
    decreases |txn|
  {
    if txn != [] {
      assert txn[0] in txn && forall r :: r in txn[1..] ==> r in txn;
      ProjNothing(txn[1..], t);
    }
  }

  /** One transaction seen from table t: validated, and it moves the table on as its part says. */
  lemma TxnOnTable(e: EngineState, txn: seq<Record>, t: nat, cols: seq<Column>)
    requires WellFormed(e) && ValidTxn(e, txn)
    requires t in Exec(e, txn).tabs ==> Exec(e, txn).tabs[t].cols == cols
    ensures t in e.tabs ==> e.tabs[t].cols == cols
    ensures PutsOk(cols, RunRows(TableOr(e, t, cols).rows, Proj(txn, t)), Proj(txn, t))
    ensures TableOr(Exec(e, txn), t, cols) == RunOps(TableOr(e, t, cols), Proj(txn, t))
  {
    ValidTxnSucceeds(e, txn);
    if t in Exec(e, txn).tabs {
      ApplyAllTable(e, txn, t);
      RunShape(TableOr(e, t, cols), Proj(txn, t));
    } else {
      ProjOfMissing(e, txn, t);
    }
    if t !in e.tabs || IsCreateTxn(e, txn) { ProjNothing(txn, t); }
  }

  /** A valid run of the engine is a valid history of each of its tables. */
  lemma {:induction false} RunOnTable(e: EngineState, hist: Txns, t: nat, cols: seq<Column>)
    requires WellFormed(e) && ValidRun(e, hist)
    requires t in ExecAll(e, hist).tabs && ExecAll(e, hist).tabs[t].cols == cols
    ensures t in e.tabs ==> e.tabs[t].cols == cols
    ensures ValidHistory(cols, TableOr(e, t, cols).rows, ProjHistory(hist, t))
    ensures ExecAll(e, hist).tabs[t] == RunOps(TableOr(e, t, cols), Concat(ProjHistory(hist, t)))
    decreases |hist|
  {
    if hist != [] {
      var e' := Exec(e, hist[0]);
      ValidTxnSucceeds(e, hist[0]);
      RunOnTable(e', hist[1..], t, cols);
      TxnOnTable(e, hist[0], t, cols);
      var start, txn := TableOr(e, t, cols), Proj(hist[0], t);
      RunShape(start, txn);
      assert ProjHistory(hist, t)[1..] == ProjHistory(hist[1..], t);
      RunOpsConcat(start, txn, Concat(ProjHistory(hist[1..], t)));
    }
  }

  // --- recovery --------------------------------------------------------------------------------------

  /** Same catalog, same rows, same UNIQUE index; only id counters may differ. */
  predicate SameEngine(a: EngineState, b: EngineState) {
    && CatalogOf(a) == CatalogOf(b)
    && a.tabs.Keys == b.tabs.Keys
    && forall t :: t in a.tabs ==> t in b.tabs && SameTable(a.tabs[t], b.tabs[t])
  }

  lemma RecoveryOfTable(e: EngineState, before: Txns, after: Txns, t: nat)
    requires Healthy(e) && ValidRun(e, before + after)
    requires t in ExecAll(e, before + after).tabs
    ensures
      var live := ExecAll(e, before + after).tabs[t];
      var recovered := RunOps(TableOr(ExecAll(e, before), t, live.cols), Proj(Flatten(before + after), t));
      SameTable(recovered, live) && ValidIndex(recovered)
  {
    var snapshot, live := ExecAll(e, before), ExecAll(e, before + after);
    var cols := live.tabs[t].cols;
    var start := TableOr(e, t, cols);
    RunOnTable(e, before + after, t, cols);
    EmptyTableIsValid(cols);
    ValidRunSplit(e, before, after);
    ValidRunSucceeds(e, before);
    RunOnTable(snapshot, after, t, cols);
    SnapshotTable(e, before, t, cols);
    ProjFlatten(before + after, t);
    ProjHistorySplit(before, after, t);
    RunShape(start, Concat(ProjHistory(before + after, t)));
    TableRecovery(start, ProjHistory(before, t), ProjHistory(after, t));
  }

  lemma SnapshotTable(e: EngineState, before: Txns, t: nat, cols: seq<Column>)
    requires WellFormed(e) && ValidRun(e, before)
    requires t in ExecAll(e, before).tabs ==> ExecAll(e, before).tabs[t].cols == cols
    ensures TableOr(ExecAll(e, before), t, cols) == RunOps(TableOr(e, t, cols), Concat(ProjHistory(before, t)))
  {
    ValidRunSucceeds(e, before);
    if t in ExecAll(e, before).tabs {
      RunOnTable(e, before, t, cols);
    } else {
      ProjOfMissing(e, Flatten(before), t);
      ProjFlatten(before, t);
    }
  }

  /** Recovery from a snapshot taken after `before` with the whole log still in place: no replay
      error, and the catalog, the rows and the UNIQUE indexes of the live engine. With `after`
      empty this is the replay of a log over its own final state. */
  lemma RecoveryFromSnapshot(e: EngineState, before: Txns, after: Txns)
    requires Healthy(e) && ValidRun(e, before + after)
    ensures
      var recovered := ApplyAll(ExecAll(e, before), Flatten(before + after));
      recovered.Some? && Healthy(recovered.value) && SameEngine(recovered.value, ExecAll(e, before + after))
  {
    var snapshot, live, all := ExecAll(e, before), ExecAll(e, before + after), Flatten(before + after);
    ValidRunSucceeds(e, before + after);
    ValidRunSplit(e, before, after);
    ValidRunSucceeds(e, before);
    ApplyAllCatalog(e, all);
    ApplyAllCatalog(e, Flatten(before));
    CatalogReplay(CatalogOf(e), Flatten(before), Flatten(after));
    ApplyAllCatalog(snapshot, all);
    var recovered := ApplyAll(snapshot, all).value;
    SameCatalog(recovered, live);
    forall t | t in recovered.tabs
      ensures SameTable(recovered.tabs[t], live.tabs[t]) && ValidIndex(recovered.tabs[t])
    {
      ApplyAllTable(snapshot, all, t);
      RecoveryOfTable(e, before, after, t);
    }
  }

  lemma SameCatalog(a: EngineState, b: EngineState)
    requires CatalogOf(a) == CatalogOf(b)
    ensures a.tabs.Keys == b.tabs.Keys && forall t :: t in a.tabs ==> a.tabs[t].cols == b.tabs[t].cols
  {
    assert a.tabs.Keys == CatalogOf(a).defs.Keys && b.tabs.Keys == CatalogOf(b).defs.Keys;
    assert forall t :: t in a.tabs ==> CatalogOf(a).defs[t] == a.tabs[t].cols;
    assert forall t :: t in b.tabs ==> CatalogOf(b).defs[t] == b.tabs[t].cols;
  }

  /** Live memory itself stays healthy. */
  lemma LiveIsHealthy(e: EngineState, hist: Txns)
    requires Healthy(e) && ValidRun(e, hist)
    ensures Healthy(ExecAll(e, hist))
  {
    ValidRunSucceeds(e, hist);
    forall t | t in ExecAll(e, hist).tabs ensures ValidIndex(ExecAll(e, hist).tabs[t]) {
      var cols := ExecAll(e, hist).tabs[t].cols;
      RunOnTable(e, hist, t, cols);
      EmptyTableIsValid(cols);
      LiveIndexIsExact(TableOr(e, t, cols), ProjHistory(hist, t));
    }
  }

  /** Every id counter is positive and above the stored ids of its table. */
  predicate CountersAhead(e: EngineState) { forall t :: t in e.tabs ==> IdsBelow(e.tabs[t]) && e.tabs[t].nextID > 0 }

  lemma RecordKeepsCounters(e: EngineState, r: Record)
    requires CountersAhead(e) && ApplyRecord(e, r).Some? && (r.Put? ==> r.id != MAX_INT64)
    ensures CountersAhead(ApplyRecord(e, r).value)
  {
    var after := ApplyRecord(e, r).value;
    forall t | t in after.tabs ensures IdsBelow(after.tabs[t]) && after.tabs[t].nextID > 0 {
      if t in e.tabs { assert IdsBelow(e.tabs[t]); }
    }
  }

  /** Replay, over a snapshot or over nothing, leaves every counter above the recovered ids, so
      automatic ids do not collide after recovery either. */
  lemma {:induction false} ReplayKeepsCounters(e: EngineState, ops: seq<Record>)
    requires CountersAhead(e) && ApplyAll(e, ops).Some?
    requires forall i :: 0 <= i < |ops| && ops[i].Put? ==> ops[i].id != MAX_INT64
    ensures CountersAhead(ApplyAll(e, ops).value)
    decreases |ops|
  {
    if ops != [] {
      RecordKeepsCounters(e, ops[0]);
      ReplayKeepsCounters(ApplyRecord(e, ops[0]).value, ops[1..]);
    }
  }
}
