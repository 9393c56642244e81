/** Explicit transactions as values: a buffer of operations over the committed tables. */
module TxnModel {
  import opened Values
  import opened Schema
  import opened Tables
  import opened TableHistory
  import opened WalCodec
  import opened EngineModel

  datatype Op = Op(name: string, op: RowOp)

  type Inserts = map<string, set<int64>>

  datatype TxnState = TxnState(id: uint64, ops: seq<Op>, inserts: Inserts, done: bool)

  // --- the overlay ---------------------------------------------------------------------------------

  function OpsOn(ops: seq<Op>, name: string): seq<RowOp>
    decreases |ops|
  {
    if ops == [] then []
    else if ops[|ops| - 1].name == name then OpsOn(ops[..|ops| - 1], name) + [ops[|ops| - 1].op]
    else OpsOn(ops[..|ops| - 1], name)
  }

  function CommittedRows(e: EngineState, name: string): Rows {
    if name in e.ids && e.ids[name] in e.tabs then e.tabs[e.ids[name]].rows else map[]
  }

  /** What the transaction sees of a table: committed rows with the buffer applied in order. */
  function Overlay(rows: Rows, ops: seq<Op>, name: string): Rows { RunRows(rows, OpsOn(ops, name)) }

  function Find(rows: Rows, id: int64): Option<Row> { if id in rows then Some(rows[id]) else None }

  /** Row id holds value v in column ci. */
  predicate Has(rows: Rows, id: int64, ci: nat, v: Value) {
    !v.VNull? && id in rows && ci < |rows[id]| && rows[id][ci] == v
  }

  lemma OverlaySnoc(rows: Rows, ops: seq<Op>, name: string)
    requires ops != []
    ensures
      var last, before := ops[|ops| - 1], Overlay(rows, ops[..|ops| - 1], name);
      Overlay(rows, ops, name) == if last.name == name then StepRows(before, last.op) else before
  {
    var last, rest := ops[|ops| - 1], OpsOn(ops[..|ops| - 1], name);
    if last.name == name {
      RunRowsConcat(rows, rest, [last.op]);
      assert [last.op][1..] == [];
    }
  }

  // --- commit ----------------------------------------------------------------------------------------

  /** The buffered operations as log records; every table must still exist. */
  predicate TablesExist(e: EngineState, ops: seq<Op>) {
    forall i :: 0 <= i < |ops| ==> ops[i].name in e.ids && e.ids[ops[i].name] < 0x1_0000_0000
  }

  function RecordsOf(e: EngineState, id: uint64, ops: seq<Op>): (rs: seq<Record>)
    requires TablesExist(e, ops)
    ensures |rs| == |ops|
    decreases |ops|
  {
    if ops == [] then []
    else
      var last := ops[|ops| - 1];
      RecordsOf(e, id, ops[..|ops| - 1]) + [RowRecord(id, e.ids[last.name], last.op)]
  }

  /** Validation of one table: every buffered put against the overlay of the freshest rows. */
  predicate TableOk(e: EngineState, ops: seq<Op>, name: string)
    requires name in e.ids && e.ids[name] in e.tabs
  {
    var t := e.tabs[e.ids[name]];
    PutsOk(t.cols, Overlay(t.rows, ops, name), OpsOn(ops, name))
  }

  /** No row this transaction inserted has been committed by somebody else meanwhile. */
  predicate InsertsFree(e: EngineState, inserts: Inserts) {
    forall name, id :: name in inserts && id in inserts[name] ==> id !in CommittedRows(e, name)
  }

  predicate CommitOk(e: EngineState, t: TxnState) {
    && TablesExist(e, t.ops)
    && (forall i :: 0 <= i < |t.ops| ==>
         e.ids[t.ops[i].name] in e.tabs && TableOk(e, t.ops, t.ops[i].name))
    && InsertsFree(e, t.inserts)
  }

  predicate IdsInjective(e: EngineState) {
    forall a, b :: a in e.ids && b in e.ids && e.ids[a] == e.ids[b] ==> a == b
  }

  lemma {:induction false} RecordsProj(e: EngineState, id: uint64, ops: seq<Op>, name: string)
    requires TablesExist(e, ops) && IdsInjective(e) && name in e.ids
    ensures Proj(RecordsOf(e, id, ops), e.ids[name]) == OpsOn(ops, name)
    decreases |ops|
  {
    if ops != [] {
      var init := ops[..|ops| - 1];
      RecordsProj(e, id, init, name);
      var rs := RecordsOf(e, id, ops);
      var last := rs[|rs| - 1];
      assert rs == RecordsOf(e, id, init) + [last];
      ProjConcat(RecordsOf(e, id, init), [last], e.ids[name]);
      assert [last][1..] == [];
    }
  }

  lemma {:induction false} RecordsAreRows(e: EngineState, id: uint64, ops: seq<Op>)
    requires TablesExist(e, ops) && forall i :: 0 <= i < |ops| ==> e.ids[ops[i].name] in e.tabs
    ensures forall r :: r in RecordsOf(e, id, ops) ==> IsRow(r) && r.table in e.tabs && r.txn == id
    decreases |ops|
  {
    if ops != [] { RecordsAreRows(e, id, ops[..|ops| - 1]); }
  }

  lemma {:induction false} OpsOnMentioned(ops: seq<Op>, name: string)
    requires OpsOn(ops, name) != []
    ensures exists i :: 0 <= i < |ops| && ops[i].name == name
    decreases |ops|
  {
    if ops[|ops| - 1].name != name { OpsOnMentioned(ops[..|ops| - 1], name); }
  }

  /** The engine after a successful commit. */
  function Committed(e: EngineState, t: TxnState): EngineState
    requires TablesExist(e, t.ops)
  {
    Exec(e, RecordsOf(e, t.id, t.ops))
  }

  /** Tables are named consistently and nothing points into the void. */
  predicate Named(
    e: EngineState) {
    WellFormed(e) && IdsInjective(e) && forall t :: t in e.tabs ==> exists n :: n in e.ids && e.ids[n] == t
  }

  /** A validated commit is a transaction every table accepts. */
  lemma CommitIsRowTxn(e: EngineState, t: TxnState)
    requires Named(e) && CommitOk(e, t)
    ensures IsRowTxn(e, RecordsOf(e, t.id, t.ops))
  {
    var rs := RecordsOf(e, t.id, t.ops);
    RecordsAreRows(e, t.id, t.ops);
    forall u | u in e.tabs ensures PutsOk(e.tabs[u].cols, RunRows(e.tabs[u].rows, Proj(rs, u)), Proj(rs, u)) {
      var name :| name in e.ids && e.ids[name] == u;
      RecordsProj(e, t.id, t.ops, name);
      if OpsOn(t.ops, name) != [] {
        OpsOnMentioned(t.ops, name);
        var i :| 0 <= i < |t.ops| && t.ops[i].name == name;
        assert TableOk(e, t.ops, t.ops[i].name);
      }
    }
  }

  lemma CommitIsHealthy(e: EngineState, t: TxnState)
    requires Healthy(e) && Named(e) && CommitOk(e, t)
    ensures Healthy(Committed(e, t))
  {
    var rs := RecordsOf(e, t.id, t.ops);
    CommitIsRowTxn(e, t);
    assert [rs][1..] == [] && ExecAll(e, [rs]) == Committed(e, t);
    ValidTxnSucceeds(e, rs);
    assert ValidRun(e, [rs]);
    LiveIsHealthy(e, [rs]);
  }

  lemma CommitKeepsCatalog(e: EngineState, t: TxnState)
    requires Named(e) && CommitOk(e, t)
    ensures ApplyAll(e, RecordsOf(e, t.id, t.ops)) == Some(Committed(e, t))
    ensures CatalogOf(Committed(e, t)) == CatalogOf(e) && NoDrop(RecordsOf(e, t.id, t.ops))
  {
    var rs := RecordsOf(e, t.id, t.ops);
    CommitIsRowTxn(e, t);
    ValidTxnSucceeds(e, rs);
    RowTxnOk(CatalogOf(e), rs);
    ApplyAllCatalog(e, rs);
  }

  /** Taking commit as one step: if validation passes on a healthy engine, every table ends up with
      exactly the rows the transaction saw, no two rows share a UNIQUE value, and the index is
      exact, even when operations hand keys from row to row on the way. */
  lemma CommitInstallsOverlay(e: EngineState, t: TxnState, name: string)
    requires Healthy(e) && Named(e) && CommitOk(e, t) && name in e.ids
    ensures CommittedRows(Committed(e, t), name) == Overlay(CommittedRows(e, name), t.ops, name)
    ensures Healthy(Committed(e, t)) && Committed(e, t).ids == e.ids
  {
    var rs, u := RecordsOf(e, t.id, t.ops), e.ids[name];
    CommitKeepsCatalog(e, t);
    CommitIsHealthy(e, t);
    SameCatalog(Committed(e, t), e);
    ApplyAllTable(e, rs, u);
    RunShape(e.tabs[u], Proj(rs, u));
    RecordsProj(e, t.id, t.ops, name);
  }

  // --- calls on an open transaction --------------------------------------------------------------------

  datatype CallError = TxnDone | NoTable | BadWidth | RowExists | RowMissing | Duplicate | LogFailed

  /** pkIdx >= 0 stamps the id into that cell (`PutAuto`). */
  datatype Call =
    | Insert(name: string, rowID: int64, pkIdx: int, row: Row)
    | Update(name: string, rowID: int64, row: Row)
    | Remove(name: string, rowID: int64)

  /** The engine (only id counters may have moved), the transaction, and the error if any. */
  datatype CallResult = CallResult(e: EngineState, t: TxnState, error: Option<CallError>)

  function TableNamed(e: EngineState, name: string): Option<TableState> {
    if name in e.ids && e.ids[name] in e.tabs then Some(e.tabs[e.ids[name]]) else None
  }

  function Reserve(e: EngineState, name: string): EngineState
    requires TableNamed(e, name).Some?
  {
    var t := e.tabs[e.ids[name]];
    e.(tabs := e.tabs[e.ids[name] := t.(nextID := NextId(t.nextID))])
  }

  function NoteInsert(inserts: Inserts, name: string, id: int64): Inserts {
    inserts[name := (if name in inserts then inserts[name] else {}) + {id}]
  }

  function Buffer(t: TxnState, name: string, op: RowOp): TxnState { t.(ops := t.ops + [Op(name, op)]) }

  function DoInsert(e: EngineState, t: TxnState, name: string, rowID: int64, pkIdx: int, row: Row): CallResult {
    var table := TableNamed(e, name);
    if t.done then CallResult(e, t, Some(TxnDone))
    else if table.None? then CallResult(e, t, Some(NoTable))
    else if |row| != |table.value.cols| then CallResult(e, t, Some(BadWidth))
    else
      var id := IdFor(table.value, rowID);
      InsertAt(if rowID == 0 then Reserve(e, name) else e, t, name, table.value, id, Stamp(row, pkIdx, id))
  }

  function InsertAt(e: EngineState, t: TxnState, name: string, table: TableState, id: int64, row: Row): CallResult {
    var eff := Overlay(table.rows, t.ops, name);
    if id in eff then CallResult(e, t, Some(RowExists))
    else if !UniqueOk(table.cols, eff, id, row) then CallResult(e, t, Some(Duplicate))
    else CallResult(e, Buffer(t.(inserts := NoteInsert(t.inserts, name, id)), name, PutRow(id, row)), None)
  }

  function DoUpdate(e: EngineState, t: TxnState, name: string, rowID: int64, row: Row): CallResult {
    var table := TableNamed(e, name);
    if t.done then CallResult(e, t, Some(TxnDone))
    else if table.None? then CallResult(e, t, Some(NoTable))
    else if |row| != |table.value.cols| then CallResult(e, t, Some(BadWidth))
    else
      var eff := Overlay(table.value.rows, t.ops, name);
      if rowID !in eff then CallResult(e, t, Some(RowMissing))
      else if !UniqueOk(table.value.cols, eff, rowID, row) then CallResult(e, t, Some(Duplicate))
      else CallResult(e, Buffer(t, name, PutRow(rowID, row)), None)
  }

  function DoRemove(e: EngineState, t: TxnState, name: string, rowID: int64): CallResult {
    var table := TableNamed(e, name);
    if t.done then CallResult(e, t, Some(TxnDone))
    else if table.None? then CallResult(e, t, Some(NoTable))
    else if rowID !in Overlay(table.value.rows, t.ops, name) then CallResult(e, t, Some(RowMissing))
    else CallResult(e, Buffer(t, name, DelRow(rowID)), None)
  }

  function DoCall(e: EngineState, t: TxnState, c: Call): CallResult {
    match c
    case Insert(name, rowID, pkIdx, row) => DoInsert(e, t, name, rowID, pkIdx, row)
    case Update(name, rowID, row) => DoUpdate(e, t, name, rowID, row)
    case Remove(name, rowID) => DoRemove(e, t, name, rowID)
  }

  lemma ReserveKeepsEngine(e: EngineState, name: string)
    requires TableNamed(e, name).Some?
    ensures SameEngine(Reserve(e, name), e)
  {
    var e' := Reserve(e, name);
    assert e'.tabs.Keys == e.tabs.Keys;
    assert CatalogOf(e').defs == CatalogOf(e).defs;
  }

  lemma SameAsItself(e: EngineState)
    ensures SameEngine(e, e)
  {
  }

  /** No call on an open transaction touches committed rows, definitions or indexes. */
  lemma CallKeepsEngine(e: EngineState, t: TxnState, c: Call)
    ensures SameEngine(DoCall(e, t, c).e, e)
    ensures DoCall(e, t, c).error.Some? ==> DoCall(e, t, c).t == t
  {
    SameAsItself(e);
    if TableNamed(e, c.name).Some? { ReserveKeepsEngine(e, c.name); }
  }

  /** A call that succeeds shows up in the transaction's own view, and only there. */
  lemma CallShowsInOverlay(e: EngineState, t: TxnState, c: Call, rows: Rows, name: string)
    requires DoCall(e, t, c).error.None?
    ensures
      var t' := DoCall(e, t, c).t;
      && |t'.ops| == |t.ops| + 1
      && Overlay(rows, t'.ops, name) ==
         if c.name == name then StepRows(Overlay(rows, t.ops, name), t'.ops[|t.ops|].op)
         else Overlay(rows, t.ops, name)
  {
    var t' := DoCall(e, t, c).t;
    OverlaySnoc(rows, t'.ops, name);
    assert t'.ops[..|t'.ops| - 1] == t.ops;
  }

  lemma {:induction false} OpsOnMember(ops: seq<Op>, name: string, r: RowOp)
    ensures r in OpsOn(ops, name) <==> Op(name, r) in ops
    decreases |ops|
  {
    if ops != [] {
      var init, last := ops[..|ops| - 1], ops[|ops| - 1];
      OpsOnMember(init, name, r);
      assert ops == init + [last];
    }
  }

  /** The per-operation form of the validation loop. */
  lemma PutsOkByOp(cols: seq<Column>, final: Rows, ops: seq<Op>, name: string)
    ensures PutsOk(cols, final, OpsOn(ops, name)) <==>
            forall i :: 0 <= i < |ops| && ops[i].name == name && ops[i].op.PutRow? ==>
              UniqueOk(cols, final, ops[i].op.id, ops[i].op.row)
  {
    var mine := OpsOn(ops, name);
    forall i | 0 <= i < |ops| && ops[i].name == name ensures ops[i].op in mine {
      OpsOnMember(ops, name, ops[i].op);
      assert Op(name, ops[i].op) == ops[i];
    }
    forall i | 0 <= i < |mine| ensures Op(name, mine[i]) in ops { OpsOnMember(ops, name, mine[i]); }
  }

  /** One buffered operation passes validation: its table exists and a put is unique in the overlay. */
  predicate OpOk(e: EngineState, ops: seq<Op>, o: Op) {
    && o.name in e.ids && e.ids[o.name] in e.tabs
    && (o.op.PutRow? ==>
         UniqueOk(e.tabs[e.ids[o.name]].cols, Overlay(CommittedRows(e, o.name), ops, o.name), o.op.id, o.op.row))
  }

  /** The first n buffered operations pass. */
  predicate OpsOk(e: EngineState, ops: seq<Op>, n: nat)
    requires n <= |ops|
  {
    n == 0 || (OpsOk(e, ops, n - 1) && OpOk(e, ops, ops[n - 1]))
  }

  lemma {:induction false} OpsOkAt(e: EngineState, ops: seq<Op>, n: nat, i: nat)
    requires i < n <= |ops|
    ensures OpsOk(e, ops, n) ==> OpsOk(e, ops, i) && OpOk(e, ops, ops[i])
  {
    if i < n - 1 { OpsOkAt(e, ops, n - 1, i); }
  }

  lemma {:induction false} OpsOkByOp(e: EngineState, ops: seq<Op>, n: nat)
    requires n <= |ops|
    ensures OpsOk(e, ops, n) <==> forall i :: 0 <= i < n ==> OpOk(e, ops, ops[i])
  {
    if n > 0 { OpsOkByOp(e, ops, n - 1); }
  }

  lemma CommitOkByOp(e: EngineState, t: TxnState)
    requires forall n :: n in e.ids ==> e.ids[n] < 0x1_0000_0000
    ensures CommitOk(e, t) <==>
            (forall i :: 0 <= i < |t.ops| ==> OpOk(e, t.ops, t.ops[i])) && InsertsFree(e, t.inserts)
  {
    forall name | name in e.ids && e.ids[name] in e.tabs
      ensures TableOk(e, t.ops, name) <==>
              forall i :: 0 <= i < |t.ops| && t.ops[i].name == name ==> OpOk(e, t.ops, t.ops[i])
    {
      var table := e.tabs[e.ids[name]];
      PutsOkByOp(table.cols, Overlay(table.rows, t.ops, name), t.ops, name);
    }
  }
}
