/** The transaction object: buffered writes over the shared engine, and commit. */
module TxnStore {
  import opened Values
  import opened Keys
  import opened Schema
  import opened Tables
  import opened TableStore
  import opened WalCodec
  import opened EngineModel
  import opened EngineStore
  import opened TxnModel

  /** `checkUnique`: compares the row's UNIQUE cells with every other row of the effective state. */
  method CheckUnique(cols: seq<Column>, selfID: int64, row: Row, eff: Rows) returns (ok: bool)
    requires Indexable(cols, row)
    ensures ok == UniqueOk(cols, eff, selfID, row)
  {
    for ci := 0 to |cols|
      invariant forall cj :: cj in UniqueCols(cols) && cj < ci ==> FreeIn(eff, selfID, row, cj)
    {
      if cols[ci].unique && !row[ci].VNull? {
        var k := UniqKey(row[ci]);
        var todo := eff.Keys;
        while todo != {}
          invariant todo <= eff.Keys
          invariant forall j :: j in eff && j !in todo && j != selfID ==> CellKey(eff[j], ci) != Some(k)
          decreases |todo|
        {
          var id :| id in todo;
          todo := todo - {id};
          var r := eff[id];
          if id != selfID && |r| > ci {
            UniqKeyInjective(r[ci], row[ci]);
            if UniqKey(r[ci]) == k {
              assert !FreeIn(eff, selfID, row, ci);
              assert ci in UniqueCols(cols);
              return false;
            }
          }
        }
      }
    }
    return true;
  }

  lemma HolderByKey(rows: Tables.Rows, id: int64, ci: nat, v: Value)
    requires !v.VNull? && id in rows
    ensures Has(rows, id, ci, v) <==> |rows[id]| > ci && UniqKey(rows[id][ci]) == UniqKey(v)
  {
    if |rows[id]| > ci { UniqKeyInjective(rows[id][ci], v); }
  }

  /** A holder comes after all the ids that hold something else. */
  lemma HolderFollows(rows: Tables.Rows, ids: seq<int64>, n: nat, ci: nat, v: Value, j: int64)
    requires TableStore.Lists(ids, rows.Keys) && n <= |ids| && Has(rows, j, ci, v)
    requires forall i :: 0 <= i < n ==> !Has(rows, ids[i], ci, v)
    ensures n < |ids| && ids[n] <= j
  {
    assert j in ids;
    var k :| 0 <= k < |ids| && ids[k] == j;
  }

  /** The scan of `UniqueGet` over rows in id order. */
  method FirstHolder(rows: Tables.Rows, ci: nat, v: Value) returns (r: Option<int64>)
    requires !v.VNull?
    ensures r.Some? ==> Has(rows, r.value, ci, v) && forall j :: Has(rows, j, ci, v) ==> r.value <= j
    ensures r.None? ==> forall j :: !Has(rows, j, ci, v)
  {
    var ids := SortIds(rows.Keys);
    for i := 0 to |ids|
      invariant forall j :: 0 <= j < i ==> !Has(rows, ids[j], ci, v)
    {
      assert ids[i] in ids;
      var row := rows[ids[i]];
      HolderByKey(rows, ids[i], ci, v);
      if |row| > ci && UniqKey(row[ci]) == UniqKey(v) {
        forall j | Has(rows, j, ci, v) ensures ids[i] <= j { HolderFollows(rows, ids, i, ci, v, j); }
        return Some(ids[i]);
      }
    }
    forall j ensures !Has(rows, j, ci, v) {
      if Has(rows, j, ci, v) { HolderFollows(rows, ids, |ids|, ci, v, j); }
    }
    return None;
  }

  class Txn {
    const e: Engine
    const id: uint64
    var ops: seq<Op>
    var inserts: Inserts
    var done: bool

    ghost function State(): TxnState
      reads this
    {
      TxnState(id, ops, inserts, done)
    }

    constructor (e: Engine, id: uint64)
      ensures this.e == e && State() == TxnState(id, [], map[], false)
    {
      this.e := e;
      this.id := id;
      ops := [];
      inserts := map[];
      done := false;
    }

    ghost function Rows(name: string): Tables.Rows
      reads this, e, e.byID.Values
    {
      CommittedRows(e.View(), name)
    }

    /** What this transaction sees of a table. */
    ghost function Seen(name: string): Tables.Rows
      reads this, e, e.byID.Values
    {
      Overlay(Rows(name), ops, name)
    }

    method EngineGet(name: string, rowID: int64) returns (r: Option<Row>)
      requires e.Valid()
      ensures r == Find(Rows(name), rowID)
    {
      if name !in e.ids { return None; }
      var t := e.byID[e.ids[name]];
      if rowID in t.rows { r := Some(t.rows[rowID]); } else { r := None; }
    }

    /** The backward scan over the buffer finds what the forward overlay holds. A finished transaction
        asks the engine. */
    method Get(name: string, rowID: int64) returns (r: Option<Row>)
      requires e.Valid()
      ensures r == Find(if done then Rows(name) else Seen(name), rowID)
    {
      if done {
        r := EngineGet(name, rowID);
        return;
      }
      var i := |ops|;
      assert ops[..i] == ops;
      while i > 0
        invariant 0 <= i <= |ops|
        invariant Find(Seen(name), rowID) == Find(Overlay(Rows(name), ops[..i], name), rowID)
      {
        i := i - 1;
        OverlaySnoc(Rows(name), ops[..i + 1], name);
        assert ops[..i + 1][..i] == ops[..i];
        var o := ops[i];
        if o.name == name && o.op.id == rowID {
          if o.op.PutRow? { return Some(o.op.row); }
          return None;
        }
      }
      r := EngineGet(name, rowID);
    }

    /** `effMapLocked`: committed rows, then the buffer in order. */
    method EffMap(name: string) returns (m: Option<Tables.Rows>)
      requires e.Valid()
      ensures m == if name in e.ids then Some(Seen(name)) else None
    {
      if name !in e.ids { return None; }
      var rows := e.byID[e.ids[name]].rows;
      for i := 0 to |ops|
        invariant rows == Overlay(Rows(name), ops[..i], name)
      {
        OverlaySnoc(Rows(name), ops[..i + 1], name);
        assert ops[..i + 1][..i] == ops[..i];
        var o := ops[i];
        if o.name == name {
          if o.op.PutRow? { rows := rows[o.op.id := o.op.row]; } else { rows := rows - {o.op.id}; }
        }
      }
      assert ops[..|ops|] == ops;
      return Some(rows);
    }

    /** The engine's `UniqueGet`: through the index of a UNIQUE column. */
    method EngineUniqueGet(name: string, ci: nat, v: Value) returns (r: Option<int64>)
      requires e.Valid()
      ensures r == IndexGet(e.View(), name, ci, v)
    {
      if name !in e.ids || v.VNull? { return None; }
      var t := e.byID[e.ids[name]];
      if ci in t.uniq && UniqKey(v) in t.uniq[ci] { return Some(t.uniq[ci][UniqKey(v)]); }
      return None;
    }

    /** The first row by id with value v in the column, found by scanning the effective state. A
        finished transaction asks the engine's index. */
    method UniqueGet(name: string, ci: nat, v: Value) returns (r: Option<int64>)
      requires e.Valid()
      ensures done ==> r == IndexGet(e.View(), name, ci, v)
      ensures name !in e.ids ==> r.None?
      ensures !done && name in e.ids && r.Some? ==>
        Has(Seen(name), r.value, ci, v) && forall j :: Has(Seen(name), j, ci, v) ==> r.value <= j
      ensures !done && name in e.ids && r.None? ==> forall j :: !Has(Seen(name), j, ci, v)
    {
      if v.VNull? { return None; }
      if done {
        r := EngineUniqueGet(name, ci, v);
        return;
      }
      var eff := EffMap(name);
      if eff.None? { return None; }
      r := FirstHolder(eff.value, ci, v);
    }

    // --- writes ---------------------------------------------------------------------------------------

    /** `Put` (pkIdx < 0) and `PutAuto`. */
    method Insert(name: string, rowID: int64, pkIdx: int, row: Row) returns (error: Option<CallError>)
      requires e.Valid()
      modifies this`ops, this`inserts, e.byID.Values`nextID
      ensures e.Valid()
      ensures CallResult(e.View(), State(), error) == DoInsert(old(e.View()), old(State()), name, rowID, pkIdx, row)
    {
      if done { return Some(TxnDone); }
      if name !in e.ids { return Some(NoTable); }
      if |row| != |e.byID[e.ids[name]].cols| { return Some(BadWidth); }
      error := InsertFitting(name, rowID, pkIdx, row);
    }

    method InsertFitting(name: string, rowID: int64, pkIdx: int, row: Row) returns (error: Option<CallError>)
      requires e.Valid() && name in e.ids && |row| == |e.byID[e.ids[name]].cols|
      modifies this`ops, this`inserts, e.byID.Values`nextID
      ensures e.Valid()
      ensures
        var was, table := old(e.View()), old(e.byID[e.ids[name]].View());
        var id := IdFor(table, rowID);
        CallResult(e.View(), State(), error) ==
        InsertAt(if rowID == 0 then TxnModel.Reserve(was, name) else was, old(State()), name, table, id,
          Stamp(row, pkIdx, id))
    {
      ghost var table := e.byID[e.ids[name]].View();
      var newID := PickId(name, rowID);
      ghost var state, view := State(), e.View();
      error := BufferInsert(name, table, newID, Stamp(row, pkIdx, newID));
      assert CallResult(e.View(), State(), error) ==
        InsertAt(view, state, name, table, newID, Stamp(row, pkIdx, newID));
    }

    /** The caller's id, or a fresh one that stays taken even if the insert fails. */
    method PickId(name: string, rowID: int64) returns (newID: int64)
      requires e.Valid() && name in e.ids
      modifies e.byID.Values`nextID
      ensures e.Valid() && newID == IdFor(old(e.byID[e.ids[name]].View()), rowID)
      ensures e.View() == if rowID == 0 then TxnModel.Reserve(old(e.View()), name) else old(e.View())
    {
      newID := rowID;
      if rowID == 0 {
        var next := e.ReserveID(name);
        newID := next.value;
      }
    }

    method BufferInsert(name: string, ghost table: TableState, newID: int64, row: Row)
      returns (error: Option<CallError>)
      requires e.Valid() && name in e.ids && |row| == |table.cols|
      requires table.cols == e.byID[e.ids[name]].cols && table.rows == e.byID[e.ids[name]].rows
      modifies this`ops, this`inserts
      ensures e.Valid() && e.View() == old(e.View())
      ensures CallResult(e.View(), State(), error) == InsertAt(old(e.View()), old(State()), name, table, newID, row)
    {
      var eff := EffMap(name);
      if newID in eff.value { return Some(RowExists); }
      var ok := CheckUnique(e.byID[e.ids[name]].cols, newID, row, eff.value);
      if !ok { return Some(Duplicate); }
      Note(name, newID, row);
      return None;
    }

    /** Buffers the put and remembers the id as an insert of this transaction. */
    method Note(name: string, newID: int64, row: Row)
      requires e.Valid()
      modifies this`ops, this`inserts
      ensures e.Valid() && e.View() == old(e.View())
      ensures State() == Buffer(old(State()).(inserts := NoteInsert(old(inserts), name, newID)), name,
              PutRow(newID, row))
    {
      inserts := NoteInsert(inserts, name, newID);
      ops := ops + [Op(name, PutRow(newID, row))];
    }

    method Add(name: string, op: RowOp)
      requires e.Valid()
      modifies this`ops
      ensures e.Valid() && e.View() == old(e.View()) && State() == Buffer(old(State()), name, op)
    {
      ops := ops + [Op(name, op)];
    }

    method Update(name: string, rowID: int64, row: Row) returns (error: Option<CallError>)
      requires e.Valid()
      modifies this`ops
      ensures CallResult(e.View(), State(), error) == DoUpdate(old(e.View()), old(State()), name, rowID, row)
    {
      if done { return Some(TxnDone); }
      if name !in e.ids { return Some(NoTable); }
      var t := e.byID[e.ids[name]];
      if |row| != |t.cols| { return Some(BadWidth); }
      var eff := EffMap(name);
      if rowID !in eff.value { return Some(RowMissing); }
      var ok := CheckUnique(t.cols, rowID, row, eff.value);
      if !ok { return Some(Duplicate); }
      Add(name, PutRow(rowID, row));
      return None;
    }

    method Remove(name: string, rowID: int64) returns (error: Option<CallError>)
      requires e.Valid()
      modifies this`ops
      ensures CallResult(e.View(), State(), error) == DoRemove(old(e.View()), old(State()), name, rowID)
    {
      if done { return Some(TxnDone); }
      if name !in e.ids { return Some(NoTable); }
      var eff := EffMap(name);
      if rowID !in eff.value { return Some(RowMissing); }
      Add(name, DelRow(rowID));
      return None;
    }

    // --- commit -------------------------------------------------------------------------------------------

    /** Buffered rows reach the UNIQUE columns their tables have now; checking a shorter one panics. */
    ghost predicate RowsFit()
      reads this, e, e.byID.Values
    {
      forall i :: 0 <= i < |ops| && ops[i].op.PutRow? && ops[i].name in e.ids && e.ids[ops[i].name] in e.byID ==>
        Indexable(e.byID[e.ids[ops[i].name]].cols, ops[i].op.row)
    }

    /** One buffered operation against the freshest committed rows under the buffer. */
    method ValidateOp(o: Op) returns (ok: bool)
      requires e.Valid() && o.name in e.ids
      requires o.op.PutRow? ==> Indexable(e.byID[e.ids[o.name]].cols, o.op.row)
      ensures ok == OpOk(e.View(), ops, o)
    {
      if o.op.DelRow? { return true; }
      var eff := EffMap(o.name);
      ok := CheckUnique(e.byID[e.ids[o.name]].cols, o.op.id, o.op.row, eff.value);
    }

    /** Re-validation of the whole buffer, superseded puts included. */
    method ValidateOps() returns (error: Option<CallError>)
      requires e.Valid() && RowsFit()
      ensures error.None? <==> OpsOk(e.View(), ops, |ops|)
    {
      for i := 0 to |ops|
        invariant forall j :: 0 <= j < i ==> ops[j].name in e.ids
      {
        if ops[i].name !in e.ids {
          OpsOkAt(e.View(), ops, |ops|, i);
          return Some(NoTable);
        }
      }
      for i := 0 to |ops|
        invariant OpsOk(e.View(), ops, i)
      {
        var ok := ValidateOp(ops[i]);
        if !ok {
          OpsOkAt(e.View(), ops, |ops|, i);
          return Some(Duplicate);
        }
      }
      return None;
    }

    /** Primary keys this transaction inserted must still be free. */
    method ValidateInserts() returns (ok: bool)
      requires e.Valid()
      ensures ok == InsertsFree(e.View(), inserts)
    {
      var names := inserts.Keys;
      while names != {}
        invariant names <= inserts.Keys
        invariant forall n, i :: n in inserts && n !in names && i in inserts[n] ==> i !in CommittedRows(e.View(), n)
        decreases |names|
      {
        var name :| name in names;
        var todo := inserts[name];
        while todo != {}
          invariant todo <= inserts[name]
          invariant forall i :: i in inserts[name] && i !in todo ==> i !in CommittedRows(e.View(), name)
          decreases |todo|
        {
          var rowID :| rowID in todo;
          var found := EngineGet(name, rowID);
          if found.Some? { return false; }
          todo := todo - {rowID};
        }
        names := names - {name};
      }
      return true;
    }

    /** The buffer as log records, table names replaced by ids. */
    method BuildRecords() returns (recs: seq<Record>)
      requires e.Valid() && TablesExist(e.View(), ops)
      ensures recs == RecordsOf(e.View(), id, ops)
    {
      recs := [];
      for i := 0 to |ops|
        invariant recs == RecordsOf(e.View(), id, ops[..i])
      {
        var o := ops[i];
        var table := e.ids[o.name];
        assert ops[..i + 1][..i] == ops[..i];
        match o.op {
          case PutRow(rowID, row) => recs := recs + [Record.Put(id, table, rowID, row)];
          case DelRow(rowID) => recs := recs + [Record.Delete(id, table, rowID)];
        }
      }
      assert ops[..|ops|] == ops;
    }

    /** `Commit`: validate, then log and apply; `taken` is how many records the log takes. If validation
        fails, nothing has changed and the transaction stays open. If an append fails, the transaction is
        over without effect. Committing a finished one does nothing. */
    method Commit(taken: nat) returns (error: Option<CallError>)
      requires e.Valid() && RowsFit() && forall n :: n in e.ids ==> e.ids[n] < 0x1_0000_0000
      modifies this`ops, this`done, e`log, e.byID.Values
      ensures e.Valid()
      ensures old(done) ==> error.None?
      ensures !old(done) && !CommitOk(old(e.View()), old(State())) ==> error.Some?
      ensures old(done) || !CommitOk(old(e.View()), old(State())) ==>
        State() == old(State()) && e.View() == old(e.View()) && e.log == old(e.log)
      ensures !old(done) && CommitOk(old(e.View()), old(State())) ==>
        var recs, written := RecordsOf(old(e.View()), id, old(ops)), old(ops) == [] || taken > |old(ops)|;
        && done && ops == [] && (error.None? <==> written)
        && e.View() == (if written then Committed(old(e.View()), old(State())) else old(e.View()))
        && e.log == old(e.log) +
           if old(ops) == [] then [] else if written then recs + [WalCodec.Commit(id)] else recs[..taken]
    {
      if done { return None; }
      ghost var allowed := CommitOk(e.View(), State());
      error := Validate();
      assert error.None? <==> allowed;
      if error.Some? { return; }
      var ok := Install(taken);
      if !ok { error := Some(LogFailed); }
    }

    method Validate() returns (error: Option<CallError>)
      requires e.Valid() && RowsFit() && forall n :: n in e.ids ==> e.ids[n] < 0x1_0000_0000
      ensures error.None? <==> CommitOk(e.View(), State())
    {
      CommitOkByOp(e.View(), State());
      OpsOkByOp(e.View(), ops, |ops|);
      error := ValidateOps();
      if error.Some? { return; }
      var free := ValidateInserts();
      if !free { return Some(Duplicate); }
    }

    method Install(taken: nat) returns (ok: bool)
      requires e.Valid() && RowsFit() && TablesExist(e.View(), ops)
      modifies this`ops, this`done, e`log, e.byID.Values
      ensures e.Valid() && done && ops == [] && ok == (old(ops) == [] || taken > |old(ops)|)
      ensures e.View() == if ok then Exec(old(e.View()), RecordsOf(old(e.View()), id, old(ops))) else old(e.View())
      ensures
        var recs := RecordsOf(old(e.View()), id, old(ops));
        e.log == old(e.log) + if old(ops) == [] then [] else if ok then recs + [WalCodec.Commit(id)] else recs[..taken]
    {
      var recs := TakeRecords();
      if recs == [] {
        assert e.log + [] == e.log;
        return true;
      }
      ok := LogAndApply(recs, taken);
    }

    /** The buffer leaves the transaction as log records. */
    method TakeRecords() returns (recs: seq<Record>)
      requires e.Valid() && RowsFit() && TablesExist(e.View(), ops)
      modifies this`ops, this`done
      ensures done && ops == [] && e.Valid() && e.View() == old(e.View())
      ensures recs == RecordsOf(old(e.View()), id, old(ops))
      ensures forall r :: r in recs ==> IsRow(r) && r.table in e.View().tabs && Fits(e.View(), r)
    {
      recs := BuildRecords();
      RecordsReady(e.View(), id, ops);
      Close();
    }

    /** Empties and finishes the transaction; the engine is not touched. */
    method Close()
      requires e.Valid()
      modifies this`ops, this`done
      ensures done && ops == [] && e.Valid() && e.View() == old(e.View())
    {
      ops := [];
      done := true;
    }

    method LogAndApply(recs: seq<Record>, taken: nat) returns (ok: bool)
      requires e.Valid()
      requires forall r :: r in recs ==> IsRow(r) && r.table in e.View().tabs && Fits(e.View(), r)
      modifies e`log, e.byID.Values
      ensures e.Valid() && ok == (taken > |recs|)
      ensures e.View() == if ok then Exec(old(e.View()), recs) else old(e.View())
      ensures e.log == old(e.log) + if ok then recs + [WalCodec.Commit(id)] else recs[..taken]
    {
      ok := e.CommitTxn(id, recs, taken);
    }

    method Rollback()
      modifies this`ops, this`done
      ensures done && (old(done) ==> ops == old(ops)) && (!old(done) ==> ops == [])
    {
      if done { return; }
      ops := [];
      done := true;
    }
  }

  /** The records of a buffer that passed validation can be applied. */
  lemma RecordsReady(e: EngineState, id: uint64, ops: seq<Op>)
    requires TablesExist(e, ops) && forall i :: 0 <= i < |ops| ==> e.ids[ops[i].name] in e.tabs
    requires forall i :: 0 <= i < |ops| && ops[i].op.PutRow? ==>
               Indexable(e.tabs[e.ids[ops[i].name]].cols, ops[i].op.row)
    ensures forall r :: r in RecordsOf(e, id, ops) ==> IsRow(r) && r.table in e.tabs && Fits(e, r)
  {
    RecordsAreRows(e, id, ops);
    RecordsFit(e, id, ops);
  }

  lemma {:induction false} RecordsFit(e: EngineState, id: uint64, ops: seq<Op>)
    requires TablesExist(e, ops)
    requires forall i :: 0 <= i < |ops| && ops[i].op.PutRow? && e.ids[ops[i].name] in e.tabs ==>
               Indexable(e.tabs[e.ids[ops[i].name]].cols, ops[i].op.row)
    ensures forall r :: r in RecordsOf(e, id, ops) ==> Fits(e, r)
    decreases |ops|
  {
    if ops != [] { RecordsFit(e, id, ops[..|ops| - 1]); }
  }

  /** What the index of a table gives for a value. */
  function IndexGet(e: EngineState, name: string, ci: nat, v: Value): Option<int64> {
    match TableNamed(e, name)
    case None => None
    case Some(t) => Tables.UniqueGet(t, ci, v)
  }

  /** On a healthy engine that is the one row with the value. */
  lemma IndexGetIsScan(e: EngineState, name: string, ci: nat, v: Value, id: int64)
    requires Healthy(e) && TableNamed(e, name).Some? && ci in UniqueCols(TableNamed(e, name).value.cols)
    ensures IndexGet(e, name, ci, v) == Some(id) <==> Has(CommittedRows(e, name), id, ci, v)
  {
    UniqueGetIsScan(TableNamed(e, name).value, ci, v, id);
  }
}
