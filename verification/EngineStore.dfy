/** The engine object: shared mutable tables, recovery and the autocommit write path. */
module EngineStore {
  import opened Values
  import opened Schema
  import opened Tables
  import opened TableStore
  import opened WalCodec
  import opened LogReplay
  import opened EngineModel

  /** The row reaches the UNIQUE columns of the table it goes to; applying a shorter one panics. */
  predicate Fits(e: EngineState, r: Record) {
    r.Put? && r.table in e.tabs ==> Indexable(e.tabs[r.table].cols, r.row)
  }

  predicate FitsAll(e: EngineState, ops: seq<Record>)
    decreases |ops|
  {
    ops == [] ||
    (&& Fits(e, ops[0])
     && (ApplyRecord(e, ops[0]).Some? ==> FitsAll(ApplyRecord(e, ops[0]).value, ops[1..])))
  }

  lemma {:induction false} FitsConcat(e: EngineState, a: seq<Record>, b: seq<Record>)
    requires FitsAll(e, a + b)
    ensures FitsAll(e, a)
    ensures ApplyAll(e, a).Some? ==> FitsAll(ApplyAll(e, a).value, b)
    decreases |a|
  {
    if a == [] {
      assert a + b == b;
    } else {
      assert (a + b)[1..] == a[1..] + b;
      if ApplyRecord(e, a[0]).Some? { FitsConcat(ApplyRecord(e, a[0]).value, a[1..], b); }
    }
  }

  lemma {:induction false} AppliedGrows(p: Progress, log: Log) returns (more: seq<Record>)
    ensures RunLog(p, log).applied == p.applied + more
    decreases |log|
  {
    if log == [] {
      more := [];
    } else {
      var p' := StepLog(p, log[0]);
      more := AppliedGrows(p', log[1..]);
      if log[0].Commit? {
        var now := Waiting(p.pending, log[0].txn);
        assert (p.applied + now) + more == p.applied + (now + more);
        more := now + more;
      }
    }
  }

  class Engine {
    var ids: map<string, nat>   // table name -> id
    var byID: map<nat, Table>
    var nextTableID: nat
    var log: Log
    var txSeq: nat

    ghost predicate Valid()
      reads this, byID.Values
    {
      && (forall n :: n in ids ==> ids[n] in byID)
      && (forall a, b :: a in ids && b in ids && ids[a] == ids[b] ==> a == b)
      && (forall i :: i in byID ==> byID[i].id == i && i < nextTableID && byID[i].Shaped())
    }

    ghost function Tabs(): map<nat, TableState>
      reads this, byID.Values
    {
      map i | i in byID :: byID[i].View()
    }

    ghost function View(): EngineState
      reads this, byID.Values
    {
      EngineState(ids, Tabs(), nextTableID)
    }

    constructor ()
      ensures Valid() && View() == EmptyEngine && log == [] && txSeq == 0
    {
      ids := map[];
      byID := map[];
      nextTableID := 0;
      log := [];
      txSeq := 0;
    }

    method AddTable(name: string, cols: seq<Column>)
      requires Valid() && name !in ids
      modifies this`ids, this`byID, this`nextTableID
      ensures Valid() && View() == EngineModel.AddTable(old(View()), name, cols)
      ensures fresh(byID.Values - old(byID.Values))
    {
      var t := new Table(nextTableID, name, cols);
      Register(t, name);
    }

    method Register(t: Table, name: string)
      requires Valid() && name !in ids && t.id == nextTableID && t.Shaped()
      modifies this`ids, this`byID, this`nextTableID
      ensures Valid() && nextTableID == old(nextTableID) + 1 && ids == old(ids)[name := t.id]
      ensures byID == old(byID)[t.id := t] && Tabs() == old(Tabs())[t.id := t.View()]
    {
      ids := ids[name := t.id];
      byID := byID[t.id := t];
      nextTableID := nextTableID + 1;
    }

    /** Changing one table in place changes that entry of the engine and no other. */
    twostate lemma OneTableChanged(i: nat)
      requires old(Valid()) && i in old(byID) && byID == old(byID)
      requires forall j :: j in byID && j != i ==> byID[j].View() == old(byID[j].View())
      ensures Tabs() == old(Tabs())[i := byID[i].View()]
    {
    }

    method ApplyRow(r: Record)
      requires Valid() && IsRow(r) && r.table in byID && Fits(View(), r)
      modifies byID[r.table]
      ensures Valid() && View() == ApplyRecord(old(View()), r).value
    {
      var t := byID[r.table];
      if r.Put? {
        t.ApplyPut(r.id, r.row);
      } else {
        t.ApplyDelete(r.id);
      }
      OneTableChanged(r.table);
    }

    method DropTable(name: string)
      requires Valid() && name in ids
      modifies this`ids, this`byID
      ensures Valid() && ids == old(ids) - {name} && Tabs() == old(Tabs()) - {old(ids)[name]}
      ensures byID.Values <= old(byID.Values)
    {
      var id := ids[name];
      ids := ids - {name};
      byID := byID - {id};
    }

    /** `applyRecord`; false is the error for an unknown table id. */
    method ApplyOne(r: Record) returns (ok: bool)
      requires Valid() && Fits(View(), r)
      modifies this`ids, this`byID, this`nextTableID, byID.Values
      ensures Valid() && fresh(byID.Values - old(byID.Values))
      ensures ok <==> ApplyRecord(old(View()), r).Some?
      ensures ok ==> View() == ApplyRecord(old(View()), r).value
    {
      ok := true;
      if r.Create? {
        if r.ddl.name !in ids { AddTable(r.ddl.name, r.ddl.cols); }
      } else if r.Drop? {
        if r.ddl.name in ids { DropTable(r.ddl.name); }
      } else if IsRow(r) {
        if r.table in byID { ApplyRow(r); } else { ok := false; }
      }
    }

    /** Applies the buffered operations of one committed transaction, in order. */
    method ApplyPending(ops: seq<Record>) returns (ok: bool)
      requires Valid() && FitsAll(View(), ops)
      modifies this`ids, this`byID, this`nextTableID, byID.Values
      ensures Valid() && fresh(byID.Values - old(byID.Values))
      ensures ok <==> ApplyAll(old(View()), ops).Some?
      ensures ok ==> View() == ApplyAll(old(View()), ops).value
    {
      for i := 0 to |ops|
        invariant Valid() && fresh(byID.Values - old(byID.Values))
        invariant FitsAll(View(), ops[i..])
        invariant ApplyAll(old(View()), ops) == ApplyAll(View(), ops[i..])
      {
        assert ops[i..][0] == ops[i] && ops[i..][1..] == ops[i + 1..];
        var applied := ApplyOne(ops[i]);
        if !applied { return false; }
      }
      return true;
    }

    /** The replay loop of `Open`: operations wait per transaction and are applied at its commit
        record. Succeeds, with the committed state, exactly if no operation meets an unknown table. */
    method Replay(recs: Log) returns (ok: bool)
      requires Valid() && FitsAll(View(), Replayed(recs))
      modifies this`ids, this`byID, this`nextTableID, byID.Values
      ensures Valid() && fresh(byID.Values - old(byID.Values))
      ensures ok <==> ApplyAll(old(View()), CommittedOps(recs)).Some?
      ensures ok ==> View() == ApplyAll(old(View()), CommittedOps(recs)).value
    {
      ReplayIsCommitOrder(recs);
      var pending: map<uint64, seq<Record>> := map[];
      ghost var applied: seq<Record> := [];
      ghost var start := View();
      ReplayStarts(start, recs);
      for i := 0 to |recs|
        invariant Valid() && fresh(byID.Values - old(byID.Values))
        invariant ReplayInv(start, View(), Progress(pending, applied), recs, i)
      {
        var r := recs[i];
        if r.Commit? {
          var ops := if r.txn in pending then pending[r.txn] else [];
          ReplayCommit(start, View(), Progress(pending, applied), recs, i);
          var done := ApplyPending(ops);
          if !done { return false; }
          pending := pending - {r.txn};
          applied := applied + ops;
        } else {
          ReplayOther(start, View(), Progress(pending, applied), recs, i);
          if !r.Begin? {
            pending := pending[r.txn := (if r.txn in pending then pending[r.txn] else []) + [r]];
          }
        }
      }
      return true;
    }

    /** Appends records until the log refuses one: `taken` is how many it takes. */
    method LogAll(recs: seq<Record>, taken: nat) returns (ok: bool)
      requires Valid()
      modifies this`log
      ensures Valid() && View() == old(View()) && ok == (taken >= |recs|)
      ensures log == old(log) + if ok then recs else recs[..taken]
    {
      for i := 0 to |recs|
        modifies this`log
        invariant i <= taken && log == old(log) + recs[..i]
      {
        if i == taken { return false; }
        log := log + [recs[i]];
      }
      assert recs[..|recs|] == recs;
      return true;
    }

    /** `commitTxn`: append the records and the commit record, then apply in place, in order. A failing
        append leaves the tables alone and no commit record. */
    method CommitTxn(tx: uint64, recs: seq<Record>, taken: nat) returns (ok: bool)
      requires Valid()
      requires forall r :: r in recs ==> IsRow(r) && r.table in byID && Fits(View(), r)
      modifies this`log, byID.Values
      ensures Valid() && ok == (taken > |recs|)
      ensures ok ==> ApplyAll(old(View()), recs) == Some(View()) && log == old(log) + (recs + [Commit(tx)])
      ensures !ok ==> View() == old(View()) && log == old(log) + recs[..taken]
    {
      ok := LogAll(recs + [Commit(tx)], taken);
      if !ok {
        assert (recs + [Commit(tx)])[..taken] == recs[..taken];
        return;
      }
      assert recs[0..] == recs;
      for i := 0 to |recs|
        modifies byID.Values
        invariant Valid()
        invariant ApplyAll(old(View()), recs) == ApplyAll(View(), recs[i..])
      {
        assert recs[i] in recs && recs[i..][0] == recs[i] && recs[i..][1..] == recs[i + 1..];
        ApplyRow(recs[i]);
      }
    }

    // --- autocommit writes ---------------------------------------------------------------------------

    /** `txn` around one operation: Begin, the operation, Commit, under the next transaction id. */
    method LogTxn(table: nat, op: RowOp, taken: nat) returns (ok: bool)
      requires Valid() && txSeq + 1 < TWO_64 && table < 0x1_0000_0000
      modifies this`log, this`txSeq
      ensures Valid() && View() == old(View()) && txSeq == old(txSeq) + 1 && ok == (taken >= 3)
      ensures log == old(log) + if ok then TxnRecords(txSeq, table, op) else TxnRecords(txSeq, table, op)[..taken]
    {
      txSeq := txSeq + 1;
      assert Valid() && View() == old(View());
      ok := LogAll(TxnRecords(txSeq, table, op), taken);
    }

    /** `ReserveID`: hands out the next id without storing anything; none for an unknown table. */
    method ReserveID(name: string) returns (rowID: Option<int64>)
      requires Valid()
      modifies byID.Values`nextID
      ensures Valid() && (rowID.Some? <==> name in ids)
      ensures name in ids ==>
        && rowID == Some(old(byID[ids[name]].nextID))
        && Tabs() == old(Tabs())[ids[name] := old(byID[ids[name]].View()).(nextID := NextId(rowID.value))]
      ensures name !in ids ==> Tabs() == old(Tabs())
    {
      if name !in ids { return None; }
      var t := byID[ids[name]];
      var next := t.ReserveID();
      OneTableChanged(ids[name]);
      return Some(next);
    }

    /** `put`: look the table up, check, append to the log, apply. When the append fails, only the id
        counter may have moved. */
    method Put(name: string, pkIdx: int, rowID: int64, row: Row, mustExist: bool, taken: nat)
      returns (verdict: Option<Admission>, logged: bool)
      requires Valid() && txSeq + 1 < TWO_64 && nextTableID <= 0x1_0000_0000
      modifies this`log, this`txSeq, byID.Values
      ensures Valid() && (verdict.Some? <==> name in ids)
      ensures name in ids ==>
        var was := old(byID[ids[name]].View());
        && verdict == Some(AdmitPut(was, pkIdx, rowID, row, mustExist).0)
        && logged == (verdict.value.Admit? && taken >= 3)
        && Tabs() == old(Tabs())[ids[name] := AfterPut(was, pkIdx, rowID, row, mustExist, logged)]
        && txSeq == (if verdict.value.Admit? then old(txSeq) + 1 else old(txSeq))
        && log == old(log) + PutRecords(txSeq, ids[name], verdict.value, taken)
      ensures name !in ids ==> !logged && Tabs() == old(Tabs()) && log == old(log) && txSeq == old(txSeq)
    {
      if name !in ids { return None, false; }
      var admission, ok := PutIn(ids[name], pkIdx, rowID, row, mustExist, taken);
      return Some(admission), ok;
    }

    method PutIn(id: nat, pkIdx: int, rowID: int64, row: Row, mustExist: bool, taken: nat)
      returns (verdict: Admission, logged: bool)
      requires Valid() && id in byID && txSeq + 1 < TWO_64 && id < 0x1_0000_0000
      modifies this`log, this`txSeq, byID[id]
      ensures Valid() && verdict == AdmitPut(old(byID[id].View()), pkIdx, rowID, row, mustExist).0
      ensures logged == (verdict.Admit? && taken >= 3)
      ensures Tabs() == old(Tabs())[id := AfterPut(old(byID[id].View()), pkIdx, rowID, row, mustExist, logged)]
      ensures txSeq == (if verdict.Admit? then old(txSeq) + 1 else old(txSeq))
      ensures log == old(log) + PutRecords(txSeq, id, verdict, taken)
    {
      ghost var tabs, was := Tabs(), byID[id].View();
      AfterAdmission(was, pkIdx, rowID, row, mustExist);
      verdict := CheckPut(id, pkIdx, rowID, row, mustExist);
      ghost var mid := byID[id].View();
      logged := false;
      assert log + [] == log;
      if verdict.Admit? {
        logged := LogPut(id, verdict.id, verdict.row, taken);
        Overwrite(tabs, id, mid, ApplyChecked(mid, PutRow(verdict.id, verdict.row)));
      }
      assert Tabs() == tabs[id := AfterPut(was, pkIdx, rowID, row, mustExist, logged)];
    }

    method CheckPut(id: nat, pkIdx: int, rowID: int64, row: Row, mustExist: bool) returns (verdict: Admission)
      requires Valid() && id in byID
      modifies byID[id]
      ensures Valid() && verdict == AdmitPut(old(byID[id].View()), pkIdx, rowID, row, mustExist).0
      ensures verdict.Admit? ==> Indexable(byID[id].cols, verdict.row)
      ensures byID[id].View() == AdmitPut(old(byID[id].View()), pkIdx, rowID, row, mustExist).1
      ensures Tabs() == old(Tabs())[id := byID[id].View()]
    {
      var t := byID[id];
      verdict := t.Admission(pkIdx, rowID, row, mustExist);
      OneTableChanged(id);
    }

    method LogPut(id: nat, rowID: int64, row: Row, taken: nat) returns (logged: bool)
      requires Valid() && id in byID && txSeq + 1 < TWO_64 && id < 0x1_0000_0000 && Indexable(byID[id].cols, row)
      modifies this`log, this`txSeq, byID[id]
      ensures Valid() && logged == (taken >= 3) && txSeq == old(txSeq) + 1
      ensures Tabs() ==
        if logged then old(Tabs())[id := ApplyChecked(old(byID[id].View()), PutRow(rowID, row))] else old(Tabs())
      ensures log == old(log) + PutRecords(txSeq, id, Admit(rowID, row), taken)
    {
      logged := LogTxn(id, PutRow(rowID, row), taken);
      if logged {
        byID[id].StoreRow(rowID, row);
        OneTableChanged(id);
      }
    }

    /** `Delete` by row id: is there such a row, and was the deletion logged? */
    method Delete(name: string, rowID: int64, taken: nat) returns (found: bool, logged: bool)
      requires Valid() && txSeq + 1 < TWO_64 && nextTableID <= 0x1_0000_0000
      modifies this`log, this`txSeq, byID.Values
      ensures Valid() && found == (name in ids && rowID in old(byID[ids[name]].rows)) && logged == (found && taken >= 3)
      ensures Tabs() ==
        if logged then old(Tabs())[ids[name] := ApplyOp(old(byID[ids[name]].View()), DelRow(rowID))] else old(Tabs())
      ensures found ==>
        var recs := TxnRecords(old(txSeq) + 1, ids[name], DelRow(rowID));
        txSeq == old(txSeq) + 1 && log == old(log) + if logged then recs else recs[..taken]
      ensures !found ==> log == old(log) && txSeq == old(txSeq)
    {
      if name !in ids { return false, false; }
      var id := ids[name];
      var t := byID[id];
      found := rowID in t.rows;
      if !found { return found, false; }
      logged := LogTxn(id, DelRow(rowID), taken);
      if logged {
        t.ApplyDelete(rowID);
        OneTableChanged(id);
      }
    }

    // --- DDL -----------------------------------------------------------------------------------------

    /** `CreateTable` of a valid definition: refused if the name is taken, else logged and added; if an
        append fails, nothing is added. */
    method CreateTable(name: string, cols: seq<Column>, taken: nat) returns (ok: bool)
      requires Valid() && txSeq + 1 < TWO_64
      modifies this`ids, this`byID, this`nextTableID, this`log, this`txSeq
      ensures Valid() && fresh(byID.Values - old(byID.Values)) && ok == (name !in old(ids) && taken >= 3)
      ensures View() == if ok then EngineModel.AddTable(old(View()), name, cols) else old(View())
      ensures
        var r := Create(old(txSeq) + 1, SchemaChange(true, name, cols));
        if name in old(ids) then log == old(log) && txSeq == old(txSeq)
        else txSeq == old(txSeq) + 1 && log == old(log) + DdlRecords(r, taken)
    {
      if name in ids { return false; }
      ok := LogDdl(Create(txSeq + 1, SchemaChange(true, name, cols)), taken);
      if ok { AddTable(name, cols); }
    }

    /** `DropTable`. */
    method DropNamed(name: string, taken: nat) returns (ok: bool)
      requires Valid() && txSeq + 1 < TWO_64
      modifies this`ids, this`byID, this`log, this`txSeq
      ensures Valid() && byID.Values <= old(byID.Values) && ok == (name in old(ids) && taken >= 3)
      ensures View() == if ok then RemoveTable(old(View()), name) else old(View())
      ensures
        var r := Drop(old(txSeq) + 1, SchemaChange(false, name, []));
        if name !in old(ids) then log == old(log) && txSeq == old(txSeq)
        else txSeq == old(txSeq) + 1 && log == old(log) + DdlRecords(r, taken)
    {
      if name !in ids { return false; }
      ok := LogDdl(Drop(txSeq + 1, SchemaChange(false, name, [])), taken);
      if ok { DropTable(name); }
    }

    method LogDdl(r: Record, taken: nat) returns (ok: bool)
      requires Valid() && txSeq + 1 < TWO_64 && r.txn == txSeq + 1
      modifies this`log, this`txSeq
      ensures Valid() && View() == old(View()) && ok == (taken >= 3)
      ensures txSeq == old(txSeq) + 1 && log == old(log) + DdlRecords(r, taken)
    {
      txSeq := txSeq + 1;
      assert Valid() && View() == old(View());
      ok := LogAll([Begin(txSeq), r, Commit(txSeq)], taken);
    }
  }

  function DdlRecords(r: Record, taken: nat): Log {
    var recs := [Begin(r.txn), r, Commit(r.txn)];
    if taken >= 3 then recs else recs[..taken]
  }

  /** The table after a put whose log records were all taken, or not. */
  function AfterPut(t: TableState, pkIdx: int, rowID: int64, row: Row, mustExist: bool, logged: bool): TableState {
    if logged then PutState(t, pkIdx, rowID, row, mustExist) else AdmitPut(t, pkIdx, rowID, row, mustExist).1
  }

  lemma Overwrite(tabs: map<nat, TableState>, id: nat, a: TableState, b: TableState)
    ensures tabs[id := a][id := b] == tabs[id := b]
  {
  }

  lemma AfterAdmission(t: TableState, pkIdx: int, rowID: int64, row: Row, mustExist: bool)
    ensures
      var (verdict, mid) := AdmitPut(t, pkIdx, rowID, row, mustExist);
      && AfterPut(t, pkIdx, rowID, row, mustExist, false) == mid
      && (verdict.Admit? ==>
           AfterPut(t, pkIdx, rowID, row, mustExist, true) == ApplyChecked(mid, PutRow(verdict.id, verdict.row)))
  {
  }

  /** What a put leaves in the log: nothing if it is refused, else as many of its records as are taken. */
  function PutRecords(tx: nat, table: nat, verdict: Admission, taken: nat): Log
    requires tx < TWO_64 && table < 0x1_0000_0000
  {
    if verdict.Reject? then []
    else
      var recs := TxnRecords(tx, table, PutRow(verdict.id, verdict.row));
      if taken >= 3 then recs else recs[..taken]
  }

  function TxnRecords(tx: uint64, table: uint32, op: RowOp): Log {
    [Begin(tx), RowRecord(tx, table, op), Commit(tx)]
  }

  /** Replay has reached record i: what is applied gave `now`, what waits is in p. */
  predicate ReplayInv(start: EngineState, now: EngineState, p: Progress, recs: Log, i: nat) {
    && i <= |recs| && FitsAll(start, Replayed(recs))
    && RunLog(Progress(map[], []), recs) == RunLog(p, recs[i..])
    && ApplyAll(start, p.applied) == Some(now)
    && (i == |recs| ==> Replayed(recs) == p.applied)
  }

  lemma ReplayStarts(start: EngineState, recs: Log)
    requires FitsAll(start, Replayed(recs))
    ensures ReplayInv(start, start, Progress(map[], []), recs, 0)
  {
    assert recs[0..] == recs;
  }

  lemma ReplayOther(start: EngineState, now: EngineState, p: Progress, recs: Log, i: nat)
    requires ReplayInv(start, now, p, recs, i) && i < |recs| && !recs[i].Commit?
    ensures ReplayInv(start, now, StepLog(p, recs[i]), recs, i + 1)
  {
    assert recs[i..][0] == recs[i] && recs[i..][1..] == recs[i + 1..];
  }

  lemma ReplayCommit(start: EngineState, now: EngineState, p: Progress, recs: Log, i: nat)
    requires ReplayInv(start, now, p, recs, i) && i < |recs| && recs[i].Commit?
    ensures
      var ops := Waiting(p.pending, recs[i].txn);
      && FitsAll(now, ops)
      && (ApplyAll(now, ops).None? ==> ApplyAll(start, Replayed(recs)).None?)
      && (ApplyAll(now, ops).Some? ==> ReplayInv(start, ApplyAll(now, ops).value, StepLog(p, recs[i]), recs, i + 1))
  {
    assert recs[i..][0] == recs[i] && recs[i..][1..] == recs[i + 1..];
    var ops, p' := Waiting(p.pending, recs[i].txn), StepLog(p, recs[i]);
    var more := AppliedGrows(p', recs[i + 1..]);
    CommitFits(start, now, p.applied, ops, more);
  }

  /** Applying one more committed transaction in the middle of a replay. */
  lemma CommitFits(start: EngineState, now: EngineState, applied: seq<Record>, ops: seq<Record>, more: seq<Record>)
    requires ApplyAll(start, applied) == Some(now) && FitsAll(start, applied + ops + more)
    ensures FitsAll(now, ops)
    ensures ApplyAll(start, applied + ops) == ApplyAll(now, ops)
    ensures ApplyAll(now, ops).None? ==> ApplyAll(start, applied + ops + more).None?
  {
    ApplyAllConcat(start, applied, ops);
    ApplyAllConcat(start, applied + ops, more);
    FitsConcat(start, applied + ops, more);
    FitsConcat(start, applied, ops);
  }
}
