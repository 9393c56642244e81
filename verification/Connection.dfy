/** The connection object of the server: owns the transaction in flight. */
module Connection {
  import opened Values
  import opened Tables
  import opened WalCodec
  import opened EngineModel
  import opened EngineStore
  import opened TxnModel
  import opened TxnStore
  import opened Sessions

  class Conn {
    const eng: Engine
    var txn: Txn?

    constructor (eng: Engine)
      ensures this.eng == eng && txn == null
    {
      this.eng := eng;
      txn := null;
    }

    ghost predicate Valid()
      reads this, txn, eng, eng.byID.Values
    {
      && eng.Valid()
      && (txn != null ==> txn.e == eng && !txn.done)
    }

    ghost function State(): Session
      reads this, txn, eng, eng.byID.Values
    {
      Session(eng.View(), if txn == null then None else Some(txn.State()))
    }

    /** The executor working through the transaction: its calls, up to the first error. */
    method RunInTxn(t: Txn, calls: seq<Call>) returns (error: Option<CallError>)
      requires eng.Valid() && t.e == eng
      modifies t`ops, t`inserts, eng.byID.Values`nextID
      ensures eng.Valid()
      ensures CallResult(eng.View(), t.State(), error) == RunCalls(old(eng.View()), old(t.State()), calls)
    {
      for i := 0 to |calls|
        invariant eng.Valid()
        invariant RunCalls(old(eng.View()), old(t.State()), calls) == RunCalls(eng.View(), t.State(), calls[i..])
      {
        assert calls[i..][0] == calls[i] && calls[i..][1..] == calls[i + 1..];
        match calls[i] {
          case Insert(name, rowID, pkIdx, row) => error := t.Insert(name, rowID, pkIdx, row);
          case Update(name, rowID, row) => error := t.Update(name, rowID, row);
          case Remove(name, rowID) => error := t.Remove(name, rowID);
        }
        if error.Some? { return; }
      }
      error := None;
    }

    /** `fail` and the disconnect rule: an error aborts the transaction in flight. */
    method Abort()
      requires Valid()
      modifies this`txn, txn
      ensures Valid() && State() == old(State()).(txn := None)
    {
      if txn != null {
        ghost var was := eng.View();
        txn.Rollback();
        assert eng.Valid() && eng.View() == was;
        Forget();
      }
    }

    method Forget()
      requires eng.Valid()
      modifies this`txn
      ensures txn == null && eng.Valid() && eng.View() == old(eng.View())
    {
      txn := null;
    }

    method RunCommit()
      requires Valid() && txn != null && txn.RowsFit() && forall n :: n in eng.ids ==> eng.ids[n] < 0x1_0000_0000
      modifies this`txn, txn, eng`log, eng.byID.Values
      ensures Valid() && State() == InTxn(old(State()), CommitMsg)
    {
      ghost var was, state := eng.View(), txn.State();
      var error := txn.Commit(|txn.ops| + 1);
      assert eng.View() == if CommitOk(was, state) then Committed(was, state) else was;
      if error.Some? {
        Abort();
      } else {
        Forget();
      }
    }

    /** `runQuery` with a transaction in flight, and what `handle` does when the client goes away. */
    method HandleInTxn(m: Message)
      requires Valid() && txn != null && txn.RowsFit() && forall n :: n in eng.ids ==> eng.ids[n] < 0x1_0000_0000
      modifies this`txn, txn, eng`log, eng.byID.Values
      ensures Valid() && State() == InTxn(old(State()), m)
    {
      match m
      case BeginMsg =>  // a second BEGIN changes nothing
      case CommitMsg => RunCommit();
      case Statement(calls, fails) =>
        var error := RunInTxn(txn, calls);
        if error.Some? || fails { Abort(); }
      case _ => Abort();
    }

    /** The executor working on the engine directly: its calls, up to the first error. */
    method RunAuto(calls: seq<Call>) returns (ok: bool)
      requires eng.Valid() && eng.txSeq + |calls| < TWO_64 && eng.nextTableID <= 0x1_0000_0000
      modifies eng`log, eng`txSeq, eng.byID.Values
      ensures eng.Valid()
      ensures AutoResult(eng.View(), ok) == AutoCalls(old(eng.View()), calls)
    {
      for i := 0 to |calls|
        invariant eng.Valid() && eng.txSeq + |calls| - i < TWO_64
        invariant AutoCalls(old(eng.View()), calls) == AutoCalls(eng.View(), calls[i..])
      {
        assert calls[i..][0] == calls[i] && calls[i..][1..] == calls[i + 1..];
        ok := RunAutoCall(calls[i]);
        if !ok { return; }
      }
      ok := true;
    }

    method RunAutoCall(c: Call) returns (ok: bool)
      requires eng.Valid() && eng.txSeq + 1 < TWO_64 && eng.nextTableID <= 0x1_0000_0000
      modifies eng`log, eng`txSeq, eng.byID.Values
      ensures eng.Valid() && eng.txSeq <= old(eng.txSeq) + 1
      ensures AutoResult(eng.View(), ok) == AutoCall(old(eng.View()), c)
    {
      match c
      case Insert(name, rowID, pkIdx, row) =>
        var _, logged := eng.Put(name, pkIdx, rowID, row, false, 3);
        ok := logged;
      case Update(name, rowID, row) =>
        var _, logged := eng.Put(name, -1, rowID, row, true, 3);
        ok := logged;
      case Remove(name, rowID) =>
        if rowID !in CommittedRows(eng.View(), name) { MissingRowStays(eng.View(), name, rowID); }
        var found, _ := eng.Delete(name, rowID, 3);
        ok := found;
    }

    method RunDdl(change: SchemaChange)
      requires eng.Valid() && eng.txSeq + 1 < TWO_64
      modifies eng`ids, eng`byID, eng`nextTableID, eng`log, eng`txSeq
      ensures eng.Valid() && fresh(eng.byID.Values - old(eng.byID.Values))
      ensures eng.View() == ChangeCatalog(old(eng.View()), change)
    {
      if change.create {
        var _ := eng.CreateTable(change.name, change.cols, 3);
      } else {
        var _ := eng.DropNamed(change.name, 3);
      }
    }

    /** `runQuery` on an idle connection. */
    method HandleIdle(m: Message)
      requires Valid() && txn == null && eng.nextTableID <= 0x1_0000_0000
      requires eng.txSeq + 1 < TWO_64 && (m.Statement? ==> eng.txSeq + |m.calls| < TWO_64)
      modifies this`txn, eng`ids, eng`byID, eng`nextTableID, eng`log, eng`txSeq, eng.byID.Values
      ensures Valid() && fresh(eng.byID.Values - old(eng.byID.Values))
      ensures State() == Idle(old(State()), m, old(eng.txSeq) + 1)
    {
      match m
      case BeginMsg =>
        eng.txSeq := eng.txSeq + 1;
        txn := new Txn(eng, eng.txSeq);
      case Statement(calls, _) =>
        var _ := RunAuto(calls);
      case Ddl(change) => RunDdl(change);
      case _ =>
    }
  }

  lemma MissingRowStays(e: EngineState, name: string, rowID: int64)
    requires rowID !in CommittedRows(e, name)
    ensures AutoCall(e, Remove(name, rowID)) == AutoResult(e, false)
  {
    if TableNamed(e, name).Some? {
      var t := TableNamed(e, name).value;
      assert t.rows - {rowID} == t.rows;
      assert e.tabs[e.ids[name] := t] == e.tabs;
    }
  }
}
