/** One client connection: BEGIN, COMMIT, ROLLBACK, statements, errors and disconnects. */
module Sessions {
  import opened Values
  import opened Tables
  import opened WalCodec
  import opened EngineModel
  import opened Checkpoints
  import opened TxnModel

  /** What arrives on a connection. A statement is the calls it makes on its accessor, and whether it
      fails for a reason of its own; a SELECT makes none. */
  datatype Message =
    | BeginMsg | CommitMsg | RollbackMsg
    | Statement(calls: seq<Call>, fails: bool)
    | Ddl(change: SchemaChange)  // CREATE TABLE of a valid definition, or DROP TABLE
    | Malformed
    | Disconnect

  datatype Session = Session(e: EngineState, txn: Option<TxnState>)

  /** A statement's calls in order, up to the first error. */
  function RunCalls(e: EngineState, t: TxnState, calls: seq<Call>): CallResult
    decreases |calls|
  {
    if calls == [] then CallResult(e, t, None)
    else
      var r := DoCall(e, t, calls[0]);
      if r.error.Some? then r else RunCalls(r.e, r.t, calls[1..])
  }

  /** One message while a transaction is open. Every error aborts it, as does losing the client. */
  function InTxn(s: Session, m: Message): Session
    requires s.txn.Some?
  {
    var t := s.txn.value;
    match m
    case BeginMsg => s
    case CommitMsg => if CommitOk(s.e, t) then Session(Committed(s.e, t), None) else s.(txn := None)
    case Statement(calls, fails) =>
      var r := RunCalls(s.e, t, calls);
      if r.error.Some? || fails then Session(r.e, None) else Session(r.e, Some(r.t))
    case _ => s.(txn := None)
  }

  /** The messages of one transaction, up to its end. */
  function RunTxn(s: Session, msgs: seq<Message>): Session
    decreases |msgs|
  {
    if msgs == [] || s.txn.None? then s else RunTxn(InTxn(s, msgs[0]), msgs[1..])
  }

  /** Some COMMIT among the messages succeeds. */
  predicate Commits(s: Session, msgs: seq<Message>)
    decreases |msgs|
  {
    && msgs != [] && s.txn.Some?
    && ((msgs[0].CommitMsg? && CommitOk(s.e, s.txn.value)) || Commits(InTxn(s, msgs[0]), msgs[1..]))
  }

  lemma {:induction false} CallsKeepEngine(e: EngineState, t: TxnState, calls: seq<Call>)
    ensures SameEngine(RunCalls(e, t, calls).e, e)
    decreases |calls|
  {
    SameAsItself(e);
    if calls != [] {
      CallKeepsEngine(e, t, calls[0]);
      var r := DoCall(e, t, calls[0]);
      if r.error.None? {
        CallsKeepEngine(r.e, r.t, calls[1..]);
        SameIsEquivalence(RunCalls(e, t, calls).e, r.e, e);
      }
    }
  }

  /** Until a COMMIT succeeds, no sequence of messages changes committed rows, definitions or
      indexes; only id counters may move. */
  lemma {:induction false} OpenTxnIsInvisible(s: Session, msgs: seq<Message>)
    requires s.txn.Some? && !Commits(s, msgs)
    ensures SameEngine(RunTxn(s, msgs).e, s.e)
    decreases |msgs|
  {
    SameAsItself(s.e);
    if msgs != [] {
      var s' := InTxn(s, msgs[0]);
      if msgs[0].Statement? { CallsKeepEngine(s.e, s.txn.value, msgs[0].calls); }
      if s'.txn.Some? {
        OpenTxnIsInvisible(s', msgs[1..]);
        SameIsEquivalence(RunTxn(s, msgs).e, s'.e, s.e);
      }
    }
  }

  /** Every counter of e can go up by n without wrapping. */
  predicate Below(e: EngineState, n: nat) { forall t :: t in e.tabs ==> e.tabs[t].nextID + n <= MAX_INT64 }

  /** The counters have gone up from a to b, by at most n. */
  predicate Grown(a: EngineState, b: EngineState, n: nat) {
    a.tabs.Keys == b.tabs.Keys && forall t :: t in a.tabs ==>
      a.tabs[t].nextID <= b.tabs[t].nextID <= a.tabs[t].nextID + n
  }

  function CallCount(msgs: seq<Message>): nat {
    if msgs == [] then 0 else (if msgs[0].Statement? then |msgs[0].calls| else 0) + CallCount(msgs[1..])
  }

  lemma CallGrows(e: EngineState, t: TxnState, c: Call)
    requires Below(e, 1)
    ensures Grown(e, DoCall(e, t, c).e, 1)
  {
  }

  lemma {:induction false} CallsGrow(e: EngineState, t: TxnState, calls: seq<Call>)
    requires Below(e, |calls|)
    ensures Grown(e, RunCalls(e, t, calls).e, |calls|)
    decreases |calls|
  {
    if calls != [] {
      CallGrows(e, t, calls[0]);
      var r := DoCall(e, t, calls[0]);
      if r.error.None? { CallsGrow(r.e, r.t, calls[1..]); }
    }
  }

  /** Below the largest int64 the counters only go up, by at most one for each call. */
  lemma {:induction false} OpenTxnGrowsCounters(s: Session, msgs: seq<Message>)
    requires s.txn.Some? && !Commits(s, msgs) && Below(s.e, CallCount(msgs))
    ensures Grown(s.e, RunTxn(s, msgs).e, CallCount(msgs))
    decreases |msgs|
  {
    if msgs != [] {
      var s' := InTxn(s, msgs[0]);
      if msgs[0].Statement? { CallsGrow(s.e, s.txn.value, msgs[0].calls); }
      if s'.txn.Some? { OpenTxnGrowsCounters(s', msgs[1..]); }
    }
  }

  /** A successful COMMIT installs exactly what the transaction saw, in every table at once. */
  lemma CommitIsAtomic(s: Session, name: string)
    requires s.txn.Some? && Healthy(s.e) && Named(s.e) && CommitOk(s.e, s.txn.value) && name in s.e.ids
    ensures
      var s' := InTxn(s, CommitMsg);
      && s'.txn.None? && Healthy(s'.e)
      && CommittedRows(s'.e, name) == Overlay(CommittedRows(s.e, name), s.txn.value.ops, name)
  {
    CommitInstallsOverlay(s.e, s.txn.value, name);
  }

  // --- autocommit ---------------------------------------------------------------------------------------

  datatype AutoResult = AutoResult(e: EngineState, ok: bool)

  /** The same call with the engine itself as accessor: it takes effect at once. */
  function AutoCall(e: EngineState, c: Call): AutoResult {
    var table := TableNamed(e, c.name);
    if table.None? then AutoResult(e, false)
    else
      var t, id := table.value, e.ids[c.name];
      match c
      case Insert(_, rowID, pkIdx, row) =>
        AutoResult(e.(tabs := e.tabs[id := PutState(t, pkIdx, rowID, row, false)]),
                   AdmitPut(t, pkIdx, rowID, row, false).0.Admit?)
      case Update(_, rowID, row) =>
        AutoResult(e.(tabs := e.tabs[id := PutState(t, -1, rowID, row, true)]),
                   AdmitPut(t, -1, rowID, row, true).0.Admit?)
      case Remove(_, rowID) =>
        AutoResult(e.(tabs := e.tabs[id := ApplyOp(t, DelRow(rowID))]), rowID in t.rows)
  }

  function AutoCalls(e: EngineState, calls: seq<Call>): AutoResult
    decreases |calls|
  {
    if calls == [] then AutoResult(e, true)
    else
      var r := AutoCall(e, calls[0]);
      if !r.ok then r else AutoCalls(r.e, calls[1..])
  }

  /** The catalog after CREATE TABLE or DROP TABLE; a taken or unknown name is an error and changes
      nothing. */
  function ChangeCatalog(e: EngineState, ch: SchemaChange): EngineState {
    ApplyRecord(e, if ch.create then Create(0, ch) else Drop(0, ch)).value
  }

  /** One message on an idle connection. A failing statement keeps what it did so far. */
  function Idle(s: Session, m: Message, nextTx: nat): Session
    requires s.txn.None? && nextTx < TWO_64
  {
    match m
    case BeginMsg => s.(txn := Some(TxnState(nextTx, [], map[], false)))
    case Statement(calls, _) => s.(e := AutoCalls(s.e, calls).e)
    case Ddl(change) => s.(e := ChangeCatalog(s.e, change))
    case _ => s
  }

  lemma AutoCallKeepsHealth(e: EngineState, c: Call)
    requires Healthy(e)
    ensures Healthy(AutoCall(e, c).e)
  {
    if TableNamed(e, c.name).Some? {
      var t := TableNamed(e, c.name).value;
      match c
      case Insert(_, rowID, pkIdx, row) => PutKeepsIndex(t, pkIdx, rowID, row, false);
      case Update(_, rowID, row) => PutKeepsIndex(t, -1, rowID, row, true);
      case Remove(_, rowID) => DeleteKeepsIndex(t, rowID);
    }
  }

  /** A statement outside a transaction, failing or not, leaves every UNIQUE index exact. */
  lemma {:induction false} AutocommitKeepsHealth(e: EngineState, calls: seq<Call>)
    requires Healthy(e)
    ensures Healthy(AutoCalls(e, calls).e)
    decreases |calls|
  {
    if calls != [] {
      AutoCallKeepsHealth(e, calls[0]);
      if AutoCall(e, calls[0]).ok { AutocommitKeepsHealth(AutoCall(e, calls[0]).e, calls[1..]); }
    }
  }
}
