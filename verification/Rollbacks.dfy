/** How a transaction ends without a COMMIT, and what is left of it. */
module Rollbacks {
  import opened Values
  import opened Tables
  import opened WalCodec
  import opened Schema
  import opened EngineModel
  import opened Checkpoints
  import opened TxnModel
  import opened Sessions

  // --- the end of one transaction ---------------------------------------------------------------------

  /** ROLLBACK, a text that does not parse, DDL, and losing the client. */
  predicate Ends(m: Message) { m.RollbackMsg? || m.Malformed? || m.Ddl? || m.Disconnect? }

  /** Each of them ends the transaction on the spot: the engine is untouched, and no later message,
      COMMIT included, reaches the transaction any more. */
  lemma EndingMessage(s: Session, m: Message, later: seq<Message>)
    requires s.txn.Some? && Ends(m)
    ensures RunTxn(s, [m] + later) == Session(s.e, None)
    ensures !Commits(s, [m] + later)
  {
    assert ([m] + later)[1..] == later;
  }

  /** So does a COMMIT that is refused. */
  lemma RefusedCommit(s: Session, later: seq<Message>)
    requires s.txn.Some? && !CommitOk(s.e, s.txn.value)
    ensures RunTxn(s, [CommitMsg] + later) == Session(s.e, None)
    ensures !Commits(s, [CommitMsg] + later)
  {
    assert ([CommitMsg] + later)[1..] == later;
  }

  /** So does a statement that fails, whatever it has done before; only id counters may have moved.
      One that succeeds leaves the transaction open. */
  lemma FailedStatement(s: Session, calls: seq<Call>, fails: bool, later: seq<Message>)
    requires s.txn.Some?
    ensures
      var m, failed := Statement(calls, fails), fails || RunCalls(s.e, s.txn.value, calls).error.Some?;
      && SameEngine(InTxn(s, m).e, s.e)
      && InTxn(s, m).txn.None? == failed
      && (failed ==> RunTxn(s, [m] + later) == InTxn(s, m) && !Commits(s, [m] + later))
  {
    var m := Statement(calls, fails);
    assert ([m] + later)[0] == m && ([m] + later)[1..] == later;
    CallsKeepEngine(s.e, s.txn.value, calls);
  }

  // --- whole connections ---------------------------------------------------------------------------------

  /** A message, and the id the engine would give a transaction begun by it. */
  datatype Arrival = Arrival(m: Message, tx: uint64)

  function Handle(s: Session, a: Arrival): Session {
    if s.txn.Some? then InTxn(s, a.m) else Idle(s, a.m, a.tx)
  }

  function RunAll(s: Session, arrivals: seq<Arrival>): Session
    decreases |arrivals|
  {
    if arrivals == [] then s else RunAll(Handle(s, arrivals[0]), arrivals[1..])
  }

  function Messages(arrivals: seq<Arrival>): (msgs: seq<Message>)
    ensures |msgs| == |arrivals| && forall i :: 0 <= i < |msgs| ==> msgs[i] == arrivals[i].m
  {
    seq(|arrivals|, i requires 0 <= i < |arrivals| => arrivals[i].m)
  }

  lemma {:induction false} RunAllAppend(s: Session, a: seq<Arrival>, b: seq<Arrival>)
    ensures RunAll(s, a + b) == RunAll(RunAll(s, a), b)
    decreases |a|
  {
    if a == [] {
      assert a + b == b;
    } else {
      assert (a + b)[0] == a[0] && (a + b)[1..] == a[1..] + b;
      RunAllAppend(Handle(s, a[0]), a[1..], b);
    }
  }

  /** Where the transaction ends: the number of messages it takes, all of them if it stays open. */
  function Extent(s: Session, msgs: seq<Message>): (n: nat)
    requires s.txn.Some?
    ensures n <= |msgs|
    decreases |msgs|
  {
    if msgs == [] then 0
    else if InTxn(s, msgs[0]).txn.None? then 1
    else 1 + Extent(InTxn(s, msgs[0]), msgs[1..])
  }

  /** Up to there the connection runs the transaction; afterwards the messages are handled on an idle
      connection, each statement taking effect at once. */
  lemma {:induction false} AfterTheEnd(s: Session, arrivals: seq<Arrival>)
    requires s.txn.Some?
    ensures
      var n, end := Extent(s, Messages(arrivals)), RunTxn(s, Messages(arrivals));
      && RunAll(s, arrivals) == RunAll(end, arrivals[n..])
      && (end.txn.Some? ==> n == |arrivals|)
    decreases |arrivals|
  {
    if arrivals != [] {
      var msgs, s' := Messages(arrivals), InTxn(s, arrivals[0].m);
      assert Messages(arrivals[1..]) == msgs[1..];
      if s'.txn.Some? {
        AfterTheEnd(s', arrivals[1..]);
        assert arrivals[1..][Extent(s', msgs[1..])..] == arrivals[Extent(s, msgs)..];
      }
    }
  }

  /** The transaction BEGIN opens. */
  function Begun(s: Session, tx: uint64): Session { Session(s.e, Some(TxnState(tx, [], map[], false))) }

  /** BEGIN, messages, ROLLBACK, COMMIT. */
  function RolledBack(tx: uint64, body: seq<Arrival>, r: uint64, c: uint64): seq<Arrival> {
    [Arrival(BeginMsg, tx)] + (body + [Arrival(RollbackMsg, r), Arrival(CommitMsg, c)])
  }

  lemma RunRolledBack(s: Session, tx: uint64, body: seq<Arrival>, r: uint64, c: uint64)
    requires s.txn.None?
    ensures
      var end := RunAll(Begun(s, tx), body);
      RunAll(s, RolledBack(tx, body, r, c)) == Session(end.e, None)
  {
    var tail := [Arrival(RollbackMsg, r), Arrival(CommitMsg, c)];
    var all := RolledBack(tx, body, r, c);
    assert all[0] == Arrival(BeginMsg, tx) && all[1..] == body + tail;
    RunAllAppend(Begun(s, tx), body, tail);
    var end := RunAll(Begun(s, tx), body);
    assert tail[1..] == [Arrival(CommitMsg, c)];
    assert Handle(end, tail[0]) == Session(end.e, None);
    assert RunAll(Session(end.e, None), tail[1..]) == Session(end.e, None);
  }

  /** BEGIN, messages, ROLLBACK and a late COMMIT leave every table as it was if and only if the messages
      behind the one that ended the transaction, run on a connection of their own, leave every table as
      it was. If the transaction was still open at the ROLLBACK there are none. */
  lemma RollbackLeavesNoTrace(s: Session, tx: uint64, body: seq<Arrival>, r: uint64, c: uint64)
    requires s.txn.None? && !Commits(Begun(s, tx), Messages(body))
    ensures
      var after := RunAll(s, RolledBack(tx, body, r, c));
      var end := RunTxn(Begun(s, tx), Messages(body));
      var late := body[Extent(Begun(s, tx), Messages(body))..];
      && after.txn.None?
      && SameEngine(end.e, s.e)
      && (end.txn.Some? ==> late == [] && SameEngine(after.e, s.e))
      && (SameEngine(after.e, s.e) <==> SameEngine(RunAll(end, late).e, end.e))
  {
    var open := Begun(s, tx);
    var end := RunTxn(open, Messages(body));
    RunRolledBack(s, tx, body, r, c);
    OpenTxnIsInvisible(open, Messages(body));
    AfterTheEnd(open, body);
    var after := RunAll(open, body);
    SameIsEquivalence(after.e, end.e, s.e);
    SameIsEquivalence(after.e, s.e, end.e);
    SameIsEquivalence(end.e, s.e, end.e);
  }

  /** An error does not make the server skip to the ROLLBACK: what follows it is autocommitted. BEGIN; an
      error; INSERT; ROLLBACK leaves the row. */
  lemma ErrorThenInsertStays(s: Session, t: TableState, name: string, row: Row, tx: uint64)
    requires s.txn.None? && TableNamed(s.e, name) == Some(t) && |row| == |t.cols| && 7 !in t.rows && t.uniq == map[]
    ensures
      var body := [Arrival(Malformed, tx), Arrival(Statement([Insert(name, 7, -1, row)], false), tx)];
      && !Commits(Begun(s, tx), Messages(body))
      && 7 in CommittedRows(RunAll(s, RolledBack(tx, body, tx, tx)).e, name)
      && 7 !in CommittedRows(s.e, name)
  {
    var insert := Insert(name, 7, -1, row);
    var body := [Arrival(Malformed, tx), Arrival(Statement([insert], false), tx)];
    RunRolledBack(s, tx, body, tx, tx);
    assert Handle(Begun(s, tx), body[0]) == s;
    assert body[1..][0] == body[1] && body[1..][1..] == [];
    assert [insert][1..] == [];
    assert AutoCalls(s.e, [insert]) == AutoCall(s.e, insert);
    var end := Session(AutoCall(s.e, insert).e, None);
    assert Handle(s, body[1]) == end && RunAll(end, []) == end;
    assert RunAll(s, body[1..]) == end;
  }
}
