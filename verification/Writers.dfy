/** Any number of concurrent autocommit writers. Each holds its table's lock from the check through
    the Begin, operation and Commit appends to the in-memory apply; the log mutex covers a commit
    append together with its fsync. */
module Writers {
  import opened Values
  import opened Schema
  import opened UniqueIndex
  import opened Tables
  import opened TableHistory
  import opened WalCodec
  import opened LogReplay
  import opened EngineModel
  import opened Checkpoints

  datatype Request =
    | PutRequest(pkIdx: int, rowID: int64, row: Row, mustExist: bool)
    | DeleteRequest(id: int64)

  /** How far a writer has come with its operation. */
  datatype Stage =
    | Checked
    | Numbered(tx: uint64)  // transaction id drawn
    | Begun(tx: uint64)     // Begin appended
    | Logged(tx: uint64)    // operation appended
    | Written(tx: uint64)   // Commit appended, fsync pending, log mutex held
    | Synced(tx: uint64)    // durable, not yet applied in memory

  datatype Writer = Free | Busy(t: uint32, op: RowOp, stage: Stage)

  datatype Sys = Sys(
    base: EngineState, mem: EngineState, log: Log, synced: nat,
    txSeq: nat, mutex: Option<nat>, writers: map<nat, Writer>)

  datatype Action =
    | Lock(t: uint32, req: Request) | Draw | LogBegin | LogOp | WriteCommit | Sync | Apply | Fail
    | Crash(n: nat)  // the first n records survive, and the database is opened again

  predicate Unlocked(s: Sys, t: nat) {
    forall w :: w in s.writers && s.writers[w].Busy? ==> s.writers[w].t != t
  }

  function SetTable(e: EngineState, t: nat, table: TableState): EngineState { e.(tabs := e.tabs[t := table]) }

  function SetWriter(s: Sys, w: nat, phase: Writer): Sys { s.(writers := s.writers[w := phase]) }

  /** The check under the lock: rejected requests release it at once, but may have moved the counter. */
  function Enter(s: Sys, w: nat, t: uint32, req: Request): Sys
    requires t in s.mem.tabs
  {
    match req
    case PutRequest(pkIdx, rowID, row, mustExist) =>
      var (verdict, table) := AdmitPut(s.mem.tabs[t], pkIdx, rowID, row, mustExist);
      var s1 := s.(mem := SetTable(s.mem, t, table));
      if verdict.Admit? then SetWriter(s1, w, Busy(t, PutRow(verdict.id, verdict.row), Checked)) else s1
    case DeleteRequest(id) =>
      if id in s.mem.tabs[t].rows then SetWriter(s, w, Busy(t, DelRow(id), Checked)) else s
  }

  // One predicate per step; `b` is the writer that moves.

  predicate Locks(s: Sys, w: nat, t: uint32, req: Request, s': Sys) {
    && w in s.writers && s.writers[w].Free?
    && t in s.mem.tabs && Unlocked(s, t) && s' == Enter(s, w, t, req)
  }

  predicate AtStage(s: Sys, w: nat) { w in s.writers && s.writers[w].Busy? }

  /** The hypothesis on transaction ids: the next one is not one that a crash left in the log with
      operations and without a commit record. `LogReplay.ReusedIdIff` says what happens otherwise. */
  predicate NextIdIsClear(s: Sys)
    requires s.txSeq + 1 < TWO_64
  {
    Fragment(Settled(s), s.txSeq + 1) == []
  }

  predicate Draws(s: Sys, w: nat, s': Sys) {
    && AtStage(s, w) && s.writers[w].stage.Checked? && s.txSeq + 1 < TWO_64 && NextIdIsClear(s)
    && var b := s.writers[w];
       s' == SetWriter(s.(txSeq := s.txSeq + 1), w, b.(stage := Numbered(s.txSeq + 1)))
  }

  predicate LogsBegin(s: Sys, w: nat, s': Sys) {
    && AtStage(s, w) && s.writers[w].stage.Numbered? && s.mutex.None?
    && var b := s.writers[w];
       s' == SetWriter(s.(log := s.log + [Begin(b.stage.tx)]), w, b.(stage := Begun(b.stage.tx)))
  }

  predicate LogsOp(s: Sys, w: nat, s': Sys) {
    && AtStage(s, w) && s.writers[w].stage.Begun? && s.mutex.None?
    && var b := s.writers[w];
       s' == SetWriter(s.(log := s.log + [RowRecord(b.stage.tx, b.t, b.op)]), w, b.(stage := Logged(b.stage.tx)))
  }

  predicate WritesCommit(s: Sys, w: nat, s': Sys) {
    && AtStage(s, w) && s.writers[w].stage.Logged? && s.mutex.None?
    && var b := s.writers[w];
       s' == SetWriter(s.(log := s.log + [Commit(b.stage.tx)], mutex := Some(w)), w, b.(stage := Written(b.stage.tx)))
  }

  predicate Syncs(s: Sys, w: nat, s': Sys) {
    && AtStage(s, w) && s.writers[w].stage.Written?
    && var b := s.writers[w];
       s' == SetWriter(s.(synced := |s.log|, mutex := None), w, b.(stage := Synced(b.stage.tx)))
  }

  predicate Applies(s: Sys, w: nat, s': Sys) {
    && AtStage(s, w) && s.writers[w].stage.Synced? && s.writers[w].t in s.mem.tabs
    && var b := s.writers[w];
       s' == SetWriter(s.(mem := SetTable(s.mem, b.t, ApplyChecked(s.mem.tabs[b.t], b.op))), w, Free)
  }

  /** A failing append before the commit record. */
  predicate Fails(s: Sys, w: nat, s': Sys) {
    && AtStage(s, w) && !s.writers[w].stage.Written? && !s.writers[w].stage.Synced?
    && s' == SetWriter(s, w, Free)
  }

  predicate Next(s: Sys, w: nat, a: Action, s': Sys) {
    match a
    case Lock(t, req) => Locks(s, w, t, req, s')
    case Draw => Draws(s, w, s')
    case LogBegin => LogsBegin(s, w, s')
    case LogOp => LogsOp(s, w, s')
    case WriteCommit => WritesCommit(s, w, s')
    case Sync => Syncs(s, w, s')
    case Apply => Applies(s, w, s')
    case Fail => Fails(s, w, s')
    case Crash(n) => Survives(s, n) && Recovered(s, n).Some? && s' == Reopened(s, n)
  }

  // --- crash and recovery ---------------------------------------------------------------------------

  /** A crash keeps every synced record and any part of the rest. */
  predicate Survives(s: Sys, n: nat) { s.synced <= n <= |s.log| }

  function Recovered(s: Sys, n: nat): Option<EngineState>
    requires n <= |s.log|
  {
    ApplyAll(s.base, Replayed(s.log[..n]))
  }

  /** Opening what the crash left: memory comes from the log, transaction ids start over. */
  function Reopened(s: Sys, n: nat): Sys
    requires n <= |s.log| && Recovered(s, n).Some?
  {
    Sys(s.base, Recovered(s, n).value, s.log[..n], n, 0, None, map w | w in s.writers :: Free)
  }

  /** The log without a commit record whose fsync is pending. */
  function Settled(s: Sys): Log { if s.mutex.Some? && s.log != [] then Init(s.log) else s.log }

  // --- the invariant ------------------------------------------------------------------------------------

  type Ws = map<nat, Writer>

  predicate HasTx(w: Writer) { w.Busy? && !w.stage.Checked? }

  /** Two writers never share a table or a transaction id. */
  predicate Apart(a: Writer, b: Writer) {
    && (a.Busy? && b.Busy? ==> a.t != b.t)
    && (HasTx(a) && HasTx(b) ==> a.stage.tx != b.stage.tx)
  }

  predicate AllApart(ws: Ws) { forall a, b :: a in ws && b in ws && a != b ==> Apart(ws[a], ws[b]) }

  predicate IdsBound(ws: Ws, n: nat) { forall a :: a in ws && HasTx(ws[a]) ==> ws[a].stage.tx <= n }

  predicate IsWriting(w: Writer) { w.Busy? && w.stage.Written? }

  /** The log mutex is held exactly by a writer whose commit record is the last one, unsynced. */
  predicate MutexOk(ws: Ws, mutex: Option<nat>, log: Log) {
    && (forall a :: a in ws && IsWriting(ws[a]) ==> mutex == Some(a))
    && (mutex.Some? ==>
         && mutex.value in ws && IsWriting(ws[mutex.value])
         && log != [] && Last(log) == Commit(ws[mutex.value].stage.tx))
  }

  /** Under the id of each writer the log holds what that writer has logged and not committed. Under
      other ids there may be leftovers of failed appends and earlier crashes. */
  predicate Fragments(ws: Ws, log: Log) { forall a :: a in ws ==> FragmentOk(log, ws[a]) }

  predicate FragmentOk(log: Log, w: Writer) {
    HasTx(w) && !w.stage.Synced? ==>
      Fragment(log, w.stage.tx) ==
      if w.stage.Logged? || w.stage.Written? then [RowRecord(w.stage.tx, w.t, w.op)] else []
  }

  /** The operation a writer holds still passes the UNIQUE check on its table. */
  predicate Admissible(tabs: map<nat, TableState>, w: Writer) {
    w.Busy? ==>
      w.t in tabs && (w.op.PutRow? ==> UniqueOk(tabs[w.t].cols, tabs[w.t].rows, w.op.id, w.op.row))
  }

  ghost predicate TablesValid(tabs: map<nat, TableState>) { forall t :: t in tabs ==> ValidIndex(tabs[t]) }

  predicate AllAdmissible(tabs: map<nat, TableState>, ws: Ws) { forall a :: a in ws ==> Admissible(tabs, ws[a]) }

  predicate OwesApply(w: Writer, t: nat) { w.Busy? && w.stage.Synced? && w.t == t }

  predicate Quiet(ws: Ws, t: nat) { forall w :: w in ws ==> !OwesApply(ws[w], t) }

  /** Recovery builds `table` for a table that is `live` in memory: the same, plus the one synced
      operation that is not yet applied. */
  predicate Matches(ws: Ws, t: nat, live: TableState, table: TableState) {
    && (Quiet(ws, t) ==> SameTable(table, live))
    && (forall w :: w in ws && OwesApply(ws[w], t) ==> SameTable(table, ApplyOp(live, ws[w].op)))
  }

  predicate AllMatch(ws: Ws, live: map<nat, TableState>, tabs: map<nat, TableState>) {
    live.Keys == tabs.Keys && forall t :: t in live ==> Matches(ws, t, live[t], tabs[t])
  }

  predicate Durable(s: Sys) {
    var r := ApplyAll(s.base, Replayed(Settled(s)));
    r.Some? && AllMatch(s.writers, s.mem.tabs, r.value.tabs)
  }

  /** Who holds what: tables, transaction ids, the log mutex, and what each writer has logged. */
  ghost predicate Ordered(s: Sys) {
    && AllApart(s.writers) && IdsBound(s.writers, s.txSeq) && MutexOk(s.writers, s.mutex, s.log)
    && Fragments(s.writers, Settled(s))
  }

  /** What memory and the log hold. */
  ghost predicate Stored(s: Sys) {
    && TablesValid(s.mem.tabs) && AllAdmissible(s.mem.tabs, s.writers)
    && s.synced <= |Settled(s)| && NoCommitFrom(Settled(s), s.synced)
    && Durable(s)
  }

  ghost predicate Inv(s: Sys) { Ordered(s) && Stored(s) }

  /** After opening: memory is what the log recovers to and nothing is under way. The log may hold
      operations of transactions that a crash cut short. */
  ghost predicate Start(s: Sys) {
    && (forall w :: w in s.writers ==> s.writers[w].Free?)
    && s.mutex.None? && s.synced == |s.log|
    && TablesValid(s.mem.tabs)
    && ApplyAll(s.base, Replayed(s.log)) == Some(s.mem)
  }

  lemma StartInv(s: Sys)
    requires Start(s)
    ensures Inv(s)
  {
  }

  // --- changing one writer ------------------------------------------------------------------------------

  /** The writer moves on with the same operation, table and transaction id. */
  predicate Advances(b: Writer, b': Writer) {
    && b.Busy? && b'.Busy? && b'.t == b.t && b'.op == b.op
    && (HasTx(b) ==> HasTx(b') && b'.stage.tx == b.stage.tx)
  }

  lemma AdvanceKeepsApart(ws: Ws, w: nat, b: Writer)
    requires AllApart(ws) && w in ws && Advances(ws[w], b)
    requires HasTx(b) && !HasTx(ws[w]) ==>
             forall a :: a in ws && HasTx(ws[a]) ==> ws[a].stage.tx != b.stage.tx
    ensures AllApart(ws[w := b])
  {
    forall a | a in ws && a != w ensures Apart(b, ws[a]) && Apart(ws[a], b) {
      assert Apart(ws[w], ws[a]) && Apart(ws[a], ws[w]);
    }
  }

  lemma FreeKeepsApart(ws: Ws, w: nat)
    requires AllApart(ws) && w in ws
    ensures AllApart(ws[w := Free])
  {
  }

  lemma AdmissibleFrame(tabs: map<nat, TableState>, ws: Ws, w: nat, b: Writer)
    requires AllAdmissible(tabs, ws) && w in ws
    requires b.Free? || Advances(ws[w], b)
    ensures AllAdmissible(tabs, ws[w := b])
  {
  }

  /** As long as a writer neither starts nor stops owing an apply, recovery still matches. */
  lemma MatchFrame(ws: Ws, w: nat, b: Writer, live: map<nat, TableState>, tabs: map<nat, TableState>)
    requires AllMatch(ws, live, tabs) && w in ws
    requires !(ws[w].Busy? && ws[w].stage.Synced?) && !(b.Busy? && b.stage.Synced?)
    ensures AllMatch(ws[w := b], live, tabs)
  {
    var ws' := ws[w := b];
    forall t | t in live ensures Matches(ws', t, live[t], tabs[t]) {
      assert Matches(ws, t, live[t], tabs[t]);
      assert Quiet(ws', t) ==> Quiet(ws, t) by {
        assert forall a :: a in ws && a != w ==> ws'[a] == ws[a];
      }
    }
  }

  /** A step of w touches only the fragment of its own transaction. */
  lemma FragmentsFrame(ws: Ws, w: nat, b: Writer, log: Log, log': Log)
    requires Fragments(ws, log) && AllApart(ws) && w in ws
    requires HasTx(ws[w]) && HasTx(b) && b.stage.tx == ws[w].stage.tx
    requires forall x :: x != b.stage.tx ==> Fragment(log', x) == Fragment(log, x)
    requires FragmentOk(log', b)
    ensures Fragments(ws[w := b], log')
  {
    forall a | a in ws && a != w ensures FragmentOk(log', ws[a]) {
      assert Apart(ws[w], ws[a]) && FragmentOk(log, ws[a]);
    }
  }

  lemma FreshIdApart(ws: Ws, w: nat, b: Writer, n: nat)
    requires AllApart(ws) && IdsBound(ws, n) && w in ws && Advances(ws[w], b) && HasTx(b) && b.stage.tx > n
    ensures AllApart(ws[w := b])
  {
    AdvanceKeepsApart(ws, w, b);
  }

  lemma NoCommitAppend(log: Log, n: nat, r: Record)
    requires NoCommitFrom(log, n) && n <= |log| && !r.Commit?
    ensures n <= |log + [r]| && NoCommitFrom(log + [r], n)
  {
  }

  lemma IdsFrame(ws: Ws, w: nat, b: Writer, n: nat, n': nat)
    requires IdsBound(ws, n) && w in ws && n <= n' && (HasTx(b) ==> b.stage.tx <= n')
    ensures IdsBound(ws[w := b], n')
  {
  }

  /** A writer that neither takes nor holds the log mutex leaves it as it is. */
  lemma MutexFrame(ws: Ws, w: nat, b: Writer, mutex: Option<nat>, log: Log, log': Log)
    requires MutexOk(ws, mutex, log) && w in ws && !IsWriting(ws[w]) && !IsWriting(b)
    requires mutex.None? || log' == log
    ensures MutexOk(ws[w := b], mutex, log')
  {
  }

  /** The drawn id has nothing in the log. */
  lemma FragmentsDraw(ws: Ws, w: nat, b: Writer, log: Log)
    requires Fragments(ws, log) && w in ws && b.Busy? && b.stage.Numbered? && Fragment(log, b.stage.tx) == []
    ensures Fragments(ws[w := b], log)
  {
  }

  /** A writer without an id has nothing to say about the log. */
  lemma FragmentsDrop(ws: Ws, w: nat, b: Writer, log: Log)
    requires Fragments(ws, log) && w in ws && !HasTx(b)
    ensures Fragments(ws[w := b], log)
  {
  }

  // --- every step keeps the invariant -----------------------------------------------------------------------

  lemma DrawKeepsOrder(s: Sys, w: nat, s': Sys)
    requires Inv(s) && Draws(s, w, s')
    ensures Ordered(s')
  {
    var b := s'.writers[w];
    assert Settled(s') == Settled(s);
    FreshIdApart(s.writers, w, b, s.txSeq);
    IdsFrame(s.writers, w, b, s.txSeq, s.txSeq + 1);
    MutexFrame(s.writers, w, b, s.mutex, s.log, s.log);
    FragmentsDraw(s.writers, w, b, Settled(s));
  }

  lemma DrawKeepsInv(s: Sys, w: nat, s': Sys)
    requires Inv(s) && Draws(s, w, s')
    ensures Inv(s')
  {
    var b := s'.writers[w];
    DrawKeepsOrder(s, w, s');
    AdmissibleFrame(s.mem.tabs, s.writers, w, b);
    MatchFrame(s.writers, w, b, s.mem.tabs, ApplyAll(s.base, Replayed(Settled(s))).value.tabs);
  }

  lemma FailKeepsOrder(s: Sys, w: nat, s': Sys)
    requires Inv(s) && Fails(s, w, s')
    ensures Ordered(s')
  {
    FreeKeepsApart(s.writers, w);
    IdsFrame(s.writers, w, Free, s.txSeq, s.txSeq);
    MutexFrame(s.writers, w, Free, s.mutex, s.log, s.log);
    FragmentsDrop(s.writers, w, Free, Settled(s));
  }

  lemma FailKeepsInv(s: Sys, w: nat, s': Sys)
    requires Inv(s) && Fails(s, w, s')
    ensures Inv(s')
  {
    FailKeepsOrder(s, w, s');
    AdmissibleFrame(s.mem.tabs, s.writers, w, Free);
    MatchFrame(s.writers, w, Free, s.mem.tabs, ApplyAll(s.base, Replayed(Settled(s))).value.tabs);
  }

  lemma BeginKeepsOrder(s: Sys, w: nat, s': Sys)
    requires Inv(s) && LogsBegin(s, w, s')
    ensures Ordered(s') && Replayed(s'.log) == Replayed(s.log)
  {
    var b := s'.writers[w];
    AppendBegin(s.log, b.stage.tx);
    AdvanceKeepsApart(s.writers, w, b);
    IdsFrame(s.writers, w, b, s.txSeq, s.txSeq);
    MutexFrame(s.writers, w, b, None, s.log, s'.log);
    assert FragmentOk(s.log, s.writers[w]);
    FragmentsFrame(s.writers, w, b, s.log, s'.log);
  }

  lemma BeginKeepsInv(s: Sys, w: nat, s': Sys)
    requires Inv(s) && LogsBegin(s, w, s')
    ensures Inv(s')
  {
    var b := s'.writers[w];
    BeginKeepsOrder(s, w, s');
    assert Settled(s) == s.log && Settled(s') == s'.log;
    NoCommitAppend(s.log, s.synced, Begin(b.stage.tx));
    AdmissibleFrame(s.mem.tabs, s.writers, w, b);
    MatchFrame(s.writers, w, b, s.mem.tabs, ApplyAll(s.base, Replayed(s.log)).value.tabs);
  }

  lemma OpKeepsOrder(s: Sys, w: nat, s': Sys)
    requires Inv(s) && LogsOp(s, w, s')
    ensures Ordered(s') && Replayed(s'.log) == Replayed(s.log)
  {
    var b := s'.writers[w];
    AppendData(s.log, RowRecord(b.stage.tx, b.t, b.op));
    AdvanceKeepsApart(s.writers, w, b);
    IdsFrame(s.writers, w, b, s.txSeq, s.txSeq);
    MutexFrame(s.writers, w, b, None, s.log, s'.log);
    assert FragmentOk(s.log, s.writers[w]);
    FragmentsFrame(s.writers, w, b, s.log, s'.log);
  }

  lemma OpKeepsInv(s: Sys, w: nat, s': Sys)
    requires Inv(s) && LogsOp(s, w, s')
    ensures Inv(s')
  {
    var b := s'.writers[w];
    OpKeepsOrder(s, w, s');
    assert Settled(s) == s.log && Settled(s') == s'.log;
    NoCommitAppend(s.log, s.synced, RowRecord(b.stage.tx, b.t, b.op));
    AdmissibleFrame(s.mem.tabs, s.writers, w, b);
    MatchFrame(s.writers, w, b, s.mem.tabs, ApplyAll(s.base, Replayed(s.log)).value.tabs);
  }

  lemma WriteKeepsInv(s: Sys, w: nat, s': Sys)
    requires Inv(s) && WritesCommit(s, w, s')
    ensures Inv(s')
  {
    var b := s'.writers[w];
    assert Init(s'.log) == s.log && Settled(s') == s.log;
    AdvanceKeepsApart(s.writers, w, b);
    AdmissibleFrame(s.mem.tabs, s.writers, w, b);
    MatchFrame(s.writers, w, b, s.mem.tabs, ApplyAll(s.base, Replayed(s.log)).value.tabs);
    assert FragmentOk(s.log, s.writers[w]);
  }

  lemma OnlyOwner(ws: Ws, w: nat, t: nat)
    requires AllApart(ws) && w in ws && ws[w].Busy? && ws[w].t == t
    ensures forall a :: a in ws && a != w ==> !OwesApply(ws[a], t)
  {
    forall a | a in ws && a != w ensures !OwesApply(ws[a], t) { assert Apart(ws[w], ws[a]); }
  }

  lemma SyncMatchesOwn(ws: Ws, w: nat, b: Writer, live: TableState, table: TableState)
    requires AllApart(ws) && w in ws && Advances(ws[w], b) && Matches(ws, b.t, live, table)
    requires !ws[w].stage.Synced? && b.stage.Synced?
    ensures Matches(ws[w := b], b.t, live, ApplyOp(table, b.op))
  {
    OnlyOwner(ws, w, b.t);
    assert SameTable(table, live);
    assert OwesApply(ws[w := b][w], b.t);
  }

  lemma MatchesOther(ws: Ws, w: nat, b: Writer, t: nat, live: TableState, table: TableState)
    requires Matches(ws, t, live, table) && w in ws && !OwesApply(ws[w], t) && !OwesApply(b, t)
    ensures Matches(ws[w := b], t, live, table)
  {
    assert forall a :: a in ws && a != w ==> ws[w := b][a] == ws[a];
  }

  /** When the commit record becomes durable, recovery gains exactly the writer's operation. */
  lemma SyncMatches(ws: Ws, w: nat, b: Writer, live: map<nat, TableState>, tabs: map<nat, TableState>)
    requires AllMatch(ws, live, tabs) && AllApart(ws) && w in ws && Advances(ws[w], b)
    requires !ws[w].stage.Synced? && b.stage.Synced? && b.t in live
    ensures AllMatch(ws[w := b], live, tabs[b.t := ApplyOp(tabs[b.t], b.op)])
  {
    var tabs' := tabs[b.t := ApplyOp(tabs[b.t], b.op)];
    assert tabs'.Keys == tabs.Keys;
    forall t | t in live ensures Matches(ws[w := b], t, live[t], tabs'[t]) {
      if t == b.t { SyncMatchesOwn(ws, w, b, live[t], tabs[t]); }
      else { MatchesOther(ws, w, b, t, live[t], tabs[t]); }
    }
  }

  lemma InitLast(log: Log)
    requires log != []
    ensures log == Init(log) + [Last(log)]
  {
  }

  lemma ReplaySynced(base: EngineState, log: Log, w: Writer, r: EngineState)
    requires w.Busy? && w.stage.Written? && FragmentOk(log, w)
    requires ApplyAll(base, Replayed(log)) == Some(r) && w.t in r.tabs
    ensures ApplyAll(base, Replayed(log + [Commit(w.stage.tx)])) == Some(SetTable(r, w.t, ApplyOp(r.tabs[w.t], w.op)))
  {
    var rec := RowRecord(w.stage.tx, w.t, w.op);
    AppendCommit(log, w.stage.tx);
    ApplyAllConcat(base, Replayed(log), [rec]);
    assert [rec][1..] == [];
  }

  lemma SyncKeepsOrder(s: Sys, w: nat, s': Sys)
    requires Inv(s) && Syncs(s, w, s')
    ensures Ordered(s')
  {
    var a, b := s.writers[w], s'.writers[w];
    assert IsWriting(a) && s.mutex == Some(w);
    InitLast(s.log);
    AdvanceKeepsApart(s.writers, w, b);
    IdsFrame(s.writers, w, b, s.txSeq, s.txSeq);
    AppendCommit(Settled(s), b.stage.tx);
    FragmentsFrame(s.writers, w, b, Settled(s), s.log);
  }

  lemma SyncKeepsInv(s: Sys, w: nat, s': Sys)
    requires Inv(s) && Syncs(s, w, s')
    ensures Inv(s')
  {
    var a, b := s.writers[w], s'.writers[w];
    var before := Settled(s);
    SyncKeepsOrder(s, w, s');
    assert IsWriting(a) && s.mutex == Some(w);
    InitLast(s.log);
    AdmissibleFrame(s.mem.tabs, s.writers, w, b);
    AppendCommit(before, b.stage.tx);
    var r := ApplyAll(s.base, Replayed(before)).value;
    assert Admissible(s.mem.tabs, a) && FragmentOk(before, a);
    ReplaySynced(s.base, before, a, r);
    SyncMatches(s.writers, w, b, s.mem.tabs, r.tabs);
  }

  lemma ApplyMatches(ws: Ws, w: nat, live: map<nat, TableState>, tabs: map<nat, TableState>)
    requires AllMatch(ws, live, tabs) && AllApart(ws) && w in ws
    requires ws[w].Busy? && ws[w].stage.Synced? && ws[w].t in live
    ensures AllMatch(ws[w := Free], live[ws[w].t := ApplyChecked(live[ws[w].t], ws[w].op)], tabs)
  {
    var b := ws[w];
    var ws', live' := ws[w := Free], live[b.t := ApplyChecked(live[b.t], b.op)];
    assert live'.Keys == live.Keys;
    forall t | t in live' ensures Matches(ws', t, live'[t], tabs[t]) {
      assert Matches(ws, t, live[t], tabs[t]);
      if t == b.t {
        assert OwesApply(ws[w], t);
        forall a | a in ws' ensures !OwesApply(ws'[a], t) { assert a != w ==> Apart(ws[w], ws[a]); }
      } else {
        assert Quiet(ws', t) ==> Quiet(ws, t) by { assert forall a :: a in ws && a != w ==> ws'[a] == ws[a]; }
      }
    }
  }

  lemma ApplyAdmissible(ws: Ws, w: nat, tabs: map<nat, TableState>, table: TableState)
    requires AllAdmissible(tabs, ws) && AllApart(ws) && w in ws && ws[w].Busy?
    ensures AllAdmissible(tabs[ws[w].t := table], ws[w := Free])
  {
    forall a | a in ws && a != w ensures Admissible(tabs[ws[w].t := table], ws[a]) {
      assert Apart(ws[w], ws[a]) && Admissible(tabs, ws[a]);
    }
  }

  lemma AdmittedKeepsValid(t: TableState, op: RowOp)
    requires ValidIndex(t) && (op.PutRow? ==> UniqueOk(t.cols, t.rows, op.id, op.row))
    ensures ValidIndex(ApplyOp(t, op))
  {
    if op.PutRow? {
      AdmittedIsPutsOk(t, op.id, op.row);
      CommitKeepsIndex(t, [op]);
      RunOne(t, op);
    } else {
      DeleteKeepsIndex(t, op.id);
    }
  }

  lemma ApplyKeepsOrder(s: Sys, w: nat, s': Sys)
    requires Inv(s) && Applies(s, w, s')
    ensures Ordered(s')
  {
    FreeKeepsApart(s.writers, w);
    IdsFrame(s.writers, w, Free, s.txSeq, s.txSeq);
    MutexFrame(s.writers, w, Free, s.mutex, s.log, s.log);
    FragmentsDrop(s.writers, w, Free, Settled(s));
  }

  lemma ApplyKeepsInv(s: Sys, w: nat, s': Sys)
    requires Inv(s) && Applies(s, w, s')
    ensures Inv(s')
  {
    var b := s.writers[w];
    assert Settled(s') == Settled(s);
    ApplyKeepsOrder(s, w, s');
    ApplyAdmissible(s.writers, w, s.mem.tabs, s'.mem.tabs[b.t]);
    assert TablesValid(s'.mem.tabs) by {
      assert Admissible(s.mem.tabs, b);
      AdmittedKeepsValid(s.mem.tabs[b.t], b.op);
      SameTableValid(s'.mem.tabs[b.t], ApplyOp(s.mem.tabs[b.t], b.op));
    }
    ApplyMatches(s.writers, w, s.mem.tabs, ApplyAll(s.base, Replayed(Settled(s))).value.tabs);
  }

  /** Entering: the counter may move, nothing else in memory does. */
  lemma LockMatches(
    ws: Ws, w: nat, b: Writer, t: nat, table: TableState, live: map<nat, TableState>, tabs: map<nat, TableState>)
    requires AllMatch(ws, live, tabs) && w in ws && ws[w].Free? && t in live
    requires b.Free? || b.stage.Checked?
    requires SameTable(table, live[t]) && forall a :: a in ws ==> !OwesApply(ws[a], t)
    ensures AllMatch(ws[w := b], live[t := table], tabs)
  {
    var live' := live[t := table];
    assert live'.Keys == live.Keys;
    forall u | u in live' ensures Matches(ws[w := b], u, live'[u], tabs[u]) {
      MatchesOther(ws, w, b, u, live[u], tabs[u]);
      if u == t { assert Quiet(ws, t); assert !OwesApply(b, t); }
    }
  }

  lemma LockApart(ws: Ws, w: nat, b: Writer)
    requires AllApart(ws) && w in ws
    requires b.Free? || (b.stage.Checked? && forall a :: a in ws && ws[a].Busy? ==> ws[a].t != b.t)
    ensures AllApart(ws[w := b])
  {
  }

  lemma LockAdmissible(ws: Ws, w: nat, b: Writer, t: nat, table: TableState, tabs: map<nat, TableState>)
    requires AllAdmissible(tabs, ws) && w in ws && t in tabs && SameTable(table, tabs[t])
    requires Admissible(tabs[t := table], b)
    ensures AllAdmissible(tabs[t := table], ws[w := b])
  {
    forall a | a in ws && a != w ensures Admissible(tabs[t := table], ws[a]) { assert Admissible(tabs, ws[a]); }
  }

  /** The outcome of the check, whatever was requested. */
  lemma EnterOutcome(s: Sys, w: nat, t: uint32, req: Request)
    requires w in s.writers && s.writers[w].Free? && t in s.mem.tabs && ValidIndex(s.mem.tabs[t])
    ensures
      var s' := Enter(s, w, t, req);
      var b, table := s'.writers[w], s'.mem.tabs[t];
      && s' == s.(mem := SetTable(s.mem, t, table), writers := s.writers[w := b])
      && SameTable(table, s.mem.tabs[t]) && ValidIndex(table)
      && (b.Free? || (b.t == t && b.stage.Checked?))
      && (b.Busy? && b.op.PutRow? ==> UniqueOk(table.cols, table.rows, b.op.id, b.op.row))
  {
    var live := s.mem.tabs[t];
    var s' := Enter(s, w, t, req);
    assert s.writers[w := Free] == s.writers && s.mem.tabs[t := live] == s.mem.tabs;
    if req.PutRequest? {
      var (verdict, table) := AdmitPut(live, req.pkIdx, req.rowID, req.row, req.mustExist);
      if verdict.Admit? { ClashesIsScan(live, verdict.id, verdict.row); }
    }
  }

  lemma EnteredOrder(s: Sys, w: nat, b: Writer, t: uint32, table: TableState, s': Sys)
    requires Inv(s) && w in s.writers && s.writers[w].Free? && t in s.mem.tabs && Unlocked(s, t)
    requires s' == s.(mem := SetTable(s.mem, t, table), writers := s.writers[w := b])
    requires SameTable(table, s.mem.tabs[t]) && ValidIndex(table)
    requires b.Free? || (b.t == t && b.stage.Checked?)
    requires b.Busy? && b.op.PutRow? ==> UniqueOk(table.cols, table.rows, b.op.id, b.op.row)
    ensures Ordered(s')
  {
    LockApart(s.writers, w, b);
    IdsFrame(s.writers, w, b, s.txSeq, s.txSeq);
    MutexFrame(s.writers, w, b, s.mutex, s.log, s.log);
    FragmentsDrop(s.writers, w, b, Settled(s));
  }

  lemma EnteredInv(s: Sys, w: nat, b: Writer, t: uint32, table: TableState, s': Sys)
    requires Inv(s) && w in s.writers && s.writers[w].Free? && t in s.mem.tabs && Unlocked(s, t)
    requires s' == s.(mem := SetTable(s.mem, t, table), writers := s.writers[w := b])
    requires SameTable(table, s.mem.tabs[t]) && ValidIndex(table)
    requires b.Free? || (b.t == t && b.stage.Checked?)
    requires b.Busy? && b.op.PutRow? ==> UniqueOk(table.cols, table.rows, b.op.id, b.op.row)
    ensures Inv(s')
  {
    EnteredOrder(s, w, b, t, table, s');
    LockAdmissible(s.writers, w, b, t, table, s.mem.tabs);
    LockMatches(s.writers, w, b, t, table, s.mem.tabs, ApplyAll(s.base, Replayed(Settled(s))).value.tabs);
  }

  lemma LockKeepsInv(s: Sys, w: nat, t: uint32, req: Request, s': Sys)
    requires Inv(s) && Locks(s, w, t, req, s')
    ensures Inv(s')
  {
    EnterOutcome(s, w, t, req);
    EnteredInv(s, w, s'.writers[w], t, s'.mem.tabs[t], s');
  }

  lemma StepKeepsInv(s: Sys, w: nat, a: Action, s': Sys)
    requires Inv(s) && Next(s, w, a, s')
    ensures Inv(s')
  {
    match a
    case Lock(t, req) => LockKeepsInv(s, w, t, req, s');
    case Draw => DrawKeepsInv(s, w, s');
    case LogBegin => BeginKeepsInv(s, w, s');
    case LogOp => OpKeepsInv(s, w, s');
    case WriteCommit => WriteKeepsInv(s, w, s');
    case Sync => SyncKeepsInv(s, w, s');
    case Apply => ApplyKeepsInv(s, w, s');
    case Fail => FailKeepsInv(s, w, s');
    case Crash(n) => CrashAnywhere(s, n); ReopenedIsStart(s, n); StartInv(s');
  }

  // --- crashes in every interleaving -----------------------------------------------------------------------

  /** Table t after recovery: as in memory, or with the single operation some writer has committed
      but not yet applied there. */
  ghost predicate LivePlusAtMostOne(s: Sys, t: nat, table: TableState)
    requires t in s.mem.tabs
  {
    || SameTable(table, s.mem.tabs[t])
    || exists w ::
         w in s.writers && CommittedOn(s.writers[w], t) && SameTable(table, ApplyOp(s.mem.tabs[t], s.writers[w].op))
  }

  predicate CommittedOn(w: Writer, t: nat) { w.Busy? && w.t == t && (w.stage.Written? || w.stage.Synced?) }

  ghost predicate CrashSafe(s: Sys, n: nat)
    requires n <= |s.log|
  {
    var r := Recovered(s, n);
    && r.Some? && r.value.tabs.Keys == s.mem.tabs.Keys
    && forall t :: t in s.mem.tabs ==>
         && LivePlusAtMostOne(s, t, r.value.tabs[t])
         && (forall w :: w in s.writers && OwesApply(s.writers[w], t) ==>
              SameTable(r.value.tabs[t], ApplyOp(s.mem.tabs[t], s.writers[w].op)))
         && ValidIndex(r.value.tabs[t])
  }

  lemma SameTableValid(a: TableState, b: TableState)
    requires SameTable(a, b) && ValidIndex(b)
    ensures ValidIndex(a)
  {
  }

  lemma TableCrashSafe(s: Sys, t: nat, table: TableState)
    requires Inv(s) && t in s.mem.tabs && Matches(s.writers, t, s.mem.tabs[t], table)
    ensures LivePlusAtMostOne(s, t, table) && ValidIndex(table)
  {
    var live := s.mem.tabs[t];
    if Quiet(s.writers, t) {
      SameTableValid(table, live);
    } else {
      var w :| w in s.writers && OwesApply(s.writers[w], t);
      assert CommittedOn(s.writers[w], t);
      assert Admissible(s.mem.tabs, s.writers[w]);
      AdmittedKeepsValid(live, s.writers[w].op);
      SameTableValid(table, ApplyOp(live, s.writers[w].op));
    }
  }

  lemma CrashBeforePendingCommit(s: Sys, n: nat)
    requires Inv(s) && s.synced <= n <= |Settled(s)|
    ensures CrashSafe(s, n)
  {
    var log := Settled(s);
    UncommittedTail(log, n);
    assert log[..n] == s.log[..n];
    var r := ApplyAll(s.base, Replayed(log)).value;
    forall t | t in s.mem.tabs ensures LivePlusAtMostOne(s, t, r.tabs[t]) && ValidIndex(r.tabs[t]) {
      TableCrashSafe(s, t, r.tabs[t]);
    }
  }

  lemma TransferTable(s: Sys, s': Sys, w: nat, t: nat, table: TableState)
    requires w in s.writers && IsWriting(s.writers[w]) && t in s.mem.tabs && s'.mem == s.mem
    requires s'.writers == s.writers[w := s.writers[w].(stage := Synced(s.writers[w].stage.tx))]
    requires LivePlusAtMostOne(s', t, table)
    ensures LivePlusAtMostOne(s, t, table)
  {
    if !SameTable(table, s.mem.tabs[t]) {
      var a :| a in s'.writers && CommittedOn(s'.writers[a], t) &&
               SameTable(table, ApplyOp(s'.mem.tabs[t], s'.writers[a].op));
      assert CommittedOn(s.writers[a], t);
    }
  }

  /** A crash that keeps a commit record whose fsync was still pending is a crash just after it. */
  lemma CrashAfterPendingCommit(s: Sys, w: nat)
    requires Inv(s) && s.mutex == Some(w)
    ensures CrashSafe(s, |s.log|)
  {
    var b := s.writers[w];
    var s' := SetWriter(s.(synced := |s.log|, mutex := None), w, b.(stage := Synced(b.stage.tx)));
    assert Syncs(s, w, s');
    SyncKeepsInv(s, w, s');
    CrashBeforePendingCommit(s', |s'.log|);
    TransferSafety(s, s', w, |s.log|);
  }

  lemma TransferSafety(s: Sys, s': Sys, w: nat, n: nat)
    requires w in s.writers && IsWriting(s.writers[w])
    requires s'.mem == s.mem && s'.base == s.base && s'.log == s.log && n <= |s.log|
    requires s'.writers == s.writers[w := s.writers[w].(stage := Synced(s.writers[w].stage.tx))]
    requires CrashSafe(s', n)
    ensures CrashSafe(s, n)
  {
    var r := Recovered(s, n).value;
    forall t | t in s.mem.tabs ensures LivePlusAtMostOne(s, t, r.tabs[t]) {
      TransferTable(s, s', w, t, r.tabs[t]);
    }
    forall t, a | t in s.mem.tabs && a in s.writers && OwesApply(s.writers[a], t)
      ensures SameTable(r.tabs[t], ApplyOp(s.mem.tabs[t], s.writers[a].op))
    {
      assert OwesApply(s'.writers[a], t);
    }
  }

  lemma CrashAnywhere(s: Sys, n: nat)
    requires Inv(s) && Survives(s, n)
    ensures CrashSafe(s, n)
  {
    if n <= |Settled(s)| {
      CrashBeforePendingCommit(s, n);
    } else {
      assert n == |s.log|;
      CrashAfterPendingCommit(s, s.mutex.value);
    }
  }

  /** What a crash leaves can be opened and worked on. */
  lemma ReopenedIsStart(s: Sys, n: nat)
    requires n <= |s.log| && CrashSafe(s, n)
    ensures Start(Reopened(s, n))
  {
    var r := Reopened(s, n);
    assert r.log[..|r.log|] == r.log;
  }

  // --- whole runs ----------------------------------------------------------------------------------------------

  ghost predicate IsRun(states: seq<Sys>, who: seq<nat>, steps: seq<Action>) {
    && |states| == |steps| + 1 && |who| == |steps| && Start(states[0])
    && forall i :: 0 <= i < |steps| ==> Next(states[i], who[i], steps[i], states[i + 1])
  }

  lemma {:induction false} RunKeepsInv(states: seq<Sys>, who: seq<nat>, steps: seq<Action>, n: nat)
    requires IsRun(states, who, steps) && n <= |steps|
    ensures Inv(states[n])
    decreases n
  {
    if n == 0 {
      StartInv(states[0]);
    } else {
      RunKeepsInv(states, who, steps, n - 1);
      StepKeepsInv(states[n - 1], who[n - 1], steps[n - 1], states[n]);
    }
  }

  /** For any number of writers, from any opened database, in every interleaving of their steps and of
      earlier crashes, at every crash point and for every part of the unsynced log that survives:
      recovery succeeds, each table comes back as it was in memory plus at most one committed operation
      not yet applied to it, and every operation whose commit was synced is there. Its UNIQUE index is
      exact. */
  lemma EveryInterleavingRecovers(states: seq<Sys>, who: seq<nat>, steps: seq<Action>, i: nat, n: nat)
    requires IsRun(states, who, steps) && i <= |steps| && Survives(states[i], n)
    ensures CrashSafe(states[i], n)
  {
    RunKeepsInv(states, who, steps, i);
    CrashAnywhere(states[i], n);
  }

  /** In bytes: whatever the crash leaves of the file behind the synced records, what is read back is a
      part of the log that may survive. */
  lemma CutFileSurvives(g: Library, s: Sys, bytes: nat) returns (n: nat)
    requires RoundTrips(g) && Readable(g, s.log) && s.synced <= |s.log|
    requires |EncodeAll(g, s.log[..s.synced])| <= bytes <= |EncodeAll(g, s.log)|
    ensures Survives(s, n) && ReadAll(g, EncodeAll(g, s.log)[..bytes]).recs == s.log[..n]
  {
    n := ReadCutLog(g, s.log, bytes, s.synced);
  }
}
