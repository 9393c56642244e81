/** Explicit commits, CREATE TABLE, checkpoints, I/O failures and crashes: at every step, what is on
    disk recovers to what memory holds. One operation runs at a time. `commitMu` orders commits and
    checkpoints, and `catalogMu` checkpoints and table creations; that a creation does not overlap a
    commit is an assumption here. */
module Durability {
  import opened Values
  import opened Schema
  import opened Tables
  import opened WalCodec
  import opened LogReplay
  import opened EngineModel
  import opened Checkpoints

  datatype Phase =
    | Idle
    | Logging(tx: uint64, txn: seq<Record>, k: nat)  // k operations appended
    | Applying(txn: seq<Record>, k: nat)             // committed on disk, k applied in memory
    | SnapshotWritten(seqNo: nat)
    | ManifestSwitched

  /** Disk (snapshot files by sequence number, manifest, log), memory, and the operation under way. */
  datatype Sys = Sys(
    snaps: map<nat, Snapshot>, manifest: Option<nat>, log: Log,
    mem: EngineState, used: set<uint64>, phase: Phase)

  datatype Step =
    | Start(tx: uint64, txn: seq<Record>)
    | LogBegin | LogOp | LogCommit | ApplyOne | Finish
    | Fail                         // a WAL append fails; the transaction is abandoned
    | Counters(mem: EngineState)   // id reservations of open transactions
    | WriteSnapshot | SwitchManifest | TruncateLog
    | GiveUp                       // a checkpoint step fails
    | Prune                        // old snapshot files are removed
    | Crash(kept: nat, dangling: set<uint64>)  // the log up to `kept` survives

  // --- recovery -----------------------------------------------------------------------------------

  /** `LoadLatestSnapshot`: nothing if the manifest or the file it names is missing. */
  ghost function Base(s: Sys): EngineState {
    if s.manifest.Some? && s.manifest.value in s.snaps then Load(s.snaps[s.manifest.value]) else EmptyEngine
  }

  /** What `Open` would build from the disk at this moment. */
  ghost function Recovered(s: Sys): Option<EngineState> { ApplyAll(Base(s), Replayed(s.log)) }

  /** Memory once the operation under way has been applied. */
  function Target(s: Sys): EngineState {
    if s.phase.Applying? && s.phase.k <= |s.phase.txn| then Exec(s.mem, s.phase.txn[s.phase.k..]) else s.mem
  }

  // --- steps ---------------------------------------------------------------------------------------

  function Higher(snaps: map<nat, Snapshot>, q: nat): set<nat> { set k | k in snaps && k > q }

  /** `pruneSnapshots`: only the two files with the highest sequence numbers stay. */
  function Pruned(snaps: map<nat, Snapshot>): map<nat, Snapshot> {
    map q | q in snaps && |Higher(snaps, q)| < 2 :: snaps[q]
  }

  /** Everything after the first n records may still be in the operating system's cache: only commit
      records are synced. */
  predicate Unsynced(log: Log, n: nat) { n <= |log| && NoCommitFrom(log, n) }

  /** What `Open` finds after a crash that keeps the first n records. */
  function Cut(s: Sys, n: nat): Sys
    requires n <= |s.log|
  {
    s.(log := s.log[..n])
  }

  /** One step. A crash can come at any of them, also while a transaction is being logged, and can
      take the unsynced end of the log along; the ids it leaves without a commit record are dangling,
      and `Start` carries the hypothesis that no dangling id is drawn again before the log is
      truncated. `LogReplay.ReusedIdIff` says what happens without it. Pruning is a step where it
      keeps the snapshot in force; `PruningIsSafeIff` covers the rest. */
  ghost predicate Next(s: Sys, a: Step, s': Sys) {
    match a
    case Start(tx, txn) =>
      && s.phase.Idle? && tx !in s.used && OpsOf(txn, tx) && ValidTxn(s.mem, txn)
      && s' == s.(used := s.used + {tx}, phase := Logging(tx, txn, 0))
    case LogBegin =>
      && s.phase.Logging? && s.phase.k == 0
      && s' == s.(log := s.log + [Begin(s.phase.tx)])
    case LogOp =>
      && s.phase.Logging? && s.phase.k < |s.phase.txn|
      && s' == s.(log := s.log + [s.phase.txn[s.phase.k]],
                  phase := Logging(s.phase.tx, s.phase.txn, s.phase.k + 1))
    case LogCommit =>
      && s.phase.Logging? && s.phase.k == |s.phase.txn|
      && s' == s.(log := s.log + [Commit(s.phase.tx)], phase := Applying(s.phase.txn, 0))
    case ApplyOne =>
      && s.phase.Applying? && s.phase.k < |s.phase.txn|
      && ApplyRecord(s.mem, s.phase.txn[s.phase.k]).Some?
      && s' == s.(mem := ApplyRecord(s.mem, s.phase.txn[s.phase.k]).value,
                  phase := Applying(s.phase.txn, s.phase.k + 1))
    case Finish =>
      s.phase.Applying? && s.phase.k == |s.phase.txn| && s' == s.(phase := Idle)
    case Fail =>
      s.phase.Logging? && s' == s.(phase := Idle)
    case Counters(mem) =>
      SameEngine(mem, s.mem) && s' == s.(mem := mem)
    case WriteSnapshot =>
      && s.phase.Idle?
      && s' == s.(snaps := s.snaps[|s.log| := Save(s.mem)], phase := SnapshotWritten(|s.log|))
    case SwitchManifest =>
      && s.phase.SnapshotWritten?
      && s' == s.(manifest := Some(s.phase.seqNo), phase := ManifestSwitched)
    case TruncateLog =>
      s.phase.ManifestSwitched? && s' == s.(log := [], used := {}, phase := Idle)
    case GiveUp =>
      (s.phase.SnapshotWritten? || s.phase.ManifestSwitched?) && s' == s.(phase := Idle)
    case Prune =>
      && s.phase.Idle? && s.manifest.Some? && |Higher(s.snaps, s.manifest.value)| < 2
      && s' == s.(snaps := Pruned(s.snaps))
    case Crash(kept, dangling) =>
      && Unsynced(s.log, kept)
      && (forall x :: x in dangling <==> Fragment(s.log[..kept], x) != [])
      && Recovered(Cut(s, kept)).Some?
      && s' == Cut(s, kept).(mem := Recovered(Cut(s, kept)).value, used := dangling, phase := Idle)
  }

  const Fresh := Sys(map[], None, [], EmptyEngine, {}, Idle)

  // --- the invariant -----------------------------------------------------------------------------------

  /** The log holds the committed transactions `hist` of a run from `start`; the snapshot in force
      was taken after the first j of them; memory is at the end of them. */
  ghost predicate Inv(s: Sys, start: EngineState, hist: Txns, j: nat) {
    && Healthy(start) && Dense(start) && ValidRun(start, hist) && j <= |hist|
    && Replayed(s.log) == Flatten(hist)
    && SameEngine(Base(s), ExecAll(start, hist[..j]))
    && SameEngine(Target(s), ExecAll(start, hist))
    && (forall x :: x !in s.used ==> Fragment(s.log, x) == [])
    && PhaseInv(s)
  }

  ghost predicate PhaseInv(s: Sys) {
    match s.phase
    case Idle => true
    case Logging(tx, txn, k) =>
      k <= |txn| && tx in s.used && OpsOf(txn, tx) && ValidTxn(s.mem, txn) && Fragment(s.log, tx) == txn[..k]
    case Applying(txn, k) => k <= |txn| && ApplyAll(s.mem, txn[k..]).Some?
    case SnapshotWritten(seqNo) => seqNo in s.snaps && SameEngine(Load(s.snaps[seqNo]), s.mem)
    case ManifestSwitched => SameEngine(Base(s), s.mem)
  }

  /** At every state of the invariant, whatever unsynced records a crash takes along, opening recovers
      the committed state: catalog, rows, index. */
  lemma CrashSafe(s: Sys, start: EngineState, hist: Txns, j: nat, n: nat)
    requires Inv(s, start, hist, j) && Unsynced(s.log, n)
    ensures Recovered(Cut(s, n)) == Recovered(s)
    ensures Recovered(s).Some? && SameEngine(Recovered(s).value, Target(s)) && Healthy(Recovered(s).value)
  {
    UncommittedTail(s.log, n);
    assert Base(Cut(s, n)) == Base(s);
    var before, after := hist[..j], hist[j..];
    assert hist == before + after;
    RecoveryFromSnapshot(start, before, after);
    SameRun(Base(s), ExecAll(start, before), Flatten(hist));
    var r, live := ApplyAll(ExecAll(start, before), Flatten(hist)).value, ExecAll(start, hist);
    SameIsEquivalence(Recovered(s).value, r, live);
    SameIsEquivalence(Target(s), live, live);
    SameIsEquivalence(Recovered(s).value, live, Target(s));
    SameHealth(Recovered(s).value, r);
  }

  lemma FreshInv()
    ensures Inv(Fresh, EmptyEngine, [], 0)
  {
    SameIsEquivalence(EmptyEngine, EmptyEngine, EmptyEngine);
  }

  // --- every step keeps it -------------------------------------------------------------------------------

  lemma QuietKeepsInv(s: Sys, a: Step, s': Sys, start: EngineState, hist: Txns, j: nat)
    requires Inv(s, start, hist, j) && Next(s, a, s') && (a.Start? || a.Fail?)
    ensures Inv(s', start, hist, j)
  {
    assert Base(s') == Base(s) && Target(s') == Target(s);
  }

  lemma LogBeginKeepsInv(s: Sys, a: Step, s': Sys, start: EngineState, hist: Txns, j: nat)
    requires Inv(s, start, hist, j) && Next(s, a, s') && a.LogBegin?
    ensures Inv(s', start, hist, j)
  {
    AppendBegin(s.log, s.phase.tx);
    assert Base(s') == Base(s) && Target(s') == Target(s);
  }

  lemma LogOpKeepsPhase(s: Sys, a: Step, s': Sys)
    requires PhaseInv(s) && Next(s, a, s') && a.LogOp? && forall x :: x !in s.used ==> Fragment(s.log, x) == []
    ensures PhaseInv(s') && Replayed(s'.log) == Replayed(s.log)
    ensures forall x :: x !in s'.used ==> Fragment(s'.log, x) == []
  {
    var txn, k := s.phase.txn, s.phase.k;
    AppendData(s.log, txn[k]);
    assert txn[..k + 1] == txn[..k] + [txn[k]];
  }

  lemma LogOpKeepsInv(s: Sys, a: Step, s': Sys, start: EngineState, hist: Txns, j: nat)
    requires Inv(s, start, hist, j) && Next(s, a, s') && a.LogOp?
    ensures Inv(s', start, hist, j)
  {
    LogOpKeepsPhase(s, a, s');
    assert Base(s') == Base(s) && Target(s') == Target(s);
  }

  lemma LoggingKeepsInv(s: Sys, a: Step, s': Sys, start: EngineState, hist: Txns, j: nat)
    requires Inv(s, start, hist, j) && Next(s, a, s')
    requires a.Start? || a.LogBegin? || a.LogOp? || a.Fail?
    ensures Inv(s', start, hist, j)
  {
    if a.LogBegin? {
      LogBeginKeepsInv(s, a, s', start, hist, j);
    } else if a.LogOp? {
      LogOpKeepsInv(s, a, s', start, hist, j);
    } else {
      QuietKeepsInv(s, a, s', start, hist, j);
    }
  }

  lemma CommitKeepsInv(s: Sys, s': Sys, start: EngineState, hist: Txns, j: nat)
    requires Inv(s, start, hist, j) && Next(s, LogCommit, s')
    ensures Inv(s', start, hist + [s.phase.txn], j)
  {
    var tx, txn := s.phase.tx, s.phase.txn;
    var live := ExecAll(start, hist);
    AppendCommit(s.log, tx);
    assert txn[..|txn|] == txn && txn[0..] == txn;
    SameValidity(s.mem, live, txn);
    LiveIsHealthy(start, hist);
    SameHealth(s.mem, live);
    ValidTxnSucceeds(s.mem, txn);
    ValidTxnSucceeds(live, txn);
    SameRun(s.mem, live, txn);
    OneMoreTxn(start, hist, txn);
    assert (hist + [txn])[..j] == hist[..j];
    assert Base(s') == Base(s);
  }

  lemma OneMoreTxn(start: EngineState, hist: Txns, txn: seq<Record>)
    requires ValidRun(start, hist) && ValidTxn(ExecAll(start, hist), txn)
    ensures ValidRun(start, hist + [txn])
    ensures ExecAll(start, hist + [txn]) == Exec(ExecAll(start, hist), txn)
    ensures Flatten(hist + [txn]) == Flatten(hist) + txn
  {
    ValidRunSplit(start, hist, [txn]);
    assert [txn][1..] == [];
    assert Flatten([txn]) == txn + [] == txn;
  }

  lemma ApplyKeepsInv(s: Sys, a: Step, s': Sys, start: EngineState, hist: Txns, j: nat)
    requires Inv(s, start, hist, j) && Next(s, a, s') && (a.ApplyOne? || a.Finish?)
    ensures Inv(s', start, hist, j)
  {
    var txn, k := s.phase.txn, s.phase.k;
    if a.ApplyOne? { assert txn[k..][1..] == txn[k + 1..]; }
    assert Base(s') == Base(s);
    assert Target(s') == Target(s);
  }

  lemma CountersKeepInv(s: Sys, s': Sys, mem: EngineState, start: EngineState, hist: Txns, j: nat)
    requires Inv(s, start, hist, j) && Next(s, Counters(mem), s')
    ensures Inv(s', start, hist, j)
  {
    assert Base(s') == Base(s);
    var live := ExecAll(start, hist);
    if s.phase.Applying? { SameRun(mem, s.mem, s.phase.txn[s.phase.k..]); }
    SameIsEquivalence(Target(s'), Target(s), live);
    if s.phase.Logging? { SameValidity(mem, s.mem, s.phase.txn); }
    SameIsEquivalence(mem, s.mem, s.mem);
    SameIsEquivalence(s.mem, mem, mem);
    if s.phase.SnapshotWritten? { SameIsEquivalence(Load(s.snaps[s.phase.seqNo]), s.mem, mem); }
    if s.phase.ManifestSwitched? { SameIsEquivalence(Base(s), s.mem, mem); }
  }

  /** A snapshot of an idle system holds all of its memory. */
  lemma SnapshotIsWhole(mem: EngineState, start: EngineState, hist: Txns)
    requires Healthy(start) && Dense(start) && ValidRun(start, hist) && SameEngine(mem, ExecAll(start, hist))
    ensures Load(Save(mem)) == mem && SameEngine(mem, mem)
  {
    var live := ExecAll(start, hist);
    LiveIsHealthy(start, hist);
    DenseRun(start, hist);
    SameHealth(mem, live);
    assert mem.nextTable > 0 ==> mem.nextTable - 1 in mem.tabs;
    SnapshotRoundTrip(mem);
    SameIsEquivalence(mem, live, live);
  }

  lemma SnapshotKeepsInv(s: Sys, s': Sys, start: EngineState, hist: Txns, j: nat) returns (j': nat)
    requires Inv(s, start, hist, j) && Next(s, WriteSnapshot, s')
    ensures Inv(s', start, hist, j')
  {
    SnapshotIsWhole(s.mem, start, hist);
    assert hist[..|hist|] == hist;
    assert Target(s') == s.mem && Target(s) == s.mem;
    j' := if s.manifest == Some(|s.log|) then |hist| else j;
    assert Base(s') == if s.manifest == Some(|s.log|) then s.mem else Base(s);
  }

  lemma ManifestKeepsInv(s: Sys, s': Sys, start: EngineState, hist: Txns, j: nat)
    requires Inv(s, start, hist, j) && Next(s, SwitchManifest, s')
    ensures Inv(s', start, hist, |hist|)
  {
    var live := ExecAll(start, hist);
    assert hist[..|hist|] == hist;
    SameIsEquivalence(Base(s'), s.mem, live);
  }

  /** The log may be emptied: the snapshot in force already holds the committed state. */
  lemma TruncateKeepsInv(s: Sys, s': Sys, start: EngineState, hist: Txns, j: nat)
    requires Inv(s, start, hist, j) && Next(s, TruncateLog, s')
    ensures Inv(s', ExecAll(start, hist), [], 0)
  {
    var live := ExecAll(start, hist);
    LiveIsHealthy(start, hist);
    DenseRun(start, hist);
    assert Base(s') == Base(s);
    SameIsEquivalence(Base(s), s.mem, live);
  }

  lemma CrashKeepsInv(s: Sys, kept: nat, dangling: set<uint64>, s': Sys, start: EngineState, hist: Txns, j: nat)
    requires Inv(s, start, hist, j) && Next(s, Crash(kept, dangling), s')
    ensures Inv(s', start, hist, j)
  {
    CrashSafe(s, start, hist, j, kept);
    assert Base(s') == Base(s);
    UncommittedTail(s.log, kept);
    SameIsEquivalence(s'.mem, Target(s), ExecAll(start, hist));
  }

  lemma StepKeepsInv(s: Sys, a: Step, s': Sys, start: EngineState, hist: Txns, j: nat)
    returns (start': EngineState, hist': Txns, j': nat)
    requires Inv(s, start, hist, j) && Next(s, a, s')
    ensures Inv(s', start', hist', j')
  {
    start', hist', j' := start, hist, j;
    match a
    case LogCommit => CommitKeepsInv(s, s', start, hist, j); hist' := hist + [s.phase.txn];
    case ApplyOne => ApplyKeepsInv(s, a, s', start, hist, j);
    case Finish => ApplyKeepsInv(s, a, s', start, hist, j);
    case Counters(mem) => CountersKeepInv(s, s', mem, start, hist, j);
    case WriteSnapshot => j' := SnapshotKeepsInv(s, s', start, hist, j);
    case SwitchManifest => ManifestKeepsInv(s, s', start, hist, j); j' := |hist|;
    case TruncateLog =>
      TruncateKeepsInv(s, s', start, hist, j);
      start', hist', j' := ExecAll(start, hist), [], 0;
    case GiveUp => assert Base(s') == Base(s) && Target(s') == Target(s);
    case Prune => assert Base(s') == Base(s) && Target(s') == Target(s);
    case Crash(kept, dangling) => CrashKeepsInv(s, kept, dangling, s', start, hist, j);
    case _ => LoggingKeepsInv(s, a, s', start, hist, j);
  }

  // --- whole runs --------------------------------------------------------------------------------------

  ghost predicate IsRun(states: seq<Sys>, steps: seq<Step>) {
    && |states| == |steps| + 1 && states[0] == Fresh
    && forall i :: 0 <= i < |steps| ==> Next(states[i], steps[i], states[i + 1])
  }

  lemma {:induction false} RunKeepsInv(states: seq<Sys>, steps: seq<Step>, n: nat)
    returns (start: EngineState, hist: Txns, j: nat)
    requires IsRun(states, steps) && n <= |steps|
    ensures Inv(states[n], start, hist, j)
    decreases n
  {
    if n == 0 {
      FreshInv();
      start, hist, j := EmptyEngine, [], 0;
    } else {
      start, hist, j := RunKeepsInv(states, steps, n - 1);
      start, hist, j := StepKeepsInv(states[n - 1], steps[n - 1], states[n], start, hist, j);
    }
  }

  /** In every run of commits, table creations, failures, checkpoints and earlier crashes, at every
      step of it, and whatever unsynced records are lost, opening the database would succeed and give
      exactly the committed state: the catalog with its table ids, every row, and the UNIQUE indexes
      of live memory. */
  lemma EveryCrashPointRecovers(states: seq<Sys>, steps: seq<Step>, n: nat, kept: nat)
    requires IsRun(states, steps) && n <= |steps| && Unsynced(states[n].log, kept)
    ensures
      var r := Recovered(Cut(states[n], kept));
      r.Some? && SameEngine(r.value, Target(states[n])) && Healthy(r.value)
  {
    var start, hist, j := RunKeepsInv(states, steps, n);
    CrashSafe(states[n], start, hist, j, kept);
  }

  // --- pruning --------------------------------------------------------------------------------------------

  /** Sequence numbers count the records of the current log and start over with each truncation, so
      the snapshot just written need not be among the two highest. After the truncation the pruned
      disk still recovers the data if and only if fewer than two older files have higher numbers;
      otherwise the database opens empty. */
  lemma PruningIsSafeIff(s: Sys)
    requires s.log == [] && s.manifest.Some? && s.manifest.value in s.snaps
    requires Base(s).tabs != map[]
    ensures
      var pruned := s.(snaps := Pruned(s.snaps));
      && (Recovered(pruned) == Recovered(s) <==> |Higher(s.snaps, s.manifest.value)| < 2)
      && (|Higher(s.snaps, s.manifest.value)| >= 2 ==> Recovered(pruned) == Some(EmptyEngine))
  {
    assert Replayed([]) == [];
  }

  /** In bytes: wherever the file is cut behind its last commit record, what is read back is the log up to
      an unsynced record. */
  lemma CutFileIsUnsynced(g: Library, s: Sys, m: nat, bytes: nat) returns (n: nat)
    requires RoundTrips(g) && Readable(g, s.log) && Unsynced(s.log, m)
    requires |EncodeAll(g, s.log[..m])| <= bytes <= |EncodeAll(g, s.log)|
    ensures Unsynced(s.log, n) && ReadAll(g, EncodeAll(g, s.log)[..bytes]).recs == Cut(s, n).log
  {
    n := ReadCutLog(g, s.log, bytes, m);
  }

  // --- pruning that loses data is reachable -----------------------------------------------------------

  lemma Extend(states: seq<Sys>, steps: seq<Step>, a: Step, s': Sys)
    requires IsRun(states, steps) && Next(states[|steps|], a, s')
    ensures IsRun(states + [s'], steps + [a])
  {
    var all, as_ := states + [s'], steps + [a];
    forall i | 0 <= i < |as_| ensures Next(all[i], as_[i], all[i + 1]) {
      if i < |steps| { assert Next(states[i], steps[i], states[i + 1]); }
    }
  }

  /** A checkpoint of an idle system, step by step. */
  lemma RunCheckpoint(states: seq<Sys>, steps: seq<Step>) returns (states': seq<Sys>, steps': seq<Step>)
    requires IsRun(states, steps) && states[|steps|].phase.Idle?
    ensures IsRun(states', steps')
    ensures
      var s := states[|steps|];
      states'[|steps'|] ==
      s.(snaps := s.snaps[|s.log| := Save(s.mem)], manifest := Some(|s.log|), log := [], used := {})
  {
    var s := states[|steps|];
    var s1 := s.(snaps := s.snaps[|s.log| := Save(s.mem)], phase := SnapshotWritten(|s.log|));
    var s2 := s1.(manifest := Some(|s.log|), phase := ManifestSwitched);
    var s3 := s2.(log := [], used := {}, phase := Idle);
    Extend(states, steps, WriteSnapshot, s1);
    Extend(states + [s1], steps + [WriteSnapshot], SwitchManifest, s2);
    states', steps' := states + [s1] + [s2], steps + [WriteSnapshot] + [SwitchManifest];
    Extend(states', steps', TruncateLog, s3);
    states', steps' := states' + [s3], steps' + [TruncateLog];
  }

  /** A transaction of one operation, logged with or without a begin record and applied. */
  lemma RunOneOp(states: seq<Sys>, steps: seq<Step>, begin: bool, tx: uint64, r: Record)
    returns (states': seq<Sys>, steps': seq<Step>)
    requires IsRun(states, steps)
    requires
      var s := states[|steps|];
      s.phase.Idle? && s.log == [] && tx !in s.used && OpsOf([r], tx) && ValidTxn(s.mem, [r])
    requires ApplyRecord(states[|steps|].mem, r).Some?
    ensures IsRun(states', steps')
    ensures
      var s := states[|steps|];
      states'[|steps'|] == s.(mem := ApplyRecord(s.mem, r).value, used := s.used + {tx},
                              log := if begin then [Begin(tx), r, Commit(tx)] else [r, Commit(tx)])
  {
    var s := states[|steps|];
    var s1 := s.(used := s.used + {tx}, phase := Logging(tx, [r], 0));
    Extend(states, steps, Start(tx, [r]), s1);
    states', steps' := states + [s1], steps + [Start(tx, [r])];
    if begin {
      s1 := s1.(log := s1.log + [Begin(tx)]);
      Extend(states', steps', LogBegin, s1);
      states', steps' := states' + [s1], steps' + [LogBegin];
    }
    var s2 := s1.(log := s1.log + [r], phase := Logging(tx, [r], 1));
    Extend(states', steps', LogOp, s2);
    states', steps' := states' + [s2], steps' + [LogOp];
    var s3 := s2.(log := s2.log + [Commit(tx)], phase := Applying([r], 0));
    Extend(states', steps', LogCommit, s3);
    states', steps' := states' + [s3], steps' + [LogCommit];
    states', steps' := RunApply(states', steps', r);
  }

  lemma RunApply(states: seq<Sys>, steps: seq<Step>, r: Record) returns (states': seq<Sys>, steps': seq<Step>)
    requires IsRun(states, steps) && states[|steps|].phase == Applying([r], 0)
    requires ApplyRecord(states[|steps|].mem, r).Some?
    ensures IsRun(states', steps')
    ensures
      var s := states[|steps|];
      states'[|steps'|] == s.(mem := ApplyRecord(s.mem, r).value, phase := Idle)
  {
    var s := states[|steps|];
    var s1 := s.(mem := ApplyRecord(s.mem, r).value, phase := Applying([r], 1));
    var s2 := s1.(phase := Idle);
    Extend(states, steps, ApplyOne, s1);
    states', steps' := states + [s1], steps + [ApplyOne];
    Extend(states', steps', Finish, s2);
    states', steps' := states' + [s2], steps' + [Finish];
  }

  const COLS := [Column("id", TInt, false, true, false, false, "", "")]
  const ONE_TABLE := AddTable(EmptyEngine, "t", COLS)
  const CREATE := Create(1, SchemaChange(true, "t", COLS))
  const ROW := Record.Put(2, 0, 1, [VInt(1)])

  lemma SampleTxnsAreValid()
    ensures ValidTxn(EmptyEngine, [CREATE]) && ApplyRecord(EmptyEngine, CREATE) == Some(ONE_TABLE)
    ensures ValidTxn(ONE_TABLE, [ROW]) && ApplyRecord(ONE_TABLE, ROW).Some?
  {
    assert UniqueCols(COLS) == {};
    assert forall t :: t in ONE_TABLE.tabs ==> t == 0;
  }

  /** CREATE TABLE, logged as three records, and a checkpoint. */
  lemma RunFirstCheckpoint() returns (states: seq<Sys>, steps: seq<Step>)
    ensures IsRun(states, steps)
    ensures states[|steps|] == Sys(map[3 := Save(ONE_TABLE)], Some(3), [], ONE_TABLE, {}, Idle)
  {
    SampleTxnsAreValid();
    assert IsRun([Fresh], []);
    states, steps := RunOneOp([Fresh], [], true, 1, CREATE);
    states, steps := RunCheckpoint(states, steps);
  }

  /** A one-row commit, logged as two records, and a checkpoint; another one of the empty log. */
  lemma RunThreeCheckpoints() returns (states: seq<Sys>, steps: seq<Step>)
    ensures IsRun(states, steps)
    ensures
      var s, mem := states[|steps|], ApplyRecord(ONE_TABLE, ROW);
      mem.Some? && s == Sys(map[3 := Save(ONE_TABLE), 2 := Save(mem.value), 0 := Save(mem.value)],
                            Some(0), [], mem.value, {}, Idle)
  {
    SampleTxnsAreValid();
    states, steps := RunFirstCheckpoint();
    states, steps := RunOneOp(states, steps, false, 2, ROW);
    states, steps := RunCheckpoint(states, steps);
    states, steps := RunCheckpoint(states, steps);
  }

  /** The checkpoints leave snapshots 3, 2 and 0 with 0 in force. Pruning removes it, and the database
      opens empty. */
  lemma PruningCanLoseEverything() returns (states: seq<Sys>, steps: seq<Step>)
    ensures IsRun(states, steps)
    ensures
      var s := states[|steps|];
      && s.phase.Idle? && s.log == [] && s.manifest == Some(0)
      && Higher(s.snaps, 0) == {2, 3} && Base(s).tabs != map[]
      && Recovered(s.(snaps := Pruned(s.snaps))) == Some(EmptyEngine)
  {
    states, steps := RunThreeCheckpoints();
    var s := states[|steps|];
    assert Higher(s.snaps, 0) == {2, 3} && |{2, 3}| == 2;
    assert 0 in Base(s).tabs;
    PruningIsSafeIff(s);
  }
}
