/** Which operations of a log with interleaved transactions take effect at recovery, and in which
    order. */
module LogReplay {
  import opened WalCodec

  type Log = seq<Record>

  predicate IsData(r: Record) { !r.Begin? && !r.Commit? }

  // --- the replay loop ----------------------------------------------------------------------

  /** The loop of `Open`: operations waiting for their commit record, and those applied so far. */
  datatype Progress = Progress(pending: map<uint64, seq<Record>>, applied: seq<Record>)

  function Waiting(pending: map<uint64, seq<Record>>, tx: uint64): seq<Record> {
    if tx in pending then pending[tx] else []
  }

  function StepLog(p: Progress, r: Record): Progress {
    match r
    case Begin(_) => p
    case Commit(tx) => Progress(p.pending - {tx}, p.applied + Waiting(p.pending, tx))
    case _ => p.(pending := p.pending[r.txn := Waiting(p.pending, r.txn) + [r]])
  }

  function RunLog(p: Progress, log: Log): Progress
    decreases |log|
  {
    if log == [] then p else RunLog(StepLog(p, log[0]), log[1..])
  }

  /** The operations recovery applies, in order. */
  function Replayed(log: Log): seq<Record> { RunLog(Progress(map[], []), log).applied }

  // --- the reference: committed transactions in commit order -----------------------------------

  function Init(log: Log): Log
    requires log != []
  {
    log[..|log| - 1]
  }

  function Last(log: Log): Record
    requires log != []
  {
    log[|log| - 1]
  }

  /** The operations of tx logged since its last commit record. */
  function Fragment(log: Log, tx: uint64): seq<Record>
    decreases |log|
  {
    if log == [] then []
    else if Last(log) == Commit(tx) then []
    else if IsData(Last(log)) && Last(log).txn == tx then Fragment(Init(log), tx) + [Last(log)]
    else Fragment(Init(log), tx)
  }

  /** The fragments of the committed transactions, in the order of the commit records. */
  function CommittedOps(log: Log): seq<Record>
    decreases |log|
  {
    if log == [] then []
    else if Last(log).Commit? then CommittedOps(Init(log)) + Fragment(Init(log), Last(log).txn)
    else CommittedOps(Init(log))
  }

  lemma {:induction false} RunLogSnoc(p: Progress, log: Log)
    requires log != []
    ensures RunLog(p, log) == StepLog(RunLog(p, Init(log)), Last(log))
    decreases |log|
  {
    if |log| > 1 {
      assert Init(log)[1..] == Init(log[1..]) && Init(log)[0] == log[0];
      RunLogSnoc(StepLog(p, log[0]), log[1..]);
    } else {
      assert log[1..] == [] && Init(log) == [];
    }
  }

  /** Replay applies exactly the committed transactions, each as the fragment logged since the
      previous commit of its id, in commit order, however the transactions interleave. */
  lemma {:induction false} ReplayIsCommitOrder(log: Log)
    ensures Replayed(log) == CommittedOps(log)
    ensures forall tx :: Waiting(RunLog(Progress(map[], []), log).pending, tx) == Fragment(log, tx)
    decreases |log|
  {
    if log != [] {
      ReplayIsCommitOrder(Init(log));
      RunLogSnoc(Progress(map[], []), log);
    }
  }

  // --- which records take effect --------------------------------------------------------------

  predicate Commits(log: Log, tx: uint64) { Commit(tx) in log }

  /** The operations that have a commit record of their id somewhere after them, in log order. */
  function FollowedByCommit(log: Log): seq<Record>
    decreases |log|
  {
    if log == [] then []
    else
      If(IsData(log[0]) && Commits(log[1..], log[0].txn), log[0]) + FollowedByCommit(log[1..])
  }

  function If(cond: bool, r: Record): seq<Record> { if cond then [r] else [] }

  lemma {:induction false} FragmentFront(log: Log, tx: uint64)
    requires log != []
    ensures Fragment(log, tx) ==
            If(IsData(log[0]) && log[0].txn == tx && !Commits(log[1..], tx), log[0]) + Fragment(log[1..], tx)
    decreases |log|
  {
    if |log| > 1 {
      assert Init(log)[1..] == Init(log[1..]) && Init(log)[0] == log[0] && Last(log) == Last(log[1..]);
      assert log[1..] == Init(log[1..]) + [Last(log)];
      FragmentFront(Init(log), tx);
    } else {
      assert log[1..] == [] && Init(log) == [];
    }
  }

  /** Appending a commit of tx: the head of the log is released now, or was already. */
  lemma HeadReleased(log: Log, tx: uint64)
    requires log != []
    ensures
      var r, rest := log[0], log[1..];
      FollowedByCommit(log + [Commit(tx)]) ==
      If(IsData(r) && (Commits(rest, r.txn) || r.txn == tx), r) + FollowedByCommit(rest + [Commit(tx)])
  {
    assert (log + [Commit(tx)])[1..] == log[1..] + [Commit(tx)];
  }

  lemma IfSplit(now: bool, later: bool, r: Record, a: seq<Record>, b: seq<Record>, ab: seq<Record>)
    requires multiset(ab) == multiset(a) + multiset(b) && !(now && later)
    ensures multiset(If(now || later, r) + ab) == multiset(If(now, r) + a) + multiset(If(later, r) + b)
  {
  }

  lemma {:induction false} CommitReleasesFragment(log: Log, tx: uint64)
    ensures multiset(FollowedByCommit(log + [Commit(tx)])) ==
            multiset(FollowedByCommit(log)) + multiset(Fragment(log, tx))
    decreases |log|
  {
    if log == [] {
      assert [Commit(tx)][1..] == [] && log + [Commit(tx)] == [Commit(tx)];
    } else {
      var r, rest := log[0], log[1..];
      CommitReleasesFragment(rest, tx);
      FragmentFront(log, tx);
      HeadReleased(log, tx);
      IfSplit(IsData(r) && Commits(rest, r.txn), IsData(r) && r.txn == tx && !Commits(rest, tx), r,
              FollowedByCommit(rest), Fragment(rest, tx), FollowedByCommit(rest + [Commit(tx)]));
    }
  }

  lemma {:induction false} OtherRecordsReleaseNothing(log: Log, r: Record)
    requires !r.Commit?
    ensures FollowedByCommit(log + [r]) == FollowedByCommit(log)
    decreases |log|
  {
    if log == [] {
      assert log + [r] == [r] && [r][1..] == [];
    } else {
      assert (log + [r])[1..] == log[1..] + [r];
      OtherRecordsReleaseNothing(log[1..], r);
    }
  }

  /** An operation takes effect if and only if a commit record of its id follows it, and then
      exactly once. */
  lemma {:induction false} EffectiveIffCommitFollows(log: Log)
    ensures multiset(Replayed(log)) == multiset(FollowedByCommit(log))
    decreases |log|
  {
    ReplayIsCommitOrder(log);
    if log != [] {
      ReplayIsCommitOrder(Init(log));
      EffectiveIffCommitFollows(Init(log));
      assert log == Init(log) + [Last(log)];
      if Last(log).Commit? {
        CommitReleasesFragment(Init(log), Last(log).txn);
      } else {
        OtherRecordsReleaseNothing(Init(log), Last(log));
      }
    }
  }

  // --- records of transactions that never commit ------------------------------------------------

  function Without(log: Log, dead: set<uint64>): Log
    decreases |log|
  {
    if log == [] then []
    else if Last(log).txn in dead then Without(Init(log), dead)
    else Without(Init(log), dead) + [Last(log)]
  }

  lemma {:induction false} DeadFragments(log: Log, dead: set<uint64>, tx: uint64)
    requires tx !in dead
    ensures Fragment(Without(log, dead), tx) == Fragment(log, tx)
    decreases |log|
  {
    if log != [] {
      DeadFragments(Init(log), dead, tx);
      var kept := Without(Init(log), dead);
      assert Init(kept + [Last(log)]) == kept && Last(kept + [Last(log)]) == Last(log);
    }
  }

  /** Records of transactions without a commit record can be inserted or removed anywhere. */
  lemma {:induction false} UncommittedIsInvisible(log: Log, dead: set<uint64>)
    requires forall tx :: tx in dead ==> !Commits(log, tx)
    ensures Replayed(Without(log, dead)) == Replayed(log)
    decreases |log|
  {
    ReplayIsCommitOrder(log);
    ReplayIsCommitOrder(Without(log, dead));
    if log != [] {
      assert log == Init(log) + [Last(log)];
      UncommittedIsInvisible(Init(log), dead);
      ReplayIsCommitOrder(Init(log));
      ReplayIsCommitOrder(Without(Init(log), dead));
      var kept := Without(Init(log), dead);
      assert Init(kept + [Last(log)]) == kept && Last(kept + [Last(log)]) == Last(log);
      if Last(log).Commit? { DeadFragments(Init(log), dead, Last(log).txn); }
    }
  }

  predicate NoCommitFrom(log: Log, n: nat) { forall i :: n <= i < |log| ==> !log[i].Commit? }

  /** Losing records after the last commit record loses nothing that takes effect. */
  lemma {:induction false} UncommittedTail(log: Log, n: nat)
    requires n <= |log| && NoCommitFrom(log, n)
    ensures Replayed(log[..n]) == Replayed(log)
    decreases |log|
  {
    if n == |log| {
      assert log[..n] == log;
    } else {
      ReplayIsCommitOrder(log);
      ReplayIsCommitOrder(Init(log));
      assert Init(log)[..n] == log[..n];
      UncommittedTail(Init(log), n);
    }
  }

  // --- one more transaction at the end -------------------------------------------------------------

  predicate OpsOf(ops: seq<Record>, tx: uint64) {
    forall i :: 0 <= i < |ops| ==> IsData(ops[i]) && ops[i].txn == tx
  }

  lemma {:induction false} AppendOps(log: Log, ops: seq<Record>, tx: uint64)
    requires OpsOf(ops, tx)
    ensures CommittedOps(log + ops) == CommittedOps(log)
    ensures Fragment(log + ops, tx) == Fragment(log, tx) + ops
    ensures forall other :: other != tx ==> Fragment(log + ops, other) == Fragment(log, other)
    decreases |ops|
  {
    if ops == [] {
      assert log + ops == log;
    } else {
      assert Init(log + ops) == log + Init(ops) && Last(log + ops) == Last(ops);
      AppendOps(log, Init(ops), tx);
      assert ops == Init(ops) + [Last(ops)];
    }
  }

  /** A transaction logged under id tx after `log` and recovered later brings along whatever an
      earlier, uncommitted transaction left under the same id. Ids restart at every opening of the
      database, so recovery is right if and only if no such fragment is left. */
  lemma ReusedIdIff(log: Log, ops: seq<Record>, tx: uint64)
    requires OpsOf(ops, tx)
    ensures
      var after := Replayed(log + [Begin(tx)] + ops + [Commit(tx)]);
      && after == Replayed(log) + Fragment(log, tx) + ops
      && (after == Replayed(log) + ops <==> Fragment(log, tx) == [])
  {
    var l1 := log + [Begin(tx)];
    var l2 := l1 + ops;
    var l3 := l2 + [Commit(tx)];
    ReplayIsCommitOrder(log);
    ReplayIsCommitOrder(l3);
    assert Init(l1) == log && Init(l3) == l2;
    AppendOps(l1, ops, tx);
    var a, f := CommittedOps(log), Fragment(log, tx);
    assert CommittedOps(l3) == a + (f + ops);
    assert a + (f + ops) == a + f + ops;
    if f == [] { assert a + f == a; }
  }

  /** The situation arises: a put logged without its commit comes back with the next user of id 1. */
  lemma ReusedIdWitness(lost: Record, kept: Record)
    requires IsData(lost) && IsData(kept) && lost.txn == 1 && kept.txn == 1
    ensures Replayed([Begin(1), lost]) == []
    ensures Replayed([Begin(1), lost] + [Begin(1)] + [kept] + [Commit(1)]) == [lost, kept]
  {
    var log := [Begin(1), lost];
    assert Init(log) == [Begin(1)] && Init([Begin(1)]) == [];
    assert CommittedOps([Begin(1)]) == [] && Fragment([Begin(1)], 1) == [];
    ReplayIsCommitOrder(log);
    assert Replayed(log) == [] && Fragment(log, 1) == [lost];
    ReusedIdIff(log, [kept], 1);
  }
}
