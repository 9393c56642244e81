/** Histories of committed transactions on one table, and their replay over any later state. */
module TableHistory {
  import opened Values
  import opened Schema
  import opened UniqueIndex
  import opened Tables

  type History = seq<seq<RowOp>>

  function Concat(hist: History): seq<RowOp> {
    if hist == [] then [] else hist[0] + Concat(hist[1..])
  }

  /** Every transaction passed commit-time validation on the state it met. */
  predicate ValidHistory(cols: seq<Column>, rows: Rows, hist: History)
    decreases |hist|
  {
    hist == [] ||
    (&& PutsOk(cols, RunRows(rows, hist[0]), hist[0])
     && ValidHistory(cols, RunRows(rows, hist[0]), hist[1..]))
  }

  lemma {:induction false} RunRowsConcat(rows: Rows, a: seq<RowOp>, b: seq<RowOp>)
    ensures RunRows(rows, a + b) == RunRows(RunRows(rows, a), b)
    decreases |a|
  {
    if a == [] {
      assert a + b == b;
    } else {
      assert (a + b)[1..] == a[1..] + b;
      RunRowsConcat(StepRows(rows, a[0]), a[1..], b);
    }
  }

  lemma {:induction false} RunOpsConcat(t: TableState, a: seq<RowOp>, b: seq<RowOp>)
    ensures RunOps(t, a + b) == RunOps(RunOps(t, a), b)
    decreases |a|
  {
    if a == [] {
      assert a + b == b;
    } else {
      assert (a + b)[1..] == a[1..] + b;
      RunOpsConcat(ApplyOp(t, a[0]), a[1..], b);
    }
  }

  lemma {:induction false} ConcatSplit(a: History, b: History)
    ensures Concat(a + b) == Concat(a) + Concat(b)
    decreases |a|
  {
    if a == [] {
      assert a + b == b;
    } else {
      assert (a + b)[1..] == a[1..] + b;
      ConcatSplit(a[1..], b);
    }
  }

  // --- rows: the last write of each id decides -----------------------------------------------

  predicate Writes(ops: seq<RowOp>, id: int64) { exists i :: 0 <= i < |ops| && ops[i].id == id }

  predicate SameAt(a: Rows, b: Rows, id: int64) {
    (id in a <==> id in b) && (id in a ==> a[id] == b[id])
  }

  lemma WritesCons(ops: seq<RowOp>, id: int64)
    requires ops != []
    ensures Writes(ops, id) <==> ops[0].id == id || Writes(ops[1..], id)
  {
    if Writes(ops[1..], id) {
      var i :| 0 <= i < |ops[1..]| && ops[1..][i].id == id;
      assert ops[i + 1].id == id;
    }
    if Writes(ops, id) && ops[0].id != id {
      var i :| 0 <= i < |ops| && ops[i].id == id;
      assert ops[1..][i - 1].id == id;
    }
  }

  /** After a run the row at `id` depends on the start only if the run does not write it. */
  lemma {:induction false} LastWriteWins(a: Rows, b: Rows, ops: seq<RowOp>, id: int64)
    requires Writes(ops, id) || SameAt(a, b, id)
    ensures SameAt(RunRows(a, ops), RunRows(b, ops), id)
    ensures !Writes(ops, id) ==> SameAt(RunRows(a, ops), a, id)
    decreases |ops|
  {
    if ops != [] {
      WritesCons(ops, id);
      LastWriteWins(StepRows(a, ops[0]), StepRows(b, ops[0]), ops[1..], id);
    }
  }

  lemma WritesPrefix(a: seq<RowOp>, b: seq<RowOp>, id: int64)
    requires Writes(a, id)
    ensures Writes(a + b, id)
  {
    var i :| 0 <= i < |a| && a[i].id == id;
    assert (a + b)[i].id == id;
  }

  /** Replaying a whole history over a state it already passed through ends where it ended. */
  lemma ReplayRows(rows: Rows, before: seq<RowOp>, after: seq<RowOp>)
    ensures RunRows(RunRows(rows, before), before + after) == RunRows(rows, before + after)
  {
    var mid := RunRows(rows, before);
    var a, b := RunRows(mid, before + after), RunRows(rows, before + after);
    forall id ensures SameAt(a, b, id) {
      if !Writes(before + after, id) {
        if Writes(before, id) { WritesPrefix(before, after, id); }
        LastWriteWins(rows, rows, before, id);
      }
      LastWriteWins(mid, rows, before + after, id);
    }
    assert a.Keys == b.Keys by { assert forall id :: id in a <==> SameAt(a, b, id) && id in b; }
    assert forall id :: id in a ==> SameAt(a, b, id);
  }

  // --- index: no key is stolen for good --------------------------------------------------------

  lemma KeyOpsConcat(a: seq<RowOp>, b: seq<RowOp>, ci: nat)
    ensures KeyOps(a + b, ci) == KeyOps(a, ci) + KeyOps(b, ci)
  {
  }

  lemma TouchesSuffix(ops: seq<KeyOp>, i: nat, k: nat, id: int64)
    requires i <= k <= |ops|
    ensures Touches(ops[k..], id) ==> Touches(ops[i..], id)
  {
    if Touches(ops[k..], id) {
      var j :| 0 <= j < |ops[k..]| && ops[k..][j].id == id;
      assert ops[i..][j + k - i].id == id;
    }
  }

  /** Inside one transaction a put of a finally held key is always followed by a write to its holder. */
  lemma TxnNoSteal(cols: seq<Column>, rows: Rows, txn: seq<RowOp>, rest: seq<RowOp>, ci: nat, i: nat, id: int64)
    requires ci in UniqueCols(cols) && i < |txn|
    requires PutsOk(cols, RunRows(rows, txn), txn)
    ensures !StolenAt(KeyOps(txn + rest, ci), KeysOf(RunRows(rows, txn + rest), ci), i, id)
  {
    var ops := KeyOps(txn + rest, ci);
    var mid := RunRows(rows, txn);
    if ops[i].SetKey? && !Touches(ops[i + 1..], id) {
      TouchesSuffix(ops, i + 1, |txn|, id);
      KeyOpsConcat(txn, rest, ci);
      assert ops[|txn|..] == KeyOps(rest, ci);
      UntouchedKeeps(KeysOf(mid, ci), KeyOps(rest, ci), id);
      RunRowsOnColumn(mid, rest, ci);
      RunRowsConcat(rows, txn, rest);
      assert ops[i] == KeyOpOf(txn[i], ci);
      assert UniqueOk(cols, mid, txn[i].id, txn[i].row);
      assert FreeIn(mid, txn[i].id, txn[i].row, ci);
    }
  }

  lemma {:induction false} HistoryNoSteal(cols: seq<Column>, rows: Rows, hist: History, ci: nat)
    requires ci in UniqueCols(cols) && ValidHistory(cols, rows, hist)
    ensures NoSteal(KeyOps(Concat(hist), ci), KeysOf(RunRows(rows, Concat(hist)), ci))
    decreases |hist|
  {
    if hist != [] {
      var txn, rest := hist[0], Concat(hist[1..]);
      HistoryNoSteal(cols, RunRows(rows, txn), hist[1..], ci);
      RunRowsConcat(rows, txn, rest);
      KeyOpsConcat(txn, rest, ci);
      var ops, final := KeyOps(txn + rest, ci), KeysOf(RunRows(rows, txn + rest), ci);
      forall i, id | 0 <= i < |ops| ensures !StolenAt(ops, final, i, id) {
        if i < |txn| {
          TxnNoSteal(cols, rows, txn, rest, ci, i, id);
        } else {
          assert ops[i + 1..] == KeyOps(rest, ci)[i - |txn| + 1..];
          assert !StolenAt(KeyOps(rest, ci), final, i - |txn|, id);
        }
      }
    }
  }

  /** Live memory: running a valid history keeps the index exact. */
  lemma LiveIndexIsExact(t: TableState, hist: History)
    requires ValidIndex(t) && ValidHistory(t.cols, t.rows, hist)
    ensures ValidIndex(RunOps(t, Concat(hist)))
  {
    forall ci | ci in t.uniq
      ensures NoSteal(KeyOps(Concat(hist), ci), KeysOf(RunRows(t.rows, Concat(hist)), ci))
    {
      HistoryNoSteal(t.cols, t.rows, hist, ci);
    }
    RunKeepsIndexIff(t, Concat(hist));
  }

  lemma {:induction false} ValidPrefix(cols: seq<Column>, rows: Rows, a: History, b: History)
    requires ValidHistory(cols, rows, a + b)
    ensures ValidHistory(cols, rows, a)
    decreases |a|
  {
    if a != [] {
      assert (a + b)[1..] == a[1..] + b && (a + b)[0] == a[0];
      ValidPrefix(cols, RunRows(rows, a[0]), a[1..], b);
    }
  }

  /** Same definition, rows and index; only the id counter may differ. */
  predicate SameTable(a: TableState, b: TableState) {
    a.cols == b.cols && a.rows == b.rows && a.uniq == b.uniq
  }

  /** Recovery of one table: the snapshot was taken after `before`, the log still holds everything.
      Replaying all of it over the snapshot gives the live rows and the live index, although on the
      way rows of different times coexist and keys are shared. */
  lemma TableRecovery(t: TableState, before: History, after: History)
    requires ValidIndex(t) && ValidHistory(t.cols, t.rows, before + after)
    ensures
      var snapshot := RunOps(t, Concat(before));
      var live := RunOps(t, Concat(before + after));
      var recovered := RunOps(snapshot, Concat(before + after));
      && SameTable(recovered, live)
      && ValidIndex(recovered)
  {
    var all := Concat(before + after);
    var snapshot := RunOps(t, Concat(before));
    var live, recovered := RunOps(t, all), RunOps(snapshot, all);
    ValidPrefix(t.cols, t.rows, before, after);
    LiveIndexIsExact(t, before);
    LiveIndexIsExact(t, before + after);
    ConcatSplit(before, after);
    RunShape(t, Concat(before));
    RunShape(t, all);
    RunShape(snapshot, all);
    ReplayRows(t.rows, Concat(before), Concat(after));
    forall ci | ci in snapshot.uniq
      ensures NoSteal(KeyOps(all, ci), KeysOf(RunRows(snapshot.rows, all), ci))
    {
      HistoryNoSteal(t.cols, t.rows, before + after, ci);
    }
    RunKeepsIndexIff(snapshot, all);
    SameIndex(recovered, live);
  }

  lemma SameIndex(a: TableState, b: TableState)
    requires ValidIndex(a) && ValidIndex(b) && a.cols == b.cols && a.rows == b.rows
    ensures a.uniq == b.uniq
  {
    forall ci | ci in a.uniq ensures a.uniq[ci] == b.uniq[ci] {
      ExactIsUnique(KeysOf(a.rows, ci), a.uniq[ci], b.uniq[ci]);
    }
  }
}
