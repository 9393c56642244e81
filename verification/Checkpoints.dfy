/** Snapshots and what loading one gives back, equality of engines up to id counters, and what one
    more log record does to a replay. */
module Checkpoints {
  import opened Values
  import opened Schema
  import opened UniqueIndex
  import opened Tables
  import opened TableHistory
  import opened WalCodec
  import opened LogReplay
  import opened EngineModel

  // --- snapshots --------------------------------------------------------------------------------

  datatype SnapshotTable = SnapshotTable(cols: seq<Column>, rows: Rows, nextID: int64)

  /** A snapshot stores rows and counters, but no index and no next table id. */
  datatype Snapshot = Snapshot(ids: map<string, nat>, tabs: map<nat, SnapshotTable>)

  function Save(e: EngineState): Snapshot {
    Snapshot(e.ids, map t | t in e.tabs :: SnapshotTable(e.tabs[t].cols, e.tabs[t].rows, e.tabs[t].nextID))
  }

  /** The index `buildUniqLocked` makes of a column without duplicates. */
  ghost function IndexOf(keys: KeyMap): Index { map k | k in HeldKeys(keys) :: HolderOf(keys, k) }

  ghost function HeldKeys(keys: KeyMap): (s: set<Key>)
    ensures forall k :: k in s <==> exists id :: Holds(keys, id, k)
  {
    var s := set id | id in keys && keys[id].Some? :: keys[id].value;
    assert forall k, id :: Holds(keys, id, k) ==> k in s;
    assert forall k :: k in s ==>
      exists id :: id in keys && keys[id].Some? && keys[id].value == k && Holds(keys, id, k);
    s
  }

  ghost function HolderOf(keys: KeyMap, k: Key): (id: int64)
    requires k in HeldKeys(keys)
    ensures Holds(keys, id, k)
  {
    var id :| Holds(keys, id, k);
    id
  }

  lemma IndexOfIsExact(keys: KeyMap)
    requires Distinct(keys)
    ensures Exact(keys, IndexOf(keys))
  {
    var idx := IndexOf(keys);
    forall k, id ensures Points(idx, k, id) <==> Holds(keys, id, k) {
      if Holds(keys, id, k) { assert k in HeldKeys(keys) && Holds(keys, idx[k], k); }
    }
  }

  ghost function LoadTable(s: SnapshotTable): TableState {
    TableState(s.cols, s.rows, s.nextID, map ci | ci in UniqueCols(s.cols) :: IndexOf(KeysOf(s.rows, ci)))
  }

  /** One more than the largest table id. */
  ghost function Top(ids: set<nat>): (n: nat)
    ensures forall t :: t in ids ==> t < n
    ensures n > 0 ==> n - 1 in ids
    decreases |ids|
  {
    if ids == {} then 0
    else
      var x :| x in ids;
      var rest := Top(ids - {x});
      assert forall t :: t in ids ==> t == x || t in ids - {x};
      if rest > x then rest else x + 1
  }

  ghost function Load(s: Snapshot): EngineState {
    EngineState(s.ids, map t | t in s.tabs :: LoadTable(s.tabs[t]), Top(s.tabs.Keys))
  }

  /** Table ids are 0 .. nextTable - 1: nothing was dropped. */
  ghost predicate Dense(e: EngineState) { forall t: nat :: t in e.tabs <==> t < e.nextTable }

  lemma LoadTableOfSaved(t: TableState)
    requires ValidIndex(t)
    ensures LoadTable(SnapshotTable(t.cols, t.rows, t.nextID)) == t
  {
    var t' := LoadTable(SnapshotTable(t.cols, t.rows, t.nextID));
    forall ci | ci in t.uniq ensures t'.uniq[ci] == t.uniq[ci] {
      ExactImpliesDistinct(KeysOf(t.rows, ci), t.uniq[ci]);
      IndexOfIsExact(KeysOf(t.rows, ci));
      ExactIsUnique(KeysOf(t.rows, ci), t.uniq[ci], t'.uniq[ci]);
    }
    assert t'.uniq == t.uniq;
  }

  /** Saving and loading a healthy engine gives it back, indexes included, except that the table id
      counter starts over after the largest id still in use. So the engine comes back whole if and only
      if the table created last has not been dropped. */
  lemma SnapshotRoundTrip(e: EngineState)
    requires Healthy(e)
    ensures Load(Save(e)) == e.(nextTable := Top(e.tabs.Keys))
    ensures Load(Save(e)) == e <==> e.nextTable == 0 || e.nextTable - 1 in e.tabs
  {
    var e' := Load(Save(e));
    forall t | t in e.tabs ensures e'.tabs[t] == e.tabs[t] { LoadTableOfSaved(e.tabs[t]); }
    assert e'.tabs == e.tabs;
    assert Save(e).tabs.Keys == e.tabs.Keys;
    var n := Top(e.tabs.Keys);
    assert n <= e.nextTable;
    assert n > 0 ==> n - 1 in e.tabs.Keys;
  }

  /** A table is created and dropped, a snapshot taken and loaded: the next table gets its id again. */
  lemma DroppedIdComesBack(name: string, cols: seq<Column>)
    ensures
      var e := RemoveTable(AddTable(EmptyEngine, name, cols), name);
      Healthy(e) && e.nextTable == 1 && Load(Save(e)).nextTable == 0
  {
    var e := RemoveTable(AddTable(EmptyEngine, name, cols), name);
    assert e.tabs.Keys == {};
    SnapshotRoundTrip(e);
  }

  // --- equality up to id counters ------------------------------------------------------------------

  lemma SameOp(a: TableState, b: TableState, op: RowOp)
    requires SameTable(a, b)
    ensures SameTable(ApplyOp(a, op), ApplyOp(b, op))
  {
  }

  lemma SameRowStep(a: EngineState, b: EngineState, r: Record)
    requires SameEngine(a, b) && IsRow(r) && r.table in a.tabs
    ensures SameEngine(ApplyRecord(a, r).value, ApplyRecord(b, r).value)
  {
    var a', b' := ApplyRecord(a, r).value, ApplyRecord(b, r).value;
    RowKeepsCatalog(a, r);
    RowKeepsCatalog(b, r);
    SameOp(a.tabs[r.table], b.tabs[r.table], RowOpOf(r));
    forall t | t in a'.tabs ensures t in b'.tabs && SameTable(a'.tabs[t], b'.tabs[t]) {
      assert SameTable(a.tabs[t], b.tabs[t]);
    }
  }

  lemma RowKeepsCatalog(e: EngineState, r: Record)
    requires IsRow(r) && r.table in e.tabs
    ensures CatalogOf(ApplyRecord(e, r).value) == CatalogOf(e) && ApplyRecord(e, r).value.tabs.Keys == e.tabs.Keys
  {
    assert CatalogOf(ApplyRecord(e, r).value).defs == CatalogOf(e).defs;
  }

  lemma SameCatalogStep(a: EngineState, b: EngineState, r: Record)
    requires SameEngine(a, b) && (r.Create? || r.Drop?)
    ensures SameEngine(ApplyRecord(a, r).value, ApplyRecord(b, r).value)
  {
    SameCatalog(a, b);
    var a', b' := ApplyRecord(a, r).value, ApplyRecord(b, r).value;
    assert a'.tabs.Keys == b'.tabs.Keys;
    assert forall t :: t in a'.tabs ==> SameTable(a'.tabs[t], b'.tabs[t]);
    assert CatalogOf(a').defs == CatalogOf(b').defs;
  }

  lemma SameStep(a: EngineState, b: EngineState, r: Record)
    requires SameEngine(a, b)
    ensures ApplyRecord(a, r).Some? <==> ApplyRecord(b, r).Some?
    ensures ApplyRecord(a, r).Some? ==> SameEngine(ApplyRecord(a, r).value, ApplyRecord(b, r).value)
  {
    if IsRow(r) {
      if r.table in a.tabs { SameRowStep(a, b, r); }
    } else if r.Create? || r.Drop? {
      SameCatalogStep(a, b, r);
    }
  }

  lemma {:induction false} SameRun(a: EngineState, b: EngineState, ops: seq<Record>)
    requires SameEngine(a, b)
    ensures ApplyAll(a, ops).Some? <==> ApplyAll(b, ops).Some?
    ensures ApplyAll(a, ops).Some? ==> SameEngine(ApplyAll(a, ops).value, ApplyAll(b, ops).value)
    decreases |ops|
  {
    if ops != [] {
      SameStep(a, b, ops[0]);
      match ApplyRecord(a, ops[0])
      case None =>
      case Some(a') => SameRun(a', ApplyRecord(b, ops[0]).value, ops[1..]);
    }
  }

  lemma SameIsEquivalence(a: EngineState, b: EngineState, c: EngineState)
    ensures SameEngine(a, a)
    ensures SameEngine(a, b) ==> SameEngine(b, a)
    ensures SameEngine(a, b) && SameEngine(b, c) ==> SameEngine(a, c)
  {
  }

  lemma SameHealth(a: EngineState, b: EngineState)
    requires SameEngine(a, b)
    ensures Healthy(a) <==> Healthy(b)
    ensures Dense(a) <==> Dense(b)
  {
    assert forall t :: t in a.tabs ==> (ValidIndex(a.tabs[t]) <==> ValidIndex(b.tabs[t]));
  }

  lemma SameValidity(a: EngineState, b: EngineState, txn: seq<Record>)
    requires SameEngine(a, b)
    ensures ValidTxn(a, txn) <==> ValidTxn(b, txn)
  {
    assert forall t :: t in a.tabs ==> SameTable(a.tabs[t], b.tabs[t]);
  }

  lemma DenseStep(e: EngineState, txn: seq<Record>)
    requires WellFormed(e) && Dense(e) && ValidTxn(e, txn)
    ensures Dense(Exec(e, txn))
  {
    ValidTxnSucceeds(e, txn);
    ApplyAllCatalog(e, txn);
    var e' := Exec(e, txn);
    assert e'.tabs.Keys == CatalogOf(e').defs.Keys;
    if IsCreateTxn(e, txn) {
      assert txn == [txn[0]] && txn[1..] == [];
      assert CatRun(CatalogOf(e), txn) == CatStep(CatalogOf(e), txn[0]);
    } else {
      RowTxnOk(CatalogOf(e), txn);
      SameCatalog(e', e);
    }
  }

  lemma {:induction false} DenseRun(e: EngineState, hist: Txns)
    requires WellFormed(e) && Dense(e) && ValidRun(e, hist)
    ensures Dense(ExecAll(e, hist))
    decreases |hist|
  {
    if hist != [] {
      ValidTxnSucceeds(e, hist[0]);
      DenseStep(e, hist[0]);
      DenseRun(Exec(e, hist[0]), hist[1..]);
    }
  }

  // --- appending one record ---------------------------------------------------------------------------

  lemma AppendBegin(log: Log, tx: uint64)
    ensures Replayed(log + [Begin(tx)]) == Replayed(log)
    ensures forall x :: Fragment(log + [Begin(tx)], x) == Fragment(log, x)
  {
    ReplayIsCommitOrder(log);
    ReplayIsCommitOrder(log + [Begin(tx)]);
    assert Init(log + [Begin(tx)]) == log;
  }

  lemma AppendData(log: Log, r: Record)
    requires IsData(r)
    ensures Replayed(log + [r]) == Replayed(log)
    ensures Fragment(log + [r], r.txn) == Fragment(log, r.txn) + [r]
    ensures forall x :: x != r.txn ==> Fragment(log + [r], x) == Fragment(log, x)
  {
    ReplayIsCommitOrder(log);
    ReplayIsCommitOrder(log + [r]);
    assert Init(log + [r]) == log;
  }

  lemma AppendCommit(log: Log, tx: uint64)
    ensures Replayed(log + [Commit(tx)]) == Replayed(log) + Fragment(log, tx)
    ensures Fragment(log + [Commit(tx)], tx) == []
    ensures forall x :: x != tx ==> Fragment(log + [Commit(tx)], x) == Fragment(log, x)
  {
    ReplayIsCommitOrder(log);
    ReplayIsCommitOrder(log + [Commit(tx)]);
    assert Init(log + [Commit(tx)]) == log;
  }
}
