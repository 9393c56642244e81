/** One UNIQUE column and its secondary index, as `setRowKeysLocked` and `removeRowKeysLocked`
    maintain it: the exact condition under which the index survives a sequence of writes. */
module UniqueIndex {
  import opened Values

  type Key = string

  /** The key each stored row has in the column; None for a NULL cell. */
  type KeyMap = map<int64, Option<Key>>

  type Index = map<Key, int64>

  datatype KeyOp = SetKey(id: int64, key: Option<Key>) | DropKey(id: int64)

  function Unindex(idx: Index, id: int64, key: Option<Key>): Index {
    if key.Some? && key.value in idx && idx[key.value] == id then idx - {key.value} else idx
  }

  function Enter(idx: Index, id: int64, key: Option<Key>): Index {
    if key.Some? then idx[key.value := id] else idx
  }

  function StepKeys(keys: KeyMap, op: KeyOp): KeyMap {
    match op
    case SetKey(id, key) => keys[id := key]
    case DropKey(id) => keys - {id}
  }

  function StepIndex(keys: KeyMap, idx: Index, op: KeyOp): Index {
    var cleared := if op.id in keys then Unindex(idx, op.id, keys[op.id]) else idx;
    if op.SetKey? then Enter(cleared, op.id, op.key) else cleared
  }

  function RunKeys(keys: KeyMap, ops: seq<KeyOp>): KeyMap
    decreases |ops|
  {
    if ops == [] then keys else RunKeys(StepKeys(keys, ops[0]), ops[1..])
  }

  function RunIndex(keys: KeyMap, idx: Index, ops: seq<KeyOp>): Index
    decreases |ops|
  {
    if ops == [] then idx
    else RunIndex(StepKeys(keys, ops[0]), StepIndex(keys, idx, ops[0]), ops[1..])
  }

  // --- what a correct index is ---------------------------------------------------

  /** Row `id` is stored with key `k`. */
  predicate Holds(keys: KeyMap, id: int64, k: Key) { id in keys && keys[id] == Some(k) }

  predicate Points(idx: Index, k: Key, id: int64) { k in idx && idx[k] == id }

  /** Every index entry names a row that holds the key. */
  ghost predicate Sound(keys: KeyMap, idx: Index) {
    forall k, id :: Points(idx, k, id) ==> Holds(keys, id, k)
  }

  /** Key k maps to row id exactly when row id holds k. Implies that no two rows share a key. */
  ghost predicate Exact(keys: KeyMap, idx: Index) {
    forall k, id :: Points(idx, k, id) <==> Holds(keys, id, k)
  }

  ghost predicate Distinct(keys: KeyMap) {
    forall k, i, j :: Holds(keys, i, k) && Holds(keys, j, k) ==> i == j
  }

  lemma ExactIsUnique(keys: KeyMap, a: Index, b: Index)
    requires Exact(keys, a) && Exact(keys, b)
    ensures a == b
  {
    forall k | k in a ensures k in b && a[k] == b[k] {
      assert Points(a, k, a[k]);
      assert Holds(keys, a[k], k);
      assert Points(b, k, a[k]);
    }
    forall k | k in b ensures k in a {
      assert Points(b, k, b[k]);
      assert Holds(keys, b[k], k);
      assert Points(a, k, b[k]);
    }
  }

  lemma ExactImpliesDistinct(keys: KeyMap, idx: Index)
    requires Exact(keys, idx)
    ensures Distinct(keys)
  {
    forall k, i, j | Holds(keys, i, k) && Holds(keys, j, k) ensures i == j {
      assert Points(idx, k, i) && Points(idx, k, j);
    }
  }

  /** Entering one more row whose key nobody holds keeps the index exact. */
  lemma EnterKeepsExact(keys: KeyMap, idx: Index, id: int64, key: Option<Key>)
    requires Exact(keys, idx) && id !in keys
    requires forall j :: key.Some? ==> !Holds(keys, j, key.value)
    ensures Exact(keys[id := key], Enter(idx, id, key))
  {
    var keys', idx' := keys[id := key], Enter(idx, id, key);
    forall k, j ensures Points(idx', k, j) <==> Holds(keys', j, k) {
      assert Points(idx, k, j) <==> Holds(keys, j, k);
      assert key == Some(k) ==> !Holds(keys, j, k);
    }
  }

  // --- sequences of writes ------------------------------------------------------

  predicate Touches(ops: seq<KeyOp>, id: int64) {
    exists i :: 0 <= i < |ops| && ops[i].id == id
  }

  lemma TouchesCons(ops: seq<KeyOp>, id: int64)
    requires ops != []
    ensures Touches(ops, id) <==> ops[0].id == id || Touches(ops[1..], id)
  {
    if Touches(ops[1..], id) {
      var i :| 0 <= i < |ops[1..]| && ops[1..][i].id == id;
      assert ops[i + 1].id == id;
    }
    if Touches(ops, id) && ops[0].id != id {
      var i :| 0 <= i < |ops| && ops[i].id == id;
      assert ops[1..][i - 1].id == id;
    }
  }

  lemma {:induction false} UntouchedKeeps(keys: KeyMap, ops: seq<KeyOp>, id: int64)
    requires !Touches(ops, id)
    ensures id in RunKeys(keys, ops) <==> id in keys
    ensures id in keys ==> RunKeys(keys, ops)[id] == keys[id]
    decreases |ops|
  {
    if ops != [] {
      TouchesCons(ops, id);
      UntouchedKeeps(StepKeys(keys, ops[0]), ops[1..], id);
    }
  }

  /** At position i some other row takes a key that `id` holds at the end, and `id` is not
      written again afterwards. */
  predicate StolenAt(ops: seq<KeyOp>, final: KeyMap, i: nat, id: int64)
    requires i < |ops|
  {
    && ops[i].SetKey? && ops[i].key.Some? && ops[i].id != id
    && Holds(final, id, ops[i].key.value)
    && !Touches(ops[i + 1..], id)
  }

  ghost predicate NoSteal(ops: seq<KeyOp>, final: KeyMap) {
    forall i, id :: 0 <= i < |ops| ==> !StolenAt(ops, final, i, id)
  }

  /** Rows that will not be written again already own their index entry. */
  ghost predicate Settled(keys: KeyMap, idx: Index, ops: seq<KeyOp>) {
    forall id, k :: Holds(keys, id, k) && !Touches(ops, id) ==> Points(idx, k, id)
  }

  lemma NoStealTail(ops: seq<KeyOp>, final: KeyMap)
    requires ops != []
    ensures NoSteal(ops, final) <==>
            NoSteal(ops[1..], final) && forall id :: !StolenAt(ops, final, 0, id)
  {
    forall i, id | 0 < i < |ops|
      ensures StolenAt(ops, final, i, id) <==> StolenAt(ops[1..], final, i - 1, id)
    {
      assert ops[i + 1..] == ops[1..][i..];
    }
    if NoSteal(ops, final) {
      forall i, id | 0 <= i < |ops[1..]| ensures !StolenAt(ops[1..], final, i, id) {
        assert !StolenAt(ops, final, i + 1, id);
      }
    }
  }

  lemma SoundStep(keys: KeyMap, idx: Index, op: KeyOp)
    requires Sound(keys, idx)
    ensures Sound(StepKeys(keys, op), StepIndex(keys, idx, op))
  {
    var keys', idx' := StepKeys(keys, op), StepIndex(keys, idx, op);
    forall k, id | Points(idx', k, id) ensures Holds(keys', id, k) {
      assert Points(idx, k, id) ==> Holds(keys, id, k);
    }
  }

  lemma SettledStep(keys: KeyMap, idx: Index, ops: seq<KeyOp>)
    requires ops != [] && Settled(keys, idx, ops)
    requires forall id :: !StolenAt(ops, RunKeys(keys, ops), 0, id)
    ensures Settled(StepKeys(keys, ops[0]), StepIndex(keys, idx, ops[0]), ops[1..])
  {
    var keys', idx' := StepKeys(keys, ops[0]), StepIndex(keys, idx, ops[0]);
    forall id, k | Holds(keys', id, k) && !Touches(ops[1..], id) ensures Points(idx', k, id) {
      TouchesCons(ops, id);
      if id != ops[0].id {
        UntouchedKeeps(keys, ops, id);
        assert Points(idx, k, id);
        assert !StolenAt(ops, RunKeys(keys, ops), 0, id);
      }
    }
  }

  lemma {:induction false} SettledRun(keys: KeyMap, idx: Index, ops: seq<KeyOp>)
    requires Sound(keys, idx) && Settled(keys, idx, ops) && NoSteal(ops, RunKeys(keys, ops))
    ensures Exact(RunKeys(keys, ops), RunIndex(keys, idx, ops))
    decreases |ops|
  {
    if ops != [] {
      NoStealTail(ops, RunKeys(keys, ops));
      SettledStep(keys, idx, ops);
      SoundStep(keys, idx, ops[0]);
      SettledRun(StepKeys(keys, ops[0]), StepIndex(keys, idx, ops[0]), ops[1..]);
    }
  }

  /** A row that has lost its entry and is not written again never gets it back. */
  lemma {:induction false} LostStaysLost(keys: KeyMap, idx: Index, ops: seq<KeyOp>, id: int64, k: Key)
    requires Holds(keys, id, k) && !Points(idx, k, id) && !Touches(ops, id)
    ensures !Points(RunIndex(keys, idx, ops), k, id)
    decreases |ops|
  {
    if ops != [] {
      TouchesCons(ops, id);
      LostStaysLost(StepKeys(keys, ops[0]), StepIndex(keys, idx, ops[0]), ops[1..], id, k);
    }
  }

  lemma {:induction false} StolenIsLost(keys: KeyMap, idx: Index, ops: seq<KeyOp>, i: nat, id: int64)
    requires i < |ops| && StolenAt(ops, RunKeys(keys, ops), i, id)
    ensures !Exact(RunKeys(keys, ops), RunIndex(keys, idx, ops))
    decreases |ops|
  {
    var keys', idx', rest := StepKeys(keys, ops[0]), StepIndex(keys, idx, ops[0]), ops[1..];
    if i == 0 {
      var k := ops[0].key.value;
      UntouchedKeeps(keys', rest, id);
      LostStaysLost(keys', idx', rest, id, k);
      assert Holds(RunKeys(keys, ops), id, k);
    } else {
      assert ops[i + 1..] == rest[i..];
      StolenIsLost(keys', idx', rest, i - 1, id);
    }
  }

  /** Starting from an exact index, a run of writes leaves it exact if and only if no write takes
      the key of a row that holds it at the end and is not written again. Intermediate states may
      well have several rows with one key. */
  lemma RunIsExactIff(keys: KeyMap, idx: Index, ops: seq<KeyOp>)
    requires Exact(keys, idx)
    ensures Exact(RunKeys(keys, ops), RunIndex(keys, idx, ops)) <==> NoSteal(ops, RunKeys(keys, ops))
  {
    var final := RunKeys(keys, ops);
    if NoSteal(ops, final) {
      SettledRun(keys, idx, ops);
    } else {
      var i, id :| 0 <= i < |ops| && StolenAt(ops, final, i, id);
      StolenIsLost(keys, idx, ops, i, id);
    }
  }
}
