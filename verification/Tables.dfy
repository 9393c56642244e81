/** In-memory tables as values: the meaning of every write path of the storage engine on one
    table, and what each of them keeps. */
module Tables {
  import opened Values
  import opened Keys
  import opened Schema
  import opened UniqueIndex

  type Rows = map<int64, Row>

  type Uniq = map<nat, Index>

  datatype TableState = TableState(cols: seq<Column>, rows: Rows, nextID: int64, uniq: Uniq)

  datatype RowOp = PutRow(id: int64, row: Row) | DelRow(id: int64)

  /** The key of a row in column ci; None when the cell is NULL. */
  function CellKey(row: Row, ci: nat): Option<Key> {
    if ci >= |row| || row[ci].VNull? then None else Some(UniqKey(row[ci]))
  }

  function KeysOf(rows: Rows, ci: nat): KeyMap {
    map id | id in rows :: CellKey(rows[id], ci)
  }

  function SetRowKeys(uniq: Uniq, id: int64, row: Row): Uniq {
    map ci | ci in uniq :: Enter(uniq[ci], id, CellKey(row, ci))
  }

  function RemoveRowKeys(uniq: Uniq, id: int64, row: Row): Uniq {
    map ci | ci in uniq :: Unindex(uniq[ci], id, CellKey(row, ci))
  }

  /** The id after `id`, wrapping around as int64 does. */
  function NextId(id: int64): int64 { Wrap64(id + 1) }

  function ForgetRow(t: TableState, id: int64): Uniq {
    if id in t.rows then RemoveRowKeys(t.uniq, id, t.rows[id]) else t.uniq
  }

  function ApplyOp(t: TableState, op: RowOp): TableState {
    match op
    case PutRow(id, row) =>
      t.(rows := t.rows[id := row],
         nextID := if id >= t.nextID then NextId(id) else t.nextID,
         uniq := SetRowKeys(ForgetRow(t, id), id, row))
    case DelRow(id) =>
      t.(rows := t.rows - {id}, uniq := ForgetRow(t, id))
  }

  /** The same as the autocommit path does it: its check has dealt with the counter already. */
  function ApplyChecked(t: TableState, op: RowOp): TableState { ApplyOp(t, op).(nextID := t.nextID) }

  function RunOps(t: TableState, ops: seq<RowOp>): TableState
    decreases |ops|
  {
    if ops == [] then t else RunOps(ApplyOp(t, ops[0]), ops[1..])
  }

  function StepRows(rows: Rows, op: RowOp): Rows {
    match op
    case PutRow(id, row) => rows[id := row]
    case DelRow(id) => rows - {id}
  }

  function RunRows(rows: Rows, ops: seq<RowOp>): Rows
    decreases |ops|
  {
    if ops == [] then rows else RunRows(StepRows(rows, ops[0]), ops[1..])
  }

  // --- validity ------------------------------------------------------------------

  /** The index covers exactly the UNIQUE columns and is exact in each. */
  ghost predicate ValidIndex(t: TableState) {
    && t.uniq.Keys == UniqueCols(t.cols)
    && forall ci :: ci in t.uniq ==> Exact(KeysOf(t.rows, ci), t.uniq[ci])
  }

  /** The next automatic id is above every stored id. */
  predicate IdsBelow(t: TableState) { forall id :: id in t.rows ==> id < t.nextID }

  function EmptyTable(cols: seq<Column>): TableState {
    TableState(cols, map[], 1, map ci | ci in UniqueCols(cols) :: map[])
  }

  lemma EmptyTableIsValid(cols: seq<Column>)
    ensures ValidIndex(EmptyTable(cols)) && IdsBelow(EmptyTable(cols))
  {
  }

  // --- one column at a time ------------------------------------------------------

  function KeyOpOf(op: RowOp, ci: nat): KeyOp {
    match op
    case PutRow(id, row) => SetKey(id, CellKey(row, ci))
    case DelRow(id) => DropKey(id)
  }

  function KeyOps(ops: seq<RowOp>, ci: nat): (r: seq<KeyOp>)
    ensures |r| == |ops| && forall i :: 0 <= i < |ops| ==> r[i] == KeyOpOf(ops[i], ci)
  {
    seq(|ops|, i requires 0 <= i < |ops| => KeyOpOf(ops[i], ci))
  }

  lemma ApplyOnColumn(t: TableState, op: RowOp, ci: nat)
    requires ci in t.uniq
    ensures ApplyOp(t, op).rows == StepRows(t.rows, op) && ApplyOp(t, op).uniq.Keys == t.uniq.Keys
    ensures KeysOf(StepRows(t.rows, op), ci) == StepKeys(KeysOf(t.rows, ci), KeyOpOf(op, ci))
    ensures ApplyOp(t, op).uniq[ci] == StepIndex(KeysOf(t.rows, ci), t.uniq[ci], KeyOpOf(op, ci))
  {
  }

  lemma {:induction false} RunRowsOnColumn(rows: Rows, ops: seq<RowOp>, ci: nat)
    ensures KeysOf(RunRows(rows, ops), ci) == RunKeys(KeysOf(rows, ci), KeyOps(ops, ci))
    decreases |ops|
  {
    if ops != [] {
      assert KeysOf(StepRows(rows, ops[0]), ci) == StepKeys(KeysOf(rows, ci), KeyOpOf(ops[0], ci));
      assert KeyOps(ops, ci)[1..] == KeyOps(ops[1..], ci);
      RunRowsOnColumn(StepRows(rows, ops[0]), ops[1..], ci);
    }
  }

  /** Running writes on a table runs them on the rows and, in each UNIQUE column, on its index. */
  lemma {:induction false} RunOnColumn(t: TableState, ops: seq<RowOp>, ci: nat)
    requires ci in t.uniq
    ensures RunOps(t, ops).uniq.Keys == t.uniq.Keys
    ensures RunOps(t, ops).uniq[ci] == RunIndex(KeysOf(t.rows, ci), t.uniq[ci], KeyOps(ops, ci))
    decreases |ops|
  {
    if ops != [] {
      ApplyOnColumn(t, ops[0], ci);
      assert KeyOps(ops, ci)[1..] == KeyOps(ops[1..], ci);
      RunOnColumn(ApplyOp(t, ops[0]), ops[1..], ci);
    }
  }

  lemma {:induction false} RunShape(t: TableState, ops: seq<RowOp>)
    ensures RunOps(t, ops).rows == RunRows(t.rows, ops)
    ensures RunOps(t, ops).cols == t.cols
    ensures RunOps(t, ops).uniq.Keys == t.uniq.Keys
    decreases |ops|
  {
    if ops != [] { RunShape(ApplyOp(t, ops[0]), ops[1..]); }
  }

  /** On a valid table a run of writes keeps the index exact if and only if, in no UNIQUE column,
      a write takes the key of a row that holds it at the end and is not written again. */
  lemma RunKeepsIndexIff(t: TableState, ops: seq<RowOp>)
    requires ValidIndex(t)
    ensures ValidIndex(RunOps(t, ops)) <==>
            forall ci :: ci in t.uniq ==> NoSteal(KeyOps(ops, ci), KeysOf(RunRows(t.rows, ops), ci))
  {
    var t' := RunOps(t, ops);
    RunShape(t, ops);
    forall ci | ci in t.uniq
      ensures Exact(KeysOf(t'.rows, ci), t'.uniq[ci]) <==>
              NoSteal(KeyOps(ops, ci), KeysOf(RunRows(t.rows, ops), ci))
    {
      RunRowsOnColumn(t.rows, ops, ci);
      RunOnColumn(t, ops, ci);
      RunIsExactIff(KeysOf(t.rows, ci), t.uniq[ci], KeyOps(ops, ci));
    }
  }

  // --- commit-time validation -------------------------------------------------------

  /** Row `row` may be stored under `id` next to `rows`: no other row has its key in column ci. */
  predicate FreeIn(rows: Rows, id: int64, row: Row, ci: nat) {
    forall j :: j in rows && j != id && CellKey(row, ci).Some? ==> CellKey(rows[j], ci) != CellKey(row, ci)
  }

  /** `checkUnique` over every UNIQUE column. */
  predicate UniqueOk(cols: seq<Column>, rows: Rows, id: int64, row: Row) {
    forall ci :: ci in UniqueCols(cols) ==> FreeIn(rows, id, row, ci)
  }

  /** Every buffered put, superseded ones included, passes the check against the final rows. */
  predicate PutsOk(cols: seq<Column>, final: Rows, ops: seq<RowOp>) {
    forall i :: 0 <= i < |ops| && ops[i].PutRow? ==> UniqueOk(cols, final, ops[i].id, ops[i].row)
  }

  /** A commit that passes validation leaves the index exact, whatever keys the operations hand
      around among themselves. */
  lemma CommitKeepsIndex(t: TableState, ops: seq<RowOp>)
    requires ValidIndex(t) && PutsOk(t.cols, RunRows(t.rows, ops), ops)
    ensures ValidIndex(RunOps(t, ops))
  {
    var final := RunRows(t.rows, ops);
    forall ci | ci in t.uniq ensures NoSteal(KeyOps(ops, ci), KeysOf(final, ci)) {
      forall i, id | 0 <= i < |ops| ensures !StolenAt(KeyOps(ops, ci), KeysOf(final, ci), i, id) {
        if ops[i].PutRow? {
          assert UniqueOk(t.cols, final, ops[i].id, ops[i].row);
          assert FreeIn(final, ops[i].id, ops[i].row, ci);
        }
      }
    }
    RunKeepsIndexIff(t, ops);
  }

  /** Leaving superseded puts out of the check is not enough: when row a takes row b's key and then
      gives it up for a free one, only the last put passes the check, and b's entry is lost. */
  lemma SupersededPutsMatter(t: TableState, a: int64, b: int64, taken: Row, free: Row, ci: nat)
    requires ValidIndex(t) && ci in t.uniq
    requires b in t.rows && b != a
    requires CellKey(taken, ci).Some? && CellKey(t.rows[b], ci) == CellKey(taken, ci)
    requires UniqueOk(t.cols, t.rows, a, free)
    ensures
      var ops := [PutRow(a, taken), PutRow(a, free)];
      && UniqueOk(t.cols, RunRows(t.rows, ops), a, free)
      && !PutsOk(t.cols, RunRows(t.rows, ops), ops)
      && !ValidIndex(RunOps(t, ops))
  {
    var ops := [PutRow(a, taken), PutRow(a, free)];
    var final := t.rows[a := free];
    RewrittenRow(t.rows, a, taken, free);
    assert forall cj :: FreeIn(t.rows, a, free, cj) ==> FreeIn(final, a, free, cj);
    assert !PutsOk(t.cols, final, ops) by {
      assert b in final && !FreeIn(final, a, taken, ci);
      assert ops[0].PutRow? && !UniqueOk(t.cols, final, ops[0].id, ops[0].row);
    }
    assert !ValidIndex(RunOps(t, ops)) by {
      assert StolenAt(KeyOps(ops, ci), KeysOf(final, ci), 0, b);
      RunKeepsIndexIff(t, ops);
    }
  }

  lemma RewrittenRow(rows: Rows, a: int64, first: Row, second: Row)
    ensures RunRows(rows, [PutRow(a, first), PutRow(a, second)]) == rows[a := second]
  {
    var ops := [PutRow(a, first), PutRow(a, second)];
    assert ops[1..] == [PutRow(a, second)] && ops[1..][1..] == [];
    assert RunRows(rows, ops) == RunRows(rows[a := first], ops[1..]);
    assert rows[a := first][a := second] == rows[a := second];
  }

  // --- autocommit writes --------------------------------------------------------------

  datatype WriteError = NegativeId | MissingId | WrongWidth | Exists | NoRow | NotUnique

  datatype Admission = Reject(error: WriteError) | Admit(id: int64, row: Row)

  function IdFor(t: TableState, rowID: int64): int64 { if rowID == 0 then t.nextID else rowID }

  function Stamp(row: Row, pkIdx: int, id: int64): Row {
    if 0 <= pkIdx < |row| then row[pkIdx := VInt(id)] else row
  }

  function Reserved(t: TableState, rowID: int64): int64 {
    if rowID == 0 then NextId(t.nextID)
    else if rowID !in t.rows && rowID >= t.nextID then NextId(rowID)
    else t.nextID
  }

  predicate Clashes(t: TableState, id: int64, row: Row) {
    exists ci :: ci in t.uniq && CellKey(row, ci).Some? &&
                 CellKey(row, ci).value in t.uniq[ci] && t.uniq[ci][CellKey(row, ci).value] != id
  }

  /** `put` up to the WAL append: the verdict, and the table with the id counter it leaves behind
      (it moves on even when the UNIQUE check fails). */
  function AdmitPut(t: TableState, pkIdx: int, rowID: int64, row: Row, mustExist: bool)
    : (Admission, TableState)
  {
    if rowID < 0 then (Reject(NegativeId), t)
    else if mustExist && rowID == 0 then (Reject(MissingId), t)
    else if |row| != |t.cols| then (Reject(WrongWidth), t)
    else if rowID != 0 && rowID in t.rows && !mustExist then (Reject(Exists), t)
    else if rowID != 0 && rowID !in t.rows && mustExist then (Reject(NoRow), t)
    else
      var id := IdFor(t, rowID);
      var row' := Stamp(row, pkIdx, id);
      var t' := t.(nextID := Reserved(t, rowID));
      (if Clashes(t, id, row') then Reject(NotUnique) else Admit(id, row'), t')
  }

  function PutState(t: TableState, pkIdx: int, rowID: int64, row: Row, mustExist: bool): TableState {
    var (verdict, t') := AdmitPut(t, pkIdx, rowID, row, mustExist);
    if verdict.Admit? then ApplyChecked(t', PutRow(verdict.id, verdict.row)) else t'
  }

  /** On a valid index the UNIQUE check rejects a row exactly when a linear scan finds another row
      with one of its non-NULL values. */
  lemma ClashesIsScan(t: TableState, id: int64, row: Row)
    requires ValidIndex(t)
    ensures Clashes(t, id, row) <==> !UniqueOk(t.cols, t.rows, id, row)
  {
    forall ci | ci in t.uniq
      ensures (CellKey(row, ci).Some? && CellKey(row, ci).value in t.uniq[ci] &&
               t.uniq[ci][CellKey(row, ci).value] != id) <==> !FreeIn(t.rows, id, row, ci)
    {
      if CellKey(row, ci).Some? {
        var k := CellKey(row, ci).value;
        var keys, idx := KeysOf(t.rows, ci), t.uniq[ci];
        if k in idx { assert Points(idx, k, idx[k]) <==> Holds(keys, idx[k], k); }
        forall j | j in t.rows ensures CellKey(t.rows[j], ci) == Some(k) <==> Points(idx, k, j) {
          assert Points(idx, k, j) <==> Holds(keys, j, k);
        }
      }
    }
  }

  lemma AdmittedIsPutsOk(t: TableState, id: int64, row: Row)
    requires UniqueOk(t.cols, t.rows, id, row)
    ensures PutsOk(t.cols, RunRows(t.rows, [PutRow(id, row)]), [PutRow(id, row)])
  {
    var op := PutRow(id, row);
    assert RunRows(t.rows, [op]) == t.rows[id := row] by { assert [op][1..] == []; }
    forall ci | ci in UniqueCols(t.cols) ensures FreeIn(t.rows[id := row], id, row, ci) {
      assert FreeIn(t.rows, id, row, ci);
    }
  }

  lemma RunOne(t: TableState, op: RowOp)
    ensures RunOps(t, [op]) == ApplyOp(t, op) && RunRows(t.rows, [op]) == StepRows(t.rows, op)
  {
    assert [op][1..] == [];
  }

  /** A put keeps the index exact, whether it is accepted or rejected. */
  lemma PutKeepsIndex(t: TableState, pkIdx: int, rowID: int64, row: Row, mustExist: bool)
    requires ValidIndex(t)
    ensures ValidIndex(PutState(t, pkIdx, rowID, row, mustExist))
  {
    var (verdict, t') := AdmitPut(t, pkIdx, rowID, row, mustExist);
    assert ValidIndex(t');
    if verdict.Admit? {
      ClashesIsScan(t, verdict.id, verdict.row);
      AdmittedIsPutsOk(t', verdict.id, verdict.row);
      CommitKeepsIndex(t', [PutRow(verdict.id, verdict.row)]);
      RunOne(t', PutRow(verdict.id, verdict.row));
    }
  }

  lemma DeleteKeepsIndex(t: TableState, id: int64)
    requires ValidIndex(t)
    ensures ValidIndex(ApplyOp(t, DelRow(id)))
  {
    CommitKeepsIndex(t, [DelRow(id)]);
    RunOne(t, DelRow(id));
  }

  // --- the id counter -----------------------------------------------------------------

  /** Storing a row keeps the counter above every id if and only if the id is not the largest
      int64: that one wraps the counter around to the smallest. */
  lemma ApplyPutKeepsIdsBelowIff(t: TableState, id: int64, row: Row)
    requires IdsBelow(t)
    ensures IdsBelow(ApplyOp(t, PutRow(id, row))) <==> id != MAX_INT64
  {
    assert id in ApplyOp(t, PutRow(id, row)).rows;
  }

  /** One row under the largest id is enough: the counter starts over below it. */
  lemma LargestIdWraps(cols: seq<Column>, row: Row)
    ensures
      var t := ApplyOp(EmptyTable(cols), PutRow(MAX_INT64, row));
      IdsBelow(EmptyTable(cols)) && t.nextID == MIN_INT64 && !IdsBelow(t)
  {
    var t := ApplyOp(EmptyTable(cols), PutRow(MAX_INT64, row));
    ApplyPutKeepsIdsBelowIff(EmptyTable(cols), MAX_INT64, row);
    assert NextId(MAX_INT64) == MIN_INT64;
  }

  /** Below the wrap-around an automatic id is fresh. */
  lemma AutoIdIsFresh(t: TableState, pkIdx: int, row: Row)
    requires IdsBelow(t) && t.nextID > 0
    ensures
      var (verdict, t') := AdmitPut(t, pkIdx, 0, row, false);
      && (verdict.Admit? ==> verdict.id == t.nextID && verdict.id !in t.rows)
      && (t.nextID != MAX_INT64 ==> IdsBelow(t') && t'.nextID > 0 && IdsBelow(PutState(t, pkIdx, 0, row, false)))
  {
  }

  /** Every accepted put other than of the largest id keeps the counter positive and above all ids. */
  lemma PutKeepsIdsBelow(t: TableState, pkIdx: int, rowID: int64, row: Row, mustExist: bool)
    requires IdsBelow(t) && t.nextID > 0 && IdFor(t, rowID) != MAX_INT64
    ensures IdsBelow(PutState(t, pkIdx, rowID, row, mustExist))
    ensures PutState(t, pkIdx, rowID, row, mustExist).nextID >= t.nextID
  {
  }

  // --- lookups ------------------------------------------------------------------------

  /** `UniqueGet`: the row id the index gives for v, if any. */
  function UniqueGet(t: TableState, ci: nat, v: Value): Option<int64> {
    if v.VNull? || ci !in t.uniq || UniqKey(v) !in t.uniq[ci] then None
    else Some(t.uniq[ci][UniqKey(v)])
  }

  /** A row id is the answer of the index exactly when a scan finds the value in that row. */
  lemma UniqueGetIsScan(t: TableState, ci: nat, v: Value, id: int64)
    requires ValidIndex(t) && ci in t.uniq
    ensures UniqueGet(t, ci, v) == Some(id) <==>
            !v.VNull? && id in t.rows && ci < |t.rows[id]| && t.rows[id][ci] == v
  {
    if !v.VNull? {
      var k := UniqKey(v);
      assert Points(t.uniq[ci], k, id) <==> Holds(KeysOf(t.rows, ci), id, k);
      if id in t.rows && ci < |t.rows[id]| { UniqKeyInjective(t.rows[id][ci], v); }
    }
  }

  // --- every reachable table ------------------------------------------------------------

  datatype TableStep =
    | Put(pkIdx: int, rowID: int64, row: Row, mustExist: bool)
    | Delete(id: int64)
    | Reserve
    | CommitOps(ops: seq<RowOp>)

  function Step(t: TableState, s: TableStep): TableState {
    match s
    case Put(pkIdx, rowID, row, mustExist) => PutState(t, pkIdx, rowID, row, mustExist)
    case Delete(id) => ApplyOp(t, DelRow(id))
    case Reserve => t.(nextID := NextId(t.nextID))
    case CommitOps(ops) => if PutsOk(t.cols, RunRows(t.rows, ops), ops) then RunOps(t, ops) else t
  }

  function Run(t: TableState, steps: seq<TableStep>): TableState
    decreases |steps|
  {
    if steps == [] then t else Run(Step(t, steps[0]), steps[1..])
  }

  /** In every state reached from an empty table the UNIQUE index is exact. */
  lemma {:induction false} ReachableIndexIsExact(t: TableState, steps: seq<TableStep>)
    requires ValidIndex(t)
    ensures ValidIndex(Run(t, steps))
    decreases |steps|
  {
    if steps != [] {
      match steps[0] {
        case Put(pkIdx, rowID, row, mustExist) => PutKeepsIndex(t, pkIdx, rowID, row, mustExist);
        case Delete(id) => DeleteKeepsIndex(t, id);
        case Reserve =>
        case CommitOps(ops) => if PutsOk(t.cols, RunRows(t.rows, ops), ops) { CommitKeepsIndex(t, ops); }
      }
      ReachableIndexIsExact(Step(t, steps[0]), steps[1..]);
    }
  }

  lemma {:induction false} RunOpsKeepsIdsBelow(t: TableState, ops: seq<RowOp>)
    requires IdsBelow(t)
    requires forall i :: 0 <= i < |ops| && ops[i].PutRow? ==> ops[i].id != MAX_INT64
    ensures IdsBelow(RunOps(t, ops)) && RunOps(t, ops).nextID >= t.nextID
    decreases |ops|
  {
    if ops != [] { RunOpsKeepsIdsBelow(ApplyOp(t, ops[0]), ops[1..]); }
  }

  /** No step of the run stores or reserves the largest id. */
  predicate BelowLimit(t: TableState, steps: seq<TableStep>)
    decreases |steps|
  {
    steps == [] ||
    (&& (match steps[0]
         case Put(_, rowID, _, _) => IdFor(t, rowID) != MAX_INT64
         case Delete(_) => true
         case Reserve => t.nextID != MAX_INT64
         case CommitOps(ops) => forall i :: 0 <= i < |ops| && ops[i].PutRow? ==> ops[i].id != MAX_INT64)
     && BelowLimit(Step(t, steps[0]), steps[1..]))
  }

  /** As long as the largest id is never used, the counter stays above every stored id. */
  lemma {:induction false} ReachableIdsBelow(t: TableState, steps: seq<TableStep>)
    requires IdsBelow(t) && t.nextID > 0 && BelowLimit(t, steps)
    ensures IdsBelow(Run(t, steps)) && Run(t, steps).nextID >= t.nextID
    decreases |steps|
  {
    if steps != [] {
      match steps[0] {
        case Put(pkIdx, rowID, row, mustExist) => PutKeepsIdsBelow(t, pkIdx, rowID, row, mustExist);
        case Delete(id) =>
        case Reserve =>
        case CommitOps(ops) => if PutsOk(t.cols, RunRows(t.rows, ops), ops) { RunOpsKeepsIdsBelow(t, ops); }
      }
      ReachableIdsBelow(Step(t, steps[0]), steps[1..]);
    }
  }
}
