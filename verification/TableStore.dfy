/** The mutable table of the storage engine, each method proved against its meaning on values. */
module TableStore {
  import opened Values
  import opened Keys
  import opened Schema
  import opened UniqueIndex
  import opened Tables

  // --- ids in increasing order ---------------------------------------------------------

  predicate Increasing(ids: seq<int64>) { forall i, j :: 0 <= i < j < |ids| ==> ids[i] < ids[j] }

  /** The ids of a set, in increasing order. */
  ghost predicate Lists(ids: seq<int64>, s: set<int64>) {
    Increasing(ids) && forall x :: x in ids <==> x in s
  }

  lemma EmptyListing(a: seq<int64>, s: set<int64>)
    requires Lists(a, s)
    ensures |a| == 0 <==> s == {}
  {
    if |a| > 0 { assert a[0] in a; }
  }

  /** There is only one such listing. */
  lemma {:induction false} ListingIsUnique(a: seq<int64>, b: seq<int64>, s: set<int64>)
    requires Lists(a, s) && Lists(b, s)
    ensures a == b
    decreases |a|
  {
    EmptyListing(a, s);
    EmptyListing(b, s);
    if a != [] {
      assert a[0] in a && b[0] in b;
      var i :| 0 <= i < |b| && b[i] == a[0];
      var j :| 0 <= j < |a| && a[j] == b[0];
      assert a[0] == b[0];
      ListingTail(a, s);
      ListingTail(b, s);
      ListingIsUnique(a[1..], b[1..], s - {a[0]});
      assert a == [a[0]] + a[1..] && b == [b[0]] + b[1..];
    }
  }

  lemma ListingTail(a: seq<int64>, s: set<int64>)
    requires Lists(a, s) && a != []
    ensures Lists(a[1..], s - {a[0]})
  {
    forall x ensures x in a[1..] <==> x in s - {a[0]} {
      if x in s && x != a[0] {
        var i :| 0 <= i < |a| && a[i] == x;
        assert a[1..][i - 1] == x;
      }
    }
  }

  /** Inserts x into an increasing sequence. */
  method InsertSorted(ids: seq<int64>, x: int64) returns (r: seq<int64>)
    requires Increasing(ids) && x !in ids
    ensures Increasing(r) && forall y :: y in r <==> y in ids || y == x
  {
    var k := 0;
    while k < |ids| && ids[k] < x
      invariant 0 <= k <= |ids|
      invariant forall i :: 0 <= i < k ==> ids[i] < x
    {
      k := k + 1;
    }
    assert k < |ids| ==> ids[k] in ids;
    r := ids[..k] + [x] + ids[k..];
    assert r[k] == x;
    forall y | y in ids ensures y in r {
      var i :| 0 <= i < |ids| && ids[i] == y;
      assert r[if i < k then i else i + 1] == y;
    }
  }

  /** The ids of a set in increasing order, as the engine sorts them before handing rows out. */
  method SortIds(s: set<int64>) returns (ids: seq<int64>)
    ensures Lists(ids, s)
  {
    ids := [];
    var todo := s;
    while todo != {}
      invariant todo <= s && Lists(ids, s - todo)
      decreases |todo|
    {
      var id :| id in todo;
      ids := InsertSorted(ids, id);
      todo := todo - {id};
    }
  }

  /** Indexing one more row of a table without duplicates. */
  lemma RebuildStep(rows: Rows, done: Rows, id: int64, idx: Index, ci: nat)
    requires Distinct(KeysOf(rows, ci)) && Exact(KeysOf(done, ci), idx)
    requires id in rows && id !in done && forall j :: j in done ==> j in rows && done[j] == rows[j]
    ensures Exact(KeysOf(done[id := rows[id]], ci), Enter(idx, id, CellKey(rows[id], ci)))
  {
    var keys, key := KeysOf(done, ci), CellKey(rows[id], ci);
    assert KeysOf(done[id := rows[id]], ci) == keys[id := key];
    forall j | key.Some? ensures !Holds(keys, j, key.value) {
      assert Holds(KeysOf(rows, ci), id, key.value);
      assert Holds(keys, j, key.value) ==> Holds(KeysOf(rows, ci), j, key.value);
    }
    EnterKeepsExact(keys, idx, id, key);
  }

  ghost predicate Covers(uniq: Uniq, rows: Rows) {
    forall ci :: ci in uniq ==> Exact(KeysOf(rows, ci), uniq[ci])
  }

  ghost predicate NoDuplicates(cols: seq<Column>, rows: Rows) {
    forall ci :: ci in UniqueCols(cols) ==> Distinct(KeysOf(rows, ci))
  }

  ghost function Restrict(rows: Rows, ids: set<int64>): Rows { map id | id in rows && id in ids :: rows[id] }

  lemma FullRestriction(rows: Rows)
    ensures Restrict(rows, rows.Keys) == rows
  {
  }

  lemma RebuildRow(cols: seq<Column>, rows: Rows, ids: set<int64>, id: int64, uniq: Uniq)
    requires NoDuplicates(cols, rows) && uniq.Keys == UniqueCols(cols)
    requires Covers(uniq, Restrict(rows, ids)) && id in rows && id !in ids
    ensures Covers(Tables.SetRowKeys(uniq, id, rows[id]), Restrict(rows, ids + {id}))
  {
    assert Restrict(rows, ids + {id}) == Restrict(rows, ids)[id := rows[id]];
    forall ci | ci in uniq
      ensures Exact(KeysOf(Restrict(rows, ids + {id}), ci), Enter(uniq[ci], id, CellKey(rows[id], ci)))
    {
      RebuildStep(rows, Restrict(rows, ids), id, uniq[ci], ci);
    }
  }

  // --- the table -------------------------------------------------------------------------

  class Table {
    const id: nat
    const name: string
    const cols: seq<Column>
    var rows: Rows
    var nextID: int64
    var uniq: Uniq

    ghost function View(): TableState
      reads this
    {
      TableState(cols, rows, nextID, uniq)
    }

    /** Every stored row reaches the UNIQUE columns, and these have index maps. */
    ghost predicate Shaped()
      reads this
    {
      && uniq.Keys == UniqueCols(cols)
      && forall id :: id in rows ==> Indexable(cols, rows[id])
    }

    constructor (id: nat, name: string, cols: seq<Column>)
      ensures this.id == id && this.name == name && View() == EmptyTable(cols) && Shaped()
    {
      this.id := id;
      this.name := name;
      this.cols := cols;
      rows := map[];
      nextID := 1;
      uniq := map ci | ci in UniqueCols(cols) :: map[];
    }

    /** A table loaded from a snapshot: the index is rebuilt from the rows. */
    constructor Load(id: nat, name: string, cols: seq<Column>, rows: Rows, nextID: int64)
      requires forall id :: id in rows ==> Indexable(cols, rows[id])
      requires NoDuplicates(cols, rows)
      ensures this.id == id && this.name == name
      ensures Shaped() && View().cols == cols && View().rows == rows && View().nextID == nextID
      ensures ValidIndex(View())
    {
      this.id := id;
      this.name := name;
      this.cols := cols;
      this.rows := rows;
      this.nextID := nextID;
      this.uniq := map ci | ci in UniqueCols(cols) :: map[];
      new;
      BuildUniq();
    }

    method SetRowKeys(id: int64, row: Row)
      requires uniq.Keys == UniqueCols(cols) && Indexable(cols, row)
      modifies this`uniq
      ensures uniq == Tables.SetRowKeys(old(uniq), id, row)
    {
      ghost var was := uniq;
      for ci := 0 to |cols|
        invariant uniq.Keys == was.Keys
        invariant forall cj :: cj in was ==>
          uniq[cj] == if cj < ci then Enter(was[cj], id, CellKey(row, cj)) else was[cj]
      {
        if cols[ci].unique && !row[ci].VNull? {
          var idx: Index := uniq[ci][UniqKey(row[ci]) := id];
          uniq := uniq[ci := idx];
        }
      }
    }

    method RemoveRowKeys(id: int64, row: Row)
      requires uniq.Keys == UniqueCols(cols) && Indexable(cols, row)
      modifies this`uniq
      ensures uniq == Tables.RemoveRowKeys(old(uniq), id, row)
    {
      ghost var was := uniq;
      for ci := 0 to |cols|
        invariant uniq.Keys == was.Keys
        invariant forall cj :: cj in was ==>
          uniq[cj] == if cj < ci then Unindex(was[cj], id, CellKey(row, cj)) else was[cj]
      {
        if cols[ci].unique && !row[ci].VNull? {
          var k := UniqKey(row[ci]);
          if k in uniq[ci] && uniq[ci][k] == id {
            uniq := uniq[ci := uniq[ci] - {k}];
          }
        }
      }
    }

    /** Rebuilding from the rows, in whatever order the map yields them, gives the exact index. */
    method BuildUniq()
      requires forall id :: id in rows ==> Indexable(cols, rows[id])
      requires NoDuplicates(cols, rows)
      modifies this`uniq
      ensures ValidIndex(View())
    {
      uniq := map ci | ci in UniqueCols(cols) :: map[];
      var todo := rows.Keys;
      while todo != {}
        invariant todo <= rows.Keys && uniq.Keys == UniqueCols(cols)
        invariant Covers(uniq, Restrict(rows, rows.Keys - todo))
        decreases |todo|
      {
        var id :| id in todo;
        RebuildRow(cols, rows, rows.Keys - todo, id, uniq);
        SetRowKeys(id, rows[id]);
        assert rows.Keys - (todo - {id}) == (rows.Keys - todo) + {id};
        todo := todo - {id};
      }
      assert rows.Keys - todo == rows.Keys;
      FullRestriction(rows);
      assert Covers(uniq, rows);
    }

    /** Stores a row in memory, as autocommit does after its check. */
    method StoreRow(id: int64, row: Row)
      requires Shaped() && Indexable(cols, row)
      modifies this
      ensures View() == ApplyChecked(old(View()), PutRow(id, row)) && Shaped()
    {
      if id in rows {
        RemoveRowKeys(id, rows[id]);
      }
      rows := rows[id := row];
      SetRowKeys(id, row);
    }

    /** Stores a row in memory, as `applyPut` and replay do. */
    method ApplyPut(id: int64, row: Row)
      requires Shaped() && Indexable(cols, row)
      modifies this
      ensures View() == ApplyOp(old(View()), PutRow(id, row)) && Shaped()
    {
      if id in rows {
        RemoveRowKeys(id, rows[id]);
      }
      rows := rows[id := row];
      if id >= nextID {
        nextID := NextId(id);
      }
      SetRowKeys(id, row);
    }

    method ApplyDelete(id: int64)
      requires Shaped()
      modifies this
      ensures View() == ApplyOp(old(View()), DelRow(id)) && Shaped()
    {
      if id in rows {
        RemoveRowKeys(id, rows[id]);
        rows := rows - {id};
      }
    }

    /** The UNIQUE check over the index maps. */
    method FindClash(id: int64, row: Row) returns (clash: bool)
      requires Shaped() && Indexable(cols, row)
      ensures clash == Clashes(View(), id, row)
    {
      for ci := 0 to |cols|
        invariant forall cj: nat :: cj < ci && cj in uniq && CellKey(row, cj).Some? ==>
          CellKey(row, cj).value in uniq[cj] ==> uniq[cj][CellKey(row, cj).value] == id
      {
        if cols[ci].unique && !row[ci].VNull? {
          var k := UniqKey(row[ci]);
          if k in uniq[ci] && uniq[ci][k] != id {
            assert CellKey(row, ci) == Some(k);
            return true;
          }
        }
      }
      return false;
    }

    /** The part of `put` before the WAL append. */
    method Admission(pkIdx: int, rowID: int64, row: Row, mustExist: bool) returns (verdict: Admission)
      requires Shaped()
      modifies this`nextID
      ensures (verdict, View()) == AdmitPut(old(View()), pkIdx, rowID, row, mustExist)
      ensures verdict.Admit? ==> |verdict.row| == |cols|
    {
      if rowID < 0 { return Reject(NegativeId); }
      if mustExist && rowID == 0 { return Reject(MissingId); }
      if |row| != |cols| { return Reject(WrongWidth); }
      var id := rowID;
      var exists_ := rowID != 0 && rowID in rows;
      if rowID == 0 {
        id := nextID;
        nextID := NextId(nextID);
      } else if exists_ && !mustExist {
        return Reject(Exists);
      } else if !exists_ && mustExist {
        return Reject(NoRow);
      }
      if !exists_ && id >= nextID {
        nextID := NextId(id);
      }
      var stamped := Stamp(row, pkIdx, id);
      var clash := FindClash(id, stamped);
      if clash { return Reject(NotUnique); }
      return Admit(id, stamped);
    }

    method ReserveID() returns (id: int64)
      modifies this`nextID
      ensures id == old(nextID) && nextID == NextId(old(nextID))
    {
      id := nextID;
      nextID := NextId(nextID);
    }

    method Lookup(ci: nat, v: Value) returns (r: Option<int64>)
      ensures r == UniqueGet(View(), ci, v)
    {
      if v.VNull? || ci !in uniq { return None; }
      var k := UniqKey(v);
      if k in uniq[ci] { r := Some(uniq[ci][k]); } else { r := None; }
    }

    /** All rows, by increasing id. */
    method AllRows() returns (ids: seq<int64>, listed: seq<Row>)
      ensures Lists(ids, rows.Keys) && |listed| == |ids|
      ensures forall i :: 0 <= i < |ids| ==> ids[i] in rows && listed[i] == rows[ids[i]]
    {
      ids := SortIds(rows.Keys);
      assert forall i :: 0 <= i < |ids| ==> ids[i] in ids;
      listed := [];
      for i := 0 to |ids|
        invariant |listed| == i
        invariant forall j :: 0 <= j < i ==> ids[j] in rows && listed[j] == rows[ids[j]]
      {
        listed := listed + [rows[ids[i]]];
      }
    }
  }
}
