/** The loops behind INSERT, UPDATE, DELETE and the foreign-key checks. */
module DmlLoops {
  import opened Values
  import opened Schema
  import opened Ast
  import opened Eval
  import TM = TxnModel
  import opened Accessor
  import P = Plans
  import opened Shortcut
  import opened Dml

  /** `checkFK`. */
  method CheckFk(acc: Acc, cols: seq<Column>, row: Row) returns (ok: bool)
    requires |row| == |cols|
    ensures ok <==> FkRowOk(acc, cols, row)
  {
    for ci := 0 to |cols|
      invariant forall k: nat :: k < ci && cols[k].fkTable != "" && !row[k].VNull? ==>
        row[k].VInt? && row[k].i in RowsAt(acc, cols[k].fkTable)
    {
      var v := row[ci];
      if cols[ci].fkTable != "" && !v.VNull? {
        if !v.VInt? { return false; }
        if v.i !in RowsAt(acc, cols[ci].fkTable) { return false; }
      }
    }
    return true;
  }

  /** The rows of one child column. */
  method ColumnRefers(acc: Acc, child: string, ci: nat, parent: string, key: int64) returns (b: bool)
    requires child in acc.e.ids && ColsAt(acc, child).Some? && ci < |ColsAt(acc, child).value|
    requires ColsAt(acc, child).value[ci].fkTable == parent
    ensures b <==> exists id :: RefersAt(acc, child, ci, id, parent, key) && !(child == parent && id == key)
  {
    var rows := RowsAt(acc, child);
    var stored := Listing(rows);
    ListingLists(rows);
    for i := 0 to |stored|
      invariant forall k :: 0 <= k < i && !(child == parent && stored[k].id == key) ==>
        !RefersAt(acc, child, ci, stored[k].id, parent, key)
    {
      var row := stored[i].row;
      if !(child == parent && stored[i].id == key) && |row| > ci && row[ci] == VInt(key) {
        assert RefersAt(acc, child, ci, stored[i].id, parent, key);
        return true;
      }
    }
    forall id | RefersAt(acc, child, ci, id, parent, key) ensures child == parent && id == key {
      assert P.Stored(id, rows[id]) in stored;
    }
    return false;
  }

  method TableRefers(acc: Acc, child: string, parent: string, key: int64) returns (b: bool)
    requires child in acc.e.ids && ColsAt(acc, child).Some?
    ensures b <==> exists ci, id :: RefersAt(acc, child, ci, id, parent, key) && !(child == parent && id == key)
  {
    var cols := ColsAt(acc, child).value;
    for ci := 0 to |cols|
      invariant forall k, id :: 0 <= k < ci && !(child == parent && id == key) ==>
        !RefersAt(acc, child, k, id, parent, key)
    {
      if cols[ci].fkTable == parent {
        b := ColumnRefers(acc, child, ci, parent, key);
        if b { return; }
      }
    }
    return false;
  }

  /** `fkReferenced`: every table of the catalog, in whatever order. */
  method FkReferenced(acc: Acc, parent: string, key: int64) returns (b: bool)
    ensures b <==> Referenced(acc, parent, key)
  {
    var todo := acc.e.ids.Keys;
    while todo != {}
      invariant todo <= acc.e.ids.Keys
      invariant forall child, ci, id :: child !in todo && !(child == parent && id == key) ==>
        !RefersAt(acc, child, ci, id, parent, key)
      decreases |todo|
    {
      var child :| child in todo;
      if ColsAt(acc, child).Some? {
        b := TableRefers(acc, child, parent, key);
        if b { return; }
      }
      todo := todo - {child};
    }
    return false;
  }

  /** The row loop of `execInsert`. */
  method InsertLoop(acc: Acc, name: string, cols: seq<Column>, targets: seq<nat>, rows: seq<seq<Expr>>, now: int)
    returns (after: Acc, res: Outcome<nat>)
    requires forall i :: 0 <= i < |targets| ==> targets[i] < |cols|
    ensures Effect(after, res) == InsertAll(acc, name, cols, targets, rows, now, 0)
  {
    after := acc;
    var todo, n := rows, 0;
    while todo != []
      invariant InsertAll(acc, name, cols, targets, rows, now, 0) == InsertAll(after, name, cols, targets, todo, now, n)
      decreases |todo|
    {
      var p := PrepareRow(cols, targets, todo[0], now);
      if !p.Ok? { return after, p.PropagateFailure(); }
      var ok := CheckFk(after, cols, p.value.row);
      if !ok { return after, Err("23503"); }
      var c := InsertCall(name, p.value);
      var r := Perform(after, c);
      if !r.ok { return r.acc, Err(Refusal(after, c)); }
      after, todo, n := r.acc, todo[1..], n + 1;
    }
    return after, Ok(n);
  }

  method Move(acc: Acc, name: string, id: int64, key: int64, out: Row) returns (r: Effect)
    ensures r == MoveRow(acc, name, id, key, out)
  {
    var blocked := FkReferenced(acc, name, id);
    if blocked { return Effect(acc, Err("23503")); }
    r := Store(acc, TM.Remove(name, id));
    if r.res.Ok? { r := Store(r.acc, TM.Insert(name, key, -1, out)); }
  }

  method StoreUpdate(acc: Acc, name: string, cols: seq<Column>, cand: P.Stored, out: Row) returns (r: Effect)
    requires |out| == |cand.row| == |cols|
    ensures r == StoreUpdated(acc, name, cols, cand, out)
  {
    var ok := CheckFk(acc, cols, out);
    if !ok {
      r := Effect(acc, Err("23503"));
    } else if Moves(cols, cand.row, out) {
      r := Move(acc, name, cand.id, out[PkIndex(cols, 0).value].i, out);
    } else {
      r := Store(acc, TM.Update(name, cand.id, out));
    }
  }

  /** The candidate loop of `execUpdate`. */
  method UpdateLoop(acc: Acc, now: int, name: string, cols: seq<Column>, sets: seq<SetCol>, cands: seq<P.Stored>)
    returns (after: Acc, res: Outcome<nat>)
    requires Fitting(cols, cands) && forall i :: 0 <= i < |sets| ==> sets[i].idx < |cols|
    ensures Effect(after, res) == UpdateAll(acc, now, name, cols, sets, cands, 0)
  {
    after := acc;
    var todo, n := cands, 0;
    while todo != []
      invariant Fitting(cols, todo)
      invariant UpdateAll(acc, now, name, cols, sets, cands, 0) == UpdateAll(after, now, name, cols, sets, todo, n)
      decreases |todo|
    {
      var cand := todo[0];
      var out := Assigned(Ctx(TableScope(name, cols), now, None), cols, sets, cand.row, cand.row);
      if !out.Ok? { return after, out.PropagateFailure(); }
      var r := StoreUpdate(after, name, cols, cand, out.value);
      if !r.res.Ok? { return r.acc, r.res; }
      after, todo, n := r.acc, todo[1..], n + 1;
    }
    return after, Ok(n);
  }

  /** The candidate loop of `execDelete`. */
  method DeleteLoop(acc: Acc, name: string, cands: seq<P.Stored>) returns (after: Acc, res: Outcome<nat>)
    ensures Effect(after, res) == DeleteAll(acc, name, cands, 0)
  {
    after := acc;
    var todo, n := cands, 0;
    while todo != []
      invariant DeleteAll(acc, name, cands, 0) == DeleteAll(after, name, todo, n)
      decreases |todo|
    {
      var blocked := FkReferenced(after, name, todo[0].id);
      if blocked { return after, Err("23503"); }
      var r := Store(after, TM.Remove(name, todo[0].id));
      if !r.res.Ok? { return r.acc, r.res; }
      after, todo, n := r.acc, todo[1..], n + 1;
    }
    return after, Ok(n);
  }
}
