/** What a statement works on: the engine itself, or an open transaction over it. */
module Accessor {
  import opened Values
  import opened Keys
  import opened Schema
  import opened UniqueIndex
  import opened Tables
  import opened EngineModel
  import opened TxnModel
  import opened Sessions
  import P = Plans

  datatype Acc = Direct(e: EngineState) | Buffered(e: EngineState, t: TxnState)

  datatype Done = Done(acc: Acc, ok: bool)

  /** The rows the accessor shows. */
  function RowsAt(acc: Acc, name: string): Rows {
    match acc
    case Direct(e) => CommittedRows(e, name)
    case Buffered(e, t) => Overlay(CommittedRows(e, name), t.ops, name)
  }

  function ColsAt(acc: Acc, name: string): Option<seq<Column>> {
    match TableNamed(acc.e, name)
    case None => None
    case Some(t) => Some(t.cols)
  }

  function Perform(acc: Acc, c: Call): Done {
    match acc
    case Direct(e) => var r := AutoCall(e, c); Done(Direct(r.e), r.ok)
    case Buffered(e, t) => var r := DoCall(e, t, c); Done(Buffered(r.e, r.t), r.error.None?)
  }

  /** The SQL code of a refused call: a duplicate, or a storage error. */
  function Refusal(acc: Acc, c: Call): string {
    var duplicate :=
      match acc
      case Direct(e) =>
        var t := TableNamed(e, c.name);
        t.Some? && !c.Remove? &&
        var verdict := if c.Insert? then AdmitPut(t.value, c.pkIdx, c.rowID, c.row, false).0
                       else AdmitPut(t.value, -1, c.rowID, c.row, true).0;
        verdict.Reject? && (verdict.error.Exists? || verdict.error.NotUnique?)
      case Buffered(e, t) =>
        var error := DoCall(e, t, c).error;
        error.Some? && (error.value.RowExists? || error.value.Duplicate?);
    if duplicate then "23505" else "58030"
  }

  // --- what a call does to the view ---------------------------------------------------------------------

  /** Two names never share a table. */
  predicate Separate(acc: Acc) { IdsInjective(acc.e) }

  lemma PerformFrame(acc: Acc, c: Call, name: string)
    requires Separate(acc)
    ensures
      var r := Perform(acc, c);
      && Separate(r.acc) && r.acc.Direct? == acc.Direct? && r.acc.e.ids == acc.e.ids
      && ColsAt(r.acc, name) == ColsAt(acc, name)
      && (name != c.name || !r.ok ==> RowsAt(r.acc, name) == RowsAt(acc, name))
  {
    var r := Perform(acc, c);
    if acc.Buffered? {
      CallKeepsEngine(acc.e, acc.t, c);
      if r.ok { CallShowsInOverlay(acc.e, acc.t, c, CommittedRows(acc.e, name), name); }
    }
  }

  /** The id a new row gets. */
  function NewId(acc: Acc, name: string, rowID: int64): int64
    requires ColsAt(acc, name).Some?
  {
    IdFor(TableNamed(acc.e, name).value, rowID)
  }

  lemma PerformInsert(acc: Acc, name: string, rowID: int64, pkIdx: int, row: Row)
    requires Separate(acc) && Perform(acc, Insert(name, rowID, pkIdx, row)).ok
    ensures
      var r := Perform(acc, Insert(name, rowID, pkIdx, row));
      && ColsAt(acc, name).Some? && |row| == |ColsAt(acc, name).value|
      && var id := NewId(acc, name, rowID);
         RowsAt(r.acc, name) == RowsAt(acc, name)[id := Stamp(row, pkIdx, id)]
  {
    var c := Insert(name, rowID, pkIdx, row);
    if acc.Buffered? {
      CallShowsInOverlay(acc.e, acc.t, c, CommittedRows(acc.e, name), name);
      CallKeepsEngine(acc.e, acc.t, c);
    }
  }

  lemma PerformUpdate(acc: Acc, name: string, rowID: int64, row: Row)
    requires Separate(acc) && Perform(acc, Update(name, rowID, row)).ok
    ensures
      var r := Perform(acc, Update(name, rowID, row));
      && ColsAt(acc, name).Some? && |row| == |ColsAt(acc, name).value| && rowID in RowsAt(acc, name)
      && RowsAt(r.acc, name) == RowsAt(acc, name)[rowID := row]
  {
    var c := Update(name, rowID, row);
    if acc.Buffered? {
      CallShowsInOverlay(acc.e, acc.t, c, CommittedRows(acc.e, name), name);
      CallKeepsEngine(acc.e, acc.t, c);
    }
  }

  lemma PerformRemove(acc: Acc, name: string, rowID: int64)
    requires Separate(acc) && Perform(acc, Remove(name, rowID)).ok
    ensures
      var r := Perform(acc, Remove(name, rowID));
      && ColsAt(acc, name).Some? && rowID in RowsAt(acc, name)
      && RowsAt(r.acc, name) == RowsAt(acc, name) - {rowID}
  {
    var c := Remove(name, rowID);
    if acc.Buffered? {
      CallShowsInOverlay(acc.e, acc.t, c, CommittedRows(acc.e, name), name);
      CallKeepsEngine(acc.e, acc.t, c);
    }
  }

  // --- UNIQUE columns in the view --------------------------------------------------------------------------

  /** No two rows share a non-NULL value in a UNIQUE column. */
  predicate UniqueRows(cols: seq<Column>, rows: Rows) {
    forall id :: id in rows ==> UniqueOk(cols, rows, id, rows[id])
  }

  lemma StoreKeepsUnique(cols: seq<Column>, rows: Rows, id: int64, row: Row)
    requires UniqueRows(cols, rows) && UniqueOk(cols, rows, id, row)
    ensures UniqueRows(cols, rows[id := row])
  {
    var rows' := rows[id := row];
    forall i | i in rows' ensures UniqueOk(cols, rows', i, rows'[i]) {
      forall ci | ci in UniqueCols(cols) ensures FreeIn(rows', i, rows'[i], ci) {
        assert FreeIn(rows, id, row, ci);
        if i != id { assert UniqueOk(cols, rows, i, rows[i]) && FreeIn(rows, i, rows[i], ci); }
      }
    }
  }

  lemma DropKeepsUnique(cols: seq<Column>, rows: Rows, id: int64)
    requires UniqueRows(cols, rows)
    ensures UniqueRows(cols, rows - {id})
  {
    forall i | i in rows - {id} ensures UniqueOk(cols, rows - {id}, i, rows[i]) {
      forall ci | ci in UniqueCols(cols) ensures FreeIn(rows - {id}, i, rows[i], ci) {
        assert UniqueOk(cols, rows, i, rows[i]) && FreeIn(rows, i, rows[i], ci);
      }
    }
  }

  /** The engine's indexes are exact, which is what its own UNIQUE check relies on. */
  ghost predicate Sound(acc: Acc) { Separate(acc) && (acc.Direct? ==> Healthy(acc.e)) }

  lemma PerformKeepsSound(acc: Acc, c: Call)
    requires Sound(acc)
    ensures Sound(Perform(acc, c).acc)
  {
    PerformFrame(acc, c, c.name);
    if acc.Direct? { AutoCallKeepsHealth(acc.e, c); }
  }

  /** An accepted row passes the check against the rows shown. */
  lemma AcceptedIsUnique(acc: Acc, c: Call)
    requires Sound(acc) && Perform(acc, c).ok && !c.Remove?
    ensures ColsAt(acc, c.name).Some?
    ensures
      var cols, rows := ColsAt(acc, c.name).value, RowsAt(acc, c.name);
      if c.Insert? then var id := NewId(acc, c.name, c.rowID); UniqueOk(cols, rows, id, Stamp(c.row, c.pkIdx, id))
      else UniqueOk(cols, rows, c.rowID, c.row)
  {
    if acc.Direct? {
      var t := TableNamed(acc.e, c.name).value;
      var verdict :=
        if c.Insert? then AdmitPut(t, c.pkIdx, c.rowID, c.row, false).0 else AdmitPut(t, -1, c.rowID, c.row, true).0;
      ClashesIsScan(t, verdict.id, verdict.row);
    }
  }

  lemma PerformKeepsUnique(acc: Acc, c: Call, name: string)
    requires Sound(acc) && ColsAt(acc, name).Some? && UniqueRows(ColsAt(acc, name).value, RowsAt(acc, name))
    ensures
      var r := Perform(acc, c);
      ColsAt(r.acc, name) == ColsAt(acc, name) && UniqueRows(ColsAt(acc, name).value, RowsAt(r.acc, name))
  {
    PerformFrame(acc, c, name);
    if Perform(acc, c).ok && c.name == name {
      var cols, rows := ColsAt(acc, name).value, RowsAt(acc, name);
      match c
      case Insert(_, rowID, pkIdx, row) =>
        AcceptedIsUnique(acc, c);
        PerformInsert(acc, name, rowID, pkIdx, row);
        var id := NewId(acc, name, rowID);
        StoreKeepsUnique(cols, rows, id, Stamp(row, pkIdx, id));
      case Update(_, rowID, row) =>
        AcceptedIsUnique(acc, c);
        PerformUpdate(acc, name, rowID, row);
        StoreKeepsUnique(cols, rows, rowID, row);
      case Remove(_, rowID) =>
        PerformRemove(acc, name, rowID);
        DropKeepsUnique(cols, rows, rowID);
    }
  }

  // --- rows in id order ----------------------------------------------------------------------------------------

  predicate IsLeast(m: int64, s: set<int64>) { m in s && forall x :: x in s ==> m <= x }

  lemma {:induction false} LeastExists(s: set<int64>)
    requires s != {}
    ensures exists m :: IsLeast(m, s)
    decreases |s|
  {
    var a :| a in s;
    var rest := s - {a};
    if rest == {} {
      forall x | x in s ensures a <= x { assert x != a ==> x in rest; }
      assert IsLeast(a, s);
    } else {
      LeastExists(rest);
      var m :| IsLeast(m, rest);
      var least := if m <= a then m else a;
      forall x | x in s ensures least <= x { assert x != a ==> x in rest; }
      assert IsLeast(least, s);
    }
  }

  function Least(s: set<int64>): (m: int64)
    requires s != {}
    ensures IsLeast(m, s)
  {
    LeastExists(s);
    var m :| IsLeast(m, s);
    m
  }

  /** `AllRows`: the rows by increasing id. */
  function Listing(rows: Rows): seq<P.Stored>
    decreases |rows|
  {
    if rows == map[] then []
    else
      var m := Least(rows.Keys);
      var rest := rows - {m};
      assert rest.Keys == rows.Keys - {m} && |rest.Keys| < |rows.Keys|;
      [P.Stored(m, rows[m])] + Listing(rest)
  }

  /** Every row once, by increasing id. */
  predicate ListsRows(stored: seq<P.Stored>, rows: Rows) {
    && (forall i :: 0 <= i < |stored| ==> stored[i].id in rows && rows[stored[i].id] == stored[i].row)
    && (forall i, j :: 0 <= i < j < |stored| ==> stored[i].id < stored[j].id)
    && (forall id :: id in rows ==> P.Stored(id, rows[id]) in stored)
  }

  lemma ListsCons(m: int64, r: seq<P.Stored>, rows: Rows)
    requires m in rows && (forall x :: x in rows ==> m <= x) && ListsRows(r, rows - {m})
    ensures ListsRows([P.Stored(m, rows[m])] + r, rows)
  {
    var rest, l := rows - {m}, [P.Stored(m, rows[m])] + r;
    forall i | 0 <= i < |r| ensures r[i].id in rest && m < r[i].id { }
    forall id | id in rows ensures P.Stored(id, rows[id]) in l {
      if id == m {
        assert l[0] == P.Stored(id, rows[id]);
      } else {
        assert P.Stored(id, rest[id]) in r;
      }
    }
  }

  lemma {:induction false} ListingLists(rows: Rows)
    ensures ListsRows(Listing(rows), rows)
    decreases |rows|
  {
    if rows != map[] {
      var m := Least(rows.Keys);
      var rest := rows - {m};
      assert rest.Keys == rows.Keys - {m} && |rest.Keys| < |rows.Keys|;
      ListingLists(rest);
      ListsCons(m, Listing(rest), rows);
    }
  }

  /** `UniqueGet` then `Get` on the rows in id order: the first row that has the value, in both
      accessors. */
  lemma {:induction false} LookupFirst(stored: seq<P.Stored>, rows: Rows, ci: nat, v: Value)
    requires forall i :: 0 <= i < |stored| ==> stored[i].id in rows && rows[stored[i].id] == stored[i].row
    requires forall i, j :: 0 <= i < j < |stored| ==> stored[i].id < stored[j].id
    ensures
      var r := P.Lookup(stored, ci, v);
      && (r.Some? ==>
           && r.value in stored && Has(rows, r.value.id, ci, v)
           && forall i :: 0 <= i < |stored| && Has(rows, stored[i].id, ci, v) ==> r.value.id <= stored[i].id)
      && (r.None? ==> forall i :: 0 <= i < |stored| ==> !Has(rows, stored[i].id, ci, v))
    decreases |stored|
  {
    if stored != [] {
      var tail := stored[1..];
      assert forall i :: 0 <= i < |tail| ==> tail[i] == stored[i + 1];
      LookupFirst(tail, rows, ci, v);
      if ci < |stored[0].row| { UniqKeyInjective(stored[0].row[ci], v); }
    }
  }

  /** The engine's index answers what a lookup over its rows would. */
  lemma LookupIsIndex(t: TableState, ci: nat, v: Value)
    requires ValidIndex(t) && ci in t.uniq
    ensures
      P.Lookup(Listing(t.rows), ci, v) ==
      match UniqueGet(t, ci, v)
      case None => None
      case Some(id) => if id in t.rows then Some(P.Stored(id, t.rows[id])) else None
  {
    ListingLists(t.rows);
    LookupFirst(Listing(t.rows), t.rows, ci, v);
    var r, u := P.Lookup(Listing(t.rows), ci, v), UniqueGet(t, ci, v);
    if u.Some? {
      UniqueGetIsScan(t, ci, v, u.value);
      assert P.Stored(u.value, t.rows[u.value]) in Listing(t.rows);
      assert r.Some?;
    }
    if r.Some? { UniqueGetIsScan(t, ci, v, r.value.id); }
  }

  /** The accessor as a database for queries. */
  function DbOf(acc: Acc): P.Db {
    map name | name in acc.e.ids && ColsAt(acc, name).Some? ::
      P.Relation(ColsAt(acc, name).value, Listing(RowsAt(acc, name)))
  }
}
