/** What whole INSERT and UPDATE statements do to the rows. */
module Statements {
  import opened Values
  import opened Schema
  import opened Ast
  import opened Eval
  import opened Tables
  import TM = TxnModel
  import opened Accessor
  import P = Plans
  import Q = Query
  import opened Shortcut
  import opened Dml
  import opened DmlMeaning
  import opened Atomicity

  // --- UPDATE ---------------------------------------------------------------------------------------------

  /** Where the updated row is kept: in its place, or under its new key. */
  function Target(now: int, name: string, cols: seq<Column>, sets: seq<SetCol>, cand: P.Stored): int64
    requires |cand.row| == |cols| && forall i :: 0 <= i < |sets| ==> sets[i].idx < |cols|
  {
    var out := NewRow(now, name, cols, sets, cand);
    if out.Ok? && Moves(cols, cand.row, out.value) then out.value[PkIndex(cols, 0).value].i else cand.id
  }

  /** The row does not move to key 0, which would ask the engine for a number. */
  predicate KeepsNumbering(now: int, name: string, cols: seq<Column>, sets: seq<SetCol>, cand: P.Stored)
    requires |cand.row| == |cols| && forall i :: 0 <= i < |sets| ==> sets[i].idx < |cols|
  {
    var out := NewRow(now, name, cols, sets, cand);
    out.Ok? && Moves(cols, cand.row, out.value) ==> out.value[PkIndex(cols, 0).value].i != 0
  }

  predicate Stay(before: Rows, after: Rows, ids: set<int64>) {
    forall x :: x in before && x !in ids ==> x in after && after[x] == before[x]
  }

  predicate AtTarget(after: Rows, now: int, name: string, cols: seq<Column>, sets: seq<SetCol>, cand: P.Stored)
    requires |cand.row| == |cols| && forall i :: 0 <= i < |sets| ==> sets[i].idx < |cols|
  {
    var x := Target(now, name, cols, sets, cand);
    x in after && NewRow(now, name, cols, sets, cand) == Ok(after[x])
  }

  function TargetsFor(now: int, name: string, cols: seq<Column>, sets: seq<SetCol>, cands: seq<P.Stored>): set<int64>
    requires Fitting(cols, cands) && forall i :: 0 <= i < |sets| ==> sets[i].idx < |cols|
  {
    set i | 0 <= i < |cands| :: Target(now, name, cols, sets, cands[i])
  }

  /** From `before` to `after`: every candidate's new row is at its target, other rows stay, and there is
      nothing else. */
  predicate Updated(
    before: Rows, after: Rows, now: int, name: string, cols: seq<Column>, sets: seq<SetCol>, cands: seq<P.Stored>)
    requires Fitting(cols, cands) && forall i :: 0 <= i < |sets| ==> sets[i].idx < |cols|
  {
    && Stay(before, after, IdsOf(cands))
    && (forall i :: 0 <= i < |cands| ==> AtTarget(after, now, name, cols, sets, cands[i]))
    && after.Keys == (before.Keys - IdsOf(cands)) + TargetsFor(now, name, cols, sets, cands)
  }

  lemma AcceptedKeyIsNew(acc: Acc, name: string, key: int64, row: Row)
    requires key != 0 && ColsAt(acc, name).Some? && Perform(acc, TM.Insert(name, key, -1, row)).ok
    ensures key !in RowsAt(acc, name) && NewId(acc, name, key) == key
  {
  }

  /** One row: it leaves its place and appears, new, at its target. */
  lemma OneUpdated(acc: Acc, now: int, name: string, cols: seq<Column>, sets: seq<SetCol>, cand: P.Stored)
    requires Separate(acc) && ColsAt(acc, name) == Some(cols) && |cand.row| == |cols| && Current(acc, name, cand)
    requires (forall i :: 0 <= i < |sets| ==> sets[i].idx < |cols|) && KeepsNumbering(now, name, cols, sets, cand)
    requires UpdateOne(acc, now, name, cols, sets, cand).res.Ok?
    ensures
      var out, x := NewRow(now, name, cols, sets, cand), Target(now, name, cols, sets, cand);
      && out.Ok? && x !in RowsAt(acc, name) - {cand.id}
      && RowsAt(UpdateOne(acc, now, name, cols, sets, cand).acc, name) ==
        (RowsAt(acc, name) - {cand.id})[x := out.value]
  {
    UpdateStores(acc, now, name, cols, sets, cand, name);
    var out := NewRow(now, name, cols, sets, cand).value;
    if Moves(cols, cand.row, out) {
      var key, mid := out[PkIndex(cols, 0).value].i, Perform(acc, TM.Remove(name, cand.id)).acc;
      PerformFrame(acc, TM.Remove(name, cand.id), name);
      PerformRemove(acc, name, cand.id);
      AcceptedKeyIsNew(mid, name, key, out);
      RemoveKeepsCounter(acc, name, cand.id, key);
    } else {
      assert RowsAt(acc, name)[cand.id := out] == (RowsAt(acc, name) - {cand.id})[cand.id := out];
    }
  }

  /** The remaining candidates are untouched by the first one. */
  lemma RestFits(
    acc: Acc, mid: Acc, name: string, cols: seq<Column>, sets: seq<SetCol>, cands: seq<P.Stored>, x: int64, out: Row)
    requires Fits(acc, name, cols, sets, cands) && cands != [] && ColsAt(mid, name) == Some(cols)
    requires x !in RowsAt(acc, name) - {cands[0].id}
    requires RowsAt(mid, name) == (RowsAt(acc, name) - {cands[0].id})[x := out]
    ensures Fits(mid, name, cols, sets, cands[1..]) && x !in IdsOf(cands[1..])
  {
    var rest := cands[1..];
    forall i | 0 <= i < |rest| ensures |rest[i].row| == |cols| && Current(mid, name, rest[i]) && rest[i].id != x {
      assert rest[i] == cands[i + 1] && cands[0].id != cands[i + 1].id && Current(acc, name, cands[i + 1]);
    }
    forall i, j | 0 <= i < j < |rest| ensures rest[i].id != rest[j].id { assert cands[i + 1].id != cands[j + 1].id; }
  }

  lemma TargetsCons(now: int, name: string, cols: seq<Column>, sets: seq<SetCol>, cands: seq<P.Stored>)
    requires Fitting(cols, cands) && cands != [] && forall i :: 0 <= i < |sets| ==> sets[i].idx < |cols|
    ensures TargetsFor(now, name, cols, sets, cands) ==
            {Target(now, name, cols, sets, cands[0])} + TargetsFor(now, name, cols, sets, cands[1..])
  {
    var rest := cands[1..];
    forall x | x in TargetsFor(now, name, cols, sets, cands)
      ensures x == Target(now, name, cols, sets, cands[0]) || x in TargetsFor(now, name, cols, sets, rest)
    {
      var i :| 0 <= i < |cands| && x == Target(now, name, cols, sets, cands[i]);
      if i > 0 { assert rest[i - 1] == cands[i]; }
    }
    forall x | x in TargetsFor(now, name, cols, sets, rest) ensures x in TargetsFor(now, name, cols, sets, cands) {
      var i :| 0 <= i < |rest| && x == Target(now, name, cols, sets, rest[i]);
      assert cands[i + 1] == rest[i];
    }
  }

  lemma RowsCons(
    before: Rows, mid: Rows, after: Rows, id: int64, x: int64, out: Row, ids: set<int64>, targets: set<int64>)
    requires x !in before - {id} && x !in ids && mid == (before - {id})[x := out]
    requires Stay(mid, after, ids) && after.Keys == (mid.Keys - ids) + targets
    ensures Stay(before, after, {id} + ids) && after.Keys == (before.Keys - ({id} + ids)) + ({x} + targets)
    ensures x in after && after[x] == out
  {
    assert x in mid && x in after;
    forall y | y in before && y !in {id} + ids ensures y in after && after[y] == before[y] { assert y in mid; }
  }

  lemma UpdatedCons(
    before: Rows, mid: Rows, after: Rows, now: int, name: string, cols: seq<Column>, sets: seq<SetCol>,
    cands: seq<P.Stored>)
    requires Fitting(cols, cands) && cands != [] && forall i :: 0 <= i < |sets| ==> sets[i].idx < |cols|
    requires
      var x, out := Target(now, name, cols, sets, cands[0]), NewRow(now, name, cols, sets, cands[0]);
      && out.Ok? && x !in before - {cands[0].id} && x !in IdsOf(cands[1..])
      && mid == (before - {cands[0].id})[x := out.value]
    requires Updated(mid, after, now, name, cols, sets, cands[1..])
    ensures Updated(before, after, now, name, cols, sets, cands)
  {
    var x, out := Target(now, name, cols, sets, cands[0]), NewRow(now, name, cols, sets, cands[0]).value;
    IdsCons(cands);
    TargetsCons(now, name, cols, sets, cands);
    RowsCons(before, mid, after, cands[0].id, x, out, IdsOf(cands[1..]), TargetsFor(now, name, cols, sets, cands[1..]));
    forall i | 0 <= i < |cands| ensures AtTarget(after, now, name, cols, sets, cands[i]) {
      if i > 0 { assert AtTarget(after, now, name, cols, sets, cands[1..][i - 1]); }
    }
  }

  lemma {:induction false} AllUpdated(
    acc: Acc, now: int, name: string, cols: seq<Column>, sets: seq<SetCol>, cands: seq<P.Stored>, n: nat)
    requires Separate(acc) && Fits(acc, name, cols, sets, cands)
    requires forall i :: 0 <= i < |cands| ==> KeepsNumbering(now, name, cols, sets, cands[i])
    requires UpdateAll(acc, now, name, cols, sets, cands, n).res.Ok?
    ensures
      var after := UpdateAll(acc, now, name, cols, sets, cands, n).acc;
      Updated(RowsAt(acc, name), RowsAt(after, name), now, name, cols, sets, cands)
    decreases |cands|
  {
    if cands == [] {
      assert IdsOf(cands) == {} && TargetsFor(now, name, cols, sets, cands) == {};
    } else {
      var mid := UpdateOne(acc, now, name, cols, sets, cands[0]).acc;
      var x, out := Target(now, name, cols, sets, cands[0]), NewRow(now, name, cols, sets, cands[0]);
      OneUpdated(acc, now, name, cols, sets, cands[0]);
      UpdateOneCatalog(acc, now, name, cols, sets, cands[0]);
      RestFits(acc, mid, name, cols, sets, cands, x, out.value);
      AllUpdated(mid, now, name, cols, sets, cands[1..], n + 1);
      var after := UpdateAll(acc, now, name, cols, sets, cands, n).acc;
      UpdatedCons(RowsAt(acc, name), RowsAt(mid, name), RowsAt(after, name), now, name, cols, sets, cands);
    }
  }

  lemma {:induction false} RowsAreCounted(
    acc: Acc, now: int, name: string, cols: seq<Column>, sets: seq<SetCol>, cands: seq<P.Stored>, n: nat)
    requires Fitting(cols, cands) && forall i :: 0 <= i < |sets| ==> sets[i].idx < |cols|
    requires UpdateAll(acc, now, name, cols, sets, cands, n).res.Ok?
    ensures UpdateAll(acc, now, name, cols, sets, cands, n).res.value == n + |cands|
    decreases |cands|
  {
    if cands != [] {
      RowsAreCounted(UpdateOne(acc, now, name, cols, sets, cands[0]).acc, now, name, cols, sets, cands[1..], n + 1);
    }
  }

  lemma {:induction false} OthersStay(
    acc: Acc, now: int, name: string, cols: seq<Column>, sets: seq<SetCol>, cands: seq<P.Stored>, n: nat, other: string)
    requires Separate(acc) && ColsAt(acc, name) == Some(cols) && Fitting(cols, cands) && other != name
    requires (forall i :: 0 <= i < |sets| ==> sets[i].idx < |cols|)
    requires UpdateAll(acc, now, name, cols, sets, cands, n).res.Ok?
    ensures RowsAt(UpdateAll(acc, now, name, cols, sets, cands, n).acc, other) == RowsAt(acc, other)
    decreases |cands|
  {
    if cands != [] {
      UpdateStores(acc, now, name, cols, sets, cands[0], other);
      UpdateOneCatalog(acc, now, name, cols, sets, cands[0]);
      OthersStay(UpdateOne(acc, now, name, cols, sets, cands[0]).acc, now, name, cols, sets, cands[1..], n + 1, other);
    }
  }

  /** A successful UPDATE: each of its rows is replaced by the assigned row, in place or under the new
      key, all other rows of all tables stay, and the count is the number of rows. */
  lemma UpdateMeaning(
    run: Q.Runner, acc: Acc, now: int, name: string, sets: seq<Assignment>, where: Option<Expr>, other: string)
    requires Separate(acc) && name in DbOf(acc) && ExecUpdate(run, acc, now, name, sets, where).res.Ok?
    requires PlanUpdate(run, acc, now, name, sets, where).Ok? ==>
      var p := PlanUpdate(run, acc, now, name, sets, where).value;
      forall i :: 0 <= i < |p.cands| ==> KeepsNumbering(now, name, DbOf(acc)[name].cols, p.sets, p.cands[i])
    ensures
      var p, r := PlanUpdate(run, acc, now, name, sets, where), ExecUpdate(run, acc, now, name, sets, where);
      && p.Ok? && r.res.value == |p.value.cands|
      && Updated(RowsAt(acc, name), RowsAt(r.acc, name), now, name, DbOf(acc)[name].cols, p.value.sets, p.value.cands)
      && (other != name ==> RowsAt(r.acc, other) == RowsAt(acc, other))
  {
    var p, cols := PlanUpdate(run, acc, now, name, sets, where).value, DbOf(acc)[name].cols;
    AffectedAreRows(run, acc, now, name, where);
    AllUpdated(acc, now, name, cols, p.sets, p.cands, 0);
    RowsAreCounted(acc, now, name, cols, p.sets, p.cands, 0);
    if other != name { OthersStay(acc, now, name, cols, p.sets, p.cands, 0, other); }
  }

  /** The rows an UPDATE or DELETE works on are those for which the condition is TRUE, if no stored cell
      collides with the literal of an index lookup. */
  lemma AffectedAreWanted(run: Q.Runner, acc: Acc, now: int, name: string, where: Option<Expr>, id: int64)
    requires Inv(acc) && name in DbOf(acc) && Affected(run, acc, now, name, where).Ok? && id in RowsAt(acc, name)
    requires
      var w := PrepareWhere(run, acc, now, TableScope(name, DbOf(acc)[name].cols), where);
      w.Ok? ==> ScanDecides(DbOf(acc)[name], name, w.value)
    ensures
      var c := Ctx(TableScope(name, DbOf(acc)[name].cols), now, None);
      var w := PrepareWhere(run, acc, now, c.sc, where);
      && w.Ok?
      && (id in IdsOf(Affected(run, acc, now, name, where).value) <==> Wanted(c, w.value, RowsAt(acc, name)[id]))
  {
    var rel, cands := DbOf(acc)[name], Affected(run, acc, now, name, where).value;
    var c := Ctx(TableScope(name, rel.cols), now, None);
    var w := PrepareWhere(run, acc, now, c.sc, where).value;
    RelationIsShaped(acc, name);
    CandidatesAreScanned(now, name, rel, w);
    ScannedAreWanted(c, w, RowsAt(acc, name), id);
  }

  lemma ScannedAreWanted(c: Ctx, where: Option<Expr>, rows: Rows, id: int64)
    requires Scan(c, where, Listing(rows)).Ok? && id in rows
    ensures id in IdsOf(Scan(c, where, Listing(rows)).value) <==> Wanted(c, where, rows[id])
  {
    var cands, st := Scan(c, where, Listing(rows)).value, P.Stored(id, rows[id]);
    ListingLists(rows);
    ScanIsFilter(c, where, Listing(rows));
    if id in IdsOf(cands) {
      var i :| 0 <= i < |cands| && cands[i].id == id;
      assert cands[i] in cands;
    }
    if st in cands {
      var i :| 0 <= i < |cands| && cands[i] == st;
      assert id in IdsOf(cands);
    }
  }

  // --- INSERT ---------------------------------------------------------------------------------------------

  /** The row a VALUES list makes, with the id it is stored under. */
  predicate Makes(cols: seq<Column>, targets: seq<nat>, exprs: seq<Expr>, now: int, st: P.Stored)
    requires forall i :: 0 <= i < |targets| ==> targets[i] < |cols|
  {
    var p := PrepareRow(cols, targets, exprs, now);
    && p.Ok?
    && match p.value.keying
       case ByValue(id) => (id != 0 ==> st.id == id) && st.row == p.value.row
       case ByEngine(pkIdx) => st.row == Stamp(p.value.row, pkIdx, st.id)
  }

  function PutAll(rows: Rows, sts: seq<P.Stored>): Rows
    decreases |sts|
  {
    if sts == [] then rows else PutAll(rows[sts[0].id := sts[0].row], sts[1..])
  }

  /** Every id is new and comes once. */
  predicate AllNew(rows: Rows, sts: seq<P.Stored>) {
    && (forall i :: 0 <= i < |sts| ==> sts[i].id !in rows)
    && (forall i, j :: 0 <= i < j < |sts| ==> sts[i].id != sts[j].id)
  }

  /** The key a row brings along leaves room for m numbers. */
  predicate GivenKeyHasRoom(cols: seq<Column>, targets: seq<nat>, exprs: seq<Expr>, now: int, m: nat)
    requires forall i :: 0 <= i < |targets| ==> targets[i] < |cols|
  {
    var p := PrepareRow(cols, targets, exprs, now);
    p.Ok? && p.value.keying.ByValue? ==> p.value.keying.id + m <= MAX_INT64
  }

  /** Numbers that are handed out are not in use: a transaction checks them, the engine counts on its
      counter. */
  predicate NumbersAreNew(acc: Acc, name: string, m: nat) { acc.Direct? ==> Roomy(acc, name, m) }

  lemma OneInserted(acc: Acc, name: string, cols: seq<Column>, targets: seq<nat>, exprs: seq<Expr>, now: int)
    returns (st: P.Stored)
    requires Separate(acc) && ColsAt(acc, name) == Some(cols) && forall i :: 0 <= i < |targets| ==> targets[i] < |cols|
    requires InsertOne(acc, name, cols, targets, exprs, now).res.Ok?
    ensures
      var after := InsertOne(acc, name, cols, targets, exprs, now).acc;
      && Makes(cols, targets, exprs, now, st) && RowsAt(after, name) == RowsAt(acc, name)[st.id := st.row]
      && Separate(after) && ColsAt(after, name) == Some(cols) && after.Direct? == acc.Direct?
    ensures NumbersAreNew(acc, name, 0) ==> st.id !in RowsAt(acc, name)
  {
    var c := InsertCall(name, PrepareRow(cols, targets, exprs, now).value);
    PerformFrame(acc, c, name);
    PerformStores(acc, c);
    st := StoredBy(acc, c);
  }

  lemma OneInsertedRoom(
    acc: Acc, name: string, cols: seq<Column>, targets: seq<nat>, exprs: seq<Expr>, now: int, m: nat)
    requires Separate(acc) && ColsAt(acc, name) == Some(cols) && forall i :: 0 <= i < |targets| ==> targets[i] < |cols|
    requires NumbersAreNew(acc, name, m) && 0 < m && GivenKeyHasRoom(cols, targets, exprs, now, m)
    requires InsertOne(acc, name, cols, targets, exprs, now).res.Ok?
    ensures NumbersAreNew(InsertOne(acc, name, cols, targets, exprs, now).acc, name, m - 1)
  {
    var p := PrepareRow(cols, targets, exprs, now).value;
    var c := InsertCall(name, p);
    if acc.Direct? { InsertKeepsRoom(acc, name, c.rowID, c.pkIdx, c.row, m); }
  }

  lemma NewCons(rows: Rows, st: P.Stored, sts: seq<P.Stored>)
    requires st.id !in rows && AllNew(rows[st.id := st.row], sts)
    ensures AllNew(rows, [st] + sts)
  {
  }

  lemma {:induction false} AllInserted(
    acc: Acc, name: string, cols: seq<Column>, targets: seq<nat>, rows: seq<seq<Expr>>, now: int, n: nat)
    returns (sts: seq<P.Stored>)
    requires Separate(acc) && ColsAt(acc, name) == Some(cols) && forall i :: 0 <= i < |targets| ==> targets[i] < |cols|
    requires InsertAll(acc, name, cols, targets, rows, now, n).res.Ok?
    ensures |sts| == |rows| && forall i :: 0 <= i < |rows| ==> Makes(cols, targets, rows[i], now, sts[i])
    ensures RowsAt(InsertAll(acc, name, cols, targets, rows, now, n).acc, name) == PutAll(RowsAt(acc, name), sts)
    ensures NumbersAreNew(acc, name, |rows|) &&
            (forall i :: 0 <= i < |rows| ==> GivenKeyHasRoom(cols, targets, rows[i], now, |rows|)) ==>
            AllNew(RowsAt(acc, name), sts)
    decreases |rows|
  {
    if rows == [] {
      sts := [];
    } else {
      var st := OneInserted(acc, name, cols, targets, rows[0], now);
      var mid := InsertOne(acc, name, cols, targets, rows[0], now).acc;
      var rest := AllInserted(mid, name, cols, targets, rows[1..], now, n + 1);
      sts := [st] + rest;
      assert sts[1..] == rest;
      if NumbersAreNew(acc, name, |rows|) &&
         forall i :: 0 <= i < |rows| ==> GivenKeyHasRoom(cols, targets, rows[i], now, |rows|)
      {
        OneInsertedRoom(acc, name, cols, targets, rows[0], now, |rows|);
        assert forall i :: 0 <= i < |rows[1..]| ==> rows[1..][i] == rows[i + 1];
        NewCons(RowsAt(acc, name), st, rest);
      }
    }
  }

  /** New rows stand beside the old ones. */
  lemma {:induction false} PutAllNew(rows: Rows, sts: seq<P.Stored>)
    requires AllNew(rows, sts)
    ensures Stay(rows, PutAll(rows, sts), {}) && PutAll(rows, sts).Keys == rows.Keys + IdsOf(sts)
    ensures forall i :: 0 <= i < |sts| ==> sts[i].id in PutAll(rows, sts) && PutAll(rows, sts)[sts[i].id] == sts[i].row
    decreases |sts|
  {
    if sts == [] {
      assert IdsOf(sts) == {};
    } else {
      var mid, rest := rows[sts[0].id := sts[0].row], sts[1..];
      forall i | 0 <= i < |rest| ensures rest[i].id !in mid { assert rest[i] == sts[i + 1]; }
      PutAllNew(mid, rest);
      IdsCons(sts);
      forall i | 0 <= i < |sts| ensures sts[i].id in PutAll(rows, sts) && PutAll(rows, sts)[sts[i].id] == sts[i].row {
        if i > 0 { assert rest[i - 1] == sts[i]; }
      }
    }
  }

  lemma {:induction false} InsertsAreCounted(
    acc: Acc, name: string, cols: seq<Column>, targets: seq<nat>, rows: seq<seq<Expr>>, now: int, n: nat, other: string)
    requires Separate(acc) && ColsAt(acc, name) == Some(cols) && forall i :: 0 <= i < |targets| ==> targets[i] < |cols|
    requires InsertAll(acc, name, cols, targets, rows, now, n).res.Ok?
    ensures InsertAll(acc, name, cols, targets, rows, now, n).res.value == n + |rows|
    ensures other != name ==> RowsAt(InsertAll(acc, name, cols, targets, rows, now, n).acc, other) == RowsAt(acc, other)
    decreases |rows|
  {
    if rows != [] {
      InsertStores(acc, name, cols, targets, rows[0], now, other);
      InsertOneFrame(acc, name, cols, targets, rows[0], now);
      var mid := InsertOne(acc, name, cols, targets, rows[0], now).acc;
      InsertsAreCounted(mid, name, cols, targets, rows[1..], now, n + 1, other);
    }
  }

  /** Room for the numbers of the statement, and for the keys its rows bring along. */
  predicate InsertHasRoom(acc: Acc, name: string, cols: seq<Column>, targets: seq<nat>, rows: seq<seq<Expr>>, now: int)
    requires forall i :: 0 <= i < |targets| ==> targets[i] < |cols|
  {
    && NumbersAreNew(acc, name, |rows|)
    && forall i :: 0 <= i < |rows| ==> GivenKeyHasRoom(cols, targets, rows[i], now, |rows|)
  }

  /** A successful INSERT stores the row of each VALUES list, in order, changes no other table, and counts
      them; below the largest id the rows are new, and the old ones stay. */
  lemma InsertMeaning(
    run: Q.Runner, acc: Acc, now: int, name: string, names: seq<string>, rows: seq<seq<Expr>>, other: string)
    returns (sts: seq<P.Stored>)
    requires Separate(acc) && name in DbOf(acc) && Exec(run, acc, now, InsertRows(name, names, rows)).res.Ok?
    ensures
      var cols, r := DbOf(acc)[name].cols, Exec(run, acc, now, InsertRows(name, names, rows));
      var targets := TargetsOf(cols, names);
      && targets.Ok? && |sts| == |rows| && r.res.value == |rows|
      && (forall i :: 0 <= i < |rows| ==> Makes(cols, targets.value, rows[i], now, sts[i]))
      && RowsAt(r.acc, name) == PutAll(RowsAt(acc, name), sts)
      && (other != name ==> RowsAt(r.acc, other) == RowsAt(acc, other))
      && (InsertHasRoom(acc, name, cols, targets.value, rows, now) ==>
            && Stay(RowsAt(acc, name), RowsAt(r.acc, name), {})
            && RowsAt(r.acc, name).Keys == RowsAt(acc, name).Keys + IdsOf(sts) && AllNew(RowsAt(acc, name), sts))
  {
    var cols := DbOf(acc)[name].cols;
    var targets := TargetsOf(cols, names).value;
    sts := AllInserted(acc, name, cols, targets, rows, now, 0);
    InsertsAreCounted(acc, name, cols, targets, rows, now, 0, other);
    if InsertHasRoom(acc, name, cols, targets, rows, now) { PutAllNew(RowsAt(acc, name), sts); }
  }
}
