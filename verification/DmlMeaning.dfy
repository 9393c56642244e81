/** What successful INSERT, UPDATE and DELETE statements do to the rows. */
module DmlMeaning {
  import opened Values
  import opened Schema
  import opened Ast
  import opened Eval
  import opened Tables
  import TM = TxnModel
  import opened Accessor
  import P = Plans
  import Q = Query
  import opened Shortcut
  import opened Dml

  // --- INSERT -----------------------------------------------------------------------------------------

  predicate NoRepeats(targets: seq<nat>) { forall i, j :: 0 <= i < j < |targets| ==> targets[i] != targets[j] }

  lemma {:induction false} TargetsAvoid(cols: seq<Column>, names: seq<string>, seen: set<nat>)
    requires Targets(cols, names, seen).Ok?
    ensures forall i :: i in Targets(cols, names, seen).value ==> i !in seen
    ensures NoRepeats(Targets(cols, names, seen).value)
    decreases |names|
  {
    if names != [] {
      var i := ColumnNamed(cols, names[0], 0).value;
      TargetsAvoid(cols, names[1..], seen + {i});
      var rest := Targets(cols, names[1..], seen + {i}).value;
      assert forall k :: 0 <= k < |rest| ==> rest[k] in rest;
    }
  }

  lemma {:induction false} TargetsNamed(cols: seq<Column>, names: seq<string>, seen: set<nat>, k: nat)
    requires Targets(cols, names, seen).Ok? && k < |names|
    ensures cols[Targets(cols, names, seen).value[k]].name == names[k]
    decreases |names|
  {
    if k > 0 { TargetsNamed(cols, names[1..], seen + {ColumnNamed(cols, names[0], 0).value}, k - 1); }
  }

  /** Column lists name each column once; without a list the values go to the columns in order. */
  lemma TargetsAreColumns(cols: seq<Column>, names: seq<string>)
    requires TargetsOf(cols, names).Ok?
    ensures
      var targets := TargetsOf(cols, names).value;
      && NoRepeats(targets)
      && (names == [] ==> |targets| == |cols| && forall i :: 0 <= i < |cols| ==> targets[i] == i)
      && (names != [] ==> |targets| == |names| && forall i :: 0 <= i < |names| ==> cols[targets[i]].name == names[i])
  {
    if names != [] {
      TargetsAvoid(cols, names, {});
      forall i | 0 <= i < |names| ensures cols[TargetsOf(cols, names).value[i]].name == names[i] {
        TargetsNamed(cols, names, {}, i);
      }
    }
  }

  /** The value an expression of VALUES has in its column. */
  function StoredForm(col: Column, e: Expr, now: int): Outcome<Value> {
    var v :- InsertValue(e, now);
    CoerceFor(col, v)
  }

  /** A TIMESTAMP column also takes the texts the library reads as a time, and stores the time; otherwise
      the column type alone decides. */
  lemma CoerceAccepts(ct: ColumnType, v: Value)
    ensures
      var time := ct.TTimestamp? && v.VText? && ParseTime(v.s).Some?;
      && (Coerce(ct, v).Some? <==> Storable(ct, v) || time)
      && (time ==> Coerce(ct, v) == Some(VTime(ParseTime(v.s).value)))
      && (HasKind(ct, v) ==> Coerce(ct, v) == Some(v))
  {
    CheckAccepts(ct, v, 0);
    CheckStoresKind(ct, v);
  }

  /** Each value lands in its column, in stored form; the other cells stay. */
  lemma {:induction false} FillRowCells(cols: seq<Column>, targets: seq<nat>, exprs: seq<Expr>, now: int, row: Row)
    requires |targets| == |exprs| && |row| == |cols| && (forall i :: 0 <= i < |targets| ==> targets[i] < |cols|)
    requires NoRepeats(targets) && FillRow(cols, targets, exprs, now, row).Ok?
    ensures
      var out := FillRow(cols, targets, exprs, now, row).value;
      && |out| == |cols|
      && (forall i :: 0 <= i < |targets| ==> StoredForm(cols[targets[i]], exprs[i], now) == Ok(out[targets[i]]))
      && (forall j :: 0 <= j < |cols| && j !in targets ==> out[j] == row[j])
    decreases |targets|
  {
    if targets != [] {
      var w := StoredForm(cols[targets[0]], exprs[0], now).value;
      var row', tail := row[targets[0] := w], targets[1..];
      FillRowCells(cols, tail, exprs[1..], now, row');
      var out := FillRow(cols, targets, exprs, now, row).value;
      assert targets[0] !in tail;
      assert out[targets[0]] == w;
      forall i | 0 <= i < |targets| ensures StoredForm(cols[targets[i]], exprs[i], now) == Ok(out[targets[i]]) {
        if i > 0 { assert tail[i - 1] == targets[i] && exprs[1..][i - 1] == exprs[i]; }
      }
      forall j | 0 <= j < |cols| && j !in targets ensures out[j] == row[j] {
        assert j != targets[0] by { assert targets[0] in targets; }
        assert j !in tail;
      }
    }
  }

  /** An inserted row holds the given values in the given columns, NULL elsewhere. */
  lemma PreparedCells(cols: seq<Column>, targets: seq<nat>, exprs: seq<Expr>, now: int)
    requires (forall i :: 0 <= i < |targets| ==> targets[i] < |cols|) && NoRepeats(targets)
    requires PrepareRow(cols, targets, exprs, now).Ok?
    ensures
      var row := PrepareRow(cols, targets, exprs, now).value.row;
      && |row| == |cols| && |exprs| == |targets|
      && (forall i :: 0 <= i < |targets| ==> StoredForm(cols[targets[i]], exprs[i], now) == Ok(row[targets[i]]))
      && (forall j :: 0 <= j < |cols| && j !in targets ==> row[j].VNull?)
  {
    FillRowCells(cols, targets, exprs, now, seq(|cols|, i => VNull));
  }

  lemma {:induction false} FillRowOkIff(cols: seq<Column>, targets: seq<nat>, exprs: seq<Expr>, now: int, row: Row)
    requires |targets| == |exprs| && |row| == |cols| && forall i :: 0 <= i < |targets| ==> targets[i] < |cols|
    ensures FillRow(cols, targets, exprs, now, row).Ok? <==>
            forall i :: 0 <= i < |targets| ==> StoredForm(cols[targets[i]], exprs[i], now).Ok?
    decreases |targets|
  {
    if targets != [] {
      var first := StoredForm(cols[targets[0]], exprs[0], now);
      if first.Ok? {
        FillRowOkIff(cols, targets[1..], exprs[1..], now, row[targets[0] := first.value]);
        forall i | 0 < i < |targets| ensures targets[1..][i - 1] == targets[i] && exprs[1..][i - 1] == exprs[i] { }
      }
    }
  }

  /** The row that VALUES describes: each value in its column, in stored form, and NULL elsewhere. */
  ghost predicate Described(cols: seq<Column>, targets: seq<nat>, exprs: seq<Expr>, now: int, row: Row)
    requires |exprs| == |targets| && forall i :: 0 <= i < |targets| ==> targets[i] < |cols|
  {
    && |row| == |cols|
    && (forall i :: 0 <= i < |targets| ==> StoredForm(cols[targets[i]], exprs[i], now) == Ok(row[targets[i]]))
    && (forall j :: 0 <= j < |cols| && j !in targets ==> row[j] == VNull)
  }

  /** NOT NULL columns hold a value; so does the primary key, an integer, unless the engine numbers it. */
  predicate HonoursNotNull(cols: seq<Column>, row: Row)
    requires |row| == |cols|
  {
    && (forall j :: 0 <= j < |cols| && cols[j].notNull && !cols[j].primary ==> row[j] != VNull)
    && (forall j :: 0 <= j < |cols| && cols[j].primary && (forall i :: 0 <= i < j ==> !cols[i].primary) ==>
          row[j].VInt? || (row[j] == VNull && cols[j].autoInc))
  }

  /** The row is stored under its integer primary key, or under an id of the engine, which is written into
      the key column if there is one. */
  predicate KeyedBy(cols: seq<Column>, row: Row, keying: Keying)
    requires |row| == |cols|
  {
    && ((forall j :: 0 <= j < |cols| ==> !cols[j].primary) ==> keying == ByEngine(-1))
    && forall j :: 0 <= j < |cols| && cols[j].primary && (forall i :: 0 <= i < j ==> !cols[i].primary) ==>
         keying == if row[j].VInt? then ByValue(row[j].i) else ByEngine(j)
  }

  lemma {:induction false} PkIndexIsFirst(cols: seq<Column>, i: nat)
    requires i <= |cols|
    ensures PkIndex(cols, i).None? ==> forall j :: i <= j < |cols| ==> !cols[j].primary
    ensures PkIndex(cols, i).Some? ==>
      i <= PkIndex(cols, i).value && forall j :: i <= j < PkIndex(cols, i).value ==> !cols[j].primary
    decreases |cols| - i
  {
    if i < |cols| && !cols[i].primary { PkIndexIsFirst(cols, i + 1); }
  }

  lemma KeyingOfRow(cols: seq<Column>, row: Row)
    requires |row| == |cols|
    ensures KeyRow(cols, row).Ok? && NotNullOk(cols, row) <==> HonoursNotNull(cols, row)
    ensures KeyRow(cols, row).Ok? ==> KeyedBy(cols, row, KeyRow(cols, row).value)
  {
    PkIndexIsFirst(cols, 0);
  }

  /** INSERT prepares a row if and only if there is one value for each column of the list, each value fits
      its column, and the row they describe has no NULL where it must not; it is then that row, keyed by
      its primary key. */
  lemma InsertAcceptsIff(cols: seq<Column>, targets: seq<nat>, exprs: seq<Expr>, now: int) returns (row: Row)
    requires (forall i :: 0 <= i < |targets| ==> targets[i] < |cols|) && NoRepeats(targets)
    ensures
      var p := PrepareRow(cols, targets, exprs, now);
      if |exprs| == |targets| && forall i :: 0 <= i < |targets| ==> StoredForm(cols[targets[i]], exprs[i], now).Ok? then
        && Described(cols, targets, exprs, now, row)
        && (p.Ok? <==> HonoursNotNull(cols, row))
        && (p.Ok? ==> p.value.row == row && KeyedBy(cols, row, p.value.keying))
      else !p.Ok?
  {
    row := [];
    if |exprs| == |targets| {
      var blank := seq(|cols|, i => VNull);
      FillRowOkIff(cols, targets, exprs, now, blank);
      var filled := FillRow(cols, targets, exprs, now, blank);
      if filled.Ok? {
        row := filled.value;
        FillRowCells(cols, targets, exprs, now, blank);
        KeyingOfRow(cols, row);
      }
    }
  }

  /** A successful INSERT of one row adds that row under its id, and nothing else changes. */
  lemma InsertStores(
    acc: Acc, name: string, cols: seq<Column>, targets: seq<nat>, exprs: seq<Expr>, now: int, other: string)
    requires Separate(acc) && ColsAt(acc, name) == Some(cols) && forall i :: 0 <= i < |targets| ==> targets[i] < |cols|
    requires InsertOne(acc, name, cols, targets, exprs, now).res.Ok?
    ensures
      var p := PrepareRow(cols, targets, exprs, now);
      && p.Ok?
      && var id := NewId(acc, name, if p.value.keying.ByValue? then p.value.keying.id else 0);
         var row := Stamp(p.value.row, if p.value.keying.ByValue? then -1 else p.value.keying.pkIdx, id);
         RowsAt(InsertOne(acc, name, cols, targets, exprs, now).acc, other) ==
         if other == name then RowsAt(acc, name)[id := row] else RowsAt(acc, other)
  {
    var c := InsertCall(name, PrepareRow(cols, targets, exprs, now).value);
    PerformFrame(acc, c, other);
    PerformStores(acc, c);
  }

  // --- UPDATE -----------------------------------------------------------------------------------------

  /** The last assignment to column j. */
  function LastSet(sets: seq<SetCol>, j: nat): Option<Expr> {
    if sets == [] then None
    else
      var later := LastSet(sets[1..], j);
      if later.Some? then later else if sets[0].idx == j then Some(sets[0].expr) else None
  }

  function UpdatedForm(c: Ctx, col: Column, e: Expr, row: Row): Outcome<Value> {
    var v :- EvalValue(c, e, row);
    CoerceFor(col, v)
  }

  /** Assigned columns get the value of their last SET expression on the original row, the others
      keep theirs. */
  lemma {:induction false} AssignedCells(c: Ctx, cols: seq<Column>, sets: seq<SetCol>, row: Row, out: Row, j: nat)
    requires |out| == |cols| && (forall i :: 0 <= i < |sets| ==> sets[i].idx < |cols|) && j < |cols|
    requires Assigned(c, cols, sets, row, out).Ok?
    ensures
      var cell := Assigned(c, cols, sets, row, out).value[j];
      match LastSet(sets, j)
      case None => cell == out[j]
      case Some(e) => UpdatedForm(c, cols[j], e, row) == Ok(cell)
    decreases |sets|
  {
    if sets != [] {
      var w := UpdatedForm(c, cols[sets[0].idx], sets[0].expr, row).value;
      AssignedCells(c, cols, sets[1..], row, out[sets[0].idx := w], j);
    }
  }

  /** A successful UPDATE of one row replaces it in place, or moves it to its new key; nothing else
      changes. */
  lemma UpdateStores(
    acc: Acc, now: int, name: string, cols: seq<Column>, sets: seq<SetCol>, cand: P.Stored, other: string)
    requires Separate(acc) && ColsAt(acc, name) == Some(cols) && |cand.row| == |cols|
    requires forall i :: 0 <= i < |sets| ==> sets[i].idx < |cols|
    requires UpdateOne(acc, now, name, cols, sets, cand).res.Ok?
    ensures
      var o := Assigned(Ctx(TableScope(name, cols), now, None), cols, sets, cand.row, cand.row);
      && o.Ok? && cand.id in RowsAt(acc, name)
      && var after := RowsAt(UpdateOne(acc, now, name, cols, sets, cand).acc, other);
         if other != name then after == RowsAt(acc, other)
         else if !Moves(cols, cand.row, o.value) then after == RowsAt(acc, name)[cand.id := o.value]
         else after == (RowsAt(acc, name) - {cand.id})[NewId(acc, name, o.value[PkIndex(cols, 0).value].i) := o.value]
  {
    var out := Assigned(Ctx(TableScope(name, cols), now, None), cols, sets, cand.row, cand.row).value;
    if Moves(cols, cand.row, out) {
      MoveStores(acc, name, cand.id, out[PkIndex(cols, 0).value].i, out, other);
    } else {
      PerformFrame(acc, TM.Update(name, cand.id, out), other);
      PerformUpdate(acc, name, cand.id, out);
    }
  }

  lemma MoveStores(acc: Acc, name: string, id: int64, key: int64, out: Row, other: string)
    requires Separate(acc) && ColsAt(acc, name).Some? && MoveRow(acc, name, id, key, out).res.Ok?
    ensures id in RowsAt(acc, name)
    ensures
      var after := RowsAt(MoveRow(acc, name, id, key, out).acc, other);
      after == if other == name then (RowsAt(acc, name) - {id})[NewId(acc, name, key) := out] else RowsAt(acc, other)
  {
    var remove, put := TM.Remove(name, id), TM.Insert(name, key, -1, out);
    PerformFrame(acc, remove, other);
    PerformFrame(acc, remove, name);
    PerformRemove(acc, name, id);
    var mid := Perform(acc, remove).acc;
    RemoveKeepsCounter(acc, name, id, key);
    PerformFrame(mid, put, other);
    PerformInsert(mid, name, key, -1, out);
  }

  lemma RemoveKeepsCounter(acc: Acc, name: string, id: int64, key: int64)
    requires ColsAt(acc, name).Some? && ColsAt(Perform(acc, TM.Remove(name, id)).acc, name).Some?
    ensures NewId(Perform(acc, TM.Remove(name, id)).acc, name, key) == NewId(acc, name, key)
  {
  }

  // --- DELETE -----------------------------------------------------------------------------------------

  function IdsOf(cands: seq<P.Stored>): set<int64> { set i | 0 <= i < |cands| :: cands[i].id }

  /** A successful DELETE removes exactly its candidates, and nothing else changes. */
  lemma {:induction false} DeleteRemoves(acc: Acc, name: string, cands: seq<P.Stored>, n: nat, other: string)
    requires Separate(acc) && DeleteAll(acc, name, cands, n).res.Ok?
    ensures DeleteAll(acc, name, cands, n).res == Ok(n + |cands|)
    ensures RowsAt(DeleteAll(acc, name, cands, n).acc, other) ==
            if other == name then RowsAt(acc, name) - IdsOf(cands) else RowsAt(acc, other)
    decreases |cands|
  {
    if cands == [] {
      assert IdsOf(cands) == {};
    } else {
      var next := DeleteOne(acc, name, cands[0].id).acc;
      DeleteStep(acc, name, cands[0].id, other);
      DeleteRemoves(next, name, cands[1..], n + 1, other);
      IdsCons(cands);
      if other == name { WithoutBoth(RowsAt(acc, name), cands[0].id, IdsOf(cands[1..])); }
    }
  }

  lemma DeleteStep(acc: Acc, name: string, id: int64, other: string)
    requires Separate(acc) && DeleteOne(acc, name, id).res.Ok?
    ensures
      var next := DeleteOne(acc, name, id).acc;
      && Separate(next)
      && RowsAt(next, other) == if other == name then RowsAt(acc, name) - {id} else RowsAt(acc, other)
  {
    PerformFrame(acc, TM.Remove(name, id), other);
    PerformRemove(acc, name, id);
  }

  lemma WithoutBoth<K, V>(m: map<K, V>, k: K, rest: set<K>)
    ensures m - {k} - rest == m - ({k} + rest)
  {
  }

  lemma IdsCons(cands: seq<P.Stored>)
    requires cands != []
    ensures IdsOf(cands) == {cands[0].id} + IdsOf(cands[1..])
  {
    forall x | x in IdsOf(cands) ensures x in {cands[0].id} + IdsOf(cands[1..]) {
      var i :| 0 <= i < |cands| && cands[i].id == x;
      if i > 0 { assert cands[1..][i - 1].id == x; }
    }
    forall x | x in IdsOf(cands[1..]) ensures x in IdsOf(cands) {
      var i :| 0 <= i < |cands[1..]| && cands[1..][i].id == x;
      assert cands[i + 1].id == x;
    }
  }

  /** The row is wanted: there is no condition, or the condition is TRUE for it. */
  predicate Wanted(c: Ctx, where: Option<Expr>, row: Row) {
    where.None? || (EvalBool(c, where.value, row).Ok? && Accepts(EvalBool(c, where.value, row).value))
  }

  lemma {:induction false} ScanIsFilter(c: Ctx, where: Option<Expr>, stored: seq<P.Stored>)
    requires Scan(c, where, stored).Ok?
    ensures forall x :: x in Scan(c, where, stored).value <==> x in stored && Wanted(c, where, x.row)
    decreases |stored|
  {
    if stored != [] {
      ScanIsFilter(c, where, stored[1..]);
      assert forall x :: x in stored <==> x == stored[0] || x in stored[1..];
    }
  }

  /** Deleting what the scan finds leaves the rows for which the condition is not TRUE. */
  lemma DeleteScanned(c: Ctx, acc: Acc, name: string, where: Option<Expr>, id: int64)
    requires Separate(acc) && Scan(c, where, Listing(RowsAt(acc, name))).Ok?
    requires DeleteAll(acc, name, Scan(c, where, Listing(RowsAt(acc, name))).value, 0).res.Ok?
    ensures
      var after := DeleteAll(acc, name, Scan(c, where, Listing(RowsAt(acc, name))).value, 0).acc;
      id in RowsAt(after, name) <==> id in RowsAt(acc, name) && !Wanted(c, where, RowsAt(acc, name)[id])
  {
    var rows := RowsAt(acc, name);
    var cands := Scan(c, where, Listing(rows)).value;
    DeleteRemoves(acc, name, cands, 0, name);
    ListingLists(rows);
    ScanIsFilter(c, where, Listing(rows));
    if id in rows {
      var st := P.Stored(id, rows[id]);
      assert st in Listing(rows);
      if id in IdsOf(cands) {
        var i :| 0 <= i < |cands| && cands[i].id == id;
        assert cands[i] in cands;
      }
      if st in cands {
        var i :| 0 <= i < |cands| && cands[i] == st;
        assert id in IdsOf(cands);
      }
    }
  }

  /** The condition is not looked up in an index where a stored cell collides with its literal. */
  predicate ScanDecides(rel: P.Relation, name: string, where: Option<Expr>) {
    var probe := P.UniqueEquality(where, name, rel.cols);
    probe.Some? ==> !Collision(rel.stored, probe.value)
  }

  lemma CandidatesAreScanned(now: int, name: string, rel: P.Relation, where: Option<Expr>)
    requires Shaped(rel) && ScanDecides(rel, name, where)
    ensures CollectCandidates(now, name, rel, where) ==
            Scan(Ctx(TableScope(name, rel.cols), now, None), where, rel.stored)
  {
    if P.UniqueEquality(where, name, rel.cols).Some? { ShortcutIsScanIff(now, name, rel, where.value); }
  }

  predicate Increasing(stored: seq<P.Stored>) { forall i, j :: 0 <= i < j < |stored| ==> stored[i].id < stored[j].id }

  lemma {:induction false} ScanIncreasing(c: Ctx, where: Option<Expr>, stored: seq<P.Stored>)
    requires Increasing(stored) && Scan(c, where, stored).Ok?
    ensures Increasing(Scan(c, where, stored).value)
    decreases |stored|
  {
    if stored != [] {
      ScanIncreasing(c, where, stored[1..]);
      ScanWithin(c, where, stored[1..]);
      var rest := Scan(c, where, stored[1..]).value;
      forall i | 0 <= i < |rest| ensures stored[0].id < rest[i].id { assert rest[i] in stored[1..]; }
    }
  }

  /** If a cell collides, some wanted row is hidden by the index. */
  lemma HiddenRow(now: int, name: string, rel: P.Relation, where: Option<Expr>) returns (x: P.Stored)
    requires Shaped(rel) && Increasing(rel.stored) && !ScanDecides(rel, name, where)
    ensures CollectCandidates(now, name, rel, where).Ok?
    ensures x in rel.stored && x.id !in IdsOf(CollectCandidates(now, name, rel, where).value)
    ensures Wanted(Ctx(TableScope(name, rel.cols), now, None), where, x.row)
  {
    var c := Ctx(TableScope(name, rel.cols), now, None);
    ShortcutAgainstScan(now, name, rel, where.value);
    var cands, found := CollectCandidates(now, name, rel, where).value, Scan(c, where, rel.stored).value;
    ScanIncreasing(c, where, rel.stored);
    ScanIsFilter(c, where, rel.stored);
    x := if |cands| == 1 && found[0].id == cands[0].id then found[1] else found[0];
    assert x in found;
  }

  lemma WantedRowStays(acc: Acc, now: int, name: string, where: Option<Expr>) returns (id: int64)
    requires Separate(acc) && name in DbOf(acc) && Shaped(DbOf(acc)[name]) && !ScanDecides(DbOf(acc)[name], name, where)
    requires
      var cands := CollectCandidates(now, name, DbOf(acc)[name], where);
      cands.Ok? && DeleteAll(acc, name, cands.value, 0).res.Ok?
    ensures
      var rel := DbOf(acc)[name];
      var after := DeleteAll(acc, name, CollectCandidates(now, name, rel, where).value, 0).acc;
      && id in RowsAt(acc, name) && id in RowsAt(after, name)
      && Wanted(Ctx(TableScope(name, rel.cols), now, None), where, RowsAt(acc, name)[id])
  {
    ListingLists(RowsAt(acc, name));
    var x := HiddenRow(now, name, DbOf(acc)[name], where);
    DeleteRemoves(acc, name, CollectCandidates(now, name, DbOf(acc)[name], where).value, 0, name);
    id := x.id;
  }

  /** The rows that stay are those for which the condition is not TRUE. */
  ghost predicate OnlyUnwantedStay(acc: Acc, after: Acc, c: Ctx, name: string, where: Option<Expr>) {
    forall id :: id in RowsAt(after, name) <==> id in RowsAt(acc, name) && !Wanted(c, where, RowsAt(acc, name)[id])
  }

  lemma DeletedAreWantedIff(acc: Acc, now: int, name: string, where: Option<Expr>)
    requires Separate(acc) && name in DbOf(acc) && Shaped(DbOf(acc)[name])
    requires
      var cands := CollectCandidates(now, name, DbOf(acc)[name], where);
      cands.Ok? && DeleteAll(acc, name, cands.value, 0).res.Ok?
    ensures
      var rel := DbOf(acc)[name];
      var after := DeleteAll(acc, name, CollectCandidates(now, name, rel, where).value, 0).acc;
      OnlyUnwantedStay(acc, after, Ctx(TableScope(name, rel.cols), now, None), name, where) <==>
        ScanDecides(rel, name, where)
  {
    var rel := DbOf(acc)[name];
    if ScanDecides(rel, name, where) {
      CandidatesAreScanned(now, name, rel, where);
      forall id { DeleteScanned(Ctx(TableScope(name, rel.cols), now, None), acc, name, where, id); }
    } else {
      var id := WantedRowStays(acc, now, name, where);
    }
  }

  /** A successful DELETE, by scan or by index, leaves exactly the rows for which its condition is not
      TRUE, if and only if no stored cell collides with the literal of an index lookup. */
  lemma DeleteMeaning(run: Q.Runner, acc: Acc, now: int, name: string, where: Option<Expr>)
    requires Inv(acc) && name in DbOf(acc) && Exec(run, acc, now, DeleteRows(name, where)).res.Ok?
    ensures
      var rel, after := DbOf(acc)[name], Exec(run, acc, now, DeleteRows(name, where)).acc;
      var c := Ctx(TableScope(name, rel.cols), now, None);
      var w := PrepareWhere(run, acc, now, c.sc, where);
      w.Ok? && (OnlyUnwantedStay(acc, after, c, name, w.value) <==> ScanDecides(rel, name, w.value))
  {
    var rel := DbOf(acc)[name];
    var w := PrepareWhere(run, acc, now, TableScope(name, rel.cols), where).value;
    RelationIsShaped(acc, name);
    DeletedAreWantedIff(acc, now, name, w);
  }
}
