/** INSERT, UPDATE and DELETE over an accessor, and what every run of them keeps. */
module Dml {
  import opened Values
  import opened Schema
  import opened Ast
  import opened Eval
  import opened Validate
  import opened Tables
  import EM = EngineModel
  import TM = TxnModel
  import opened Accessor
  import P = Plans
  import Q = Query
  import opened Shortcut
  import S = QuerySafety

  // --- statements -----------------------------------------------------------------------------------------

  datatype Assignment = Assignment(col: string, expr: Expr)

  datatype Statement =
    | InsertRows(table: string, names: seq<string>, rows: seq<seq<Expr>>)
    | UpdateRows(table: string, sets: seq<Assignment>, where: Option<Expr>)
    | DeleteRows(table: string, where: Option<Expr>)

  /** The accessor a statement leaves behind, and the number of rows or the error. */
  datatype Effect = Effect(acc: Acc, res: Outcome<nat>)

  type TimeParser = f: string -> Option<int> | true witness s => None

  /** The library's reading of a timestamp text, left arbitrary. */
  const ParseTime: TimeParser

  /** `coerce`: text is tried as a timestamp first, then the column type decides. */
  function Coerce(ct: ColumnType, v: Value): Option<Value> {
    if v.VText? && ct.TTimestamp? && ParseTime(v.s).Some? then Check(ct, VTime(ParseTime(v.s).value))
    else Check(ct, v)
  }

  function ColumnNamed(cols: seq<Column>, name: string, i: nat): (r: Option<nat>)
    requires i <= |cols|
    ensures r.Some? ==> r.value < |cols| && cols[r.value].name == name
    decreases |cols| - i
  {
    if i == |cols| then None else if cols[i].name == name then Some(i) else ColumnNamed(cols, name, i + 1)
  }

  function PkIndex(cols: seq<Column>, i: nat): (r: Option<nat>)
    requires i <= |cols|
    ensures r.Some? ==> r.value < |cols| && cols[r.value].primary
    decreases |cols| - i
  {
    if i == |cols| then None else if cols[i].primary then Some(i) else PkIndex(cols, i + 1)
  }

  // --- foreign keys -----------------------------------------------------------------------------------------

  /** `checkFK`: every non-NULL foreign-key cell is the id of a row of the parent. */
  predicate FkRowOk(acc: Acc, cols: seq<Column>, row: Row) {
    forall ci: nat :: ci < |cols| && ci < |row| && cols[ci].fkTable != "" && !row[ci].VNull? ==>
      row[ci].VInt? && row[ci].i in RowsAt(acc, cols[ci].fkTable)
  }

  predicate RefersAt(acc: Acc, child: string, ci: nat, id: int64, parent: string, key: int64) {
    && child in acc.e.ids && ColsAt(acc, child).Some? && ci < |ColsAt(acc, child).value|
    && ColsAt(acc, child).value[ci].fkTable == parent
    && id in RowsAt(acc, child) && ci < |RowsAt(acc, child)[id]| && RowsAt(acc, child)[id][ci] == VInt(key)
  }

  /** `fkReferenced`: some row other than the parent row itself refers to it. */
  ghost predicate Referenced(acc: Acc, parent: string, key: int64) {
    exists child, ci, id :: RefersAt(acc, child, ci, id, parent, key) && !(child == parent && id == key)
  }

  /** Every stored foreign-key cell is NULL or names an existing parent row. */
  ghost predicate FkOk(acc: Acc) {
    forall name, id :: name in acc.e.ids && ColsAt(acc, name).Some? && id in RowsAt(acc, name) ==>
      FkRowOk(acc, ColsAt(acc, name).value, RowsAt(acc, name)[id])
  }

  /** What CREATE TABLE guarantees of a definition: distinct column names, integer primary keys, no
      reference to the table itself. */
  predicate DefOk(name: string, cols: seq<Column>) {
    && DistinctNames(cols)
    && forall i :: 0 <= i < |cols| ==>
         (cols[i].primary ==> cols[i].typ.TInt? || cols[i].typ.TBigint?) && cols[i].fkTable != name
  }

  ghost predicate CatalogOk(acc: Acc) {
    forall name :: name in acc.e.ids && ColsAt(acc, name).Some? ==> name != "" && DefOk(name, ColsAt(acc, name).value)
  }

  /** No foreign key on a column that numbers itself. */
  predicate NoAutoReference(cols: seq<Column>) {
    forall i :: 0 <= i < |cols| && cols[i].primary && cols[i].autoInc ==> cols[i].fkTable == ""
  }

  lemma FkRowGrows(before: Acc, after: Acc, cols: seq<Column>, row: Row)
    requires FkRowOk(before, cols, row)
    requires forall n, id :: id in RowsAt(before, n) ==> id in RowsAt(after, n)
    ensures FkRowOk(after, cols, row)
  {
  }

  lemma CallKeepsCatalog(acc: Acc, c: TM.Call)
    requires Separate(acc) && CatalogOk(acc)
    ensures CatalogOk(Perform(acc, c).acc) && Separate(Perform(acc, c).acc)
  {
    forall name ensures ColsAt(Perform(acc, c).acc, name) == ColsAt(acc, name) { PerformFrame(acc, c, name); }
    PerformFrame(acc, c, c.name);
  }

  /** Rows stored under their id keep every reference alive; only the new row is in question. */
  lemma StoreKeepsFkIff(acc: Acc, after: Acc, name: string, id: int64, row: Row)
    requires FkOk(acc) && CatalogOk(acc) && name in acc.e.ids && ColsAt(acc, name).Some?
    requires after.e.ids == acc.e.ids && forall n :: ColsAt(after, n) == ColsAt(acc, n)
    requires forall n :: n != name ==> RowsAt(after, n) == RowsAt(acc, n)
    requires RowsAt(after, name) == RowsAt(acc, name)[id := row]
    ensures FkOk(after) <==> FkRowOk(acc, ColsAt(acc, name).value, row)
  {
    var cols := ColsAt(acc, name).value;
    assert FkRowOk(after, cols, row) <==> FkRowOk(acc, cols, row);
    assert id in RowsAt(after, name) && RowsAt(after, name)[id] == row;
    if FkRowOk(acc, cols, row) {
      forall n, i | n in after.e.ids && ColsAt(after, n).Some? && i in RowsAt(after, n)
        ensures FkRowOk(after, ColsAt(after, n).value, RowsAt(after, n)[i])
      {
        if !(n == name && i == id) {
          assert FkRowOk(acc, ColsAt(acc, n).value, RowsAt(acc, n)[i]);
          FkRowGrows(acc, after, ColsAt(acc, n).value, RowsAt(acc, n)[i]);
        }
      }
    }
  }

  /** Removing a row keeps every reference alive exactly if nothing refers to the row. */
  lemma DropKeepsFk(acc: Acc, after: Acc, name: string, id: int64)
    requires FkOk(acc) && CatalogOk(acc) && name in acc.e.ids && ColsAt(acc, name).Some?
    requires after.e.ids == acc.e.ids && forall n :: ColsAt(after, n) == ColsAt(acc, n)
    requires forall n :: n != name ==> RowsAt(after, n) == RowsAt(acc, n)
    requires RowsAt(after, name) == RowsAt(acc, name) - {id}
    ensures FkOk(after) <==> !Referenced(acc, name, id)
  {
    if child, ci, i :| RefersAt(acc, child, ci, i, name, id) && !(child == name && i == id) {
      assert DefOk(child, ColsAt(acc, child).value) && DefOk(name, ColsAt(acc, name).value);
      assert i in RowsAt(after, child) && !FkRowOk(after, ColsAt(after, child).value, RowsAt(after, child)[i]);
      return;
    }
    forall n, i | n in after.e.ids && ColsAt(after, n).Some? && i in RowsAt(after, n)
      ensures FkRowOk(after, ColsAt(after, n).value, RowsAt(after, n)[i])
    {
      var cols, row := ColsAt(acc, n).value, RowsAt(acc, n)[i];
      assert FkRowOk(acc, cols, row) && DefOk(n, cols);
      forall ci: nat | ci < |cols| && ci < |row| && cols[ci].fkTable != "" && !row[ci].VNull?
        ensures row[ci].VInt? && row[ci].i in RowsAt(after, cols[ci].fkTable)
      {
        assert cols[ci].fkTable == name && row[ci].i == id ==> RefersAt(acc, n, ci, i, name, id);
      }
    }
  }

  // --- INSERT -------------------------------------------------------------------------------------------------

  /** The target column of each value: all columns in order, or the named ones, each once. */
  function Targets(cols: seq<Column>, names: seq<string>, seen: set<nat>): (r: Outcome<seq<nat>>)
    ensures r.Ok? ==> |r.value| == |names| && forall i :: 0 <= i < |r.value| ==> r.value[i] < |cols|
    decreases |names|
  {
    if names == [] then Ok([])
    else match ColumnNamed(cols, names[0], 0)
      case None => Err("42703")
      case Some(i) =>
        if i in seen then Err("42703")
        else
          var rest :- Targets(cols, names[1..], seen + {i});
          Ok([i] + rest)
  }

  function TargetsOf(cols: seq<Column>, names: seq<string>): (r: Outcome<seq<nat>>)
    ensures r.Ok? ==> forall i :: 0 <= i < |r.value| ==> r.value[i] < |cols|
  {
    if names == [] then Ok(seq(|cols|, i => i)) else Targets(cols, names, {})
  }

  /** VALUES takes literals and NOW(). */
  function InsertValue(e: Expr, now: int): Outcome<Value> {
    match e
    case Lit(v) => Ok(v)
    case Func(name, _, _) => if name == "now" then Ok(VTime(now)) else Err("42883")
    case _ => Err("0A000")
  }

  function CoerceFor(col: Column, v: Value): Outcome<Value> {
    match Coerce(col.typ, v)
    case None => Err("22P02")
    case Some(w) => Ok(w)
  }

  function FillRow(cols: seq<Column>, targets: seq<nat>, exprs: seq<Expr>, now: int, row: Row): (r: Outcome<Row>)
    requires |targets| == |exprs| && |row| == |cols| && forall i :: 0 <= i < |targets| ==> targets[i] < |cols|
    ensures r.Ok? ==> |r.value| == |cols|
    decreases |targets|
  {
    if targets == [] then Ok(row)
    else
      var v :- InsertValue(exprs[0], now);
      var w :- CoerceFor(cols[targets[0]], v);
      FillRow(cols, targets[1..], exprs[1..], now, row[targets[0] := w])
  }

  /** How the new row is keyed: by itself, or by the id the engine hands out. */
  datatype Keying = ByValue(id: int64) | ByEngine(pkIdx: int)

  function KeyRow(cols: seq<Column>, row: Row): Outcome<Keying>
    requires |row| == |cols|
  {
    match PkIndex(cols, 0)
    case None => Ok(ByEngine(-1))
    case Some(pk) =>
      match row[pk]
      case VNull => if cols[pk].autoInc then Ok(ByEngine(pk)) else Err("23502")
      case VInt(i) => Ok(ByValue(i))
      case _ => Err("22P02")
  }

  predicate NotNullOk(cols: seq<Column>, row: Row)
    requires |row| == |cols|
  {
    forall i :: 0 <= i < |cols| && !cols[i].primary && cols[i].notNull ==> !row[i].VNull?
  }

  /** A row ready to be stored, or the error. */
  datatype Prepared = Prepared(row: Row, keying: Keying)

  function PrepareRow(cols: seq<Column>, targets: seq<nat>, exprs: seq<Expr>, now: int): (r: Outcome<Prepared>)
    requires forall i :: 0 <= i < |targets| ==> targets[i] < |cols|
    ensures r.Ok? ==> |r.value.row| == |cols|
  {
    if |exprs| != |targets| then Err("21000")
    else
      var row :- FillRow(cols, targets, exprs, now, seq(|cols|, i => VNull));
      var keying :- KeyRow(cols, row);
      if NotNullOk(cols, row) then Ok(Prepared(row, keying)) else Err("23502")
  }

  function InsertCall(name: string, p: Prepared): TM.Call {
    match p.keying
    case ByValue(id) => TM.Insert(name, id, -1, p.row)
    case ByEngine(pkIdx) => TM.Insert(name, 0, pkIdx, p.row)
  }

  /** One call on the accessor: its rows so far, or the refusal. */
  function Store(acc: Acc, c: TM.Call): Effect {
    var r := Perform(acc, c);
    Effect(r.acc, if r.ok then Ok(1) else Err(Refusal(acc, c)))
  }

  function InsertPrepared(acc: Acc, name: string, cols: seq<Column>, p: Prepared): Effect {
    if FkRowOk(acc, cols, p.row) then Store(acc, InsertCall(name, p)) else Effect(acc, Err("23503"))
  }

  function InsertOne(acc: Acc, name: string, cols: seq<Column>, targets: seq<nat>, exprs: seq<Expr>, now: int): Effect
    requires forall i :: 0 <= i < |targets| ==> targets[i] < |cols|
  {
    var p := PrepareRow(cols, targets, exprs, now);
    if p.Ok? then InsertPrepared(acc, name, cols, p.value) else Effect(acc, p.PropagateFailure())
  }

  /** The rows of one INSERT in turn; a failing one stops the statement, earlier ones stay. */
  function InsertAll(
    acc: Acc, name: string, cols: seq<Column>, targets: seq<nat>, rows: seq<seq<Expr>>, now: int, n: nat): Effect
    requires forall i :: 0 <= i < |targets| ==> targets[i] < |cols|
    decreases |rows|
  {
    if rows == [] then Effect(acc, Ok(n))
    else
      var r := InsertOne(acc, name, cols, targets, rows[0], now);
      if r.res.Ok? then InsertAll(r.acc, name, cols, targets, rows[1..], now, n + 1) else r
  }

  // --- UPDATE and DELETE --------------------------------------------------------------------------------------

  datatype SetCol = SetCol(idx: nat, expr: Expr)

  function SetCols(cols: seq<Column>, sets: seq<Assignment>): (r: Outcome<seq<SetCol>>)
    ensures r.Ok? ==> |r.value| == |sets| && forall i :: 0 <= i < |r.value| ==> r.value[i].idx < |cols|
    decreases |sets|
  {
    if sets == [] then Ok([])
    else match ColumnNamed(cols, sets[0].col, 0)
      case None => Err("42703")
      case Some(i) =>
        var rest :- SetCols(cols, sets[1..]);
        Ok([SetCol(i, sets[0].expr)] + rest)
  }

  function ValidateSets(sc: Scope, sets: seq<Assignment>): Verdict
    decreases |sets|
  {
    if sets == [] then None else Both(ValidateExpr(sc, sets[0].expr), ValidateSets(sc, sets[1..]))
  }

  /** Every SET expression reads the original row. */
  function Assigned(c: Ctx, cols: seq<Column>, sets: seq<SetCol>, row: Row, out: Row): (r: Outcome<Row>)
    requires |out| == |cols| && forall i :: 0 <= i < |sets| ==> sets[i].idx < |cols|
    ensures r.Ok? ==> |r.value| == |cols|
    decreases |sets|
  {
    if sets == [] then Ok(out)
    else
      var v :- EvalValue(c, sets[0].expr, row);
      var w :- CoerceFor(cols[sets[0].idx], v);
      Assigned(c, cols, sets[1..], row, out[sets[0].idx := w])
  }

  /** The new row moves to another id: its integer primary key changes. */
  predicate Moves(cols: seq<Column>, row: Row, out: Row)
    requires |out| == |row| == |cols|
  {
    var pk := PkIndex(cols, 0);
    pk.Some? && row[pk.value].VInt? && out[pk.value].VInt? && row[pk.value].i != out[pk.value].i
  }

  /** A move is a delete and a put; if the put fails, the row stays deleted. */
  ghost function MoveRow(acc: Acc, name: string, id: int64, key: int64, out: Row): Effect {
    if Referenced(acc, name, id) then Effect(acc, Err("23503"))
    else
      var gone := Store(acc, TM.Remove(name, id));
      if gone.res.Ok? then Store(gone.acc, TM.Insert(name, key, -1, out)) else gone
  }

  ghost function StoreUpdated(acc: Acc, name: string, cols: seq<Column>, cand: P.Stored, out: Row): Effect
    requires |out| == |cand.row| == |cols|
  {
    if !FkRowOk(acc, cols, out) then Effect(acc, Err("23503"))
    else if Moves(cols, cand.row, out) then MoveRow(acc, name, cand.id, out[PkIndex(cols, 0).value].i, out)
    else Store(acc, TM.Update(name, cand.id, out))
  }

  ghost function UpdateOne(
    acc: Acc, now: int, name: string, cols: seq<Column>, sets: seq<SetCol>, cand: P.Stored): Effect
    requires |cand.row| == |cols| && forall i :: 0 <= i < |sets| ==> sets[i].idx < |cols|
  {
    var out := Assigned(Ctx(TableScope(name, cols), now, None), cols, sets, cand.row, cand.row);
    if out.Ok? then StoreUpdated(acc, name, cols, cand, out.value) else Effect(acc, out.PropagateFailure())
  }

  ghost function UpdateAll(
    acc: Acc, now: int, name: string, cols: seq<Column>, sets: seq<SetCol>, cands: seq<P.Stored>, n: nat): Effect
    requires forall i :: 0 <= i < |cands| ==> |cands[i].row| == |cols|
    requires forall i :: 0 <= i < |sets| ==> sets[i].idx < |cols|
    decreases |cands|
  {
    if cands == [] then Effect(acc, Ok(n))
    else
      var r := UpdateOne(acc, now, name, cols, sets, cands[0]);
      if r.res.Ok? then UpdateAll(r.acc, now, name, cols, sets, cands[1..], n + 1) else r
  }

  ghost function DeleteOne(acc: Acc, name: string, id: int64): Effect {
    if Referenced(acc, name, id) then Effect(acc, Err("23503")) else Store(acc, TM.Remove(name, id))
  }

  ghost function DeleteAll(acc: Acc, name: string, cands: seq<P.Stored>, n: nat): Effect
    decreases |cands|
  {
    if cands == [] then Effect(acc, Ok(n))
    else
      var r := DeleteOne(acc, name, cands[0].id);
      if r.res.Ok? then DeleteAll(r.acc, name, cands[1..], n + 1) else r
  }

  // --- statements -----------------------------------------------------------------------------------------------

  /** The resolved and validated condition; `run` executes the queries behind IN. */
  function PrepareWhere(run: Q.Runner, acc: Acc, now: int, sc: Scope, where: Option<Expr>): Outcome<Option<Expr>> {
    var w :- Q.ResolveOpt(run, DbOf(acc), now, where);
    var ok :- P.Require(if w.Some? then ValidateExpr(sc, w.value) else None);
    Ok(w)
  }

  /** The rows an UPDATE or DELETE works on. */
  function Affected(run: Q.Runner, acc: Acc, now: int, name: string, where: Option<Expr>): Outcome<seq<P.Stored>>
    requires name in DbOf(acc)
  {
    var rel := DbOf(acc)[name];
    var w :- PrepareWhere(run, acc, now, TableScope(name, rel.cols), where);
    CollectCandidates(now, name, rel, w)
  }

  predicate Fitting(cols: seq<Column>, cands: seq<P.Stored>) {
    forall i :: 0 <= i < |cands| ==> |cands[i].row| == |cols|
  }

  /** What an UPDATE is going to do: the columns to set, and the rows. */
  datatype UpdatePlan = UpdatePlan(sets: seq<SetCol>, cands: seq<P.Stored>)

  predicate PlanFits(cols: seq<Column>, p: UpdatePlan) {
    Fitting(cols, p.cands) && forall i :: 0 <= i < |p.sets| ==> p.sets[i].idx < |cols|
  }

  function PlanUpdate(
    run: Q.Runner, acc: Acc, now: int, name: string, assignments: seq<Assignment>, where: Option<Expr>)
    : (r: Outcome<UpdatePlan>)
    requires name in DbOf(acc)
    ensures r.Ok? ==> PlanFits(DbOf(acc)[name].cols, r.value)
    ensures r.Ok? ==> Affected(run, acc, now, name, where) == Ok(r.value.cands)
  {
    var cols := DbOf(acc)[name].cols;
    var sets :- SetCols(cols, assignments);
    var ok :- P.Require(ValidateSets(TableScope(name, cols), assignments));
    var cands :- Affected(run, acc, now, name, where);
    if Fitting(cols, cands) then Ok(UpdatePlan(sets, cands)) else Panic
  }

  ghost function ExecUpdate(
    run: Q.Runner, acc: Acc, now: int, name: string, assignments: seq<Assignment>, where: Option<Expr>): Effect {
    if name !in DbOf(acc) then Effect(acc, Err("42P01"))
    else
      var p := PlanUpdate(run, acc, now, name, assignments, where);
      if p.Ok? then UpdateAll(acc, now, name, DbOf(acc)[name].cols, p.value.sets, p.value.cands, 0)
      else Effect(acc, p.PropagateFailure())
  }

  ghost function Exec(run: Q.Runner, acc: Acc, now: int, s: Statement): Effect {
    match s
    case InsertRows(name, names, rows) =>
      if name !in DbOf(acc) then Effect(acc, Err("42P01"))
      else
        var cols := DbOf(acc)[name].cols;
        var targets := TargetsOf(cols, names);
        if targets.Ok? then InsertAll(acc, name, cols, targets.value, rows, now, 0)
        else Effect(acc, targets.PropagateFailure())
    case UpdateRows(name, sets, where) => ExecUpdate(run, acc, now, name, sets, where)
    case DeleteRows(name, where) =>
      if name !in DbOf(acc) then Effect(acc, Err("42P01"))
      else
        var cands := Affected(run, acc, now, name, where);
        if cands.Ok? then DeleteAll(acc, name, cands.value, 0) else Effect(acc, cands.PropagateFailure())
  }

  // --- the invariant ------------------------------------------------------------------------------------------------

  ghost predicate TypedAll(acc: Acc) {
    forall name, id :: ColsAt(acc, name).Some? && id in RowsAt(acc, name) ==>
      TypedRow(ColsAt(acc, name).value, RowsAt(acc, name)[id])
  }

  ghost predicate UniqueAll(acc: Acc) {
    forall name :: ColsAt(acc, name).Some? ==> UniqueRows(ColsAt(acc, name).value, RowsAt(acc, name))
  }

  ghost predicate NoAutoReferences(acc: Acc) {
    forall name :: ColsAt(acc, name).Some? ==> NoAutoReference(ColsAt(acc, name).value)
  }

  /** What every statement keeps: exact indexes, cells of their column's kind, unique columns,
      and foreign keys that name existing rows. */
  ghost predicate Inv(acc: Acc) {
    Sound(acc) && CatalogOk(acc) && NoAutoReferences(acc) && TypedAll(acc) && UniqueAll(acc) && FkOk(acc)
  }

  /** A call whose row has passed the statement's own checks. */
  ghost predicate Checked(acc: Acc, c: TM.Call) {
    var def := ColsAt(acc, c.name);
    if c.Remove? then !Referenced(acc, c.name, c.rowID)
    else def.Some? ==>
      && TypedRow(def.value, c.row) && FkRowOk(acc, def.value, c.row)
      && (c.Insert? && c.pkIdx >= 0 ==>
           c.pkIdx < |def.value| && def.value[c.pkIdx].primary && def.value[c.pkIdx].autoInc)
  }

  /** The row a successful insert or update stores, and its id. */
  function StoredBy(acc: Acc, c: TM.Call): P.Stored
    requires !c.Remove? && ColsAt(acc, c.name).Some?
  {
    if c.Insert? then var id := NewId(acc, c.name, c.rowID); P.Stored(id, Stamp(c.row, c.pkIdx, id))
    else P.Stored(c.rowID, c.row)
  }

  lemma PerformStores(acc: Acc, c: TM.Call)
    requires Separate(acc) && Perform(acc, c).ok && !c.Remove?
    ensures ColsAt(acc, c.name).Some? && c.name in acc.e.ids
    ensures
      var st := StoredBy(acc, c);
      RowsAt(Perform(acc, c).acc, c.name) == RowsAt(acc, c.name)[st.id := st.row]
  {
    match c
    case Insert(name, rowID, pkIdx, row) => PerformInsert(acc, name, rowID, pkIdx, row);
    case Update(name, rowID, row) => PerformUpdate(acc, name, rowID, row);
  }

  lemma PerformFrames(acc: Acc, c: TM.Call)
    requires Separate(acc)
    ensures
      var after := Perform(acc, c).acc;
      && after.e.ids == acc.e.ids && (forall n :: ColsAt(after, n) == ColsAt(acc, n))
      && (forall n :: n != c.name || !Perform(acc, c).ok ==> RowsAt(after, n) == RowsAt(acc, n))
  {
    forall n ensures
      var after := Perform(acc, c).acc;
      && after.e.ids == acc.e.ids && ColsAt(after, n) == ColsAt(acc, n)
      && (n != c.name || !Perform(acc, c).ok ==> RowsAt(after, n) == RowsAt(acc, n))
    {
      PerformFrame(acc, c, n);
    }
  }

  lemma StampedRow(acc: Acc, c: TM.Call)
    requires Checked(acc, c) && !c.Remove? && ColsAt(acc, c.name).Some?
    requires CatalogOk(acc) && NoAutoReferences(acc)
    ensures
      var cols, row := ColsAt(acc, c.name).value, StoredBy(acc, c).row;
      TypedRow(cols, row) && FkRowOk(acc, cols, row)
  {
    assert DefOk(c.name, ColsAt(acc, c.name).value);
  }

  lemma CallKeepsTyped(acc: Acc, c: TM.Call)
    requires Inv(acc) && Checked(acc, c)
    ensures TypedAll(Perform(acc, c).acc)
  {
    var after := Perform(acc, c).acc;
    PerformFrames(acc, c);
    if Perform(acc, c).ok {
      if c.Remove? {
        PerformRemove(acc, c.name, c.rowID);
      } else {
        PerformStores(acc, c);
        StampedRow(acc, c);
      }
    }
    forall n, id | ColsAt(after, n).Some? && id in RowsAt(after, n)
      ensures TypedRow(ColsAt(after, n).value, RowsAt(after, n)[id])
    {
      assert id in RowsAt(acc, n) ==> TypedRow(ColsAt(acc, n).value, RowsAt(acc, n)[id]);
    }
  }

  lemma CallKeepsFk(acc: Acc, c: TM.Call)
    requires Inv(acc) && Checked(acc, c)
    ensures FkOk(Perform(acc, c).acc)
  {
    var after := Perform(acc, c).acc;
    PerformFrames(acc, c);
    if !Perform(acc, c).ok {
      SameViewKeepsFk(acc, after);
    } else if c.Remove? {
      PerformRemove(acc, c.name, c.rowID);
      DropKeepsFk(acc, after, c.name, c.rowID);
    } else {
      PerformStores(acc, c);
      StampedRow(acc, c);
      var st := StoredBy(acc, c);
      StoreKeepsFkIff(acc, after, c.name, st.id, st.row);
    }
  }

  lemma SameViewKeepsFk(acc: Acc, after: Acc)
    requires FkOk(acc) && after.e.ids == acc.e.ids
    requires forall n :: ColsAt(after, n) == ColsAt(acc, n) && RowsAt(after, n) == RowsAt(acc, n)
    ensures FkOk(after)
  {
    forall n, id | n in after.e.ids && ColsAt(after, n).Some? && id in RowsAt(after, n)
      ensures FkRowOk(after, ColsAt(after, n).value, RowsAt(after, n)[id])
    {
      assert FkRowOk(acc, ColsAt(acc, n).value, RowsAt(acc, n)[id]);
    }
  }

  /** Every checked call, accepted or refused, keeps the invariant. */
  lemma CallKeepsInv(acc: Acc, c: TM.Call)
    requires Inv(acc) && Checked(acc, c)
    ensures Inv(Perform(acc, c).acc)
  {
    var after := Perform(acc, c).acc;
    PerformKeepsSound(acc, c);
    CallKeepsCatalog(acc, c);
    PerformFrames(acc, c);
    CallKeepsTyped(acc, c);
    CallKeepsFk(acc, c);
    forall n | ColsAt(after, n).Some? ensures UniqueRows(ColsAt(after, n).value, RowsAt(after, n)) {
      PerformKeepsUnique(acc, c, n);
    }
    forall n | ColsAt(after, n).Some? ensures NoAutoReference(ColsAt(after, n).value) { }
  }

  // --- statements keep it ----------------------------------------------------------------------------

  lemma CoerceStoresKind(ct: ColumnType, v: Value)
    ensures Coerce(ct, v).Some? ==> HasKind(ct, Coerce(ct, v).value)
  {
    CheckStoresKind(ct, v);
    if v.VText? && ct.TTimestamp? && ParseTime(v.s).Some? { CheckStoresKind(ct, VTime(ParseTime(v.s).value)); }
  }

  lemma {:induction false} FillTyped(cols: seq<Column>, targets: seq<nat>, exprs: seq<Expr>, now: int, row: Row)
    requires |targets| == |exprs| && (forall i :: 0 <= i < |targets| ==> targets[i] < |cols|) && TypedRow(cols, row)
    ensures FillRow(cols, targets, exprs, now, row).Ok? ==>
            TypedRow(cols, FillRow(cols, targets, exprs, now, row).value)
    decreases |targets|
  {
    if targets != [] {
      var v := InsertValue(exprs[0], now);
      if v.Ok? {
        CoerceStoresKind(cols[targets[0]].typ, v.value);
        var w := CoerceFor(cols[targets[0]], v.value);
        if w.Ok? { FillTyped(cols, targets[1..], exprs[1..], now, row[targets[0] := w.value]); }
      }
    }
  }

  lemma PreparedIsChecked(acc: Acc, name: string, cols: seq<Column>, targets: seq<nat>, exprs: seq<Expr>, now: int)
    requires ColsAt(acc, name) == Some(cols) && forall i :: 0 <= i < |targets| ==> targets[i] < |cols|
    requires PrepareRow(cols, targets, exprs, now).Ok?
    requires FkRowOk(acc, cols, PrepareRow(cols, targets, exprs, now).value.row)
    ensures Checked(acc, InsertCall(name, PrepareRow(cols, targets, exprs, now).value))
  {
    FillTyped(cols, targets, exprs, now, seq(|cols|, i => VNull));
  }

  lemma InsertOneKeepsInv(acc: Acc, name: string, cols: seq<Column>, targets: seq<nat>, exprs: seq<Expr>, now: int)
    requires Inv(acc) && ColsAt(acc, name) == Some(cols) && forall i :: 0 <= i < |targets| ==> targets[i] < |cols|
    ensures
      var r := InsertOne(acc, name, cols, targets, exprs, now);
      Inv(r.acc) && ColsAt(r.acc, name) == Some(cols)
  {
    var p := PrepareRow(cols, targets, exprs, now);
    if p.Ok? && FkRowOk(acc, cols, p.value.row) {
      PreparedIsChecked(acc, name, cols, targets, exprs, now);
      CallKeepsInv(acc, InsertCall(name, p.value));
      PerformFrame(acc, InsertCall(name, p.value), name);
    }
  }

  lemma {:induction false} InsertAllKeepsInv(
    acc: Acc, name: string, cols: seq<Column>, targets: seq<nat>, rows: seq<seq<Expr>>, now: int, n: nat)
    requires Inv(acc) && ColsAt(acc, name) == Some(cols) && forall i :: 0 <= i < |targets| ==> targets[i] < |cols|
    ensures Inv(InsertAll(acc, name, cols, targets, rows, now, n).acc)
    decreases |rows|
  {
    if rows != [] {
      InsertOneKeepsInv(acc, name, cols, targets, rows[0], now);
      var r := InsertOne(acc, name, cols, targets, rows[0], now);
      if r.res.Ok? { InsertAllKeepsInv(r.acc, name, cols, targets, rows[1..], now, n + 1); }
    }
  }

  lemma {:induction false} AssignedTyped(c: Ctx, cols: seq<Column>, sets: seq<SetCol>, row: Row, out: Row)
    requires TypedRow(cols, out) && forall i :: 0 <= i < |sets| ==> sets[i].idx < |cols|
    ensures Assigned(c, cols, sets, row, out).Ok? ==> TypedRow(cols, Assigned(c, cols, sets, row, out).value)
    decreases |sets|
  {
    if sets != [] {
      var v := EvalValue(c, sets[0].expr, row);
      if v.Ok? {
        CoerceStoresKind(cols[sets[0].idx].typ, v.value);
        var w := CoerceFor(cols[sets[0].idx], v.value);
        if w.Ok? { AssignedTyped(c, cols, sets[1..], row, out[sets[0].idx := w.value]); }
      }
    }
  }

  /** A move keeps the invariant at its midpoint, with the row gone, and at its end, whether the put
      succeeds or not. */
  lemma MoveKeepsInv(acc: Acc, name: string, cols: seq<Column>, id: int64, key: int64, out: Row)
    requires Inv(acc) && ColsAt(acc, name) == Some(cols) && TypedRow(cols, out) && FkRowOk(acc, cols, out)
    ensures !Referenced(acc, name, id) ==> Inv(Perform(acc, TM.Remove(name, id)).acc)
    ensures Inv(MoveRow(acc, name, id, key, out).acc)
    ensures ColsAt(MoveRow(acc, name, id, key, out).acc, name) == Some(cols)
  {
    if !Referenced(acc, name, id) {
      var remove, put := TM.Remove(name, id), TM.Insert(name, key, -1, out);
      CallKeepsInv(acc, remove);
      PerformFrames(acc, remove);
      var mid := Perform(acc, remove).acc;
      if Perform(acc, remove).ok {
        assert FkRowOk(mid, cols, out) by { assert DefOk(name, cols); }
        CallKeepsInv(mid, put);
        PerformFrame(mid, put, name);
      }
    }
  }

  lemma UpdateOneKeepsInv(acc: Acc, now: int, name: string, cols: seq<Column>, sets: seq<SetCol>, cand: P.Stored)
    requires Inv(acc) && ColsAt(acc, name) == Some(cols) && TypedRow(cols, cand.row)
    requires forall i :: 0 <= i < |sets| ==> sets[i].idx < |cols|
    ensures
      var r := UpdateOne(acc, now, name, cols, sets, cand);
      Inv(r.acc) && ColsAt(r.acc, name) == Some(cols)
  {
    var c := Ctx(TableScope(name, cols), now, None);
    var out := Assigned(c, cols, sets, cand.row, cand.row);
    AssignedTyped(c, cols, sets, cand.row, cand.row);
    if out.Ok? && FkRowOk(acc, cols, out.value) {
      if Moves(cols, cand.row, out.value) {
        MoveKeepsInv(acc, name, cols, cand.id, out.value[PkIndex(cols, 0).value].i, out.value);
      } else {
        CallKeepsInv(acc, TM.Update(name, cand.id, out.value));
        PerformFrame(acc, TM.Update(name, cand.id, out.value), name);
      }
    }
  }

  predicate AllTyped(cols: seq<Column>, cands: seq<P.Stored>) {
    forall i :: 0 <= i < |cands| ==> TypedRow(cols, cands[i].row) && |cands[i].row| == |cols|
  }

  lemma {:induction false} UpdateAllKeepsInv(
    acc: Acc, now: int, name: string, cols: seq<Column>, sets: seq<SetCol>, cands: seq<P.Stored>, n: nat)
    requires Inv(acc) && ColsAt(acc, name) == Some(cols) && AllTyped(cols, cands)
    requires forall i :: 0 <= i < |sets| ==> sets[i].idx < |cols|
    ensures Inv(UpdateAll(acc, now, name, cols, sets, cands, n).acc)
    decreases |cands|
  {
    if cands != [] {
      assert TypedRow(cols, cands[0].row) && AllTyped(cols, cands[1..]);
      UpdateOneKeepsInv(acc, now, name, cols, sets, cands[0]);
      var r := UpdateOne(acc, now, name, cols, sets, cands[0]);
      if r.res.Ok? { UpdateAllKeepsInv(r.acc, now, name, cols, sets, cands[1..], n + 1); }
    }
  }

  lemma {:induction false} DeleteAllKeepsInv(acc: Acc, name: string, cands: seq<P.Stored>, n: nat)
    requires Inv(acc)
    ensures Inv(DeleteAll(acc, name, cands, n).acc)
    decreases |cands|
  {
    if cands != [] && !Referenced(acc, name, cands[0].id) {
      CallKeepsInv(acc, TM.Remove(name, cands[0].id));
      var r := DeleteOne(acc, name, cands[0].id);
      if r.res.Ok? { DeleteAllKeepsInv(r.acc, name, cands[1..], n + 1); }
    }
  }

  // --- candidates ------------------------------------------------------------------------------------

  lemma {:induction false} ScanWithin(c: Ctx, where: Option<Expr>, stored: seq<P.Stored>)
    ensures Scan(c, where, stored).Ok? ==> forall x :: x in Scan(c, where, stored).value ==> x in stored
    decreases |stored|
  {
    if stored != [] { ScanWithin(c, where, stored[1..]); }
  }

  lemma CandidatesWithin(now: int, name: string, rel: P.Relation, where: Option<Expr>)
    ensures
      var o := CollectCandidates(now, name, rel, where);
      o.Ok? ==> forall x :: x in o.value ==> x in rel.stored
  {
    ScanWithin(Ctx(TableScope(name, rel.cols), now, None), where, rel.stored);
    var probe := P.UniqueEquality(where, name, rel.cols);
    if probe.Some? && P.Lookup(rel.stored, probe.value.ci, probe.value.v).Some? {
      FoundRow(rel.stored, probe.value.ci, probe.value.v);
    }
  }

  /** Under the invariant the accessor is a well-typed database in which the shortcut is at home. */
  lemma RelationIsShaped(acc: Acc, name: string)
    requires Inv(acc) && name in DbOf(acc)
    ensures Shaped(DbOf(acc)[name])
  {
    var cols, rows := ColsAt(acc, name).value, RowsAt(acc, name);
    var stored := Listing(rows);
    ListingLists(rows);
    assert DefOk(name, cols);
    forall ci: nat | ci < |cols| && cols[ci].unique ensures UniqueAt(stored, ci) {
      assert ci in UniqueCols(cols);
      forall i, j | 0 <= i < j < |stored| && ci < |stored[i].row| && ci < |stored[j].row| && !stored[i].row[ci].VNull?
        ensures stored[i].row[ci] != stored[j].row[ci]
      {
        assert UniqueOk(cols, rows, stored[i].id, rows[stored[i].id]);
        assert FreeIn(rows, stored[i].id, rows[stored[i].id], ci);
      }
    }
    forall i | 0 <= i < |stored| ensures TypedRow(cols, stored[i].row) {
      assert TypedRow(cols, rows[stored[i].id]);
    }
  }

  lemma AffectedTyped(run: Q.Runner, acc: Acc, now: int, name: string, where: Option<Expr>)
    requires Inv(acc) && name in DbOf(acc) && Affected(run, acc, now, name, where).Ok?
    ensures
      var cands := Affected(run, acc, now, name, where).value;
      AllTyped(DbOf(acc)[name].cols, cands)
  {
    RelationIsShaped(acc, name);
    var rel, cands := DbOf(acc)[name], Affected(run, acc, now, name, where).value;
    CandidatesWithin(now, name, rel, PrepareWhere(run, acc, now, TableScope(name, rel.cols), where).value);
    forall i | 0 <= i < |cands| ensures TypedRow(rel.cols, cands[i].row) { assert cands[i] in rel.stored; }
  }

  // --- runs ------------------------------------------------------------------------------------------

  lemma PlanUpdateTyped(run: Q.Runner, acc: Acc, now: int, name: string, sets: seq<Assignment>, where: Option<Expr>)
    requires Inv(acc) && name in DbOf(acc) && PlanUpdate(run, acc, now, name, sets, where).Ok?
    ensures AllTyped(DbOf(acc)[name].cols, PlanUpdate(run, acc, now, name, sets, where).value.cands)
  {
    AffectedTyped(run, acc, now, name, where);
  }

  lemma ExecUpdateKeepsInv(run: Q.Runner, acc: Acc, now: int, name: string, sets: seq<Assignment>, where: Option<Expr>)
    requires Inv(acc)
    ensures Inv(ExecUpdate(run, acc, now, name, sets, where).acc)
  {
    if name in DbOf(acc) {
      var p := PlanUpdate(run, acc, now, name, sets, where);
      if p.Ok? {
        PlanUpdateTyped(run, acc, now, name, sets, where);
        UpdateAllKeepsInv(acc, now, name, DbOf(acc)[name].cols, p.value.sets, p.value.cands, 0);
      }
    }
  }

  /** One statement, successful or not. */
  lemma ExecKeepsInv(run: Q.Runner, acc: Acc, now: int, s: Statement)
    requires Inv(acc)
    ensures Inv(Exec(run, acc, now, s).acc)
  {
    match s
    case InsertRows(name, names, rows) =>
      if name in DbOf(acc) {
        var cols := DbOf(acc)[name].cols;
        var targets := TargetsOf(cols, names);
        if targets.Ok? { InsertAllKeepsInv(acc, name, cols, targets.value, rows, now, 0); }
      }
    case UpdateRows(name, sets, where) => ExecUpdateKeepsInv(run, acc, now, name, sets, where);
    case DeleteRows(name, where) =>
      if name in DbOf(acc) {
        var cands := Affected(run, acc, now, name, where);
        if cands.Ok? { DeleteAllKeepsInv(acc, name, cands.value, 0); }
      }
  }

  datatype Timed = Timed(s: Statement, now: int)

  ghost function Run(run: Q.Runner, acc: Acc, stmts: seq<Timed>): Acc
    decreases |stmts|
  {
    if stmts == [] then acc else Run(run, Exec(run, acc, stmts[0].now, stmts[0].s).acc, stmts[1..])
  }

  /** After every sequence of INSERT, UPDATE and DELETE, with or without an open transaction and
      whatever failed on the way: every non-NULL foreign-key cell names an existing parent row, every
      cell has its column's kind, and UNIQUE columns hold no duplicates. */
  lemma {:induction false} RunKeepsInv(run: Q.Runner, acc: Acc, stmts: seq<Timed>)
    requires Inv(acc)
    ensures Inv(Run(run, acc, stmts))
    decreases |stmts|
  {
    if stmts != [] {
      ExecKeepsInv(run, acc, stmts[0].now, stmts[0].s);
      RunKeepsInv(run, Exec(run, acc, stmts[0].now, stmts[0].s).acc, stmts[1..]);
    }
  }

  // --- keys that number themselves -------------------------------------------------------------------

  /** The key the engine is about to write into the row refers to nothing. */
  predicate Dangles(acc: Acc, cols: seq<Column>, keying: Keying, id: int64) {
    && keying.ByEngine? && 0 <= keying.pkIdx < |cols| && cols[keying.pkIdx].fkTable != ""
    && id !in RowsAt(acc, cols[keying.pkIdx].fkTable)
  }

  lemma StampedFkIff(acc: Acc, cols: seq<Column>, row: Row, pkIdx: int, id: int64)
    requires |row| == |cols| && FkRowOk(acc, cols, row)
    ensures FkRowOk(acc, cols, Stamp(row, pkIdx, id)) <==> !Dangles(acc, cols, ByEngine(pkIdx), id)
  {
    var stamped := Stamp(row, pkIdx, id);
    if 0 <= pkIdx < |cols| {
      assert stamped[pkIdx] == VInt(id) && forall i :: 0 <= i < |row| && i != pkIdx ==> stamped[i] == row[i];
    }
  }

  /** An accepted INSERT whose row passed the foreign-key check keeps all foreign keys if and only if
      it did not number a column that refers to a table without that number. */
  lemma InsertKeepsFkIff(acc: Acc, name: string, cols: seq<Column>, p: Prepared)
    requires Separate(acc) && CatalogOk(acc) && FkOk(acc) && ColsAt(acc, name) == Some(cols)
    requires |p.row| == |cols| && FkRowOk(acc, cols, p.row) && KeyRow(cols, p.row) == Ok(p.keying)
    requires Perform(acc, InsertCall(name, p)).ok
    ensures FkOk(InsertPrepared(acc, name, cols, p).acc) <==> !Dangles(acc, cols, p.keying, NewId(acc, name, 0))
  {
    var c := InsertCall(name, p);
    PerformFrames(acc, c);
    PerformStores(acc, c);
    var st := StoredBy(acc, c);
    StoreKeepsFkIff(acc, Perform(acc, c).acc, name, st.id, st.row);
    StampedFkIff(acc, cols, p.row, c.pkIdx, st.id);
  }

  const KEY := Column("id", TInt, false, true, true, false, "", "")

  /** Table p with a key of its own, table c whose self-numbering key refers to p, both empty. */
  const LINKED: Acc :=
    Direct(EM.EngineState(map["p" := 1, "c" := 2],
      map[1 := EmptyTable([KEY]), 2 := EmptyTable([KEY.(fkTable := "p")])], 3))

  const LINKED_COLS := [KEY.(fkTable := "p")]

  lemma LinkedIsFine()
    ensures Separate(LINKED) && CatalogOk(LINKED) && FkOk(LINKED)
    ensures ColsAt(LINKED, "c") == Some(LINKED_COLS) && "c" in DbOf(LINKED)
    ensures RowsAt(LINKED, "p") == map[]
  {
    assert ColsAt(LINKED, "p") == Some([KEY]);
    assert FkOk(LINKED) by { forall n ensures RowsAt(LINKED, n) == map[] { } }
  }

  lemma LinkedInsert()
    ensures !FkOk(InsertPrepared(LINKED, "c", LINKED_COLS, Prepared([VNull], ByEngine(0))).acc)
    ensures InsertPrepared(LINKED, "c", LINKED_COLS, Prepared([VNull], ByEngine(0))).res == Ok(1)
  {
    LinkedIsFine();
    InsertKeepsFkIff(LINKED, "c", LINKED_COLS, Prepared([VNull], ByEngine(0)));
  }

  lemma LinkedPrepare(now: int)
    ensures TargetsOf(LINKED_COLS, []) == Ok([0])
    ensures PrepareRow(LINKED_COLS, [0], [Lit(VNull)], now) == Ok(Prepared([VNull], ByEngine(0)))
  {
    assert seq(1, i => i) == [0];
    assert seq(1, i => VNull) == [VNull] && [0][1..] == [] && [VNull][0 := VNull] == [VNull];
  }

  lemma LinkedInsertAll(now: int)
    ensures InsertAll(LINKED, "c", LINKED_COLS, [0], [[Lit(VNull)]], now, 0).acc ==
            InsertPrepared(LINKED, "c", LINKED_COLS, Prepared([VNull], ByEngine(0))).acc
  {
    LinkedPrepare(now);
    LinkedInsert();
    assert [[Lit(VNull)]][1..] == [];
  }

  /** INSERT INTO c VALUES (NULL) leaves a key in c that no row of p has. */
  lemma AutoReferenceWitness(run: Q.Runner, now: int)
    ensures Separate(LINKED) && CatalogOk(LINKED) && FkOk(LINKED)
    ensures !FkOk(Exec(run, LINKED, now, InsertRows("c", [], [[Lit(VNull)]])).acc)
  {
    LinkedIsFine();
    LinkedInsert();
    LinkedPrepare(now);
    LinkedInsertAll(now);
  }

  // --- queries after a run ---------------------------------------------------------------------------

  lemma InvIsDbOk(acc: Acc)
    requires Inv(acc)
    ensures S.DbOk(DbOf(acc))
  {
    forall t, i | t in DbOf(acc) && 0 <= i < |DbOf(acc)[t].stored|
      ensures |DbOf(acc)[t].stored[i].row| == |DbOf(acc)[t].cols|
    {
      RelationIsShaped(acc, t);
      assert TypedRow(DbOf(acc)[t].cols, DbOf(acc)[t].stored[i].row);
    }
  }

  /** After every run a query finds rows as wide as its tables: no SELECT panics, shadowed derived
      tables aside. */
  lemma SelectAfterRun(run: Q.Runner, acc: Acc, stmts: seq<Timed>, now: int, s: Select)
    requires Inv(acc) && S.ShapedSelect(s) && S.ClearSelect(P.RunPlan, DbOf(Run(run, acc, stmts)), now, s)
    ensures S.ResultOk(Q.Execute(DbOf(Run(run, acc, stmts)), now, s))
  {
    RunKeepsInv(run, acc, stmts);
    InvIsDbOk(Run(run, acc, stmts));
    S.SelectNeverPanics(DbOf(Run(run, acc, stmts)), now, s);
  }

  /** After every run the shortcut finds what the scan finds, unless a stored cell collides with the
      literal. */
  lemma ShortcutAfterRun(run: Q.Runner, acc: Acc, stmts: seq<Timed>, now: int, name: string, where: Expr)
    requires Inv(acc) && name in DbOf(Run(run, acc, stmts))
    requires P.UniqueEquality(Some(where), name, DbOf(Run(run, acc, stmts))[name].cols).Some?
    ensures
      var rel := DbOf(Run(run, acc, stmts))[name];
      CollectCandidates(now, name, rel, Some(where)) ==
        Scan(Ctx(TableScope(name, rel.cols), now, None), Some(where), rel.stored)
      <==> !Collision(rel.stored, P.UniqueEquality(Some(where), name, rel.cols).value)
  {
    RunKeepsInv(run, acc, stmts);
    RelationIsShaped(Run(run, acc, stmts), name);
    ShortcutIsScanIff(now, name, DbOf(Run(run, acc, stmts))[name], where);
  }

  /** The same for SELECT, against the general join path. */
  lemma SelectShortcutAfterRun(run: Q.Runner, acc: Acc, stmts: seq<Timed>, now: int, s: Select, src: P.Source)
    requires Inv(acc) && Probes(DbOf(Run(run, acc, stmts)), s, src)
    ensures
      var db := DbOf(Run(run, acc, stmts));
      P.Candidates(db, now, s, [src]) == P.Collect(db, now, s, [src])
      <==> !Collision(db[src.name].stored, P.UniqueEquality(s.where, src.alias, src.cols).value)
  {
    RunKeepsInv(run, acc, stmts);
    RelationIsShaped(Run(run, acc, stmts), src.name);
    SelectShortcutIff(DbOf(Run(run, acc, stmts)), now, s, src);
  }
}
