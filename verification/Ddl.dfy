/** CREATE TABLE and DROP TABLE: what definitions are let in, and what they do to foreign keys. */
module Ddl {
  import opened Values
  import opened Schema
  import opened Eval
  import opened Tables
  import opened EngineModel
  import TM = TxnModel
  import opened Accessor
  import opened Shortcut
  import opened Dml
  import L = Lexer

  /** One column of a CREATE TABLE statement; refTable is empty without a REFERENCES clause. */
  datatype ColumnSpec = ColumnSpec(
    name: string, typ: ColumnType, notNull: bool, primary: bool, autoInc: bool, unique: bool,
    refTable: string, refCol: string)

  /** `validateFK`: the parent exists, is another table, and the column is its primary key and has the
      same type. */
  function ResolveRef(e: EngineState, table: string, spec: ColumnSpec): Outcome<string> {
    if spec.refTable == table then Err("42P01")
    else match TM.TableNamed(e, spec.refTable)
      case None => Err("42P01")
      case Some(parent) =>
        var pk := PkIndex(parent.cols, 0);
        if spec.refCol == "" && pk.None? then Err("23552")
        else
          var target := if spec.refCol == "" then parent.cols[pk.value].name else spec.refCol;
          match ColumnNamed(parent.cols, target, 0)
          case None => Err("23552")
          case Some(i) =>
            if !parent.cols[i].primary then Err("0A000")
            else if parent.cols[i].typ != spec.typ then Err("42804")
            else Ok(target)
  }

  function ResolveColumn(e: EngineState, table: string, spec: ColumnSpec): Outcome<Column> {
    var col := Column(spec.name, spec.typ, spec.notNull, spec.primary, spec.autoInc, spec.unique, "", "");
    if spec.refTable == "" then Ok(col)
    else
      var target :- ResolveRef(e, table, spec);
      Ok(col.(fkTable := spec.refTable, fkCol := target))
  }

  function ResolveColumns(e: EngineState, table: string, specs: seq<ColumnSpec>): (r: Outcome<seq<Column>>)
    ensures r.Ok? ==> |r.value| == |specs|
    ensures r.Ok? ==> forall i :: 0 <= i < |specs| ==> ResolveColumn(e, table, specs[i]) == Ok(r.value[i])
    decreases |specs|
  {
    if specs == [] then Ok([])
    else
      var first :- ResolveColumn(e, table, specs[0]);
      var rest :- ResolveColumns(e, table, specs[1..]);
      Ok([first] + rest)
  }

  predicate Ident(s: string) {
    s != "" && L.IsIdentStart(s[0]) && forall i :: 0 <= i < |s| ==> L.IsIdentChar(s[i])
  }

  function Keys(cols: seq<Column>): nat {
    if cols == [] then 0 else (if cols[0].primary then 1 else 0) + Keys(cols[1..])
  }

  /** `TableDef.Validate`. */
  predicate Definable(name: string, cols: seq<Column>) {
    && Ident(name) && cols != [] && (forall i :: 0 <= i < |cols| ==> Ident(cols[i].name))
    && DistinctNames(cols) && Keys(cols) <= 1
  }

  /** Primary keys become integers whatever they were declared as. */
  function Normalised(cols: seq<Column>): (r: seq<Column>)
    ensures |r| == |cols|
  {
    seq(|cols|, i requires 0 <= i < |cols| =>
      if cols[i].primary && !cols[i].typ.TInt? && !cols[i].typ.TBigint? then cols[i].(typ := TInt) else cols[i])
  }

  /** `execCreate`: the definition that is stored, or the error. */
  function Define(e: EngineState, name: string, specs: seq<ColumnSpec>): Outcome<seq<Column>> {
    var cols :- ResolveColumns(e, name, specs);
    if !Definable(name, cols) then Err("42601")
    else if name in e.ids then Err("42P07")
    else Ok(Normalised(cols))
  }

  /** The column names a row of an existing other table, by the key of that table. */
  predicate RefersToKey(e: EngineState, table: string, col: Column) {
    col.fkTable != "" ==>
      && col.fkTable != table && TM.TableNamed(e, col.fkTable).Some?
      && exists i :: 0 <= i < |TM.TableNamed(e, col.fkTable).value.cols| &&
           var key := TM.TableNamed(e, col.fkTable).value.cols[i]; key.name == col.fkCol && key.primary
  }

  /** What CREATE TABLE lets in: a new name, distinct columns, an integer key, and references to keys of
      existing other tables. */
  lemma DefinedIsOk(e: EngineState, name: string, specs: seq<ColumnSpec>)
    requires Define(e, name, specs).Ok?
    ensures
      var cols := Define(e, name, specs).value;
      && name != "" && name !in e.ids && DefOk(name, cols) && |cols| == |specs|
      && forall i :: 0 <= i < |cols| ==> RefersToKey(e, name, cols[i])
  {
    var cols := ResolveColumns(e, name, specs).value;
    forall i | 0 <= i < |cols| ensures RefersToKey(e, name, cols[i]) {
      assert ResolveColumn(e, name, specs[i]) == Ok(cols[i]);
    }
    forall i | 0 <= i < |cols| ensures RefersToKey(e, name, Normalised(cols)[i]) {
      assert RefersToKey(e, name, cols[i]);
    }
  }

  // --- DROP TABLE -------------------------------------------------------------------------------------------

  /** Some row of another table refers to this one. */
  ghost predicate InUse(acc: Acc, name: string) {
    exists child, ci, id :: UsesAt(acc, child, ci, id, name)
  }

  predicate UsesAt(acc: Acc, child: string, ci: nat, id: int64, name: string) {
    && child in acc.e.ids && child != name && ColsAt(acc, child).Some? && ci < |ColsAt(acc, child).value|
    && ColsAt(acc, child).value[ci].fkTable == name
    && id in RowsAt(acc, child) && ci < |RowsAt(acc, child)[id]| && !RowsAt(acc, child)[id][ci].VNull?
  }

  lemma DropShows(e: EngineState, name: string, n: string)
    requires TM.Named(e) && name in e.ids
    ensures
      var a, b := Direct(e), Direct(RemoveTable(e, name));
      && RowsAt(b, n) == (if n == name then map[] else RowsAt(a, n))
      && ColsAt(b, n) == (if n == name then None else ColsAt(a, n))
  {
  }

  /** DROP TABLE does not look at foreign keys. It keeps them if and only if no row of another table
      refers to the dropped one. */
  lemma DropKeepsFkIff(e: EngineState, name: string)
    requires TM.Named(e) && name in e.ids && name != "" && FkOk(Direct(e))
    ensures FkOk(Direct(RemoveTable(e, name))) <==> !InUse(Direct(e), name)
  {
    var a, b := Direct(e), Direct(RemoveTable(e, name));
    forall n { DropShows(e, name, n); }
    if InUse(a, name) {
      var child, ci, id :| UsesAt(a, child, ci, id, name);
      assert id in RowsAt(b, child) && !FkRowOk(b, ColsAt(b, child).value, RowsAt(b, child)[id]);
    } else {
      forall n, id | n in b.e.ids && ColsAt(b, n).Some? && id in RowsAt(b, n)
        ensures FkRowOk(b, ColsAt(b, n).value, RowsAt(b, n)[id])
      {
        UnusedKeepsRow(e, name, n, id);
      }
    }
  }

  lemma UnusedKeepsRow(e: EngineState, name: string, n: string, id: int64)
    requires TM.Named(e) && name in e.ids && n in e.ids && n != name && !InUse(Direct(e), name)
    requires ColsAt(Direct(e), n).Some? && id in RowsAt(Direct(e), n)
    requires FkRowOk(Direct(e), ColsAt(Direct(e), n).value, RowsAt(Direct(e), n)[id])
    ensures FkRowOk(Direct(RemoveTable(e, name)), ColsAt(Direct(e), n).value, RowsAt(Direct(e), n)[id])
  {
    var a, b := Direct(e), Direct(RemoveTable(e, name));
    var cols, row := ColsAt(a, n).value, RowsAt(a, n)[id];
    forall ci: nat | ci < |cols| && ci < |row| && cols[ci].fkTable != "" && !row[ci].VNull?
      ensures row[ci].VInt? && row[ci].i in RowsAt(b, cols[ci].fkTable)
    {
      assert cols[ci].fkTable == name ==> UsesAt(a, n, ci, id, name);
      DropShows(e, name, cols[ci].fkTable);
    }
  }

  const PARENT := [Column("id", TInt, false, true, false, false, "", "")]
  const CHILD := [Column("p", TInt, false, false, false, false, "p", "id")]

  /** Table p with row 1, table c with a row that refers to it. */
  const FAMILY := EngineState(
    map["p" := 1, "c" := 2],
    map[1 := TableState(PARENT, map[1 := [VInt(1)]], 2, map[]),
        2 := TableState(CHILD, map[1 := [VInt(1)]], 2, map[])],
    3)

  lemma FamilyIsFine()
    ensures TM.Named(FAMILY) && FkOk(Direct(FAMILY))
  {
    assert FAMILY.ids["p"] == 1 && FAMILY.ids["c"] == 2;
    var acc := Direct(FAMILY);
    assert RowsAt(acc, "p") == map[1 := [VInt(1)]] && RowsAt(acc, "c") == map[1 := [VInt(1)]];
  }

  /** DROP TABLE p leaves a row of c that refers to nothing. */
  lemma DropLeavesDanglingRow()
    ensures TM.Named(FAMILY) && FkOk(Direct(FAMILY)) && !FkOk(Direct(RemoveTable(FAMILY, "p")))
  {
    FamilyIsFine();
    assert UsesAt(Direct(FAMILY), "c", 0, 1, "p");
    DropKeepsFkIff(FAMILY, "p");
  }
}
