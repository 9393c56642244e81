/** Plan-time validation: after it, no evaluation fails on a column or runs off the end of a row. */
module Validate {
  import opened Values
  import opened Schema
  import opened Ast
  import opened Eval

  /** None when valid, otherwise the error. */
  type Verdict = Option<string>

  function Both(a: Verdict, b: Verdict): Verdict { if a.Some? then a else b }

  function ErrorOf<T>(o: Outcome<T>): Verdict { if o.Err? then Some(o.code) else None }

  /** `validateExpr`: no aggregates, every column resolves. */
  function ValidateExpr(sc: Scope, e: Expr): Verdict {
    match e
    case Lit(_) => None
    case Col(table, name) => ErrorOf(Resolve(sc, table, name))
    case Func(name, _, _) => if name == "now" then None else Some("42883")
    case Cmp(_, l, r) => Both(ValidateExpr(sc, l), ValidateExpr(sc, r))
    case IsNull(x, _) => ValidateExpr(sc, x)
    case And(l, r) => Both(ValidateExpr(sc, l), ValidateExpr(sc, r))
    case Or(l, r) => Both(ValidateExpr(sc, l), ValidateExpr(sc, r))
    case Not(x) => ValidateExpr(sc, x)
    case Binary(_, l, r) => Both(ValidateExpr(sc, l), ValidateExpr(sc, r))
    case InList(x, list, _) => Both(ValidateExpr(sc, x), if AllLits(list) then None else Some("42601"))
    case InSub(x, _, _) => ValidateExpr(sc, x)
  }

  /** `validateAggregate`: the position of the argument, -1 for count(*). */
  function ValidateAggregate(sc: Scope, name: string, star: bool, arg: Option<Expr>): Outcome<int> {
    var none: Outcome<int> := Ok(-1);
    if star then (if name == "count" then none else Err("42883"))
    else if arg.None? || !arg.value.Col? then Err("42883")
    else Resolve(sc, arg.value.table, arg.value.name)
  }

  /** `validateHaving`: aggregates allowed, plain columns only from the GROUP BY list. */
  function ValidateHaving(sc: Scope, e: Expr, groupPos: set<nat>): Verdict {
    match e
    case Lit(_) => None
    case Col(table, name) =>
      (match Resolve(sc, table, name)
       case Ok(p) => if p in groupPos then None else Some("42803")
       case Err(code) => Some(code)
       case Panic => None)
    case Func(name, star, arg) =>
      if name == "now" then None
      else if IsAggregate(name) then ErrorOf(ValidateAggregate(sc, name, star, arg))
      else Some("42883")
    case Cmp(_, l, r) => Both(ValidateHaving(sc, l, groupPos), ValidateHaving(sc, r, groupPos))
    case IsNull(x, _) => ValidateHaving(sc, x, groupPos)
    case And(l, r) => Both(ValidateHaving(sc, l, groupPos), ValidateHaving(sc, r, groupPos))
    case Or(l, r) => Both(ValidateHaving(sc, l, groupPos), ValidateHaving(sc, r, groupPos))
    case Not(x) => ValidateHaving(sc, x, groupPos)
    case Binary(_, l, r) => Both(ValidateHaving(sc, l, groupPos), ValidateHaving(sc, r, groupPos))
    case InList(x, list, _) => Both(ValidateHaving(sc, x, groupPos), if AllLits(list) then None else Some("42601"))
    case InSub(x, _, _) => ValidateHaving(sc, x, groupPos)
  }

  // --- what validation accepts --------------------------------------------------------------------------

  function Children(e: Expr): seq<Expr> {
    match e
    case Cmp(_, l, r) => [l, r]
    case IsNull(x, _) => [x]
    case And(l, r) => [l, r]
    case Or(l, r) => [l, r]
    case Not(x) => [x]
    case Binary(_, l, r) => [l, r]
    case InList(x, _, _) => [x]
    case InSub(x, _, _) => [x]
    case _ => []
  }

  /** x occurs in e, itself included. A subquery is not looked into: it has its own scope. */
  ghost predicate Occurs(x: Expr, e: Expr) {
    x == e || exists i :: 0 <= i < |Children(e)| && Occurs(x, Children(e)[i])
  }

  /** Nothing is wrong with this one node: a column resolves, the only function is NOW(), an IN list
      consists of literals. */
  predicate NodeOk(sc: Scope, x: Expr) {
    match x
    case Col(table, name) => Resolve(sc, table, name).Ok?
    case Func(name, _, _) => name == "now"
    case InList(_, list, _) => AllLits(list)
    case _ => true
  }

  /** In HAVING a column is one of the GROUP BY list, and aggregates of a column and count(*) may occur. */
  predicate HavingNodeOk(sc: Scope, x: Expr, groupPos: set<nat>) {
    match x
    case Col(table, name) => Resolve(sc, table, name).Ok? && Resolve(sc, table, name).value in groupPos
    case Func(name, star, arg) =>
      name == "now" ||
      (IsAggregate(name) &&
       if star then name == "count"
       else arg.Some? && arg.value.Col? && Resolve(sc, arg.value.table, arg.value.name).Ok?)
    case InList(_, list, _) => AllLits(list)
    case _ => true
  }

  lemma {:induction false} ResolveNeverPanics(sc: Scope, table: string, name: string)
    ensures !Resolve(sc, table, name).Panic? && !ResolveQualified(sc, table, name).Panic?
    decreases |sc|
  {
    if sc != [] { ResolveNeverPanics(sc[1..], table, name); }
  }

  /** All children have the property, written out. */
  lemma AllChildren(e: Expr, p: Expr -> bool)
    ensures (forall i :: 0 <= i < |Children(e)| ==> p(Children(e)[i])) <==>
            match e
            case Cmp(_, l, r) => p(l) && p(r)
            case IsNull(x, _) => p(x)
            case And(l, r) => p(l) && p(r)
            case Or(l, r) => p(l) && p(r)
            case Not(x) => p(x)
            case Binary(_, l, r) => p(l) && p(r)
            case InList(x, _, _) => p(x)
            case InSub(x, _, _) => p(x)
            case _ => true
  {
    var cs := Children(e);
    if |cs| == 2 {
      assert p(cs[0]) && p(cs[1]) <==> forall i :: 0 <= i < |cs| ==> p(cs[i]);
    } else if |cs| == 1 {
      assert p(cs[0]) <==> forall i :: 0 <= i < |cs| ==> p(cs[i]);
    }
  }

  lemma ValidStep(sc: Scope, e: Expr)
    ensures ValidateExpr(sc, e).None? <==>
            NodeOk(sc, e) && forall i :: 0 <= i < |Children(e)| ==> ValidateExpr(sc, Children(e)[i]).None?
  {
    AllChildren(e, x => ValidateExpr(sc, x).None?);
    if e.Col? { ResolveNeverPanics(sc, e.table, e.name); }
  }

  lemma HavingStep(sc: Scope, e: Expr, groupPos: set<nat>)
    ensures
      ValidateHaving(sc, e, groupPos).None? <==>
      && HavingNodeOk(sc, e, groupPos)
      && forall i :: 0 <= i < |Children(e)| ==> ValidateHaving(sc, Children(e)[i], groupPos).None?
  {
    AllChildren(e, x => ValidateHaving(sc, x, groupPos).None?);
    if e.Col? { ResolveNeverPanics(sc, e.table, e.name); }
    if e.Func? && e.arg.Some? && e.arg.value.Col? { ResolveNeverPanics(sc, e.arg.value.table, e.arg.value.name); }
  }

  /** An expression is valid outside HAVING if and only if every node of it is. */
  lemma {:induction false} ValidIff(sc: Scope, e: Expr)
    ensures ValidateExpr(sc, e).None? <==> forall x :: Occurs(x, e) ==> NodeOk(sc, x)
  {
    var cs := Children(e);
    forall i | 0 <= i < |cs|
      ensures ValidateExpr(sc, cs[i]).None? <==> forall x :: Occurs(x, cs[i]) ==> NodeOk(sc, x)
    {
      ValidIff(sc, cs[i]);
    }
    ValidStep(sc, e);
    assert Occurs(e, e);
  }

  /** ... and valid in HAVING if and only if every node of it is valid there. */
  lemma {:induction false} HavingIff(sc: Scope, e: Expr, groupPos: set<nat>)
    ensures ValidateHaving(sc, e, groupPos).None? <==> forall x :: Occurs(x, e) ==> HavingNodeOk(sc, x, groupPos)
  {
    var cs := Children(e);
    forall i | 0 <= i < |cs|
      ensures ValidateHaving(sc, cs[i], groupPos).None? <==>
              forall x :: Occurs(x, cs[i]) ==> HavingNodeOk(sc, x, groupPos)
    {
      HavingIff(sc, cs[i], groupPos);
    }
    HavingStep(sc, e, groupPos);
    assert Occurs(e, e);
  }

  // --- what validation guarantees -----------------------------------------------------------------------

  /** Not a panic and not an error about a column or table name. */
  predicate Settled<T>(o: Outcome<T>) { !o.Panic? && (o.Err? ==> o.code != "42703" && o.code != "42P01") }

  /** Every row of the group has at least n cells. */
  predicate Wide(rows: seq<Row>, n: nat) { forall i :: 0 <= i < |rows| ==> |rows[i]| >= n }

  lemma {:induction false} CellsExist(rows: seq<Row>, pos: nat, n: nat)
    requires Wide(rows, n) && pos < n
    ensures Cells(rows, pos).Some?
    decreases |rows|
  {
    if rows != [] { CellsExist(rows[1..], pos, n); }
  }

  lemma AggregateSettled(name: string, rows: seq<Row>, pos: nat, n: nat)
    requires IsAggregate(name) && Wide(rows, n) && pos < n
    ensures Settled(Aggregate(name, false, rows, pos))
  {
    CellsExist(rows, pos, n);
  }

  lemma ArithmeticSettled(op: ArithOp, l: Value, r: Value)
    ensures Settled(Arithmetic(op, l, r))
  {
    ArithmeticNeverPanics(op, l, r);
  }

  /** WHERE, ON, SET, select-list and ORDER BY expressions over a row the scope covers. */
  lemma {:induction false} ValidValueSettles(c: Ctx, e: Expr, row: Row)
    requires ValidateExpr(c.sc, e).None? && Covers(c.sc, |row|)
    ensures Settled(EvalValue(c, e, row))
  {
    match e
    case Col(table, name) => ResolveInRange(c.sc, table, name, |row|);
    case Binary(op, l, r) =>
      ValidValueSettles(c, l, row);
      ValidValueSettles(c, r, row);
      var a, b := EvalValue(c, l, row), EvalValue(c, r, row);
      if a.Ok? && b.Ok? { ArithmeticSettled(op, a.value, b.value); }
    case _ =>
  }

  lemma {:induction false} ValidBoolSettles(c: Ctx, e: Expr, row: Row)
    requires ValidateExpr(c.sc, e).None? && Covers(c.sc, |row|)
    ensures Settled(EvalBool(c, e, row))
  {
    match e
    case Cmp(_, l, r) => ValidValueSettles(c, l, row); ValidValueSettles(c, r, row);
    case IsNull(x, _) => ValidValueSettles(c, x, row);
    case InList(x, _, _) => ValidValueSettles(c, x, row);
    case And(l, r) => ValidBoolSettles(c, l, row); ValidBoolSettles(c, r, row);
    case Or(l, r) => ValidBoolSettles(c, l, row); ValidBoolSettles(c, r, row);
    case Not(x) => ValidBoolSettles(c, x, row);
    case Binary(_, _, _) => ValidValueSettles(c, e, row);
    case _ =>
  }

  /** The representative row of a group is long enough for every GROUP BY position. */
  predicate Reaches(groupPos: set<nat>, row: Row) { forall p :: p in groupPos ==> p < |row| }

  /** HAVING over a group, including the empty group of a query without GROUP BY, which has no
      representative row at all. */
  lemma {:induction false} HavingValueSettles(c: Ctx, e: Expr, row: Row, groupPos: set<nat>, n: nat)
    requires ValidateHaving(c.sc, e, groupPos).None? && c.group.Some?
    requires Covers(c.sc, n) && Wide(c.group.value, n) && Reaches(groupPos, row)
    ensures Settled(EvalValue(c, e, row))
  {
    match e
    case Col(table, name) => ResolveInRange(c.sc, table, name, n);
    case Func(name, star, arg) =>
      if IsAggregate(name) && !star {
        ResolveInRange(c.sc, arg.value.table, arg.value.name, n);
        AggregateSettled(name, c.group.value, Resolve(c.sc, arg.value.table, arg.value.name).value, n);
      }
    case Binary(op, l, r) =>
      HavingValueSettles(c, l, row, groupPos, n);
      HavingValueSettles(c, r, row, groupPos, n);
      var a, b := EvalValue(c, l, row), EvalValue(c, r, row);
      if a.Ok? && b.Ok? { ArithmeticSettled(op, a.value, b.value); }
    case _ =>
  }

  lemma {:induction false} HavingSettles(c: Ctx, e: Expr, row: Row, groupPos: set<nat>, n: nat)
    requires ValidateHaving(c.sc, e, groupPos).None? && c.group.Some?
    requires Covers(c.sc, n) && Wide(c.group.value, n) && Reaches(groupPos, row)
    ensures Settled(EvalBool(c, e, row))
  {
    match e
    case Cmp(_, l, r) => HavingValueSettles(c, l, row, groupPos, n); HavingValueSettles(c, r, row, groupPos, n);
    case IsNull(x, _) => HavingValueSettles(c, x, row, groupPos, n);
    case InList(x, _, _) => HavingValueSettles(c, x, row, groupPos, n);
    case And(l, r) => HavingSettles(c, l, row, groupPos, n); HavingSettles(c, r, row, groupPos, n);
    case Or(l, r) => HavingSettles(c, l, row, groupPos, n); HavingSettles(c, r, row, groupPos, n);
    case Not(x) => HavingSettles(c, x, row, groupPos, n);
    case Binary(_, _, _) => HavingValueSettles(c, e, row, groupPos, n);
    case _ =>
  }
}
