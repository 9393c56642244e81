/** Queries that come out of the parser run without panics. */
module ParsedQueries {
  import opened Values
  import opened Ast
  import opened Grammar
  import opened Plans
  import Q = Query
  import S = QuerySafety

  // --- the shape of parsed queries ------------------------------------------------------------------------

  predicate Shaped(r: Parsed<Expr>) { r.Got? ==> S.ShapedExpr(r.value) }

  lemma {:induction false} OrShape(toks: Tokens)
    ensures Shaped(ParseOr(toks))
    decreases |toks|, 10
  {
    AndShape(toks);
    var l := ParseAnd(toks);
    if l.Got? { OrLoopShape(l.value, l.rest); }
  }

  lemma {:induction false} OrLoopShape(l: Expr, toks: Tokens)
    requires S.ShapedExpr(l)
    ensures Shaped(OrLoop(l, toks))
    decreases |toks|, 0
  {
    if AtKw(toks, "or") {
      AndShape(toks[1..]);
      var r := ParseAnd(toks[1..]);
      if r.Got? { OrLoopShape(Or(l, r.value), r.rest); }
    }
  }

  lemma {:induction false} AndShape(toks: Tokens)
    ensures Shaped(ParseAnd(toks))
    decreases |toks|, 9
  {
    NotShape(toks);
    var l := ParseNot(toks);
    if l.Got? { AndLoopShape(l.value, l.rest); }
  }

  lemma {:induction false} AndLoopShape(l: Expr, toks: Tokens)
    requires S.ShapedExpr(l)
    ensures Shaped(AndLoop(l, toks))
    decreases |toks|, 0
  {
    if AtKw(toks, "and") {
      NotShape(toks[1..]);
      var r := ParseNot(toks[1..]);
      if r.Got? { AndLoopShape(And(l, r.value), r.rest); }
    }
  }

  lemma {:induction false} NotShape(toks: Tokens)
    ensures Shaped(ParseNot(toks))
    decreases |toks|, 8
  {
    if AtKw(toks, "not") { NotShape(toks[1..]); } else { CmpShape(toks); }
  }

  lemma {:induction false} CmpShape(toks: Tokens)
    ensures Shaped(ParseCmp(toks))
    decreases |toks|, 7
  {
    AddShape(toks);
    var l := ParseAdd(toks);
    if l.Got? { TailShape(l.value, l.rest); }
  }

  lemma {:induction false} TailShape(l: Expr, toks: Tokens)
    requires S.ShapedExpr(l)
    ensures Shaped(CmpTail(l, toks))
    decreases |toks|, 0
  {
    if toks != [] {
      if CmpOf(toks[0]).Some? {
        AddShape(toks[1..]);
      } else if AtKw(toks, "not") && AtKw(toks[1..], "in") {
        InShape(l, true, toks[2..]);
      } else if AtKw(toks, "in") {
        InShape(l, false, toks[1..]);
      }
    }
  }

  lemma InForm(l: Expr, negated: bool, toks: Tokens)
    requires ParseIn(l, negated, toks).Got?
    ensures toks != []
    ensures
      var v := ParseIn(l, negated, toks).value;
      if AtKw(toks[1..], "select")
      then ParseSelect(toks[1..]).Got? && v == InSub(l, ParseSelect(toks[1..]).value, negated)
      else v.InList? && v.x == l
  {
  }

  lemma {:induction false} InShape(l: Expr, negated: bool, toks: Tokens)
    requires S.ShapedExpr(l)
    ensures Shaped(ParseIn(l, negated, toks))
    decreases |toks|, 12
  {
    if ParseIn(l, negated, toks).Got? {
      InForm(l, negated, toks);
      if AtKw(toks[1..], "select") { SelectShape(toks[1..]); }
    }
  }

  lemma {:induction false} AddShape(toks: Tokens)
    ensures Shaped(ParseAdd(toks))
    decreases |toks|, 6
  {
    MulShape(toks);
    var l := ParseMul(toks);
    if l.Got? { AddLoopShape(l.value, l.rest); }
  }

  lemma {:induction false} AddLoopShape(l: Expr, toks: Tokens)
    requires S.ShapedExpr(l)
    ensures Shaped(AddLoop(l, toks))
    decreases |toks|, 0
  {
    if toks != [] && AddOf(toks[0]).Some? {
      MulShape(toks[1..]);
      var r := ParseMul(toks[1..]);
      if r.Got? { AddLoopShape(Binary(AddOf(toks[0]).value, l, r.value), r.rest); }
    }
  }

  lemma {:induction false} MulShape(toks: Tokens)
    ensures Shaped(ParseMul(toks))
    decreases |toks|, 5
  {
    UnaryShape(toks);
    var l := ParseUnary(toks);
    if l.Got? { MulLoopShape(l.value, l.rest); }
  }

  lemma {:induction false} MulLoopShape(l: Expr, toks: Tokens)
    requires S.ShapedExpr(l)
    ensures Shaped(MulLoop(l, toks))
    decreases |toks|, 0
  {
    if toks != [] && MulOf(toks[0]).Some? {
      UnaryShape(toks[1..]);
      var r := ParseUnary(toks[1..]);
      if r.Got? { MulLoopShape(Binary(MulOf(toks[0]).value, l, r.value), r.rest); }
    }
  }

  lemma {:induction false} UnaryShape(toks: Tokens)
    ensures Shaped(ParseUnary(toks))
    decreases |toks|, 4
  {
    if AtPunct(toks, "-") { UnaryShape(toks[1..]); } else { PrimaryShape(toks); }
  }

  lemma {:induction false} PrimaryShape(toks: Tokens)
    ensures Shaped(ParsePrimary(toks))
    decreases |toks|, 3
  {
    if AtPunct(toks, "(") { OrShape(toks[1..]); }
  }

  lemma {:induction false} RefShape(toks: Tokens)
    ensures
      var r := ParseTableRef(toks);
      r.Got? && r.value.sub.Some? ==> S.ShapedSelect(r.value.sub.value)
    decreases |toks|, 13
  {
    if AtPunct(toks, "(") && AtKw(toks[1..], "select") { SelectShape(toks[1..]); }
  }

  lemma {:induction false} JoinsShape(toks: Tokens)
    ensures
      var r := ParseJoins(toks);
      r.Got? ==> S.ShapedRefs(r.value.tables) && S.ShapedExprs(r.value.on)
    decreases |toks|, 14
  {
    var kind := JoinStart(toks);
    if kind.Got? {
      RefShape(kind.rest);
      var ref := ParseTableRef(kind.rest);
      if ref.Got? && AtKw(ref.rest, "on") {
        OrShape(ref.rest[1..]);
        var on := ParseOr(ref.rest[1..]);
        if on.Got? { JoinsShape(on.rest); }
      }
    }
  }

  lemma ClauseShape(kw: string, toks: Tokens)
    requires AtKw(toks, kw) ==> Shaped(ParseOr(toks[1..]))
    ensures
      var r := ParseClause(kw, toks);
      r.Got? && r.value.Some? ==> S.ShapedExpr(r.value.value)
  {
  }

  /** Every query the parser accepts is shaped, at every depth. */
  lemma {:induction false} SelectShape(toks: Tokens)
    ensures ParseSelect(toks).Got? ==> S.ShapedSelect(ParseSelect(toks).value)
    decreases |toks|, 2
  {
    if ParseSelect(toks).Got? {
      var fields := ParseFieldList(toks[1..]);
      var from := fields.rest[1..];
      RefShape(from);
      var first := ParseTableRef(from);
      JoinsShape(first.rest);
      var joins := ParseJoins(first.rest);
      if AtKw(joins.rest, "where") { OrShape(joins.rest[1..]); }
      ClauseShape("where", joins.rest);
      var where := ParseClause("where", joins.rest);
      var group := ParseGroup(where.rest);
      if AtKw(group.rest, "having") { OrShape(group.rest[1..]); }
      ClauseShape("having", group.rest);
      var refs := [first.value] + joins.value.tables;
      assert refs[1..] == joins.value.tables;
    }
  }

  /** Whatever the tokens, a query that parses runs to a result or an SQL error: it never panics,
      unless one of its derived tables is empty and shadowed by a narrower stored table. */
  lemma ParsedSelectNeverPanics(db: Db, now: int, toks: Tokens)
    requires S.DbOk(db) && ParseSelect(toks).Got? && S.ClearSelect(RunPlan, db, now, ParseSelect(toks).value)
    ensures S.ResultOk(Q.Execute(db, now, ParseSelect(toks).value))
  {
    SelectShape(toks);
    S.SelectNeverPanics(db, now, ParseSelect(toks).value);
  }
}
