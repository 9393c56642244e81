/** The evaluator against SQL-92: section 8.2 for comparisons, section 8.4 for IN, section 8.6 for
    IS NULL, section 8.12 for AND, OR and NOT. */
module ThreeValued {
  import opened Values
  import opened Schema
  import opened Ast
  import opened Eval
  import opened SqlOrder

  datatype Tri = T | F | U

  function Tri3(t: Truth): Tri { if t.isNull then U else if t.b then T else F }

  // --- the tables --------------------------------------------------------------------------------

  function SqlAnd(a: Tri, b: Tri): Tri {
    if a.F? || b.F? then F else if a.U? || b.U? then U else T
  }

  function SqlOr(a: Tri, b: Tri): Tri {
    if a.T? || b.T? then T else if a.U? || b.U? then U else F
  }

  function SqlNot(a: Tri): Tri { match a case T => F case F => T case U => U }

  function TriOf(b: bool): Tri { if b then T else F }

  /** The relation a comparison operator names, over the order of the values. */
  predicate Related(op: CmpOp, v: Value, w: Value) {
    match op
    case Eq => !Below(v, w) && !Below(w, v)
    case Ne => Below(v, w) || Below(w, v)
    case Lt => Below(v, w)
    case Le => !Below(w, v)
    case Gt => Below(w, v)
    case Ge => !Below(v, w)
  }

  function SqlCompare(op: CmpOp, v: Value, w: Value): Tri {
    if v.VNull? || w.VNull? then U else TriOf(Related(op, v, w))
  }

  /** IS NULL and IS NOT NULL are never UNKNOWN. */
  function SqlIsNull(v: Value, negated: bool): Tri {
    if negated then SqlNot(TriOf(v == VNull)) else TriOf(v == VNull)
  }

  /** x IN (v1, ..., vn) is x = v1 OR ... OR x = vn; FALSE for no values. */
  function SqlIn(v: Value, vs: seq<Value>): Tri {
    if vs == [] then F else SqlOr(SqlCompare(Eq, v, vs[0]), SqlIn(v, vs[1..]))
  }

  // --- operator by operator ---------------------------------------------------------------------------

  /** A truth value as the evaluator produces them: NULL comes with the boolean false. */
  predicate Proper(t: Truth) { t.isNull ==> !t.b }

  /** AND agrees with the table exactly when both operands are NULL or neither is. */
  lemma AndAgreesIff(a: Truth, b: Truth)
    requires Proper(a) && Proper(b)
    ensures Tri3(EvalAnd(a, b)) == SqlAnd(Tri3(a), Tri3(b)) <==> (a.isNull <==> b.isNull)
    ensures Accepts(EvalAnd(a, b)) <==> SqlAnd(Tri3(a), Tri3(b)).T?
    ensures (Accepts(EvalNot(EvalAnd(a, b))) <==> SqlNot(SqlAnd(Tri3(a), Tri3(b))).T?) <==>
            (a.isNull <==> b.isNull)
    ensures Proper(EvalAnd(a, b))
  {
  }

  /** Every comparison operator means what it says: NULL makes it UNKNOWN, otherwise it is TRUE exactly if
      the values stand in the relation it names. */
  lemma CompareAgrees(op: CmpOp, v: Value, w: Value)
    ensures Tri3(EvalCmp(op, v, w)) == SqlCompare(op, v, w) && Proper(EvalCmp(op, v, w))
  {
    CompareIsOrder(v, w);
  }

  predicate IntRelated(op: CmpOp, x: int, y: int) {
    match op
    case Eq => x == y
    case Ne => x != y
    case Lt => x < y
    case Le => x <= y
    case Gt => x > y
    case Ge => x >= y
  }

  predicate TextRelated(op: CmpOp, a: string, b: string) {
    match op
    case Eq => a == b
    case Ne => a != b
    case Lt => TextBelow(a, b)
    case Le => a == b || TextBelow(a, b)
    case Gt => TextBelow(b, a)
    case Ge => a == b || TextBelow(b, a)
  }

  /** On integers, one of them below 2^53, the operators are those of the integers. */
  lemma IntegerComparison(c: Ctx, op: CmpOp, x: int64, y: int64, row: Row)
    requires -TWO_53 < x < TWO_53 || -TWO_53 < y < TWO_53
    ensures EvalBool(c, Cmp(op, Lit(VInt(x)), Lit(VInt(y))), row) == Ok(TruthOf(IntRelated(op, x, y)))
  {
    CompareAgrees(op, VInt(x), VInt(y));
    IntegerOrder(x, y);
    IntegerOrder(y, x);
  }

  /** On texts they are those of the dictionary order. */
  lemma TextComparison(c: Ctx, op: CmpOp, a: string, b: string, row: Row)
    ensures EvalBool(c, Cmp(op, Lit(VText(a)), Lit(VText(b))), row) == Ok(TruthOf(TextRelated(op, a, b)))
  {
    CompareAgrees(op, VText(a), VText(b));
    CompareTextAntisymmetric(a, b);
    CompareTextIsDictionary(a, b);
    CompareTextIsDictionary(b, a);
  }

  lemma OrAgrees(a: Truth, b: Truth)
    requires Proper(a) && Proper(b)
    ensures Tri3(EvalOr(a, b)) == SqlOr(Tri3(a), Tri3(b)) && Proper(EvalOr(a, b))
  {
  }

  function LitValues(list: seq<Expr>): seq<Value>
    requires AllLits(list)
  {
    if list == [] then [] else [list[0].v] + LitValues(list[1..])
  }

  lemma {:induction false} ScanAgrees(v: Value, list: seq<Expr>, hasNull: bool)
    requires AllLits(list) && !v.VNull?
    ensures ScanList(v, list, hasNull) ==
            match SqlIn(v, LitValues(list))
            case T => Matched
            case U => Unmatched(true)
            case F => Unmatched(hasNull)
    decreases |list|
  {
    if list != [] {
      var seen := hasNull || list[0].v.VNull?;
      ScanAgrees(v, list[1..], seen);
      CompareIsOrder(v, list[0].v);
      assert LitValues(list)[1..] == LitValues(list[1..]);
    }
  }

  lemma {:induction false} NullIn(vs: seq<Value>)
    ensures SqlIn(VNull, vs) == if vs == [] then F else U
  {
    if vs != [] { NullIn(vs[1..]); }
  }

  /** IN and NOT IN agree with their definition exactly unless a NULL meets an empty list. */
  lemma InAgreesIff(v: Value, list: seq<Expr>, negated: bool)
    requires AllLits(list)
    ensures EvalIn(v, list, negated).Ok? && Proper(EvalIn(v, list, negated).value)
    ensures
      var sql := SqlIn(v, LitValues(list));
      Tri3(EvalIn(v, list, negated).value) == (if negated then SqlNot(sql) else sql) <==>
      !(v.VNull? && list == [])
  {
    if v.VNull? { NullIn(LitValues(list)); } else { ScanAgrees(v, list, false); }
  }

  // --- whole expressions ---------------------------------------------------------------------------------

  /** A number in boolean position is TRUE unless it is zero. */
  function SqlNumber(v: Value): Outcome<Tri> {
    match v
    case VNull => Ok(U)
    case VBool(b) => Ok(TriOf(b))
    case VInt(i) => Ok(TriOf(i != 0))
    case VFloat(f) => Ok(TriOf(f != Fin(0) && f != NegZero))
    case _ => Err("42883")
  }

  /** The reference: comparisons by the order of the values, connectives by the tables. Operands are
      values, so their evaluation is shared. */
  function SqlEval(c: Ctx, e: Expr, row: Row): Outcome<Tri> {
    match e
    case And(l, r) =>
      var a :- SqlEval(c, l, row);
      var b :- SqlEval(c, r, row);
      Ok(SqlAnd(a, b))
    case Or(l, r) =>
      var a :- SqlEval(c, l, row);
      var b :- SqlEval(c, r, row);
      Ok(SqlOr(a, b))
    case Not(x) =>
      var a :- SqlEval(c, x, row);
      Ok(SqlNot(a))
    case InList(x, list, negated) =>
      var v :- EvalValue(c, x, row);
      if !AllLits(list) then Lift(EvalIn(v, list, negated))
      else
        var sql := SqlIn(v, LitValues(list));
        Ok(if negated then SqlNot(sql) else sql)
    case Cmp(op, l, r) =>
      var v :- EvalValue(c, l, row);
      var w :- EvalValue(c, r, row);
      Ok(SqlCompare(op, v, w))
    case IsNull(x, negated) =>
      var v :- EvalValue(c, x, row);
      Ok(SqlIsNull(v, negated))
    case Lit(v) => if v.VBool? || v.VNull? then SqlNumber(v) else Err("42883")
    case Binary(_, _, _) =>
      var v :- EvalValue(c, e, row);
      SqlNumber(v)
    case _ => Err("0A000")
  }

  /** NULL NOT IN () is TRUE by the definition of IN, and NULL here. */
  lemma NullAndNoValues(c: Ctx, row: Row)
    ensures EvalBool(c, InList(Lit(VNull), [], true), row) == Ok(NULL)
    ensures SqlEval(c, InList(Lit(VNull), [], true), row) == Ok(T)
  {
  }

  function Lift(o: Outcome<Truth>): Outcome<Tri> {
    match o
    case Ok(t) => Ok(Tri3(t))
    case Err(code) => Err(code)
    case Panic => Panic
  }

  predicate HasAnd(e: Expr) {
    match e
    case And(_, _) => true
    case Or(l, r) => HasAnd(l) || HasAnd(r)
    case Not(x) => HasAnd(x)
    case _ => false
  }

  predicate NoAndUnderNot(e: Expr) {
    match e
    case And(l, r) => NoAndUnderNot(l) && NoAndUnderNot(r)
    case Or(l, r) => NoAndUnderNot(l) && NoAndUnderNot(r)
    case Not(x) => !HasAnd(x)
    case _ => true
  }

  /** Every IN list is non-empty. */
  predicate ListsNonEmpty(e: Expr) {
    match e
    case And(l, r) => ListsNonEmpty(l) && ListsNonEmpty(r)
    case Or(l, r) => ListsNonEmpty(l) && ListsNonEmpty(r)
    case Not(x) => ListsNonEmpty(x)
    case InList(_, list, _) => list != []
    case _ => true
  }

  lemma {:induction false} EvalIsProper(c: Ctx, e: Expr, row: Row)
    ensures EvalBool(c, e, row).Ok? ==> Proper(EvalBool(c, e, row).value)
  {
    match e
    case And(l, r) => EvalIsProper(c, l, row); EvalIsProper(c, r, row);
    case Or(l, r) => EvalIsProper(c, l, row); EvalIsProper(c, r, row);
    case Not(x) => EvalIsProper(c, x, row);
    case _ =>
  }

  lemma ComparisonLeaf(c: Ctx, op: CmpOp, l: Expr, r: Expr, row: Row)
    ensures Lift(EvalBool(c, Cmp(op, l, r), row)) == SqlEval(c, Cmp(op, l, r), row)
  {
    var v, w := EvalValue(c, l, row), EvalValue(c, r, row);
    if v.Ok? && w.Ok? { CompareAgrees(op, v.value, w.value); }
  }

  /** Without AND the evaluator computes the SQL truth value, or the same error. */
  lemma {:induction false} AndFreeAgrees(c: Ctx, e: Expr, row: Row)
    requires !HasAnd(e) && ListsNonEmpty(e)
    ensures Lift(EvalBool(c, e, row)) == SqlEval(c, e, row)
  {
    match e
    case Or(l, r) =>
      AndFreeAgrees(c, l, row);
      AndFreeAgrees(c, r, row);
      EvalIsProper(c, l, row);
      EvalIsProper(c, r, row);
    case Not(x) =>
      AndFreeAgrees(c, x, row);
      EvalIsProper(c, x, row);
    case InList(x, list, negated) =>
      if EvalValue(c, x, row).Ok? && AllLits(list) { InAgreesIff(EvalValue(c, x, row).value, list, negated); }
    case Cmp(op, l, r) => ComparisonLeaf(c, op, l, r, row);
    case _ =>
  }

  /** Same kind of outcome, and TRUE in one exactly if TRUE in the other. */
  predicate SameVerdict(a: Outcome<Truth>, b: Outcome<Tri>) {
    match (a, b)
    case (Ok(t), Ok(u)) => Accepts(t) <==> u.T?
    case (Err(x), Err(y)) => x == y
    case (Panic, Panic) => true
    case _ => false
  }

  lemma AndFreeVerdict(c: Ctx, e: Expr, row: Row)
    requires !HasAnd(e) && ListsNonEmpty(e)
    ensures SameVerdict(EvalBool(c, e, row), SqlEval(c, e, row))
  {
    AndFreeAgrees(c, e, row);
    EvalIsProper(c, e, row);
  }

  /** If no AND lies under a NOT, a row is accepted exactly when SQL says TRUE. */
  lemma {:induction false} AcceptsExactlyTrue(c: Ctx, e: Expr, row: Row)
    requires NoAndUnderNot(e) && ListsNonEmpty(e)
    ensures SameVerdict(EvalBool(c, e, row), SqlEval(c, e, row))
  {
    match e
    case And(l, r) =>
      AcceptsExactlyTrue(c, l, row);
      AcceptsExactlyTrue(c, r, row);
      EvalIsProper(c, l, row);
      EvalIsProper(c, r, row);
    case Or(l, r) =>
      AcceptsExactlyTrue(c, l, row);
      AcceptsExactlyTrue(c, r, row);
      EvalIsProper(c, l, row);
      EvalIsProper(c, r, row);
    case _ => AndFreeVerdict(c, e, row);
  }

  /** The restriction is needed: NOT (NULL AND TRUE) is NULL in SQL but accepts every row here. */
  lemma AndUnderNotWitness(c: Ctx, row: Row)
    ensures
      var e := Not(And(Lit(VNull), Lit(VBool(true))));
      EvalBool(c, e, row) == Ok(TRUE) && SqlEval(c, e, row) == Ok(U)
  {
    var a, b := Lit(VNull), Lit(VBool(true));
    assert EvalBool(c, a, row) == Ok(NULL) && EvalBool(c, b, row) == Ok(TRUE);
    assert EvalBool(c, And(a, b), row) == Ok(FALSE);
    assert SqlEval(c, a, row) == Ok(U) && SqlEval(c, b, row) == Ok(T);
    assert SqlEval(c, And(a, b), row) == Ok(U);
  }
}
