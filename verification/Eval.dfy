/** Column resolution, aggregates and expression evaluation. */
module Eval {
  import opened Values
  import opened Schema
  import opened Ast

  /** A value, an SQL error, or a run-time panic (an index out of range). */
  datatype Outcome<+T> = Ok(value: T) | Err(code: string) | Panic {
    predicate IsFailure() { !Ok? }

    function PropagateFailure<U>(): Outcome<U>
      requires !Ok?
    {
      if Err? then Err(code) else Panic
    }

    function Extract(): T
      requires Ok?
    {
      value
    }
  }

  // --- scopes ----------------------------------------------------------------------------------

  /** One FROM entry: its columns start at basePos of the joined row. */
  datatype JoinTable = JoinTable(alias: string, cols: seq<Column>, basePos: nat)

  type Scope = seq<JoinTable>

  /** `colIndexMap`: with duplicate names the last column wins. */
  function ColIndex(cols: seq<Column>, name: string): (r: Option<nat>)
    ensures r.Some? ==> r.value < |cols| && cols[r.value].name == name
    ensures r.None? <==> forall i :: 0 <= i < |cols| ==> cols[i].name != name
  {
    if cols == [] then None
    else if cols[|cols| - 1].name == name then Some(|cols| - 1)
    else ColIndex(cols[..|cols| - 1], name)
  }

  function ResolveQualified(sc: Scope, table: string, name: string): Outcome<nat> {
    if sc == [] then Err("42P01")
    else if sc[0].alias == table then
      match ColIndex(sc[0].cols, name)
      case Some(ci) => Ok(sc[0].basePos + ci)
      case None => Err("42703")
    else ResolveQualified(sc[1..], table, name)
  }

  /** Positions of an unqualified name, one per table that has it. */
  function Positions(sc: Scope, name: string): seq<nat> {
    if sc == [] then []
    else
      (match ColIndex(sc[0].cols, name)
       case Some(ci) => [sc[0].basePos + ci]
       case None => [])
      + Positions(sc[1..], name)
  }

  /** `joinScope.resolve`: unknown and ambiguous names are errors. */
  function Resolve(sc: Scope, table: string, name: string): Outcome<nat> {
    if table != "" then ResolveQualified(sc, table, name)
    else
      var ps := Positions(sc, name);
      if |ps| == 1 then Ok(ps[0]) else Err("42703")
  }

  /** Column ci of table k has the name; with duplicate names it is the last one. */
  predicate IsColumn(sc: Scope, k: nat, ci: nat, name: string) {
    && k < |sc| && ci < |sc[k].cols| && sc[k].cols[ci].name == name
    && forall j :: ci < j < |sc[k].cols| ==> sc[k].cols[j].name != name
  }

  /** The column a reference means: of the first table with the alias, or of the only table that has the
      name. */
  ghost predicate Means(sc: Scope, table: string, name: string, k: nat, ci: nat) {
    && IsColumn(sc, k, ci, name)
    && if table != "" then sc[k].alias == table && forall j :: 0 <= j < k ==> sc[j].alias != table
       else forall j: nat, cj: nat :: IsColumn(sc, j, cj, name) ==> j == k
  }

  lemma {:induction false} LastNamed(cols: seq<Column>, name: string)
    ensures ColIndex(cols, name).Some? ==>
      forall j :: ColIndex(cols, name).value < j < |cols| ==> cols[j].name != name
  {
    if cols != [] && cols[|cols| - 1].name != name { LastNamed(cols[..|cols| - 1], name); }
  }

  lemma ColumnIffIndexed(sc: Scope, k: nat, ci: nat, name: string)
    requires k < |sc|
    ensures IsColumn(sc, k, ci, name) <==> ColIndex(sc[k].cols, name) == Some(ci)
  {
    LastNamed(sc[k].cols, name);
  }

  lemma {:induction false} QualifiedMeans(sc: Scope, table: string, name: string)
    requires table != ""
    ensures
      var o := ResolveQualified(sc, table, name);
      && (o.Ok? ==> exists k: nat, ci: nat :: Means(sc, table, name, k, ci) && o.value == sc[k].basePos + ci)
      && (o.Err? ==> forall k: nat, ci: nat :: !Means(sc, table, name, k, ci))
      && !o.Panic?
    decreases |sc|
  {
    if sc != [] {
      if sc[0].alias == table {
        forall ci: nat { ColumnIffIndexed(sc, 0, ci, name); }
        var found := ColIndex(sc[0].cols, name);
        if found.Some? { assert Means(sc, table, name, 0, found.value); }
      } else {
        QualifiedMeans(sc[1..], table, name);
        if ResolveQualified(sc, table, name).Ok? {
          var k: nat, ci: nat :| Means(sc[1..], table, name, k, ci) &&
                                 ResolveQualified(sc, table, name).value == sc[1..][k].basePos + ci;
          TailMeans(sc, table, name, k + 1, ci);
          assert sc[k + 1] == sc[1..][k];
        } else {
          forall k: nat, ci: nat ensures !Means(sc, table, name, k, ci) { TailMeans(sc, table, name, k, ci); }
        }
      }
    }
  }

  lemma TailMeans(sc: Scope, table: string, name: string, k: nat, ci: nat)
    requires table != "" && sc != [] && sc[0].alias != table
    ensures k > 0 ==> (Means(sc, table, name, k, ci) <==> Means(sc[1..], table, name, k - 1, ci))
    ensures !Means(sc, table, name, 0, ci)
  {
    if 0 < k < |sc| {
      assert sc[1..][k - 1] == sc[k];
      assert forall j :: 0 < j < k ==> sc[j] == sc[1..][j - 1];
      assert forall j :: 0 <= j < k - 1 ==> sc[1..][j] == sc[j + 1];
    }
  }

  /** The tables that have the name, from the first to the last, and the position of the column in each. */
  ghost predicate TablesWith(sc: Scope, name: string, ks: seq<nat>) {
    && (forall i, j :: 0 <= i < j < |ks| ==> ks[i] < ks[j])
    && (forall i :: 0 <= i < |ks| ==> ks[i] < |sc|)
    && forall k: nat :: k < |sc| ==> (k in ks <==> ColIndex(sc[k].cols, name).Some?)
  }

  function Raised(ks: seq<nat>): (r: seq<nat>)
    ensures |r| == |ks| && forall i :: 0 <= i < |r| ==> r[i] == ks[i] + 1
  {
    seq(|ks|, i requires 0 <= i < |ks| => ks[i] + 1)
  }

  lemma RaisedMembers(ks: seq<nat>, k: nat)
    requires k > 0
    ensures k in Raised(ks) <==> k - 1 in ks
  {
    if k - 1 in ks {
      var i :| 0 <= i < |ks| && ks[i] == k - 1;
      assert Raised(ks)[i] == k;
    }
  }

  function WithFirst(has: bool, ks: seq<nat>): seq<nat> { if has then [0] + Raised(ks) else Raised(ks) }

  lemma TablesFromTail(sc: Scope, name: string, later: seq<nat>)
    requires sc != [] && TablesWith(sc[1..], name, later)
    ensures TablesWith(sc, name, WithFirst(ColIndex(sc[0].cols, name).Some?, later))
  {
    var ks := WithFirst(ColIndex(sc[0].cols, name).Some?, later);
    forall k: nat | k < |sc| ensures k in ks <==> ColIndex(sc[k].cols, name).Some? {
      if k > 0 {
        RaisedMembers(later, k);
        assert sc[1..][k - 1] == sc[k];
      }
    }
  }

  /** Positions lists, table by table, where the name is. */
  ghost predicate PlacesAt(sc: Scope, name: string, ks: seq<nat>, ps: seq<nat>) {
    && |ps| == |ks|
    && forall i :: 0 <= i < |ks| ==>
         && ks[i] < |sc| && ColIndex(sc[ks[i]].cols, name).Some?
         && ps[i] == sc[ks[i]].basePos + ColIndex(sc[ks[i]].cols, name).value
  }

  lemma PlacesFromTail(sc: Scope, name: string, later: seq<nat>, ps: seq<nat>)
    requires sc != [] && PlacesAt(sc[1..], name, later, ps)
    ensures PlacesAt(sc, name, Raised(later), ps)
    ensures
      var ci := ColIndex(sc[0].cols, name);
      ci.Some? ==> PlacesAt(sc, name, [0] + Raised(later), [sc[0].basePos + ci.value] + ps)
  {
    forall i | 0 <= i < |later| ensures sc[Raised(later)[i]] == sc[1..][later[i]] { }
  }

  lemma {:induction false} PositionsStep(sc: Scope, name: string)
    requires sc != []
    ensures
      var ci, later := ColIndex(sc[0].cols, name), Positions(sc[1..], name);
      Positions(sc, name) == if ci.Some? then [sc[0].basePos + ci.value] + later else later
  {
    assert [] + Positions(sc[1..], name) == Positions(sc[1..], name);
  }

  lemma {:induction false} PositionTables(sc: Scope, name: string) returns (ks: seq<nat>)
    ensures TablesWith(sc, name, ks) && PlacesAt(sc, name, ks, Positions(sc, name))
    decreases |sc|
  {
    ks := [];
    if sc != [] {
      var later := PositionTables(sc[1..], name);
      ks := WithFirst(ColIndex(sc[0].cols, name).Some?, later);
      TablesFromTail(sc, name, later);
      PlacesFromTail(sc, name, later, Positions(sc[1..], name));
      PositionsStep(sc, name);
    }
  }

  lemma PlainMeans(sc: Scope, name: string)
    ensures
      var o := Resolve(sc, "", name);
      && (o.Ok? ==> exists k: nat, ci: nat :: Means(sc, "", name, k, ci) && o.value == sc[k].basePos + ci)
      && (o.Err? ==> forall k: nat, ci: nat :: !Means(sc, "", name, k, ci))
      && !o.Panic?
  {
    var ks := PositionTables(sc, name);
    forall k: nat, ci: nat | k < |sc| { ColumnIffIndexed(sc, k, ci, name); }
    if |ks| == 1 {
      var ci := ColIndex(sc[ks[0]].cols, name).value;
      forall j: nat, cj: nat | IsColumn(sc, j, cj, name) ensures j == ks[0] { assert j in ks; }
      assert Means(sc, "", name, ks[0], ci);
    } else {
      forall k: nat, ci: nat ensures !Means(sc, "", name, k, ci) {
        if IsColumn(sc, k, ci, name) {
          assert k in ks;
          var other := if ks[0] == k then ks[1] else ks[0];
          assert other in ks && other != k;
          assert IsColumn(sc, other, ColIndex(sc[other].cols, name).value, name);
        }
      }
    }
  }

  /** A reference resolves if and only if it means a column, to that column's place in the joined row. */
  lemma ResolveIff(sc: Scope, table: string, name: string)
    ensures
      var o := Resolve(sc, table, name);
      && (o.Ok? ==> exists k: nat, ci: nat :: Means(sc, table, name, k, ci) && o.value == sc[k].basePos + ci)
      && (o.Err? ==> forall k: nat, ci: nat :: !Means(sc, table, name, k, ci))
      && !o.Panic?
  {
    if table != "" { QualifiedMeans(sc, table, name); } else { PlainMeans(sc, name); }
  }

  /** The tables lie side by side in a row of n cells. */
  predicate Covers(sc: Scope, n: nat) {
    forall i :: 0 <= i < |sc| ==> sc[i].basePos + |sc[i].cols| <= n
  }

  lemma {:induction false} QualifiedInRange(sc: Scope, table: string, name: string, n: nat)
    requires Covers(sc, n)
    ensures ResolveQualified(sc, table, name).Ok? ==> ResolveQualified(sc, table, name).value < n
    ensures !ResolveQualified(sc, table, name).Panic?
    decreases |sc|
  {
    if sc != [] && sc[0].alias != table { QualifiedInRange(sc[1..], table, name, n); }
  }

  lemma {:induction false} PositionsInRange(sc: Scope, name: string, n: nat)
    requires Covers(sc, n)
    ensures forall p :: p in Positions(sc, name) ==> p < n
    decreases |sc|
  {
    if sc != [] { PositionsInRange(sc[1..], name, n); }
  }

  /** A resolved column lies inside every row the scope covers. */
  lemma ResolveInRange(sc: Scope, table: string, name: string, n: nat)
    requires Covers(sc, n)
    ensures Resolve(sc, table, name).Ok? ==> Resolve(sc, table, name).value < n
    ensures !Resolve(sc, table, name).Panic?
  {
    QualifiedInRange(sc, table, name, n);
    PositionsInRange(sc, name, n);
    var ps := Positions(sc, name);
    if |ps| == 1 { assert ps[0] in ps; }
  }

  // --- arithmetic ----------------------------------------------------------------------------------

  datatype FloatArith = FloatArith(
    add: (Float, Float) -> Float, sub: (Float, Float) -> Float, mul: (Float, Float) -> Float,
    div: (Float, Float) -> Float, mod: (Float, Float) -> Float)

  type FloatOps = a: FloatArith | true
    witness FloatArith((x, y) => x, (x, y) => x, (x, y) => x, (x, y) => x, (x, y) => x)

  /** Float arithmetic, left arbitrary. */
  const FloatOp: FloatOps

  /** Integer division and remainder truncate toward zero. */
  function TruncDiv(a: int, b: int): int
    requires b != 0
  {
    if (a >= 0) == (b > 0) then (if a >= 0 then a else -a) / (if b > 0 then b else -b)
    else -((if a >= 0 then a else -a) / (if b > 0 then b else -b))
  }

  function TruncMod(a: int, b: int): int
    requires b != 0
  {
    a - b * TruncDiv(a, b)
  }

  predicate IsZero(f: Float) { f == Fin(0) || f == NegZero }

  function Arithmetic(op: ArithOp, l: Value, r: Value): Outcome<Value> {
    if !IsNumeric(l) || !IsNumeric(r) then Err("42883")
    else if (op.Div? || op.Mod?) && IsZero(AsFloat(r)) then Err("22012")
    else if l.VInt? && r.VInt? then
      match op
      case Add => Ok(VInt(Wrap64(l.i + r.i)))
      case Sub => Ok(VInt(Wrap64(l.i - r.i)))
      case Mul => Ok(VInt(Wrap64(l.i * r.i)))
      case Div => if r.i == 0 then Panic else Ok(VInt(Wrap64(TruncDiv(l.i, r.i))))
      case Mod => if r.i == 0 then Panic else Ok(VInt(Wrap64(TruncMod(l.i, r.i))))
    else
      var a, b := AsFloat(l), AsFloat(r);
      Ok(VFloat(match op
                case Add => FloatOp.add(a, b)
                case Sub => FloatOp.sub(a, b)
                case Mul => FloatOp.mul(a, b)
                case Div => FloatOp.div(a, b)
                case Mod => FloatOp.mod(a, b)))
  }

  /** The zero test on floats also protects the integer division. */
  lemma ArithmeticNeverPanics(op: ArithOp, l: Value, r: Value)
    ensures !Arithmetic(op, l, r).Panic?
  {
    SmallIntIsExact(0, if r.VInt? then r.i else 0);
    assert Round(0) == 0;
  }

  lemma WrapCongruent(n: int)
    ensures Congruent(Wrap64(n), n)
  {
  }

  lemma TruncParts(a: int, b: int)
    requires b != 0
    ensures
      var q, r := TruncDiv(a, b), TruncMod(a, b);
      a == b * q + r && -Abs(b) < r < Abs(b) && (a >= 0 ==> r >= 0) && (a <= 0 ==> r <= 0) && -Abs(a) <= q <= Abs(a)
  {
    var m, n := Abs(a), Abs(b);
    var k := m / n;
    QuotientParts(m, n);
    ProductSigns(n, k);
    assert TruncDiv(a, b) == if (a >= 0) == (b > 0) then k else -k;
    assert b * TruncDiv(a, b) == if a >= 0 then n * k else -(n * k);
  }

  lemma QuotientParts(m: int, n: int)
    requires m >= 0 && n > 0
    ensures 0 <= m - n * (m / n) < n && 0 <= m / n <= m
  {
    var k, r := m / n, m % n;
    assert m == n * k + r && 0 <= r < n;
    ProductBounds(n, k);
  }

  lemma ProductBounds(n: int, k: int)
    requires n > 0
    ensures k < 0 ==> n * k <= -n
    ensures k >= 0 ==> n * k >= k
  {
    if k < 0 {
      assert n * (-k - 1) >= 0;
    } else {
      assert (n - 1) * k >= 0;
    }
  }

  lemma ProductSigns(n: int, k: int)
    ensures (-n) * (-k) == n * k && (-n) * k == -(n * k) == n * (-k)
  {
  }

  function Abs(n: int): int { if n >= 0 then n else -n }

  /** Dividing a by b gives quotient q and remainder r. Only MIN / -1 does not fit, and wraps. */
  predicate Divides(a: int64, b: int64, q: int64, r: int64) {
    if a == MIN_INT64 && b == -1 then q == MIN_INT64 && r == 0
    else a == b * q + r && -Abs(b) < r < Abs(b) && (a >= 0 ==> r >= 0) && (a <= 0 ==> r <= 0)
  }

  lemma ValueDivision(a: int64, b: int64) returns (q: int64, r: int64)
    ensures b == 0 ==> Arithmetic(Div, VInt(a), VInt(b)) == Err("22012") == Arithmetic(Mod, VInt(a), VInt(b))
    ensures b != 0 ==>
      && Divides(a, b, q, r)
      && Arithmetic(Div, VInt(a), VInt(b)) == Ok(VInt(q)) && Arithmetic(Mod, VInt(a), VInt(b)) == Ok(VInt(r))
  {
    q, r := 0, 0;
    SmallIntIsExact(0, b);
    assert Round(0) == 0;
    if b != 0 {
      TruncParts(a, b);
      q, r := Wrap64(TruncDiv(a, b)), TruncMod(a, b);
    }
  }

  predicate Congruent(n: int, m: int) { (n - m) % TWO_64 == 0 }

  lemma ValueSums(a: int64, b: int64) returns (sum: int64, diff: int64, product: int64)
    ensures Arithmetic(Add, VInt(a), VInt(b)) == Ok(VInt(sum)) && Congruent(sum, a + b)
    ensures Arithmetic(Sub, VInt(a), VInt(b)) == Ok(VInt(diff)) && Congruent(diff, a - b)
    ensures Arithmetic(Mul, VInt(a), VInt(b)) == Ok(VInt(product)) && Congruent(product, a * b)
  {
    sum, diff, product := Wrap64(a + b), Wrap64(a - b), Wrap64(a * b);
    WrapCongruent(a + b);
    WrapCongruent(a - b);
    WrapCongruent(a * b);
  }

  // --- aggregates ------------------------------------------------------------------------------------

  /** The non-NULL cells of one column, in row order; None if some row is too short. */
  function Cells(rows: seq<Row>, pos: int): Option<seq<Value>> {
    if rows == [] then Some([])
    else if !(0 <= pos < |rows[0]|) then None
    else match Cells(rows[1..], pos)
      case None => None
      case Some(rest) => Some(if rows[0][pos].VNull? then rest else [rows[0][pos]] + rest)
  }

  function SumInts(vs: seq<Value>): int {
    if vs == [] then 0
    else SumInts(vs[..|vs| - 1]) + if vs[|vs| - 1].VInt? then vs[|vs| - 1].i else 0
  }

  /** Floats are added from the left. */
  function SumFloats(vs: seq<Value>): Float {
    if vs == [] then Fin(0)
    else if vs[|vs| - 1].VFloat? then FloatOp.add(SumFloats(vs[..|vs| - 1]), vs[|vs| - 1].f)
    else SumFloats(vs[..|vs| - 1])
  }

  function SumAsFloats(vs: seq<Value>): Float
    requires AllNumeric(vs)
  {
    if vs == [] then Fin(0) else FloatOp.add(SumAsFloats(vs[..|vs| - 1]), AsFloat(vs[|vs| - 1]))
  }

  predicate AllNumeric(vs: seq<Value>) { forall i :: 0 <= i < |vs| ==> IsNumeric(vs[i]) }

  predicate AllInt(vs: seq<Value>) { forall i :: 0 <= i < |vs| ==> vs[i].VInt? }

  /** The first least (or greatest) value in Compare order. */
  function Best(vs: seq<Value>, wantMin: bool): Value
    requires vs != []
  {
    if |vs| == 1 then vs[0]
    else
      var best, v := Best(vs[..|vs| - 1], wantMin), vs[|vs| - 1];
      var c := Compare(v, best);
      if (if wantMin then c < 0 else c > 0) then v else best
  }

  function Aggregate(name: string, star: bool, rows: seq<Row>, pos: int): Outcome<Value> {
    if name == "count" && star then Ok(VInt(Wrap64(|rows|)))
    else if !IsAggregate(name) then Err("42883")
    else match Cells(rows, pos)
      case None => Panic
      case Some(vs) =>
        if name == "count" then Ok(VInt(Wrap64(|vs|)))
        else if name == "min" || name == "max" then
          Ok(if vs == [] then VNull else Best(vs, name == "min"))
        else if !AllNumeric(vs) then Err("42883")
        else if name == "avg" then
          Ok(if Wrap64(|vs|) == 0 then VNull else VFloat(FloatOp.div(SumAsFloats(vs), Fin(Round(Wrap64(|vs|))))))
        else if vs == [] then Ok(VNull)
        else if AllInt(vs) then Ok(VInt(Wrap64(SumInts(vs))))
        else Ok(VFloat(FloatOp.add(Fin(Round(Wrap64(SumInts(vs)))), SumFloats(vs))))
  }

  // --- expressions ---------------------------------------------------------------------------------------

  /** Where an expression is evaluated: the scope, the time of NOW(), and the rows of the current
      group when aggregates are allowed. */
  datatype Ctx = Ctx(sc: Scope, now: int, group: Option<seq<Row>>)

  function EvalValue(c: Ctx, e: Expr, row: Row): Outcome<Value> {
    match e
    case Lit(v) => Ok(v)
    case Col(table, name) =>
      var i :- Resolve(c.sc, table, name);
      if i < |row| then Ok(row[i]) else Panic
    case Func(name, star, arg) =>
      if name == "now" then Ok(VTime(c.now))
      else if !IsAggregate(name) || c.group.None? then Err("42883")
      else if star then Aggregate(name, true, c.group.value, -1)
      else if arg.None? || !arg.value.Col? then Err("42883")
      else
        var p :- Resolve(c.sc, arg.value.table, arg.value.name);
        Aggregate(name, false, c.group.value, p)
    case Binary(op, l, r) =>
      var a :- EvalValue(c, l, row);
      var b :- EvalValue(c, r, row);
      if a.VNull? || b.VNull? then Ok(VNull) else Arithmetic(op, a, b)
    case _ => Err("0A000")
  }

  /** On integers +, - and * are those of the integers modulo 2^64, so exact as long as the result fits. */
  lemma {:induction false} IntegerSums(c: Ctx, l: Expr, r: Expr, row: Row, a: int64, b: int64)
    returns (sum: int64, diff: int64, product: int64)
    requires EvalValue(c, l, row) == Ok(VInt(a)) && EvalValue(c, r, row) == Ok(VInt(b))
    ensures EvalValue(c, Binary(Add, l, r), row) == Ok(VInt(sum)) && Congruent(sum, a + b)
    ensures EvalValue(c, Binary(Sub, l, r), row) == Ok(VInt(diff)) && Congruent(diff, a - b)
    ensures EvalValue(c, Binary(Mul, l, r), row) == Ok(VInt(product)) && Congruent(product, a * b)
  {
    sum, diff, product := ValueSums(a, b);
  }

  /** Division by zero is an error. Otherwise quotient and remainder belong together: the remainder is
      smaller than the divisor and has the sign of the dividend. */
  lemma {:induction false} IntegerDivision(c: Ctx, l: Expr, r: Expr, row: Row, a: int64, b: int64)
    returns (quotient: int64, remainder: int64)
    requires EvalValue(c, l, row) == Ok(VInt(a)) && EvalValue(c, r, row) == Ok(VInt(b))
    ensures b == 0 ==> EvalValue(c, Binary(Div, l, r), row) == Err("22012") == EvalValue(c, Binary(Mod, l, r), row)
    ensures b != 0 ==>
      && Divides(a, b, quotient, remainder)
      && EvalValue(c, Binary(Div, l, r), row) == Ok(VInt(quotient))
      && EvalValue(c, Binary(Mod, l, r), row) == Ok(VInt(remainder))
  {
    quotient, remainder := ValueDivision(a, b);
  }

  /** A truth value as the code carries it: the boolean, and whether it is NULL. */
  datatype Truth = Truth(b: bool, isNull: bool)

  const TRUE := Truth(true, false)
  const FALSE := Truth(false, false)
  const NULL := Truth(false, true)

  function TruthOf(b: bool): Truth { Truth(b, false) }

  function CompareOp(op: CmpOp, c: int): bool {
    match op
    case Eq => c == 0
    case Ne => c != 0
    case Lt => c < 0
    case Le => c <= 0
    case Gt => c > 0
    case Ge => c >= 0
  }

  function EvalCmp(op: CmpOp, l: Value, r: Value): Truth {
    if l.VNull? || r.VNull? then NULL else TruthOf(CompareOp(op, Compare(l, r)))
  }

  /** The scan of an IN list: stops at the first match or at the first non-literal. */
  datatype Membership = Matched | Unmatched(hasNull: bool) | NotLiteral

  function ScanList(v: Value, list: seq<Expr>, hasNull: bool): Membership
    decreases |list|
  {
    if list == [] then Unmatched(hasNull)
    else if !list[0].Lit? then NotLiteral
    else if list[0].v.VNull? then ScanList(v, list[1..], true)
    else if Compare(v, list[0].v) == 0 then Matched
    else ScanList(v, list[1..], hasNull)
  }

  function EvalIn(v: Value, list: seq<Expr>, negated: bool): Outcome<Truth> {
    if v.VNull? then Ok(NULL)
    else match ScanList(v, list, false)
      case NotLiteral => Err("42601")
      case Matched => Ok(TruthOf(!negated))
      case Unmatched(hasNull) => Ok(if hasNull then NULL else TruthOf(negated))
  }

  /** AND and OR share one test for NULL. */
  function EvalAnd(l: Truth, r: Truth): Truth {
    if (l.isNull && !r.b) || (r.isNull && !l.b) then NULL else TruthOf(l.b && r.b)
  }

  function EvalOr(l: Truth, r: Truth): Truth {
    if (l.isNull && !r.b) || (r.isNull && !l.b) then NULL else TruthOf(l.b || r.b)
  }

  function EvalNot(t: Truth): Truth { if t.isNull then NULL else TruthOf(!t.b) }

  /** A value in boolean position. */
  function AsTruth(v: Value): Outcome<Truth> {
    match v
    case VNull => Ok(NULL)
    case VBool(b) => Ok(TruthOf(b))
    case VInt(i) => Ok(TruthOf(i != 0))
    case VFloat(f) => Ok(TruthOf(!IsZero(f)))
    case _ => Err("42883")
  }

  function EvalBool(c: Ctx, e: Expr, row: Row): Outcome<Truth> {
    match e
    case Cmp(op, l, r) =>
      var a :- EvalValue(c, l, row);
      var b :- EvalValue(c, r, row);
      Ok(EvalCmp(op, a, b))
    case IsNull(x, negated) =>
      var v :- EvalValue(c, x, row);
      Ok(TruthOf(v.VNull? != negated))
    case InList(x, list, negated) =>
      var v :- EvalValue(c, x, row);
      EvalIn(v, list, negated)
    case And(l, r) =>
      var a :- EvalBool(c, l, row);
      var b :- EvalBool(c, r, row);
      Ok(EvalAnd(a, b))
    case Or(l, r) =>
      var a :- EvalBool(c, l, row);
      var b :- EvalBool(c, r, row);
      Ok(EvalOr(a, b))
    case Not(x) =>
      var a :- EvalBool(c, x, row);
      Ok(EvalNot(a))
    case Lit(v) =>
      if v.VBool? then Ok(TruthOf(v.b)) else if v.VNull? then Ok(NULL) else Err("42883")
    case Binary(_, _, _) =>
      var v :- EvalValue(c, e, row);
      AsTruth(v)
    case _ => Err("0A000")
  }

  /** The row passes a WHERE, ON or HAVING condition. */
  predicate Accepts(t: Truth) { t.b && !t.isNull }

  // --- loops that append to a result ------------------------------------------------------------------------

  function Prepend<T>(a: seq<T>, o: Outcome<seq<T>>): Outcome<seq<T>> { if o.Ok? then Ok(a + o.value) else o }

  lemma PrependTwice<T>(a: seq<T>, b: seq<T>, o: Outcome<seq<T>>)
    ensures Prepend(a + b, o) == Prepend(a, Prepend(b, o))
    ensures Prepend([], o) == o
  {
    if o.Ok? {
      assert a + b + o.value == a + (b + o.value);
      assert [] + o.value == o.value;
    }
  }
}
