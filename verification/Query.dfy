/** SELECT with derived tables and IN-subqueries. */
module Query {
  import opened Values
  import opened Schema
  import opened Ast
  import opened Eval
  import opened Plans

  /** What executes a SELECT over loaded sources, its IN-subqueries already replaced. */
  type Runner = (Db, int, Select, seq<Source>) -> Outcome<ResultSet>

  // --- derived tables and subqueries ------------------------------------------------------------------

  function TypeOf(v: Value): ColumnType {
    match v
    case VInt(_) => TInt
    case VFloat(_) => TFloat
    case VBool(_) => TBool
    case VTime(_) => TTimestamp
    case _ => TText
  }

  /** `derivedDef`: columns named after the result headers, types taken from the first row. */
  function DerivedCols(res: ResultSet): (cols: seq<Column>)
    ensures |cols| == |res.headers|
  {
    seq(|res.headers|, i requires 0 <= i < |res.headers| =>
      Column(res.headers[i],
             if res.rows != [] && i < |res.rows[0]| then TypeOf(res.rows[0][i]) else TText,
             false, false, false, false, "", ""))
  }

  function DerivedSource(alias: string, res: ResultSet, basePos: nat): Source {
    Source(alias, alias, DerivedCols(res), basePos, if res.rows == [] then None else Some(res.rows))
  }

  function OneSource(run: Runner, db: Db, now: int, tr: TableRef, basePos: nat): Outcome<Source>
    decreases tr, 0
  {
    if tr.sub.Some? then
      var res :- ExecSelect(run, db, now, tr.sub.value);
      Ok(DerivedSource(tr.alias, res, basePos))
    else if tr.table in db then Ok(Source(tr.table, tr.alias, db[tr.table].cols, basePos, None))
    else Err("42P01")
  }

  function BuildSources(
    run: Runner, db: Db, now: int, refs: seq<TableRef>, seen: set<string>, basePos: nat): Outcome<seq<Source>>
    decreases refs, 0
  {
    if refs == [] then Ok([])
    else
      var src :- OneSource(run, db, now, refs[0], basePos);
      if refs[0].alias in seen then Err("42703")
      else
        var rest :- BuildSources(run, db, now, refs[1..], seen + {refs[0].alias}, basePos + |src.cols|);
        Ok([src] + rest)
  }

  function ColumnAsLits(rows: seq<Row>): Outcome<seq<Expr>>
    decreases |rows|
  {
    if rows == [] then Ok([])
    else if rows[0] == [] then Panic
    else
      var rest :- ColumnAsLits(rows[1..]);
      Ok([Lit(rows[0][0])] + rest)
  }

  /** The values of a one-column subquery. */
  function Subquery(run: Runner, db: Db, now: int, sub: Select): Outcome<seq<Expr>>
    decreases sub, 2
  {
    var res :- ExecSelect(run, db, now, sub);
    if |res.headers| != 1 then Err("42601") else ColumnAsLits(res.rows)
  }

  /** `resolveInSubqueries`: runs every IN-subquery and puts a literal list in its place. */
  function ResolveIn(run: Runner, db: Db, now: int, e: Expr): Outcome<Expr>
    decreases e, 0
  {
    match e
    case InSub(x, sub, negated) =>
      var lits :- Subquery(run, db, now, sub);
      Ok(InList(x, lits, negated))
    case Cmp(op, l, r) =>
      var a :- ResolveIn(run, db, now, l);
      var b :- ResolveIn(run, db, now, r);
      Ok(Cmp(op, a, b))
    case And(l, r) =>
      var a :- ResolveIn(run, db, now, l);
      var b :- ResolveIn(run, db, now, r);
      Ok(And(a, b))
    case Or(l, r) =>
      var a :- ResolveIn(run, db, now, l);
      var b :- ResolveIn(run, db, now, r);
      Ok(Or(a, b))
    case Not(x) =>
      var a :- ResolveIn(run, db, now, x);
      Ok(Not(a))
    case IsNull(x, negated) =>
      var a :- ResolveIn(run, db, now, x);
      Ok(IsNull(a, negated))
    case Binary(op, l, r) =>
      var a :- ResolveIn(run, db, now, l);
      var b :- ResolveIn(run, db, now, r);
      Ok(Binary(op, a, b))
    case InList(x, list, negated) =>
      var a :- ResolveIn(run, db, now, x);
      Ok(InList(a, list, negated))
    case _ => Ok(e)
  }

  function ResolveOpt(run: Runner, db: Db, now: int, e: Option<Expr>): Outcome<Option<Expr>>
    decreases e, 0
  {
    if e.None? then Ok(None)
    else
      var r :- ResolveIn(run, db, now, e.value);
      Ok(Some(r))
  }

  function ResolveAll(run: Runner, db: Db, now: int, es: seq<Expr>): (r: Outcome<seq<Expr>>)
    ensures r.Ok? ==> |r.value| == |es|
    decreases es, 0
  {
    if es == [] then Ok([])
    else
      var first :- ResolveIn(run, db, now, es[0]);
      var rest :- ResolveAll(run, db, now, es[1..]);
      Ok([first] + rest)
  }

  /** `execSelect`. Subqueries are smaller than the query they stand in, so this terminates. */
  function ExecSelect(run: Runner, db: Db, now: int, s: Select): Outcome<ResultSet>
    decreases s, 1
  {
    var sources :- BuildSources(run, db, now, s.tables, {}, 0);
    var where :- ResolveOpt(run, db, now, s.where);
    var having :- ResolveOpt(run, db, now, s.having);
    var on :- ResolveAll(run, db, now, s.on);
    run(db, now, s.(where := where, having := having, on := on), sources)
  }

  function Execute(db: Db, now: int, s: Select): Outcome<ResultSet> { ExecSelect(RunPlan, db, now, s) }

  // --- direct semantics of IN over a subquery -----------------------------------------------------------------

  /** v IN (values of the subquery), read off the set of values. */
  ghost function MemberOf(v: Value, vs: seq<Expr>, negated: bool): Truth
    requires AllLits(vs)
  {
    if v.VNull? then NULL
    else if exists i :: 0 <= i < |vs| && !vs[i].v.VNull? && Compare(v, vs[i].v) == 0 then TruthOf(!negated)
    else if exists i :: 0 <= i < |vs| && vs[i].v.VNull? then NULL
    else TruthOf(negated)
  }

  ghost function DirectIn(c: Ctx, x: Expr, vs: seq<Expr>, negated: bool, row: Row): Outcome<Truth> {
    var v :- EvalValue(c, x, row);
    if AllLits(vs) then Ok(MemberOf(v, vs, negated)) else Err("42601")
  }

  /** Evaluation that meets each IN-subquery where it stands, on the subquery's own result. */
  ghost function EvalDirect(run: Runner, db: Db, now: int, c: Ctx, e: Expr, row: Row): Outcome<Truth> {
    match e
    case InSub(x, sub, negated) =>
      var lits :- Subquery(run, db, now, sub);
      DirectIn(c, x, lits, negated, row)
    case And(l, r) =>
      var a :- EvalDirect(run, db, now, c, l, row);
      var b :- EvalDirect(run, db, now, c, r, row);
      Ok(EvalAnd(a, b))
    case Or(l, r) =>
      var a :- EvalDirect(run, db, now, c, l, row);
      var b :- EvalDirect(run, db, now, c, r, row);
      Ok(EvalOr(a, b))
    case Not(x) =>
      var a :- EvalDirect(run, db, now, c, x, row);
      Ok(EvalNot(a))
    case _ => EvalBool(c, e, row)
  }

  lemma {:induction false} LitsAreLits(rows: seq<Row>)
    requires ColumnAsLits(rows).Ok?
    ensures AllLits(ColumnAsLits(rows).value) && |ColumnAsLits(rows).value| == |rows|
    ensures forall i :: 0 <= i < |rows| ==> rows[i] != [] && ColumnAsLits(rows).value[i] == Lit(rows[i][0])
    decreases |rows|
  {
    if rows != [] { LitsAreLits(rows[1..]); }
  }

  lemma {:induction false} ScanIsMembership(v: Value, vs: seq<Expr>, hasNull: bool)
    requires AllLits(vs) && !v.VNull?
    ensures
      var hit := exists i :: 0 <= i < |vs| && !vs[i].v.VNull? && Compare(v, vs[i].v) == 0;
      var nul := exists i :: 0 <= i < |vs| && vs[i].v.VNull?;
      ScanList(v, vs, hasNull) == if hit then Matched else Unmatched(hasNull || nul)
    decreases |vs|
  {
    if vs != [] {
      ScanIsMembership(v, vs[1..], hasNull || vs[0].v.VNull?);
      ShiftHit(v, vs);
    }
  }

  lemma ShiftHit(v: Value, vs: seq<Expr>)
    requires AllLits(vs) && vs != []
    ensures (exists i :: 0 <= i < |vs| && !vs[i].v.VNull? && Compare(v, vs[i].v) == 0) <==>
            (!vs[0].v.VNull? && Compare(v, vs[0].v) == 0) ||
            (exists i :: 0 <= i < |vs[1..]| && !vs[1..][i].v.VNull? && Compare(v, vs[1..][i].v) == 0)
    ensures (exists i :: 0 <= i < |vs| && vs[i].v.VNull?) <==>
            vs[0].v.VNull? || (exists i :: 0 <= i < |vs[1..]| && vs[1..][i].v.VNull?)
  {
    assert forall i :: 0 <= i < |vs[1..]| ==> vs[1..][i] == vs[i + 1];
    assert forall i :: 0 < i < |vs| ==> vs[i] == vs[1..][i - 1];
  }

  lemma InListIsMembership(v: Value, vs: seq<Expr>, negated: bool)
    requires AllLits(vs)
    ensures EvalIn(v, vs, negated) == Ok(MemberOf(v, vs, negated))
  {
    if !v.VNull? { ScanIsMembership(v, vs, false); }
  }

  /** Rewriting never changes what an expression is worth as a value. */
  lemma {:induction false} ResolveKeepsValue(run: Runner, db: Db, now: int, c: Ctx, e: Expr, row: Row)
    requires ResolveIn(run, db, now, e).Ok?
    ensures EvalValue(c, ResolveIn(run, db, now, e).value, row) == EvalValue(c, e, row)
  {
    match e
    case Binary(op, l, r) =>
      ResolveKeepsValue(run, db, now, c, l, row);
      ResolveKeepsValue(run, db, now, c, r, row);
    case _ =>
  }

  lemma RewriteLeaf(run: Runner, db: Db, now: int, c: Ctx, e: Expr, row: Row)
    requires ResolveIn(run, db, now, e).Ok? && (e.Cmp? || e.IsNull? || e.InList? || e.Binary?)
    ensures EvalBool(c, ResolveIn(run, db, now, e).value, row) == EvalBool(c, e, row)
  {
    match e
    case Cmp(_, l, r) => ResolveKeepsValue(run, db, now, c, l, row); ResolveKeepsValue(run, db, now, c, r, row);
    case IsNull(x, _) => ResolveKeepsValue(run, db, now, c, x, row);
    case InList(x, _, _) => ResolveKeepsValue(run, db, now, c, x, row);
    case _ => ResolveKeepsValue(run, db, now, c, e, row);
  }

  lemma InListIsDirect(c: Ctx, x: Expr, vs: seq<Expr>, negated: bool, row: Row)
    requires AllLits(vs)
    ensures EvalBool(c, InList(x, vs, negated), row) == DirectIn(c, x, vs, negated, row)
  {
    if EvalValue(c, x, row).Ok? { InListIsMembership(EvalValue(c, x, row).value, vs, negated); }
  }

  /** A subquery stands for the cells of its one column, row by row. */
  lemma SubqueryGivesLits(run: Runner, db: Db, now: int, sub: Select)
    requires Subquery(run, db, now, sub).Ok?
    ensures AllLits(Subquery(run, db, now, sub).value) && ExecSelect(run, db, now, sub).Ok?
    ensures
      var lits, res := Subquery(run, db, now, sub).value, ExecSelect(run, db, now, sub).value;
      && |res.headers| == 1 && |lits| == |res.rows|
      && forall i :: 0 <= i < |lits| ==> res.rows[i] != [] && lits[i] == Lit(res.rows[i][0])
  {
    LitsAreLits(ExecSelect(run, db, now, sub).value.rows);
  }

  lemma RewriteSubquery(run: Runner, db: Db, now: int, c: Ctx, e: Expr, row: Row)
    requires e.InSub? && Subquery(run, db, now, e.sub).Ok?
    ensures EvalBool(c, ResolveIn(run, db, now, e).value, row) == EvalDirect(run, db, now, c, e, row)
  {
    SubqueryGivesLits(run, db, now, e.sub);
    InListIsDirect(c, e.x, Subquery(run, db, now, e.sub).value, e.negated, row);
  }

  /** If every subquery succeeds, the rewritten condition gives on every row the same truth value,
      NULL or error as the direct semantics of the original. */
  lemma {:induction false} RewriteIsDirect(run: Runner, db: Db, now: int, c: Ctx, e: Expr, row: Row)
    requires ResolveIn(run, db, now, e).Ok?
    ensures EvalBool(c, ResolveIn(run, db, now, e).value, row) == EvalDirect(run, db, now, c, e, row)
  {
    if e.InSub? {
      RewriteSubquery(run, db, now, c, e, row);
    } else if e.And? || e.Or? {
      RewriteIsDirect(run, db, now, c, e.l, row);
      RewriteIsDirect(run, db, now, c, e.r, row);
    } else if e.Not? {
      RewriteIsDirect(run, db, now, c, e.x, row);
    } else if e.Cmp? || e.IsNull? || e.InList? || e.Binary? {
      RewriteLeaf(run, db, now, c, e, row);
    }
  }

  /** Condition a, on every row, is worth what b is worth with its subqueries met where they stand. */
  ghost predicate StandsFor(run: Runner, db: Db, now: int, a: Expr, b: Expr) {
    forall c: Ctx, row: Row :: EvalBool(c, a, row) == EvalDirect(run, db, now, c, b, row)
  }

  ghost predicate OptStandsFor(run: Runner, db: Db, now: int, a: Option<Expr>, b: Option<Expr>) {
    a.Some? == b.Some? && (a.Some? ==> StandsFor(run, db, now, a.value, b.value))
  }

  lemma {:induction false} ResolvedAll(run: Runner, db: Db, now: int, es: seq<Expr>)
    requires ResolveAll(run, db, now, es).Ok?
    ensures
      var out := ResolveAll(run, db, now, es).value;
      forall i :: 0 <= i < |es| ==> StandsFor(run, db, now, out[i], es[i])
    decreases es
  {
    if es != [] {
      forall c, row { RewriteIsDirect(run, db, now, c, es[0], row); }
      ResolvedAll(run, db, now, es[1..]);
    }
  }

  /** A query that succeeds is run with its WHERE, HAVING and ON conditions in their places, each worth on
      every row what the original is worth, and with nothing else changed. */
  lemma SelectIsRewritten(run: Runner, db: Db, now: int, s: Select) returns (s': Select, sources: seq<Source>)
    requires ExecSelect(run, db, now, s).Ok?
    ensures BuildSources(run, db, now, s.tables, {}, 0) == Ok(sources)
    ensures ExecSelect(run, db, now, s) == run(db, now, s', sources)
    ensures s' == s.(where := s'.where, having := s'.having, on := s'.on)
    ensures OptStandsFor(run, db, now, s'.where, s.where) && OptStandsFor(run, db, now, s'.having, s.having)
    ensures |s'.on| == |s.on| && forall i :: 0 <= i < |s.on| ==> StandsFor(run, db, now, s'.on[i], s.on[i])
  {
    sources := BuildSources(run, db, now, s.tables, {}, 0).value;
    var where, having := ResolveOpt(run, db, now, s.where).value, ResolveOpt(run, db, now, s.having).value;
    var on := ResolveAll(run, db, now, s.on).value;
    s' := s.(where := where, having := having, on := on);
    if s.where.Some? { forall c, row { RewriteIsDirect(run, db, now, c, s.where.value, row); } }
    if s.having.Some? { forall c, row { RewriteIsDirect(run, db, now, c, s.having.value, row); } }
    ResolvedAll(run, db, now, s.on);
  }

  /** A source stands for its FROM entry: a stored table with its columns, or a derived table with a column
      for each header of its query and the query's rows, unless there are none. */
  ghost predicate IsSourceOf(run: Runner, db: Db, now: int, tr: TableRef, src: Source) {
    && src.alias == tr.alias
    && if tr.sub.None? then tr.table in db && src.name == tr.table && src.cols == db[tr.table].cols && src.loaded.None?
       else
         var res := ExecSelect(run, db, now, tr.sub.value);
         && res.Ok? && |src.cols| == |res.value.headers|
         && (forall i :: 0 <= i < |src.cols| ==> src.cols[i].name == res.value.headers[i])
         && src.loaded == if res.value.rows == [] then None else Some(res.value.rows)
  }

  /** The sources stand for the FROM entries one by one, side by side, under different aliases. */
  ghost predicate AreSources(
    stands: (TableRef, Source) -> bool, refs: seq<TableRef>, seen: set<string>, basePos: nat, sources: seq<Source>)
  {
    && |sources| == |refs|
    && (forall i :: 0 <= i < |refs| ==> stands(refs[i], sources[i]) && refs[i].alias !in seen)
    && (forall i, j :: 0 <= i < j < |refs| ==> refs[i].alias != refs[j].alias)
    && (sources != [] ==> sources[0].basePos == basePos)
    && (forall i :: 0 <= i && i + 1 < |sources| ==> sources[i + 1].basePos == sources[i].basePos + |sources[i].cols|)
  }

  lemma SourcesCons(
    stands: (TableRef, Source) -> bool, refs: seq<TableRef>, seen: set<string>, basePos: nat, src: Source,
    rest: seq<Source>)
    requires refs != [] && stands(refs[0], src) && src.basePos == basePos && refs[0].alias !in seen
    requires AreSources(stands, refs[1..], seen + {refs[0].alias}, basePos + |src.cols|, rest)
    ensures AreSources(stands, refs, seen, basePos, [src] + rest)
  {
    var sources := [src] + rest;
    forall i | 0 < i < |refs| ensures refs[i] == refs[1..][i - 1] && sources[i] == rest[i - 1] { }
    forall i | 0 <= i && i + 1 < |sources|
      ensures sources[i + 1].basePos == sources[i].basePos + |sources[i].cols|
    {
      assert sources[i + 1] == rest[i];
      if i > 0 {
        var k := i - 1;
        assert sources[i] == rest[k] && rest[k + 1].basePos == rest[k].basePos + |rest[k].cols|;
      }
    }
  }

  lemma {:induction false} SourcesMeaning(
    run: Runner, db: Db, now: int, refs: seq<TableRef>, seen: set<string>, basePos: nat)
    requires BuildSources(run, db, now, refs, seen, basePos).Ok?
    ensures AreSources((tr, src) => IsSourceOf(run, db, now, tr, src), refs, seen, basePos,
                       BuildSources(run, db, now, refs, seen, basePos).value)
    decreases refs
  {
    if refs != [] {
      var src := OneSource(run, db, now, refs[0], basePos).value;
      SourceMeaning(run, db, now, refs[0], basePos);
      SourcesMeaning(run, db, now, refs[1..], seen + {refs[0].alias}, basePos + |src.cols|);
      SourcesCons((tr, src) => IsSourceOf(run, db, now, tr, src), refs, seen, basePos, src,
        BuildSources(run, db, now, refs[1..], seen + {refs[0].alias}, basePos + |src.cols|).value);
    }
  }

  lemma {:induction false} SourceMeaning(run: Runner, db: Db, now: int, tr: TableRef, basePos: nat)
    requires OneSource(run, db, now, tr, basePos).Ok?
    ensures
      var src := OneSource(run, db, now, tr, basePos).value;
      IsSourceOf(run, db, now, tr, src) && src.basePos == basePos
  {
  }
}
