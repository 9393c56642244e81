/** No query runs off the end of a row. */
module QuerySafety {
  import opened Values
  import opened Schema
  import opened Ast
  import opened Eval
  import opened Validate
  import opened Joins
  import opened Ordering
  import G = Grouping
  import V = ThreeValued
  import opened Plans
  import opened Query

  // --- widths ------------------------------------------------------------------------------------------

  predicate AllWidth(rows: seq<Row>, n: nat) { forall i :: 0 <= i < |rows| ==> |rows[i]| == n }

  predicate DbOk(db: Db) {
    forall t, i :: t in db && 0 <= i < |db[t].stored| ==> |db[t].stored[i].row| == |db[t].cols|
  }

  /** The source starts at `from`, and whatever it loads has at least as many cells as it has columns. */
  predicate SourceOk(db: Db, src: Source, from: nat) {
    && src.basePos == from
    && (src.loaded.Some? ==> Wide(src.loaded.value, |src.cols|))
    && (src.loaded.None? && src.name in db && db[src.name].stored != [] ==> |db[src.name].cols| >= |src.cols|)
  }

  /** The sources lie side by side from `from` on. */
  predicate SourcesOk(db: Db, sources: seq<Source>, from: nat)
    decreases |sources|
  {
    sources == [] || (SourceOk(db, sources[0], from) && SourcesOk(db, sources[1..], from + |sources[0].cols|))
  }

  function Width(sources: seq<Source>): nat {
    if sources == [] then 0 else |sources[0].cols| + Width(sources[1..])
  }

  lemma {:induction false} SourceAt(db: Db, sources: seq<Source>, from: nat, i: nat)
    requires SourcesOk(db, sources, from) && i < |sources|
    ensures sources[i].basePos == from + Width(sources[..i])
    ensures sources[i].basePos + |sources[i].cols| == from + Width(sources[..i + 1])
    ensures from + Width(sources[..i + 1]) <= from + Width(sources)
    decreases |sources|
  {
    if i == 0 {
      assert sources[..1] == [sources[0]] && [sources[0]][1..] == [];
    } else {
      SourceAt(db, sources[1..], from + |sources[0].cols|, i - 1);
      assert sources[..i][1..] == sources[1..][..i - 1] && sources[..i + 1][1..] == sources[1..][..i];
    }
  }

  /** A prefix of the scope covers the rows joined so far. */
  lemma PrefixCovers(db: Db, sources: seq<Source>, n: nat)
    requires SourcesOk(db, sources, 0) && n <= |sources|
    ensures Covers(Prefix(ScopeOf(sources), n), Width(sources[..n]))
  {
    var sc := Prefix(ScopeOf(sources), n);
    assert n == |sources| ==> sources[..n] == sources;
    forall i | 0 <= i < |sc| ensures sc[i].basePos + |sc[i].cols| <= Width(sources[..n]) {
      SourceAt(db, sources, 0, i);
      WidthGrows(sources, i + 1, n);
    }
  }

  lemma {:induction false} WidthGrows(sources: seq<Source>, i: nat, n: nat)
    requires i <= n <= |sources|
    ensures Width(sources[..i]) <= Width(sources[..n])
    decreases |sources|
  {
    if i > 0 {
      assert sources[..i][1..] == sources[1..][..i - 1] && sources[..n][1..] == sources[1..][..n - 1];
      WidthGrows(sources[1..], i - 1, n - 1);
    }
  }

  // --- joins ---------------------------------------------------------------------------------------------

  lemma {:induction false} NullsWidth(n: nat)
    ensures |Nulls(n)| == n
  {
    if n > 0 { NullsWidth(n - 1); }
  }

  /** The step's condition is valid over rows of the joined width. */
  predicate StepOk(j: JoinStep, left: nat) {
    ValidateExpr(j.c.sc, j.on).None? && Covers(j.c.sc, left + j.width)
  }

  lemma {:induction false} MatchSafe(j: JoinStep, l: Row, rs: seq<Row>, left: nat)
    requires StepOk(j, left) && |l| >= left && Wide(rs, j.width)
    ensures Settled(MatchRow(j, l, rs))
    ensures MatchRow(j, l, rs).Ok? ==> Wide(MatchRow(j, l, rs).value, left + j.width)
    decreases |rs|
  {
    if rs != [] {
      ValidBoolSettles(j.c, j.on, l + rs[0]);
      MatchSafe(j, l, rs[1..], left);
    }
  }

  lemma {:induction false} JoinSafe(j: JoinStep, ls: seq<Row>, rs: seq<Row>, left: nat)
    requires StepOk(j, left) && Wide(ls, left) && Wide(rs, j.width)
    ensures Settled(JoinRows(j, ls, rs))
    ensures JoinRows(j, ls, rs).Ok? ==> Wide(JoinRows(j, ls, rs).value, left + j.width)
    decreases |ls|
  {
    if ls != [] {
      MatchSafe(j, ls[0], rs, left);
      NullsWidth(j.width);
      JoinSafe(j, ls[1..], rs, left);
    }
  }

  function StepsWidth(steps: seq<JoinStep>): nat {
    if steps == [] then 0 else steps[0].width + StepsWidth(steps[1..])
  }

  predicate ChainOk(steps: seq<JoinStep>, tables: seq<seq<Row>>, left: nat)
    requires |steps| == |tables|
    decreases |steps|
  {
    steps == [] ||
    (StepOk(steps[0], left) && Wide(tables[0], steps[0].width) &&
      ChainOk(steps[1..], tables[1..], left + steps[0].width))
  }

  lemma {:induction false} ChainSafe(steps: seq<JoinStep>, joined: seq<Row>, tables: seq<seq<Row>>, left: nat)
    requires |steps| == |tables| && ChainOk(steps, tables, left) && Wide(joined, left)
    ensures Settled(JoinChain(steps, joined, tables))
    ensures JoinChain(steps, joined, tables).Ok? ==>
            Wide(JoinChain(steps, joined, tables).value, left + StepsWidth(steps))
    decreases |steps|
  {
    if steps != [] {
      JoinSafe(steps[0], joined, tables[0], left);
      if JoinRows(steps[0], joined, tables[0]).Ok? {
        ChainSafe(steps[1..], JoinRows(steps[0], joined, tables[0]).value, tables[1..], left + steps[0].width);
      }
    }
  }

  lemma {:induction false} OnsValid(sc: Scope, on: seq<Expr>, from: nat, i: nat)
    requires from <= i < |on| && ValidateOns(sc, on, from).None?
    ensures ValidateExpr(Prefix(sc, i + 2), on[i]).None?
    decreases |on| - from
  {
    if from < i { OnsValid(sc, on, from + 1, i); }
  }

  lemma {:induction false} LoadWidths(db: Db, sources: seq<Source>, from: nat, i: nat)
    requires DbOk(db) && SourcesOk(db, sources, from) && i < |sources| && LoadAll(db, sources).Ok?
    ensures Wide(LoadAll(db, sources).value[i], |sources[i].cols|)
    decreases |sources|
  {
    if i > 0 { LoadWidths(db, sources[1..], from + |sources[0].cols|, i - 1); }
  }

  lemma {:induction false} LoadNeverPanics(db: Db, sources: seq<Source>)
    ensures Settled(LoadAll(db, sources))
    decreases |sources|
  {
    if sources != [] { LoadNeverPanics(db, sources[1..]); }
  }

  /** Step i is safe over what has been joined before it. */
  lemma StepSafe(db: Db, now: int, s: Select, sources: seq<Source>, i: nat)
    requires DbOk(db) && SourcesOk(db, sources, 0) && LoadAll(db, sources).Ok?
    requires |sources| == |s.on| + 1 == |s.kinds| + 1 && i < |s.on|
    requires ValidateOns(ScopeOf(sources), s.on, 0).None?
    ensures
      var step, left := Steps(ScopeOf(sources), s, now)[i], Width(sources[..i + 1]);
      && StepOk(step, left) && left + step.width == Width(sources[..i + 2])
      && Wide(LoadAll(db, sources).value[i + 1], step.width)
  {
    OnsValid(ScopeOf(sources), s.on, 0, i);
    PrefixCovers(db, sources, i + 2);
    SourceAt(db, sources, 0, i + 1);
    LoadWidths(db, sources, 0, i + 1);
  }

  lemma ChainCons(steps: seq<JoinStep>, tables: seq<seq<Row>>, i: nat, left: nat)
    requires |tables| == |steps| + 1 && i < |steps| && StepOk(steps[i], left) && Wide(tables[i + 1], steps[i].width)
    requires ChainOk(steps[i + 1..], tables[i + 2..], left + steps[i].width)
    ensures ChainOk(steps[i..], tables[i + 1..], left)
    ensures StepsWidth(steps[i..]) == steps[i].width + StepsWidth(steps[i + 1..])
  {
    assert steps[i..][0] == steps[i] && steps[i..][1..] == steps[i + 1..];
    assert tables[i + 1..][0] == tables[i + 1] && tables[i + 1..][1..] == tables[i + 2..];
  }

  /** The remaining steps are safe over what has been joined so far. */
  lemma {:induction false} StepsSafe(db: Db, now: int, s: Select, sources: seq<Source>, i: nat)
    requires DbOk(db) && SourcesOk(db, sources, 0) && LoadAll(db, sources).Ok?
    requires |sources| == |s.on| + 1 == |s.kinds| + 1 && i <= |s.on|
    requires ValidateOns(ScopeOf(sources), s.on, 0).None?
    ensures
      var steps, tables := Steps(ScopeOf(sources), s, now), LoadAll(db, sources).value;
      && ChainOk(steps[i..], tables[i + 1..], Width(sources[..i + 1]))
      && Width(sources[..i + 1]) + StepsWidth(steps[i..]) == Width(sources)
    decreases |s.on| - i
  {
    var steps, tables := Steps(ScopeOf(sources), s, now), LoadAll(db, sources).value;
    if i == |s.on| {
      assert sources[..i + 1] == sources && steps[i..] == [];
    } else {
      StepsSafe(db, now, s, sources, i + 1);
      StepSafe(db, now, s, sources, i);
      ChainCons(steps, tables, i, Width(sources[..i + 1]));
    }
  }

  lemma {:induction false} FilterSafe(c: Ctx, where: Expr, rows: seq<Row>, n: nat)
    requires ValidateExpr(c.sc, where).None? && Covers(c.sc, n) && Wide(rows, n)
    ensures Settled(FilterRows(c, where, rows))
    ensures FilterRows(c, where, rows).Ok? ==> Wide(FilterRows(c, where, rows).value, n)
    decreases |rows|
  {
    if rows != [] {
      ValidBoolSettles(c, where, rows[0]);
      FilterSafe(c, where, rows[1..], n);
    }
  }

  /** The conditions of the query have passed plan-time validation. */
  predicate Validated(sc: Scope, s: Select) {
    ValidateOns(sc, s.on, 0).None? && (s.where.Some? ==> ValidateExpr(sc, s.where.value).None?)
  }

  lemma JoinedSafe(db: Db, now: int, s: Select, sources: seq<Source>)
    requires DbOk(db) && SourcesOk(db, sources, 0) && |sources| == |s.on| + 1 == |s.kinds| + 1
    requires ValidateOns(ScopeOf(sources), s.on, 0).None? && LoadAll(db, sources).Ok?
    ensures
      var tables := LoadAll(db, sources).value;
      var joined := JoinChain(Steps(ScopeOf(sources), s, now), tables[0], tables[1..]);
      Settled(joined) && (joined.Ok? ==> Wide(joined.value, Width(sources)))
  {
    var steps, tables := Steps(ScopeOf(sources), s, now), LoadAll(db, sources).value;
    StepsSafe(db, now, s, sources, 0);
    assert steps[0..] == steps;
    LoadWidths(db, sources, 0, 0);
    assert Width(sources[..1]) == |sources[0].cols| by { assert sources[..1][1..] == []; }
    ChainSafe(steps, tables[0], tables[1..], |sources[0].cols|);
  }

  lemma CollectSafe(db: Db, now: int, s: Select, sources: seq<Source>)
    requires DbOk(db) && SourcesOk(db, sources, 0) && |sources| == |s.on| + 1 == |s.kinds| + 1
    requires Validated(ScopeOf(sources), s)
    ensures Settled(Collect(db, now, s, sources))
    ensures Collect(db, now, s, sources).Ok? ==> Wide(Collect(db, now, s, sources).value, Width(sources))
  {
    LoadNeverPanics(db, sources);
    if LoadAll(db, sources).Ok? {
      var sc := ScopeOf(sources);
      var tables := LoadAll(db, sources).value;
      var joined := JoinChain(Steps(sc, s, now), tables[0], tables[1..]);
      JoinedSafe(db, now, s, sources);
      PrefixCovers(db, sources, |sources|);
      assert sources[..|sources|] == sources;
      if s.where.Some? && joined.Ok? {
        FilterSafe(Ctx(sc, now, None), s.where.value, joined.value, Width(sources));
      }
    }
  }

  lemma {:induction false} LookupFinds(stored: seq<Stored>, ci: nat, v: Value)
    requires Lookup(stored, ci, v).Some?
    ensures Lookup(stored, ci, v).value in stored
    decreases |stored|
  {
    if Lookup(stored, ci, v).value != stored[0] { LookupFinds(stored[1..], ci, v); }
  }

  lemma CandidatesSafe(db: Db, now: int, s: Select, sources: seq<Source>)
    requires DbOk(db) && SourcesOk(db, sources, 0) && |sources| == |s.on| + 1 == |s.kinds| + 1
    requires Validated(ScopeOf(sources), s)
    ensures Settled(Candidates(db, now, s, sources))
    ensures Candidates(db, now, s, sources).Ok? ==> Wide(Candidates(db, now, s, sources).value, Width(sources))
  {
    CollectSafe(db, now, s, sources);
    if |sources| == 1 && sources[0].loaded.None? && UniqueEquality(s.where, sources[0].alias, sources[0].cols).Some? {
      var probe := UniqueEquality(s.where, sources[0].alias, sources[0].cols).value;
      if sources[0].name in db && Lookup(db[sources[0].name].stored, probe.ci, probe.v).Some? {
        var found := Lookup(db[sources[0].name].stored, probe.ci, probe.v).value;
        LookupFinds(db[sources[0].name].stored, probe.ci, probe.v);
        PrefixCovers(db, sources, 1);
        assert sources[..1] == sources;
        ValidBoolSettles(Ctx(ScopeOf(sources), now, None), s.where.value, found.row);
      }
    }
  }

  // --- plans ---------------------------------------------------------------------------------------------

  /** A plan that can be evaluated on every row of n cells. */
  predicate RowPlanOk(sc: Scope, p: FieldPlan, n: nat) {
    match p
    case PCol(pos) => pos < n
    case PExpr(e) => ValidateExpr(sc, e).None?
    case PNow => true
    case PAgg(_, _, _) => false
  }

  /** A plan that can be evaluated on every group, the empty one included. */
  predicate GroupPlanOk(p: FieldPlan, groupPos: set<nat>, n: nat) {
    match p
    case PCol(pos) => pos in groupPos
    case PExpr(e) => e.Lit?
    case PNow => true
    case PAgg(name, star, pos) => IsAggregate(name) && if star then name == "count" else 0 <= pos < n
  }

  predicate PlanOk(sc: Scope, p: FieldPlan, grouping: bool, groupPos: set<nat>, n: nat) {
    if grouping then GroupPlanOk(p, groupPos, n) else RowPlanOk(sc, p, n)
  }

  predicate AllPlansOk(sc: Scope, ps: seq<FieldPlan>, grouping: bool, groupPos: set<nat>, n: nat) {
    forall i :: 0 <= i < |ps| ==> PlanOk(sc, ps[i], grouping, groupPos, n)
  }

  lemma AggregatePlan(sc: Scope, name: string, star: bool, arg: Option<Expr>, n: nat)
    requires Covers(sc, n)
    ensures
      var o := ValidateAggregate(sc, name, star, arg);
      !o.Panic? && (o.Ok? ==> if star then name == "count" else 0 <= o.value < n)
  {
    if !star && arg.Some? && arg.value.Col? { ResolveInRange(sc, arg.value.table, arg.value.name, n); }
  }

  lemma PlanFieldOk(sc: Scope, f: Expr, alias: string, grouping: bool, groupPos: set<nat>, n: nat)
    requires Covers(sc, n)
    ensures
      var o := PlanField(sc, f, alias, grouping, groupPos);
      !o.Panic? && (o.Ok? ==> PlanOk(sc, o.value.plan, grouping, groupPos, n))
  {
    match f
    case Col(table, name) => ResolveInRange(sc, table, name, n);
    case Func(name, star, arg) => AggregatePlan(sc, name, star, arg, n);
    case _ =>
  }

  lemma PlanOrderTermOk(sc: Scope, e: Expr, grouping: bool, groupPos: set<nat>, n: nat)
    requires Covers(sc, n)
    ensures
      var o := PlanOrderTerm(sc, e, grouping, groupPos);
      !o.Panic? && (o.Ok? ==> PlanOk(sc, o.value, grouping, groupPos, n))
  {
    match e
    case Col(table, name) => ResolveInRange(sc, table, name, n);
    case Func(name, star, arg) => AggregatePlan(sc, name, star, arg, n);
    case _ =>
  }

  lemma {:induction false} PlanListOk(
    sc: Scope, fields: seq<Expr>, aliases: seq<string>, grouping: bool, groupPos: set<nat>, n: nat)
    requires Covers(sc, n)
    ensures
      var o := PlanList(sc, fields, aliases, grouping, groupPos);
      !o.Panic? && (o.Ok? ==> AllPlansOk(sc, PlansOf(o.value), grouping, groupPos, n))
    decreases |fields|
  {
    if fields != [] {
      PlanFieldOk(sc, fields[0], if aliases == [] then "" else aliases[0], grouping, groupPos, n);
      PlanListOk(sc, fields[1..], if aliases == [] then [] else aliases[1..], grouping, groupPos, n);
    }
  }

  lemma {:induction false} PlanOrderOk(sc: Scope, terms: seq<OrderTerm>, grouping: bool, groupPos: set<nat>, n: nat)
    requires Covers(sc, n)
    ensures
      var o := PlanOrder(sc, terms, grouping, groupPos);
      !o.Panic? && (o.Ok? ==> |o.value| == |terms| && AllPlansOk(sc, o.value, grouping, groupPos, n))
    decreases |terms|
  {
    if terms != [] {
      PlanOrderTermOk(sc, terms[0].expr, grouping, groupPos, n);
      PlanOrderOk(sc, terms[1..], grouping, groupPos, n);
    }
  }

  lemma {:induction false} TableFieldsOk(sc: Scope, t: JoinTable, k: nat, n: nat)
    requires k <= |t.cols| && t.basePos + |t.cols| <= n
    ensures AllPlansOk(sc, PlansOf(TableFields(sc, t, k)), false, {}, n)
  {
    if k > 0 { TableFieldsOk(sc, t, k - 1, n); }
  }

  lemma {:induction false} StarFieldsOk(sc: Scope, k: nat, n: nat)
    requires k <= |sc| && Covers(sc, n)
    ensures AllPlansOk(sc, PlansOf(StarFields(sc, k)), false, {}, n)
  {
    if k > 0 {
      StarFieldsOk(sc, k - 1, n);
      TableFieldsOk(sc, sc[k - 1], |sc[k - 1].cols|, n);
    }
  }

  lemma {:induction false} GroupPositionsOk(sc: Scope, group: seq<Expr>, n: nat)
    requires Covers(sc, n)
    ensures
      var o := GroupPositions(sc, group);
      !o.Panic? && (o.Ok? ==> forall i :: 0 <= i < |o.value| ==> o.value[i] < n)
    decreases |group|
  {
    if group != [] && group[0].Col? {
      ResolveInRange(sc, group[0].table, group[0].name, n);
      GroupPositionsOk(sc, group[1..], n);
    }
  }

  /** What planning hands to execution. */
  predicate Planned(sc: Scope, s: Select, plan: Plan, n: nat) {
    var groupPos := PosSet(plan.pos);
    && Validated(sc, s)
    && (forall i :: 0 <= i < |plan.pos| ==> plan.pos[i] < n)
    && (s.having.Some? ==> plan.grouping && ValidateHaving(sc, s.having.value, groupPos).None?)
    && AllPlansOk(sc, PlansOf(plan.fields), plan.grouping, groupPos, n)
    && AllPlansOk(sc, plan.order, plan.grouping, groupPos, n)
    && |plan.order| == |s.order|
  }

  lemma PlanFieldsOk(sc: Scope, s: Select, grouping: bool, groupPos: set<nat>, n: nat)
    requires Covers(sc, n)
    ensures
      var o := PlanFields(sc, s, grouping, groupPos);
      !o.Panic? && (o.Ok? ==> AllPlansOk(sc, PlansOf(o.value), grouping, groupPos, n))
  {
    if s.star {
      StarFieldsOk(sc, |sc|, n);
    } else {
      PlanListOk(sc, s.fields, s.aliases, grouping, groupPos, n);
    }
  }

  lemma MakePlanOk(sc: Scope, s: Select, n: nat)
    requires Covers(sc, n)
    ensures !MakePlan(sc, s).Panic?
    ensures MakePlan(sc, s).Ok? ==> Planned(sc, s, MakePlan(sc, s).value, n)
  {
    GroupPositionsOk(sc, s.group, n);
    if GroupPositions(sc, s.group).Ok? {
      var pos := GroupPositions(sc, s.group).value;
      var grouping := pos != [] || HasAggregate(s.fields) || s.having.Some?;
      PlanFieldsOk(sc, s, grouping, PosSet(pos), n);
      PlanOrderOk(sc, s.order, grouping, PosSet(pos), n);
    }
  }

  // --- rows and groups ---------------------------------------------------------------------------------------

  lemma {:induction false} EvalPlansSafe(c: Ctx, ps: seq<FieldPlan>, row: Row, n: nat)
    requires AllPlansOk(c.sc, ps, false, {}, n) && Covers(c.sc, n) && n <= |row|
    ensures Settled(EvalPlans(c, ps, row))
    decreases |ps|
  {
    if ps != [] {
      assert RowPlanOk(c.sc, ps[0], n) by { assert PlanOk(c.sc, ps[0], false, {}, n); }
      if ps[0].PExpr? { ValidValueSettles(c, ps[0].e, row); }
      assert AllPlansOk(c.sc, ps[1..], false, {}, n);
      EvalPlansSafe(c, ps[1..], row, n);
    }
  }

  lemma {:induction false} EvalRowsSafe(c: Ctx, ps: seq<FieldPlan>, rows: seq<Row>, n: nat)
    requires AllPlansOk(c.sc, ps, false, {}, n) && Covers(c.sc, n) && Wide(rows, n)
    ensures Settled(EvalRows(c, ps, rows))
    decreases |rows|
  {
    if rows != [] {
      EvalPlansSafe(c, ps, rows[0], n);
      EvalRowsSafe(c, ps, rows[1..], n);
    }
  }

  lemma NoGroupPositions(sc: Scope, ps: seq<FieldPlan>, groupPos: set<nat>, n: nat)
    requires AllPlansOk(sc, ps, false, groupPos, n)
    ensures AllPlansOk(sc, ps, false, {}, n)
  {
    forall i | 0 <= i < |ps| ensures PlanOk(sc, ps[i], false, {}, n) {
      assert PlanOk(sc, ps[i], false, groupPos, n);
    }
  }

  /** Sorting and cutting keep only items that were there. */
  lemma OrderedItems<T>(xs: seq<T>, keys: seq<Row>, order: seq<FieldPlan>, s: Select)
    requires |keys| == |xs| && forall i :: 0 <= i < |keys| ==> |keys[i]| == |order|
    requires |order| == |s.order|
    ensures
      var o := OrderItems(xs, keys, order, s);
      o.Ok? && forall i :: 0 <= i < |Limited(o.value, s.limit)| ==> Limited(o.value, s.limit)[i] in xs
  {
  }

  lemma RowResultSafe(c: Ctx, s: Select, plan: Plan, rows: seq<Row>, n: nat)
    requires Planned(c.sc, s, plan, n) && !plan.grouping && Covers(c.sc, n) && Wide(rows, n)
    ensures Settled(RowResult(c, s, plan, rows))
  {
    NoGroupPositions(c.sc, plan.order, PosSet(plan.pos), n);
    NoGroupPositions(c.sc, PlansOf(plan.fields), PosSet(plan.pos), n);
    EvalRowsSafe(c, plan.order, rows, n);
    if EvalRows(c, plan.order, rows).Ok? {
      var keys := EvalRows(c, plan.order, rows).value;
      OrderedItems(rows, keys, plan.order, s);
      var out := Limited(OrderItems(rows, keys, plan.order, s).value, s.limit);
      EvalRowsSafe(c, PlansOf(plan.fields), out, n);
    }
  }

  /** A group as execution meets it. */
  predicate GroupOk(g: G.Group, groupPos: set<nat>, n: nat) { Wide(g.rows, n) && Reaches(groupPos, g.repr) }

  predicate AllGroupsOk(gs: seq<G.Group>, groupPos: set<nat>, n: nat) {
    forall i :: 0 <= i < |gs| ==> GroupOk(gs[i], groupPos, n)
  }

  lemma {:induction false} MembersWidth(rows: seq<Row>, pos: seq<nat>, k: string, n: nat)
    requires G.Fits(rows, pos) && Wide(rows, n)
    ensures Wide(G.Members(rows, pos, k), n)
    decreases |rows|
  {
    if rows != [] { MembersWidth(rows[..|rows| - 1], pos, k, n); }
  }

  lemma MakeGroupsSafe(rows: seq<Row>, pos: seq<nat>, n: nat)
    requires Wide(rows, n) && forall i :: 0 <= i < |pos| ==> pos[i] < n
    ensures MakeGroups(rows, pos).Ok? && AllGroupsOk(MakeGroups(rows, pos).value, PosSet(pos), n)
  {
    assert G.Fits(rows, pos);
    var ks := G.GroupKeys(rows, pos);
    forall i | 0 <= i < |ks| ensures GroupOk(G.GroupAt(rows, pos, ks[i]), PosSet(pos), n) {
      MembersWidth(rows, pos, ks[i], n);
      G.DistinctKeys(G.KeysOf(rows, pos));
      assert ks[i] in ks;
      G.MembersNonEmpty(rows, pos, ks[i]);
    }
  }

  lemma {:induction false} KeepGroupsSafe(
    sc: Scope, now: int, having: Expr, gs: seq<G.Group>, groupPos: set<nat>, n: nat)
    requires AllGroupsOk(gs, groupPos, n) && ValidateHaving(sc, having, groupPos).None? && Covers(sc, n)
    ensures Settled(KeepGroups(sc, now, having, gs))
    ensures KeepGroups(sc, now, having, gs).Ok? ==> AllGroupsOk(KeepGroups(sc, now, having, gs).value, groupPos, n)
    decreases |gs|
  {
    if gs != [] {
      assert GroupOk(gs[0], groupPos, n);
      HavingSettles(Ctx(sc, now, Some(gs[0].rows)), having, gs[0].repr, groupPos, n);
      assert AllGroupsOk(gs[1..], groupPos, n);
      KeepGroupsSafe(sc, now, having, gs[1..], groupPos, n);
    }
  }

  lemma EvalGroupPlanSafe(c: Ctx, p: FieldPlan, g: G.Group, groupPos: set<nat>, n: nat)
    requires GroupPlanOk(p, groupPos, n) && GroupOk(g, groupPos, n)
    ensures Settled(EvalGroupPlan(c, p, g))
  {
    if p.PAgg? && !p.star { AggregateSettled(p.name, g.rows, p.argPos, n); }
  }

  lemma {:induction false} EvalGroupPlansSafe(c: Ctx, ps: seq<FieldPlan>, g: G.Group, groupPos: set<nat>, n: nat)
    requires AllPlansOk(c.sc, ps, true, groupPos, n) && GroupOk(g, groupPos, n)
    ensures Settled(EvalGroupPlans(c, ps, g))
    decreases |ps|
  {
    if ps != [] {
      assert PlanOk(c.sc, ps[0], true, groupPos, n);
      EvalGroupPlanSafe(c, ps[0], g, groupPos, n);
      assert AllPlansOk(c.sc, ps[1..], true, groupPos, n);
      EvalGroupPlansSafe(c, ps[1..], g, groupPos, n);
    }
  }

  lemma {:induction false} EvalGroupsSafe(c: Ctx, ps: seq<FieldPlan>, gs: seq<G.Group>, groupPos: set<nat>, n: nat)
    requires AllPlansOk(c.sc, ps, true, groupPos, n) && AllGroupsOk(gs, groupPos, n)
    ensures Settled(EvalGroups(c, ps, gs))
    decreases |gs|
  {
    if gs != [] {
      assert GroupOk(gs[0], groupPos, n);
      EvalGroupPlansSafe(c, ps, gs[0], groupPos, n);
      assert AllGroupsOk(gs[1..], groupPos, n);
      EvalGroupsSafe(c, ps, gs[1..], groupPos, n);
    }
  }

  lemma OrderGroupsSafe(c: Ctx, s: Select, plan: Plan, kept: seq<G.Group>, n: nat)
    requires Planned(c.sc, s, plan, n) && plan.grouping && AllGroupsOk(kept, PosSet(plan.pos), n)
    requires EvalGroups(c, plan.order, kept).Ok?
    ensures
      var sorted := OrderItems(kept, EvalGroups(c, plan.order, kept).value, plan.order, s);
      sorted.Ok? && Settled(EvalGroups(c, PlansOf(plan.fields), Limited(sorted.value, s.limit)))
  {
    var groupPos, keys := PosSet(plan.pos), EvalGroups(c, plan.order, kept).value;
    OrderedItems(kept, keys, plan.order, s);
    var out := Limited(OrderItems(kept, keys, plan.order, s).value, s.limit);
    forall i | 0 <= i < |out| ensures GroupOk(out[i], groupPos, n) {
      var k :| 0 <= k < |kept| && kept[k] == out[i];
      assert GroupOk(kept[k], groupPos, n);
    }
    EvalGroupsSafe(c, PlansOf(plan.fields), out, groupPos, n);
  }

  lemma GroupResultSafe(c: Ctx, s: Select, plan: Plan, rows: seq<Row>, n: nat)
    requires Planned(c.sc, s, plan, n) && plan.grouping && Covers(c.sc, n) && Wide(rows, n)
    ensures Settled(GroupResult(c, s, plan, rows))
  {
    var groupPos := PosSet(plan.pos);
    MakeGroupsSafe(rows, plan.pos, n);
    var all := MakeGroups(rows, plan.pos).value;
    if s.having.Some? { KeepGroupsSafe(c.sc, c.now, s.having.value, all, groupPos, n); }
    var kept := if s.having.Some? then KeepGroups(c.sc, c.now, s.having.value, all) else Ok(all);
    if kept.Ok? {
      EvalGroupsSafe(c, plan.order, kept.value, groupPos, n);
      if EvalGroups(c, plan.order, kept.value).Ok? { OrderGroupsSafe(c, s, plan, kept.value, n); }
    }
  }

  predicate ResultOk(o: Outcome<ResultSet>) {
    !o.Panic? && (o.Ok? ==> AllWidth(o.value.rows, |o.value.headers|))
  }

  lemma ProduceSafe(c: Ctx, s: Select, plan: Plan, rows: seq<Row>, n: nat)
    requires Planned(c.sc, s, plan, n) && Covers(c.sc, n) && Wide(rows, n)
    ensures Settled(Produce(c, s, plan, rows)) && ResultOk(Produce(c, s, plan, rows))
  {
    if plan.grouping {
      GroupResultSafe(c, s, plan, rows, n);
    } else {
      RowResultSafe(c, s, plan, rows, n);
    }
  }

  /** Past planning, a query meets no unknown name and no missing cell, and every result row has one
      cell per header. */
  lemma RunPlanSafe(db: Db, now: int, s: Select, sources: seq<Source>)
    requires DbOk(db) && SourcesOk(db, sources, 0) && |sources| == |s.on| + 1 == |s.kinds| + 1
    ensures ResultOk(RunPlan(db, now, s, sources))
    ensures MakePlan(ScopeOf(sources), s).Ok? ==> Settled(RunPlan(db, now, s, sources))
  {
    var sc, n := ScopeOf(sources), Width(sources);
    assert Covers(sc, n) by {
      PrefixCovers(db, sources, |sources|);
      assert sources[..|sources|] == sources;
    }
    MakePlanOk(sc, s, n);
    if MakePlan(sc, s).Ok? {
      CandidatesSafe(db, now, s, sources);
      var rows := Candidates(db, now, s, sources);
      if rows.Ok? { ProduceSafe(Ctx(sc, now, None), s, MakePlan(sc, s).value, rows.value, n); }
    }
  }

  // --- whole queries -------------------------------------------------------------------------------------------

  /** Every SELECT in FROM and in conditions has one ON and one kind per joined table. */
  predicate ShapedSelect(s: Select)
    decreases s, 1
  {
    && |s.tables| == |s.on| + 1 == |s.kinds| + 1
    && ShapedRefs(s.tables)
    && (s.where.Some? ==> ShapedExpr(s.where.value))
    && (s.having.Some? ==> ShapedExpr(s.having.value))
    && ShapedExprs(s.on)
  }

  predicate ShapedRefs(refs: seq<TableRef>)
    decreases refs, 0
  {
    refs == [] || ((refs[0].sub.Some? ==> ShapedSelect(refs[0].sub.value)) && ShapedRefs(refs[1..]))
  }

  predicate ShapedExprs(es: seq<Expr>)
    decreases es, 0
  {
    es == [] || (ShapedExpr(es[0]) && ShapedExprs(es[1..]))
  }

  predicate ShapedExpr(e: Expr)
    decreases e, 0
  {
    match e
    case InSub(_, sub, _) => ShapedSelect(sub)
    case Cmp(_, l, r) => ShapedExpr(l) && ShapedExpr(r)
    case And(l, r) => ShapedExpr(l) && ShapedExpr(r)
    case Or(l, r) => ShapedExpr(l) && ShapedExpr(r)
    case Binary(_, l, r) => ShapedExpr(l) && ShapedExpr(r)
    case Not(x) => ShapedExpr(x)
    case IsNull(x, _) => ShapedExpr(x)
    case InList(x, _, _) => ShapedExpr(x)
    case _ => true
  }

  /** The derived table has no rows, and its alias is that of a stored table that has some, each with
      fewer cells than the derived table has columns. */
  predicate Shadowed(run: Runner, db: Db, now: int, tr: TableRef) {
    && tr.sub.Some?
    && var o := ExecSelect(run, db, now, tr.sub.value);
       && o.Ok? && o.value.rows == []
       && tr.alias in db && db[tr.alias].stored != [] && |db[tr.alias].cols| < |o.value.headers|
  }

  /** No derived table anywhere in the query is shadowed by a narrower stored one. */
  predicate ClearSelect(run: Runner, db: Db, now: int, s: Select)
    decreases s, 1
  {
    && ClearRefs(run, db, now, s.tables)
    && (s.where.Some? ==> ClearExpr(run, db, now, s.where.value))
    && (s.having.Some? ==> ClearExpr(run, db, now, s.having.value))
    && ClearExprs(run, db, now, s.on)
  }

  predicate ClearRefs(run: Runner, db: Db, now: int, refs: seq<TableRef>)
    decreases refs, 0
  {
    refs == [] ||
    (&& (refs[0].sub.Some? ==> !Shadowed(run, db, now, refs[0]) && ClearSelect(run, db, now, refs[0].sub.value))
     && ClearRefs(run, db, now, refs[1..]))
  }

  predicate ClearExprs(run: Runner, db: Db, now: int, es: seq<Expr>)
    decreases es, 0
  {
    es == [] || (ClearExpr(run, db, now, es[0]) && ClearExprs(run, db, now, es[1..]))
  }

  predicate ClearExpr(run: Runner, db: Db, now: int, e: Expr)
    decreases e, 0
  {
    match e
    case InSub(_, sub, _) => ClearSelect(run, db, now, sub)
    case Cmp(_, l, r) => ClearExpr(run, db, now, l) && ClearExpr(run, db, now, r)
    case And(l, r) => ClearExpr(run, db, now, l) && ClearExpr(run, db, now, r)
    case Or(l, r) => ClearExpr(run, db, now, l) && ClearExpr(run, db, now, r)
    case Binary(_, l, r) => ClearExpr(run, db, now, l) && ClearExpr(run, db, now, r)
    case Not(x) => ClearExpr(run, db, now, x)
    case IsNull(x, _) => ClearExpr(run, db, now, x)
    case InList(x, _, _) => ClearExpr(run, db, now, x)
    case _ => true
  }

  predicate Runnable(db: Db, s: Select, sources: seq<Source>) {
    SourcesOk(db, sources, 0) && |sources| == |s.on| + 1 == |s.kinds| + 1
  }

  ghost predicate RunsSafely(run: Runner, db: Db) {
    forall now, s, sources :: Runnable(db, s, sources) ==> ResultOk(run(db, now, s, sources))
  }

  lemma {:induction false} LitsNeverPanic(rows: seq<Row>)
    requires Wide(rows, 1)
    ensures !ColumnAsLits(rows).Panic?
    decreases |rows|
  {
    if rows != [] { LitsNeverPanic(rows[1..]); }
  }

  lemma {:induction false} ResolveSafe(run: Runner, db: Db, now: int, e: Expr)
    requires RunsSafely(run, db) && ShapedExpr(e) && ClearExpr(run, db, now, e)
    ensures !ResolveIn(run, db, now, e).Panic?
    decreases e, 0
  {
    if e.InSub? {
      SelectSafe(run, db, now, e.sub);
      var o := ExecSelect(run, db, now, e.sub);
      if o.Ok? && |o.value.headers| == 1 { LitsNeverPanic(o.value.rows); }
    } else if e.Cmp? || e.And? || e.Or? || e.Binary? {
      ResolveSafe(run, db, now, e.l);
      ResolveSafe(run, db, now, e.r);
    } else if e.Not? || e.IsNull? || e.InList? {
      ResolveSafe(run, db, now, e.x);
    }
  }

  lemma {:induction false} ResolveAllSafe(run: Runner, db: Db, now: int, es: seq<Expr>)
    requires RunsSafely(run, db) && ShapedExprs(es) && ClearExprs(run, db, now, es)
    ensures !ResolveAll(run, db, now, es).Panic?
    decreases es, 0
  {
    if es != [] {
      ResolveSafe(run, db, now, es[0]);
      ResolveAllSafe(run, db, now, es[1..]);
    }
  }

  lemma {:induction false} OneSourceSafe(run: Runner, db: Db, now: int, tr: TableRef, basePos: nat)
    requires RunsSafely(run, db) && !Shadowed(run, db, now, tr)
    requires tr.sub.Some? ==> ShapedSelect(tr.sub.value) && ClearSelect(run, db, now, tr.sub.value)
    ensures !OneSource(run, db, now, tr, basePos).Panic?
    ensures OneSource(run, db, now, tr, basePos).Ok? ==>
            SourceOk(db, OneSource(run, db, now, tr, basePos).value, basePos)
    decreases tr, 0
  {
    if tr.sub.Some? { SelectSafe(run, db, now, tr.sub.value); }
  }

  predicate BuiltOk(db: Db, o: Outcome<seq<Source>>, n: nat, from: nat) {
    !o.Panic? && (o.Ok? ==> |o.value| == n && SourcesOk(db, o.value, from))
  }

  lemma SourcesCons(db: Db, src: Source, rest: seq<Source>, from: nat)
    requires SourceOk(db, src, from) && SourcesOk(db, rest, from + |src.cols|)
    ensures SourcesOk(db, [src] + rest, from)
  {
    assert ([src] + rest)[1..] == rest;
  }

  lemma {:induction false} BuildSafe(
    run: Runner, db: Db, now: int, refs: seq<TableRef>, seen: set<string>, basePos: nat)
    requires RunsSafely(run, db) && ShapedRefs(refs) && ClearRefs(run, db, now, refs)
    ensures BuiltOk(db, BuildSources(run, db, now, refs, seen, basePos), |refs|, basePos)
    decreases refs, 0
  {
    if refs != [] {
      var tr := refs[0];
      OneSourceSafe(run, db, now, tr, basePos);
      var o := OneSource(run, db, now, tr, basePos);
      if o.Ok? && tr.alias !in seen {
        var rest := BuildSources(run, db, now, refs[1..], seen + {tr.alias}, basePos + |o.value.cols|);
        BuildSafe(run, db, now, refs[1..], seen + {tr.alias}, basePos + |o.value.cols|);
        if rest.Ok? { SourcesCons(db, o.value, rest.value, basePos); }
      }
    }
  }

  lemma {:induction false} SelectSafe(run: Runner, db: Db, now: int, s: Select)
    requires RunsSafely(run, db) && ShapedSelect(s) && ClearSelect(run, db, now, s)
    ensures ResultOk(ExecSelect(run, db, now, s))
    decreases s, 1
  {
    BuildSafe(run, db, now, s.tables, {}, 0);
    if s.where.Some? { ResolveSafe(run, db, now, s.where.value); }
    if s.having.Some? { ResolveSafe(run, db, now, s.having.value); }
    ResolveAllSafe(run, db, now, s.on);
    var sources, where := BuildSources(run, db, now, s.tables, {}, 0), ResolveOpt(run, db, now, s.where);
    var having, on := ResolveOpt(run, db, now, s.having), ResolveAll(run, db, now, s.on);
    if sources.Ok? && where.Ok? && having.Ok? && on.Ok? {
      var t := s.(where := where.value, having := having.value, on := on.value);
      assert ResultOk(run(db, now, t, sources.value));
    }
  }

  /** No SELECT panics, whatever its columns, conditions and nesting, unless an empty derived table in
      it is shadowed by a narrower stored one; and every row of its result has one cell per header. */
  lemma SelectNeverPanics(db: Db, now: int, s: Select)
    requires DbOk(db) && ShapedSelect(s) && ClearSelect(RunPlan, db, now, s)
    ensures ResultOk(Execute(db, now, s))
  {
    forall now, s, sources | Runnable(db, s, sources) ensures ResultOk(RunPlan(db, now, s, sources)) {
      RunPlanSafe(db, now, s, sources);
    }
    SelectSafe(RunPlan, db, now, s);
  }

  // --- derived tables --------------------------------------------------------------------------------------------

  /** A derived table stands for the rows of its SELECT exactly when there are any, or a stored table
      of the same name happens to be empty: a result without rows is forgotten, and the alias is
      looked up among the stored tables instead. */
  lemma DerivedRowsIff(db: Db, alias: string, res: ResultSet, basePos: nat)
    ensures LoadSource(db, DerivedSource(alias, res, basePos)) == Ok(res.rows) <==>
            res.rows != [] || (alias in db && db[alias].stored == [])
  {
    if res.rows == [] && alias in db { assert |RowsOf(db[alias].stored)| == |db[alias].stored|; }
  }

  /** SELECT * FROM one table reference. */
  function StarOf(tr: TableRef): Select { Select([tr], [], [], true, [], [], None, [], None, [], None) }

  predicate AllColumns(ps: seq<FieldPlan>) { forall i :: 0 <= i < |ps| ==> ps[i].PCol? }

  predicate Holds(ps: seq<FieldPlan>, row: Row)
    requires AllColumns(ps)
  {
    forall i :: 0 <= i < |ps| ==> ps[i].pos < |row|
  }

  lemma {:induction false} ColumnsOfRow(c: Ctx, ps: seq<FieldPlan>, row: Row)
    requires AllColumns(ps)
    ensures if Holds(ps, row) then EvalPlans(c, ps, row).Ok? else EvalPlans(c, ps, row).Panic?
    decreases |ps|
  {
    if ps != [] { ColumnsOfRow(c, ps[1..], row); }
  }

  lemma {:induction false} ColumnsOfRows(c: Ctx, ps: seq<FieldPlan>, rows: seq<Row>)
    requires AllColumns(ps)
    ensures EvalRows(c, ps, rows).Panic? <==> exists i :: 0 <= i < |rows| && !Holds(ps, rows[i])
    ensures !EvalRows(c, ps, rows).Err?
    decreases |rows|
  {
    if rows != [] {
      ColumnsOfRow(c, ps, rows[0]);
      ColumnsOfRows(c, ps, rows[1..]);
      assert forall i :: 0 < i < |rows| ==> rows[i] == rows[1..][i - 1];
      assert forall i :: 0 <= i < |rows[1..]| ==> rows[1..][i] == rows[i + 1];
    }
  }

  predicate Numbered(fields: seq<Field>, from: nat) {
    forall i :: 0 <= i < |fields| ==> fields[i].plan == PCol(from + i)
  }

  lemma {:induction false} TableFieldPlans(sc: Scope, t: JoinTable, k: nat)
    requires k <= |t.cols|
    ensures |TableFields(sc, t, k)| == k && Numbered(TableFields(sc, t, k), t.basePos)
  {
    if k > 0 { TableFieldPlans(sc, t, k - 1); }
  }

  lemma NumberedPlans(fields: seq<Field>)
    requires Numbered(fields, 0)
    ensures AllColumns(PlansOf(fields)) && forall i :: 0 <= i < |fields| ==> PlansOf(fields)[i] == PCol(i)
  {
  }

  lemma StarOfOne(sc: Scope)
    requires |sc| == 1
    ensures StarFields(sc, 1) == TableFields(sc, sc[0], |sc[0].cols|)
  {
    var cells := TableFields(sc, sc[0], |sc[0].cols|);
    assert StarFields(sc, 0) == [] && [] + cells == cells;
  }

  lemma StarMakesPlan(sc: Scope, tr: TableRef)
    ensures MakePlan(sc, StarOf(tr)) == Ok(Plan([], false, StarFields(sc, |sc|), []))
  {
  }

  predicate IsStarPlan(plan: Plan, n: nat) {
    plan.order == [] && !plan.grouping && |plan.fields| == n && Numbered(plan.fields, 0)
  }

  lemma StarPlan(src: Source, tr: TableRef)
    requires src.basePos == 0
    ensures
      var o := MakePlan(ScopeOf([src]), StarOf(tr));
      o.Ok? && IsStarPlan(o.value, |src.cols|)
  {
    var sc := ScopeOf([src]);
    StarMakesPlan(sc, tr);
    StarOfOne(sc);
    TableFieldPlans(sc, sc[0], |src.cols|);
  }

  lemma StarRows(db: Db, now: int, src: Source, tr: TableRef)
    ensures Candidates(db, now, StarOf(tr), [src]) == LoadSource(db, src)
  {
    assert [src][1..] == [];
    var o := LoadSource(db, src);
    if o.Ok? {
      assert LoadAll(db, [src][1..]) == Ok([]);
      assert LoadAll(db, [src]) == Ok([o.value] + []);
      assert [o.value] + [] == [o.value] && [o.value][1..] == [];
    }
  }

  lemma {:induction false} NoKeys(c: Ctx, rows: seq<Row>)
    ensures EvalRows(c, [], rows).Ok?
    decreases |rows|
  {
    if rows != [] { NoKeys(c, rows[1..]); }
  }

  lemma StarRunsIff(db: Db, now: int, src: Source, tr: TableRef)
    requires src.basePos == 0
    ensures RunPlan(db, now, StarOf(tr), [src]).Panic? <==>
            && LoadSource(db, src).Ok?
            && exists i :: 0 <= i < |LoadSource(db, src).value| && |LoadSource(db, src).value[i]| < |src.cols|
  {
    StarPlan(src, tr);
    StarRows(db, now, src, tr);
    var plan, c := MakePlan(ScopeOf([src]), StarOf(tr)).value, Ctx(ScopeOf([src]), now, None);
    if LoadSource(db, src).Ok? {
      var rows, ps := LoadSource(db, src).value, PlansOf(plan.fields);
      NumberedPlans(plan.fields);
      NoKeys(c, rows);
      ColumnsOfRows(c, ps, rows);
      forall i | 0 <= i < |rows| ensures Holds(ps, rows[i]) <==> |rows[i]| >= |src.cols| {
        if |rows[i]| < |src.cols| { assert ps[|rows[i]|].pos == |rows[i]|; }
      }
    }
  }

  lemma SingleSource(run: Runner, db: Db, now: int, tr: TableRef)
    ensures
      var o := OneSource(run, db, now, tr, 0);
      BuildSources(run, db, now, [tr], {}, 0) == if o.Ok? then Ok([o.value]) else o.PropagateFailure()
  {
    var o := OneSource(run, db, now, tr, 0);
    assert [tr][1..] == [] && [tr][0] == tr;
    if o.Ok? {
      assert BuildSources(run, db, now, [tr][1..], {} + {tr.alias}, 0 + |o.value.cols|) == Ok([]);
      assert [o.value] + [] == [o.value];
    }
  }

  /** SELECT * over a derived table panics exactly when the inner result is empty and the alias is
      that of a stored table with rows but fewer columns. */
  lemma StarOverDerivedPanicsIff(db: Db, now: int, sub: Select, alias: string)
    requires DbOk(db) && Execute(db, now, sub).Ok? && ResultOk(Execute(db, now, sub))
    ensures
      var tr := TableRef("", alias, Some(sub));
      Execute(db, now, StarOf(tr)).Panic? <==> Shadowed(RunPlan, db, now, tr)
  {
    var res, tr := Execute(db, now, sub).value, TableRef("", alias, Some(sub));
    StarOfRef(RunPlan, db, now, tr);
    StarRunsIff(db, now, DerivedSource(alias, res, 0), tr);
    DerivedTooShort(db, alias, res);
  }

  lemma DerivedTooShort(db: Db, alias: string, res: ResultSet)
    requires DbOk(db) && AllWidth(res.rows, |res.headers|)
    ensures
      var o := LoadSource(db, DerivedSource(alias, res, 0));
      (o.Ok? && exists i :: 0 <= i < |o.value| && |o.value[i]| < |res.headers|) <==>
      res.rows == [] && alias in db && db[alias].stored != [] && |db[alias].cols| < |res.headers|
  {
    if res.rows == [] && alias in db && db[alias].stored != [] {
      var stored := db[alias].stored;
      assert |stored[0].row| == |db[alias].cols| && RowsOf(stored)[0] == stored[0].row;
    }
  }

  lemma StarOfRef(run: Runner, db: Db, now: int, tr: TableRef)
    requires OneSource(run, db, now, tr, 0).Ok?
    ensures ExecSelect(run, db, now, StarOf(tr)) == run(db, now, StarOf(tr), [OneSource(run, db, now, tr, 0).value])
  {
    SingleSource(run, db, now, tr);
    assert ResolveAll(run, db, now, []) == Ok([]);
    assert StarOf(tr).(where := None, having := None, on := []) == StarOf(tr);
  }

  // --- it happens ------------------------------------------------------------------------------------------------

  lemma StarOverNothing(db: Db, now: int, src: Source, tr: TableRef)
    requires src.basePos == 0 && LoadSource(db, src) == Ok([])
    ensures
      var o := RunPlan(db, now, StarOf(tr), [src]);
      o.Ok? && o.value.rows == [] && |o.value.headers| == |src.cols|
  {
    StarPlan(src, tr);
    StarRows(db, now, src, tr);
  }

  /** SELECT * FROM an empty stored table gives its columns and no rows. */
  lemma StarOfEmptyTable(db: Db, now: int, name: string)
    requires name in db && db[name].stored == []
    ensures
      var o := Execute(db, now, StarOf(TableRef(name, name, None)));
      o.Ok? && o.value.rows == [] && |o.value.headers| == |db[name].cols|
  {
    var tr := TableRef(name, name, None);
    StarOfRef(RunPlan, db, now, tr);
    StarOverNothing(db, now, Source(name, name, db[name].cols, 0, None), tr);
  }

  /** SELECT * FROM (SELECT * FROM u) t. */
  function Nested(u: string, t: string): Select { StarOf(TableRef("", t, Some(StarOf(TableRef(u, u, None))))) }

  lemma StarIsShaped(tr: TableRef)
    requires tr.sub.Some? ==> ShapedSelect(tr.sub.value)
    ensures ShapedSelect(StarOf(tr))
  {
    var refs := [tr];
    assert refs[1..] == [];
    assert ShapedRefs(refs[1..]) && ShapedExprs([]);
    assert ShapedRefs(refs);
  }

  lemma NestedIsShaped(u: string, t: string)
    ensures ShapedSelect(Nested(u, t))
  {
    StarIsShaped(TableRef(u, u, None));
    StarIsShaped(TableRef("", t, Some(StarOf(TableRef(u, u, None)))));
  }

  lemma NestedPanics(db: Db, now: int, u: string, t: string)
    requires DbOk(db) && u in db && db[u].stored == [] && t in db && db[t].stored != []
    requires |db[t].cols| < |db[u].cols|
    ensures Execute(db, now, Nested(u, t)).Panic?
  {
    StarOfEmptyTable(db, now, u);
    StarOverDerivedPanicsIff(db, now, StarOf(TableRef(u, u, None)), t);
  }

  const A := Column("a", TInt, false, false, false, false, "", "")
  const B := Column("b", TInt, false, false, false, false, "", "")

  /** Table t(a) with one row, table u(a, b) without any. */
  const TWO_TABLES: Db := map["t" := Relation([A], [Stored(1, [VInt(1)])]), "u" := Relation([A, B], [])]

  /** The nested query panics, although both tables are in order and the inner query runs. */
  lemma ShadowedQueryPanics(now: int)
    ensures DbOk(TWO_TABLES) && ShapedSelect(Nested("u", "t"))
    ensures
      var inner := Execute(TWO_TABLES, now, StarOf(TableRef("u", "u", None)));
      inner.Ok? && inner.value.rows == [] && |inner.value.headers| == 2
    ensures Execute(TWO_TABLES, now, Nested("u", "t")).Panic?
  {
    NestedIsShaped("u", "t");
    StarOfEmptyTable(TWO_TABLES, now, "u");
    NestedPanics(TWO_TABLES, now, "u", "t");
  }

  // --- NULL against a subquery without rows ---------------------------------------------------------------------

  /** Table v(a) without rows. */
  const ONE_EMPTY: Db := map["v" := Relation([A], [])]

  /** NULL NOT IN (SELECT * FROM v). */
  const NULL_NOT_IN := InSub(Lit(VNull), StarOf(TableRef("v", "v", None)), true)

  lemma NoValues(run: Runner, db: Db, now: int, x: Expr, sub: Select, negated: bool)
    requires ExecSelect(run, db, now, sub).Ok?
    requires |ExecSelect(run, db, now, sub).value.headers| == 1 && ExecSelect(run, db, now, sub).value.rows == []
    ensures ResolveIn(run, db, now, InSub(x, sub, negated)) == Ok(InList(x, [], negated))
  {
  }

  /** The subquery runs and leaves an empty list; NULL NOT IN over no values is TRUE in SQL and NULL
      here, so that a WHERE made of it keeps no row. */
  lemma NullNotInNothing(now: int, c: Ctx, row: Row)
    ensures
      var o := ResolveIn(RunPlan, ONE_EMPTY, now, NULL_NOT_IN);
      && o == Ok(InList(Lit(VNull), [], true))
      && EvalBool(c, o.value, row) == Ok(NULL) && V.SqlEval(c, o.value, row) == Ok(V.T)
  {
    StarOfEmptyTable(ONE_EMPTY, now, "v");
    NoValues(RunPlan, ONE_EMPTY, now, Lit(VNull), NULL_NOT_IN.sub, true);
    V.NullAndNoValues(c, row);
  }
}
