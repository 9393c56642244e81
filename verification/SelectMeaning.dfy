/** What a SELECT returns, stated with the expression evaluator alone: planning changes nothing. */
module SelectMeaning {
  import opened Values
  import opened Schema
  import opened Ast
  import opened Eval
  import opened Ordering
  import G = Grouping
  import opened Plans
  import S = QuerySafety

  // --- planned expressions ------------------------------------------------------------------------------

  /** A planned field of a row is worth what its expression is worth. */
  lemma PlannedField(sc: Scope, f: Expr, alias: string, groupPos: set<nat>, now: int, row: Row)
    requires PlanField(sc, f, alias, false, groupPos).Ok?
    ensures
      var c := Ctx(sc, now, None);
      EvalPlan(c, PlanField(sc, f, alias, false, groupPos).value.plan, row) == EvalValue(c, f, row)
  {
  }

  /** A planned field of a group is worth what its expression is worth over the group, as HAVING would
      evaluate it: aggregates over all rows, GROUP BY columns on the representative row. */
  lemma PlannedGroupField(sc: Scope, f: Expr, alias: string, groupPos: set<nat>, now: int, g: G.Group)
    requires PlanField(sc, f, alias, true, groupPos).Ok?
    ensures
      EvalGroupPlan(Ctx(sc, now, None), PlanField(sc, f, alias, true, groupPos).value.plan, g) ==
      EvalValue(Ctx(sc, now, Some(g.rows)), f, g.repr)
  {
    if f.Func? && f.star { StarIsCount(f.fname, g.rows); }
  }

  lemma StarIsCount(name: string, rows: seq<Row>)
    ensures name == "count" ==> forall pos :: Aggregate(name, true, rows, pos) == Ok(VInt(Wrap64(|rows|)))
  {
  }

  lemma PlannedOrderTerm(sc: Scope, e: Expr, groupPos: set<nat>, now: int, row: Row)
    requires PlanOrderTerm(sc, e, false, groupPos).Ok?
    ensures
      var c := Ctx(sc, now, None);
      EvalPlan(c, PlanOrderTerm(sc, e, false, groupPos).value, row) == EvalValue(c, e, row)
  {
  }

  lemma PlannedGroupTerm(sc: Scope, e: Expr, groupPos: set<nat>, now: int, g: G.Group)
    requires PlanOrderTerm(sc, e, true, groupPos).Ok?
    ensures
      EvalGroupPlan(Ctx(sc, now, None), PlanOrderTerm(sc, e, true, groupPos).value, g) ==
      EvalValue(Ctx(sc, now, Some(g.rows)), e, g.repr)
  {
    if e.Func? && e.star { StarIsCount(e.fname, g.rows); }
  }

  // --- lists of plans ---------------------------------------------------------------------------------------

  lemma {:induction false} PlanListAt(
    sc: Scope, fields: seq<Expr>, aliases: seq<string>, grouping: bool, groupPos: set<nat>, i: nat)
    requires PlanList(sc, fields, aliases, grouping, groupPos).Ok? && i < |fields|
    ensures
      var plans := PlanList(sc, fields, aliases, grouping, groupPos).value;
      && |plans| == |fields|
      && exists alias :: PlanField(sc, fields[i], alias, grouping, groupPos) == Ok(plans[i])
    decreases |fields|
  {
    var alias := if aliases == [] then "" else aliases[0];
    assert PlanField(sc, fields[0], alias, grouping, groupPos) ==
      Ok(PlanList(sc, fields, aliases, grouping, groupPos).value[0]);
    if i > 0 {
      PlanListAt(sc, fields[1..], if aliases == [] then [] else aliases[1..], grouping, groupPos, i - 1);
    } else if |fields| > 1 {
      PlanListAt(sc, fields[1..], if aliases == [] then [] else aliases[1..], grouping, groupPos, 0);
    }
  }

  lemma {:induction false} PlanOrderAt(sc: Scope, terms: seq<OrderTerm>, grouping: bool, groupPos: set<nat>, i: nat)
    requires PlanOrder(sc, terms, grouping, groupPos).Ok? && i < |terms|
    ensures
      var plans := PlanOrder(sc, terms, grouping, groupPos).value;
      |plans| == |terms| && PlanOrderTerm(sc, terms[i].expr, grouping, groupPos) == Ok(plans[i])
    decreases |terms|
  {
    if i > 0 {
      PlanOrderAt(sc, terms[1..], grouping, groupPos, i - 1);
    } else if |terms| > 1 {
      PlanOrderAt(sc, terms[1..], grouping, groupPos, 0);
    }
  }

  lemma {:induction false} PlansAt(c: Ctx, ps: seq<FieldPlan>, row: Row, f: nat)
    requires EvalPlans(c, ps, row).Ok? && f < |ps|
    ensures EvalPlan(c, ps[f], row) == Ok(EvalPlans(c, ps, row).value[f])
    decreases |ps|
  {
    if f > 0 { PlansAt(c, ps[1..], row, f - 1); }
  }

  lemma {:induction false} RowsAt(c: Ctx, ps: seq<FieldPlan>, rows: seq<Row>, k: nat, f: nat)
    requires EvalRows(c, ps, rows).Ok? && k < |rows| && f < |ps|
    ensures EvalPlan(c, ps[f], rows[k]) == Ok(EvalRows(c, ps, rows).value[k][f])
    decreases |rows|
  {
    if k == 0 { PlansAt(c, ps, rows[0], f); } else { RowsAt(c, ps, rows[1..], k - 1, f); }
  }

  lemma {:induction false} GroupPlansAt(c: Ctx, ps: seq<FieldPlan>, g: G.Group, f: nat)
    requires EvalGroupPlans(c, ps, g).Ok? && f < |ps|
    ensures EvalGroupPlan(c, ps[f], g) == Ok(EvalGroupPlans(c, ps, g).value[f])
    decreases |ps|
  {
    if f > 0 { GroupPlansAt(c, ps[1..], g, f - 1); }
  }

  lemma {:induction false} GroupsAt(c: Ctx, ps: seq<FieldPlan>, gs: seq<G.Group>, k: nat, f: nat)
    requires EvalGroups(c, ps, gs).Ok? && k < |gs| && f < |ps|
    ensures EvalGroupPlan(c, ps[f], gs[k]) == Ok(EvalGroups(c, ps, gs).value[k][f])
    decreases |gs|
  {
    if k == 0 { GroupPlansAt(c, ps, gs[0], f); } else { GroupsAt(c, ps, gs[1..], k - 1, f); }
  }

  // --- arranged items ------------------------------------------------------------------------------------------

  /** One key for each ORDER BY term and item. */
  predicate KeysFit(keys: seq<Row>, terms: seq<OrderTerm>) {
    forall i :: 0 <= i < |keys| ==> |keys[i]| == |terms|
  }

  predicate NoNaNKeys(keys: seq<Row>) { forall i :: 0 <= i < |keys| ==> NaNFree(keys[i]) }

  /** Item i belongs before item j: at the first ORDER BY term whose values differ, its value is the
      smaller one, or the larger one under DESC; without such a term it was found first. */
  ghost predicate ComesBefore(keys: seq<Row>, terms: seq<OrderTerm>, i: nat, j: nat)
    requires i < |keys| && j < |keys| && KeysFit(keys, terms)
  {
    && (forall k: nat :: FirstDifference(keys[i], keys[j], k) ==>
          if terms[k].desc then Compare(keys[i][k], keys[j][k]) > 0 else Compare(keys[i][k], keys[j][k]) < 0)
    && ((forall k: nat :: !FirstDifference(keys[i], keys[j], k)) ==> i < j)
  }

  /** The items in the order of the result: each of them once, and, if no key is NaN, in that order. */
  ghost predicate Arranged(order: seq<nat>, keys: seq<Row>, terms: seq<OrderTerm>)
    requires KeysFit(keys, terms)
  {
    && |order| == |keys| && (forall k :: 0 <= k < |order| ==> order[k] < |keys|)
    && (forall i: nat :: i < |keys| ==> i in order)
    && (NoNaNKeys(keys) ==> forall x, y :: 0 <= x < y < |order| ==> ComesBefore(keys, terms, order[x], order[y]))
  }

  lemma SortedIsArranged(keys: seq<Row>, terms: seq<OrderTerm>)
    requires KeysFit(keys, terms)
    ensures Arranged(StableOrder(keys, Descending(terms), |keys|), keys, terms)
  {
    var desc := Descending(terms);
    var order := StableOrder(keys, desc, |keys|);
    StableOrderRanks(keys, desc);
    if NoNaNKeys(keys) {
      forall x, y | 0 <= x < y < |order| ensures ComesBefore(keys, terms, order[x], order[y]) {
        assert RanksBefore(keys, desc, order[x], order[y]);
      }
    }
  }

  lemma ArrangedItems<T>(xs: seq<T>, keys: seq<Row>, order: seq<FieldPlan>, s: Select) returns (arranged: seq<nat>)
    requires |keys| == |xs| && |order| == |s.order| && forall i :: 0 <= i < |keys| ==> |keys[i]| == |order|
    ensures Arranged(arranged, keys, s.order)
    ensures
      var o := OrderItems(xs, keys, order, s);
      && o.Ok? && |o.value| == |arranged| == |xs|
      && forall k :: 0 <= k < |xs| ==> o.value[k] == xs[arranged[k]]
  {
    if s.order == [] {
      arranged := seq(|xs|, i => i);
      forall i: nat | i < |xs| ensures i in arranged { assert arranged[i] == i; }
    } else {
      arranged := StableOrder(keys, Descending(s.order), |keys|);
      SortedIsArranged(keys, s.order);
    }
  }

  lemma {:induction false} GroupPositionsAt(sc: Scope, group: seq<Expr>)
    requires GroupPositions(sc, group).Ok?
    ensures
      var pos := GroupPositions(sc, group).value;
      && |pos| == |group|
      && forall i :: 0 <= i < |group| ==> group[i].Col? && Resolve(sc, group[i].table, group[i].name) == Ok(pos[i])
    decreases |group|
  {
    if group != [] { GroupPositionsAt(sc, group[1..]); }
  }

  /** A query is grouped by the columns of GROUP BY, in their places; it is grouped at all exactly if there
      are some, an aggregate among the fields, or HAVING. */
  lemma PlanGroups(sc: Scope, s: Select, plan: Plan)
    requires MakePlan(sc, s) == Ok(plan)
    ensures |plan.pos| == |s.group|
    ensures forall i :: 0 <= i < |s.group| ==>
      s.group[i].Col? && Resolve(sc, s.group[i].table, s.group[i].name) == Ok(plan.pos[i])
    ensures plan.grouping <==>
      || s.group != [] || s.having.Some?
      || exists i :: 0 <= i < |s.fields| && s.fields[i].Func? && IsAggregate(s.fields[i].fname)
  {
    GroupPositionsAt(sc, s.group);
  }

  // --- queries without groups -------------------------------------------------------------------------------------

  lemma PlannedFieldAt(sc: Scope, s: Select, plan: Plan, now: int, row: Row, f: nat)
    requires MakePlan(sc, s) == Ok(plan) && !plan.grouping && !s.star && f < |s.fields|
    ensures |plan.fields| == |s.fields|
    ensures EvalPlan(Ctx(sc, now, None), PlansOf(plan.fields)[f], row) ==
            EvalValue(Ctx(sc, now, None), s.fields[f], row)
  {
    var groupPos := PosSet(plan.pos);
    PlanListAt(sc, s.fields, s.aliases, false, groupPos, f);
    var alias :| PlanField(sc, s.fields[f], alias, false, groupPos) == Ok(plan.fields[f]);
    PlannedField(sc, s.fields[f], alias, groupPos, now, row);
  }

  lemma PlannedKeyAt(sc: Scope, s: Select, plan: Plan, now: int, row: Row, j: nat)
    requires MakePlan(sc, s) == Ok(plan) && !plan.grouping && j < |s.order|
    ensures |plan.order| == |s.order|
    ensures EvalPlan(Ctx(sc, now, None), plan.order[j], row) == EvalValue(Ctx(sc, now, None), s.order[j].expr, row)
  {
    PlanOrderAt(sc, s.order, false, PosSet(plan.pos), j);
    PlannedOrderTerm(sc, s.order[j].expr, PosSet(plan.pos), now, row);
  }

  lemma PlanOrderLength(sc: Scope, s: Select, plan: Plan)
    requires MakePlan(sc, s) == Ok(plan)
    ensures |plan.order| == |s.order|
  {
  }

  lemma PlanFieldsLength(sc: Scope, s: Select, plan: Plan)
    requires MakePlan(sc, s) == Ok(plan) && !s.star
    ensures |plan.fields| == |s.fields|
  {
    if s.fields != [] { PlanListAt(sc, s.fields, s.aliases, plan.grouping, PosSet(plan.pos), 0); }
  }

  /** The cells are the values of the expressions on the row. */
  ghost predicate AreValues(c: Ctx, es: seq<Expr>, row: Row, cells: Row) {
    |cells| == |es| && forall f :: 0 <= f < |es| ==> EvalValue(c, es[f], row) == Ok(cells[f])
  }

  /** The results are the values of the select expressions on the rows. */
  ghost predicate AreRowResults(c: Ctx, fields: seq<Expr>, rows: seq<Row>, results: seq<Row>) {
    |results| == |rows| && forall k :: 0 <= k < |rows| ==> AreValues(c, fields, rows[k], results[k])
  }

  function TermExprs(terms: seq<OrderTerm>): (es: seq<Expr>)
    ensures |es| == |terms| && forall i :: 0 <= i < |es| ==> es[i] == terms[i].expr
  {
    seq(|terms|, i requires 0 <= i < |terms| => terms[i].expr)
  }

  lemma RowKeysMeaning(sc: Scope, s: Select, plan: Plan, now: int, rows: seq<Row>)
    requires MakePlan(sc, s) == Ok(plan) && !plan.grouping && EvalRows(Ctx(sc, now, None), plan.order, rows).Ok?
    ensures
      var c := Ctx(sc, now, None);
      AreRowResults(c, TermExprs(s.order), rows, EvalRows(c, plan.order, rows).value)
  {
    var c, es := Ctx(sc, now, None), TermExprs(s.order);
    var keys := EvalRows(c, plan.order, rows).value;
    PlanOrderLength(sc, s, plan);
    forall i | 0 <= i < |rows| ensures AreValues(c, es, rows[i], keys[i]) {
      forall j | 0 <= j < |es| ensures EvalValue(c, es[j], rows[i]) == Ok(keys[i][j]) {
        RowsAt(c, plan.order, rows, i, j);
        PlannedKeyAt(sc, s, plan, now, rows[i], j);
      }
    }
  }

  lemma RowFieldsMeaning(sc: Scope, s: Select, plan: Plan, now: int, rows: seq<Row>)
    requires MakePlan(sc, s) == Ok(plan) && !plan.grouping && !s.star
    requires EvalRows(Ctx(sc, now, None), PlansOf(plan.fields), rows).Ok?
    ensures
      var c := Ctx(sc, now, None);
      AreRowResults(c, s.fields, rows, EvalRows(c, PlansOf(plan.fields), rows).value)
  {
    var c, ps := Ctx(sc, now, None), PlansOf(plan.fields);
    var cells := EvalRows(c, ps, rows).value;
    PlanFieldsLength(sc, s, plan);
    forall k | 0 <= k < |rows| ensures AreValues(c, s.fields, rows[k], cells[k]) {
      forall f | 0 <= f < |s.fields| ensures EvalValue(c, s.fields[f], rows[k]) == Ok(cells[k][f]) {
        PlannedFieldAt(sc, s, plan, now, rows[k], f);
        RowsAt(c, ps, rows, k, f);
      }
    }
  }

  /** The chosen items: those of the first ranks, as many as LIMIT lets through. */
  ghost predicate Chosen<T>(xs: seq<T>, order: seq<nat>, limit: Option<nat>, out: seq<T>)
    requires |order| == |xs| && forall k :: 0 <= k < |order| ==> order[k] < |xs|
  {
    && |out| == (if limit.Some? && limit.value < |xs| then limit.value else |xs|)
    && forall k :: 0 <= k < |out| ==> out[k] == xs[order[k]]
  }

  lemma LimitedIsChosen<T>(xs: seq<T>, order: seq<nat>, limit: Option<nat>, sorted: seq<T>)
    requires |order| == |xs| == |sorted|
    requires forall k :: 0 <= k < |order| ==> order[k] < |xs| && sorted[k] == xs[order[k]]
    ensures Chosen(xs, order, limit, Limited(sorted, limit))
  {
  }

  /** A query without groups: the candidate rows in ORDER BY order, cut by LIMIT, give one result row each,
      whose cells are the values of the select expressions. Nothing of the plan is left in the statement. */
  lemma RowSelectMeaning(sc: Scope, s: Select, plan: Plan, now: int, rows: seq<Row>)
    returns (keys: seq<Row>, order: seq<nat>, out: seq<Row>)
    requires MakePlan(sc, s) == Ok(plan) && !plan.grouping && !s.star
    requires RowResult(Ctx(sc, now, None), s, plan, rows).Ok?
    ensures AreRowResults(Ctx(sc, now, None), TermExprs(s.order), rows, keys) && KeysFit(keys, s.order)
    ensures Arranged(order, keys, s.order) && Chosen(rows, order, s.limit, out)
    ensures AreRowResults(Ctx(sc, now, None), s.fields, out, RowResult(Ctx(sc, now, None), s, plan, rows).value.rows)
  {
    var c := Ctx(sc, now, None);
    keys := EvalRows(c, plan.order, rows).value;
    PlanOrderLength(sc, s, plan);
    RowKeysMeaning(sc, s, plan, now, rows);
    order := ArrangedItems(rows, keys, plan.order, s);
    out := Limited(OrderItems(rows, keys, plan.order, s).value, s.limit);
    LimitedIsChosen(rows, order, s.limit, OrderItems(rows, keys, plan.order, s).value);
    RowFieldsMeaning(sc, s, plan, now, out);
  }

  // --- queries with groups -----------------------------------------------------------------------------------------

  lemma PlannedGroupFieldAt(
    sc: Scope, es: seq<Expr>, aliases: seq<string>, fields: seq<Field>, groupPos: set<nat>, now: int, g: G.Group,
    f: nat)
    requires PlanList(sc, es, aliases, true, groupPos) == Ok(fields) && f < |es|
    ensures |fields| == |es|
    ensures EvalGroupPlan(Ctx(sc, now, None), PlansOf(fields)[f], g) ==
            EvalValue(Ctx(sc, now, Some(g.rows)), es[f], g.repr)
  {
    PlanListAt(sc, es, aliases, true, groupPos, f);
    var alias :| PlanField(sc, es[f], alias, true, groupPos) == Ok(fields[f]);
    PlannedGroupField(sc, es[f], alias, groupPos, now, g);
  }

  lemma FieldsOfPlan(sc: Scope, s: Select, plan: Plan)
    requires MakePlan(sc, s) == Ok(plan) && plan.grouping
    ensures PlanList(sc, s.fields, s.aliases, true, PosSet(plan.pos)) == Ok(plan.fields)
  {
  }

  lemma PlannedGroupKeyAt(sc: Scope, s: Select, plan: Plan, now: int, g: G.Group, j: nat)
    requires MakePlan(sc, s) == Ok(plan) && plan.grouping && j < |s.order|
    ensures |plan.order| == |s.order|
    ensures EvalGroupPlan(Ctx(sc, now, None), plan.order[j], g) ==
            EvalValue(Ctx(sc, now, Some(g.rows)), s.order[j].expr, g.repr)
  {
    PlanOrderAt(sc, s.order, true, PosSet(plan.pos), j);
    PlannedGroupTerm(sc, s.order[j].expr, PosSet(plan.pos), now, g);
  }

  /** HAVING is TRUE of the group. */
  predicate PassesHaving(sc: Scope, now: int, having: Option<Expr>, g: G.Group) {
    having.Some? ==> EvalBool(Ctx(sc, now, Some(g.rows)), having.value, g.repr) == Ok(TRUE)
  }

  /** at lists, in ascending order, exactly the positions of the groups that pass. */
  ghost predicate PassingAt(sc: Scope, now: int, having: Option<Expr>, all: seq<G.Group>, at: seq<nat>) {
    && (forall x, y :: 0 <= x < y < |at| ==> at[x] < at[y])
    && (forall x :: 0 <= x < |at| ==> at[x] < |all|)
    && (forall i: nat :: i < |all| ==> (i in at <==> PassesHaving(sc, now, having, all[i])))
  }

  predicate Picks<T(==)>(all: seq<T>, at: seq<nat>, kept: seq<T>) {
    |kept| == |at| && forall x :: 0 <= x < |at| ==> at[x] < |all| && kept[x] == all[at[x]]
  }

  /** The groups that pass, each once, in their order. */
  ghost predicate Filtered(sc: Scope, now: int, having: Option<Expr>, all: seq<G.Group>, kept: seq<G.Group>) {
    exists at :: PassingAt(sc, now, having, all, at) && Picks(all, at, kept)
  }

  function Shifted(at: seq<nat>): seq<nat> { seq(|at|, i requires 0 <= i < |at| => at[i] + 1) }

  lemma ShiftedMembers(at: seq<nat>)
    ensures forall i: nat :: i + 1 in Shifted(at) <==> i in at
    ensures 0 !in Shifted(at)
  {
    forall i: nat | i in at ensures i + 1 in Shifted(at) {
      var x :| 0 <= x < |at| && at[x] == i;
      assert Shifted(at)[x] == i + 1;
    }
  }

  lemma PassingTail(sc: Scope, now: int, having: Option<Expr>, all: seq<G.Group>, at: seq<nat>)
    requires all != [] && PassingAt(sc, now, having, all[1..], at)
    ensures !PassesHaving(sc, now, having, all[0]) ==> PassingAt(sc, now, having, all, Shifted(at))
    ensures PassesHaving(sc, now, having, all[0]) ==> PassingAt(sc, now, having, all, [0] + Shifted(at))
  {
    ShiftedMembers(at);
    var here := if PassesHaving(sc, now, having, all[0]) then [0] + Shifted(at) else Shifted(at);
    forall i: nat | i < |all| ensures i in here <==> PassesHaving(sc, now, having, all[i]) {
      if i > 0 { assert all[1..][i - 1] == all[i]; assert i in Shifted(at) <==> i - 1 in at; }
    }
  }

  lemma KeptTail<T>(all: seq<T>, at: seq<nat>, kept: seq<T>)
    requires all != [] && Picks(all[1..], at, kept)
    ensures Picks(all, Shifted(at), kept) && Picks(all, [0] + Shifted(at), [all[0]] + kept)
  {
  }

  /** HAVING keeps exactly the groups of which it is TRUE; every group has been evaluated. */
  lemma {:induction false} HavingFilters(sc: Scope, now: int, having: Expr, all: seq<G.Group>) returns (at: seq<nat>)
    requires KeepGroups(sc, now, having, all).Ok?
    ensures PassingAt(sc, now, Some(having), all, at)
    ensures Picks(all, at, KeepGroups(sc, now, having, all).value)
    ensures forall i :: 0 <= i < |all| ==> EvalBool(Ctx(sc, now, Some(all[i].rows)), having, all[i].repr).Ok?
    decreases |all|
  {
    at := [];
    if all != [] {
      var rest := HavingFilters(sc, now, having, all[1..]);
      PassingTail(sc, now, Some(having), all, rest);
      at := if PassesHaving(sc, now, Some(having), all[0]) then [0] + Shifted(rest) else Shifted(rest);
      KeptTail(all, rest, KeepGroups(sc, now, having, all[1..]).value);
    }
  }

  /** One group for each distinct combination of GROUP BY values, in order of first occurrence. Without
      GROUP BY all rows are one group, even if there are none. */
  ghost predicate AreTheGroups(rows: seq<Row>, pos: seq<nat>, all: seq<G.Group>) {
    && G.Fits(rows, pos)
    && if rows == [] && pos == [] then all == [G.Group([], [])] else G.AreGroups(all, rows, pos)
  }

  lemma MadeGroups(rows: seq<Row>, pos: seq<nat>)
    requires MakeGroups(rows, pos).Ok?
    ensures AreTheGroups(rows, pos, MakeGroups(rows, pos).value)
  {
    if rows != [] {
      var ks := G.KeysOf(rows, pos);
      G.DistinctKeys(ks);
      assert ks[0] in G.Distinct(ks);
    }
  }

  lemma KeptGroups(sc: Scope, now: int, s: Select, pos: seq<nat>, rows: seq<Row>)
    returns (all: seq<G.Group>, kept: seq<G.Group>)
    requires MakeGroups(rows, pos).Ok?
    requires s.having.Some? ==> KeepGroups(sc, now, s.having.value, MakeGroups(rows, pos).value).Ok?
    ensures all == MakeGroups(rows, pos).value && AreTheGroups(rows, pos, all)
    ensures kept == if s.having.Some? then KeepGroups(sc, now, s.having.value, all).value else all
    ensures Filtered(sc, now, s.having, all, kept)
  {
    MadeGroups(rows, pos);
    all := MakeGroups(rows, pos).value;
    if s.having.Some? {
      kept := KeepGroups(sc, now, s.having.value, all).value;
      var _ := HavingFilters(sc, now, s.having.value, all);
    } else {
      kept := all;
      var at: seq<nat> := seq(|all|, i => i);
      forall i: nat | i < |all| ensures i in at { assert at[i] == i; }
      assert PassingAt(sc, now, s.having, all, at) && Picks(all, at, kept);
    }
  }

  /** The results are the values of the expressions over the groups, evaluated the way HAVING is. */
  ghost predicate AreGroupResults(sc: Scope, now: int, fields: seq<Expr>, gs: seq<G.Group>, results: seq<Row>) {
    && |results| == |gs|
    && forall k :: 0 <= k < |gs| ==> AreValues(Ctx(sc, now, Some(gs[k].rows)), fields, gs[k].repr, results[k])
  }

  lemma GroupKeysMeaning(sc: Scope, s: Select, plan: Plan, now: int, gs: seq<G.Group>)
    requires MakePlan(sc, s) == Ok(plan) && plan.grouping && EvalGroups(Ctx(sc, now, None), plan.order, gs).Ok?
    ensures AreGroupResults(sc, now, TermExprs(s.order), gs, EvalGroups(Ctx(sc, now, None), plan.order, gs).value)
  {
    var c, es := Ctx(sc, now, None), TermExprs(s.order);
    var keys := EvalGroups(c, plan.order, gs).value;
    PlanOrderLength(sc, s, plan);
    forall i | 0 <= i < |gs| ensures AreValues(Ctx(sc, now, Some(gs[i].rows)), es, gs[i].repr, keys[i]) {
      forall j | 0 <= j < |es|
        ensures EvalValue(Ctx(sc, now, Some(gs[i].rows)), es[j], gs[i].repr) == Ok(keys[i][j])
      {
        PlannedGroupKeyAt(sc, s, plan, now, gs[i], j);
        GroupsAt(c, plan.order, gs, i, j);
      }
    }
  }

  lemma GroupFieldsMeaning(sc: Scope, s: Select, plan: Plan, now: int, gs: seq<G.Group>)
    requires MakePlan(sc, s) == Ok(plan) && plan.grouping
    requires EvalGroups(Ctx(sc, now, None), PlansOf(plan.fields), gs).Ok?
    ensures AreGroupResults(sc, now, s.fields, gs, EvalGroups(Ctx(sc, now, None), PlansOf(plan.fields), gs).value)
  {
    var c, ps := Ctx(sc, now, None), PlansOf(plan.fields);
    var cells := EvalGroups(c, ps, gs).value;
    PlanFieldsLength(sc, s, plan);
    FieldsOfPlan(sc, s, plan);
    forall k | 0 <= k < |gs| ensures AreValues(Ctx(sc, now, Some(gs[k].rows)), s.fields, gs[k].repr, cells[k]) {
      forall f | 0 <= f < |s.fields|
        ensures EvalValue(Ctx(sc, now, Some(gs[k].rows)), s.fields[f], gs[k].repr) == Ok(cells[k][f])
      {
        PlannedGroupFieldAt(sc, s.fields, s.aliases, plan.fields, PosSet(plan.pos), now, gs[k], f);
        GroupsAt(c, ps, gs, k, f);
      }
    }
  }

  lemma GroupResultParts(sc: Scope, s: Select, plan: Plan, now: int, rows: seq<Row>)
    requires GroupResult(Ctx(sc, now, None), s, plan, rows).Ok? && |plan.order| == |s.order|
    ensures MakeGroups(rows, plan.pos).Ok?
    ensures
      var all, c := MakeGroups(rows, plan.pos).value, Ctx(sc, now, None);
      && (s.having.Some? ==> KeepGroups(sc, now, s.having.value, all).Ok?)
      && var kept := if s.having.Some? then KeepGroups(sc, now, s.having.value, all).value else all;
         && EvalGroups(c, plan.order, kept).Ok?
         && var sorted := OrderItems(kept, EvalGroups(c, plan.order, kept).value, plan.order, s);
            && sorted.Ok?
            && EvalGroups(c, PlansOf(plan.fields), Limited(sorted.value, s.limit)) ==
               Ok(GroupResult(c, s, plan, rows).value.rows)
  {
  }

  /** A grouped query: the groups of the candidate rows that pass HAVING, in ORDER BY order, cut by LIMIT,
      give one result row each. */
  lemma GroupSelectMeaning(sc: Scope, s: Select, plan: Plan, now: int, rows: seq<Row>)
    returns (all: seq<G.Group>, kept: seq<G.Group>, keys: seq<Row>, order: seq<nat>, out: seq<G.Group>)
    requires MakePlan(sc, s) == Ok(plan) && plan.grouping
    requires GroupResult(Ctx(sc, now, None), s, plan, rows).Ok?
    ensures AreTheGroups(rows, plan.pos, all) && Filtered(sc, now, s.having, all, kept)
    ensures AreGroupResults(sc, now, TermExprs(s.order), kept, keys) && KeysFit(keys, s.order)
    ensures Arranged(order, keys, s.order) && Chosen(kept, order, s.limit, out)
    ensures AreGroupResults(sc, now, s.fields, out, GroupResult(Ctx(sc, now, None), s, plan, rows).value.rows)
  {
    var c := Ctx(sc, now, None);
    PlanOrderLength(sc, s, plan);
    GroupResultParts(sc, s, plan, now, rows);
    all, kept := KeptGroups(sc, now, s, plan.pos, rows);
    keys := EvalGroups(c, plan.order, kept).value;
    GroupKeysMeaning(sc, s, plan, now, kept);
    order := ArrangedItems(kept, keys, plan.order, s);
    out := Limited(OrderItems(kept, keys, plan.order, s).value, s.limit);
    LimitedIsChosen(kept, order, s.limit, OrderItems(kept, keys, plan.order, s).value);
    GroupFieldsMeaning(sc, s, plan, now, out);
  }

  lemma {:induction false} AscendingFits(at: seq<nat>, n: nat)
    requires (forall x, y :: 0 <= x < y < |at| ==> at[x] < at[y]) && forall x :: 0 <= x < |at| ==> at[x] < n
    ensures |at| <= n
    decreases n
  {
    if at != [] { AscendingFits(at[..|at| - 1], at[|at| - 1]); }
  }

  lemma LonePick<T>(all: seq<T>, at: seq<nat>, kept: seq<T>)
    requires |all| == 1 && Picks(all, at, kept) && 0 in at && forall x, y :: 0 <= x < y < |at| ==> at[x] < at[y]
    ensures kept == all
  {
    AscendingFits(at, 1);
    assert at == [0];
  }

  /** Without HAVING a lone group is kept. */
  lemma LoneGroupKept(sc: Scope, now: int, all: seq<G.Group>, kept: seq<G.Group>)
    requires |all| == 1 && Filtered(sc, now, None, all, kept)
    ensures kept == all
  {
    var at :| PassingAt(sc, now, None, all, at) && Picks(all, at, kept);
    assert PassesHaving(sc, now, None, all[0]);
    LonePick(all, at, kept);
  }

  lemma CountStarOfNothing(c: Ctx, e: Expr, row: Row)
    requires c.group == Some([]) && e.Func? && e.fname == "count" && e.star
    ensures EvalValue(c, e, row) == Ok(VInt(0))
  {
    StarIsCount("count", []);
  }

  /** An aggregate query without GROUP BY and HAVING over no rows has one result row, in which count(*)
      is 0; LIMIT 0 alone removes it. */
  lemma CountOfNothing(sc: Scope, s: Select, plan: Plan, now: int, f: nat)
    requires MakePlan(sc, s) == Ok(plan) && plan.grouping && plan.pos == [] && s.having.None?
    requires GroupResult(Ctx(sc, now, None), s, plan, []).Ok?
    requires f < |s.fields| && s.fields[f].Func? && s.fields[f].fname == "count" && s.fields[f].star
    ensures
      var res := GroupResult(Ctx(sc, now, None), s, plan, []).value.rows;
      && |res| == (if s.limit == Some(0) then 0 else 1)
      && (res != [] ==> f < |res[0]| && res[0][f] == VInt(0))
  {
    var all, kept, keys, order, out := GroupSelectMeaning(sc, s, plan, now, []);
    LoneGroupKept(sc, now, all, kept);
    if out != [] {
      assert out[0] == kept[order[0]] == G.Group([], []);
      CountStarOfNothing(Ctx(sc, now, Some([])), s.fields[f], []);
      assert AreValues(Ctx(sc, now, Some(out[0].rows)), s.fields, out[0].repr,
                       GroupResult(Ctx(sc, now, None), s, plan, []).value.rows[0]);
    }
  }

  // --- SELECT * --------------------------------------------------------------------------------------

  lemma {:induction false} StarCovers(db: Db, sources: seq<Source>, n: nat)
    requires S.SourcesOk(db, sources, 0) && n <= |sources|
    ensures
      var fields := StarFields(ScopeOf(sources), n);
      |fields| == S.Width(sources[..n]) && S.Numbered(fields, 0)
  {
    var sc := ScopeOf(sources);
    if n > 0 {
      StarCovers(db, sources, n - 1);
      S.SourceAt(db, sources, 0, n - 1);
      S.TableFieldPlans(sc, sc[n - 1], |sc[n - 1].cols|);
    }
  }

  lemma {:induction false} AllCells(c: Ctx, ps: seq<FieldPlan>, row: Row, from: nat)
    requires from + |ps| == |row| && forall i :: 0 <= i < |ps| ==> ps[i] == PCol(from + i)
    ensures EvalPlans(c, ps, row) == Ok(row[from..])
    decreases |ps|
  {
    if ps != [] {
      AllCells(c, ps[1..], row, from + 1);
      assert row[from..] == [row[from]] + row[from + 1..];
    } else {
      assert row[from..] == [];
    }
  }

  /** SELECT * gives every joined row as it is, all tables side by side. */
  lemma StarIsWholeRow(db: Db, c: Ctx, sources: seq<Source>, row: Row)
    requires S.SourcesOk(db, sources, 0) && |row| == S.Width(sources)
    ensures EvalPlans(c, PlansOf(StarFields(ScopeOf(sources), |sources|)), row) == Ok(row)
  {
    StarCovers(db, sources, |sources|);
    assert sources[..|sources|] == sources;
    AllCells(c, PlansOf(StarFields(ScopeOf(sources), |sources|)), row, 0);
    assert row[0..] == row;
  }
}
