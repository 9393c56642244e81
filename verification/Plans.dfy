/** Executing a SELECT whose IN-subqueries are already literal lists: plan, candidates, grouping,
    ordering and projection. */
module Plans {
  import opened Values
  import K = Keys
  import opened Schema
  import opened Ast
  import opened Eval
  import opened Validate
  import opened Joins
  import opened Ordering
  import G = Grouping

  // --- data ----------------------------------------------------------------------------------------

  datatype Stored = Stored(id: int64, row: Row)

  /** A table as an accessor shows it: its columns and its rows by increasing id. */
  datatype Relation = Relation(cols: seq<Column>, stored: seq<Stored>)

  type Db = map<string, Relation>

  datatype ResultSet = ResultSet(headers: seq<string>, rows: seq<Row>)

  /** One FROM entry. `loaded` holds the rows of a derived table, unless it came out empty: then the
      source has no rows slice and is looked up by name like a stored table. */
  datatype Source = Source(name: string, alias: string, cols: seq<Column>, basePos: nat, loaded: Option<seq<Row>>)

  function ScopeOf(sources: seq<Source>): (sc: Scope)
    ensures |sc| == |sources|
    ensures forall i :: 0 <= i < |sc| ==> sc[i] == JoinTable(sources[i].alias, sources[i].cols, sources[i].basePos)
  {
    seq(|sources|, i requires 0 <= i < |sources| => JoinTable(sources[i].alias, sources[i].cols, sources[i].basePos))
  }

  function RowsOf(stored: seq<Stored>): (rows: seq<Row>)
    ensures |rows| == |stored| && forall i :: 0 <= i < |rows| ==> rows[i] == stored[i].row
  {
    seq(|stored|, i requires 0 <= i < |stored| => stored[i].row)
  }

  // --- plans -----------------------------------------------------------------------------------------

  datatype FieldPlan = PCol(pos: nat) | PAgg(name: string, star: bool, argPos: int) | PNow | PExpr(e: Expr)

  datatype Field = Field(plan: FieldPlan, header: string)

  /** `headerAt`: plain name for one table, alias.name otherwise. */
  function HeaderAt(sc: Scope, pos: nat, single: bool): string
    decreases |sc|
  {
    if sc == [] then "?"
    else if sc[0].basePos <= pos < sc[0].basePos + |sc[0].cols| then
      var name := sc[0].cols[pos - sc[0].basePos].name;
      if single then name else sc[0].alias + "." + name
    else HeaderAt(sc[1..], pos, single)
  }

  function Header(sc: Scope, pos: nat): string { HeaderAt(sc, pos, |sc| == 1) }

  function TableFields(sc: Scope, t: JoinTable, n: nat): seq<Field>
    requires n <= |t.cols|
  {
    if n == 0 then []
    else TableFields(sc, t, n - 1) + [Field(PCol(t.basePos + n - 1), Header(sc, t.basePos + n - 1))]
  }

  function StarFields(sc: Scope, n: nat): seq<Field>
    requires n <= |sc|
  {
    if n == 0 then [] else StarFields(sc, n - 1) + TableFields(sc, sc[n - 1], |sc[n - 1].cols|)
  }

  function AggHeader(name: string, star: bool, arg: Option<Expr>): string {
    if star then name + "(*)"
    else if arg.Some? && arg.value.Col? then
      name + "(" + (if arg.value.table != "" then arg.value.table + "." else "") + arg.value.name + ")"
    else name + "(?)"
  }

  function OrElse(alias: string, header: string): string { if alias != "" then alias else header }

  function PlanField(sc: Scope, f: Expr, alias: string, grouping: bool, groupPos: set<nat>): Outcome<Field> {
    match f
    case Col(table, name) =>
      var pos :- Resolve(sc, table, name);
      if grouping && pos !in groupPos then Err("42803")
      else Ok(Field(PCol(pos), OrElse(alias, Header(sc, pos))))
    case Func(name, star, arg) =>
      if name == "now" then Ok(Field(PNow, OrElse(alias, "now()")))
      else if !IsAggregate(name) then Err("42883")
      else if !grouping then Err("42803")
      else
        var pos :- ValidateAggregate(sc, name, star, arg);
        Ok(Field(PAgg(name, star, pos), OrElse(alias, AggHeader(name, star, arg))))
    case _ =>
      if grouping then Err("42803")
      else
        var ok :- Require(ValidateExpr(sc, f));
        Ok(Field(PExpr(f), OrElse(alias, "expr")))
  }

  function Require(v: Verdict): Outcome<bool> { if v.Some? then Err(v.value) else Ok(true) }

  function PlanList(
    sc: Scope, fields: seq<Expr>, aliases: seq<string>, grouping: bool, groupPos: set<nat>): Outcome<seq<Field>>
    decreases |fields|
  {
    if fields == [] then Ok([])
    else
      var f :- PlanField(sc, fields[0], if aliases == [] then "" else aliases[0], grouping, groupPos);
      var rest :- PlanList(sc, fields[1..], if aliases == [] then [] else aliases[1..], grouping, groupPos);
      Ok([f] + rest)
  }

  function PlanFields(sc: Scope, s: Select, grouping: bool, groupPos: set<nat>): Outcome<seq<Field>> {
    if s.star then (if grouping then Err("42803") else Ok(StarFields(sc, |sc|)))
    else PlanList(sc, s.fields, s.aliases, grouping, groupPos)
  }

  function PlanOrderTerm(sc: Scope, e: Expr, grouping: bool, groupPos: set<nat>): Outcome<FieldPlan> {
    if grouping then
      match e
      case Col(table, name) =>
        var pos :- Resolve(sc, table, name);
        if pos in groupPos then Ok(PCol(pos)) else Err("42803")
      case Func(name, star, arg) =>
        if name == "now" then Ok(PNow)
        else if !IsAggregate(name) then Err("42883")
        else
          var pos :- ValidateAggregate(sc, name, star, arg);
          Ok(PAgg(name, star, pos))
      case Lit(_) => Ok(PExpr(e))
      case _ => Err("42803")
    else
      var ok :- Require(ValidateExpr(sc, e));
      if e.Col? then
        var pos :- Resolve(sc, e.table, e.name);
        Ok(PCol(pos))
      else Ok(PExpr(e))
  }

  function PlanOrder(sc: Scope, terms: seq<OrderTerm>, grouping: bool, groupPos: set<nat>): (r: Outcome<seq<FieldPlan>>)
    ensures r.Ok? ==> |r.value| == |terms|
    decreases |terms|
  {
    if terms == [] then Ok([])
    else
      var p :- PlanOrderTerm(sc, terms[0].expr, grouping, groupPos);
      var rest :- PlanOrder(sc, terms[1..], grouping, groupPos);
      Ok([p] + rest)
  }

  function GroupPositions(sc: Scope, group: seq<Expr>): Outcome<seq<nat>>
    decreases |group|
  {
    if group == [] then Ok([])
    else if !group[0].Col? then Err("42601")
    else
      var p :- Resolve(sc, group[0].table, group[0].name);
      var rest :- GroupPositions(sc, group[1..]);
      Ok([p] + rest)
  }

  predicate IsAggregateField(f: Expr) { f.Func? && IsAggregate(f.fname) }

  predicate HasAggregate(fields: seq<Expr>) { exists i :: 0 <= i < |fields| && IsAggregateField(fields[i]) }

  /** Each ON is checked against the tables joined so far, its own included. */
  function ValidateOns(sc: Scope, on: seq<Expr>, i: nat): Verdict
    requires i <= |on|
    decreases |on| - i
  {
    if i == |on| then None
    else Both(ValidateExpr(Prefix(sc, i + 2), on[i]), ValidateOns(sc, on, i + 1))
  }

  function Prefix(sc: Scope, n: nat): Scope { if n >= |sc| then sc else sc[..n] }

  datatype Plan = Plan(pos: seq<nat>, grouping: bool, fields: seq<Field>, order: seq<FieldPlan>)

  function PosSet(pos: seq<nat>): set<nat> { set p | p in pos }

  /** All checks before any row is read. */
  function MakePlan(sc: Scope, s: Select): Outcome<Plan> {
    var ok1 :- Require(ValidateOns(sc, s.on, 0));
    var ok2 :- Require(if s.where.Some? then ValidateExpr(sc, s.where.value) else None);
    var pos :- GroupPositions(sc, s.group);
    var groupPos := PosSet(pos);
    var grouping := pos != [] || HasAggregate(s.fields) || s.having.Some?;
    var ok3 :- Require(if s.having.Some? then ValidateHaving(sc, s.having.value, groupPos) else None);
    var fields :- PlanFields(sc, s, grouping, groupPos);
    var order :- PlanOrder(sc, s.order, grouping, groupPos);
    Ok(Plan(pos, grouping, fields, order))
  }

  // --- candidate rows -----------------------------------------------------------------------------------

  /** `col = literal` on a UNIQUE column: its index and the literal in stored form. */
  datatype Probe = Probe(ci: nat, v: Value)

  function FirstUnique(cols: seq<Column>, name: string, i: nat): (r: Option<nat>)
    requires i <= |cols|
    ensures r.Some? ==> r.value < |cols| && cols[r.value].name == name && cols[r.value].unique
    decreases |cols| - i
  {
    if i == |cols| then None
    else if cols[i].name == name && cols[i].unique then Some(i)
    else FirstUnique(cols, name, i + 1)
  }

  function ProbeFor(ref: Expr, lit: Value, alias: string, cols: seq<Column>): (r: Option<Probe>)
    requires ref.Col?
    ensures r.Some? ==> r.value.ci < |cols|
  {
    if ref.table != "" && ref.table != alias then None
    else match FirstUnique(cols, ref.name, 0)
      case None => None
      case Some(ci) =>
        match Check(cols[ci].typ, lit)
        case None => None
        case Some(v) => Some(Probe(ci, v))
  }

  function UniqueEquality(where: Option<Expr>, alias: string, cols: seq<Column>): (r: Option<Probe>)
    ensures r.Some? ==> r.value.ci < |cols| && where.Some?
  {
    if where.None? || !where.value.Cmp? || !where.value.cop.Eq? then None
    else
      var l, r := where.value.l, where.value.r;
      if l.Col? && r.Lit? then ProbeFor(l, r.v, alias, cols)
      else if l.Lit? && r.Col? then ProbeFor(r, l.v, alias, cols)
      else None
  }

  /** `UniqueGet` then `Get`: the first stored row whose cell has the key of v. */
  function Lookup(stored: seq<Stored>, ci: nat, v: Value): (r: Option<Stored>)
    decreases |stored|
  {
    if v.VNull? || stored == [] then None
    else if ci < |stored[0].row| && K.UniqKey(stored[0].row[ci]) == K.UniqKey(v) then Some(stored[0])
    else Lookup(stored[1..], ci, v)
  }

  function LoadSource(db: Db, src: Source): Outcome<seq<Row>> {
    if src.loaded.Some? then Ok(src.loaded.value)
    else if src.name in db then Ok(RowsOf(db[src.name].stored))
    else Err("58030")
  }

  function LoadAll(db: Db, sources: seq<Source>): (r: Outcome<seq<seq<Row>>>)
    ensures r.Ok? ==> |r.value| == |sources|
    decreases |sources|
  {
    if sources == [] then Ok([])
    else
      var rows :- LoadSource(db, sources[0]);
      var rest :- LoadAll(db, sources[1..]);
      Ok([rows] + rest)
  }

  function Steps(sc: Scope, s: Select, now: int): (steps: seq<JoinStep>)
    requires |sc| == |s.on| + 1 == |s.kinds| + 1
    ensures |steps| == |s.on|
    ensures forall i :: 0 <= i < |steps| ==>
      steps[i] == JoinStep(Ctx(Prefix(sc, i + 2), now, None), s.on[i], s.kinds[i], |sc[i + 1].cols|)
  {
    seq(|s.on|, i requires 0 <= i < |s.on| =>
      JoinStep(Ctx(Prefix(sc, i + 2), now, None), s.on[i], s.kinds[i], |sc[i + 1].cols|))
  }

  function FilterRows(c: Ctx, where: Expr, rows: seq<Row>): Outcome<seq<Row>>
    decreases |rows|
  {
    if rows == [] then Ok([])
    else
      var t :- EvalBool(c, where, rows[0]);
      var rest :- FilterRows(c, where, rows[1..]);
      Ok(if Accepts(t) then [rows[0]] + rest else rest)
  }

  /** `collectJoined`. */
  function Collect(db: Db, now: int, s: Select, sources: seq<Source>): Outcome<seq<Row>> {
    var tables :- LoadAll(db, sources);
    if !(|sources| == |s.on| + 1 == |s.kinds| + 1) then Panic
    else
      var sc := ScopeOf(sources);
      var joined :- JoinChain(Steps(sc, s, now), tables[0], tables[1..]);
      if s.where.Some? then FilterRows(Ctx(sc, now, None), s.where.value, joined) else Ok(joined)
  }

  /** The one-table shortcut through the UNIQUE index, the join otherwise. */
  function Candidates(db: Db, now: int, s: Select, sources: seq<Source>): Outcome<seq<Row>> {
    if |sources| == 1 && sources[0].loaded.None? &&
      UniqueEquality(s.where, sources[0].alias, sources[0].cols).Some? then
      var probe := UniqueEquality(s.where, sources[0].alias, sources[0].cols).value;
      if sources[0].name !in db then Ok([])
      else match Lookup(db[sources[0].name].stored, probe.ci, probe.v)
        case None => Ok([])
        case Some(found) =>
          var t :- EvalBool(Ctx(ScopeOf(sources), now, None), s.where.value, found.row);
          Ok(if Accepts(t) then [found.row] else [])
    else Collect(db, now, s, sources)
  }

  // --- results without grouping -------------------------------------------------------------------------------

  function Cell(row: Row, pos: nat): Outcome<Value> { if pos < |row| then Ok(row[pos]) else Panic }

  /** A planned column, NOW(), or expression of one row. Aggregates are not planned here. */
  function EvalPlan(c: Ctx, p: FieldPlan, row: Row): Outcome<Value> {
    match p
    case PCol(pos) => Cell(row, pos)
    case PNow => Ok(VTime(c.now))
    case PExpr(e) => EvalValue(c, e, row)
    case PAgg(_, _, _) => Panic
  }

  function EvalPlans(c: Ctx, ps: seq<FieldPlan>, row: Row): (r: Outcome<Row>)
    ensures r.Ok? ==> |r.value| == |ps|
    decreases |ps|
  {
    if ps == [] then Ok([])
    else
      var v :- EvalPlan(c, ps[0], row);
      var rest :- EvalPlans(c, ps[1..], row);
      Ok([v] + rest)
  }

  function EvalRows(c: Ctx, ps: seq<FieldPlan>, rows: seq<Row>): (r: Outcome<seq<Row>>)
    ensures r.Ok? ==> |r.value| == |rows| && forall i :: 0 <= i < |rows| ==> |r.value[i]| == |ps|
    decreases |rows|
  {
    if rows == [] then Ok([])
    else
      var first :- EvalPlans(c, ps, rows[0]);
      var rest :- EvalRows(c, ps, rows[1..]);
      Ok([first] + rest)
  }

  function Descending(terms: seq<OrderTerm>): (d: seq<bool>)
    ensures |d| == |terms|
  {
    seq(|terms|, i requires 0 <= i < |terms| => terms[i].desc)
  }

  function PlansOf(fields: seq<Field>): (ps: seq<FieldPlan>)
    ensures |ps| == |fields| && forall i :: 0 <= i < |ps| ==> ps[i] == fields[i].plan
  {
    seq(|fields|, i requires 0 <= i < |fields| => fields[i].plan)
  }

  function HeadersOf(fields: seq<Field>): (hs: seq<string>)
    ensures |hs| == |fields|
  {
    seq(|fields|, i requires 0 <= i < |fields| => fields[i].header)
  }

  function OrderItems<T>(xs: seq<T>, keys: seq<Row>, order: seq<FieldPlan>, s: Select): Outcome<seq<T>>
    requires |keys| == |xs| && forall i :: 0 <= i < |keys| ==> |keys[i]| == |order|
  {
    if order == [] then Ok(xs)
    else if |order| != |s.order| then Panic
    else Ok(Sorted(xs, keys, Descending(s.order)))
  }

  function RowResult(c: Ctx, s: Select, plan: Plan, rows: seq<Row>): Outcome<ResultSet> {
    var keys :- EvalRows(c, plan.order, rows);
    var sorted :- OrderItems(rows, keys, plan.order, s);
    var out :- EvalRows(c, PlansOf(plan.fields), Limited(sorted, s.limit));
    Ok(ResultSet(HeadersOf(plan.fields), out))
  }

  // --- results with grouping ------------------------------------------------------------------------------------

  function GroupList(rows: seq<Row>, pos: seq<nat>, n: nat): (gs: seq<G.Group>)
    requires G.Fits(rows, pos) && n <= |G.GroupKeys(rows, pos)|
    ensures |gs| == n && forall i :: 0 <= i < n ==> gs[i] == G.GroupAt(rows, pos, G.GroupKeys(rows, pos)[i])
  {
    if n == 0 then [] else GroupList(rows, pos, n - 1) + [G.GroupAt(rows, pos, G.GroupKeys(rows, pos)[n - 1])]
  }

  /** The groups; without GROUP BY an empty input still makes one empty group. */
  function MakeGroups(rows: seq<Row>, pos: seq<nat>): Outcome<seq<G.Group>> {
    if !G.Fits(rows, pos) then Panic
    else
      var gs := GroupList(rows, pos, |G.GroupKeys(rows, pos)|);
      Ok(if pos == [] && gs == [] then [G.Group([], [])] else gs)
  }

  function KeepGroups(sc: Scope, now: int, having: Expr, gs: seq<G.Group>): Outcome<seq<G.Group>>
    decreases |gs|
  {
    if gs == [] then Ok([])
    else
      var t :- EvalBool(Ctx(sc, now, Some(gs[0].rows)), having, gs[0].repr);
      var rest :- KeepGroups(sc, now, having, gs[1..]);
      Ok(if Accepts(t) then [gs[0]] + rest else rest)
  }

  function EvalGroupPlan(c: Ctx, p: FieldPlan, g: G.Group): Outcome<Value> {
    match p
    case PAgg(name, star, pos) => Aggregate(name, star, g.rows, pos)
    case _ => EvalPlan(c, p, g.repr)
  }

  function EvalGroupPlans(c: Ctx, ps: seq<FieldPlan>, g: G.Group): (r: Outcome<Row>)
    ensures r.Ok? ==> |r.value| == |ps|
    decreases |ps|
  {
    if ps == [] then Ok([])
    else
      var v :- EvalGroupPlan(c, ps[0], g);
      var rest :- EvalGroupPlans(c, ps[1..], g);
      Ok([v] + rest)
  }

  function EvalGroups(c: Ctx, ps: seq<FieldPlan>, gs: seq<G.Group>): (r: Outcome<seq<Row>>)
    ensures r.Ok? ==> |r.value| == |gs| && forall i :: 0 <= i < |gs| ==> |r.value[i]| == |ps|
    decreases |gs|
  {
    if gs == [] then Ok([])
    else
      var first :- EvalGroupPlans(c, ps, gs[0]);
      var rest :- EvalGroups(c, ps, gs[1..]);
      Ok([first] + rest)
  }

  function GroupResult(c: Ctx, s: Select, plan: Plan, rows: seq<Row>): Outcome<ResultSet> {
    var all :- MakeGroups(rows, plan.pos);
    var kept :- if s.having.Some? then KeepGroups(c.sc, c.now, s.having.value, all) else Ok(all);
    var keys :- EvalGroups(c, plan.order, kept);
    var sorted :- OrderItems(kept, keys, plan.order, s);
    var out :- EvalGroups(c, PlansOf(plan.fields), Limited(sorted, s.limit));
    Ok(ResultSet(HeadersOf(plan.fields), out))
  }

  function Produce(c: Ctx, s: Select, plan: Plan, rows: seq<Row>): Outcome<ResultSet> {
    if plan.grouping then GroupResult(c, s, plan, rows) else RowResult(c, s, plan, rows)
  }

  /** From the built scope and a SELECT without subqueries in its conditions to the result. */
  function RunPlan(db: Db, now: int, s: Select, sources: seq<Source>): Outcome<ResultSet> {
    var sc := ScopeOf(sources);
    var plan :- MakePlan(sc, s);
    var rows :- Candidates(db, now, s, sources);
    Produce(Ctx(sc, now, None), s, plan, rows)
  }
}
