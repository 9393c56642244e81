/** The UNIQUE-index shortcut for `col = literal` against the full scan. */
module Shortcut {
  import opened Values
  import K = Keys
  import opened Schema
  import opened Ast
  import opened Eval
  import opened Plans

  // --- one cell ------------------------------------------------------------------------------------------

  /** A cell that compares equal to the stored form of the literal without being it: integers with
      the same float rounding, a NaN against any float, or the two zeros. */
  predicate Collides(x: Value, v: Value) {
    || (x.VInt? && v.VInt? && x.i != v.i && Round(x.i) == Round(v.i))
    || (x.VFloat? && v.VFloat? && x.f != v.f && (x.f.NaN? || v.f.NaN? || (IsZero(x.f) && IsZero(v.f))))
  }

  predicate BoolFromInt(ct: ColumnType, lit: Value) { ct.TBool? && lit.VInt? }

  /** For a cell of the column's kind, comparing equal to the literal means being its stored form or
      colliding with it. */
  lemma EqualCellIff(ct: ColumnType, lit: Value, x: Value)
    requires Check(ct, lit).Some? && HasKind(ct, x) && !x.VNull? && !lit.VNull?
    ensures Compare(x, lit) == 0 <==>
            !BoolFromInt(ct, lit) && (x == Check(ct, lit).value || Collides(x, Check(ct, lit).value))
  {
    if x.VText? && lit.VText? { CompareTextAntisymmetric(x.s, lit.s); }
  }

  /** Cells that never collide: integers below 2^53 in magnitude, floats other than NaN and -0. */
  predicate Plain(x: Value) {
    && (x.VInt? ==> -TWO_53 < x.i < TWO_53)
    && (x.VFloat? ==> !x.f.NaN? && !x.f.NegZero?)
  }

  lemma PlainNeverCollides(x: Value, v: Value)
    requires Plain(v) && (x.VFloat? ==> Plain(x))
    ensures !Collides(x, v)
  {
    if x.VInt? && v.VInt? { SmallIntIsExact(v.i, x.i); }
  }

  /** The restriction is needed: each family has a collision. */
  lemma CollisionsExist()
    ensures Collides(VInt(TWO_53 + 1), VInt(TWO_53))
    ensures Collides(VFloat(NegZero), VFloat(Fin(0)))
    ensures Collides(VFloat(NaN), VFloat(Fin(0)))
  {
    assert Convert.round(TWO_53 + 1) == Convert.round(TWO_53);
  }

  // --- scans ---------------------------------------------------------------------------------------------

  /** The loop of `collectCandidates` over all rows. */
  function Scan(c: Ctx, where: Option<Expr>, stored: seq<Stored>): Outcome<seq<Stored>>
    decreases |stored|
  {
    if stored == [] then Ok([])
    else
      var t :- if where.Some? then EvalBool(c, where.value, stored[0].row) else Ok(TRUE);
      var rest :- Scan(c, where, stored[1..]);
      Ok(if Accepts(t) then [stored[0]] + rest else rest)
  }

  function TableScope(name: string, cols: seq<Column>): Scope { [JoinTable(name, cols, 0)] }

  /** The row behind the probe, if it passes the condition. */
  function Probed(c: Ctx, where: Expr, stored: seq<Stored>, probe: Probe): Outcome<seq<Stored>> {
    match Lookup(stored, probe.ci, probe.v)
    case None => Ok([])
    case Some(found) =>
      var t :- EvalBool(c, where, found.row);
      Ok(if Accepts(t) then [found] else [])
  }

  /** `collectCandidates`: the rows an UPDATE or DELETE works on. */
  function CollectCandidates(now: int, name: string, rel: Relation, where: Option<Expr>): Outcome<seq<Stored>> {
    var c := Ctx(TableScope(name, rel.cols), now, None);
    var probe := UniqueEquality(where, name, rel.cols);
    if probe.Some? then Probed(c, where.value, rel.stored, probe.value) else Scan(c, where, rel.stored)
  }

  /** The loop of `collectCandidates` itself. */
  method ScanLoop(c: Ctx, where: Option<Expr>, stored: seq<Stored>) returns (r: Outcome<seq<Stored>>)
    ensures r == Scan(c, where, stored)
  {
    var cands: seq<Stored> := [];
    assert stored[0..] == stored;
    if Scan(c, where, stored).Ok? { assert [] + Scan(c, where, stored).value == Scan(c, where, stored).value; }
    for i := 0 to |stored|
      invariant Scan(c, where, stored) == Prepend(cands, Scan(c, where, stored[i..]))
    {
      assert stored[i..][0] == stored[i] && stored[i..][1..] == stored[i + 1..];
      var t := if where.Some? then EvalBool(c, where.value, stored[i].row) else Ok(TRUE);
      if t.IsFailure() { return t.PropagateFailure(); }
      if Accepts(t.value) {
        PrependTwice(cands, [stored[i]], Scan(c, where, stored[i + 1..]));
        cands := cands + [stored[i]];
      }
    }
    assert stored[|stored|..] == [] && cands + [] == cands;
    return Ok(cands);
  }

  // --- the theorem ---------------------------------------------------------------------------------------

  predicate TypedRow(cols: seq<Column>, row: Row) {
    |row| == |cols| && forall i :: 0 <= i < |cols| ==> HasKind(cols[i].typ, row[i])
  }

  predicate Typed(rel: Relation) { forall i :: 0 <= i < |rel.stored| ==> TypedRow(rel.cols, rel.stored[i].row) }

  predicate DistinctNames(cols: seq<Column>) { forall i, j :: 0 <= i < j < |cols| ==> cols[i].name != cols[j].name }

  /** No two rows share a non-NULL value in the column. */
  predicate UniqueAt(stored: seq<Stored>, ci: nat) {
    forall i, j ::
      0 <= i < j < |stored| && ci < |stored[i].row| && ci < |stored[j].row| && !stored[i].row[ci].VNull? ==>
      stored[i].row[ci] != stored[j].row[ci]
  }

  /** Some stored cell collides with the probe's value. */
  predicate Collision(stored: seq<Stored>, probe: Probe) {
    exists i :: 0 <= i < |stored| && probe.ci < |stored[i].row| && Collides(stored[i].row[probe.ci], probe.v)
  }

  function LiteralOf(where: Expr): Value
    requires where.Cmp? && ((where.l.Col? && where.r.Lit?) || (where.l.Lit? && where.r.Col?))
  {
    if where.l.Lit? then where.l.v else where.r.v
  }

  lemma FirstByName(cols: seq<Column>, name: string, ci: nat)
    requires DistinctNames(cols) && ci < |cols| && cols[ci].name == name
    ensures ColIndex(cols, name) == Some(ci)
  {
    var k := ColIndex(cols, name);
    assert k.Some? && cols[k.value].name == cols[ci].name;
  }

  /** What the probe says about the condition: it reads the probed column and compares it with the
      literal whose stored form the probe holds. */
  lemma ProbeEval(now: int, name: string, cols: seq<Column>, where: Expr, row: Row)
    requires DistinctNames(cols) && |row| == |cols| && UniqueEquality(Some(where), name, cols).Some?
    ensures
      var probe := UniqueEquality(Some(where), name, cols).value;
      var t := EvalBool(Ctx(TableScope(name, cols), now, None), where, row);
      && where.Cmp? && ((where.l.Col? && where.r.Lit?) || (where.l.Lit? && where.r.Col?))
      && Check(cols[probe.ci].typ, LiteralOf(where)) == Some(probe.v)
      && t.Ok?
      && (Accepts(t.value) <==>
           !row[probe.ci].VNull? && !LiteralOf(where).VNull? && Compare(row[probe.ci], LiteralOf(where)) == 0)
  {
    var probe := UniqueEquality(Some(where), name, cols).value;
    var sc, ref := TableScope(name, cols), if where.l.Col? then where.l else where.r;
    FirstByName(cols, ref.name, probe.ci);
    assert sc[1..] == [] && Positions(sc, ref.name) == [probe.ci] + Positions(sc[1..], ref.name);
    assert Resolve(sc, ref.table, ref.name) == Ok(probe.ci);
    CompareAntisymmetric(row[probe.ci], LiteralOf(where));
  }

  /** The rows whose cell compares equal to the literal. */
  function Matching(stored: seq<Stored>, ci: nat, lit: Value): seq<Stored> {
    if stored == [] then []
    else
      var rest, row := Matching(stored[1..], ci, lit), stored[0].row;
      if ci < |row| && !row[ci].VNull? && !lit.VNull? && Compare(row[ci], lit) == 0 then [stored[0]] + rest else rest
  }

  /** The rows whose cell is exactly v. */
  function Having(stored: seq<Stored>, ci: nat, v: Value): seq<Stored> {
    if stored == [] then []
    else
      var rest, row := Having(stored[1..], ci, v), stored[0].row;
      if ci < |row| && !v.VNull? && row[ci] == v then [stored[0]] + rest else rest
  }

  lemma {:induction false} ScanIsMatching(now: int, name: string, cols: seq<Column>, where: Expr, stored: seq<Stored>)
    requires DistinctNames(cols) && Typed(Relation(cols, stored)) && UniqueEquality(Some(where), name, cols).Some?
    requires where.Cmp? && ((where.l.Col? && where.r.Lit?) || (where.l.Lit? && where.r.Col?))
    ensures Scan(Ctx(TableScope(name, cols), now, None), Some(where), stored) ==
            Ok(Matching(stored, UniqueEquality(Some(where), name, cols).value.ci, LiteralOf(where)))
    decreases |stored|
  {
    if stored != [] {
      assert TypedRow(cols, stored[0].row);
      ProbeEval(now, name, cols, where, stored[0].row);
      forall i | 0 <= i < |stored[1..]| ensures TypedRow(cols, stored[1..][i].row) {
        assert stored[1..][i] == stored[i + 1];
      }
      ScanIsMatching(now, name, cols, where, stored[1..]);
    }
  }

  lemma {:induction false} LookupIsHaving(stored: seq<Stored>, ci: nat, v: Value)
    requires UniqueAt(stored, ci)
    ensures Having(stored, ci, v) == if Lookup(stored, ci, v).Some? then [Lookup(stored, ci, v).value] else []
    decreases |stored|
  {
    if stored != [] {
      var row := stored[0].row;
      forall i, j | 0 <= i < j < |stored[1..]|
        ensures stored[1..][i] == stored[i + 1] && stored[1..][j] == stored[j + 1]
      {
      }
      assert UniqueAt(stored[1..], ci);
      LookupIsHaving(stored[1..], ci, v);
      if ci < |row| {
        K.UniqKeyInjective(row[ci], v);
        if row[ci] == v && !v.VNull? { NothingLeft(stored[1..], ci, v); }
      }
    }
  }

  lemma {:induction false} NothingLeft(stored: seq<Stored>, ci: nat, v: Value)
    requires forall i :: 0 <= i < |stored| && ci < |stored[i].row| ==> stored[i].row[ci] != v
    ensures Having(stored, ci, v) == []
    decreases |stored|
  {
    if stored != [] { NothingLeft(stored[1..], ci, v); }
  }

  /** The rows that compare equal are the rows that hold the value, plus the collisions. */
  lemma {:induction false} MatchingIff(stored: seq<Stored>, cols: seq<Column>, probe: Probe, lit: Value)
    requires Typed(Relation(cols, stored)) && probe.ci < |cols| && Check(cols[probe.ci].typ, lit) == Some(probe.v)
    requires !BoolFromInt(cols[probe.ci].typ, lit)
    ensures |Matching(stored, probe.ci, lit)| >= |Having(stored, probe.ci, probe.v)|
    ensures Collision(stored, probe) ==> |Matching(stored, probe.ci, lit)| > |Having(stored, probe.ci, probe.v)|
    ensures !Collision(stored, probe) ==> Matching(stored, probe.ci, lit) == Having(stored, probe.ci, probe.v)
    decreases |stored|
  {
    if stored != [] {
      var tail, x := stored[1..], stored[0].row;
      forall i | 0 <= i < |tail| ensures TypedRow(cols, tail[i].row) { assert tail[i] == stored[i + 1]; }
      MatchingIff(tail, cols, probe, lit);
      assert TypedRow(cols, x) && HasKind(cols[probe.ci].typ, x[probe.ci]);
      if !x[probe.ci].VNull? && !lit.VNull? { EqualCellIff(cols[probe.ci].typ, lit, x[probe.ci]); }
      CollisionSplit(stored, probe);
    }
  }

  lemma CollisionSplit(stored: seq<Stored>, probe: Probe)
    requires stored != []
    ensures Collision(stored, probe) <==>
            (probe.ci < |stored[0].row| && Collides(stored[0].row[probe.ci], probe.v)) || Collision(stored[1..], probe)
  {
    var tail := stored[1..];
    assert forall i :: 0 <= i < |tail| ==> tail[i] == stored[i + 1];
    assert forall i :: 0 < i < |stored| ==> stored[i] == tail[i - 1];
  }

  lemma {:induction false} BoolFromIntMatchesNothing(stored: seq<Stored>, cols: seq<Column>, ci: nat, lit: Value)
    requires Typed(Relation(cols, stored)) && ci < |cols| && BoolFromInt(cols[ci].typ, lit)
    ensures Matching(stored, ci, lit) == []
    decreases |stored|
  {
    if stored != [] {
      var tail, x := stored[1..], stored[0].row;
      forall i | 0 <= i < |tail| ensures TypedRow(cols, tail[i].row) { assert tail[i] == stored[i + 1]; }
      assert TypedRow(cols, x) && HasKind(cols[ci].typ, x[ci]);
      BoolFromIntMatchesNothing(tail, cols, ci, lit);
    }
  }

  /** A relation as typed statements leave it. */
  predicate Shaped(rel: Relation) {
    && DistinctNames(rel.cols) && Typed(rel)
    && forall ci: nat :: ci < |rel.cols| && rel.cols[ci].unique ==> UniqueAt(rel.stored, ci)
  }

  lemma ProbedIsHaving(now: int, name: string, rel: Relation, where: Expr)
    requires Shaped(rel) && UniqueEquality(Some(where), name, rel.cols).Some?
    requires where.Cmp? && ((where.l.Col? && where.r.Lit?) || (where.l.Lit? && where.r.Col?))
    ensures
      var probe := UniqueEquality(Some(where), name, rel.cols).value;
      Probed(Ctx(TableScope(name, rel.cols), now, None), where, rel.stored, probe) ==
      Ok(if BoolFromInt(rel.cols[probe.ci].typ, LiteralOf(where)) then [] else Having(rel.stored, probe.ci, probe.v))
  {
    var probe := UniqueEquality(Some(where), name, rel.cols).value;
    LookupIsHaving(rel.stored, probe.ci, probe.v);
    var found := Lookup(rel.stored, probe.ci, probe.v);
    if found.Some? {
      FoundRow(rel.stored, probe.ci, probe.v);
      var row := found.value.row;
      ProbeEval(now, name, rel.cols, where, row);
      EqualCellIff(rel.cols[probe.ci].typ, LiteralOf(where), row[probe.ci]);
    }
  }

  lemma {:induction false} FoundRow(stored: seq<Stored>, ci: nat, v: Value)
    requires Lookup(stored, ci, v).Some?
    ensures
      var found := Lookup(stored, ci, v).value;
      !v.VNull? && found in stored && ci < |found.row| && found.row[ci] == v
    decreases |stored|
  {
    if ci < |stored[0].row| { K.UniqKeyInjective(stored[0].row[ci], v); }
    if !(ci < |stored[0].row| && K.UniqKey(stored[0].row[ci]) == K.UniqKey(v)) { FoundRow(stored[1..], ci, v); }
  }

  /** The rows equal to the literal against those with its stored form. */
  lemma MatchingAgainstHaving(rel: Relation, probe: Probe, lit: Value)
    requires Typed(rel) && probe.ci < |rel.cols| && Check(rel.cols[probe.ci].typ, lit) == Some(probe.v)
    ensures
      var found := if BoolFromInt(rel.cols[probe.ci].typ, lit) then [] else Having(rel.stored, probe.ci, probe.v);
      var matching := Matching(rel.stored, probe.ci, lit);
      && (Collision(rel.stored, probe) ==> |matching| > |found|)
      && (!Collision(rel.stored, probe) ==> matching == found)
  {
    assert rel == Relation(rel.cols, rel.stored);
    if BoolFromInt(rel.cols[probe.ci].typ, lit) {
      BoolFromIntMatchesNothing(rel.stored, rel.cols, probe.ci, lit);
    } else {
      MatchingIff(rel.stored, rel.cols, probe, lit);
    }
  }

  /** Both ways succeed, and the scan finds more exactly when there is a collision. */
  lemma ShortcutAgainstScan(now: int, name: string, rel: Relation, where: Expr)
    requires Shaped(rel) && UniqueEquality(Some(where), name, rel.cols).Some?
    ensures
      var probe := UniqueEquality(Some(where), name, rel.cols).value;
      var scan := Scan(Ctx(TableScope(name, rel.cols), now, None), Some(where), rel.stored);
      var short := CollectCandidates(now, name, rel, Some(where));
      && scan.Ok? && short.Ok?
      && (Collision(rel.stored, probe) ==> |scan.value| > |short.value|)
      && (!Collision(rel.stored, probe) ==> scan.value == short.value)
  {
    var probe := UniqueEquality(Some(where), name, rel.cols).value;
    assert rel == Relation(rel.cols, rel.stored);
    ScanIsMatching(now, name, rel.cols, where, rel.stored);
    ProbedIsHaving(now, name, rel, where);
    MatchingAgainstHaving(rel, probe, LiteralOf(where));
  }

  /** UPDATE and DELETE: the shortcut finds the rows of the full scan if and only if no stored cell
      collides with the literal (an integer literal on a boolean column finds nothing either way). */
  lemma ShortcutIsScanIff(now: int, name: string, rel: Relation, where: Expr)
    requires Shaped(rel) && UniqueEquality(Some(where), name, rel.cols).Some?
    ensures CollectCandidates(now, name, rel, Some(where)) ==
            Scan(Ctx(TableScope(name, rel.cols), now, None), Some(where), rel.stored)
            <==> !Collision(rel.stored, UniqueEquality(Some(where), name, rel.cols).value)
  {
    ShortcutAgainstScan(now, name, rel, where);
  }

  lemma {:induction false} FilterIsScan(c: Ctx, where: Expr, stored: seq<Stored>)
    ensures FilterRows(c, where, RowsOf(stored)) == RowsOnly(Scan(c, Some(where), stored))
    decreases |stored|
  {
    if stored != [] {
      assert RowsOf(stored)[1..] == RowsOf(stored[1..]);
      FilterIsScan(c, where, stored[1..]);
      var rest := Scan(c, Some(where), stored[1..]);
      if rest.Ok? { assert RowsOf([stored[0]] + rest.value) == [stored[0].row] + RowsOf(rest.value); }
    }
  }

  function RowsOnly(o: Outcome<seq<Stored>>): Outcome<seq<Row>> {
    if o.Ok? then Ok(RowsOf(o.value)) else o.PropagateFailure()
  }

  /** A SELECT over one stored table whose condition fits the shortcut. */
  predicate Probes(db: Db, s: Select, src: Source) {
    && src.loaded.None? && src.basePos == 0 && src.name in db && db[src.name].cols == src.cols
    && s.on == [] && s.kinds == []
    && UniqueEquality(s.where, src.alias, src.cols).Some?
  }

  lemma CandidatesAreProbed(db: Db, now: int, s: Select, src: Source)
    requires Probes(db, s, src)
    ensures Candidates(db, now, s, [src]) == RowsOnly(CollectCandidates(now, src.alias, db[src.name], s.where))
  {
    assert ScopeOf([src]) == TableScope(src.alias, src.cols);
    var probe := UniqueEquality(s.where, src.alias, src.cols).value;
    var found := Lookup(db[src.name].stored, probe.ci, probe.v);
    if found.Some? { assert RowsOf([found.value]) == [found.value.row]; }
    assert RowsOf([]) == [];
  }

  lemma CollectIsScan(db: Db, now: int, s: Select, src: Source)
    requires Probes(db, s, src)
    ensures Collect(db, now, s, [src]) ==
            RowsOnly(Scan(Ctx(TableScope(src.alias, src.cols), now, None), s.where, db[src.name].stored))
  {
    var stored := db[src.name].stored;
    assert ScopeOf([src]) == TableScope(src.alias, src.cols);
    assert [src][1..] == [];
    assert LoadAll(db, [src]) == Ok([RowsOf(stored)] + []);
    assert [RowsOf(stored)][1..] == [] && [RowsOf(stored)] + [] == [RowsOf(stored)];
    FilterIsScan(Ctx(TableScope(src.alias, src.cols), now, None), s.where.value, stored);
    assert Some(s.where.value) == s.where;
  }

  /** SELECT: the same, against the general join path. */
  lemma SelectShortcutIff(db: Db, now: int, s: Select, src: Source)
    requires Probes(db, s, src) && Shaped(db[src.name])
    ensures Candidates(db, now, s, [src]) == Collect(db, now, s, [src])
            <==> !Collision(db[src.name].stored, UniqueEquality(s.where, src.alias, src.cols).value)
  {
    CandidatesAreProbed(db, now, s, src);
    CollectIsScan(db, now, s, src);
    assert Some(s.where.value) == s.where;
    ShortcutAgainstScan(now, src.alias, db[src.name], s.where.value);
  }

  /** A literal below 2^53 in magnitude, or any text, boolean or timestamp, finds the same rows; a
      float literal does if neither it nor the column holds a NaN or -0. */
  lemma PlainShortcut(rel: Relation, probe: Probe)
    requires Plain(probe.v)
    requires forall i ::
               0 <= i < |rel.stored| && probe.ci < |rel.stored[i].row| && rel.stored[i].row[probe.ci].VFloat? ==>
      Plain(rel.stored[i].row[probe.ci])
    ensures !Collision(rel.stored, probe)
  {
    forall i | 0 <= i < |rel.stored| && probe.ci < |rel.stored[i].row|
      ensures !Collides(rel.stored[i].row[probe.ci], probe.v)
    {
      PlainNeverCollides(rel.stored[i].row[probe.ci], probe.v);
    }
  }

  const BIG := Relation([Column("k", TBigint, false, false, false, true, "", "")], [Stored(1, [VInt(TWO_53 + 1)])])

  const BIG_WHERE := Cmp(Eq, Col("", "k"), Lit(VInt(TWO_53)))

  lemma BigCollides()
    ensures Shaped(BIG)
    ensures UniqueEquality(Some(BIG_WHERE), "t", BIG.cols) == Some(Probe(0, VInt(TWO_53)))
    ensures Collision(BIG.stored, Probe(0, VInt(TWO_53)))
  {
    CollisionsExist();
    assert Collides(BIG.stored[0].row[0], VInt(TWO_53));
  }

  /** WHERE k = 9007199254740992 over a table that holds 9007199254740993: the scan finds the row, the
      shortcut does not. */
  lemma BigKeyIsMissed(now: int)
    ensures CollectCandidates(now, "t", BIG, Some(BIG_WHERE)) !=
            Scan(Ctx(TableScope("t", BIG.cols), now, None), Some(BIG_WHERE), BIG.stored)
  {
    BigCollides();
    ShortcutIsScanIff(now, "t", BIG, BIG_WHERE);
  }
}
