/** The left-deep nested-loop join. */
module Joins {
  import opened Values
  import opened Schema
  import opened Ast
  import opened Eval

  /** One join step: the scope of the prefix including the new table, the ON condition, the kind, and
      the number of columns on the right. */
  datatype JoinStep = JoinStep(c: Ctx, on: Expr, kind: JoinKind, width: nat)

  function Nulls(n: nat): Row { if n == 0 then [] else [VNull] + Nulls(n - 1) }

  // --- the loop as the source runs it, stopping at the first error -------------------------------

  function MatchRow(j: JoinStep, l: Row, rs: seq<Row>): Outcome<seq<Row>>
    decreases |rs|
  {
    if rs == [] then Ok([])
    else
      var t :- EvalBool(j.c, j.on, l + rs[0]);
      var rest :- MatchRow(j, l, rs[1..]);
      Ok(if Accepts(t) then [l + rs[0]] + rest else rest)
  }

  function PadIfUnmatched(j: JoinStep, l: Row, matched: seq<Row>): seq<Row> {
    if matched == [] && j.kind.Left? then [l + Nulls(j.width)] else matched
  }

  function JoinRows(j: JoinStep, ls: seq<Row>, rs: seq<Row>): Outcome<seq<Row>>
    decreases |ls|
  {
    if ls == [] then Ok([])
    else
      var matched :- MatchRow(j, ls[0], rs);
      var rest :- JoinRows(j, ls[1..], rs);
      Ok(PadIfUnmatched(j, ls[0], matched) + rest)
  }

  /** The chain: table i + 1 is joined to everything before it. */
  function JoinChain(steps: seq<JoinStep>, joined: seq<Row>, tables: seq<seq<Row>>): Outcome<seq<Row>>
    requires |steps| == |tables|
    decreases |steps|
  {
    if steps == [] then Ok(joined)
    else
      var next :- JoinRows(steps[0], joined, tables[0]);
      JoinChain(steps[1..], next, tables[1..])
  }

  // --- SQL-92 section 7.5 ----------------------------------------------------------------------------

  /** The condition is TRUE for this combination. */
  predicate OnTrue(j: JoinStep, row: Row) {
    var o := EvalBool(j.c, j.on, row);
    o.Ok? && Accepts(o.value)
  }

  function Pairs(l: Row, rs: seq<Row>): seq<Row> {
    if rs == [] then [] else [l + rs[0]] + Pairs(l, rs[1..])
  }

  /** The Cartesian product, left rows varying slowest. */
  function Product(ls: seq<Row>, rs: seq<Row>): seq<Row> {
    if ls == [] then [] else Pairs(ls[0], rs) + Product(ls[1..], rs)
  }

  function Filter(j: JoinStep, rows: seq<Row>): seq<Row> {
    if rows == [] then []
    else if OnTrue(j, rows[0]) then [rows[0]] + Filter(j, rows[1..])
    else Filter(j, rows[1..])
  }

  /** The inner join: the product restricted to the combinations for which ON is TRUE. */
  function InnerJoin(j: JoinStep, ls: seq<Row>, rs: seq<Row>): seq<Row> { Filter(j, Product(ls, rs)) }

  predicate Unmatched(j: JoinStep, l: Row, rs: seq<Row>) { Filter(j, Pairs(l, rs)) == [] }

  /** The left rows without a partner, padded with NULL. */
  function Padded(j: JoinStep, ls: seq<Row>, rs: seq<Row>): seq<Row> {
    if ls == [] then []
    else if Unmatched(j, ls[0], rs) then [ls[0] + Nulls(j.width)] + Padded(j, ls[1..], rs)
    else Padded(j, ls[1..], rs)
  }

  lemma {:induction false} FilterConcat(j: JoinStep, a: seq<Row>, b: seq<Row>)
    ensures Filter(j, a + b) == Filter(j, a) + Filter(j, b)
  {
    if a == [] {
      assert a + b == b;
    } else {
      assert (a + b)[1..] == a[1..] + b;
      FilterConcat(j, a[1..], b);
    }
  }

  lemma {:induction false} MatchRowIsFilter(j: JoinStep, l: Row, rs: seq<Row>)
    requires MatchRow(j, l, rs).Ok?
    ensures MatchRow(j, l, rs).value == Filter(j, Pairs(l, rs))
    decreases |rs|
  {
    if rs != [] {
      MatchRowIsFilter(j, l, rs[1..]);
      assert Pairs(l, rs)[1..] == Pairs(l, rs[1..]);
    }
  }

  /** An inner step yields exactly the filtered product, in order. */
  lemma {:induction false} InnerStepIsFilteredProduct(j: JoinStep, ls: seq<Row>, rs: seq<Row>)
    requires j.kind.Inner? && JoinRows(j, ls, rs).Ok?
    ensures JoinRows(j, ls, rs).value == InnerJoin(j, ls, rs)
    decreases |ls|
  {
    if ls != [] {
      MatchRowIsFilter(j, ls[0], rs);
      InnerStepIsFilteredProduct(j, ls[1..], rs);
      FilterConcat(j, Pairs(ls[0], rs), Product(ls[1..], rs));
    }
  }

  /** A left step yields the inner join together with the padded unmatched rows. */
  lemma {:induction false} LeftStepIsUnion(j: JoinStep, ls: seq<Row>, rs: seq<Row>)
    requires j.kind.Left? && JoinRows(j, ls, rs).Ok?
    ensures multiset(JoinRows(j, ls, rs).value) == multiset(InnerJoin(j, ls, rs)) + multiset(Padded(j, ls, rs))
    decreases |ls|
  {
    if ls != [] {
      MatchRowIsFilter(j, ls[0], rs);
      LeftStepIsUnion(j, ls[1..], rs);
      FilterConcat(j, Pairs(ls[0], rs), Product(ls[1..], rs));
    }
  }

  /** The left join with its rows in the order of the left table. */
  function LeftJoin(j: JoinStep, ls: seq<Row>, rs: seq<Row>): seq<Row> {
    if ls == [] then []
    else
      (if Unmatched(j, ls[0], rs) then [ls[0] + Nulls(j.width)] else Filter(j, Pairs(ls[0], rs)))
      + LeftJoin(j, ls[1..], rs)
  }

  function Join(j: JoinStep, ls: seq<Row>, rs: seq<Row>): seq<Row> {
    if j.kind.Inner? then InnerJoin(j, ls, rs) else LeftJoin(j, ls, rs)
  }

  lemma {:induction false} LeftStepIsLeftJoin(j: JoinStep, ls: seq<Row>, rs: seq<Row>)
    requires j.kind.Left? && JoinRows(j, ls, rs).Ok?
    ensures JoinRows(j, ls, rs).value == LeftJoin(j, ls, rs)
    decreases |ls|
  {
    if ls != [] {
      MatchRowIsFilter(j, ls[0], rs);
      LeftStepIsLeftJoin(j, ls[1..], rs);
    }
  }

  /** ((T0 join T1) join T2) ... by definition. */
  function LeftDeep(steps: seq<JoinStep>, joined: seq<Row>, tables: seq<seq<Row>>): seq<Row>
    requires |steps| == |tables|
    decreases |steps|
  {
    if steps == [] then joined else LeftDeep(steps[1..], Join(steps[0], joined, tables[0]), tables[1..])
  }

  /** The nested loops compute the left-deep join of any chain of INNER and LEFT steps. */
  lemma {:induction false} ChainIsLeftDeep(steps: seq<JoinStep>, joined: seq<Row>, tables: seq<seq<Row>>)
    requires |steps| == |tables| && JoinChain(steps, joined, tables).Ok?
    ensures JoinChain(steps, joined, tables).value == LeftDeep(steps, joined, tables)
    decreases |steps|
  {
    if steps != [] {
      if steps[0].kind.Inner? { InnerStepIsFilteredProduct(steps[0], joined, tables[0]); }
      else { LeftStepIsLeftJoin(steps[0], joined, tables[0]); }
      ChainIsLeftDeep(steps[1..], JoinRows(steps[0], joined, tables[0]).value, tables[1..]);
    }
  }

  // --- counting ---------------------------------------------------------------------------------------------

  function MatchCount(j: JoinStep, l: Row, rs: seq<Row>): nat { |Filter(j, Pairs(l, rs))| }

  function CountAtLeastOne(j: JoinStep, ls: seq<Row>, rs: seq<Row>): nat {
    if ls == [] then 0
    else (if MatchCount(j, ls[0], rs) == 0 then 1 else MatchCount(j, ls[0], rs)) + CountAtLeastOne(j, ls[1..], rs)
  }

  /** A left step has, for each left row, as many rows as matches, but at least one. */
  lemma {:induction false} LeftStepCount(j: JoinStep, ls: seq<Row>, rs: seq<Row>)
    requires j.kind.Left? && JoinRows(j, ls, rs).Ok?
    ensures |JoinRows(j, ls, rs).value| == CountAtLeastOne(j, ls, rs)
    decreases |ls|
  {
    if ls != [] {
      MatchRowIsFilter(j, ls[0], rs);
      LeftStepCount(j, ls[1..], rs);
    }
  }

  // --- nothing is lost -----------------------------------------------------------------------------------------

  predicate Extends(row: Row, l: Row) { |l| <= |row| && row[..|l|] == l }

  predicate HasExtension(rows: seq<Row>, l: Row) { exists i :: 0 <= i < |rows| && Extends(rows[i], l) }

  lemma ExtensionConcat(a: seq<Row>, b: seq<Row>, l: Row)
    ensures HasExtension(a, l) ==> HasExtension(a + b, l)
    ensures HasExtension(b, l) ==> HasExtension(a + b, l)
  {
    if HasExtension(a, l) {
      var i :| 0 <= i < |a| && Extends(a[i], l);
      assert Extends((a + b)[i], l);
    }
    if HasExtension(b, l) {
      var i :| 0 <= i < |b| && Extends(b[i], l);
      assert Extends((a + b)[|a| + i], l);
    }
  }

  lemma {:induction false} MatchesExtend(j: JoinStep, l: Row, rs: seq<Row>)
    requires MatchRow(j, l, rs).Ok?
    ensures forall i :: 0 <= i < |MatchRow(j, l, rs).value| ==> Extends(MatchRow(j, l, rs).value[i], l)
    decreases |rs|
  {
    if rs != [] { MatchesExtend(j, l, rs[1..]); }
  }

  lemma {:induction false} LeftStepKeepsRows(j: JoinStep, ls: seq<Row>, rs: seq<Row>, l: Row)
    requires j.kind.Left? && JoinRows(j, ls, rs).Ok? && l in ls
    ensures HasExtension(JoinRows(j, ls, rs).value, l)
    decreases |ls|
  {
    var first := PadIfUnmatched(j, ls[0], MatchRow(j, ls[0], rs).value);
    var rest := JoinRows(j, ls[1..], rs).value;
    ExtensionConcat(first, rest, l);
    if l == ls[0] {
      MatchesExtend(j, l, rs);
      assert Extends(first[0], l);
    } else {
      LeftStepKeepsRows(j, ls[1..], rs, l);
    }
  }

  /** A chain of LEFT joins keeps every row of the first table. */
  lemma {:induction false} LeftChainKeepsRows(steps: seq<JoinStep>, joined: seq<Row>, tables: seq<seq<Row>>, l: Row)
    requires |steps| == |tables| && JoinChain(steps, joined, tables).Ok?
    requires forall i :: 0 <= i < |steps| ==> steps[i].kind.Left?
    requires HasExtension(joined, l)
    ensures HasExtension(JoinChain(steps, joined, tables).value, l)
    decreases |steps|
  {
    if steps != [] {
      var next := JoinRows(steps[0], joined, tables[0]).value;
      var i :| 0 <= i < |joined| && Extends(joined[i], l);
      assert joined[i] in joined;
      LeftStepKeepsRows(steps[0], joined, tables[0], joined[i]);
      var k :| 0 <= k < |next| && Extends(next[k], joined[i]);
      assert next[k][..|l|] == next[k][..|joined[i]|][..|l|];
      assert Extends(next[k], l);
      LeftChainKeepsRows(steps[1..], next, tables[1..], l);
    }
  }

  // --- inner inside left ------------------------------------------------------------------------------------------

  /** a can be obtained from b by leaving rows out. */
  predicate Subsequence(a: seq<Row>, b: seq<Row>)
    decreases |b|
  {
    a == [] || (b != [] && ((a[0] == b[0] && Subsequence(a[1..], b[1..])) || Subsequence(a, b[1..])))
  }

  lemma {:induction false} SubsequenceSame(p: seq<Row>, a: seq<Row>, b: seq<Row>)
    requires Subsequence(a, b)
    ensures Subsequence(p + a, p + b)
    decreases |p|
  {
    if p == [] {
      assert p + a == a && p + b == b;
    } else {
      assert (p + a)[1..] == p[1..] + a && (p + b)[1..] == p[1..] + b;
      SubsequenceSame(p[1..], a, b);
    }
  }

  lemma {:induction false} SubsequenceSkip(p: seq<Row>, a: seq<Row>, b: seq<Row>)
    requires Subsequence(a, b)
    ensures Subsequence(a, p + b)
    decreases |p|
  {
    if p == [] {
      assert p + b == b;
    } else {
      assert (p + b)[1..] == p[1..] + b;
      SubsequenceSkip(p[1..], a, b);
    }
  }

  /** The step is the same, or INNER has become LEFT. */
  predicate Loosens(a: JoinStep, b: JoinStep) { b == a || (a.kind.Inner? && b == a.(kind := Left)) }

  lemma {:induction false} KindDoesNotMatch(a: JoinStep, b: JoinStep, l: Row, rs: seq<Row>)
    requires Loosens(a, b)
    ensures MatchRow(a, l, rs) == MatchRow(b, l, rs)
    decreases |rs|
  {
    if rs != [] { KindDoesNotMatch(a, b, l, rs[1..]); }
  }

  /** More left rows and a looser step: nothing is lost, and no error is new. */
  lemma {:induction false} StepWithin(a: JoinStep, b: JoinStep, ls: seq<Row>, ls': seq<Row>, rs: seq<Row>)
    requires Loosens(a, b) && Subsequence(ls, ls') && JoinRows(b, ls', rs).Ok?
    ensures JoinRows(a, ls, rs).Ok? && Subsequence(JoinRows(a, ls, rs).value, JoinRows(b, ls', rs).value)
    decreases |ls'|
  {
    if ls != [] {
      var rest := JoinRows(b, ls'[1..], rs).value;
      var m := MatchRow(b, ls'[0], rs).value;
      if ls[0] == ls'[0] && Subsequence(ls[1..], ls'[1..]) {
        StepWithin(a, b, ls[1..], ls'[1..], rs);
        KindDoesNotMatch(a, b, ls[0], rs);
        RowWithin(a, b, ls[0], m, JoinRows(a, ls[1..], rs).value, rest);
      } else {
        StepWithin(a, b, ls, ls'[1..], rs);
        SubsequenceSkip(PadIfUnmatched(b, ls'[0], m), JoinRows(a, ls, rs).value, rest);
      }
    }
  }

  lemma RowWithin(a: JoinStep, b: JoinStep, l: Row, m: seq<Row>, x: seq<Row>, y: seq<Row>)
    requires Loosens(a, b) && Subsequence(x, y)
    ensures Subsequence(PadIfUnmatched(a, l, m) + x, PadIfUnmatched(b, l, m) + y)
  {
    var p, q := PadIfUnmatched(a, l, m), PadIfUnmatched(b, l, m);
    if p == q {
      SubsequenceSame(p, x, y);
    } else {
      assert p + x == x;
      SubsequenceSkip(q, x, y);
    }
  }

  /** Turning any INNER steps of a chain into LEFT loses no row: if the looser chain succeeds, so does
      the other, and its rows are among those of the looser one, in order. */
  lemma {:induction false} InnerWithinLeft(
    as_: seq<JoinStep>, bs: seq<JoinStep>, joined: seq<Row>, joined': seq<Row>, tables: seq<seq<Row>>)
    requires |as_| == |bs| == |tables| && forall i :: 0 <= i < |bs| ==> Loosens(as_[i], bs[i])
    requires Subsequence(joined, joined') && JoinChain(bs, joined', tables).Ok?
    ensures JoinChain(as_, joined, tables).Ok?
    ensures Subsequence(JoinChain(as_, joined, tables).value, JoinChain(bs, joined', tables).value)
    decreases |bs|
  {
    if bs != [] {
      StepWithin(as_[0], bs[0], joined, joined', tables[0]);
      InnerWithinLeft(as_[1..], bs[1..], JoinRows(as_[0], joined, tables[0]).value,
                      JoinRows(bs[0], joined', tables[0]).value, tables[1..]);
    }
  }

  // --- the nested loops ------------------------------------------------------------------------------

  method NestedLoop(j: JoinStep, ls: seq<Row>, rs: seq<Row>) returns (r: Outcome<seq<Row>>)
    ensures r == JoinRows(j, ls, rs)
  {
    var next: seq<Row> := [];
    var todo := ls;
    PrependTwice([], [], JoinRows(j, ls, rs));
    while todo != []
      invariant JoinRows(j, ls, rs) == Prepend(next, JoinRows(j, todo, rs))
      decreases |todo|
    {
      var l := todo[0];
      var found := InnerLoop(j, l, rs);
      if found.Err? { return Err(found.code); }
      if found.Panic? { return Panic; }
      PrependTwice(next, PadIfUnmatched(j, l, found.value), JoinRows(j, todo[1..], rs));
      next := next + PadIfUnmatched(j, l, found.value);
      todo := todo[1..];
    }
    assert next + [] == next;
    return Ok(next);
  }

  method InnerLoop(j: JoinStep, l: Row, rs: seq<Row>) returns (r: Outcome<seq<Row>>)
    ensures r == MatchRow(j, l, rs)
  {
    var found: seq<Row> := [];
    var todo := rs;
    PrependTwice([], [], MatchRow(j, l, rs));
    while todo != []
      invariant MatchRow(j, l, rs) == Prepend(found, MatchRow(j, l, todo))
      decreases |todo|
    {
      var t := EvalBool(j.c, j.on, l + todo[0]);
      if t.Err? { return Err(t.code); }
      if t.Panic? { return Panic; }
      var hit := if Accepts(t.value) then [l + todo[0]] else [];
      PrependTwice(found, hit, MatchRow(j, l, todo[1..]));
      found := found + hit;
      todo := todo[1..];
    }
    assert found + [] == found;
    return Ok(found);
  }
}
