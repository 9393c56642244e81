/** The recursive-descent parser with its cursor, each method proved against the grammar. */
module ParserStore {
  import opened Values
  import opened Ast
  import G = Grammar

  type Token = G.Token

  /** A method's result against the grammar: the same value with the cursor at the rest, or both fail. */
  predicate Agrees<T(==)>(spec: G.Parsed<T>, r: Option<T>, rest: G.Tokens) {
    if r.Some? then spec == G.Got(r.value, rest) else spec.Failed?
  }

  function Prefixed<T>(done: seq<T>, more: G.Parsed<seq<T>>): G.Parsed<seq<T>> {
    if more.Got? then G.Got(done + more.value, more.rest) else G.Failed
  }

  lemma PrefixedNil<T>(more: G.Parsed<seq<T>>)
    ensures Prefixed([], more) == more
  {
    if more.Got? { assert [] + more.value == more.value; }
  }

  lemma PrefixedStep<T>(done: seq<T>, x: T, more: G.Parsed<seq<T>>)
    ensures Prefixed(done, Prefixed([x], more)) == Prefixed(done + [x], more)
  {
    if more.Got? { assert done + ([x] + more.value) == done + [x] + more.value; }
  }

  function PrefixedFields(done: G.Fields, more: G.Parsed<G.Fields>): G.Parsed<G.Fields> {
    if more.Got? then
      G.Got(G.Fields(false, done.exprs + more.value.exprs, done.aliases + more.value.aliases), more.rest)
    else G.Failed
  }

  function PrefixedJoins(done: G.Joined, more: G.Parsed<G.Joined>): G.Parsed<G.Joined> {
    if more.Got? then
      G.Got(G.Joined(done.tables + more.value.tables, done.on + more.value.on, done.kinds + more.value.kinds),
        more.rest)
    else G.Failed
  }

  function OneField(e: Expr, alias: string): G.Fields { G.Fields(false, [e], [alias]) }

  function AddField(done: G.Fields, e: Expr, alias: string): G.Fields {
    G.Fields(false, done.exprs + [e], done.aliases + [alias])
  }

  lemma FieldsStep(done: G.Fields, e: Expr, alias: string, more: G.Parsed<G.Fields>)
    ensures PrefixedFields(done, PrefixedFields(OneField(e, alias), more)) ==
            PrefixedFields(AddField(done, e, alias), more)
  {
    if more.Got? {
      assert done.exprs + ([e] + more.value.exprs) == done.exprs + [e] + more.value.exprs;
      assert done.aliases + ([alias] + more.value.aliases) == done.aliases + [alias] + more.value.aliases;
    }
  }

  function OneJoin(ref: TableRef, on: Expr, kind: JoinKind): G.Joined { G.Joined([ref], [on], [kind]) }

  function AddJoin(done: G.Joined, ref: TableRef, on: Expr, kind: JoinKind): G.Joined {
    G.Joined(done.tables + [ref], done.on + [on], done.kinds + [kind])
  }

  lemma JoinsNil(more: G.Parsed<G.Joined>)
    ensures PrefixedJoins(G.Joined([], [], []), more) == more
  {
    if more.Got? {
      assert [] + more.value.tables == more.value.tables && [] + more.value.on == more.value.on;
      assert [] + more.value.kinds == more.value.kinds;
    }
  }

  lemma JoinsStep(done: G.Joined, ref: TableRef, on: Expr, kind: JoinKind, more: G.Parsed<G.Joined>)
    ensures PrefixedJoins(done, PrefixedJoins(OneJoin(ref, on, kind), more)) ==
            PrefixedJoins(AddJoin(done, ref, on, kind), more)
  {
    if more.Got? {
      assert done.tables + ([ref] + more.value.tables) == done.tables + [ref] + more.value.tables;
      assert done.on + ([on] + more.value.on) == done.on + [on] + more.value.on;
      assert done.kinds + ([kind] + more.value.kinds) == done.kinds + [kind] + more.value.kinds;
    }
  }

  class Parser {
    const toks: G.Tokens
    var i: nat

    constructor (toks: G.Tokens)
      ensures Valid() && Unread() == toks
    {
      this.toks, i := toks, 0;
    }

    ghost predicate Valid()
      reads this
    {
      i <= |toks|
    }

    ghost function Unread(): G.Tokens
      requires Valid()
      reads this
    {
      toks[i..]
    }

    // --- the cursor -------------------------------------------------------------------------------------

    method AtKw(kw: string) returns (b: bool)
      requires Valid()
      ensures b == G.AtKw(Unread(), kw)
    {
      return i < |toks| && toks[i] == G.Ident(kw);
    }

    method AtPunct(p: string) returns (b: bool)
      requires Valid()
      ensures b == G.AtPunct(Unread(), p)
    {
      return i < |toks| && toks[i] == G.Punct(p);
    }

    /** Moves on, unless at the end of input. */
    method Next()
      requires Valid()
      modifies `i
      ensures Valid() && Unread() == if old(Unread()) == [] then [] else old(Unread())[1..]
    {
      if i < |toks| { i := i + 1; }
    }

    method Expect(t: Token) returns (ok: bool)
      requires Valid()
      modifies `i
      ensures Valid()
      ensures if ok then G.Expect(old(Unread()), t) == G.Got(true, Unread()) else G.Expect(old(Unread()), t).Failed?
    {
      ok := i < |toks| && toks[i] == t;
      if ok { i := i + 1; }
    }

    // --- expressions ----------------------------------------------------------------------------------------

    method ParseOr() returns (r: Option<Expr>)
      requires Valid()
      modifies `i
      ensures Valid() && Agrees(G.ParseOr(old(Unread())), r, Unread())
      decreases |toks| - i, 10
    {
      r := ParseAnd();
      if r.None? { return; }
      var more := AtKw("or");
      while more
        invariant Valid() && r.Some? && i > old(i) && more == G.AtKw(Unread(), "or")
        invariant G.ParseOr(old(Unread())) == G.OrLoop(r.value, Unread())
        decreases |toks| - i
      {
        Next();
        var right := ParseAnd();
        if right.None? { return None; }
        r := Some(Or(r.value, right.value));
        more := AtKw("or");
      }
    }

    method ParseAnd() returns (r: Option<Expr>)
      requires Valid()
      modifies `i
      ensures Valid() && Agrees(G.ParseAnd(old(Unread())), r, Unread())
      decreases |toks| - i, 9
    {
      r := ParseNot();
      if r.None? { return; }
      var more := AtKw("and");
      while more
        invariant Valid() && r.Some? && i > old(i) && more == G.AtKw(Unread(), "and")
        invariant G.ParseAnd(old(Unread())) == G.AndLoop(r.value, Unread())
        decreases |toks| - i
      {
        Next();
        var right := ParseNot();
        if right.None? { return None; }
        r := Some(And(r.value, right.value));
        more := AtKw("and");
      }
    }

    method ParseNot() returns (r: Option<Expr>)
      requires Valid()
      modifies `i
      ensures Valid() && Agrees(G.ParseNot(old(Unread())), r, Unread())
      decreases |toks| - i, 8
    {
      var negated := AtKw("not");
      if negated {
        Next();
        r := ParseNot();
        if r.Some? { r := Some(Not(r.value)); }
      } else {
        r := ParseCmp();
      }
    }

    method ParseCmp() returns (r: Option<Expr>)
      requires Valid()
      modifies `i
      ensures Valid() && Agrees(G.ParseCmp(old(Unread())), r, Unread())
      decreases |toks| - i, 7
    {
      r := ParseAdd();
      if r.Some? { r := ParseTail(r.value); }
    }

    /** A bare NOT that does not open NOT IN is put back. */
    method ParseTail(l: Expr) returns (r: Option<Expr>)
      requires Valid()
      modifies `i
      ensures Valid() && Agrees(G.CmpTail(l, old(Unread())), r, Unread())
      decreases |toks| - i, 0
    {
      if i == |toks| { return Some(l); }
      var t := toks[i];
      if G.CmpOf(t).Some? {
        Next();
        var right := ParseAdd();
        return if right.Some? then Some(Cmp(G.CmpOf(t).value, l, right.value)) else None;
      }
      var isNull := AtKw("is");
      if isNull {
        r := ParseIsNull(l);
        return;
      }
      var negated := AtKw("not");
      if negated {
        var save := i;
        Next();
        var isIn := AtKw("in");
        if !isIn {
          i := save;
          return Some(l);
        }
        Next();
        r := ParseIn(l, true);
        return;
      }
      var isIn := AtKw("in");
      if !isIn { return Some(l); }
      Next();
      r := ParseIn(l, false);
    }

    method ParseIsNull(l: Expr) returns (r: Option<Expr>)
      requires Valid() && G.AtKw(Unread(), "is")
      modifies `i
      ensures Valid() && Agrees(G.CmpTail(l, old(Unread())), r, Unread())
    {
      Next();
      var negated := AtKw("not");
      if negated { Next(); }
      var ok := Expect(G.Ident("null"));
      return if ok then Some(IsNull(l, negated)) else None;
    }

    method ParseIn(l: Expr, negated: bool) returns (r: Option<Expr>)
      requires Valid()
      modifies `i
      ensures Valid() && Agrees(G.ParseIn(l, negated, old(Unread())), r, Unread())
      decreases |toks| - i, 12
    {
      var ok := Expect(G.Punct("("));
      if !ok { return None; }
      var isSelect := AtKw("select");
      if isSelect {
        var sub := ParseSelect();
        if sub.None? { return None; }
        ok := Expect(G.Punct(")"));
        return if ok then Some(InSub(l, sub.value, negated)) else None;
      }
      var list := ParseList();
      if list.None? { return None; }
      ok := Expect(G.Punct(")"));
      return if ok then Some(InList(l, list.value, negated)) else None;
    }

    method ParseList() returns (r: Option<seq<Expr>>)
      requires Valid()
      modifies `i
      ensures Valid() && Agrees(G.ParseList(old(Unread())), r, Unread())
      decreases |toks| - i, 11
    {
      var list: seq<Expr>, more := [], true;
      PrefixedNil(G.ParseList(Unread()));
      while more
        invariant Valid() && i >= old(i)
        invariant more ==> G.ParseList(old(Unread())) == Prefixed(list, G.ParseList(Unread()))
        invariant !more ==> G.ParseList(old(Unread())) == G.Got(list, Unread())
        decreases more, |toks| - i
      {
        var e := ParseOr();
        if e.None? { return None; }
        more := AtPunct(",");
        if more { Next(); }
        PrefixedStep(list, e.value, G.ParseList(Unread()));
        list := list + [e.value];
      }
      return Some(list);
    }

    method ParseAdd() returns (r: Option<Expr>)
      requires Valid()
      modifies `i
      ensures Valid() && Agrees(G.ParseAdd(old(Unread())), r, Unread())
      decreases |toks| - i, 6
    {
      r := ParseMul();
      if r.None? { return; }
      while i < |toks| && G.AddOf(toks[i]).Some?
        invariant Valid() && r.Some? && i > old(i)
        invariant G.ParseAdd(old(Unread())) == G.AddLoop(r.value, Unread())
        decreases |toks| - i
      {
        var op := G.AddOf(toks[i]).value;
        Next();
        var right := ParseMul();
        if right.None? { return None; }
        r := Some(Binary(op, r.value, right.value));
      }
    }

    method ParseMul() returns (r: Option<Expr>)
      requires Valid()
      modifies `i
      ensures Valid() && Agrees(G.ParseMul(old(Unread())), r, Unread())
      decreases |toks| - i, 5
    {
      r := ParseUnary();
      if r.None? { return; }
      while i < |toks| && G.MulOf(toks[i]).Some?
        invariant Valid() && r.Some? && i > old(i)
        invariant G.ParseMul(old(Unread())) == G.MulLoop(r.value, Unread())
        decreases |toks| - i
      {
        var op := G.MulOf(toks[i]).value;
        Next();
        var right := ParseUnary();
        if right.None? { return None; }
        r := Some(Binary(op, r.value, right.value));
      }
    }

    method ParseUnary() returns (r: Option<Expr>)
      requires Valid()
      modifies `i
      ensures Valid() && Agrees(G.ParseUnary(old(Unread())), r, Unread())
      decreases |toks| - i, 4
    {
      var minus := AtPunct("-");
      if minus {
        Next();
        r := ParseUnary();
        if r.Some? { r := Some(Binary(Sub, Lit(VInt(0)), r.value)); }
      } else {
        r := ParsePrimary();
      }
    }

    method ParsePrimary() returns (r: Option<Expr>)
      requires Valid()
      modifies `i
      ensures Valid() && Agrees(G.ParsePrimary(old(Unread())), r, Unread())
      decreases |toks| - i, 3
    {
      if i == |toks| { return None; }
      var t := toks[i];
      match t
      case Num(text) =>
        Next();
        var v := G.ParseNumber(text);
        return if v.Some? then Some(Lit(v.value)) else None;
      case Str(text) =>
        Next();
        return Some(Lit(VText(text)));
      case Ident(text) =>
        Next();
        if text == "null" { return Some(Lit(VNull)); }
        if text == "true" { return Some(Lit(VBool(true))); }
        if text == "false" { return Some(Lit(VBool(false))); }
        r := ParseNamed(text);
      case Punct(text) =>
        if text != "(" { return None; }
        Next();
        r := ParseOr();
        if r.None? { return; }
        var ok := Expect(G.Punct(")"));
        if !ok { r := None; }
    }

    method ParseNamed(name: string) returns (r: Option<Expr>)
      requires Valid()
      modifies `i
      ensures Valid() && Agrees(G.ParseNamed(name, old(Unread())), r, Unread())
      decreases |toks| - i, 11
    {
      var qualified := AtPunct(".");
      if qualified {
        ghost var before := Unread();
        Next();
        if i == |toks| || !toks[i].Ident? { return None; }
        r := Some(Col(name, toks[i].text));
        Next();
        assert Unread() == before[2..];
        return;
      }
      var call := AtPunct("(");
      if !call { return Some(Col("", name)); }
      ghost var before := Unread();
      Next();
      assert [G.Punct("(")] + Unread() == before;
      r := ParseArguments(name);
    }

    /** What stands between the parentheses of a call, and the closing one. */
    method ParseArguments(name: string) returns (r: Option<Expr>)
      requires Valid() && 0 < i && toks[i - 1] == G.Punct("(")
      modifies `i
      ensures Valid() && Agrees(G.ParseNamed(name, [G.Punct("(")] + old(Unread())), r, Unread())
      decreases |toks| - i, 11
    {
      ghost var before := [G.Punct("(")] + Unread();
      assert before[1..] == Unread();
      var star := AtPunct("*");
      if star {
        assert before[2..] == Unread()[1..];
        Next();
        var ok := Expect(G.Punct(")"));
        return if ok then Some(Func(name, true, None)) else None;
      }
      var empty := AtPunct(")");
      if empty {
        assert before[2..] == Unread()[1..];
        Next();
        return Some(Func(name, false, None));
      }
      var arg := ParseOr();
      if arg.None? { return None; }
      var ok := Expect(G.Punct(")"));
      return if ok then Some(Func(name, false, Some(arg.value))) else None;
    }

    // --- SELECT ---------------------------------------------------------------------------------------------

    method ParseIdent() returns (r: Option<string>)
      requires Valid()
      modifies `i
      ensures Valid() && Agrees(G.ParseIdent(old(Unread())), r, Unread())
    {
      if i == |toks| || !toks[i].Ident? { return None; }
      r := Some(toks[i].text);
      Next();
    }

    /** `[AS] ident`, unless a clause starts here. */
    method ParseRefAlias() returns (r: Option<string>)
      requires Valid()
      modifies `i
      ensures Valid() && Agrees(G.ParseRefAlias(old(Unread())), r, Unread())
    {
      var named := AtKw("as");
      if named {
        Next();
        r := ParseIdent();
      } else if i < |toks| && toks[i].Ident? && !G.RefStop(toks[i].text) {
        r := ParseIdent();
      } else {
        r := Some("");
      }
    }

    method ParseFieldAlias() returns (r: Option<string>)
      requires Valid()
      modifies `i
      ensures Valid() && Agrees(G.ParseFieldAlias(old(Unread())), r, Unread())
    {
      var named := AtKw("as");
      if named {
        Next();
        r := ParseIdent();
      } else if i < |toks| && toks[i].Ident? && !G.FieldStop(toks[i].text) {
        r := ParseIdent();
      } else {
        r := Some("");
      }
    }

    method ParseTableRef() returns (r: Option<TableRef>)
      requires Valid()
      modifies `i
      ensures Valid() && Agrees(G.ParseTableRef(old(Unread())), r, Unread())
      decreases |toks| - i, 13
    {
      var derived := AtPunct("(");
      if derived {
        Next();
        var isSelect := AtKw("select");
        if !isSelect { return None; }
        var sub := ParseSelect();
        if sub.None? { return None; }
        var ok := Expect(G.Punct(")"));
        if !ok { return None; }
        var alias := ParseRefAlias();
        return if alias.None? || alias.value == "" then None else Some(TableRef("", alias.value, Some(sub.value)));
      }
      var name := ParseIdent();
      if name.None? { return None; }
      var alias := ParseRefAlias();
      if alias.None? { return None; }
      return Some(TableRef(name.value, if alias.value == "" then name.value else alias.value, None));
    }

    method ParseFields() returns (r: Option<G.Fields>)
      requires Valid()
      modifies `i
      ensures Valid() && Agrees(G.ParseFieldList(old(Unread())), r, Unread())
      decreases |toks| - i, 12
    {
      var star := AtPunct("*");
      if star {
        Next();
        return Some(G.Fields(true, [], []));
      }
      var done, more := G.Fields(false, [], []), true;
      FieldsNil(G.ParseFields(Unread()));
      while more
        invariant Valid() && i >= old(i) && !done.star
        invariant more ==> G.ParseFieldList(old(Unread())) == PrefixedFields(done, G.ParseFields(Unread()))
        invariant !more ==> G.ParseFieldList(old(Unread())) == G.Got(done, Unread())
        decreases more, |toks| - i
      {
        var e := ParseOr();
        if e.None? { return None; }
        var alias := ParseFieldAlias();
        if alias.None? { return None; }
        more := AtPunct(",");
        if more { Next(); }
        FieldsStep(done, e.value, alias.value, G.ParseFields(Unread()));
        done := AddField(done, e.value, alias.value);
      }
      return Some(done);
    }

    /** The words that open a join. A dangling INNER or LEFT is put back. */
    method JoinStart() returns (r: Option<JoinKind>)
      requires Valid()
      modifies `i
      ensures Valid() && Agrees(G.JoinStart(old(Unread())), r, Unread())
      ensures r.None? ==> i == old(i)
    {
      var save := i;
      var atJoin := AtKw("join");
      if atJoin {
        Next();
        return Some(Inner);
      }
      var atInner := AtKw("inner");
      if atInner {
        Next();
        atJoin := AtKw("join");
        if !atJoin { i := save; return None; }
        Next();
        return Some(Inner);
      }
      var atLeft := AtKw("left");
      if !atLeft { return None; }
      Next();
      var outer := AtKw("outer");
      if outer { Next(); }
      atJoin := AtKw("join");
      if !atJoin { i := save; return None; }
      Next();
      return Some(Left);
    }

    method ParseJoins() returns (r: Option<G.Joined>)
      requires Valid()
      modifies `i
      ensures Valid() && Agrees(G.ParseJoins(old(Unread())), r, Unread())
      decreases |toks| - i, 14
    {
      var done := G.Joined([], [], []);
      JoinsNil(G.ParseJoins(Unread()));
      while true
        invariant Valid() && i >= old(i)
        invariant G.ParseJoins(old(Unread())) == PrefixedJoins(done, G.ParseJoins(Unread()))
        decreases |toks| - i
      {
        var kind := JoinStart();
        if kind.None? {
          assert done.tables + [] == done.tables && done.on + [] == done.on && done.kinds + [] == done.kinds;
          return Some(done);
        }
        var ref := ParseTableRef();
        if ref.None? { return None; }
        var ok := Expect(G.Ident("on"));
        if !ok { return None; }
        var on := ParseOr();
        if on.None? { return None; }
        JoinsStep(done, ref.value, on.value, kind.value, G.ParseJoins(Unread()));
        done := AddJoin(done, ref.value, on.value, kind.value);
      }
    }

    method ParseClause(kw: string) returns (r: Option<Option<Expr>>)
      requires Valid()
      modifies `i
      ensures Valid() && Agrees(G.ParseClause(kw, old(Unread())), r, Unread())
      decreases |toks| - i, 12
    {
      var present := AtKw(kw);
      if !present { return Some(None); }
      Next();
      var e := ParseOr();
      return if e.Some? then Some(Some(e.value)) else None;
    }

    method ParseGroup() returns (r: Option<seq<Expr>>)
      requires Valid()
      modifies `i
      ensures Valid() && Agrees(G.ParseGroup(old(Unread())), r, Unread())
      decreases |toks| - i, 12
    {
      var present := AtKw("group");
      if !present { return Some([]); }
      Next();
      var ok := Expect(G.Ident("by"));
      if !ok { return None; }
      r := ParseList();
    }

    method ParseTerm() returns (r: Option<OrderTerm>)
      requires Valid()
      modifies `i
      ensures Valid() && Agrees(TermSpec(old(Unread())), r, Unread())
      decreases |toks| - i, 11
    {
      var e := ParseOr();
      if e.None? { return None; }
      var desc := AtKw("desc");
      if desc {
        Next();
      } else {
        var asc := AtKw("asc");
        if asc { Next(); }
      }
      return Some(OrderTerm(e.value, desc));
    }

    method ParseOrder() returns (r: Option<seq<OrderTerm>>)
      requires Valid()
      modifies `i
      ensures Valid() && Agrees(G.ParseOrder(old(Unread())), r, Unread())
      decreases |toks| - i, 12
    {
      var present := AtKw("order");
      if !present { return Some([]); }
      Next();
      var ok := Expect(G.Ident("by"));
      if !ok { return None; }
      var terms: seq<OrderTerm>, more := [], true;
      PrefixedNil(G.ParseTerms(Unread()));
      while more
        invariant Valid() && i > old(i)
        invariant more ==> G.ParseOrder(old(Unread())) == Prefixed(terms, G.ParseTerms(Unread()))
        invariant !more ==> G.ParseOrder(old(Unread())) == G.Got(terms, Unread())
        decreases more, |toks| - i
      {
        var term := ParseTerm();
        if term.None? { return None; }
        more := AtPunct(",");
        if more { Next(); }
        PrefixedStep(terms, term.value, G.ParseTerms(Unread()));
        terms := terms + [term.value];
      }
      return Some(terms);
    }

    method ParseLimit() returns (r: Option<Option<nat>>)
      requires Valid()
      modifies `i
      ensures Valid() && Agrees(G.ParseLimit(old(Unread())), r, Unread())
    {
      var present := AtKw("limit");
      if !present { return Some(None); }
      Next();
      if i == |toks| || !toks[i].Num? || '.' in toks[i].text { return None; }
      var n := G.ParseInt(toks[i].text);
      if n.None? || n.value < 0 { return None; }
      Next();
      return Some(Some(n.value));
    }

    method ParseSelect() returns (r: Option<Select>)
      requires Valid()
      modifies `i
      ensures Valid() && Agrees(G.ParseSelect(old(Unread())), r, Unread())
      decreases |toks| - i, 2
    {
      if i == |toks| { return None; }
      Next();
      var fields := ParseFields();
      if fields.None? { return None; }
      var ok := Expect(G.Ident("from"));
      if !ok { return None; }
      var first := ParseTableRef();
      if first.None? { return None; }
      var joins := ParseJoins();
      if joins.None? { return None; }
      var where := ParseClause("where");
      if where.None? { return None; }
      var group := ParseGroup();
      if group.None? { return None; }
      var having := ParseClause("having");
      if having.None? { return None; }
      var order := ParseOrder();
      if order.None? { return None; }
      var limit := ParseLimit();
      if limit.None? { return None; }
      return Some(Select([first.value] + joins.value.tables, joins.value.on, joins.value.kinds,
                         fields.value.star, fields.value.exprs, fields.value.aliases,
                         where.value, group.value, having.value, order.value, limit.value));
    }
  }

  /** One ORDER BY term with its direction. */
  function TermSpec(toks: G.Tokens): (r: G.Parsed<OrderTerm>)
    ensures r.Got? ==> |r.rest| < |toks|
  {
    var e := G.ParseOr(toks);
    if e.Failed? then G.Failed
    else
      var desc := G.AtKw(e.rest, "desc");
      G.Got(OrderTerm(e.value, desc), if desc || G.AtKw(e.rest, "asc") then e.rest[1..] else e.rest)
  }

  lemma FieldsNil(more: G.Parsed<G.Fields>)
    requires more.Got? ==> !more.value.star
    ensures PrefixedFields(G.Fields(false, [], []), more) == more
  {
    if more.Got? { assert [] + more.value.exprs == more.value.exprs && [] + more.value.aliases == more.value.aliases; }
  }
}
