/** Printing expressions, with the parentheses precedence needs, and queries, and reading them back. */
module Printing {
  import opened Values
  import opened Keys
  import opened Ast
  import opened Grammar

  // --- which expressions the parser can produce --------------------------------------------------------

  /** Words that mean something else where an operand starts. */
  predicate Reserved(name: string) { name in {"null", "true", "false", "not", "select"} }

  predicate PrintableValue(v: Value) {
    match v
    case VInt(i) => i >= 0
    case VFloat(f) => IsDecimal(FloatLiteral.write(f))
    case VTime(_) => false
    case _ => true
  }

  /** No reserved names, non-empty IN lists, literals that have a text. A negative number is a
      subtraction from zero. */
  predicate Printable(e: Expr)
    decreases e, 0
  {
    match e
    case Lit(v) => PrintableValue(v)
    case Col(table, name) => !Reserved(if table != "" then table else name)
    case Func(name, star, arg) => !Reserved(name) && (star ==> arg.None?) && (arg.Some? ==> Printable(arg.value))
    case Cmp(_, l, r) => Printable(l) && Printable(r)
    case IsNull(x, _) => Printable(x)
    case And(l, r) => Printable(l) && Printable(r)
    case Or(l, r) => Printable(l) && Printable(r)
    case Not(x) => Printable(x)
    case Binary(_, l, r) => Printable(l) && Printable(r)
    case InList(x, list, _) => Printable(x) && list != [] && AllPrintable(list)
    case InSub(x, sub, _) => Printable(x) && PrintableSelect(sub)
  }

  predicate AllPrintable(list: seq<Expr>)
    decreases list, 0
  {
    list == [] || (Printable(list[0]) && AllPrintable(list[1..]))
  }

  /** A table always has an alias, its own name if no other was given; a derived table has no name. */
  predicate PrintableRef(t: TableRef)
    decreases t, 0
  {
    t.alias != "" && (t.sub.Some? ==> t.table == "" && PrintableSelect(t.sub.value))
  }

  /** The lists belong together: a condition and a kind for each joined table, an alias for each field. */
  predicate PrintableSelect(s: Select)
    decreases s, 0
  {
    && s.tables != [] && |s.on| == |s.kinds| == |s.tables| - 1 && |s.aliases| == |s.fields|
    && (s.star <==> s.fields == [])
    && (forall i :: 0 <= i < |s.tables| ==> PrintableRef(s.tables[i]))
    && (forall i :: 0 <= i < |s.on| ==> Printable(s.on[i]))
    && (forall i :: 0 <= i < |s.fields| ==> Printable(s.fields[i]))
    && (s.where.Some? ==> Printable(s.where.value))
    && AllPrintable(s.group)
    && (s.having.Some? ==> Printable(s.having.value))
    && (forall i :: 0 <= i < |s.order| ==> Printable(s.order[i].expr))
    && (s.limit.Some? ==> s.limit.value <= MAX_INT64)
  }

  // --- printing --------------------------------------------------------------------------------------------

  function Level(e: Expr): nat {
    match e
    case Or(_, _) => 0
    case And(_, _) => 1
    case Not(_) => 2
    case Cmp(_, _, _) => 3
    case IsNull(_, _) => 3
    case InList(_, _, _) => 3
    case InSub(_, _, _) => 3
    case Binary(op, _, _) => if op.Add? || op.Sub? then 4 else 5
    case _ => 7
  }

  function CmpToken(op: CmpOp): Token {
    match op
    case Eq => Punct("=")
    case Ne => Punct("<>")
    case Lt => Punct("<")
    case Le => Punct("<=")
    case Gt => Punct(">")
    case Ge => Punct(">=")
  }

  function ArithToken(op: ArithOp): Token {
    match op
    case Add => Punct("+")
    case Sub => Punct("-")
    case Mul => Punct("*")
    case Div => Punct("/")
    case Mod => Punct("%")
  }

  function PrintValue(v: Value): Token
    requires PrintableValue(v)
  {
    match v
    case VNull => Ident("null")
    case VBool(b) => Ident(if b then "true" else "false")
    case VInt(i) => Num(Digits(i))
    case VFloat(f) => Num(FloatLiteral.write(f))
    case VText(s) => Str(s)
  }

  /** The expression where level k is expected. */
  function Print(e: Expr, k: nat): Tokens
    requires Printable(e)
    decreases e, 1
  {
    if Level(e) < k then [Punct("(")] + Bare(e) + [Punct(")")] else Bare(e)
  }

  function Bare(e: Expr): Tokens
    requires Printable(e)
    decreases e, 0
  {
    match e
    case Lit(v) => [PrintValue(v)]
    case Col(table, name) => if table != "" then [Ident(table), Punct("."), Ident(name)] else [Ident(name)]
    case Func(name, star, arg) =>
      [Ident(name), Punct("(")] +
      (if star then [Punct("*")] else if arg.Some? then Print(arg.value, 0) else []) +
      [Punct(")")]
    case Or(l, r) => Print(l, 0) + [Ident("or")] + Print(r, 1)
    case And(l, r) => Print(l, 1) + [Ident("and")] + Print(r, 2)
    case Not(x) => [Ident("not")] + Print(x, 2)
    case Cmp(op, l, r) => Print(l, 4) + [CmpToken(op)] + Print(r, 4)
    case IsNull(x, negated) => Print(x, 4) + [Ident("is")] + (if negated then [Ident("not")] else []) + [Ident("null")]
    case InList(x, list, negated) =>
      Print(x, 4) + (if negated then [Ident("not")] else []) + [Ident("in"), Punct("(")] + PrintList(list) +
        [Punct(")")]
    case InSub(x, sub, negated) =>
      Print(x, 4) + (if negated then [Ident("not")] else []) + [Ident("in"), Punct("(")] + PrintSelect(sub) +
        [Punct(")")]
    case Binary(op, l, r) =>
      if op.Add? || op.Sub? then Print(l, 4) + [ArithToken(op)] + Print(r, 5)
      else Print(l, 5) + [ArithToken(op)] + Print(r, 6)
  }

  function PrintList(list: seq<Expr>): Tokens
    requires list != [] && AllPrintable(list)
    decreases list, 0
  {
    Print(list[0], 0) + if |list| == 1 then [] else [Punct(",")] + PrintList(list[1..])
  }

  // --- printing queries ------------------------------------------------------------------------------------

  function PrintRef(t: TableRef): Tokens
    requires PrintableRef(t)
    decreases t, 0
  {
    (if t.sub.Some? then [Punct("(")] + PrintSelect(t.sub.value) + [Punct(")")] else [Ident(t.table)]) +
    [Ident("as"), Ident(t.alias)]
  }

  function PrintAlias(alias: string): Tokens { if alias == "" then [] else [Ident("as"), Ident(alias)] }

  /** The fields from the i-th on. */
  function PrintFields(s: Select, i: nat): Tokens
    requires PrintableSelect(s) && i < |s.fields|
    decreases s, 0, |s.fields| - i
  {
    Print(s.fields[i], 0) + (PrintAlias(s.aliases[i]) +
                             if i + 1 == |s.fields| then [] else [Punct(",")] + PrintFields(s, i + 1))
  }

  function PrintKind(k: JoinKind): Tokens { if k.Left? then [Ident("left"), Ident("join")] else [Ident("join")] }

  /** The joins from the i-th on. */
  function PrintJoins(s: Select, i: nat): Tokens
    requires PrintableSelect(s) && i <= |s.on|
    decreases s, 0, |s.on| - i
  {
    if i == |s.on| then []
    else
      PrintKind(s.kinds[i]) +
      (PrintRef(s.tables[i + 1]) + ([Ident("on")] + (Print(s.on[i], 0) + PrintJoins(s, i + 1))))
  }

  function PrintClause(kw: string, e: Option<Expr>): Tokens
    requires e.Some? ==> Printable(e.value)
    decreases e, 0, 0
  {
    if e.None? then [] else [Ident(kw)] + Print(e.value, 0)
  }

  function PrintGroup(group: seq<Expr>): Tokens
    requires AllPrintable(group)
    decreases group, 1
  {
    if group == [] then [] else [Ident("group"), Ident("by")] + PrintList(group)
  }

  /** The ORDER BY terms from the i-th on. */
  function PrintTerms(s: Select, i: nat): Tokens
    requires PrintableSelect(s) && i < |s.order|
    decreases s, 0, |s.order| - i
  {
    Print(s.order[i].expr, 0) + ((if s.order[i].desc then [Ident("desc")] else []) +
                                 if i + 1 == |s.order| then [] else [Punct(",")] + PrintTerms(s, i + 1))
  }

  function PrintOrder(s: Select): Tokens
    requires PrintableSelect(s)
    decreases s, 1
  {
    if s.order == [] then [] else [Ident("order"), Ident("by")] + PrintTerms(s, 0)
  }

  function PrintLimit(limit: Option<nat>): Tokens {
    if limit.None? then [] else [Ident("limit"), Num(Digits(limit.value))]
  }

  /** What follows the tables. */
  function PrintClauses(s: Select): Tokens
    requires PrintableSelect(s)
    decreases s, 2
  {
    PrintClause("where", s.where) + (PrintGroup(s.group) + (PrintClause("having", s.having) +
      (PrintOrder(s) + PrintLimit(s.limit))))
  }

  function PrintSelect(s: Select): Tokens
    requires PrintableSelect(s)
    decreases s, 3
  {
    [Ident("select")] + ((if s.star then [Punct("*")] else PrintFields(s, 0)) +
      ([Ident("from")] + (PrintRef(s.tables[0]) + (PrintJoins(s, 0) + PrintClauses(s)))))
  }

  // --- where an operand starts and stops ----------------------------------------------------------------------

  predicate Starts(t: Token) { t != Ident("select") && t != Punct("-") && t != Punct("*") && t != Punct(")") }

  lemma {:induction false} FirstToken(e: Expr, k: nat)
    requires Printable(e)
    ensures Print(e, k) != [] && Starts(Print(e, k)[0])
    ensures k >= 3 ==> Print(e, k)[0] != Ident("not")
    decreases e
  {
    if Level(e) >= k {
      match e
      case Or(l, _) => FirstToken(l, 0);
      case And(l, _) => FirstToken(l, 1);
      case Cmp(_, l, _) => FirstToken(l, 4);
      case IsNull(x, _) => FirstToken(x, 4);
      case InList(x, _, _) => FirstToken(x, 4);
      case InSub(x, _, _) => FirstToken(x, 4);
      case Binary(op, l, _) => FirstToken(l, if op.Add? || op.Sub? then 4 else 5);
      case _ =>
    }
  }

  /** The level at which a token would continue an expression; -1 for a token that ends it. */
  function Continues(t: Token): int {
    if t == Ident("or") then 0
    else if t == Ident("and") then 1
    else if CmpOf(t).Some? || t == Ident("is") || t == Ident("in") || t == Ident("not") then 3
    else if AddOf(t).Some? then 4
    else if MulOf(t).Some? then 5
    else if t == Punct(".") || t == Punct("(") then 7
    else -1
  }

  /** What comes next does not continue an expression of level k or tighter. */
  predicate Follows(k: nat, rest: Tokens) { rest == [] || Continues(rest[0]) < k }

  // --- reading back -----------------------------------------------------------------------------------------------

  /** 1 when e needs parentheses at level k. */
  function Wrapped(e: Expr, k: nat): nat { if Level(e) < k then 1 else 0 }

  lemma Infix(a: Tokens, t: Token, b: Tokens, rest: Tokens)
    ensures a + [t] + b + rest == a + ([t] + (b + rest))
    ensures ([t] + (b + rest))[1..] == b + rest
  {
  }

  /** Read at level OR, a printed expression is back and the loop goes on from there. */
  lemma {:induction false} ReadOr(e: Expr, rest: Tokens)
    requires Printable(e) && Follows(1, rest)
    ensures ParseOr(Print(e, 0) + rest) == OrLoop(e, rest)
    decreases e, 0, 8
  {
    if e.Or? {
      var tail := [Ident("or")] + (Print(e.r, 1) + rest);
      assert Print(e, 0) == Print(e.l, 0) + [Ident("or")] + Print(e.r, 1);
      Infix(Print(e.l, 0), Ident("or"), Print(e.r, 1), rest);
      ReadOr(e.l, tail);
      ReadAnd(e.r, rest);
    } else {
      ReadAnd(e, rest);
    }
  }

  lemma {:induction false} ReadAnd(e: Expr, rest: Tokens)
    requires Printable(e) && Follows(2, rest)
    ensures ParseAnd(Print(e, 1) + rest) == AndLoop(e, rest)
    decreases e, Wrapped(e, 1), 7
  {
    if e.And? {
      var tail := [Ident("and")] + (Print(e.r, 2) + rest);
      assert Print(e, 1) == Print(e.l, 1) + [Ident("and")] + Print(e.r, 2);
      Infix(Print(e.l, 1), Ident("and"), Print(e.r, 2), rest);
      ReadAnd(e.l, tail);
      ReadNot(e.r, rest);
    } else {
      ReadNot(e, rest);
    }
  }

  lemma {:induction false} ReadNot(e: Expr, rest: Tokens)
    requires Printable(e) && Follows(2, rest)
    ensures ParseNot(Print(e, 2) + rest) == Got(e, rest)
    decreases e, Wrapped(e, 2), 6
  {
    if e.Not? {
      var toks := Print(e, 2) + rest;
      assert toks == [Ident("not")] + (Print(e.x, 2) + rest) && toks[1..] == Print(e.x, 2) + rest;
      ReadNot(e.x, rest);
    } else {
      FirstToken(e, 3);
      ReadCmp(e, rest);
    }
  }

  lemma {:induction false} ReadCmp(e: Expr, rest: Tokens)
    requires Printable(e) && Follows(3, rest)
    ensures ParseCmp(Print(e, 3) + rest) == Got(e, rest)
    decreases e, Wrapped(e, 3), 5
  {
    if e.Cmp? {
      ReadComparison(e, rest);
    } else if e.IsNull? {
      ReadIsNull(e, rest);
    } else if e.InList? {
      ReadIn(e, rest);
    } else if e.InSub? {
      ReadInSub(e, rest);
    } else {
      assert Print(e, 3) == Print(e, 4);
      ReadAdd(e, rest);
      CmpByTail(e, rest);
      NoTail(e, rest);
    }
  }

  lemma NoTail(e: Expr, rest: Tokens)
    requires Follows(3, rest)
    ensures CmpTail(e, rest) == Got(e, rest)
  {
  }

  /** The tail after a left operand that has been read. */
  lemma CmpByTail(l: Expr, tail: Tokens)
    requires Printable(l) && Follows(4, tail) && ParseAdd(Print(l, 4) + tail) == AddLoop(l, tail)
    ensures ParseCmp(Print(l, 4) + tail) == CmpTail(l, tail)
  {
  }

  lemma {:induction false} ReadComparison(e: Expr, rest: Tokens)
    requires Printable(e) && e.Cmp? && Follows(3, rest)
    ensures ParseCmp(Print(e, 3) + rest) == Got(e, rest)
    decreases e, 0, 4
  {
    var right := Print(e.r, 4) + rest;
    var tail := [CmpToken(e.cop)] + right;
    ComparisonTokens(e, rest);
    ReadAdd(e.l, tail);
    CmpByTail(e.l, tail);
    ReadAdd(e.r, rest);
    assert AddLoop(e.r, rest) == Got(e.r, rest);
    CmpStep(e.l, e.cop, e.r, right, rest);
  }

  lemma ComparisonTokens(e: Expr, rest: Tokens)
    requires Printable(e) && e.Cmp?
    ensures Print(e, 3) + rest == Print(e.l, 4) + ([CmpToken(e.cop)] + (Print(e.r, 4) + rest))
    ensures Follows(4, [CmpToken(e.cop)] + (Print(e.r, 4) + rest))
  {
    assert Print(e, 3) == Print(e.l, 4) + [CmpToken(e.cop)] + Print(e.r, 4);
    Infix(Print(e.l, 4), CmpToken(e.cop), Print(e.r, 4), rest);
  }

  lemma CmpStep(l: Expr, op: CmpOp, r: Expr, right: Tokens, rest: Tokens)
    requires ParseAdd(right) == Got(r, rest)
    ensures CmpTail(l, [CmpToken(op)] + right) == Got(Cmp(op, l, r), rest)
  {
    assert ([CmpToken(op)] + right)[1..] == right && CmpOf(CmpToken(op)) == Some(op);
  }

  lemma {:induction false} ReadIsNull(e: Expr, rest: Tokens)
    requires Printable(e) && e.IsNull? && Follows(3, rest)
    ensures ParseCmp(Print(e, 3) + rest) == Got(e, rest)
    decreases e, 0, 4
  {
    var tail := [Ident("is")] + ((if e.negated then [Ident("not")] else []) + ([Ident("null")] + rest));
    assert Print(e, 3) + rest == Print(e.x, 4) + tail;
    ReadAdd(e.x, tail);
    CmpByTail(e.x, tail);
    IsNullTail(e.x, e.negated, rest);
  }

  lemma {:induction false} ReadIn(e: Expr, rest: Tokens)
    requires Printable(e) && e.InList? && Follows(3, rest)
    ensures ParseCmp(Print(e, 3) + rest) == Got(e, rest)
    decreases e, 0, 4
  {
    var items := PrintList(e.list) + ([Punct(")")] + rest);
    var tail := (if e.negated then [Ident("not")] else []) + ([Ident("in"), Punct("(")] + items);
    InTokens(e, PrintList(e.list), rest);
    InFollows(e.negated, items);
    ReadAdd(e.x, tail);
    CmpByTail(e.x, tail);
    InTail(e.x, e.list, e.negated, rest);
  }

  lemma {:induction false} ReadInSub(e: Expr, rest: Tokens)
    requires Printable(e) && e.InSub? && Follows(3, rest)
    ensures ParseCmp(Print(e, 3) + rest) == Got(e, rest)
    decreases e, 0, 4
  {
    var close := [Punct(")")] + rest;
    var items := PrintSelect(e.sub) + close;
    var tail := (if e.negated then [Ident("not")] else []) + ([Ident("in"), Punct("(")] + items);
    InTokens(e, PrintSelect(e.sub), rest);
    InFollows(e.negated, items);
    ReadAdd(e.x, tail);
    CmpByTail(e.x, tail);
    InWords(e.x, e.negated, items);
    CloseEnds(rest);
    ReadSelect(e.sub, close);
    InQuery(e.x, e.sub, e.negated, items, rest);
  }

  lemma InTokens(e: Expr, inside: Tokens, rest: Tokens)
    requires Printable(e) && (e.InList? || e.InSub?)
    requires inside == if e.InList? then PrintList(e.list) else PrintSelect(e.sub)
    ensures Print(e, 3) + rest ==
            Print(e.x, 4) + ((if e.negated then [Ident("not")] else []) +
                             ([Ident("in"), Punct("(")] + (inside + ([Punct(")")] + rest))))
  {
    var word, open, close := if e.negated then [Ident("not")] else [], [Ident("in"), Punct("(")], [Punct(")")];
    assert Print(e, 3) == Print(e.x, 4) + word + open + inside + close;
    FiveParts(Print(e.x, 4), word, open, inside, close, rest);
  }

  lemma FiveParts(a: Tokens, b: Tokens, c: Tokens, d: Tokens, e: Tokens, rest: Tokens)
    ensures a + b + c + d + e + rest == a + (b + (c + (d + (e + rest))))
  {
  }

  lemma InFollows(negated: bool, items: Tokens)
    ensures Follows(4, (if negated then [Ident("not")] else []) + ([Ident("in"), Punct("(")] + items))
  {
  }

  lemma InQuery(x: Expr, sub: Select, negated: bool, items: Tokens, rest: Tokens)
    requires AtKw(items, "select") && ParseSelect(items) == Got(sub, [Punct(")")] + rest)
    ensures ParseIn(x, negated, [Punct("(")] + items) == Got(InSub(x, sub, negated), rest)
  {
    assert ([Punct("(")] + items)[1..] == items && ([Punct(")")] + rest)[1..] == rest;
  }

  lemma IsNullTail(x: Expr, negated: bool, rest: Tokens)
    ensures CmpTail(x, [Ident("is")] + ((if negated then [Ident("not")] else []) + ([Ident("null")] + rest))) ==
            Got(IsNull(x, negated), rest)
  {
    var toks := [Ident("is")] + ((if negated then [Ident("not")] else []) + ([Ident("null")] + rest));
    if negated {
      assert toks[2..] == [Ident("null")] + rest && toks[2..][1..] == rest;
    } else {
      assert toks[1..] == [Ident("null")] + rest && toks[1..][1..] == rest;
    }
  }

  lemma {:induction false} InTail(x: Expr, list: seq<Expr>, negated: bool, rest: Tokens)
    requires list != [] && AllPrintable(list)
    ensures CmpTail(x, (if negated then [Ident("not")] else []) +
            ([Ident("in"), Punct("(")] + (PrintList(list) + ([Punct(")")] + rest))))
            == Got(InList(x, list, negated), rest)
    decreases list, 1
  {
    var items := PrintList(list) + ([Punct(")")] + rest);
    InWords(x, negated, items);
    ListStart(list, [Punct(")")] + rest);
    SymbolsEnd();
    ReadList(list, [Punct(")")] + rest);
    InItems(x, list, negated, items, rest);
  }

  lemma InWords(x: Expr, negated: bool, items: Tokens)
    ensures CmpTail(x, (if negated then [Ident("not")] else []) + ([Ident("in"), Punct("(")] + items)) ==
            ParseIn(x, negated, [Punct("(")] + items)
  {
    if negated { NegatedInWords(x, items); } else { PlainInWords(x, items); }
  }

  lemma NegatedInWords(x: Expr, items: Tokens)
    ensures CmpTail(x, [Ident("not")] + ([Ident("in"), Punct("(")] + items)) == ParseIn(x, true, [Punct("(")] + items)
  {
    var plain := [Ident("in"), Punct("(")] + items;
    var toks := [Ident("not")] + plain;
    assert toks[1..] == plain && toks[2..] == [Punct("(")] + items;
    NotInTail(x, toks);
  }

  lemma PlainInWords(x: Expr, items: Tokens)
    ensures CmpTail(x, [] + ([Ident("in"), Punct("(")] + items)) == ParseIn(x, false, [Punct("(")] + items)
  {
    var plain := [Ident("in"), Punct("(")] + items;
    assert [] + plain == plain && plain[1..] == [Punct("(")] + items;
    InAloneTail(x, plain);
  }

  lemma NotInTail(x: Expr, toks: Tokens)
    requires AtKw(toks, "not") && AtKw(toks[1..], "in")
    ensures CmpTail(x, toks) == ParseIn(x, true, toks[2..])
  {
  }

  lemma InAloneTail(x: Expr, toks: Tokens)
    requires AtKw(toks, "in")
    ensures CmpTail(x, toks) == ParseIn(x, false, toks[1..])
  {
  }

  lemma ListStart(list: seq<Expr>, rest: Tokens)
    requires list != [] && AllPrintable(list)
    ensures PrintList(list) + rest != [] && (PrintList(list) + rest)[0] != Ident("select")
  {
    FirstToken(list[0], 0);
    assert (PrintList(list) + rest)[0] == Print(list[0], 0)[0];
  }

  lemma InItems(x: Expr, list: seq<Expr>, negated: bool, items: Tokens, rest: Tokens)
    requires items != [] && items[0] != Ident("select") && ParseList(items) == Got(list, [Punct(")")] + rest)
    ensures ParseIn(x, negated, [Punct("(")] + items) == Got(InList(x, list, negated), rest)
  {
    assert ([Punct("(")] + items)[1..] == items && ([Punct(")")] + rest)[1..] == rest;
  }

  lemma {:induction false} ReadList(list: seq<Expr>, rest: Tokens)
    requires list != [] && AllPrintable(list) && Follows(0, rest) && !AtPunct(rest, ",")
    ensures ParseList(PrintList(list) + rest) == Got(list, rest)
    decreases list, 0
  {
    if |list| == 1 {
      assert PrintList(list) + rest == Print(list[0], 0) + rest;
      ReadOr(list[0], rest);
      assert [list[0]] == list;
    } else {
      var tail := [Punct(",")] + (PrintList(list[1..]) + rest);
      assert PrintList(list) + rest == Print(list[0], 0) + tail;
      ReadOr(list[0], tail);
      assert tail[1..] == PrintList(list[1..]) + rest;
      ReadList(list[1..], rest);
      assert [list[0]] + list[1..] == list;
    }
  }

  lemma ArithTokens(op: ArithOp)
    ensures op.Add? || op.Sub? ==> AddOf(ArithToken(op)) == Some(op) && Continues(ArithToken(op)) == 4
    ensures !(op.Add? || op.Sub?) ==> MulOf(ArithToken(op)) == Some(op) && Continues(ArithToken(op)) == 5
  {
  }

  lemma AddStep(l: Expr, op: ArithOp, r: Expr, right: Tokens, rest: Tokens)
    requires (op.Add? || op.Sub?) && ParseMul(right) == Got(r, rest)
    ensures AddLoop(l, [ArithToken(op)] + right) == AddLoop(Binary(op, l, r), rest)
  {
    ArithTokens(op);
    assert ([ArithToken(op)] + right)[1..] == right;
  }

  lemma MulStep(l: Expr, op: ArithOp, r: Expr, right: Tokens, rest: Tokens)
    requires !(op.Add? || op.Sub?) && ParseUnary(right) == Got(r, rest)
    ensures MulLoop(l, [ArithToken(op)] + right) == MulLoop(Binary(op, l, r), rest)
  {
    ArithTokens(op);
    assert ([ArithToken(op)] + right)[1..] == right;
  }

  lemma {:induction false} ReadAdd(e: Expr, rest: Tokens)
    requires Printable(e) && Follows(5, rest)
    ensures ParseAdd(Print(e, 4) + rest) == AddLoop(e, rest)
    decreases e, Wrapped(e, 4), 4
  {
    if Level(e) == 4 {
      var right := Print(e.r, 5) + rest;
      var tail := [ArithToken(e.aop)] + right;
      assert Print(e, 4) == Print(e.l, 4) + [ArithToken(e.aop)] + Print(e.r, 5);
      Infix(Print(e.l, 4), ArithToken(e.aop), Print(e.r, 5), rest);
      ArithTokens(e.aop);
      ReadAdd(e.l, tail);
      ReadMul(e.r, rest);
      NoFactor(e.r, rest);
      AddStep(e.l, e.aop, e.r, right, rest);
    } else {
      assert Print(e, 4) == Print(e, 5);
      ReadMul(e, rest);
      NoFactor(e, rest);
    }
  }

  lemma NoFactor(e: Expr, rest: Tokens)
    requires Follows(5, rest)
    ensures MulLoop(e, rest) == Got(e, rest)
  {
  }

  lemma {:induction false} ReadMul(e: Expr, rest: Tokens)
    requires Printable(e) && Follows(6, rest)
    ensures ParseMul(Print(e, 5) + rest) == MulLoop(e, rest)
    decreases e, Wrapped(e, 5), 3
  {
    if Level(e) == 5 {
      var right := Print(e.r, 6) + rest;
      var tail := [ArithToken(e.aop)] + right;
      assert Print(e, 5) == Print(e.l, 5) + [ArithToken(e.aop)] + Print(e.r, 6);
      Infix(Print(e.l, 5), ArithToken(e.aop), Print(e.r, 6), rest);
      ArithTokens(e.aop);
      ReadMul(e.l, tail);
      ReadUnary(e.r, rest);
      MulStep(e.l, e.aop, e.r, right, rest);
    } else {
      assert Print(e, 5) == Print(e, 6);
      ReadUnary(e, rest);
    }
  }

  lemma {:induction false} ReadUnary(e: Expr, rest: Tokens)
    requires Printable(e) && Follows(6, rest)
    ensures ParseUnary(Print(e, 6) + rest) == Got(e, rest)
    decreases e, Wrapped(e, 6), 2
  {
    FirstToken(e, 7);
    ReadPrimary(e, rest);
  }

  lemma {:induction false} ReadPrimary(e: Expr, rest: Tokens)
    requires Printable(e) && Follows(6, rest)
    ensures ParsePrimary(Print(e, 7) + rest) == Got(e, rest)
    decreases e, Wrapped(e, 7), 1
  {
    if e.Lit? {
      ReadValue(e.v, rest);
    } else if e.Col? {
      ReadColumn(e.table, e.name, rest);
    } else if e.Func? {
      ReadCall(e, rest);
    } else {
      ReadOr(e, [Punct(")")] + rest);
      assert Print(e, 7) == [Punct("(")] + Print(e, 0) + [Punct(")")];
      InParentheses(e, Print(e, 0), rest);
    }
  }

  lemma InParentheses(e: Expr, inside: Tokens, rest: Tokens)
    requires ParseOr(inside + ([Punct(")")] + rest)) == Got(e, [Punct(")")] + rest)
    ensures ParsePrimary([Punct("(")] + inside + [Punct(")")] + rest) == Got(e, rest)
  {
    var toks := [Punct("(")] + inside + [Punct(")")] + rest;
    assert toks[1..] == inside + ([Punct(")")] + rest) && ([Punct(")")] + rest)[1..] == rest;
  }

  lemma ReadValue(v: Value, rest: Tokens)
    requires PrintableValue(v)
    ensures ParsePrimary([PrintValue(v)] + rest) == Got(Lit(v), rest)
  {
    var toks := [PrintValue(v)] + rest;
    assert toks[1..] == rest;
    if v.VInt? {
      assert '.' !in Digits(v.i);
      DigitsRoundTrip(v.i);
    }
  }

  lemma ReadColumn(table: string, name: string, rest: Tokens)
    requires !Reserved(if table != "" then table else name) && Follows(6, rest)
    ensures ParsePrimary(Print(Col(table, name), 7) + rest) == Got(Col(table, name), rest)
  {
    assert Print(Col(table, name), 7) == Bare(Col(table, name));
    if table != "" { QualifiedColumn(table, name, rest); } else { PlainColumn(name, rest); }
  }

  lemma QualifiedColumn(table: string, name: string, rest: Tokens)
    requires !Reserved(table)
    ensures ParsePrimary([Ident(table), Punct("."), Ident(name)] + rest) == Got(Col(table, name), rest)
  {
    var toks := [Ident(table), Punct("."), Ident(name)] + rest;
    var after := toks[1..];
    assert after == [Punct("."), Ident(name)] + rest && after[2..] == rest && after[1] == Ident(name);
    assert ParsePrimary(toks) == ParseNamed(table, after);
  }

  lemma PlainColumn(name: string, rest: Tokens)
    requires !Reserved(name) && Follows(6, rest)
    ensures ParsePrimary([Ident(name)] + rest) == Got(Col("", name), rest)
  {
    var toks := [Ident(name)] + rest;
    assert toks[1..] == rest;
    assert ParsePrimary(toks) == ParseNamed(name, rest);
  }

  lemma {:induction false} ReadCall(e: Expr, rest: Tokens)
    requires Printable(e) && e.Func?
    ensures ParsePrimary(Print(e, 7) + rest) == Got(e, rest)
    decreases e, 0, 0
  {
    assert Print(e, 7) == Bare(e);
    var close := [Punct(")")] + rest;
    if e.star {
      assert Bare(e) + rest == [Ident(e.fname), Punct("("), Punct("*")] + close;
      CallOfStar(e.fname, rest);
    } else if e.arg.None? {
      assert Bare(e) + rest == [Ident(e.fname), Punct("(")] + close;
      CallOfNothing(e.fname, rest);
    } else {
      var arg := Print(e.arg.value, 0);
      assert Bare(e) + rest == [Ident(e.fname), Punct("(")] + (arg + close);
      FirstToken(e.arg.value, 0);
      assert (arg + close)[0] == arg[0];
      ReadOr(e.arg.value, close);
      CallOfOne(e.fname, e.arg.value, arg + close, rest);
    }
  }

  lemma CallOfStar(name: string, rest: Tokens)
    requires !Reserved(name)
    ensures ParsePrimary([Ident(name), Punct("("), Punct("*")] + ([Punct(")")] + rest)) ==
            Got(Func(name, true, None), rest)
  {
    var close := [Punct(")")] + rest;
    var toks := [Ident(name), Punct("("), Punct("*")] + close;
    assert toks[1..] == [Punct("("), Punct("*")] + close && toks[1..][1..] == [Punct("*")] + close;
    assert toks[1..][2..] == close && close[1..] == rest;
  }

  lemma CallOfNothing(name: string, rest: Tokens)
    requires !Reserved(name)
    ensures ParsePrimary([Ident(name), Punct("(")] + ([Punct(")")] + rest)) == Got(Func(name, false, None), rest)
  {
    var close := [Punct(")")] + rest;
    var toks := [Ident(name), Punct("(")] + close;
    assert toks[1..] == [Punct("(")] + close && toks[1..][1..] == close && toks[1..][2..] == rest;
  }

  lemma CallOfOne(name: string, arg: Expr, inside: Tokens, rest: Tokens)
    requires !Reserved(name) && inside != [] && Starts(inside[0]) && ParseOr(inside) == Got(arg, [Punct(")")] + rest)
    ensures ParsePrimary([Ident(name), Punct("(")] + inside) == Got(Func(name, false, Some(arg)), rest)
  {
    var toks := [Ident(name), Punct("(")] + inside;
    assert toks[1..] == [Punct("(")] + inside && toks[1..][1..] == inside;
    assert ([Punct(")")] + rest)[1..] == rest;
  }

  // --- reading queries back ---------------------------------------------------------------------------------------

  /** The place of a word among the clauses of a query; 7 for what may follow a query, 0 otherwise. */
  function Phase(t: Token): nat {
    if t == Ident("join") || t == Ident("left") then 1
    else if t == Ident("where") then 2
    else if t == Ident("group") then 3
    else if t == Ident("having") then 4
    else if t == Ident("order") then 5
    else if t == Ident("limit") then 6
    else if t == Punct(")") || t == Punct(";") then 7
    else 0
  }

  /** What comes next is the clause of place k or a later one. */
  predicate From(k: nat, toks: Tokens) { toks == [] || Phase(toks[0]) >= k }

  lemma FromFollows(toks: Tokens)
    requires From(1, toks)
    ensures Follows(0, toks) && !AtPunct(toks, ",")
  {
    if toks != [] { WordsEnd(toks[0]); }
  }

  lemma WordsEnd(t: Token)
    ensures Phase(t) >= 1 ==> Continues(t) < 0 && t != Punct(",")
  {
    if t == Ident("join") || t == Ident("left") || t == Ident("where") {
      EarlyWordsEnd();
    } else if t == Ident("group") || t == Ident("having") || t == Ident("order") || t == Ident("limit") {
      LateWordsEnd();
    } else if t == Punct(")") || t == Punct(";") {
      SymbolsEnd();
    }
  }

  lemma EarlyWordsEnd()
    ensures Continues(Ident("join")) < 0 && Continues(Ident("left")) < 0 && Continues(Ident("where")) < 0
  {
  }

  lemma LateWordsEnd()
    ensures Continues(Ident("group")) < 0 && Continues(Ident("having")) < 0
    ensures Continues(Ident("order")) < 0 && Continues(Ident("limit")) < 0
  {
  }

  lemma SymbolsEnd()
    ensures Continues(Punct(")")) < 0 && Continues(Punct(";")) < 0
  {
  }

  lemma Nest(a: Tokens, b: Tokens, rest: Tokens)
    ensures a + b + rest == a + (b + rest)
  {
  }

  lemma Cons(t: Token, toks: Tokens)
    ensures ([t] + toks)[0] == t && ([t] + toks)[1..] == toks
  {
  }

  lemma Suffix<T>(xs: seq<T>, i: nat)
    requires i <= |xs|
    ensures i < |xs| ==> xs[i..] == [xs[i]] + xs[i + 1..]
    ensures i == |xs| ==> xs[i..] == []
    ensures xs[0..] == xs
  {
  }

  lemma CloseEnds(rest: Tokens)
    ensures From(7, [Punct(")")] + rest)
  {
  }

  lemma ReadRefAlias(alias: string, rest: Tokens)
    ensures ParseRefAlias([Ident("as"), Ident(alias)] + rest) == Got(alias, rest)
  {
    var toks := [Ident("as"), Ident(alias)] + rest;
    assert toks[1..] == [Ident(alias)] + rest && toks[1..][1..] == rest;
  }

  lemma {:induction false} ReadRef(t: TableRef, rest: Tokens)
    requires PrintableRef(t)
    ensures ParseTableRef(PrintRef(t) + rest) == Got(t, rest)
    decreases t, 1, 0
  {
    var tail := [Ident("as"), Ident(t.alias)] + rest;
    ReadRefAlias(t.alias, rest);
    if t.sub.Some? {
      var close := [Punct(")")] + tail;
      var inside := PrintSelect(t.sub.value) + close;
      assert PrintRef(t) + rest == [Punct("(")] + inside;
      CloseEnds(tail);
      ReadSelect(t.sub.value, close);
      DerivedTable(t, inside, tail, rest);
    } else {
      assert PrintRef(t) + rest == [Ident(t.table)] + tail;
      assert ([Ident(t.table)] + tail)[1..] == tail;
    }
  }

  lemma DerivedTable(t: TableRef, inside: Tokens, tail: Tokens, rest: Tokens)
    requires PrintableRef(t) && t.sub.Some? && AtKw(inside, "select")
    requires ParseSelect(inside) == Got(t.sub.value, [Punct(")")] + tail) && ParseRefAlias(tail) == Got(t.alias, rest)
    ensures ParseTableRef([Punct("(")] + inside) == Got(t, rest)
  {
    assert ([Punct("(")] + inside)[1..] == inside && ([Punct(")")] + tail)[1..] == tail;
  }

  lemma ReadFieldAlias(alias: string, rest: Tokens)
    requires rest != [] && (rest[0] == Punct(",") || rest[0] == Ident("from"))
    ensures ParseFieldAlias(PrintAlias(alias) + rest) == Got(alias, rest)
    ensures Follows(0, PrintAlias(alias) + rest)
  {
    var toks := PrintAlias(alias) + rest;
    if alias == "" {
      assert toks == rest;
    } else {
      assert toks[1..] == [Ident(alias)] + rest && toks[1..][1..] == rest;
    }
  }

  /** The fields from the i-th on are read back. */
  predicate FieldsBack(s: Select, i: nat, rest: Tokens)
    requires PrintableSelect(s) && i < |s.fields|
  {
    ParseFields(PrintFields(s, i) + rest) == Got(Fields(false, s.fields[i..], s.aliases[i..]), rest)
  }

  /** What comes behind the i-th field. */
  function FieldTail(s: Select, i: nat, rest: Tokens): Tokens
    requires PrintableSelect(s) && i < |s.fields|
  {
    if i + 1 == |s.fields| then rest else [Punct(",")] + (PrintFields(s, i + 1) + rest)
  }

  lemma FieldTokens(s: Select, i: nat, rest: Tokens)
    requires PrintableSelect(s) && i < |s.fields|
    ensures PrintFields(s, i) + rest == Print(s.fields[i], 0) + (PrintAlias(s.aliases[i]) + FieldTail(s, i, rest))
  {
    var printed := if i + 1 == |s.fields| then [] else [Punct(",")] + PrintFields(s, i + 1);
    assert printed + rest == FieldTail(s, i, rest);
    Nest(Print(s.fields[i], 0), PrintAlias(s.aliases[i]) + printed, rest);
    Nest(PrintAlias(s.aliases[i]), printed, rest);
  }

  lemma {:induction false} ReadFields(s: Select, i: nat, rest: Tokens)
    requires PrintableSelect(s) && i < |s.fields| && AtKw(rest, "from")
    ensures FieldsBack(s, i, rest)
    decreases s, 2, |s.fields| - i
  {
    if i + 1 < |s.fields| { ReadFields(s, i + 1, rest); }
    ReadOneField(s, i, rest);
  }

  lemma {:induction false} ReadOneField(s: Select, i: nat, rest: Tokens)
    requires PrintableSelect(s) && i < |s.fields| && AtKw(rest, "from")
    requires i + 1 < |s.fields| ==> FieldsBack(s, i + 1, rest)
    ensures FieldsBack(s, i, rest)
    decreases s, 1, 0
  {
    var more := FieldTail(s, i, rest);
    var tail := PrintAlias(s.aliases[i]) + more;
    FieldTokens(s, i, rest);
    ReadFieldAlias(s.aliases[i], more);
    ReadOr(s.fields[i], tail);
    if i + 1 < |s.fields| { Cons(Punct(","), PrintFields(s, i + 1) + rest); }
    FieldStep(s.fields, s.aliases, i, Print(s.fields[i], 0) + tail, tail, more, rest);
  }

  lemma FieldStep(
    es: seq<Expr>, aliases: seq<string>, i: nat, toks: Tokens, tail: Tokens, more: Tokens, rest: Tokens)
    requires i < |es| == |aliases| && AtKw(rest, "from")
    requires ParseOr(toks) == Got(es[i], tail) && ParseFieldAlias(tail) == Got(aliases[i], more)
    requires i + 1 == |es| ==> more == rest
    requires i + 1 < |es| ==>
      AtPunct(more, ",") && ParseFields(more[1..]) == Got(Fields(false, es[i + 1..], aliases[i + 1..]), rest)
    ensures ParseFields(toks) == Got(Fields(false, es[i..], aliases[i..]), rest)
  {
    Suffix(es, i);
    Suffix(aliases, i);
    Suffix(es, i + 1);
    Suffix(aliases, i + 1);
    if i + 1 == |es| { assert [es[i]] + [] == [es[i]] && [aliases[i]] + [] == [aliases[i]]; }
  }

  lemma JoinWords(kind: JoinKind, rest: Tokens)
    ensures JoinStart(PrintKind(kind) + rest) == Got(kind, rest)
  {
    var toks := PrintKind(kind) + rest;
    if kind.Left? {
      assert toks[1..] == [Ident("join")] + rest && toks[1..][1..] == rest;
    } else {
      assert toks[1..] == rest;
    }
  }

  lemma JoinsFrom(s: Select, i: nat, rest: Tokens)
    requires PrintableSelect(s) && i <= |s.on| && From(1, rest)
    ensures From(1, PrintJoins(s, i) + rest)
  {
    if i == |s.on| { assert PrintJoins(s, i) + rest == rest; }
  }

  /** The joins from the i-th on are read back. */
  ghost predicate JoinsBack(s: Select, i: nat, rest: Tokens)
    requires PrintableSelect(s) && i <= |s.on|
  {
    forall toks :: toks == PrintJoins(s, i) + rest ==>
      ParseJoins(toks) == Got(Joined(s.tables[i + 1..], s.on[i..], s.kinds[i..]), rest)
  }

  lemma {:induction false} ReadJoins(s: Select, i: nat, rest: Tokens)
    requires PrintableSelect(s) && i < |s.on| && From(2, rest)
    ensures JoinsBack(s, i, rest)
    decreases s, 2, |s.on| - i
  {
    if i + 1 < |s.on| { ReadJoins(s, i + 1, rest); }
    ReadOneJoin(s, i, rest);
  }

  lemma {:induction false} ReadOneJoin(s: Select, i: nat, rest: Tokens)
    requires PrintableSelect(s) && i < |s.on| && From(2, rest) && (i + 1 < |s.on| ==> JoinsBack(s, i + 1, rest))
    ensures JoinsBack(s, i, rest)
    decreases s, 1, 0
  {
    var more := PrintJoins(s, i + 1) + rest;
    if i + 1 == |s.on| { ReadNoJoins(s, i + 1, rest); }
    JoinsFrom(s, i + 1, rest);
    JoinTokens(s, i, rest);
    var ref, on := ReadJoinHead(s, i, more);
    JoinStep(s.tables, s.on, s.kinds, i, JoinHead(s, i, more), ref, on, more, rest);
  }

  /** One join: its words, its table and its condition. */
  lemma {:induction false} ReadJoinHead(s: Select, i: nat, more: Tokens) returns (ref: Tokens, on: Tokens)
    requires PrintableSelect(s) && i < |s.on| && From(1, more)
    ensures JoinStart(JoinHead(s, i, more)) == Got(s.kinds[i], ref) && ParseTableRef(ref) == Got(s.tables[i + 1], on)
    ensures AtKw(on, "on") && ParseOr(on[1..]) == Got(s.on[i], more)
    decreases s, 0, 0
  {
    on := [Ident("on")] + (Print(s.on[i], 0) + more);
    ref := PrintRef(s.tables[i + 1]) + on;
    JoinWords(s.kinds[i], ref);
    ReadRef(s.tables[i + 1], on);
    FromFollows(more);
    ReadOr(s.on[i], more);
    Cons(Ident("on"), Print(s.on[i], 0) + more);
  }

  function JoinHead(s: Select, i: nat, more: Tokens): Tokens
    requires PrintableSelect(s) && i < |s.on|
  {
    PrintKind(s.kinds[i]) + (PrintRef(s.tables[i + 1]) + ([Ident("on")] + (Print(s.on[i], 0) + more)))
  }

  lemma ReadNoJoins(s: Select, i: nat, rest: Tokens)
    requires PrintableSelect(s) && i == |s.on| && From(2, rest)
    ensures JoinsBack(s, i, rest)
  {
    assert PrintJoins(s, i) + rest == rest;
    NoJoin(rest);
    Suffix(s.tables, i + 1);
    Suffix(s.on, i);
    Suffix(s.kinds, i);
  }

  lemma NoJoin(rest: Tokens)
    requires From(2, rest)
    ensures ParseJoins(rest) == Got(Joined([], [], []), rest)
  {
    if rest != [] { assert rest[0] != Ident("join") && rest[0] != Ident("left") && rest[0] != Ident("inner"); }
  }

  lemma JoinTokens(s: Select, i: nat, rest: Tokens)
    requires PrintableSelect(s) && i < |s.on|
    ensures PrintJoins(s, i) + rest == JoinHead(s, i, PrintJoins(s, i + 1) + rest)
  {
    var more := PrintJoins(s, i + 1);
    var on := [Ident("on")] + (Print(s.on[i], 0) + more);
    Nest(Print(s.on[i], 0), more, rest);
    Nest([Ident("on")], Print(s.on[i], 0) + more, rest);
    Nest(PrintRef(s.tables[i + 1]), on, rest);
    Nest(PrintKind(s.kinds[i]), PrintRef(s.tables[i + 1]) + on, rest);
  }

  lemma JoinStep(
    tables: seq<TableRef>, on: seq<Expr>, kinds: seq<JoinKind>, i: nat,
    toks: Tokens, ref: Tokens, cond: Tokens, more: Tokens, rest: Tokens)
    requires i < |on| == |kinds| == |tables| - 1
    requires JoinStart(toks) == Got(kinds[i], ref) && ParseTableRef(ref) == Got(tables[i + 1], cond)
    requires AtKw(cond, "on") && ParseOr(cond[1..]) == Got(on[i], more)
    requires ParseJoins(more) == Got(Joined(tables[i + 2..], on[i + 1..], kinds[i + 1..]), rest)
    ensures ParseJoins(toks) == Got(Joined(tables[i + 1..], on[i..], kinds[i..]), rest)
  {
    Suffix(tables, i + 1);
    Suffix(on, i);
    Suffix(kinds, i);
  }

  lemma {:induction false} ReadClause(kw: string, e: Option<Expr>, rest: Tokens)
    requires (e.Some? ==> Printable(e.value)) && From(Phase(Ident(kw)) + 1, rest)
    ensures ParseClause(kw, PrintClause(kw, e) + rest) == Got(e, rest)
    decreases e, 1, 0
  {
    var toks := PrintClause(kw, e) + rest;
    if e.None? {
      assert toks == rest;
    } else {
      assert toks[1..] == Print(e.value, 0) + rest;
      FromFollows(rest);
      ReadOr(e.value, rest);
    }
  }

  lemma {:induction false} ReadGroup(group: seq<Expr>, rest: Tokens)
    requires AllPrintable(group) && From(4, rest)
    ensures ParseGroup(PrintGroup(group) + rest) == Got(group, rest)
    decreases group, 1
  {
    var toks := PrintGroup(group) + rest;
    if group == [] {
      assert toks == rest;
      assert !AtKw(rest, "group");
    } else {
      FromFollows(rest);
      ReadList(group, rest);
      Nest([Ident("group"), Ident("by")], PrintList(group), rest);
      GroupStep(group, PrintList(group) + rest, rest);
    }
  }

  lemma GroupStep(group: seq<Expr>, items: Tokens, rest: Tokens)
    requires ParseList(items) == Got(group, rest)
    ensures ParseGroup([Ident("group"), Ident("by")] + items) == Got(group, rest)
  {
    var toks := [Ident("group"), Ident("by")] + items;
    assert toks[1..] == [Ident("by")] + items;
    Cons(Ident("by"), items);
  }

  lemma {:induction false} ReadTerms(s: Select, i: nat, rest: Tokens)
    requires PrintableSelect(s) && i < |s.order| && From(6, rest)
    ensures ParseTerms(PrintTerms(s, i) + rest) == Got(s.order[i..], rest)
    decreases s, 1, |s.order| - i
  {
    var last, term := i + 1 == |s.order|, s.order[i];
    var word := if term.desc then [Ident("desc")] else [];
    var printed := if last then [] else [Punct(",")] + PrintTerms(s, i + 1);
    var more := if last then rest else [Punct(",")] + (PrintTerms(s, i + 1) + rest);
    var tail := word + more;
    assert printed + rest == more;
    Nest(Print(term.expr, 0), word + printed, rest);
    Nest(word, printed, rest);
    DescTail(term.desc, more);
    ReadOr(term.expr, tail);
    if !last {
      Cons(Punct(","), PrintTerms(s, i + 1) + rest);
      ReadTerms(s, i + 1, rest);
    }
    FromFollows(rest);
    TermStep(s.order, i, Print(term.expr, 0) + tail, tail, more, rest);
  }

  /** After a term come DESC or not, and then a comma or a later clause. */
  lemma DescTail(desc: bool, more: Tokens)
    requires AtPunct(more, ",") || From(6, more)
    ensures
      var tail := (if desc then [Ident("desc")] else []) + more;
      && Follows(0, tail) && AtKw(tail, "desc") == desc && !AtKw(tail, "asc")
      && (if desc then tail[1..] == more else tail == more)
  {
    if more != [] { WordsEnd(more[0]); }
    if desc { Cons(Ident("desc"), more); } else { assert [] + more == more; }
  }

  lemma TermStep(terms: seq<OrderTerm>, i: nat, toks: Tokens, tail: Tokens, more: Tokens, rest: Tokens)
    requires i < |terms| && !AtPunct(rest, ",") && ParseOr(toks) == Got(terms[i].expr, tail)
    requires AtKw(tail, "desc") == terms[i].desc && !AtKw(tail, "asc")
    requires if terms[i].desc then tail[1..] == more else tail == more
    requires i + 1 == |terms| ==> more == rest
    requires i + 1 < |terms| ==> AtPunct(more, ",") && ParseTerms(more[1..]) == Got(terms[i + 1..], rest)
    ensures ParseTerms(toks) == Got(terms[i..], rest)
  {
    Suffix(terms, i);
    Suffix(terms, i + 1);
    assert terms[i] == OrderTerm(terms[i].expr, terms[i].desc);
    if i + 1 == |terms| { assert [terms[i]] + [] == [terms[i]]; }
  }

  lemma {:induction false} ReadOrder(s: Select, rest: Tokens)
    requires PrintableSelect(s) && From(6, rest)
    ensures ParseOrder(PrintOrder(s) + rest) == Got(s.order, rest)
    decreases s, 2, 0
  {
    var toks := PrintOrder(s) + rest;
    if s.order == [] {
      assert toks == rest;
      assert !AtKw(rest, "order");
    } else {
      ReadTerms(s, 0, rest);
      Suffix(s.order, 0);
      Nest([Ident("order"), Ident("by")], PrintTerms(s, 0), rest);
      OrderStep(s.order, PrintTerms(s, 0) + rest, rest);
    }
  }

  lemma OrderStep(terms: seq<OrderTerm>, items: Tokens, rest: Tokens)
    requires ParseTerms(items) == Got(terms, rest)
    ensures ParseOrder([Ident("order"), Ident("by")] + items) == Got(terms, rest)
  {
    var toks := [Ident("order"), Ident("by")] + items;
    assert toks[1..] == [Ident("by")] + items;
    Cons(Ident("by"), items);
  }

  lemma ReadLimit(limit: Option<nat>, rest: Tokens)
    requires (limit.Some? ==> limit.value <= MAX_INT64) && From(7, rest)
    ensures ParseLimit(PrintLimit(limit) + rest) == Got(limit, rest)
  {
    var toks := PrintLimit(limit) + rest;
    if limit.None? {
      assert toks == rest;
    } else {
      assert toks[2..] == rest;
      assert '.' !in Digits(limit.value);
      DigitsRoundTrip(limit.value);
    }
  }

  lemma ClausePhases(s: Select)
    requires PrintableSelect(s)
    ensures From(6, PrintLimit(s.limit)) && From(5, PrintOrder(s)) && From(4, PrintClause("having", s.having))
    ensures From(3, PrintGroup(s.group)) && From(2, PrintClause("where", s.where))
  {
    assert Phase(Ident("where")) == 2 && Phase(Ident("group")) == 3 && Phase(Ident("having")) == 4;
    assert Phase(Ident("order")) == 5 && Phase(Ident("limit")) == 6;
  }

  lemma Placed(k: nat, printed: Tokens, later: Tokens)
    requires From(k, printed) && From(k, later)
    ensures From(k, printed + later)
  {
    if printed == [] { assert printed + later == later; }
  }

  /** The clauses behind the tables, each followed by the later ones. */
  lemma ClausePlaces(s: Select, rest: Tokens)
    requires PrintableSelect(s) && From(7, rest)
    ensures
      var limit := PrintLimit(s.limit) + rest;
      var order := PrintOrder(s) + limit;
      var having := PrintClause("having", s.having) + order;
      var group := PrintGroup(s.group) + having;
      var where := PrintClause("where", s.where) + group;
      From(6, limit) && From(5, order) && From(4, having) && From(3, group) && From(2, where)
  {
    var limit := PrintLimit(s.limit) + rest;
    var order := PrintOrder(s) + limit;
    var having := PrintClause("having", s.having) + order;
    var group := PrintGroup(s.group) + having;
    ClausePhases(s);
    Placed(6, PrintLimit(s.limit), rest);
    Placed(5, PrintOrder(s), limit);
    Placed(4, PrintClause("having", s.having), order);
    Placed(3, PrintGroup(s.group), having);
    Placed(2, PrintClause("where", s.where), group);
  }

  lemma ClauseTokens(w: Tokens, g: Tokens, h: Tokens, o: Tokens, l: Tokens, rest: Tokens)
    ensures w + (g + (h + (o + l))) + rest == w + (g + (h + (o + (l + rest))))
  {
    Nest(o, l, rest);
    Nest(h, o + l, rest);
    Nest(g, h + (o + l), rest);
    Nest(w, g + (h + (o + l)), rest);
  }

  datatype Clauses = Clauses(
    where: Option<Expr>, group: seq<Expr>, having: Option<Expr>, order: seq<OrderTerm>, limit: Option<nat>)

  /** The second half of `parseSelect`. */
  function ParseClauses(toks: Tokens): Parsed<Clauses> {
    var where :- ParseClause("where", toks);
    var group :- ParseGroup(where.rest);
    var having :- ParseClause("having", group.rest);
    var order :- ParseOrder(having.rest);
    var limit :- ParseLimit(order.rest);
    Got(Clauses(where.value, group.value, having.value, order.value, limit.value), limit.rest)
  }

  lemma {:induction false} ReadClauses(s: Select, rest: Tokens)
    requires PrintableSelect(s) && From(7, rest)
    ensures ParseClauses(PrintClauses(s) + rest) == Got(Clauses(s.where, s.group, s.having, s.order, s.limit), rest)
    ensures From(2, PrintClauses(s) + rest)
    decreases s, 3, 0
  {
    var limit := PrintLimit(s.limit) + rest;
    var order := PrintOrder(s) + limit;
    var having := PrintClause("having", s.having) + order;
    var group := PrintGroup(s.group) + having;
    ClausePlaces(s, rest);
    ClauseTokens(PrintClause("where", s.where), PrintGroup(s.group), PrintClause("having", s.having), PrintOrder(s),
                 PrintLimit(s.limit), rest);
    ReadFilters(s, group, having, order);
    ReadOrder(s, limit);
    ReadLimit(s.limit, rest);
    ClausesInTurn(PrintClauses(s) + rest, s.where, group, s.group, having, s.having, order, s.order, limit, s.limit,
                  rest);
  }

  lemma {:induction false} ReadFilters(s: Select, group: Tokens, having: Tokens, order: Tokens)
    requires PrintableSelect(s) && From(5, order) && From(4, having) && From(3, group)
    requires having == PrintClause("having", s.having) + order && group == PrintGroup(s.group) + having
    ensures ParseClause("where", PrintClause("where", s.where) + group) == Got(s.where, group)
    ensures ParseGroup(group) == Got(s.group, having) && ParseClause("having", having) == Got(s.having, order)
    decreases s, 2, 0
  {
    ReadClause("where", s.where, group);
    ReadGroup(s.group, having);
    ReadClause("having", s.having, order);
  }

  lemma ClausesInTurn(
    a: Tokens, where: Option<Expr>, b: Tokens, group: seq<Expr>, c: Tokens, having: Option<Expr>, d: Tokens,
    order: seq<OrderTerm>, e: Tokens, limit: Option<nat>, rest: Tokens)
    requires ParseClause("where", a) == Got(where, b) && ParseGroup(b) == Got(group, c)
    requires ParseClause("having", c) == Got(having, d)
    requires ParseOrder(d) == Got(order, e) && ParseLimit(e) == Got(limit, rest)
    ensures ParseClauses(a) == Got(Clauses(where, group, having, order, limit), rest)
  {
  }

  lemma SelectByHalves(
    toks: Tokens, fields: Fields, from: Tokens, first: TableRef, joins: Tokens, j: Joined, tail: Tokens,
    c: Clauses, rest: Tokens)
    requires toks != [] && ParseFieldList(toks[1..]) == Got(fields, [Ident("from")] + from)
    requires ParseTableRef(from) == Got(first, joins) && ParseJoins(joins) == Got(j, tail)
    requires ParseClauses(tail) == Got(c, rest)
    ensures ParseSelect(toks) ==
            Got(Select([first] + j.tables, j.on, j.kinds, fields.star, fields.exprs, fields.aliases,
                       c.where, c.group, c.having, c.order, c.limit), rest)
  {
    Cons(Ident("from"), from);
    assert Expect([Ident("from")] + from, Ident("from")) == Got(true, from);
  }

  lemma {:induction false} ReadFieldList(s: Select, rest: Tokens)
    requires PrintableSelect(s) && AtKw(rest, "from")
    ensures ParseFieldList((if s.star then [Punct("*")] else PrintFields(s, 0)) + rest) ==
            Got(Fields(s.star, s.fields, s.aliases), rest)
    decreases s, 3, 0
  {
    if s.star {
      assert ([Punct("*")] + rest)[1..] == rest;
    } else {
      FirstToken(s.fields[0], 0);
      ReadFields(s, 0, rest);
      assert s.fields[0..] == s.fields && s.aliases[0..] == s.aliases;
      assert (PrintFields(s, 0) + rest)[0] == Print(s.fields[0], 0)[0];
    }
  }

  /** Parsing a printed query gives the query back, joins, directions and LIMIT included. */
  lemma {:induction false} ReadSelect(s: Select, rest: Tokens)
    requires PrintableSelect(s) && From(7, rest)
    ensures ParseSelect(PrintSelect(s) + rest) == Got(s, rest)
    ensures AtKw(PrintSelect(s) + rest, "select")
    decreases s, 4, 0
  {
    var tail := PrintClauses(s) + rest;
    var joins := PrintJoins(s, 0) + tail;
    var from := PrintRef(s.tables[0]) + joins;
    var fields := (if s.star then [Punct("*")] else PrintFields(s, 0)) + ([Ident("from")] + from);
    var toks := PrintSelect(s) + rest;
    SelectTokens(s, rest);
    Cons(Ident("select"), fields);
    ReadFieldList(s, [Ident("from")] + from);
    ReadRef(s.tables[0], joins);
    ReadClauses(s, rest);
    if s.on == [] { ReadNoJoins(s, 0, tail); } else { ReadJoins(s, 0, tail); }
    SelectByHalves(toks, Fields(s.star, s.fields, s.aliases), from, s.tables[0], joins,
                   Joined(s.tables[1..], s.on[0..], s.kinds[0..]), tail,
                   Clauses(s.where, s.group, s.having, s.order, s.limit), rest);
    Suffix(s.tables, 0);
    Suffix(s.on, 0);
    Suffix(s.kinds, 0);
  }

  lemma SelectTokens(s: Select, rest: Tokens)
    requires PrintableSelect(s)
    ensures PrintSelect(s) + rest ==
            [Ident("select")] + ((if s.star then [Punct("*")] else PrintFields(s, 0)) +
              ([Ident("from")] + (PrintRef(s.tables[0]) + (PrintJoins(s, 0) + (PrintClauses(s) + rest)))))
  {
    var fields := if s.star then [Punct("*")] else PrintFields(s, 0);
    ClauseTokens(fields, [Ident("from")], PrintRef(s.tables[0]), PrintJoins(s, 0), PrintClauses(s), rest);
    var tail := [Ident("from")] + (PrintRef(s.tables[0]) + (PrintJoins(s, 0) + PrintClauses(s)));
    Nest([Ident("select")], fields + tail, rest);
  }

  /** Parsing what was printed gives the expression back, whatever follows that cannot belong to it. */
  lemma ParseOfPrint(e: Expr, rest: Tokens)
    requires Printable(e) && Follows(0, rest)
    ensures ParseOr(Print(e, 0) + rest) == Got(e, rest)
  {
    ReadOr(e, rest);
  }
}
