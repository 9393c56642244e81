/** The expression and SELECT grammar, as functions from tokens to syntax trees. */
module Grammar {
  import opened Values
  import opened Keys
  import opened Ast

  datatype Token = Ident(text: string) | Num(text: string) | Str(text: string) | Punct(text: string)

  /** The tokens ahead, without the end marker: empty means end of input. */
  type Tokens = seq<Token>

  datatype Parsed<+T> = Got(value: T, rest: Tokens) | Failed {
    predicate IsFailure() { Failed? }

    function PropagateFailure<U>(): Parsed<U>
      requires Failed?
    {
      Failed
    }

    function Extract(): Parsed<T>
      requires Got?
    {
      this
    }
  }

  // --- numbers ---------------------------------------------------------------------------------------

  datatype FloatText = FloatText(parse: string -> Option<Float>, write: Float -> string)

  predicate IsDecimal(s: string) {
    exists i :: 0 <= i < |s| && s[i] == '.' && AllDigits(s[..i]) && AllDigits(s[i + 1..]) && i > 0
  }

  predicate AllDigits(s: string) { forall i :: 0 <= i < |s| ==> IsDigit(s[i]) }

  /** A float has a decimal text or it cannot be written as a literal. */
  ghost predicate IsFloatText(c: FloatText) {
    forall f :: IsDecimal(c.write(f)) ==> c.parse(c.write(f)) == Some(f)
  }

  type FloatCodec = c: FloatText | IsFloatText(c)
    witness FloatText(s => Some(Fin(0)), f => if f == Fin(0) then "0." else "")

  /** `strconv.ParseFloat` and a printer for it, left arbitrary. */
  const FloatLiteral: FloatCodec

  /** `strconv.ParseInt(text, 10, 64)` on a token without a point. */
  function ParseInt(s: string): Option<int64> {
    if s != [] && AllDigits(s) && DigitsValue(s) <= MAX_INT64 then Some(DigitsValue(s)) else None
  }

  function ParseNumber(s: string): Option<Value> {
    if '.' in s then
      match FloatLiteral.parse(s)
      case None => None
      case Some(f) => Some(VFloat(f))
    else
      match ParseInt(s)
      case None => None
      case Some(n) => Some(VInt(n))
  }

  // --- looking ahead ------------------------------------------------------------------------------------

  predicate AtKw(toks: Tokens, kw: string) { toks != [] && toks[0] == Ident(kw) }

  predicate AtPunct(toks: Tokens, p: string) { toks != [] && toks[0] == Punct(p) }

  function Expect(toks: Tokens, t: Token): (r: Parsed<bool>)
    ensures r.Got? ==> |r.rest| == |toks| - 1
  {
    if toks != [] && toks[0] == t then Got(true, toks[1..]) else Failed
  }

  function CmpOf(t: Token): Option<CmpOp> {
    if t == Punct("=") then Some(Eq)
    else if t == Punct("<>") then Some(Ne)
    else if t == Punct("<") then Some(Lt)
    else if t == Punct("<=") then Some(Le)
    else if t == Punct(">") then Some(Gt)
    else if t == Punct(">=") then Some(Ge)
    else None
  }

  function AddOf(t: Token): Option<ArithOp> {
    if t == Punct("+") then Some(Add) else if t == Punct("-") then Some(Sub) else None
  }

  function MulOf(t: Token): Option<ArithOp> {
    if t == Punct("*") then Some(Mul)
    else if t == Punct("/") then Some(Div)
    else if t == Punct("%") then Some(Mod)
    else None
  }

  // --- expressions ------------------------------------------------------------------------------------------

  function ParseOr(toks: Tokens): (r: Parsed<Expr>)
    ensures r.Got? ==> |r.rest| < |toks|
    decreases |toks|, 10
  {
    var l :- ParseAnd(toks);
    OrLoop(l.value, l.rest)
  }

  function OrLoop(l: Expr, toks: Tokens): (r: Parsed<Expr>)
    ensures r.Got? ==> |r.rest| <= |toks|
    decreases |toks|, 0
  {
    if !AtKw(toks, "or") then Got(l, toks)
    else
      var r :- ParseAnd(toks[1..]);
      OrLoop(Or(l, r.value), r.rest)
  }

  function ParseAnd(toks: Tokens): (r: Parsed<Expr>)
    ensures r.Got? ==> |r.rest| < |toks|
    decreases |toks|, 9
  {
    var l :- ParseNot(toks);
    AndLoop(l.value, l.rest)
  }

  function AndLoop(l: Expr, toks: Tokens): (r: Parsed<Expr>)
    ensures r.Got? ==> |r.rest| <= |toks|
    decreases |toks|, 0
  {
    if !AtKw(toks, "and") then Got(l, toks)
    else
      var r :- ParseNot(toks[1..]);
      AndLoop(And(l, r.value), r.rest)
  }

  function ParseNot(toks: Tokens): (r: Parsed<Expr>)
    ensures r.Got? ==> |r.rest| < |toks|
    decreases |toks|, 8
  {
    if AtKw(toks, "not") then
      var x :- ParseNot(toks[1..]);
      Got(Not(x.value), x.rest)
    else ParseCmp(toks)
  }

  function ParseCmp(toks: Tokens): (r: Parsed<Expr>)
    ensures r.Got? ==> |r.rest| < |toks|
    decreases |toks|, 7
  {
    var l :- ParseAdd(toks);
    CmpTail(l.value, l.rest)
  }

  /** What may follow the left operand: a comparison, IS [NOT] NULL, [NOT] IN, or nothing. */
  function CmpTail(l: Expr, toks: Tokens): (r: Parsed<Expr>)
    ensures r.Got? ==> |r.rest| <= |toks|
    decreases |toks|, 0
  {
    if toks == [] then Got(l, toks)
    else if CmpOf(toks[0]).Some? then
      var r :- ParseAdd(toks[1..]);
      Got(Cmp(CmpOf(toks[0]).value, l, r.value), r.rest)
    else if AtKw(toks, "is") then
      var negated := AtKw(toks[1..], "not");
      var after := if negated then toks[2..] else toks[1..];
      var ok :- Expect(after, Ident("null"));
      Got(IsNull(l, negated), ok.rest)
    else if AtKw(toks, "not") then
      if AtKw(toks[1..], "in") then ParseIn(l, true, toks[2..]) else Got(l, toks)
    else if AtKw(toks, "in") then ParseIn(l, false, toks[1..])
    else Got(l, toks)
  }

  function ParseIn(l: Expr, negated: bool, toks: Tokens): (r: Parsed<Expr>)
    ensures r.Got? ==> |r.rest| <= |toks|
    decreases |toks|, 12
  {
    var open :- Expect(toks, Punct("("));
    if AtKw(open.rest, "select") then
      var sub :- ParseSelect(open.rest);
      var close :- Expect(sub.rest, Punct(")"));
      Got(InSub(l, sub.value, negated), close.rest)
    else
      var list :- ParseList(open.rest);
      var close :- Expect(list.rest, Punct(")"));
      Got(InList(l, list.value, negated), close.rest)
  }

  /** One or more expressions separated by commas. */
  function ParseList(toks: Tokens): (r: Parsed<seq<Expr>>)
    ensures r.Got? ==> |r.rest| < |toks|
    decreases |toks|, 11
  {
    var e :- ParseOr(toks);
    if AtPunct(e.rest, ",") then
      var more :- ParseList(e.rest[1..]);
      Got([e.value] + more.value, more.rest)
    else Got([e.value], e.rest)
  }

  function ParseAdd(toks: Tokens): (r: Parsed<Expr>)
    ensures r.Got? ==> |r.rest| < |toks|
    decreases |toks|, 6
  {
    var l :- ParseMul(toks);
    AddLoop(l.value, l.rest)
  }

  function AddLoop(l: Expr, toks: Tokens): (r: Parsed<Expr>)
    ensures r.Got? ==> |r.rest| <= |toks|
    decreases |toks|, 0
  {
    if toks == [] || AddOf(toks[0]).None? then Got(l, toks)
    else
      var r :- ParseMul(toks[1..]);
      AddLoop(Binary(AddOf(toks[0]).value, l, r.value), r.rest)
  }

  function ParseMul(toks: Tokens): (r: Parsed<Expr>)
    ensures r.Got? ==> |r.rest| < |toks|
    decreases |toks|, 5
  {
    var l :- ParseUnary(toks);
    MulLoop(l.value, l.rest)
  }

  function MulLoop(l: Expr, toks: Tokens): (r: Parsed<Expr>)
    ensures r.Got? ==> |r.rest| <= |toks|
    decreases |toks|, 0
  {
    if toks == [] || MulOf(toks[0]).None? then Got(l, toks)
    else
      var r :- ParseUnary(toks[1..]);
      MulLoop(Binary(MulOf(toks[0]).value, l, r.value), r.rest)
  }

  /** A leading minus is a subtraction from zero. */
  function ParseUnary(toks: Tokens): (r: Parsed<Expr>)
    ensures r.Got? ==> |r.rest| < |toks|
    decreases |toks|, 4
  {
    if AtPunct(toks, "-") then
      var x :- ParseUnary(toks[1..]);
      Got(Binary(Sub, Lit(VInt(0)), x.value), x.rest)
    else ParsePrimary(toks)
  }

  function ParsePrimary(toks: Tokens): (r: Parsed<Expr>)
    ensures r.Got? ==> |r.rest| < |toks|
    decreases |toks|, 3
  {
    if toks == [] then Failed
    else match toks[0]
      case Num(text) =>
        (match ParseNumber(text)
         case None => Failed
         case Some(v) => Got(Lit(v), toks[1..]))
      case Str(text) => Got(Lit(VText(text)), toks[1..])
      case Ident(text) =>
        if text == "null" then Got(Lit(VNull), toks[1..])
        else if text == "true" then Got(Lit(VBool(true)), toks[1..])
        else if text == "false" then Got(Lit(VBool(false)), toks[1..])
        else ParseNamed(text, toks[1..])
      case Punct(text) =>
        if text == "(" then
          var e :- ParseOr(toks[1..]);
          var close :- Expect(e.rest, Punct(")"));
          Got(e.value, close.rest)
        else Failed
  }

  /** After a name: a qualified column, a call, or a plain column. */
  function ParseNamed(name: string, toks: Tokens): (r: Parsed<Expr>)
    ensures r.Got? ==> |r.rest| <= |toks|
    decreases |toks|, 11
  {
    if AtPunct(toks, ".") then
      if |toks| > 1 && toks[1].Ident? then Got(Col(name, toks[1].text), toks[2..]) else Failed
    else if AtPunct(toks, "(") then
      if AtPunct(toks[1..], "*") then
        var close :- Expect(toks[2..], Punct(")"));
        Got(Func(name, true, None), close.rest)
      else if AtPunct(toks[1..], ")") then Got(Func(name, false, None), toks[2..])
      else
        var arg :- ParseOr(toks[1..]);
        var close :- Expect(arg.rest, Punct(")"));
        Got(Func(name, false, Some(arg.value)), close.rest)
    else Got(Col("", name), toks)
  }

  // --- SELECT -------------------------------------------------------------------------------------------------

  predicate RefStop(text: string) {
    text in {"where", "group", "order", "limit", "join", "inner", "left", "right", "outer", "cross", "on",
             "having", "in", "not"}
  }

  predicate FieldStop(text: string) { text in {"from", "where", "group", "having", "order", "limit"} }

  function ParseIdent(toks: Tokens): (r: Parsed<string>)
    ensures r.Got? ==> |r.rest| < |toks|
  {
    if toks != [] && toks[0].Ident? then Got(toks[0].text, toks[1..]) else Failed
  }

  /** `[AS] ident`; the empty string when there is none. */
  function ParseRefAlias(toks: Tokens): (r: Parsed<string>)
    ensures r.Got? ==> |r.rest| <= |toks|
  {
    if AtKw(toks, "as") then ParseIdent(toks[1..])
    else if toks != [] && toks[0].Ident? && !RefStop(toks[0].text) then Got(toks[0].text, toks[1..])
    else Got("", toks)
  }

  function ParseFieldAlias(toks: Tokens): (r: Parsed<string>)
    ensures r.Got? ==> |r.rest| <= |toks|
  {
    if AtKw(toks, "as") then ParseIdent(toks[1..])
    else if toks != [] && toks[0].Ident? && !FieldStop(toks[0].text) then Got(toks[0].text, toks[1..])
    else Got("", toks)
  }

  function ParseTableRef(toks: Tokens): (r: Parsed<TableRef>)
    ensures r.Got? ==> |r.rest| < |toks|
    decreases |toks|, 13
  {
    if AtPunct(toks, "(") then
      if !AtKw(toks[1..], "select") then Failed
      else
        var sub :- ParseSelect(toks[1..]);
        var close :- Expect(sub.rest, Punct(")"));
        var alias :- ParseRefAlias(close.rest);
        if alias.value == "" then Failed else Got(TableRef("", alias.value, Some(sub.value)), alias.rest)
    else
      var name :- ParseIdent(toks);
      var alias :- ParseRefAlias(name.rest);
      Got(TableRef(name.value, if alias.value == "" then name.value else alias.value, None), alias.rest)
  }

  datatype Fields = Fields(star: bool, exprs: seq<Expr>, aliases: seq<string>)

  function ParseFields(toks: Tokens): (r: Parsed<Fields>)
    ensures r.Got? ==> |r.rest| < |toks| && |r.value.exprs| == |r.value.aliases|
    decreases |toks|, 11
  {
    var e :- ParseOr(toks);
    var alias :- ParseFieldAlias(e.rest);
    if AtPunct(alias.rest, ",") then
      var more :- ParseFields(alias.rest[1..]);
      Got(Fields(false, [e.value] + more.value.exprs, [alias.value] + more.value.aliases), more.rest)
    else Got(Fields(false, [e.value], [alias.value]), alias.rest)
  }

  function ParseFieldList(toks: Tokens): (r: Parsed<Fields>)
    ensures r.Got? ==> |r.rest| < |toks| && |r.value.exprs| == |r.value.aliases|
    decreases |toks|, 12
  {
    if AtPunct(toks, "*") then Got(Fields(true, [], []), toks[1..]) else ParseFields(toks)
  }

  /** The words that open a join; a dangling INNER or LEFT is left where it stands. */
  function JoinStart(toks: Tokens): (r: Parsed<JoinKind>)
    ensures r.Got? ==> |r.rest| < |toks|
  {
    if AtKw(toks, "join") then Got(Inner, toks[1..])
    else if AtKw(toks, "inner") && AtKw(toks[1..], "join") then Got(Inner, toks[2..])
    else if AtKw(toks, "left") then
      var after := if AtKw(toks[1..], "outer") then toks[2..] else toks[1..];
      if AtKw(after, "join") then Got(Left, after[1..]) else Failed
    else Failed
  }

  datatype Joined = Joined(tables: seq<TableRef>, on: seq<Expr>, kinds: seq<JoinKind>)

  function ParseJoins(toks: Tokens): (r: Parsed<Joined>)
    ensures r.Got? ==> |r.rest| <= |toks| && |r.value.tables| == |r.value.on| == |r.value.kinds|
    decreases |toks|, 14
  {
    var kind := JoinStart(toks);
    if kind.Failed? then Got(Joined([], [], []), toks)
    else
      var ref :- ParseTableRef(kind.rest);
      var kw :- Expect(ref.rest, Ident("on"));
      var on :- ParseOr(kw.rest);
      var more :- ParseJoins(on.rest);
      Got(Joined([ref.value] + more.value.tables, [on.value] + more.value.on, [kind.value] + more.value.kinds),
        more.rest)
  }

  /** A clause that starts with a keyword and holds one condition. */
  function ParseClause(kw: string, toks: Tokens): (r: Parsed<Option<Expr>>)
    ensures r.Got? ==> |r.rest| <= |toks|
    decreases |toks|, 12
  {
    if !AtKw(toks, kw) then Got(None, toks)
    else
      var e :- ParseOr(toks[1..]);
      Got(Some(e.value), e.rest)
  }

  function ParseGroup(toks: Tokens): (r: Parsed<seq<Expr>>)
    ensures r.Got? ==> |r.rest| <= |toks|
    decreases |toks|, 12
  {
    if !AtKw(toks, "group") then Got([], toks)
    else
      var kw :- Expect(toks[1..], Ident("by"));
      ParseList(kw.rest)
  }

  function ParseTerms(toks: Tokens): (r: Parsed<seq<OrderTerm>>)
    ensures r.Got? ==> |r.rest| < |toks|
    decreases |toks|, 11
  {
    var e :- ParseOr(toks);
    var desc := AtKw(e.rest, "desc");
    var after := if desc || AtKw(e.rest, "asc") then e.rest[1..] else e.rest;
    if AtPunct(after, ",") then
      var more :- ParseTerms(after[1..]);
      Got([OrderTerm(e.value, desc)] + more.value, more.rest)
    else Got([OrderTerm(e.value, desc)], after)
  }

  function ParseOrder(toks: Tokens): (r: Parsed<seq<OrderTerm>>)
    ensures r.Got? ==> |r.rest| <= |toks|
    decreases |toks|, 12
  {
    if !AtKw(toks, "order") then Got([], toks)
    else
      var kw :- Expect(toks[1..], Ident("by"));
      ParseTerms(kw.rest)
  }

  function ParseLimit(toks: Tokens): (r: Parsed<Option<nat>>)
    ensures r.Got? ==> |r.rest| <= |toks|
  {
    if !AtKw(toks, "limit") then Got(None, toks)
    else if |toks| < 2 || !toks[1].Num? || '.' in toks[1].text then Failed
    else match ParseInt(toks[1].text)
      case None => Failed
      case Some(n) => if n < 0 then Failed else Got(Some(n), toks[2..])
  }

  /** `parseSelect`, called with the word SELECT ahead. */
  function ParseSelect(toks: Tokens): (r: Parsed<Select>)
    ensures r.Got? ==> |r.rest| < |toks|
    decreases |toks|, 2
  {
    if toks == [] then Failed
    else
      var fields :- ParseFieldList(toks[1..]);
      var kw :- Expect(fields.rest, Ident("from"));
      var first :- ParseTableRef(kw.rest);
      var joins :- ParseJoins(first.rest);
      var where :- ParseClause("where", joins.rest);
      var group :- ParseGroup(where.rest);
      var having :- ParseClause("having", group.rest);
      var order :- ParseOrder(having.rest);
      var limit :- ParseLimit(order.rest);
      Got(Select([first.value] + joins.value.tables, joins.value.on, joins.value.kinds,
                 fields.value.star, fields.value.exprs, fields.value.aliases,
                 where.value, group.value, having.value, order.value, limit.value), limit.rest)
  }
}
