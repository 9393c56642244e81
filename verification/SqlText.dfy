/** Expressions and queries as SQL text: written, lexed and parsed back. */
module SqlText {
  import opened Values
  import opened Ast
  import opened Grammar
  import opened Lexer
  import opened Printing

  /** Every name is a lower-case word. */
  predicate Named(e: Expr)
    decreases e, 0
  {
    match e
    case Col(table, name) => (table != "" ==> IsWord(table)) && IsWord(name)
    case Func(name, _, arg) => IsWord(name) && (arg.Some? ==> Named(arg.value))
    case Cmp(_, l, r) => Named(l) && Named(r)
    case IsNull(x, _) => Named(x)
    case And(l, r) => Named(l) && Named(r)
    case Or(l, r) => Named(l) && Named(r)
    case Not(x) => Named(x)
    case Binary(_, l, r) => Named(l) && Named(r)
    case InList(x, list, _) => Named(x) && AllNamed(list)
    case InSub(x, sub, _) => Named(x) && PrintableSelect(sub) && AllWellFormed(PrintSelect(sub))
    case _ => true
  }

  predicate AllNamed(list: seq<Expr>)
    decreases list, 0
  {
    list == [] || (Named(list[0]) && AllNamed(list[1..]))
  }

  predicate AllWellFormed(toks: Tokens) { forall i :: 0 <= i < |toks| ==> WellFormed(toks[i]) }

  lemma KeywordsAreWords()
    ensures forall s :: s in {"null", "true", "false", "not", "and", "or", "is", "in"} ==> IsWord(s)
  {
  }

  lemma {:induction false} PrintWellFormed(e: Expr, k: nat)
    requires Printable(e) && Named(e)
    ensures AllWellFormed(Print(e, k))
    decreases e, 2
  {
    BareWellFormed(e);
  }

  lemma {:induction false} BareWellFormed(e: Expr)
    requires Printable(e) && Named(e)
    ensures AllWellFormed(Bare(e))
    decreases e, 1
  {
    KeywordsAreWords();
    match e
    case Lit(v) =>
    case Col(_, _) =>
    case Func(_, _, arg) => if arg.Some? { PrintWellFormed(arg.value, 0); Called(e.fname, Print(arg.value, 0)); }
    case Not(x) => PrintWellFormed(x, 2);
    case IsNull(x, _) => PrintWellFormed(x, 4);
    case InList(x, list, negated) =>
      PrintWellFormed(x, 4);
      ListWellFormed(list);
      ListInPlace(Print(x, 4), negated, PrintList(list));
    case InSub(x, sub, negated) =>
      PrintWellFormed(x, 4);
      ListInPlace(Print(x, 4), negated, PrintSelect(sub));
    case Or(_, _) => PairWellFormed(e);
    case And(_, _) => PairWellFormed(e);
    case Cmp(_, _, _) => PairWellFormed(e);
    case Binary(_, _, _) => PairWellFormed(e);
  }

  lemma {:induction false} PairWellFormed(e: Expr)
    requires Printable(e) && Named(e) && (e.Or? || e.And? || e.Cmp? || e.Binary?)
    ensures AllWellFormed(Bare(e))
    decreases e, 0
  {
    KeywordsAreWords();
    match e
    case Or(l, r) => PrintWellFormed(l, 0); PrintWellFormed(r, 1); Between(Print(l, 0), Ident("or"), Print(r, 1));
    case And(l, r) => PrintWellFormed(l, 1); PrintWellFormed(r, 2); Between(Print(l, 1), Ident("and"), Print(r, 2));
    case Cmp(op, l, r) => PrintWellFormed(l, 4); PrintWellFormed(r, 4); Between(Print(l, 4), CmpToken(op), Print(r, 4));
    case Binary(op, l, r) =>
      var k := if op.Add? || op.Sub? then 4 else 5;
      PrintWellFormed(l, k);
      PrintWellFormed(r, k + 1);
      Between(Print(l, k), ArithToken(op), Print(r, k + 1));
  }

  lemma Between(a: Tokens, t: Token, b: Tokens)
    requires AllWellFormed(a) && WellFormed(t) && AllWellFormed(b)
    ensures AllWellFormed(a + [t] + b)
  {
  }

  lemma Called(name: string, arg: Tokens)
    requires IsWord(name) && AllWellFormed(arg)
    ensures AllWellFormed([Ident(name), Punct("(")] + arg + [Punct(")")])
  {
  }

  lemma ListInPlace(a: Tokens, negated: bool, items: Tokens)
    requires AllWellFormed(a) && AllWellFormed(items)
    ensures AllWellFormed(a + (if negated then [Ident("not")] else []) + [Ident("in"), Punct("(")] + items +
            [Punct(")")])
  {
    KeywordsAreWords();
  }

  lemma {:induction false} ListWellFormed(list: seq<Expr>)
    requires list != [] && AllPrintable(list) && AllNamed(list)
    ensures AllWellFormed(PrintList(list))
    decreases list, 0
  {
    PrintWellFormed(list[0], 0);
    if |list| > 1 { ListWellFormed(list[1..]); }
  }

  /** A query whose tokens are words, numerals, strings and symbols, written as text, lexed and parsed, is
      the same query. */
  lemma QueryTextRoundTrip(s: Select)
    requires PrintableSelect(s) && AllWellFormed(PrintSelect(s))
    ensures
      var toks := Lex(WriteAll(PrintSelect(s)));
      toks.Some? && ParseSelect(toks.value) == Got(s, [])
  {
    LexOfWrite(PrintSelect(s));
    ReadSelect(s, []);
    assert PrintSelect(s) + [] == PrintSelect(s);
  }

  /** Writing an expression as text, lexing the text and parsing the tokens gives the expression. */
  lemma TextRoundTrip(e: Expr)
    requires Printable(e) && Named(e)
    ensures
      var toks := Lex(WriteAll(Print(e, 0)));
      toks.Some? && ParseOr(toks.value) == Got(e, [])
  {
    PrintWellFormed(e, 0);
    LexOfWrite(Print(e, 0));
    ParseOfPrint(e, []);
    assert Print(e, 0) + [] == Print(e, 0);
  }
}
