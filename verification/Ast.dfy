/** Parsed expressions and queries. */
module Ast {
  import opened Values

  datatype CmpOp = Eq | Ne | Lt | Le | Gt | Ge

  datatype ArithOp = Add | Sub | Mul | Div | Mod

  datatype Expr =
    | Lit(v: Value)
    | Col(table: string, name: string)  // table empty: unqualified
    | Func(fname: string, star: bool, arg: Option<Expr>)
    | Cmp(cop: CmpOp, l: Expr, r: Expr)
    | IsNull(x: Expr, negated: bool)
    | And(l: Expr, r: Expr)
    | Or(l: Expr, r: Expr)
    | Not(x: Expr)
    | Binary(aop: ArithOp, l: Expr, r: Expr)
    | InList(x: Expr, list: seq<Expr>, negated: bool)
    | InSub(x: Expr, sub: Select, negated: bool)

  datatype JoinKind = Inner | Left

  datatype TableRef = TableRef(table: string, alias: string, sub: Option<Select>)

  datatype OrderTerm = OrderTerm(expr: Expr, desc: bool)

  datatype Select = Select(
    tables: seq<TableRef>,
    on: seq<Expr>,               // on[i] joins tables[i + 1]
    kinds: seq<JoinKind>,        // aligned with on
    star: bool,
    fields: seq<Expr>,
    aliases: seq<string>,        // aligned with fields; empty: no alias
    where: Option<Expr>,
    group: seq<Expr>,
    having: Option<Expr>,
    order: seq<OrderTerm>,
    limit: Option<nat>)

  predicate IsAggregate(name: string) {
    name == "count" || name == "sum" || name == "avg" || name == "min" || name == "max"
  }

  /** An IN list as the executor wants it. */
  predicate AllLits(list: seq<Expr>) { forall i :: 0 <= i < |list| ==> list[i].Lit? }
}
