/** The part of the Incan vocabulary tree the desugarer matches on, and its error result. */
module Incan {
  import opened Wrappers

  datatype Result<+T> = Ok(value: T) | Err(error: Error) {
    predicate IsFailure() {
      Err?
    }

    function PropagateFailure<U>(): Result<U>
      requires Err?
    {
      Err(error)
    }

    function Extract(): T
      requires Ok?
    {
      value
    }
  }

  datatype Error =
    | UnsupportedExpression
    | UnsupportedOperator
    | NotAPath
    | BadCallee
    | MissingClause
    | ClauseShape
    | JoinWithoutOn
    | OnWithoutJoin
    | JoinSourceUnnamed
    | NeedsAlias
    | NotAnAggregate
    | EmptyDistinct
    | MissingSelect
    | WindowNeedsCall

  datatype BinaryOp =
    Add | Sub | Mul | Div | Mod | Eq | NotEq | Lt | LtEq | Gt | GtEq | And | Or | OtherBinary

  datatype UnaryOp = Not | Neg | OtherUnary

  datatype Payload = LeadingDotPath(segments: seq<string>) | OtherPayload

  datatype Expr =
    | Name(name: string)
    | Str(text: string)
    | Int(int_: int)
    | Bool(flag: bool)
    /** `query` tells whether the descriptor is the query-field one. */
    | ScopedSurface(query: bool, payload: Payload)
    | CurrentField(current: string)
    | RelationField(relation: string, column: string)
    | ListOf(items: seq<Expr>)
    | TupleOf(items: seq<Expr>)
    | DictOf(entries: seq<Entry>)
    | Binary(left: Expr, op: BinaryOp, right: Expr)
    | Unary(unary: UnaryOp, inner: Expr)
    | Call(callee: Expr, args: seq<Expr>)
    | ScopedSymbolCall(symbol: string, args: seq<Expr>)
    | Field(object_: Expr, field: string)
    | Helper(helper: string)
    | OtherExpr(tag: nat)

  datatype Entry = Entry(key: Expr, value: Expr)

  datatype Item = Item(expr: Expr, alias: Option<string>)
  datatype FieldSpec = FieldSpec(name: string, defaultValue: Option<Expr>)

  datatype ClauseBody =
    | ExpressionBody(expr: Expr)
    | ListBody(items: seq<Item>)
    | FieldsBody(fields: seq<FieldSpec>)
    | OtherBody

  datatype Clause = Clause(keyword: string, compound: seq<string>, body: ClauseBody)
  datatype BodyItem = ClauseItem(clause: Clause) | OtherItem

  function Joined(parts: seq<string>, separator: string): string {
    if parts == [] then ""
    else if |parts| == 1 then parts[0]
    else parts[0] + separator + Joined(parts[1..], separator)
  }

  /** The words a clause opens with, as they are written. */
  function Words(c: Clause): string {
    Joined([c.keyword] + c.compound, " ")
  }

  function HelperCall(name: string, args: seq<Expr>): Expr {
    Call(Helper(name), args)
  }

  function MethodCall(receiver: Expr, method_: string, args: seq<Expr>): Expr {
    Call(Field(receiver, method_), args)
  }

  /** A direct column reference as the helper surface writes it. */
  function ColCall(name: string): Expr {
    HelperCall("col", [Str(name)])
  }
}
