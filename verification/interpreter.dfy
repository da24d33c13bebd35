/**
 * The tree-walking evaluator of src/interpreter.rs: literal tokens become
 * values, groupings are transparent, and each operator checks the kinds of
 * its operands before it computes.
 *
 * The `unreachable!` panics become the outcome `Err(Unreachable)`, so that
 * `Interpret` is total and what reaches them can be stated.
 */
module Interpreter {
  import opened Wrappers
  import opened Bytes
  import opened Floats
  import opened Tokens
  import opened Parser

  datatype Value =
    | Nil
    | Bool(b: bool)
    | Number(n: Float)
    | String(text: seq<byte>)

  /** `Type` is the source's only error; `Unreachable` stands for its `unreachable!` panics. */
  datatype Error = Type | Unreachable

  /** truthy: `Nil` and `false` are false, every other value is true, and the answer is a `Bool`. */
  function Truthy(v: Value): (t: Value)
    ensures t.Bool?
    ensures t.b <==> v != Value.Nil && v != Bool(false)
  {
    match v
    case Bool(_) => v
    case Nil => Bool(false)
    case _ => Bool(true)
  }

  /** Whether two values are of the same variant. */
  predicate SameKind(a: Value, b: Value) {
    (a.Nil? && b.Nil?) || (a.Bool? && b.Bool?) || (a.Number? && b.Number?) || (a.String? && b.String?)
  }

  /**
   * equals: always a `Bool`; values of different variants are unequal;
   * numbers compare as floats (NaN equals nothing), everything else
   * structurally.
   */
  function Equals(a: Value, b: Value): (r: Value)
    ensures r.Bool?
    ensures !SameKind(a, b) ==> r == Bool(false)
    ensures !a.Number? ==> (r.b <==> a == b)
    ensures a.Number? && b.Number? ==> (r.b <==> Same(a.n, b.n))
  {
    match (a, b)
    case (Nil, Nil) => Bool(true)
    case (Bool(x), Bool(y)) => Bool(x == y)
    case (Number(x), Number(y)) => Bool(Same(x, y))
    case (String(x), String(y)) => Bool(x == y)
    case _ => Bool(false)
  }

  /** The operators that need two numbers: `-`, `/`, `*` and the four comparisons. */
  predicate NumericOperator(op: TokenType) {
    op in {Minus, Slash, Star, GreaterThan, GreaterThanOrEqual, LessThan, LessThanOrEqual}
  }

  /** The operators the binary case handles. */
  predicate BinaryOperator(op: TokenType) {
    NumericOperator(op) || op in {Plus, Equal, NotEqual}
  }

  /** The binary case once both operands are values. */
  function Operate(op: TokenType, left: Value, right: Value): (r: Result<Value, Error>)
    ensures r == Err(Unreachable) <==> !BinaryOperator(op)
  {
    match op
    case Minus =>
      if !left.Number? || !right.Number? then Err(Type) else Ok(Value.Number(Sub(left.n, right.n)))
    case Slash =>
      if !left.Number? || !right.Number? then Err(Type) else Ok(Value.Number(Div(left.n, right.n)))
    case Star =>
      if !left.Number? || !right.Number? then Err(Type) else Ok(Value.Number(Mul(left.n, right.n)))
    case Plus =>
      if left.Number? && right.Number? then Ok(Value.Number(Add(left.n, right.n)))
      else if left.String? && right.String? then Ok(Value.String(left.text + right.text))
      else Err(Type)
    case GreaterThan =>
      if !left.Number? || !right.Number? then Err(Type) else Ok(Bool(Less(right.n, left.n)))
    case GreaterThanOrEqual =>
      if !left.Number? || !right.Number? then Err(Type) else Ok(Bool(LessOrSame(right.n, left.n)))
    case LessThan =>
      if !left.Number? || !right.Number? then Err(Type) else Ok(Bool(Less(left.n, right.n)))
    case LessThanOrEqual =>
      if !left.Number? || !right.Number? then Err(Type) else Ok(Bool(LessOrSame(left.n, right.n)))
    case Equal => Ok(Equals(left, right))
    case NotEqual =>
      var eq := Equals(left, right);
      if eq.Bool? then Ok(Bool(!eq.b)) else Err(Unreachable)
    case _ => Err(Unreachable)
  }

  /** The literal case: the value a literal token is written as. */
  function FromLiteral(token: TokenType): (r: Result<Value, Error>)
    ensures r.Ok? <==> IsLiteralKind(token)
    ensures r.Err? ==> r.error == Unreachable
  {
    match token
    case Number(x) => Ok(Value.Number(x))
    case String(s) => Ok(Value.String(s))
    case True => Ok(Bool(true))
    case False => Ok(Bool(false))
    case Nil => Ok(Value.Nil)
    case _ => Err(Unreachable)
  }

  /** The unary case once the operand is a value. */
  function OperateUnary(op: TokenType, value: Value): (r: Result<Value, Error>)
    ensures r == Err(Unreachable) <==> op != Minus && op != Bang
    ensures op == Bang ==> r.Ok?
  {
    match op
    case Minus => if value.Number? then Ok(Value.Number(Neg(value.n))) else Err(Type)
    case Bang =>
      var t := Truthy(value);
      if t.Bool? then Ok(Bool(!t.b)) else Err(Type)
    case _ => Err(Unreachable)
  }

  /**
   * interpret: the left operand first, then the right, then the operator.
   * Only the literal kinds, unary `-` and `!`, and the ten binary operators
   * can produce a value.
   */
  function Interpret(e: Expr): (r: Result<Value, Error>)
    ensures e.Literal? ==> (r.Ok? <==> IsLiteralKind(e.value))
    ensures e.Unary? && r.Ok? ==> e.operator == Minus || e.operator == Bang
    ensures e.Binary? && r.Ok? ==> BinaryOperator(e.operator)
  {
    match e
    case Literal(token) => FromLiteral(token)
    case Grouping(inner) => Interpret(inner)
    case Unary(op, right) =>
      var value :- Interpret(right);
      OperateUnary(op, value)
    case Binary(left, op, right) =>
      var l :- Interpret(left);
      var r :- Interpret(right);
      Operate(op, l, r)
  }
}
