/**
 * What the evaluator promises: which operand kinds each operator accepts,
 * how errors travel, and a static typing of expressions that predicts
 * exactly when evaluation succeeds and what kind of value it gives.
 */
module InterpreterProperties {
  import opened Wrappers
  import opened Bytes
  import opened Floats
  import opened Tokens
  import opened Parser
  import opened Interpreter

  /* ---------------------------------------------------------------------- */
  /* Literals                                                               */
  /* ---------------------------------------------------------------------- */

  /** The literal token a value is written as. */
  function TokenOf(v: Value): (k: TokenType)
    ensures IsLiteralKind(k)
  {
    match v
    case Nil => TokenType.Nil
    case Bool(b) => if b then True else False
    case Number(x) => TokenType.Number(x)
    case String(s) => TokenType.String(s)
  }

  /** Every value is what its literal token evaluates to. */
  lemma LiteralOfValue(v: Value)
    ensures Interpret(Literal(TokenOf(v))) == Ok(v)
  {
  }

  /** A literal node evaluates exactly when its token is a literal kind, to the value written by that token. */
  lemma LiteralValue(k: TokenType)
    ensures Interpret(Literal(k)).Ok? <==> IsLiteralKind(k)
    ensures IsLiteralKind(k) ==> TokenOf(Interpret(Literal(k)).value) == k
    ensures !IsLiteralKind(k) ==> Interpret(Literal(k)) == Err(Unreachable)
  {
  }

  /* ---------------------------------------------------------------------- */
  /* Grouping                                                               */
  /* ---------------------------------------------------------------------- */

  /** The tree with every grouping node removed. */
  function Ungroup(e: Expr): (u: Expr)
    ensures !u.Grouping?
  {
    match e
    case Grouping(inner) => Ungroup(inner)
    case Binary(l, op, r) => Binary(Ungroup(l), op, Ungroup(r))
    case Unary(op, r) => Unary(op, Ungroup(r))
    case Literal(_) => e
  }

  /** Brackets never change a result: the tree without its groupings evaluates the same. */
  lemma {:induction false} UngroupSameValue(e: Expr)
    ensures Interpret(Ungroup(e)) == Interpret(e)
  {
    match e
    case Grouping(inner) =>
      UngroupSameValue(inner);
    case Binary(l, _, r) =>
      UngroupSameValue(l);
      UngroupSameValue(r);
    case Unary(_, r) =>
      UngroupSameValue(r);
    case Literal(_) =>
  }

  /* ---------------------------------------------------------------------- */
  /* Unary operators                                                        */
  /* ---------------------------------------------------------------------- */

  /**
   * `-` succeeds exactly on a number, and negates it, so negating twice gives
   * the number back (as flipping the sign bit twice does on `f64`, NaN
   * included); on any other value it is a type error.
   */
  lemma Negate(r: Expr)
    ensures Interpret(Unary(Minus, r)).Ok? <==> Interpret(r).Ok? && Interpret(r).value.Number?
    ensures Interpret(r).Ok? && Interpret(r).value.Number? ==>
              Interpret(Unary(Minus, r)) == Ok(Value.Number(Neg(Interpret(r).value.n)))
              && Interpret(Unary(Minus, Unary(Minus, r))) == Interpret(r)
    ensures Interpret(r).Ok? && !Interpret(r).value.Number? ==> Interpret(Unary(Minus, r)) == Err(Type)
    ensures Interpret(r).Err? ==> Interpret(Unary(Minus, r)) == Interpret(r)
  {
    if Interpret(r).Ok? && Interpret(r).value.Number? {
      var x := Interpret(r).value.n;
      assert Neg(Neg(x)) == x by {
        match x
        case Finite(_) =>
        case Infinity(_) =>
        case NaN =>
      }
    }
  }

  /** `!` never fails on a value: it gives the negated truthiness. */
  lemma Not(r: Expr)
    ensures Interpret(Unary(Bang, r)).Ok? <==> Interpret(r).Ok?
    ensures Interpret(r).Ok? ==> Interpret(Unary(Bang, r)) == Ok(Bool(!Truthy(Interpret(r).value).b))
    ensures Interpret(r).Err? ==> Interpret(Unary(Bang, r)) == Interpret(r)
  {
  }

  /** `!!` turns a value into its truthiness. */
  lemma NotTwice(r: Expr)
    requires Interpret(r).Ok?
    ensures Interpret(Unary(Bang, Unary(Bang, r))) == Ok(Truthy(Interpret(r).value))
  {
    Not(r);
    Not(Unary(Bang, r));
  }

  /* ---------------------------------------------------------------------- */
  /* Binary operators                                                       */
  /* ---------------------------------------------------------------------- */

  /** `-`, `/`, `*` and the comparisons succeed exactly on two numbers, and give a number or a `Bool`. */
  lemma NumericOperands(op: TokenType, left: Value, right: Value)
    requires NumericOperator(op)
    ensures Operate(op, left, right).Ok? <==> left.Number? && right.Number?
    ensures Operate(op, left, right).Err? ==> Operate(op, left, right).error == Type
    ensures Operate(op, left, right).Ok? ==>
              (Operate(op, left, right).value.Number? <==> op in {Minus, Slash, Star})
    ensures Operate(op, left, right).Ok? ==>
              (Operate(op, left, right).value.Bool? <==> op !in {Minus, Slash, Star})
  {
  }

  /** The comparisons agree with each other: `a > b` is `b < a`, and `>=`/`<=` add equality. */
  lemma ComparisonsAgree(x: Float, y: Float)
    ensures Operate(GreaterThan, Value.Number(x), Value.Number(y)) == Operate(LessThan, Value.Number(y), Value.Number(x))
    ensures Operate(GreaterThanOrEqual, Value.Number(x), Value.Number(y)) == Operate(LessThanOrEqual, Value.Number(y), Value.Number(x))
    ensures Operate(LessThanOrEqual, Value.Number(x), Value.Number(y)).value.b <==>
              Operate(LessThan, Value.Number(x), Value.Number(y)).value.b || Operate(Equal, Value.Number(x), Value.Number(y)).value.b
  {
  }

  /**
   * `+` adds two numbers or concatenates two strings, the left text first;
   * on any other pair it is a type error.
   */
  lemma PlusOperands(left: Value, right: Value)
    ensures Operate(Plus, left, right).Ok? <==>
              (left.Number? && right.Number?) || (left.String? && right.String?)
    ensures Operate(Plus, left, right).Err? ==> Operate(Plus, left, right).error == Type
    ensures left.String? && right.String? ==>
              var t := Operate(Plus, left, right).value;
              t.String? && |t.text| == |left.text| + |right.text|
              && t.text[..|left.text|] == left.text && t.text[|left.text|..] == right.text
  {
  }

  /** `==` and `!=` accept any two values, and `!=` is the negation of `==`. */
  lemma EqualityOperands(left: Value, right: Value)
    ensures Operate(Equal, left, right).Ok? && Operate(Equal, left, right).value.Bool?
    ensures Operate(NotEqual, left, right).Ok? && Operate(NotEqual, left, right).value.Bool?
    ensures Operate(NotEqual, left, right).value.b <==> !Operate(Equal, left, right).value.b
    ensures !SameKind(left, right) ==> Operate(Equal, left, right) == Ok(Bool(false))
  {
  }

  /** Equality is symmetric and, away from numbers, reflexive. */
  lemma EqualsSymmetric(a: Value, b: Value)
    ensures Equals(a, b) == Equals(b, a)
    ensures !a.Number? ==> Equals(a, a) == Bool(true)
  {
  }

  /**
   * The left operand is evaluated first: its error is the result whatever
   * the right operand does; the right operand's error comes next; only then
   * does the operator run.
   */
  lemma LeftFirst(l: Expr, op: TokenType, r: Expr)
    ensures Interpret(l).Err? ==> Interpret(Binary(l, op, r)) == Interpret(l)
    ensures Interpret(l).Ok? && Interpret(r).Err? ==> Interpret(Binary(l, op, r)) == Interpret(r)
    ensures Interpret(l).Ok? && Interpret(r).Ok? ==>
              Interpret(Binary(l, op, r)) == Operate(op, Interpret(l).value, Interpret(r).value)
  {
  }

  /* ---------------------------------------------------------------------- */
  /* Static typing                                                          */
  /* ---------------------------------------------------------------------- */

  datatype Kind = NilKind | BoolKind | NumberKind | StringKind

  function KindOf(v: Value): Kind {
    match v
    case Nil => NilKind
    case Bool(_) => BoolKind
    case Number(_) => NumberKind
    case String(_) => StringKind
  }

  /** The kind an operator gives for operands of kinds `l` and `r`; `None` where it fails. */
  function OperatorType(op: TokenType, l: Kind, r: Kind): Option<Kind> {
    if op in {Equal, NotEqual} then Some(BoolKind)
    else if op == Plus && l == r && (l == NumberKind || l == StringKind) then Some(l)
    else if NumericOperator(op) && l == NumberKind && r == NumberKind then
      Some(if op in {Minus, Slash, Star} then NumberKind else BoolKind)
    else None
  }

  /** The kind of value an expression has, read off the tree alone; `None` for one that fails. */
  function TypeOf(e: Expr): Option<Kind> {
    match e
    case Literal(k) =>
      if k.Number? then Some(NumberKind)
      else if k.String? then Some(StringKind)
      else if k == True || k == False then Some(BoolKind)
      else if k == TokenType.Nil then Some(NilKind)
      else None
    case Grouping(inner) => TypeOf(inner)
    case Unary(op, r) =>
      if TypeOf(r).None? then None
      else if op == Minus then (if TypeOf(r) == Some(NumberKind) then TypeOf(r) else None)
      else if op == Bang then Some(BoolKind)
      else None
    case Binary(l, op, r) =>
      if TypeOf(l).None? || TypeOf(r).None? then None
      else OperatorType(op, TypeOf(l).value, TypeOf(r).value)
  }

  /** `Operate` fails exactly where `OperatorType` says, and otherwise gives a value of that kind. */
  lemma OperateTyped(op: TokenType, left: Value, right: Value)
    ensures Operate(op, left, right).Ok? <==> OperatorType(op, KindOf(left), KindOf(right)).Some?
    ensures Operate(op, left, right).Ok? ==>
              KindOf(Operate(op, left, right).value) == OperatorType(op, KindOf(left), KindOf(right)).value
  {
  }

  /**
   * Evaluation is type dispatch: an expression succeeds exactly when its
   * static type exists, and then its value is of that type.
   */
  lemma {:induction false} TypeSound(e: Expr)
    ensures Interpret(e).Ok? <==> TypeOf(e).Some?
    ensures Interpret(e).Ok? ==> KindOf(Interpret(e).value) == TypeOf(e).value
  {
    match e
    case Literal(_) =>
    case Grouping(inner) =>
      TypeSound(inner);
    case Unary(_, r) =>
      TypeSound(r);
    case Binary(l, op, r) =>
      TypeSound(l);
      TypeSound(r);
      if Interpret(l).Ok? && Interpret(r).Ok? {
        OperateTyped(op, Interpret(l).value, Interpret(r).value);
      }
  }

  /* ---------------------------------------------------------------------- */
  /* Strings                                                                */
  /* ---------------------------------------------------------------------- */

  /** Every string literal in the tree holds well-formed UTF-8, as the scanner's `String`s do. */
  predicate LiteralsUtf8(e: Expr) {
    match e
    case Literal(k) => k.String? ==> ValidUtf8(k.text)
    case Grouping(inner) => LiteralsUtf8(inner)
    case Unary(_, r) => LiteralsUtf8(r)
    case Binary(l, _, r) => LiteralsUtf8(l) && LiteralsUtf8(r)
  }

  /** Concatenation keeps text well-formed, so a string result is a valid Rust `String`. */
  lemma {:induction false} StringsStayUtf8(e: Expr)
    requires LiteralsUtf8(e)
    ensures Interpret(e).Ok? && Interpret(e).value.String? ==> ValidUtf8(Interpret(e).value.text)
  {
    match e
    case Literal(_) =>
    case Grouping(inner) =>
      StringsStayUtf8(inner);
    case Unary(_, r) =>
    case Binary(l, op, r) =>
      StringsStayUtf8(l);
      StringsStayUtf8(r);
      if Interpret(l).Ok? && Interpret(r).Ok? {
        var a, b := Interpret(l).value, Interpret(r).value;
        if op == Plus && a.String? && b.String? {
          Utf8Concat(a.text, b.text);
        }
      }
  }

  /* ---------------------------------------------------------------------- */
  /* Parser output                                                          */
  /* ---------------------------------------------------------------------- */

  /** No unary node anywhere in the tree. */
  predicate NoUnary(e: Expr) {
    match e
    case Literal(_) => true
    case Grouping(inner) => NoUnary(inner)
    case Unary(_, _) => false
    case Binary(l, _, r) => NoUnary(l) && NoUnary(r)
  }

  /**
   * A tree the parser builds without unary nodes never reaches an
   * `unreachable!`: its literals and operators are all ones the evaluator
   * handles.
   */
  lemma {:induction false} ParsedHandled(e: Expr)
    requires WellFormed(e) && NoUnary(e)
    ensures Interpret(e) != Err(Unreachable)
  {
    match e
    case Literal(_) =>
    case Grouping(inner) =>
      ParsedHandled(inner);
    case Unary(_, _) =>
    case Binary(l, op, r) =>
      ParsedHandled(l);
      ParsedHandled(r);
      assert BinaryOperator(op);
  }

  /**
   * The parser's unary nodes carry `!=` or `==`, which the evaluator's unary
   * case does not handle: once the operand evaluates, the result is the
   * `unreachable!` outcome.
   */
  lemma ParsedUnaryUnreachable(op: TokenType, r: Expr)
    requires WellFormed(Unary(op, r)) && Interpret(r).Ok?
    ensures Interpret(Unary(op, r)) == Err(Unreachable)
  {
  }
}
