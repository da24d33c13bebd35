/**
 * Properties of the trees the expression parser builds: which token
 * sequences they can come from, and how an operator chain associates.
 */
module ParserProperties {
  import opened Wrappers
  import opened Floats
  import opened Tokens
  import opened Parser

  /** No tree holds the `EndOfFile` token: the parser never consumes it. */
  lemma {:induction false} NoEndOfFile(e: Expr)
    requires WellFormed(e)
    ensures EndOfFile !in Flatten(e)
  {
    match e
    case Literal(_) =>
    case Grouping(inner) =>
      NoEndOfFile(inner);
    case Unary(_, r) =>
      NoEndOfFile(r);
    case Binary(l, _, r) =>
      NoEndOfFile(l);
      NoEndOfFile(r);
  }

  /** A tree read back as a single token is that token's literal. */
  lemma {:induction false} SingleToken(e: Expr, k: TokenType)
    requires WellFormed(e) && Flatten(e) == [k]
    ensures e == Literal(k)
  {
    match e
    case Literal(_) =>
    case Grouping(inner) =>
      FirstToken(inner);
    case Unary(_, r) =>
      FirstToken(r);
    case Binary(l, _, r) =>
      FirstToken(l);
      FirstToken(r);
  }

  /** Tokens free of brackets and of `!=`/`==`: no grouping and no unary node can come from them. */
  predicate Bare(ks: seq<TokenType>) {
    forall k :: k in ks ==> k != LeftBracket && k !in EqualityOps
  }

  /** With no `(`, `!=` or `==` token, no operator inside a tree belongs to a level above the tree's own. */
  lemma {:induction false} OperatorsBelowRank(e: Expr)
    requires WellFormed(e) && Bare(Flatten(e))
    ensures forall k :: k in Flatten(e) ==> BinaryLevel(k) <= Rank(e)
  {
    assert Flatten(e)[0] in Flatten(e);
    match e
    case Literal(_) =>
    case Grouping(_) =>
    case Unary(_, _) =>
    case Binary(l, op, r) =>
      assert Bare(Flatten(l)) && Bare(Flatten(r)) by {
        forall k | k in Flatten(l) || k in Flatten(r)
          ensures k in Flatten(e)
        {
          assert Flatten(e) == Flatten(l) + [op] + Flatten(r);
        }
      }
      OperatorsBelowRank(l);
      OperatorsBelowRank(r);
  }

  /** A binary node's tokens split at its operator. */
  lemma Split(l: Expr, op: TokenType, r: Expr, s: seq<TokenType>)
    requires Flatten(Binary(l, op, r)) == s
    ensures |Flatten(l)| < |s| && s[|Flatten(l)|] == op
    ensures Flatten(l) == s[..|Flatten(l)|] && Flatten(r) == s[|Flatten(l)| + 1..]
  {
  }

  /** The only tree read back as `a op b` is the binary node of the two literals. */
  lemma {:induction false} SingleOperator(e: Expr, a: TokenType, op: TokenType, b: TokenType)
    requires IsLiteralKind(a)
    requires WellFormed(e) && Flatten(e) == [a, op, b]
    ensures e == Binary(Literal(a), op, Literal(b))
  {
    FirstToken(e);
    match e
    case Literal(_) =>
    case Grouping(_) =>
    case Unary(_, _) =>
    case Binary(l, _, r) =>
      FirstToken(l);
      FirstToken(r);
      Split(l, op, r, Flatten(e));
      SingleToken(l, a);
      SingleToken(r, b);
  }

  /** Literal kinds belong to no operator level. */
  lemma LiteralLevel(k: TokenType)
    requires IsLiteralKind(k)
    ensures BinaryLevel(k) == PRIMARY
  {
  }

  /** An operator below equality between two literals reads back as a tree of at least its level. */
  lemma {:induction false} ChainRank(r: Expr, b: TokenType, op: TokenType, c: TokenType)
    requires IsLiteralKind(b) && IsLiteralKind(c) && FACTOR <= BinaryLevel(op) < EQUALITY
    requires WellFormed(r) && Flatten(r) == [b, op, c]
    ensures BinaryLevel(op) <= Rank(r)
  {
    assert Bare(Flatten(r)) by {
      forall k | k in Flatten(r)
        ensures k != LeftBracket && k !in EqualityOps
      {
        assert k == b || k == op || k == c;
      }
    }
    OperatorsBelowRank(r);
    assert Flatten(r)[1] in Flatten(r);
  }

  /**
   * A chain of two operators of one level folds to the left: the only tree
   * read back as `a op1 b op2 c` is `(a op1 b) op2 c`, whatever level the
   * tree was parsed at.
   */
  lemma {:induction false} LeftFold(e: Expr, a: TokenType, op1: TokenType, b: TokenType, op2: TokenType, c: TokenType)
    requires IsLiteralKind(a) && IsLiteralKind(b) && IsLiteralKind(c)
    requires FACTOR <= BinaryLevel(op1) == BinaryLevel(op2) <= EQUALITY
    requires WellFormed(e) && Flatten(e) == [a, op1, b, op2, c]
    ensures e == Binary(Binary(Literal(a), op1, Literal(b)), op2, Literal(c))
  {
    FirstToken(e);
    match e
    case Literal(_) =>
    case Grouping(_) =>
    case Unary(_, _) =>
    case Binary(l, op, r) =>
      FirstToken(l);
      FirstToken(r);
      Split(l, op, r, Flatten(e));
      LiteralLevel(b);
      if |Flatten(l)| == 1 {
        if BinaryLevel(op2) < EQUALITY {
          ChainRank(r, b, op2, c);
        } else {
          SingleOperator(r, b, op2, c);
        }
      } else {
        SingleOperator(l, a, op1, b);
        SingleToken(r, c);
      }
  }

  /** `!=` or `==` in front of a literal reads back only as the unary node. */
  lemma {:induction false} SinglePrefix(e: Expr, u: TokenType, a: TokenType)
    requires u in EqualityOps && IsLiteralKind(a)
    requires WellFormed(e) && Flatten(e) == [u, a]
    ensures e == Unary(u, Literal(a))
  {
    FirstToken(e);
    match e
    case Literal(_) =>
    case Grouping(_) =>
    case Unary(_, r) =>
      assert Flatten(r) == Flatten(e)[1..];
      SingleToken(r, a);
    case Binary(l, _, r) =>
      FirstToken(l);
      FirstToken(r);
  }

  /** Prefix operators nest to the right: `== != a` reads back only as `==(!=(a))`. */
  lemma {:induction false} RightNested(e: Expr, u1: TokenType, u2: TokenType, a: TokenType)
    requires u1 in EqualityOps && u2 in EqualityOps && IsLiteralKind(a)
    requires WellFormed(e) && Flatten(e) == [u1, u2, a]
    ensures e == Unary(u1, Unary(u2, Literal(a)))
  {
    FirstToken(e);
    match e
    case Literal(_) =>
    case Grouping(_) =>
    case Unary(_, r) =>
      assert Flatten(r) == Flatten(e)[1..];
      SinglePrefix(r, u2, a);
    case Binary(l, op, r) =>
      FirstToken(l);
      FirstToken(r);
      Split(l, op, r, Flatten(e));
      if |Flatten(l)| == 1 {
        SingleToken(l, u1);
      }
  }

  function One(): TokenType { Number(Finite(1.0)) }
  function Two(): TokenType { Number(Finite(2.0)) }
  function Three(): TokenType { Number(Finite(3.0)) }

  /** `1 - 2 - 3`, as the scanner hands it over, parses to `(1 - 2) - 3` and stops at `EndOfFile`. */
  method ParseChain() returns (r: Result<Expr, Failure>, stop: nat)
    ensures r == Ok(Binary(Binary(Literal(One()), Minus, Literal(Two())), Minus, Literal(Three())))
    ensures stop == 5
  {
    var ts := [Token(One(), 1), Token(Minus, 1), Token(Two(), 1), Token(Minus, 1), Token(Three(), 1), Token(EndOfFile, 1)];
    var parser := new Parser(ts);
    ghost var tree := Binary(Binary(Literal(One()), Minus, Literal(Two())), Minus, Literal(Three()));
    assert Kinds(ts)[0..5] == [One(), Minus, Two(), Minus, Three()] == Flatten(tree);
    assert Complete(ts, tree, EQUALITY, 0, 5);
    r := parser.Expression();
    stop := parser.current;
  }

  /** `(1)` parses to the grouping of the literal and stops at `EndOfFile`. */
  method ParseGroup() returns (r: Result<Expr, Failure>, stop: nat)
    ensures r == Ok(Grouping(Literal(One())))
    ensures stop == 3
  {
    var ts := [Token(LeftBracket, 1), Token(One(), 1), Token(RightBracket, 1), Token(EndOfFile, 1)];
    var parser := new Parser(ts);
    ghost var tree := Grouping(Literal(One()));
    assert Kinds(ts)[0..3] == [LeftBracket, One(), RightBracket] == Flatten(tree);
    assert Complete(ts, tree, EQUALITY, 0, 3);
    r := parser.Expression();
    stop := parser.current;
  }

  /** A tree reads back as tokens that end with a literal or a `)`. */
  lemma {:induction false} LastToken(e: Expr)
    requires WellFormed(e)
    ensures var f := Flatten(e); |f| >= 1 && (IsLiteralKind(f[|f| - 1]) || f[|f| - 1] == RightBracket)
  {
    FirstToken(e);
    match e
    case Literal(_) =>
    case Grouping(inner) =>
      assert Flatten(e) == ([LeftBracket] + Flatten(inner)) + [RightBracket];
    case Unary(op, r) =>
      LastToken(r);
      EndsWith([op], Flatten(r));
    case Binary(l, op, r) =>
      LastToken(r);
      EndsWith(Flatten(l) + [op], Flatten(r));
  }

  /** A sequence ends as its non-empty tail does. */
  lemma EndsWith<T>(a: seq<T>, b: seq<T>)
    requires |b| >= 1
    ensures (a + b)[|a + b| - 1] == b[|b| - 1]
  {
  }

  /** `1 +` has no parse: no tree ends with `+`, and one that stops before it would be extended by it. */
  method ParseDangling() returns (r: Result<Expr, Failure>)
    ensures r.Err?
  {
    var ts := [Token(One(), 1), Token(Plus, 1), Token(EndOfFile, 1)];
    var parser := new Parser(ts);
    forall e | WellFormed(e)
      ensures Flatten(e) != [One(), Plus]
    {
      LastToken(e);
    }
    assert Kinds(ts)[0..2] == [One(), Plus];
    r := parser.Expression();
  }
}
