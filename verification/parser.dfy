/**
 * The expression parser of src/parser.rs: recursive descent over the token
 * vector with a shared cursor `current`.
 *
 * Each level method is specified by a grammar predicate on the tree it
 * returns (`Shaped` at the level of that method), by `Flatten`, which reads the
 * tree back as the token kinds it was built from, and by the condition that
 * made its loop stop. Together they say the tree is the left-folding parse
 * of exactly the tokens consumed.
 */
module Parser {
  import opened Wrappers
  import opened Tokens

  /** The variants of `Expr` the parser builds. */
  datatype Expr =
    | Binary(left: Expr, operator: TokenType, right: Expr)
    | Grouping(expression: Expr)
    | Literal(value: TokenType)
    | Unary(operator: TokenType, right: Expr)

  /**
   * `ParseError` is the source's error; `MissingRightBracket` stands for the
   * `assert_eq!` that panics when a group is not closed.
   */
  datatype Failure = ParseError | MissingRightBracket

  /** The operator lists handed to `r#match`, in the source's order. */
  const EqualityOps: seq<TokenType> := [NotEqual, Equal]
  const ComparisonOps: seq<TokenType> := [GreaterThan, GreaterThanOrEqual, LessThan, LessThanOrEqual]
  const TermOps: seq<TokenType> := [Minus, Plus]
  const FactorOps: seq<TokenType> := [Slash, Star]

  /** `std::mem::discriminant(a) == std::mem::discriminant(b)`: same variant, payload ignored. */
  predicate SameVariant(a: TokenType, b: TokenType) {
    a == b || (a.String? && b.String?) || (a.Number? && b.Number?) || (a.Identifier? && b.Identifier?)
  }

  /** A kind without payload: its variant is the kind itself. */
  predicate IsPlain(k: TokenType) {
    !k.String? && !k.Number? && !k.Identifier?
  }

  predicate AllPlain(kinds: seq<TokenType>) {
    forall k :: k in kinds ==> IsPlain(k)
  }

  /** The condition under which `r#match` consumes a token of kind `k`. */
  predicate MatchesAny(k: TokenType, kinds: seq<TokenType>)
    decreases |kinds|
  {
    kinds != [] && (SameVariant(k, kinds[0]) || MatchesAny(k, kinds[1..]))
  }

  /** For kinds without payload, matching a variant is plain membership. */
  lemma {:induction false} MatchesPlain(k: TokenType, kinds: seq<TokenType>)
    requires AllPlain(kinds)
    ensures MatchesAny(k, kinds) <==> k in kinds
    decreases |kinds|
  {
    if kinds != [] {
      assert AllPlain(kinds[1..]) by {
        forall j | j in kinds[1..] ensures IsPlain(j) {
          assert j in kinds;
        }
      }
      MatchesPlain(k, kinds[1..]);
      assert IsPlain(kinds[0]) by {
        assert kinds[0] in kinds;
      }
      assert k in kinds <==> k == kinds[0] || k in kinds[1..] by {
        assert kinds == [kinds[0]] + kinds[1..];
      }
    }
  }

  predicate IsLiteralKind(k: TokenType) {
    k.Number? || k.String? || k == True || k == False || k == Nil
  }

  predicate IsStatementKeyword(k: TokenType) {
    k in {Class, Fun, Var, For, If, While, Print, Return}
  }

  /** The kinds of a run of tokens. */
  function Kinds(ts: seq<Token>): (ks: seq<TokenType>)
    ensures |ks| == |ts|
  {
    seq(|ts|, i requires 0 <= i < |ts| => ts[i].kind)
  }

  /** The tree read back as the tokens it was parsed from. */
  function Flatten(e: Expr): seq<TokenType> {
    match e
    case Binary(l, op, r) => Flatten(l) + [op] + Flatten(r)
    case Grouping(inner) => [LeftBracket] + Flatten(inner) + [RightBracket]
    case Literal(v) => [v]
    case Unary(op, r) => [op] + Flatten(r)
  }

  /* ---------------------------------------------------------------------- */
  /* The grammar, one level per parsing method                              */
  /* ---------------------------------------------------------------------- */

  const PRIMARY: nat := 0
  const UNARY: nat := 1
  const FACTOR: nat := 2
  const TERM: nat := 3
  const COMPARISON: nat := 4
  const EQUALITY: nat := 5

  /** The operators the loop of a binary level matches. */
  function Ops(level: nat): seq<TokenType>
    requires FACTOR <= level <= EQUALITY
  {
    if level == FACTOR then FactorOps
    else if level == TERM then TermOps
    else if level == COMPARISON then ComparisonOps
    else EqualityOps
  }

  /** The level whose loop folds binary operator `op` into the tree; `PRIMARY` for any other kind. */
  function BinaryLevel(op: TokenType): (level: nat)
    ensures level <= EQUALITY
    ensures level != UNARY
  {
    match op
    case Slash | Star => FACTOR
    case Minus | Plus => TERM
    case GreaterThan | GreaterThanOrEqual | LessThan | LessThanOrEqual => COMPARISON
    case NotEqual | Equal => EQUALITY
    case _ => PRIMARY
  }

  /** Whether a token of kind `k` would extend a parse at `level`: an operator of that level or below. */
  predicate Continues(k: TokenType, level: nat) {
    FACTOR <= BinaryLevel(k) <= level
  }

  /** The operators of a level are exactly the kinds its list names. */
  lemma OperatorLevel(k: TokenType, level: nat)
    requires FACTOR <= level <= EQUALITY
    ensures BinaryLevel(k) == level <==> k in Ops(level)
  {
  }

  lemma PlainOps(level: nat)
    requires FACTOR <= level <= EQUALITY
    ensures AllPlain(Ops(level))
  {
  }

  /** `r#match` on a level's operator list consumes exactly the operators of that level. */
  lemma OpsLevel(k: TokenType, level: nat)
    requires FACTOR <= level <= EQUALITY
    ensures MatchesAny(k, Ops(level)) <==> BinaryLevel(k) == level
  {
    OperatorLevel(k, level);
    PlainOps(level);
    MatchesPlain(k, Ops(level));
  }

  /** The lowest level that can return `e`. */
  function Rank(e: Expr): nat {
    match e
    case Binary(_, op, _) => BinaryLevel(op)
    case Unary(_, _) => UNARY
    case _ => PRIMARY
  }

  /**
   * The trees the parser builds: literal tokens; bracketed expressions of
   * any level; `!=` or `==` (as the source has it) in front of a unary
   * expression; and binary nodes whose operator belongs to a level, with a
   * left operand of at most that level and a right operand of a lower one,
   * so that each level folds to the left.
   */
  predicate WellFormed(e: Expr) {
    match e
    case Literal(v) => IsLiteralKind(v)
    case Grouping(inner) => WellFormed(inner)
    case Unary(op, r) => op in EqualityOps && WellFormed(r) && Rank(r) <= UNARY
    case Binary(l, op, r) =>
      PRIMARY < BinaryLevel(op) && WellFormed(l) && WellFormed(r)
      && Rank(l) <= BinaryLevel(op) && Rank(r) < BinaryLevel(op)
  }

  /** What the method of `level` may return: a tree of that level or a lower one. */
  predicate Shaped(e: Expr, level: nat) {
    WellFormed(e) && Rank(e) <= level
  }

  /* ---------------------------------------------------------------------- */
  /* Helpers for the cursor bookkeeping                                     */
  /* ---------------------------------------------------------------------- */

  /** `e`, a tree of `level` or lower, was parsed from the tokens between `from` and `to`, at least one of them. */
  ghost predicate Parsed(ts: seq<Token>, e: Expr, level: nat, from: nat, to: nat) {
    from < to <= |ts| && Shaped(e, level) && Flatten(e) == Kinds(ts)[from..to]
  }

  /** One more round of a binary level's loop: the operator at `end` and the operand after it join the tree. */
  lemma Fold(ts: seq<Token>, level: nat, from: nat, end: nat, cur: nat, left: Expr, right: Expr)
    requires FACTOR <= level <= EQUALITY && end < |ts| && BinaryLevel(ts[end].kind) == level
    requires Parsed(ts, left, level, from, end)
    requires Parsed(ts, right, level - 1, end + 1, cur)
    ensures Parsed(ts, Binary(left, ts[end].kind, right), level, from, cur)
  {
    SliceAround(Kinds(ts), from, end, cur);
  }

  /** A `!=` or `==` token and the unary expression after it form a unary node. */
  lemma Prefix(ts: seq<Token>, from: nat, cur: nat, right: Expr)
    requires from < |ts| && ts[from].kind in EqualityOps
    requires Parsed(ts, right, UNARY, from + 1, cur)
    ensures Parsed(ts, Unary(ts[from].kind, right), UNARY, from, cur)
  {
    SliceAround(Kinds(ts), from, from, cur);
  }

  /** A bracketed expression of any level is a primary one. */
  lemma Enclose(ts: seq<Token>, from: nat, cur: nat, inner: Expr)
    requires from + 1 < cur <= |ts| && ts[from].kind == LeftBracket && ts[cur - 1].kind == RightBracket
    requires Parsed(ts, inner, EQUALITY, from + 1, cur - 1)
    ensures Parsed(ts, Grouping(inner), PRIMARY, from, cur)
  {
    SliceInside(Kinds(ts), from, cur);
  }

  /** A slice cut around one of its elements. */
  lemma SliceAround<T>(s: seq<T>, i: nat, j: nat, k: nat)
    requires i <= j < k <= |s|
    ensures s[i..k] == s[i..j] + [s[j]] + s[j + 1..k]
  {
  }

  /** A slice with its first and last elements taken off. */
  lemma SliceInside<T>(s: seq<T>, i: nat, k: nat)
    requires i + 1 < k <= |s|
    ensures s[i..k] == [s[i]] + s[i + 1..k - 1] + [s[k - 1]]
  {
    SliceAround(s, i + 1, k - 1, k);
  }

  /** The token a tree starts with. */
  function First(e: Expr): TokenType {
    match e
    case Binary(l, _, _) => First(l)
    case Grouping(_) => LeftBracket
    case Literal(v) => v
    case Unary(op, _) => op
  }

  lemma {:induction false} FirstToken(e: Expr)
    ensures |Flatten(e)| >= 1 && Flatten(e)[0] == First(e)
  {
    match e
    case Binary(l, _, _) =>
      FirstToken(l);
    case _ =>
  }

  /* ---------------------------------------------------------------------- */
  /* Which parse a method must find                                         */
  /* ---------------------------------------------------------------------- */

  /**
   * `e` is the parse the method of `level` owes when started at `from`: a
   * tree of that level over the tokens from `from` to `to`, followed by a
   * token that would extend no level up to `level`.
   */
  ghost predicate Complete(ts: seq<Token>, e: Expr, level: nat, from: nat, to: nat) {
    Parsed(ts, e, level, from, to) && to < |ts| && !Continues(ts[to].kind, level)
  }

  /** How a unary-level tree starts, and what that first token makes of it. */
  lemma ParsedStart(ts: seq<Token>, e: Expr, level: nat, from: nat, to: nat)
    requires level <= UNARY && Parsed(ts, e, level, from, to)
    ensures ts[from].kind == First(e)
    ensures IsLiteralKind(First(e)) || First(e) == LeftBracket || First(e) in EqualityOps
    ensures IsLiteralKind(First(e)) ==> e == Literal(First(e)) && to == from + 1
    ensures First(e) == LeftBracket ==> e.Grouping?
    ensures First(e) in EqualityOps ==> level == UNARY && e.Unary? && e.operator == First(e)
    ensures !e.Unary? ==> Parsed(ts, e, PRIMARY, from, to)
  {
    FirstToken(e);
    assert Kinds(ts)[from..to][0] == ts[from].kind;
  }

  /**
   * A literal token is a primary tree by itself, and it is the only primary
   * tree that starts there; any other primary tree starts with `(`.
   */
  lemma PrimaryOwed(ts: seq<Token>, from: nat)
    requires from < |ts|
    ensures IsLiteralKind(ts[from].kind) ==> Parsed(ts, Literal(ts[from].kind), PRIMARY, from, from + 1)
    ensures forall e, to :: Parsed(ts, e, PRIMARY, from, to) ==>
              (IsLiteralKind(ts[from].kind) ==> e == Literal(ts[from].kind) && to == from + 1)
              && (IsLiteralKind(ts[from].kind) || ts[from].kind == LeftBracket)
  {
    assert Kinds(ts)[from..from + 1] == [ts[from].kind];
    forall e, to | Parsed(ts, e, PRIMARY, from, to)
      ensures IsLiteralKind(ts[from].kind) ==> e == Literal(ts[from].kind) && to == from + 1
      ensures IsLiteralKind(ts[from].kind) || ts[from].kind == LeftBracket
    {
      ParsedStart(ts, e, PRIMARY, from, to);
    }
  }

  /** A bracketed tree holds an expression owed by `expression` between its brackets. */
  lemma ParsedGroup(ts: seq<Token>, e: Expr, from: nat, to: nat)
    requires Parsed(ts, e, UNARY, from, to) && e.Grouping?
    ensures from + 1 < to && ts[to - 1].kind == RightBracket
    ensures Complete(ts, e.expression, EQUALITY, from + 1, to - 1)
  {
    var inner := Flatten(e.expression);
    FirstToken(e.expression);
    assert Flatten(e) == [] + [LeftBracket] + (inner + [RightBracket]);
    SliceSplit(Kinds(ts), from, to, [], LeftBracket, inner + [RightBracket]);
    SliceSplit(Kinds(ts), from + 1, to, inner, RightBracket, []);
    assert ts[to - 1].kind == Kinds(ts)[to - 1];
  }

  /** A unary node holds a unary-level tree after its operator. */
  lemma ParsedPrefix(ts: seq<Token>, e: Expr, from: nat, to: nat)
    requires Parsed(ts, e, UNARY, from, to) && e.Unary?
    ensures Parsed(ts, e.right, UNARY, from + 1, to)
  {
    FirstToken(e.right);
    SliceAround(Kinds(ts), from, from, to);
  }

  /** `x` lies on the left spine of `e`, below nodes whose operator belongs to `level`. */
  predicate OnSpine(e: Expr, x: Expr, level: nat) {
    x == e || (e.Binary? && BinaryLevel(e.operator) == level && OnSpine(e.left, x, level))
  }

  /** The first operand a level's loop reads: the foot of the level's left spine. */
  function Base(e: Expr, level: nat): (b: Expr)
    ensures OnSpine(e, b, level)
    ensures !(b.Binary? && BinaryLevel(b.operator) == level)
  {
    if e.Binary? && BinaryLevel(e.operator) == level then Base(e.left, level) else e
  }

  /** The spine node just above `x`: what the loop builds in the round after `x`. */
  function Parent(e: Expr, x: Expr, level: nat): (p: Expr)
    requires OnSpine(e, x, level) && x != e
    ensures OnSpine(e, p, level) && p.Binary? && p.left == x && BinaryLevel(p.operator) == level
  {
    if e.left == x then e else Parent(e.left, x, level)
  }

  /**
   * A spine node reads back as a prefix of the tree; unless it is the whole
   * tree, an operator of `level` comes right after it.
   */
  lemma {:induction false} SpinePrefix(e: Expr, x: Expr, level: nat)
    requires OnSpine(e, x, level)
    ensures |Flatten(x)| <= |Flatten(e)| && Flatten(x) == Flatten(e)[..|Flatten(x)|]
    ensures x != e ==> |Flatten(x)| < |Flatten(e)| && BinaryLevel(Flatten(e)[|Flatten(x)|]) == level
    ensures Shaped(e, level) ==> Shaped(x, level)
  {
    if x != e {
      SpinePrefix(e.left, x, level);
      assert Flatten(e) == Flatten(e.left) + [e.operator] + Flatten(e.right);
    }
  }

  /** The spine node `x` of a parse from `from` is itself a parse from `from`, ended by an operator of `level` or by the end of the parse. */
  lemma SpineAt(ts: seq<Token>, e: Expr, x: Expr, level: nat, from: nat, to: nat)
    requires Parsed(ts, e, level, from, to) && OnSpine(e, x, level)
    ensures Parsed(ts, x, level, from, from + |Flatten(x)|)
    ensures x == e ==> from + |Flatten(x)| == to
    ensures x != e ==> from + |Flatten(x)| < to && BinaryLevel(ts[from + |Flatten(x)|].kind) == level
  {
    SpinePrefix(e, x, level);
    FirstToken(x);
    var n := |Flatten(x)|;
    assert Kinds(ts)[from..to][..n] == Kinds(ts)[from..from + n];
    if x != e {
      assert Kinds(ts)[from..to][n] == ts[from + n].kind;
    }
  }

  /** The first operand of a level's loop is owed a parse of the level below. */
  lemma BaseOperand(ts: seq<Token>, e: Expr, level: nat, from: nat, to: nat)
    requires FACTOR <= level <= EQUALITY && Complete(ts, e, level, from, to)
    ensures Complete(ts, Base(e, level), level - 1, from, from + |Flatten(Base(e, level))|)
  {
    SpineAt(ts, e, Base(e, level), level, from, to);
  }

  /**
   * With the spine node `x` built and an operator after it, the next operand
   * is owed the right side of the node above `x`.
   */
  lemma RightOperand(ts: seq<Token>, e: Expr, x: Expr, level: nat, from: nat, to: nat)
    requires FACTOR <= level <= EQUALITY && Complete(ts, e, level, from, to)
    requires OnSpine(e, x, level) && x != e
    ensures var p := Parent(e, x, level);
      from + |Flatten(x)| < |ts| && ts[from + |Flatten(x)|].kind == p.operator
      && Complete(ts, p.right, level - 1, from + |Flatten(x)| + 1, from + |Flatten(p)|)
  {
    var p := Parent(e, x, level);
    var m := from + |Flatten(p)|;
    SpineAt(ts, e, p, level, from, to);
    RightSide(ts, p, level, from, m);
    assert Parsed(ts, p.right, level - 1, from + |Flatten(x)| + 1, m);
    assert m < |ts| && !Continues(ts[m].kind, level - 1) by {
      if p == e {
        assert m == to;
      } else {
        assert BinaryLevel(ts[m].kind) == level;
      }
    }
  }

  /** A binary node of `level` holds a tree of the level below after its operator. */
  lemma RightSide(ts: seq<Token>, p: Expr, level: nat, from: nat, to: nat)
    requires Parsed(ts, p, level, from, to) && p.Binary? && BinaryLevel(p.operator) == level
    ensures var n := |Flatten(p.left)|;
      from + n < to && ts[from + n].kind == p.operator && Parsed(ts, p.right, level - 1, from + n + 1, to)
  {
    var n := |Flatten(p.left)|;
    assert Flatten(p) == Flatten(p.left) + [p.operator] + Flatten(p.right);
    FirstToken(p.right);
    SliceSplit(Kinds(ts), from, to, Flatten(p.left), p.operator, Flatten(p.right));
    assert ts[from + n].kind == Kinds(ts)[from + n];
  }

  /** A slice that reads `a`, then `b`, then `c` has `b` right after `a` and `c` after that. */
  lemma SliceSplit<T>(s: seq<T>, i: nat, j: nat, a: seq<T>, b: T, c: seq<T>)
    requires i <= j <= |s| && s[i..j] == a + [b] + c
    ensures i + |a| < j && s[i..i + |a|] == a && s[i + |a|] == b && s[i + |a| + 1..j] == c
  {
    assert s[i..i + |a|] == s[i..j][..|a|];
    assert s[i..j][|a|] == b;
    assert s[i + |a| + 1..j] == s[i..j][|a| + 1..];
  }

  /** The first operand, if it is the parse owed to the level below, is the foot of every complete parse of the level. */
  lemma FirstOperand(ts: seq<Token>, level: nat, from: nat, first: Result<Expr, Failure>, cur: nat)
    requires FACTOR <= level <= EQUALITY
    requires forall e, to, below: nat :: below + 1 == level && Complete(ts, e, below, from, to) ==> first == Ok(e) && cur == to
    ensures forall e, to :: Complete(ts, e, level, from, to) ==> first.Ok? && OnSpine(e, first.value, level)
  {
    forall e, to | Complete(ts, e, level, from, to)
      ensures first == Ok(Base(e, level))
    {
      BaseOperand(ts, e, level, from, to);
    }
  }

  /**
   * A round that reads the operand owed after the spine node `left` and its
   * operator builds the spine node above `left`.
   */
  lemma NextOperand(ts: seq<Token>, level: nat, from: nat, end: nat, left: Expr, second: Result<Expr, Failure>, cur: nat, start: nat)
    requires FACTOR <= level <= EQUALITY && Parsed(ts, left, level, from, end)
    requires end < |ts| && BinaryLevel(ts[end].kind) == level && start == end + 1
    requires forall e, to, below: nat :: below + 1 == level && Complete(ts, e, below, start, to) ==> second == Ok(e) && cur == to
    ensures forall e, to :: Complete(ts, e, level, from, to) && OnSpine(e, left, level) ==>
              second.Ok? && OnSpine(e, Binary(left, ts[end].kind, second.value), level)
  {
    forall e, to | Complete(ts, e, level, from, to) && OnSpine(e, left, level)
      ensures second.Ok? && Parent(e, left, level) == Binary(left, ts[end].kind, second.value)
    {
      SpineAt(ts, e, left, level, from, to);
      RightOperand(ts, e, left, level, from, to);
      var p := Parent(e, left, level);
      assert Complete(ts, p.right, level - 1, start, from + |Flatten(p)|);
      assert second == Ok(p.right);
    }
  }

  /** The expression after `(` is owed what a bracketed tree holds, and the `)` after it is the tree's last token. */
  lemma GroupOwed(ts: seq<Token>, from: nat, sub: Result<Expr, Failure>, cur: nat, start: nat)
    requires from < |ts| && ts[from].kind == LeftBracket && start == from + 1
    requires forall e, to :: Complete(ts, e, EQUALITY, start, to) ==> sub == Ok(e) && cur == to
    ensures forall e, to: nat :: Parsed(ts, e, PRIMARY, from, to) ==>
              e.Grouping? && sub == Ok(e.expression) && cur == to - 1 && ts[to - 1].kind == RightBracket
  {
    forall e, to: nat | Parsed(ts, e, PRIMARY, from, to)
      ensures e.Grouping? && sub == Ok(e.expression) && cur == to - 1 && ts[to - 1].kind == RightBracket
    {
      ParsedStart(ts, e, PRIMARY, from, to);
      ParsedGroup(ts, e, from, to);
    }
  }

  /** Where a level's loop stops, the spine node it holds is every complete parse the level owed. */
  lemma SpineEnd(ts: seq<Token>, level: nat, from: nat, end: nat, x: Expr)
    requires Parsed(ts, x, level, from, end) && end < |ts| && BinaryLevel(ts[end].kind) != level
    requires forall e, to :: Complete(ts, e, level, from, to) ==> OnSpine(e, x, level)
    ensures forall e, to :: Complete(ts, e, level, from, to) ==> e == x && to == end
  {
    forall e, to | Complete(ts, e, level, from, to)
      ensures e == x && to == end
    {
      SpineAt(ts, e, x, level, from, to);
    }
  }

  /* ---------------------------------------------------------------------- */
  /* The parser object                                                      */
  /* ---------------------------------------------------------------------- */

  class Parser {
    const tokens: seq<Token>
    var current: nat

    constructor (tokens: seq<Token>)
      ensures this.tokens == tokens && current == 0
    {
      this.tokens := tokens;
      current := 0;
    }

    /**
     * The scanner's output ends with `EndOfFile`, which no rule consumes, so
     * the cursor always has a token to look at.
     */
    predicate Valid()
      reads this
    {
      0 < |tokens| && tokens[|tokens| - 1].kind == EndOfFile && current < |tokens|
    }

    /** Where synchronize stops: after a `;`, or one token before a statement keyword. */
    predicate SyncPoint(k: nat)
      requires 0 < k < |tokens|
    {
      tokens[k - 1].kind == Semicolon || (k + 1 < |tokens| && IsStatementKeyword(tokens[k + 1].kind))
    }

    /** A position synchronize walks past: inside the tokens and not a `SyncPoint`. */
    predicate PassedOver(k: nat)
      requires 0 < k
    {
      k < |tokens| && !SyncPoint(k)
    }

    /**
     * The state at the head of a binary level's loop: `e`, of that level, was
     * parsed from the tokens between `from` and `end`; the token at `end`
     * does not continue a lower level, and it was consumed exactly when it
     * is an operator of this level.
     */
    ghost predicate Folded(e: Expr, level: nat, from: nat, end: nat, matched: bool)
      reads this
    {
      FACTOR <= level && Valid() && end < |tokens|
      && Parsed(tokens, e, level, from, end)
      && (FACTOR < level ==> !Continues(tokens[end].kind, level - 1))
      && current == (if matched then end + 1 else end)
      && (matched <==> BinaryLevel(tokens[end].kind) == level)
    }

    /** r#match: consumes the token at the cursor when it is of the variant of one of `kinds`. */
    method Match(kinds: seq<TokenType>) returns (matched: bool)
      requires Valid() && EndOfFile !in kinds
      modifies this`current
      ensures Valid()
      ensures matched <==> MatchesAny(tokens[old(current)].kind, kinds)
      ensures AllPlain(kinds) ==> (matched <==> tokens[old(current)].kind in kinds)
      ensures current == if matched then old(current) + 1 else old(current)
    {
      ghost var k := tokens[current].kind;
      if AllPlain(kinds) {
        MatchesPlain(k, kinds);
      }
      for i := 0 to |kinds|
        invariant current == old(current)
        invariant MatchesAny(k, kinds) <==> MatchesAny(k, kinds[i..])
      {
        assert kinds[i..][1..] == kinds[i + 1..];
        if SameVariant(tokens[current].kind, kinds[i]) {
          current := current + 1;
          return true;
        }
      }
      return false;
    }

    method Expression() returns (r: Result<Expr, Failure>)
      requires Valid()
      modifies this`current
      decreases |tokens| - current, EQUALITY + 1, 0
      ensures Valid() && old(current) <= current
      ensures r.Ok? ==> Parsed(tokens, r.value, EQUALITY, old(current), current)
      ensures r.Ok? ==> !Continues(tokens[current].kind, EQUALITY)
      ensures forall e, to :: Complete(tokens, e, EQUALITY, old(current), to) ==> r == Ok(e) && current == to
    {
      r := Equality();
    }

    /** Comparisons joined by `!=` and `==`. */
    method Equality() returns (r: Result<Expr, Failure>)
      requires Valid()
      modifies this`current
      decreases |tokens| - current, EQUALITY, 3
      ensures Valid() && old(current) <= current
      ensures r.Ok? ==> Parsed(tokens, r.value, EQUALITY, old(current), current)
      ensures r.Ok? ==> !Continues(tokens[current].kind, EQUALITY)
      ensures forall e, to :: Complete(tokens, e, EQUALITY, old(current), to) ==> r == Ok(e) && current == to
    {
      r := FoldLevel(EQUALITY);
    }

    /** Terms joined by `>`, `>=`, `<` and `<=`. */
    method Comparison() returns (r: Result<Expr, Failure>)
      requires Valid()
      modifies this`current
      decreases |tokens| - current, COMPARISON, 3
      ensures Valid() && old(current) <= current
      ensures r.Ok? ==> Parsed(tokens, r.value, COMPARISON, old(current), current)
      ensures r.Ok? ==> !Continues(tokens[current].kind, COMPARISON)
      ensures forall e, to :: Complete(tokens, e, COMPARISON, old(current), to) ==> r == Ok(e) && current == to
    {
      r := FoldLevel(COMPARISON);
    }

    /** Factors joined by `-` and `+`. */
    method Term() returns (r: Result<Expr, Failure>)
      requires Valid()
      modifies this`current
      decreases |tokens| - current, TERM, 3
      ensures Valid() && old(current) <= current
      ensures r.Ok? ==> Parsed(tokens, r.value, TERM, old(current), current)
      ensures r.Ok? ==> !Continues(tokens[current].kind, TERM)
      ensures forall e, to :: Complete(tokens, e, TERM, old(current), to) ==> r == Ok(e) && current == to
    {
      r := FoldLevel(TERM);
    }

    /** Unary expressions joined by `/` and `*`. */
    method Factor() returns (r: Result<Expr, Failure>)
      requires Valid()
      modifies this`current
      decreases |tokens| - current, FACTOR, 3
      ensures Valid() && old(current) <= current
      ensures r.Ok? ==> Parsed(tokens, r.value, FACTOR, old(current), current)
      ensures r.Ok? ==> !Continues(tokens[current].kind, FACTOR)
      ensures forall e, to :: Complete(tokens, e, FACTOR, old(current), to) ==> r == Ok(e) && current == to
    {
      r := FoldLevel(FACTOR);
    }

    /**
     * The loop the four binary levels share: an operand of the level below,
     * then, while `r#match` finds one of the level's operators, another
     * operand, folded in on the right.
     */
    method FoldLevel(level: nat) returns (r: Result<Expr, Failure>)
      requires Valid() && FACTOR <= level <= EQUALITY
      modifies this`current
      decreases |tokens| - current, level, 2
      ensures Valid() && old(current) <= current
      ensures r.Ok? ==> Parsed(tokens, r.value, level, old(current), current)
      ensures r.Ok? ==> !Continues(tokens[current].kind, level)
      ensures forall e, to :: Complete(tokens, e, level, old(current), to) ==> r == Ok(e) && current == to
    {
      ghost var from := current;
      var first := Operand(level);
      FirstOperand(tokens, level, from, first, current);
      var expr :- first;
      ghost var end: nat := current;
      var matched := Match(Ops(level));
      OpsLevel(tokens[end].kind, level);
      while matched
        invariant Folded(expr, level, from, end, matched)
        invariant forall e, to :: Complete(tokens, e, level, from, to) ==> OnSpine(e, expr, level)
        decreases |tokens| - current
      {
        var step :- Extend(level, from, end, expr);
        expr, matched := step.0, step.1;
        end := if matched then current - 1 else current;
      }
      SpineEnd(tokens, level, from, end, expr);
      return Ok(expr);
    }

    /**
     * One round of the loop: the operator `r#match` just consumed and the
     * operand after it join the tree, and `r#match` looks at the next token.
     */
    method Extend(level: nat, ghost from: nat, ghost end: nat, left: Expr) returns (r: Result<(Expr, bool), Failure>)
      requires FACTOR <= level <= EQUALITY && Folded(left, level, from, end, true)
      modifies this`current
      decreases |tokens| - current, level, 1
      ensures Valid() && old(current) <= current
      ensures r.Ok? ==> old(current) < current && Folded(r.value.0, level, from, if r.value.1 then current - 1 else current, r.value.1)
      ensures forall e, to :: Complete(tokens, e, level, from, to) && OnSpine(e, left, level) ==>
                r.Ok? && OnSpine(e, r.value.0, level) && r.value.0.Binary? && r.value.0.left == left
    {
      var operator := tokens[current - 1].kind;
      var second := Operand(level);
      NextOperand(tokens, level, from, end, left, second, current, end + 1);
      var right :- second;
      Fold(tokens, level, from, end, current, left, right);
      ghost var next := current;
      var matched := Match(Ops(level));
      OpsLevel(tokens[next].kind, level);
      return Ok((Binary(left, operator, right), matched));
    }

    /** An operand of a binary level: an expression of the level below. */
    method Operand(level: nat) returns (r: Result<Expr, Failure>)
      requires Valid() && FACTOR <= level <= EQUALITY
      modifies this`current
      decreases |tokens| - current, level, 0
      ensures Valid() && old(current) <= current
      ensures r.Ok? ==> Parsed(tokens, r.value, level - 1, old(current), current)
      ensures r.Ok? && FACTOR < level ==> !Continues(tokens[current].kind, level - 1)
      ensures forall e, to, below: nat :: below + 1 == level && Complete(tokens, e, below, old(current), to) ==> r == Ok(e) && current == to
    {
      if level == FACTOR {
        r := Unary();
      } else if level == TERM {
        r := Factor();
      } else if level == COMPARISON {
        r := Term();
      } else {
        r := Comparison();
      }
    }

    method Unary() returns (r: Result<Expr, Failure>)
      requires Valid()
      modifies this`current
      decreases |tokens| - current, UNARY, 0
      ensures Valid() && old(current) <= current
      ensures r.Ok? ==> Parsed(tokens, r.value, UNARY, old(current), current)
      ensures forall e, to :: Parsed(tokens, e, UNARY, old(current), to) ==> r == Ok(e) && current == to
      ensures IsLiteralKind(tokens[old(current)].kind) ==>
                r == Ok(Literal(tokens[old(current)].kind)) && current == old(current) + 1
      ensures var k := tokens[old(current)].kind;
                !IsLiteralKind(k) && k != LeftBracket && k !in EqualityOps ==> r == Err(ParseError) && current == old(current)
    {
      ghost var from := current;
      var matched := Match(EqualityOps);
      if matched {
        var operator := tokens[current - 1].kind;
        var sub := Unary();
        forall e, to | Parsed(tokens, e, UNARY, from, to)
          ensures e.Unary? && e.operator == operator && sub == Ok(e.right) && current == to
        {
          ParsedStart(tokens, e, UNARY, from, to);
          ParsedPrefix(tokens, e, from, to);
        }
        var right :- sub;
        Prefix(tokens, from, current, right);
        return Ok(Expr.Unary(operator, right));
      } else {
        forall e, to | Parsed(tokens, e, UNARY, from, to)
          ensures Parsed(tokens, e, PRIMARY, from, to)
        {
          ParsedStart(tokens, e, UNARY, from, to);
        }
        r := Primary();
      }
    }

    method Primary() returns (r: Result<Expr, Failure>)
      requires Valid()
      modifies this`current
      decreases |tokens| - current, PRIMARY, 1
      ensures Valid() && old(current) <= current
      ensures r.Ok? ==> Parsed(tokens, r.value, PRIMARY, old(current), current)
      ensures IsLiteralKind(tokens[old(current)].kind) ==>
                r == Ok(Literal(tokens[old(current)].kind)) && current == old(current) + 1
      ensures !IsLiteralKind(tokens[old(current)].kind) && tokens[old(current)].kind != LeftBracket ==>
                r == Err(ParseError) && current == old(current)
      ensures r == Err(MissingRightBracket) ==> tokens[old(current)].kind == LeftBracket
      ensures forall e, to :: Parsed(tokens, e, PRIMARY, old(current), to) ==> r == Ok(e) && current == to
    {
      ghost var from := current;
      var kind := tokens[current].kind;
      PrimaryOwed(tokens, from);
      match kind
      case Number(_) =>
        current := current + 1;
        return Ok(Literal(kind));
      case String(_) =>
        current := current + 1;
        return Ok(Literal(kind));
      case True =>
        current := current + 1;
        return Ok(Literal(kind));
      case False =>
        current := current + 1;
        return Ok(Literal(kind));
      case Nil =>
        current := current + 1;
        return Ok(Literal(kind));
      case LeftBracket =>
        ghost var inner, start, close;
        r, inner, start, close := Group();
      case _ =>
        return Err(ParseError);
    }

    /**
     * The bracket case of `primary`: `(`, an expression, and the `)` the
     * source asserts. `inner` is what the expression after `(` gave: the
     * complete parse starting at `start`, just after `(`, or an error when
     * there is none. `close` is the position the `)` is looked for at.
     */
    method Group() returns (r: Result<Expr, Failure>, ghost inner: Result<Expr, Failure>, ghost start: nat, ghost close: nat)
      requires Valid() && tokens[current].kind == LeftBracket
      modifies this`current
      decreases |tokens| - current, PRIMARY, 0
      ensures Valid() && old(current) < current
      ensures r.Ok? ==> Parsed(tokens, r.value, PRIMARY, old(current), current)
      ensures start == old(current) + 1
      ensures inner.Ok? ==> Complete(tokens, inner.value, EQUALITY, start, close)
      ensures inner.Err? ==> forall e, to :: !Complete(tokens, e, EQUALITY, start, to)
      ensures inner.Err? ==> r == Err(inner.error)
      ensures inner.Ok? ==> old(current) < close < |tokens|
      ensures inner.Ok? ==> (r.Ok? <==> tokens[close].kind == RightBracket)
      ensures inner.Ok? && r.Err? ==> r == Err(MissingRightBracket) && current == close
      ensures r.Ok? ==> inner.Ok? && r.value == Grouping(inner.value) && current == close + 1
      ensures forall e, to :: Parsed(tokens, e, PRIMARY, old(current), to) ==> r == Ok(e) && current == to
    {
      ghost var from := current;
      current := current + 1;
      var sub := Expression();
      GroupOwed(tokens, from, sub, current, from + 1);
      inner, start, close := sub, from + 1, current;
      if sub.Err? {
        return Err(sub.error), inner, start, close;
      }
      var expression := sub.value;
      if tokens[current].kind != RightBracket {
        return Err(MissingRightBracket), inner, start, close;
      }
      current := current + 1;
      Enclose(tokens, from, current, expression);
      return Ok(Grouping(expression)), inner, start, close;
    }

    /**
     * synchronize: steps past the current token, then on until just after a
     * `;` or just before the token ahead of a statement keyword, or the end.
     */
    method Synchronize()
      modifies this`current
      ensures old(current) < current
      ensures old(current) < |tokens| ==> current <= |tokens|
      ensures current < |tokens| ==> SyncPoint(current)
      ensures forall k :: old(current) < k < current ==> PassedOver(k)
    {
      current := current + 1;
      while current < |tokens|
        invariant old(current) < current
        invariant old(current) < |tokens| ==> current <= |tokens|
        invariant forall k :: old(current) < k < current ==> PassedOver(k)
        decreases |tokens| - current
      {
        if tokens[current - 1].kind == Semicolon {
          return;
        }
        if current + 1 < |tokens| {
          match tokens[current + 1].kind
          case Class => return;
          case Fun => return;
          case Var => return;
          case For => return;
          case If => return;
          case While => return;
          case Print => return;
          case Return => return;
          case _ =>
        }
        current := current + 1;
      }
    }
  }
}
