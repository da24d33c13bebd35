/**
 * The scanner of src/scanner.rs: a cursor over the source bytes that pushes
 * tokens and errors onto two vectors.
 *
 * The pure part says what one pass of the scanning loop does from a given
 * cursor position (`LexStep`), and what the whole scan yields (`ScanFrom`,
 * `Scan`). The class `Scanner` is the source's struct; its methods are proved
 * to do exactly what those functions say.
 *
 * Offsets follow the source: `current` is the byte being processed, `Peek`
 * reads `current + 1` and `PeekNext` reads `current + 2`.
 */
module Scanner {
  import opened Wrappers
  import opened Bytes
  import opened Floats
  import opened Tokens

  datatype ScanError =
    | UnexpectedCharacter(character: char, line: nat)
    | UnterimatedString(line: nat)
    | Utf8    // `str::from_utf8` rejected the bytes of a string literal

  /**
   * What `scan_tokens` yields. `SlicePanic` stands for the crash of
   * handle_string when the opening quote is the last byte of the input:
   * it slices `source[start + 1..current]` with `start == current`.
   */
  datatype ScanResult = Ok(tokens: seq<Token>) | Err(errors: seq<ScanError>) | SlicePanic

  /** The effect of one pass of the scanning loop, or the crash it runs into. */
  datatype Step = Step(tokens: seq<Token>, errors: seq<ScanError>, next: nat, line: nat) | Panicked

  /** The tokens and errors of the remaining scan, or the crash it runs into. */
  datatype Run = Run(tokens: seq<Token>, errors: seq<ScanError>) | Aborted

  /* ---------------------------------------------------------------------- */
  /* Lexeme boundaries                                                      */
  /* ---------------------------------------------------------------------- */

  /** The last position of the run of `p`-bytes that follows position `i`. */
  function RunEnd(src: seq<byte>, i: nat, p: byte -> bool): (e: nat)
    requires i < |src|
    ensures i <= e < |src|
    decreases |src| - i
  {
    if i + 1 < |src| && p(src[i + 1]) then RunEnd(src, i + 1, p) else i
  }

  /** `RunEnd` is a maximal run: every byte after `i` up to it is a `p`-byte, and the next is not. */
  lemma {:induction false} RunEndMaximal(src: seq<byte>, i: nat, p: byte -> bool)
    requires i < |src|
    ensures forall j :: i < j <= RunEnd(src, i, p) ==> p(src[j])
    ensures RunEnd(src, i, p) + 1 == |src| || !p(src[RunEnd(src, i, p) + 1])
    decreases |src| - i
  {
    if i + 1 < |src| && p(src[i + 1]) {
      RunEndMaximal(src, i + 1, p);
    }
  }

  /** The position of the first quote after `i`, or the last position when there is none. */
  function CloseQuote(src: seq<byte>, i: nat): (e: nat)
    requires i < |src|
    ensures i <= e < |src|
    decreases |src| - i
  {
    if i + 1 < |src| then
      if src[i + 1] == QUOTE then i + 1 else CloseQuote(src, i + 1)
    else i
  }

  /** The number of newlines in `s`. */
  function Newlines(s: seq<byte>): nat {
    if s == [] then 0
    else Newlines(s[..|s| - 1]) + (if s[|s| - 1] == NEWLINE then 1 else 0)
  }

  /** A `.` at `i + 1` followed by a digit at `i + 2`: the fraction of a number. */
  predicate FractionFollows(src: seq<byte>, i: nat) {
    i + 2 < |src| && src[i + 1] == DOT && IsDigit(src[i + 2])
  }

  /* ---------------------------------------------------------------------- */
  /* Number values                                                          */
  /* ---------------------------------------------------------------------- */

  function Pow10(n: nat): (p: nat)
    ensures p > 0
  {
    if n == 0 then 1 else 10 * Pow10(n - 1)
  }

  /** The value of a string of decimal digits. */
  function DigitsValue(ds: seq<byte>): nat {
    if ds == [] then 0
    else
      var d := ds[|ds| - 1];
      10 * DigitsValue(ds[..|ds| - 1]) + (if IsDigit(d) then (d - '0' as byte) as nat else 0)
  }

  /** `n` digits stay below `10^n`, so a fraction's digits make less than one. */
  lemma {:induction false} DigitsBelow(ds: seq<byte>)
    ensures DigitsValue(ds) < Pow10(|ds|)
    decreases |ds|
  {
    if ds != [] {
      DigitsBelow(ds[..|ds| - 1]);
    }
  }

  /** The digits after the `.`, scaled by their count, make a fraction in `[0, 1)`. */
  lemma FractionBelowOne(ds: seq<byte>)
    ensures 0.0 <= DigitsValue(ds) as real / Pow10(|ds|) as real < 1.0
  {
    DigitsBelow(ds);
    QuotientBelowOne(DigitsValue(ds) as real, Pow10(|ds|) as real);
  }

  lemma QuotientBelowOne(f: real, p: real)
    requires 0.0 <= f < p
    ensures 0.0 <= f / p < 1.0
  {
  }

  /** The position of the first `.` in `s`, or `|s|` when there is none. */
  function DotIndex(s: seq<byte>): (k: nat)
    ensures k <= |s|
    ensures forall j :: 0 <= j < k ==> s[j] != DOT
    ensures k < |s| ==> s[k] == DOT
  {
    if s == [] then 0
    else if s[0] == DOT then 0
    else 1 + DotIndex(s[1..])
  }

  /**
   * The exact decimal value of a number lexeme: the model's stand-in for
   * `str::parse::<f64>`, without rounding to the nearest double.
   */
  function LexemeValue(lexeme: seq<byte>): (v: real)
    ensures DigitsValue(lexeme[..DotIndex(lexeme)]) as real <= v < DigitsValue(lexeme[..DotIndex(lexeme)]) as real + 1.0
  {
    var k := DotIndex(lexeme);
    var whole := DigitsValue(lexeme[..k]) as real;
    if k < |lexeme| then
      FractionBelowOne(lexeme[k + 1..]);
      whole + DigitsValue(lexeme[k + 1..]) as real / Pow10(|lexeme[k + 1..]|) as real
    else whole
  }

  predicate AllDigits(s: seq<byte>) {
    forall i :: 0 <= i < |s| ==> IsDigit(s[i])
  }

  /** The number grammar: digits, optionally followed by `.` and digits. */
  predicate IsNumberLexeme(s: seq<byte>) {
    var k := DotIndex(s);
    0 < k && AllDigits(s[..k]) && (k == |s| || (k + 1 < |s| && AllDigits(s[k + 1..])))
  }

  /* ---------------------------------------------------------------------- */
  /* One pass of the scanning loop                                          */
  /* ---------------------------------------------------------------------- */

  /** The one-byte tokens that never look ahead. */
  function SingleCharKind(b: byte): (r: Option<TokenType>)
    ensures r.Some? ==> !IsDigit(b) && !IsAlpha(b)
    ensures r.Some? ==> b !in {BANG, EQUALS, LESS, GREATER, SLASH, QUOTE, SPACE, CARRIAGE_RETURN, TAB, NEWLINE, UNDERSCORE}
    ensures r.Some? ==> r.value != EndOfFile
  {
    if b == '(' as byte then Some(LeftBracket)
    else if b == ')' as byte then Some(RightBracket)
    else if b == '{' as byte then Some(LeftBrace)
    else if b == '}' as byte then Some(RightBrace)
    else if b == ',' as byte then Some(Comma)
    else if b == '.' as byte then Some(Dot)
    else if b == '-' as byte then Some(Minus)
    else if b == '+' as byte then Some(Plus)
    else if b == ';' as byte then Some(Semicolon)
    else if b == '*' as byte then Some(Star)
    else None
  }

  /** `!`, `=`, `<` or `>` at `s`: the two-byte form when `=` follows, else the one-byte form. */
  function OperatorStep(src: seq<byte>, s: nat, line: nat, single: TokenType, double: TokenType): (r: Step)
    requires s < |src|
    ensures r.Step? && r.errors == [] && r.line == line
    ensures s + 1 < |src| && src[s + 1] == EQUALS ==> r.tokens == [Token(double, line)] && r.next == s + 2
    ensures !(s + 1 < |src| && src[s + 1] == EQUALS) ==> r.tokens == [Token(single, line)] && r.next == s + 1
  {
    if s + 1 < |src| && src[s + 1] == EQUALS then Step([Token(double, line)], [], s + 2, line)
    else Step([Token(single, line)], [], s + 1, line)
  }

  /** `/` at `s`: a `//` comment runs up to, not including, the next newline. */
  function SlashStep(src: seq<byte>, s: nat, line: nat): (r: Step)
    requires s < |src|
    ensures r.Step? && r.errors == [] && r.line == line && s < r.next <= |src|
    ensures s + 1 < |src| && src[s + 1] == SLASH ==> r.tokens == []
    ensures !(s + 1 < |src| && src[s + 1] == SLASH) ==> r.tokens == [Token(Slash, line)] && r.next == s + 1
  {
    if s + 1 < |src| && src[s + 1] == SLASH then
      Step([], [], RunEnd(src, s + 1, NotNewline) + 1, line)
    else Step([Token(Slash, line)], [], s + 1, line)
  }

  /** A digit at `s`: digits, then `.` and digits only when a digit follows the `.`. */
  function NumberEnd(src: seq<byte>, s: nat): (e: nat)
    requires s < |src|
    ensures s <= e < |src|
  {
    var whole := RunEnd(src, s, IsDigit);
    if FractionFollows(src, whole) then RunEnd(src, whole + 1, IsDigit) else whole
  }

  function NumberStep(src: seq<byte>, s: nat, line: nat): (r: Step)
    requires s < |src|
    ensures r.Step? && r.errors == [] && r.line == line && s < r.next <= |src|
  {
    var e := NumberEnd(src, s);
    Step([Token(Number(Finite(LexemeValue(src[s..e + 1]))), line)], [], e + 1, line)
  }

  /** A letter or `_` at `s`: the longest identifier, or the keyword it spells. */
  function IdentifierKind(lexeme: seq<byte>): (k: TokenType)
    requires AllAscii(lexeme)
    ensures k.Identifier? <==> AsciiText(lexeme) !in Keywords
    ensures k.Identifier? ==> k.name == AsciiText(lexeme)
    ensures !k.Identifier? ==> IsKeywordKind(k)
  {
    KeywordTable();
    var text := AsciiText(lexeme);
    if text in Keywords then Keywords[text] else Identifier(text)
  }

  function IdentifierStep(src: seq<byte>, s: nat, line: nat): (r: Step)
    requires s < |src| && IsIdentChar(src[s])
    ensures r.Step? && r.errors == [] && r.line == line && s < r.next <= |src|
    ensures |r.tokens| == 1 && r.tokens[0].kind != EndOfFile
  {
    var e := RunEnd(src, s, IsIdentChar);
    IdentLexemeAscii(src, s);
    KeywordTable();
    Step([Token(IdentifierKind(src[s..e + 1]), line)], [], e + 1, line)
  }

  /** The identifier step once the run is known to end at `e`. */
  lemma IdentifierTaken(src: seq<byte>, s: nat, e: nat, line: nat)
    requires s <= e < |src| && IsIdentChar(src[s]) && RunEnd(src, s, IsIdentChar) == e
    ensures AllAscii(src[s..e + 1])
    ensures IdentifierStep(src, s, line) == Step([Token(IdentifierKind(src[s..e + 1]), line)], [], e + 1, line)
  {
    IdentLexemeAscii(src, s);
  }

  /**
   * A quote at `s`, scanned as handle_string does: up to the first quote
   * after `s` (or the last byte), counting newlines; then `StringEnd`.
   */
  function StringStep(src: seq<byte>, s: nat, line: nat): (r: Step)
    requires s < |src|
    ensures r.Step? ==> s < r.next <= |src| + 1 && line <= r.line
    ensures r.Step? ==> forall t :: t in r.tokens ==> t.kind.String? && t.line == r.line
  {
    var e := CloseQuote(src, s);
    StringEnd(src, s, e, line + Newlines(src[s + 1..e + 1]))
  }

  /**
   * The end of handle_string, the scan having stopped at `e` on `line`:
   * "unterminated" when nothing follows `e`; a crash when there is no byte
   * between `s` and `e` to slice; otherwise a token for the bytes in between
   * and two advances, one inside `add_token` and one after it.
   */
  function StringEnd(src: seq<byte>, s: nat, e: nat, line: nat): (r: Step)
    requires s <= e < |src|
    ensures r.Step? ==> s < r.next <= |src| + 1 && r.line == line
    ensures r.Step? ==> forall t :: t in r.tokens ==> t.kind.String? && t.line == line
  {
    var unterminated := if e + 1 < |src| then [] else [UnterimatedString(line)];
    if s + 1 > e then Panicked
    else if ValidUtf8(src[s + 1..e]) then
      Step([Token(String(src[s + 1..e]), line)], unterminated, e + 2, line)
    else Step([], unterminated + [Utf8], e + 1, line)
  }

  /** What one pass of the loop of scan_tokens does when `current == pos`. */
  function LexStep(src: seq<byte>, pos: nat, line: nat): (r: Step)
    requires pos < |src|
    ensures r.Step? ==> pos < r.next <= |src| + 1 && line <= r.line
    ensures r.Step? ==> |r.tokens| <= 1
    ensures r.Step? ==> forall t :: t in r.tokens ==> t.kind != EndOfFile && t.line == r.line
  {
    var b := src[pos];
    if SingleCharKind(b).Some? then Step([Token(SingleCharKind(b).value, line)], [], pos + 1, line)
    else if b == BANG then OperatorStep(src, pos, line, Bang, NotEqual)
    else if b == EQUALS then OperatorStep(src, pos, line, Assign, Equal)
    else if b == LESS then OperatorStep(src, pos, line, LessThan, LessThanOrEqual)
    else if b == GREATER then OperatorStep(src, pos, line, GreaterThan, GreaterThanOrEqual)
    else if b == SLASH then SlashStep(src, pos, line)
    else if b == QUOTE then StringStep(src, pos, line)
    else if IsDigit(b) then NumberStep(src, pos, line)
    else if IsAlpha(b) || b == UNDERSCORE then IdentifierStep(src, pos, line)
    else if b == SPACE || b == CARRIAGE_RETURN || b == TAB then Step([], [], pos + 1, line)
    else if b == NEWLINE then Step([], [], pos + 1, line + 1)
    else Step([], [UnexpectedCharacter(b as char, line)], pos + 1, line)
  }

  /** `ts` and `es` followed by the rest of the scan. */
  function Prepend(ts: seq<Token>, es: seq<ScanError>, rest: Run): Run {
    match rest
    case Aborted => Aborted
    case Run(t, e) => Run(ts + t, es + e)
  }

  /** The loop of scan_tokens from `current == pos` at `line`, with the end-of-file token. */
  function ScanFrom(src: seq<byte>, pos: nat, line: nat): (r: Run)
    ensures pos <= |src| && r.Run? ==> |r.tokens| <= |src| - pos + 1
    decreases |src| - pos
  {
    if pos >= |src| then Run([Token(EndOfFile, line)], [])
    else
      match LexStep(src, pos, line)
      case Panicked => Aborted
      case Step(ts, es, next, line') => Prepend(ts, es, ScanFrom(src, next, line'))
  }

  /** The result handed back once the loop is done: the tokens if no error was recorded. */
  function Finish(run: Run): (r: ScanResult)
    ensures r.Ok? <==> run.Run? && run.errors == []
    ensures r.Ok? ==> r.tokens == run.tokens
    ensures r.Err? ==> run.Run? && r.errors == run.errors && r.errors != []
    ensures r.SlicePanic? <==> run.Aborted?
  {
    match run
    case Aborted => SlicePanic
    case Run(t, e) => if e == [] then ScanResult.Ok(t) else ScanResult.Err(e)
  }

  /** The whole scan, from a fresh scanner. */
  function Scan(src: seq<byte>): (r: ScanResult)
    ensures r.Ok? ==> |r.tokens| <= |src| + 1
  {
    Finish(ScanFrom(src, 0, 1))
  }

  /* ---------------------------------------------------------------------- */
  /* Helper lemmas                                                          */
  /* ---------------------------------------------------------------------- */

  lemma PrependPrepend(ts: seq<Token>, es: seq<ScanError>, ts': seq<Token>, es': seq<ScanError>, rest: Run)
    ensures Prepend(ts, es, Prepend(ts', es', rest)) == Prepend(ts + ts', es + es', rest)
  {
    match rest
    case Aborted =>
    case Run(t, e) =>
      assert ts + (ts' + t) == (ts + ts') + t;
      assert es + (es' + e) == (es + es') + e;
  }

  lemma {:induction false} IdentLexemeAscii(src: seq<byte>, s: nat)
    requires s < |src| && IsIdentChar(src[s])
    ensures AllAscii(src[s..RunEnd(src, s, IsIdentChar) + 1])
  {
    RunEndMaximal(src, s, IsIdentChar);
  }

  lemma {:induction false} NumberLexemeAscii(src: seq<byte>, s: nat)
    requires s < |src| && IsDigit(src[s])
    ensures AllAscii(src[s..NumberEnd(src, s) + 1])
  {
    var whole := RunEnd(src, s, IsDigit);
    RunEndMaximal(src, s, IsDigit);
    if FractionFollows(src, whole) {
      RunEndMaximal(src, whole + 1, IsDigit);
    }
  }

  /** The number step once the lexeme is known to end at `e`: the lexeme is well-formed text. */
  lemma NumberTaken(src: seq<byte>, s: nat, e: nat, line: nat)
    requires s <= e < |src| && IsDigit(src[s]) && NumberEnd(src, s) == e
    ensures ValidUtf8(src[s..e + 1])
    ensures NumberStep(src, s, line) == Step([Token(Number(Finite(LexemeValue(src[s..e + 1]))), line)], [], e + 1, line)
  {
    NumberLexemeAscii(src, s);
    AsciiIsUtf8(src[s..e + 1]);
  }

  lemma NewlinesSnoc(s: seq<byte>, b: byte)
    ensures Newlines(s + [b]) == Newlines(s) + (if b == NEWLINE then 1 else 0)
  {
    assert (s + [b])[..|s + [b]| - 1] == s;
  }

  /** One more byte of the string body, `src[i + 1]`, adds a line when it is a newline. */
  lemma NewlinesExtend(src: seq<byte>, s: nat, i: nat)
    requires s <= i && i + 1 < |src|
    ensures Newlines(src[s + 1..i + 2]) == Newlines(src[s + 1..i + 1]) + (if src[i + 1] == NEWLINE then 1 else 0)
  {
    NewlinesSnoc(src[s + 1..i + 1], src[i + 1]);
    assert src[s + 1..i + 2] == src[s + 1..i + 1] + [src[i + 1]];
  }

  /* ---------------------------------------------------------------------- */
  /* The scanner object                                                     */
  /* ---------------------------------------------------------------------- */

  class Scanner {
    var start: nat
    var current: nat
    var line: nat
    var errors: seq<ScanError>
    var tokens: seq<Token>

    constructor ()
      ensures start == 0 && current == 0 && line == 1
      ensures errors == [] && tokens == []
    {
      start, current, line := 0, 0, 1;
      errors, tokens := [], [];
    }

    /** After a pass whose effect is `st`, starting from tokens `ts` and errors `es`. */
    ghost predicate Took(st: Step, ts: seq<Token>, es: seq<ScanError>)
      reads this
    {
      st.Step? && tokens == ts + st.tokens && errors == es + st.errors
      && current == st.next && line == st.line && start == current
    }

    function Peek(source: seq<byte>): (r: Option<byte>)
      reads this
      ensures r.Some? <==> current + 1 < |source|
      ensures r.Some? ==> r.value == source[current + 1]
    {
      if current + 1 < |source| then Some(source[current + 1]) else None
    }

    function PeekNext(source: seq<byte>): (r: Option<byte>)
      reads this
      ensures r.Some? <==> current + 2 < |source|
      ensures r.Some? ==> r.value == source[current + 2]
    {
      if current + 2 < |source| then Some(source[current + 2]) else None
    }

    method Advance()
      modifies this`current, this`start
      ensures current == old(current) + 1 && start == current
    {
      current := current + 1;
      start := current;
    }

    method AddToken(kind: TokenType)
      modifies this`tokens, this`current, this`start
      ensures tokens == old(tokens) + [Token(kind, line)]
      ensures current == old(current) + 1 && start == current
    {
      tokens := tokens + [Token(kind, line)];
      Advance();
    }

    /** Consumes the next byte when it is `value`. */
    method Match(source: seq<byte>, value: byte) returns (matched: bool)
      modifies this`current
      ensures matched <==> old(current) + 1 < |source| && source[old(current) + 1] == value
      ensures current == if matched then old(current) + 1 else old(current)
    {
      var p := Peek(source);
      if p.Some? && p.value == value {
        current := current + 1;
        return true;
      }
      return false;
    }

    /** `!`, `=`, `<` and `>`: the two-byte operator when `=` follows, the one-byte one otherwise. */
    method HandleOperator(source: seq<byte>, single: TokenType, double: TokenType)
      requires start == current < |source|
      modifies this`tokens, this`current, this`start
      ensures Took(OperatorStep(source, old(current), line, single, double), old(tokens), errors)
    {
      var m := Match(source, EQUALS);
      if m { AddToken(double); } else { AddToken(single); }
    }

    /** `/`: a comment runs up to, not including, the next newline; otherwise a `Slash` token. */
    method HandleSlash(source: seq<byte>)
      requires start == current < |source|
      modifies this`tokens, this`current, this`start
      ensures Took(SlashStep(source, old(current), line), old(tokens), errors)
    {
      var m := Match(source, SLASH);
      if m {
        while Peek(source).Some?
          invariant old(current) + 1 <= current < |source|
          invariant RunEnd(source, current, NotNewline) == RunEnd(source, old(current) + 1, NotNewline)
          invariant tokens == old(tokens) && start == old(start)
          decreases |source| - current
        {
          var p := Peek(source).value;
          if p == NEWLINE {
            break;
          }
          current := current + 1;
        }
        Advance();
        assert tokens == old(tokens) + [];
      } else {
        AddToken(Slash);
      }
    }

    method HandleIdentifier(source: seq<byte>)
      requires start == current < |source| && (IsAlpha(source[current]) || source[current] == UNDERSCORE)
      modifies this`tokens, this`current, this`start
      ensures Took(IdentifierStep(source, old(current), line), old(tokens), errors)
    {
      while Peek(source).Some?
        invariant start <= current < |source|
        invariant RunEnd(source, current, IsIdentChar) == RunEnd(source, start, IsIdentChar)
        invariant tokens == old(tokens) && start == old(start)
        decreases |source| - current
      {
        var c := Peek(source).value;
        if !IsIdentChar(c) {
          break;
        }
        current := current + 1;
      }
      IdentifierTaken(source, start, current, line);
      AddIdentifier(source);
    }

    /** The end of handle_identifier: the keyword the lexeme spells, or an identifier. */
    method AddIdentifier(source: seq<byte>)
      requires start <= current < |source| && AllAscii(source[start..current + 1])
      modifies this`tokens, this`current, this`start
      ensures tokens == old(tokens) + [Token(IdentifierKind(source[old(start)..old(current) + 1]), line)]
      ensures current == old(current) + 1 && start == current
    {
      var identifier := AsciiText(source[start..current + 1]);
      if identifier in Keywords {
        AddToken(Keywords[identifier]);
      } else {
        AddToken(Identifier(identifier));
      }
    }

    /** A digit loop of handle_number: advance over the digits that follow. */
    method SkipDigits(source: seq<byte>)
      requires current < |source|
      modifies this`current
      ensures current == RunEnd(source, old(current), IsDigit)
    {
      ghost var s := current;
      while Peek(source).Some?
        invariant s <= current < |source|
        invariant RunEnd(source, current, IsDigit) == RunEnd(source, s, IsDigit)
        decreases |source| - current
      {
        var c := Peek(source).value;
        if !IsDigit(c) {
          break;
        }
        current := current + 1;
      }
    }

    /** The lexeme of handle_number: digits, then `.` and digits when a digit follows the `.`. */
    method SkipNumber(source: seq<byte>)
      requires current < |source|
      modifies this`current
      ensures current == NumberEnd(source, old(current))
    {
      ghost var s := current;
      SkipDigits(source);
      var p, pn := Peek(source), PeekNext(source);
      if p == Some(DOT) && pn.Some? && IsDigit(pn.value) {
        current := current + 1;
      } else {
        RunEndMaximal(source, s, IsDigit);
      }
      SkipDigits(source);
    }

    method HandleNumber(source: seq<byte>)
      requires start == current < |source| && IsDigit(source[current])
      modifies this`tokens, this`current, this`start, this`errors
      ensures Took(NumberStep(source, old(current), line), old(tokens), old(errors))
    {
      SkipNumber(source);
      var number := source[start..current + 1];
      NumberTaken(source, start, current, line);
      var value := LexemeValue(number);
      ghost var step := Step([Token(Number(Finite(value)), line)], [], current + 1, line);
      assert NumberStep(source, start, line) == step;
      if ValidUtf8(number) {
        AddToken(Number(Finite(value)));
        assert Took(step, old(tokens), old(errors));
      } else {
        // The lexeme is ASCII, so the `Utf8` error of the source cannot arise here.
        assert false;
      }
    }

    /** The loop of handle_string: walk to the closing quote (or the last byte), counting lines. */
    method SkipToQuote(source: seq<byte>)
      requires current < |source|
      modifies this`current, this`line
      ensures current == CloseQuote(source, old(current))
      ensures line == old(line) + Newlines(source[old(current) + 1..current + 1])
    {
      ghost var s, l0 := current, line;
      while Peek(source).Some?
        invariant s <= current < |source|
        invariant CloseQuote(source, current) == CloseQuote(source, s)
        invariant line == l0 + Newlines(source[s + 1..current + 1])
        decreases |source| - current
      {
        var c := Peek(source).value;
        NewlinesExtend(source, s, current);
        current := current + 1;
        if c == NEWLINE {
          line := line + 1;
        }
        if c == QUOTE {
          break;
        }
      }
    }

    /** Returns `true` when the source crashes on its slice (the opening quote is the last byte). */
    method HandleString(source: seq<byte>) returns (panicked: bool)
      requires start == current < |source| && source[current] == QUOTE
      modifies this
      ensures panicked <==> StringStep(source, old(current), old(line)).Panicked?
      ensures !panicked ==> Took(StringStep(source, old(current), old(line)), old(tokens), old(errors))
    {
      ghost var s, l0 := current, line;
      SkipToQuote(source);
      assert StringStep(source, s, l0) == StringEnd(source, s, current, line);
      if Peek(source).None? {
        errors := errors + [UnterimatedString(line)];
      }
      if start + 1 > current {
        return true;
      }
      var text := source[start + 1..current];
      if ValidUtf8(text) {
        AddToken(String(text));
      } else {
        errors := errors + [Utf8];
        assert tokens == old(tokens) + [];
      }
      Advance();
      return false;
    }

    /**
     * One pass of the loop of scan_tokens: the `match` on `source[current]`.
     * Returns `true` when that pass crashes (see `ScanResult.SlicePanic`).
     */
    method ScanToken(source: seq<byte>) returns (panicked: bool)
      requires start == current < |source|
      modifies this
      ensures panicked <==> LexStep(source, old(current), old(line)).Panicked?
      ensures !panicked ==> Took(LexStep(source, old(current), old(line)), old(tokens), old(errors))
    {
      ghost var pos, ln, ts, es := current, line, tokens, errors;
      panicked := false;
      var b := source[current];
      var single := SingleCharKind(b);
      if single.Some? {
        AddToken(single.value);
      } else if b == BANG {
        HandleOperator(source, Bang, NotEqual);
      } else if b == EQUALS {
        HandleOperator(source, Assign, Equal);
      } else if b == LESS {
        HandleOperator(source, LessThan, LessThanOrEqual);
      } else if b == GREATER {
        HandleOperator(source, GreaterThan, GreaterThanOrEqual);
      } else if b == SLASH {
        HandleSlash(source);
      } else if b == QUOTE {
        panicked := HandleString(source);
      } else if IsDigit(b) {
        HandleNumber(source);
      } else if IsAlpha(b) || b == UNDERSCORE {
        HandleIdentifier(source);
      } else if b == SPACE || b == CARRIAGE_RETURN || b == TAB {
        Advance();
        assert errors == es + [] && tokens == ts + [];
      } else if b == NEWLINE {
        line := line + 1;
        Advance();
        assert errors == es + [] && tokens == ts + [];
      } else {
        errors := errors + [UnexpectedCharacter(b as char, line)];
        Advance();
        assert tokens == ts + [];
      }
    }

    /**
     * scan_tokens: runs the loop from the present state and hands back the
     * tokens (ending with `EndOfFile`) if no error was recorded, the errors
     * otherwise.
     */
    method ScanTokens(source: seq<byte>) returns (r: ScanResult)
      requires start == current
      modifies this
      ensures r == Finish(Prepend(old(tokens), old(errors), ScanFrom(source, old(current), old(line))))
    {
      while current < |source|
        invariant start == current
        invariant Prepend(tokens, errors, ScanFrom(source, current, line))
               == Prepend(old(tokens), old(errors), ScanFrom(source, old(current), old(line)))
        decreases |source| - current
      {
        ghost var pos, ln, ts, es := current, line, tokens, errors;
        var panicked := ScanToken(source);
        if panicked {
          return SlicePanic;
        }
        ghost var st := LexStep(source, pos, ln);
        PrependPrepend(ts, es, st.tokens, st.errors, ScanFrom(source, current, line));
      }
      tokens := tokens + [Token(EndOfFile, line)];
      if errors == [] {
        r := ScanResult.Ok(tokens);
      } else {
        r := ScanResult.Err(errors);
      }
    }
  }

  /** scan_tokens(content): a fresh scanner run over `content`. */
  method ScanTokens(content: seq<byte>) returns (r: ScanResult)
    ensures r == Scan(content)
  {
    var scanner := new Scanner();
    r := scanner.ScanTokens(content);
  }
}
