/**
 * What the scanner promises, stated about the functions that specify it
 * (`LexStep`, `ScanFrom`, `Scan`) and therefore about `Scanner.ScanTokens`,
 * which is proved equal to them.
 */
module ScannerProperties {
  import opened Wrappers
  import opened Bytes
  import opened Floats
  import opened Tokens
  import opened Scanner

  /* ---------------------------------------------------------------------- */
  /* Lexeme boundaries                                                      */
  /* ---------------------------------------------------------------------- */

  /** `CloseQuote` finds the first quote after `i`, or stops at the last byte. */
  lemma {:induction false} CloseQuoteFirst(src: seq<byte>, i: nat)
    requires i < |src|
    ensures forall j :: i < j < CloseQuote(src, i) ==> src[j] != QUOTE
    ensures CloseQuote(src, i) == |src| - 1 || src[CloseQuote(src, i)] == QUOTE
    ensures CloseQuote(src, i) == i <==> i + 1 == |src|
    decreases |src| - i
  {
    if i + 1 < |src| && src[i + 1] != QUOTE {
      CloseQuoteFirst(src, i + 1);
    }
  }

  /** A comment: no token, and the scan resumes at the next newline (or the end). */
  lemma CommentStep(src: seq<byte>, s: nat, line: nat)
    requires s + 1 < |src| && src[s] == SLASH && src[s + 1] == SLASH
    ensures var r := LexStep(src, s, line);
      r.Step? && r.tokens == [] && r.errors == [] && r.line == line
      && (forall j :: s + 1 < j < r.next ==> src[j] != NEWLINE)
      && (r.next == |src| || src[r.next] == NEWLINE)
  {
    RunEndMaximal(src, s + 1, NotNewline);
  }

  /** The end of a string scan that recorded no error: the token for the bytes between the quotes. */
  lemma StringEndClean(src: seq<byte>, s: nat, e: nat, line: nat)
    requires s <= e < |src|
    ensures var r := StringEnd(src, s, e, line);
      r.Step? && r.errors == [] ==>
        s < e && e + 1 < |src| && r.next == e + 2 && r.line == line
        && r.tokens == [Token(String(src[s + 1..e]), line)]
  {
  }

  /**
   * A string literal, scanned as written: a crash when the opening quote is
   * the last byte, and "unterminated" exactly when no quote follows before
   * the last byte.
   */
  lemma StringStepOutcome(src: seq<byte>, s: nat, line: nat)
    requires s < |src| && src[s] == QUOTE
    ensures var r := StringStep(src, s, line);
      && (r.Panicked? <==> s + 1 == |src|)
      && (r.Step? ==>
            (UnterimatedString(r.line) in r.errors <==> forall j :: s < j < |src| - 1 ==> src[j] != QUOTE))
  {
    CloseQuoteFirst(src, s);
  }

  /** The bytes between the quotes are checked as UTF-8: a `Utf8` error exactly when they are not well-formed. */
  lemma StringStepUtf8(src: seq<byte>, s: nat, line: nat)
    requires s + 1 < |src| && src[s] == QUOTE
    ensures var r := StringStep(src, s, line);
      r.Step? && (Utf8 in r.errors <==> !ValidUtf8(src[s + 1..CloseQuote(src, s)]))
  {
    CloseQuoteFirst(src, s);
  }

  /** A string literal without errors: one token holding exactly the bytes between the quotes. */
  lemma StringStepToken(src: seq<byte>, s: nat, line: nat)
    requires s < |src| && src[s] == QUOTE
    ensures var r := StringStep(src, s, line);
      var k := CloseQuote(src, s);
      r.Step? && r.errors == [] ==>
        && r.next == k + 2
        && s < k && k + 1 < |src| && src[k] == QUOTE
        && (forall j :: s < j < k ==> src[j] != QUOTE)
        && r.line == line + Newlines(src[s + 1..k])
        && r.tokens == [Token(String(src[s + 1..k]), r.line)]
  {
    var e := CloseQuote(src, s);
    CloseQuoteFirst(src, s);
    StringEndClean(src, s, e, line + Newlines(src[s + 1..e + 1]));
    if s < e {
      NewlinesSnoc(src[s + 1..e], src[e]);
      assert src[s + 1..e + 1] == src[s + 1..e] + [src[e]];
    }
  }

  /** Digits, `.`, digits: `DotIndex` finds that `.`. */
  lemma FractionLexeme(lexeme: seq<byte>, k: nat)
    requires k + 1 < |lexeme| && lexeme[k] == DOT && 0 < k
    requires forall j :: 0 <= j < |lexeme| && j != k ==> IsDigit(lexeme[j])
    ensures IsNumberLexeme(lexeme)
  {
    assert DotIndex(lexeme) == k;
  }

  /** Digits only: no `.` at all. */
  lemma WholeLexeme(lexeme: seq<byte>)
    requires 0 < |lexeme| && forall j :: 0 <= j < |lexeme| ==> IsDigit(lexeme[j])
    ensures IsNumberLexeme(lexeme) && DotIndex(lexeme) == |lexeme|
  {
    assert DotIndex(lexeme) == |lexeme|;
    assert lexeme[..|lexeme|] == lexeme;
  }

  /** The bytes `NumberEnd` takes form a lexeme of the number grammar, and no digit follows them. */
  lemma NumberLexeme(src: seq<byte>, s: nat)
    requires s < |src| && IsDigit(src[s])
    ensures var e := NumberEnd(src, s);
      && IsNumberLexeme(src[s..e + 1])
      && (e + 1 == |src| || !IsDigit(src[e + 1]))
      && (DotIndex(src[s..e + 1]) == e + 1 - s ==> !FractionFollows(src, e))
  {
    var whole := RunEnd(src, s, IsDigit);
    RunEndMaximal(src, s, IsDigit);
    var lexeme := src[s..NumberEnd(src, s) + 1];
    if FractionFollows(src, whole) {
      RunEndMaximal(src, whole + 1, IsDigit);
      FractionLexeme(lexeme, whole + 1 - s);
      assert DotIndex(lexeme) < |lexeme| by {
        assert lexeme[whole + 1 - s] == DOT;
      }
    } else {
      WholeLexeme(lexeme);
    }
  }

  /** A number literal: the longest lexeme of the number grammar, and its value. */
  lemma NumberStepSpec(src: seq<byte>, s: nat, line: nat)
    requires s < |src| && IsDigit(src[s])
    ensures var r := NumberStep(src, s, line);
      var lexeme := src[s..r.next];
      && IsNumberLexeme(lexeme)
      && r.tokens == [Token(Number(Finite(LexemeValue(lexeme))), line)]
      && (r.next == |src| || !IsDigit(src[r.next]))
      && (DotIndex(lexeme) == |lexeme| ==> !FractionFollows(src, r.next - 1))
  {
    NumberLexeme(src, s);
  }

  /** An identifier: the longest run of identifier bytes, a keyword exactly when the table has it. */
  lemma IdentifierStepSpec(src: seq<byte>, s: nat, line: nat)
    requires s < |src| && IsIdentChar(src[s])
    ensures var r := IdentifierStep(src, s, line);
      var lexeme := src[s..r.next];
      && (forall j :: s <= j < r.next ==> IsIdentChar(src[j]))
      && (r.next == |src| || !IsIdentChar(src[r.next]))
      && AllAscii(lexeme)
      && |r.tokens| == 1 && r.tokens[0].line == line
      && var kind := r.tokens[0].kind;
      && (kind.Identifier? <==> AsciiText(lexeme) !in Keywords)
      && (kind.Identifier? ==> kind.name == AsciiText(lexeme))
      && (!kind.Identifier? ==> IsKeywordKind(kind) && Keywords[AsciiText(lexeme)] == kind)
  {
    RunEndMaximal(src, s, IsIdentChar);
    IdentLexemeAscii(src, s);
    KeywordTable();
  }

  /* ---------------------------------------------------------------------- */
  /* One pass of the loop                                                   */
  /* ---------------------------------------------------------------------- */

  /** `!`, `=`, `<`, `>`: the two-byte token exactly when `=` follows. */
  lemma OperatorDispatch(src: seq<byte>, pos: nat, line: nat)
    requires pos < |src|
    ensures var r := LexStep(src, pos, line);
      var eq := pos + 1 < |src| && src[pos + 1] == EQUALS;
      && (src[pos] == BANG ==> r.tokens == [Token(if eq then NotEqual else Bang, line)])
      && (src[pos] == EQUALS ==> r.tokens == [Token(if eq then Equal else Assign, line)])
      && (src[pos] == LESS ==> r.tokens == [Token(if eq then LessThanOrEqual else LessThan, line)])
      && (src[pos] == GREATER ==> r.tokens == [Token(if eq then GreaterThanOrEqual else GreaterThan, line)])
      && (src[pos] in {BANG, EQUALS, LESS, GREATER} ==>
            r.Step? && r.errors == [] && r.line == line && r.next == if eq then pos + 2 else pos + 1)
  {
  }

  /** The bytes no branch of the `match` in scan_tokens handles. */
  predicate Unhandled(b: byte) {
    && SingleCharKind(b).None?
    && b !in {BANG, EQUALS, LESS, GREATER, SLASH, QUOTE, SPACE, CARRIAGE_RETURN, TAB, NEWLINE, UNDERSCORE}
    && !IsDigit(b) && !IsAlpha(b)
  }

  /** Only a string literal that runs to the last byte takes the cursor past the end. */
  lemma CursorStep(src: seq<byte>, pos: nat, line: nat)
    requires pos < |src|
    ensures var r := LexStep(src, pos, line);
      r.Step? && r.next == |src| + 1 ==>
        src[pos] == QUOTE && forall j :: pos < j < |src| - 1 ==> src[j] != QUOTE
  {
    if src[pos] == QUOTE {
      CloseQuoteFirst(src, pos);
    }
  }

  /** Space, `\r` and `\t` are skipped; `\n` is skipped and starts the next line. */
  lemma WhitespaceStep(src: seq<byte>, pos: nat, line: nat)
    requires pos < |src| && src[pos] in {SPACE, CARRIAGE_RETURN, TAB, NEWLINE}
    ensures LexStep(src, pos, line) == Step([], [], pos + 1, if src[pos] == NEWLINE then line + 1 else line)
  {
  }

  /** An unhandled byte records one `UnexpectedCharacter` on the current line, and the scan goes on at the next byte. */
  lemma UnexpectedStep(src: seq<byte>, pos: nat, line: nat)
    requires pos < |src| && Unhandled(src[pos])
    ensures ScanFrom(src, pos, line) == Prepend([], [UnexpectedCharacter(src[pos] as char, line)], ScanFrom(src, pos + 1, line))
  {
  }

  /* ---------------------------------------------------------------------- */
  /* The whole scan                                                         */
  /* ---------------------------------------------------------------------- */

  /**
   * Tokens that end with the one `EndOfFile` token and whose lines never
   * decrease, starting from `line`.
   */
  ghost predicate Ordered(ts: seq<Token>, line: nat) {
    && |ts| > 0 && ts[|ts| - 1].kind == EndOfFile
    && (forall i :: 0 <= i < |ts| - 1 ==> ts[i].kind != EndOfFile)
    && (forall i, j :: 0 <= i <= j < |ts| ==> line <= ts[i].line <= ts[j].line)
  }

  /** A token on line `line'` in front of tokens ordered from `line'` keeps the lines in order. */
  lemma ConsLines(pre: seq<Token>, rest: seq<Token>, line: nat, line': nat)
    requires |pre| == 1 && line <= line' == pre[0].line
    requires forall i, j :: 0 <= i <= j < |rest| ==> line' <= rest[i].line <= rest[j].line
    ensures forall i, j :: 0 <= i <= j < |pre + rest| ==> line <= (pre + rest)[i].line <= (pre + rest)[j].line
  {
    var all := pre + rest;
    assert forall i :: 1 <= i < |all| ==> all[i] == rest[i - 1];
    forall i, j | 0 <= i <= j < |all|
      ensures line <= all[i].line <= all[j].line
    {
      if i == 0 && 0 < j {
        assert rest[0].line <= rest[j - 1].line;
      }
    }
  }

  /** A token other than `EndOfFile` in front of tokens that end with the only `EndOfFile`. */
  lemma ConsEnds(pre: seq<Token>, rest: seq<Token>)
    requires |pre| == 1 && pre[0].kind != EndOfFile
    requires |rest| > 0 && rest[|rest| - 1].kind == EndOfFile
    requires forall i :: 0 <= i < |rest| - 1 ==> rest[i].kind != EndOfFile
    ensures (pre + rest)[|pre + rest| - 1].kind == EndOfFile
    ensures forall i :: 0 <= i < |pre + rest| - 1 ==> (pre + rest)[i].kind != EndOfFile
  {
    var all := pre + rest;
    assert forall i :: 1 <= i < |all| ==> all[i] == rest[i - 1];
  }

  /** One step's tokens, all on the step's final line, in front of an ordered rest. */
  lemma PrependOrdered(pre: seq<Token>, rest: seq<Token>, line: nat, line': nat)
    requires line <= line' && |pre| <= 1
    requires forall t :: t in pre ==> t.kind != EndOfFile && t.line == line'
    requires Ordered(rest, line')
    ensures Ordered(pre + rest, line)
  {
    if pre == [] {
      assert pre + rest == rest;
    } else {
      assert pre[0] in pre;
      ConsLines(pre, rest, line, line');
      ConsEnds(pre, rest);
    }
  }

  /**
   * The tokens of a scan that does not crash end with the one `EndOfFile`
   * token, and their lines never decrease, starting from the line the scan
   * started on.
   */
  lemma {:induction false} ScanFromShape(src: seq<byte>, pos: nat, line: nat)
    ensures var r := ScanFrom(src, pos, line);
      r.Run? ==> Ordered(r.tokens, line)
    decreases |src| - pos
  {
    if pos < |src| {
      var st := LexStep(src, pos, line);
      if st.Step? {
        ScanFromShape(src, st.next, st.line);
        var rest := ScanFrom(src, st.next, st.line);
        if rest.Run? {
          PrependOrdered(st.tokens, rest.tokens, line, st.line);
        }
      }
    }
  }

  /** A scan that succeeds hands back tokens ending with exactly one `EndOfFile`. */
  lemma ScanShape(src: seq<byte>)
    ensures var r := Scan(src);
      r.Ok? ==>
        && |r.tokens| > 0 && r.tokens[|r.tokens| - 1].kind == EndOfFile
        && (forall i :: 0 <= i < |r.tokens| - 1 ==> r.tokens[i].kind != EndOfFile)
        && (forall i :: 0 <= i < |r.tokens| ==> 1 <= r.tokens[i].line)
  {
    ScanFromShape(src, 0, 1);
  }

  /** The errors for a run of unhandled bytes: one per byte, in order; no token but `EndOfFile`. */
  function UnexpectedErrors(bs: seq<byte>, line: nat): (es: seq<ScanError>)
    ensures |es| == |bs|
  {
    seq(|bs|, k requires 0 <= k < |bs| => UnexpectedCharacter(bs[k] as char, line))
  }

  /** Unhandled bytes each record an error on the current line, and scanning goes on. */
  lemma {:induction false} UnexpectedRun(src: seq<byte>, pos: nat, line: nat)
    requires pos <= |src| && forall j :: pos <= j < |src| ==> Unhandled(src[j])
    ensures ScanFrom(src, pos, line) == Run([Token(EndOfFile, line)], UnexpectedErrors(src[pos..], line))
    decreases |src| - pos
  {
    if pos < |src| {
      UnexpectedStep(src, pos, line);
      UnexpectedRun(src, pos + 1, line);
      assert [UnexpectedCharacter(src[pos] as char, line)] + UnexpectedErrors(src[pos + 1..], line)
          == UnexpectedErrors(src[pos..], line);
    }
  }

  /* ---------------------------------------------------------------------- */
  /* Concrete inputs                                                        */
  /* ---------------------------------------------------------------------- */

  /** `@#$`: three errors from one pass, each on line 1, and no token. */
  lemma UnexpectedExample()
    ensures Scan([64, 35, 36])
         == ScanResult.Err([UnexpectedCharacter('@', 1), UnexpectedCharacter('#', 1), UnexpectedCharacter('$', 1)])
  {
    UnexpectedRun([64, 35, 36], 0, 1);
  }

  /** The lexemes of the number test of src/scanner.rs, `123.32` and `123.12`, take their exact values. */
  lemma NumberValueExample()
    ensures LexemeValue([49, 50, 51, 46, 51, 50]) == 123.32
    ensures LexemeValue([49, 50, 51, 46, 49, 50]) == 123.12
  {
    var a: seq<byte>, b: seq<byte> := [49, 50, 51, 46, 51, 50], [49, 50, 51, 46, 49, 50];
    assert DotIndex(a) == 3 && DotIndex(b) == 3;
    assert a[..3] == b[..3] == [49, 50, 51];
    assert a[4..] == [51, 50] && b[4..] == [49, 50];
    DigitValues();
    assert Pow10(2) == 100;
  }

  /** The digit strings of `NumberValueExample`. */
  lemma DigitValues()
    ensures DigitsValue([49, 50, 51]) == 123
    ensures DigitsValue([51, 50]) == 32 && DigitsValue([49, 50]) == 12
  {
    var one: seq<byte> := [49];
    var three: seq<byte> := [51];
    assert one[..0] == [] && three[..0] == [];
    assert DigitsValue(one) == 1 && DigitsValue(three) == 3;
    var twelve: seq<byte> := [49, 50];
    assert twelve[..1] == one;
    assert DigitsValue(twelve) == 12;
    var d: seq<byte> := [49, 50, 51];
    assert d[..2] == twelve;
    var e: seq<byte> := [51, 50];
    assert e[..1] == three;
  }

  /* ---------------------------------------------------------------------- */
  /* handle_string as written, and as intended                              */
  /* ---------------------------------------------------------------------- */

  /** `"a"+ `: the string token, and the scan resumes at index 4; the `+` at index 3 is never looked at. */
  lemma StringSkipsNextByte()
    ensures StringStep([34, 97, 34, 43, 32], 0, 1) == Step([Token(String([97]), 1)], [], 4, 1)
  {
    var src: seq<byte> := [34, 97, 34, 43, 32];
    assert CloseQuote(src, 0) == 2;
    assert src[1..3] == [97, 34] && Newlines([97, 34]) == 0;
    assert src[1..2] == [97] && ValidUtf8([97]);
  }

  /** `"a"`: the closing quote is the last byte, yet the string is reported unterminated. */
  lemma ClosingQuoteAtEndUnterminated()
    ensures StringStep([34, 97, 34], 0, 1) == Step([Token(String([97]), 1)], [UnterimatedString(1)], 4, 1)
  {
    var src: seq<byte> := [34, 97, 34];
    assert CloseQuote(src, 0) == 2;
    assert src[1..3] == [97, 34] && Newlines([97, 34]) == 0;
    assert src[1..2] == [97] && ValidUtf8([97]);
  }

  /** `"`: a lone opening quote at the end crashes on the slice. */
  lemma LoneQuotePanics()
    ensures StringStep([34], 0, 1) == Panicked
    ensures Scan([34]) == SlicePanic
  {
  }

  /**
   * handle_string as its authors evidently meant it: the text between the
   * quotes, the scan resuming right after the closing quote, and
   * "unterminated" exactly when no closing quote follows.
   */
  function IntendedStringStep(src: seq<byte>, s: nat, line: nat): (r: Step)
    requires s < |src|
  {
    var e := CloseQuote(src, s);
    var line' := line + Newlines(src[s + 1..e + 1]);
    if s == e || src[e] != QUOTE then Step([], [UnterimatedString(line')], |src|, line')
    else if ValidUtf8(src[s + 1..e]) then Step([Token(String(src[s + 1..e]), line')], [], e + 1, line')
    else Step([], [Utf8], e + 1, line')
  }

  lemma IntendedStringStepSpec(src: seq<byte>, s: nat, line: nat)
    requires s < |src| && src[s] == QUOTE
    ensures var r := IntendedStringStep(src, s, line);
      && r.Step? && s < r.next <= |src|
      && (r.errors == [UnterimatedString(r.line)] <==> forall j :: s < j < |src| ==> src[j] != QUOTE)
      && (r.errors != [UnterimatedString(r.line)] ==>
            var k := r.next - 1;
            && s < k && src[k] == QUOTE
            && (forall j :: s < j < k ==> src[j] != QUOTE)
            && (r.tokens != [] <==> ValidUtf8(src[s + 1..k]))
            && (r.tokens != [] ==> r.tokens == [Token(String(src[s + 1..k]), r.line)]))
  {
    CloseQuoteFirst(src, s);
  }

  /** `"a"` at the start of a source, closed at byte 2. */
  lemma IntendedQuotedA(src: seq<byte>)
    requires src == [34, 97, 34] || src == [34, 97, 34, 43, 32]
    ensures IntendedStringStep(src, 0, 1) == Step([Token(String([97]), 1)], [], 3, 1)
  {
    assert CloseQuote(src, 0) == 2;
    assert src[1..3] == [97, 34] && Newlines([97, 34]) == 0;
    assert src[1..2] == [97] && ValidUtf8([97]);
  }

  /** A lone quote: unterminated, and the step ends past it. */
  lemma IntendedLoneQuote()
    ensures IntendedStringStep([34], 0, 1) == Step([], [UnterimatedString(1)], 1, 1)
  {
    var lone: seq<byte> := [34];
    assert CloseQuote(lone, 0) == 0 && lone[1..1] == [];
  }

  /** On the inputs above the intended step scans the `+`, accepts `"a"` and does not crash. */
  lemma IntendedStringExamples()
    ensures IntendedStringStep([34, 97, 34, 43, 32], 0, 1) == Step([Token(String([97]), 1)], [], 3, 1)
    ensures IntendedStringStep([34, 97, 34], 0, 1) == Step([Token(String([97]), 1)], [], 3, 1)
    ensures IntendedStringStep([34], 0, 1) == Step([], [UnterimatedString(1)], 1, 1)
  {
    IntendedQuotedA([34, 97, 34, 43, 32]);
    IntendedQuotedA([34, 97, 34]);
    IntendedLoneQuote();
  }

}
