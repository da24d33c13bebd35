/** The tokens the scanner produces and the parser consumes, and the keyword table. */
module Tokens {
  import opened Bytes
  import opened Floats

  datatype TokenType =
    | LeftBracket | RightBracket | LeftBrace | RightBrace
    | Comma | Dot | Minus | Plus | Semicolon | Star
    | EndOfFile
    | Bang | NotEqual | Equal | Assign
    | LessThan | LessThanOrEqual | GreaterThan | GreaterThanOrEqual
    | Slash
    | String(text: seq<byte>)        // the UTF-8 bytes of a Rust `String`
    | Number(value: Float)
    | Identifier(name: string)
    | And | Class | Else | False | For | Fun | If | Nil | Or
    | Print | Return | Super | This | True | Var | While

  datatype Token = Token(kind: TokenType, line: nat)

  /** The sixteen reserved words and the token each one becomes. */
  const Keywords: map<string, TokenType> := map[
    "and" := And,
    "class" := Class,
    "else" := Else,
    "false" := False,
    "for" := For,
    "fun" := Fun,
    "if" := If,
    "nil" := Nil,
    "or" := Or,
    "print" := Print,
    "return" := Return,
    "super" := Super,
    "this" := This,
    "true" := True,
    "var" := Var,
    "while" := While
  ]

  predicate IsKeywordKind(k: TokenType) {
    k in {And, Class, Else, False, For, Fun, If, Nil, Or, Print, Return, Super, This, True, Var, While}
  }

  /** The reserved word a keyword token is written as. */
  function KeywordText(k: TokenType): string {
    match k
    case And => "and"
    case Class => "class"
    case Else => "else"
    case False => "false"
    case For => "for"
    case Fun => "fun"
    case If => "if"
    case Nil => "nil"
    case Or => "or"
    case Print => "print"
    case Return => "return"
    case Super => "super"
    case This => "this"
    case True => "true"
    case Var => "var"
    case While => "while"
    case _ => ""
  }

  /** Every word in the table becomes a keyword token. */
  lemma KeywordTable()
    ensures forall w :: w in Keywords ==> IsKeywordKind(Keywords[w])
  {
  }

  /** The token of a word gives the word back, so no two words share a token. */
  lemma KeywordsDistinct()
    ensures forall w :: w in Keywords ==> KeywordText(Keywords[w]) == w
  {
  }
}
