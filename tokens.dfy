/**
 * The tokens of the schema DSL and the lexer that produces them. The lexer's
 * scanning of characters is not part of this model: it is given the token
 * stream it would produce, and returns `EOF` for ever once that is exhausted.
 */
module Tokens {
  /** Token types; `Unset` is the zero value `""` a fresh parser holds before reading. */
  datatype TokenType =
    | Unset | Eof | Illegal | Newline
    | Ident | Entity | Relation | Permission
    | Sign | Hash | Assign | Dot
    | Lbrace | Rbrace | Lparen | Rparen
    | And | Or | Not
    | Space | Tab | SingleLineComment | MultiLineComment

  datatype Token = Token(kind: TokenType, literal: string)

  /** The zero token. */
  const ZeroToken := Token(Unset, "")

  /** What the lexer returns once its input is exhausted. */
  const EofToken := Token(Eof, "")

  /** `token.IsIgnores`: whitespace and comments, which the parser skips. */
  predicate IsIgnored(k: TokenType) {
    k == Space || k == Tab || k == SingleLineComment || k == MultiLineComment
  }

  /** `NextToken` on the token stream: the token at `pos` and the new position, or `EOF` at the end. */
  function LexNext(tokens: seq<Token>, pos: nat): (r: (Token, nat))
    ensures pos < |tokens| ==> r == (tokens[pos], pos + 1)
    ensures pos >= |tokens| ==> r == (EofToken, pos)
  {
    if pos < |tokens| then (tokens[pos], pos + 1) else (EofToken, pos)
  }

  /** The lexer object the parser reads from. */
  class Lexer {
    const tokens: seq<Token>
    var pos: nat

    constructor(tokens: seq<Token>)
      ensures this.tokens == tokens && pos == 0
    {
      this.tokens := tokens;
      pos := 0;
    }

    method NextToken() returns (t: Token)
      modifies this
      ensures (t, pos) == LexNext(tokens, old(pos))
    {
      if pos < |tokens| {
        t := tokens[pos];
        pos := pos + 1;
      } else {
        t := EofToken;
      }
    }
  }
}
