/** Token kinds of the current tokenizer crate (ipic_tokenize/src/grammar.rs).
    Datatype equality is structural (same variant, equal payloads), as the
    derived `PartialEq` of the Rust enums. */
module TokenGrammar {
  import opened Wrappers

  datatype NumberBase = Binary | Octal | Decimal | Hex

  datatype LiteralKind = Int(base: NumberBase, val: string) | Str(payload: string)

  datatype ReservedIdent = Function | Struct | Let | Void | I32 | F32

  datatype TokenKind =
    | Literal(lit: LiteralKind)
    | Ident(name: string)
    | Reserved(word: ReservedIdent)
    | Plus
    | Minus
    | Star
    | Slash
    | Decrement
    | Increment
    | Equal
    | DoubleEqual
    | Lt
    | Mt
    | Semicolon
    | Colon
    | LBrace
    | RBrace
    | CLBrace
    | CRBrace
    | DQuote
    | Quote
    | Ampersand
    | Dot
    | Range
    | Return
    | Print
    | Println
    | Immutable
    | Arrow
    | Eof

  /** A token: its kind and its (row, column) position. */
  datatype Token = Token(kind: TokenKind, pos: (int32, int32))

  /** The discriminant of a base, which is its radix. */
  function Radix(b: NumberBase): (r: nat)
    ensures r in {2, 8, 10, 16}
    ensures b == Binary <==> r == 2
    ensures b == Octal <==> r == 8
    ensures b == Decimal <==> r == 10
    ensures b == Hex <==> r == 16
  {
    match b
    case Binary => 2
    case Octal => 8
    case Decimal => 10
    case Hex => 16
  }

  /** The derived ordering of bases (by discriminant). */
  predicate BaseLess(a: NumberBase, b: NumberBase)
  {
    Radix(a) < Radix(b)
  }

  /** The base ordering is a strict total order: Binary < Octal < Decimal < Hex. */
  lemma BaseOrder(a: NumberBase, b: NumberBase, c: NumberBase)
    ensures BaseLess(Binary, Octal) && BaseLess(Octal, Decimal) && BaseLess(Decimal, Hex)
    ensures !BaseLess(a, a)
    ensures a == b || BaseLess(a, b) || BaseLess(b, a)
    ensures BaseLess(a, b) && BaseLess(b, c) ==> BaseLess(a, c)
  {
  }

  /** `Token::uninited`: an end-of-input token at (0, 0). */
  function Uninited(): (t: Token)
    ensures t.kind == Eof && t.pos == (0, 0)
  {
    Token(Eof, (0, 0))
  }
}
