/** Token kinds of the first lexer (src/lexer/grammar.rs). The number base is
    the same enum as in the current crate, `TokenGrammar.NumberBase`.
    `Whitespace` is the kind that lexer returns for a run of blanks. */
module OldGrammar {
  import TokenGrammar

  datatype OldTokenKind =
    | Ident(name: string)
    | Int(base: TokenGrammar.NumberBase, val: string)
    | Add
    | Sub
    | Mul
    | Div
    | Decrement
    | Increment
    | Semicolon
    | LBrace
    | RBrace
    | Eof
    | Whitespace
}
