/** Precedence levels of the first parser (src/parser/priority.rs). Its level
    enum is the same as the current parser's, so `Priority.PriorityLevel` and
    its order are used; the first lexer's tokens reach only four levels. */
module OldPriority {
  import OldGrammar
  import opened Priority

  /** `get_tok_priority`: `(` is at the top, `/` and `*` above `+` and `-`,
      every other kind `Lowest`; `Equal`, `Cmp` and `Prefix` are never
      returned. */
  function TokPriority(k: OldGrammar.OldTokenKind): (l: PriorityLevel)
    ensures l == LBrace <==> k == OldGrammar.LBrace
    ensures l == DivMul <==> k == OldGrammar.Div || k == OldGrammar.Mul
    ensures l == SumSub <==> k == OldGrammar.Add || k == OldGrammar.Sub
    ensures l in {Lowest, SumSub, DivMul, LBrace}
  {
    match k
    case LBrace => LBrace
    case Div => DivMul
    case Mul => DivMul
    case Add => SumSub
    case Sub => SumSub
    case _ => Lowest
  }

  /** `*` and `/` bind tighter than `+` and `-`, which bind tighter than
      `;` and the literals. */
  lemma BindingOrder(lit: OldGrammar.OldTokenKind)
    requires lit.Int?
    ensures Below(TokPriority(OldGrammar.Add), TokPriority(OldGrammar.Mul))
    ensures Below(TokPriority(OldGrammar.Semicolon), TokPriority(OldGrammar.Add))
    ensures TokPriority(lit) == TokPriority(OldGrammar.Semicolon) == Lowest
  {
  }
}
