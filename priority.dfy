/** Precedence levels of the current parser (ipic_parse/src/priority_lvl.rs).
    The derived ordering of `PriorityLevel` is the order of its discriminants,
    `Rank`. */
module Priority {
  import TokenGrammar

  datatype PriorityLevel = Lowest | Equal | Cmp | SumSub | DivMul | Prefix | LBrace

  /** The discriminant of a level: `Lowest` is 0, each next level one more. */
  function Rank(l: PriorityLevel): (n: nat)
    ensures n <= 6
  {
    match l
    case Lowest => 0
    case Equal => 1
    case Cmp => 2
    case SumSub => 3
    case DivMul => 4
    case Prefix => 5
    case LBrace => 6
  }

  /** `a < b` in the derived ordering. */
  predicate Below(a: PriorityLevel, b: PriorityLevel)
  {
    Rank(a) < Rank(b)
  }

  /** The levels form a strict total order, from `Lowest` up to `LBrace`. */
  lemma LevelOrder(a: PriorityLevel, b: PriorityLevel, c: PriorityLevel)
    ensures Below(Lowest, Equal) && Below(Equal, Cmp) && Below(Cmp, SumSub)
    ensures Below(SumSub, DivMul) && Below(DivMul, Prefix) && Below(Prefix, LBrace)
    ensures !Below(a, a)
    ensures a == b || Below(a, b) || Below(b, a)
    ensures Below(a, b) && Below(b, c) ==> Below(a, c)
    ensures !Below(a, Lowest) && !Below(LBrace, a)
  {
  }

  /** `get_tok_priority`: the level of each token kind. Exactly `(` is at
      the top; `/` and `*` bind tighter than `+` and `-`, those tighter than
      `<` and `>`, those tighter than `==`; every other kind is `Lowest`. */
  function TokPriority(k: TokenGrammar.TokenKind): (l: PriorityLevel)
    ensures l == LBrace <==> k == TokenGrammar.LBrace
    ensures l == DivMul <==> k == TokenGrammar.Slash || k == TokenGrammar.Star
    ensures l == SumSub <==> k == TokenGrammar.Plus || k == TokenGrammar.Minus
    ensures l == Cmp <==> k == TokenGrammar.Lt || k == TokenGrammar.Mt
    ensures l == Equal <==> k == TokenGrammar.DoubleEqual
    ensures l != Prefix
  {
    match k
    case LBrace => LBrace
    case Slash => DivMul
    case Star => DivMul
    case Plus => SumSub
    case Minus => SumSub
    case Lt => Cmp
    case Mt => Cmp
    case DoubleEqual => Equal
    case _ => Lowest
  }

  /** `*` binds tighter than `+`, `+` than `<`, `<` than `==`, and `==` than
      `;`; no token is above `(`. */
  lemma BindingOrder(k: TokenGrammar.TokenKind)
    ensures Below(TokPriority(TokenGrammar.Plus), TokPriority(TokenGrammar.Star))
    ensures Below(TokPriority(TokenGrammar.Lt), TokPriority(TokenGrammar.Plus))
    ensures Below(TokPriority(TokenGrammar.DoubleEqual), TokPriority(TokenGrammar.Lt))
    ensures Below(TokPriority(TokenGrammar.Semicolon), TokPriority(TokenGrammar.DoubleEqual))
    ensures !Below(TokPriority(TokenGrammar.LBrace), TokPriority(k))
  {
  }
}
