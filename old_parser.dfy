/** The first parser (src/parser/mod.rs): integer literals joined by `+`,
    statements ended by `;`. It reads a `Peekable` over the first lexer's
    tokens; the lexer runs on demand, so its panic is met only when the parser
    asks for the token at which lexing stopped. Every `unwrap`,
    `unimplemented!` and `panic!` of the parser is a `ParseError`.

    Each parsing method is proved against a function on the lexed tokens and
    a position (`PrefixSpec`, `ExprSpec`, `TailSpec`, `PostfixSpec`,
    `StmntSpec`, `DecodeSpec`). */
module OldParser {
  import opened Wrappers
  import opened OldGrammar
  import opened OldLexer
  import TokenGrammar
  import IntParse
  import LexerCursor
  import Lex = Tokenize

  /** The syntax tree of src/ast/mod.rs. */
  datatype Expression = Integer(value: int32) | Binary(l: Expression, r: Expression, op: char)

  /** The ways the parser stops with a panic. */
  datatype ParseError =
    | UnwrapOnNone
    | PrefixUnimplemented
    | PostfixUnimplemented
    | InvalidNumber(kind: IntParse.IntErrorKind)
    | UnpredictedToken
    | LexPanic(cause: OldLexError)

  /** An expression and the number of tokens consumed when it was parsed. */
  datatype Parsed = Parsed(expr: Expression, pos: nat)

  /** The token the stream gives after `pos` tokens: `None` at the end of the
      input, the lexer's panic where lexing stopped. */
  function NextAt(lx: OldLexed, pos: nat): Result<Option<OldTokenKind>, OldLexError>
  {
    if pos < |lx.kinds| then Success(Some(lx.kinds[pos]))
    else if lx.failure.Some? then Failure(lx.failure.value)
    else Success(None)
  }

  /** The stream ends an expression at `pos`: the input is over there, or the
      next token is `;`. */
  predicate StopsAt(lx: OldLexed, pos: nat)
  {
    NextAt(lx, pos) == Success(None) || NextAt(lx, pos) == Success(Some(Semicolon))
  }

  /** `Peekable<impl Iterator<Item = TokenKind>>` over the lexed tokens. */
  class Peekable {
    const lexed: OldLexed
    var pos: nat

    ghost predicate Valid()
      reads this
    {
      pos <= |lexed.kinds|
    }

    constructor (lx: OldLexed)
      ensures Valid() && lexed == lx && pos == 0
    {
      lexed := lx;
      pos := 0;
    }

    /** `peek`: the next token, without consuming it. */
    function Peek(): Result<Option<OldTokenKind>, OldLexError>
      reads this
    {
      NextAt(lexed, pos)
    }

    /** `next`: the next token, consumed; at the end it stays at the end. */
    method Next() returns (r: Result<Option<OldTokenKind>, OldLexError>)
      requires Valid()
      modifies this
      ensures Valid() && r == NextAt(lexed, old(pos))
      ensures pos == if r.Success? && r.value.Some? then old(pos) + 1 else old(pos)
    {
      r := NextAt(lexed, pos);
      if r.Success? && r.value.Some? {
        pos := pos + 1;
      }
    }
  }

  // ---------------------------------------------------------------------------
  // The parser as functions of the tokens and the position.

  /** `parse_to_num_expr`: the literal's text read in its base by
      `i32::from_str_radix`; an error is the panic of its `unwrap`. */
  function ParseToNumExpr(base: TokenGrammar.NumberBase, val: string): (r: Result<Expression, ParseError>)
    ensures r.Success? <==> IntParse.FromStrRadix(val, TokenGrammar.Radix(base)).Success?
    ensures r.Success? ==> r.value == Integer(IntParse.FromStrRadix(val, TokenGrammar.Radix(base)).value)
    ensures r.Failure? ==> r.error == InvalidNumber(IntParse.FromStrRadix(val, TokenGrammar.Radix(base)).error)
  {
    match IntParse.FromStrRadix(val, TokenGrammar.Radix(base))
    case Success(n) => Success(Integer(n))
    case Failure(k) => Failure(InvalidNumber(k))
  }

  /** `parse_prefix`: the next token must be an integer literal. */
  function PrefixSpec(lx: OldLexed, pos: nat): (r: Result<Parsed, ParseError>)
    requires pos <= |lx.kinds|
    ensures r.Success? ==> r.value.pos == pos + 1 <= |lx.kinds|
  {
    match NextAt(lx, pos)
    case Failure(e) => Failure(LexPanic(e))
    case Success(None) => Failure(UnwrapOnNone)
    case Success(Some(tok)) =>
      if tok.Int? then
        match ParseToNumExpr(tok.base, tok.val)
        case Success(e) => Success(Parsed(e, pos + 1))
        case Failure(err) => Failure(err)
      else Failure(PrefixUnimplemented)
  }

  /** `parse_expr`: a prefix, then the loop of `TailSpec`. */
  function ExprSpec(lx: OldLexed, pos: nat): (r: Result<Parsed, ParseError>)
    requires pos <= |lx.kinds|
    ensures r.Success? ==> pos < r.value.pos <= |lx.kinds|
    decreases |lx.kinds| - pos, 2
  {
    match PrefixSpec(lx, pos)
    case Failure(e) => Failure(e)
    case Success(p) => TailSpec(lx, p.expr, p.pos)
  }

  /** The `while let` loop of `parse_expr` with `left` parsed so far: it
      stops at the end or before a `;`, and otherwise hands `left` to
      `parse_postfix`. */
  function TailSpec(lx: OldLexed, left: Expression, pos: nat): (r: Result<Parsed, ParseError>)
    requires pos <= |lx.kinds|
    ensures r.Success? ==> pos <= r.value.pos <= |lx.kinds|
    decreases |lx.kinds| - pos, 1
  {
    match NextAt(lx, pos)
    case Failure(e) => Failure(LexPanic(e))
    case Success(None) => Success(Parsed(left, pos))
    case Success(Some(tok)) =>
      if tok == Semicolon then Success(Parsed(left, pos))
      else
        match PostfixSpec(lx, left, pos)
        case Failure(e) => Failure(e)
        case Success(p) => TailSpec(lx, p.expr, p.pos)
  }

  /** `parse_postfix`: the next token must be `+`; the right operand is a
      whole expression. */
  function PostfixSpec(lx: OldLexed, left: Expression, pos: nat): (r: Result<Parsed, ParseError>)
    requires pos <= |lx.kinds|
    ensures r.Success? ==> pos < r.value.pos <= |lx.kinds|
    decreases |lx.kinds| - pos, 0
  {
    match NextAt(lx, pos)
    case Failure(e) => Failure(LexPanic(e))
    case Success(None) => Failure(UnwrapOnNone)
    case Success(Some(tok)) =>
      if tok == Add then
        match ExprSpec(lx, pos + 1)
        case Failure(e) => Failure(e)
        case Success(p) => Success(Parsed(Binary(left, p.expr, '+'), p.pos))
      else Failure(PostfixUnimplemented)
  }

  /** `parse_expr_stmnt`: an expression, then a token that must be `;`. */
  function StmntSpec(lx: OldLexed, pos: nat): (r: Result<Parsed, ParseError>)
    requires pos <= |lx.kinds|
    ensures r.Success? ==> pos < r.value.pos <= |lx.kinds|
  {
    match ExprSpec(lx, pos)
    case Failure(e) => Failure(e)
    case Success(p) =>
      match NextAt(lx, p.pos)
      case Failure(e) => Failure(LexPanic(e))
      case Success(None) => Failure(UnwrapOnNone)
      case Success(Some(tok)) =>
        if tok == Semicolon then Success(Parsed(p.expr, p.pos + 1)) else Failure(UnpredictedToken)
  }

  /** `decode_text` from position `pos`: statements until the end of input. */
  function DecodeSpec(lx: OldLexed, pos: nat): (r: Result<seq<Expression>, ParseError>)
    requires pos <= |lx.kinds|
    decreases |lx.kinds| - pos
  {
    match NextAt(lx, pos)
    case Failure(e) => Failure(LexPanic(e))
    case Success(None) => Success([])
    case Success(Some(_)) =>
      match StmntSpec(lx, pos)
      case Failure(e) => Failure(e)
      case Success(p) =>
        match DecodeSpec(lx, p.pos)
        case Failure(e) => Failure(e)
        case Success(es) => Success([p.expr] + es)
  }

  // ---------------------------------------------------------------------------
  // The parser on a Peekable.

  /** A method's result and final position agree with a function's outcome. */
  predicate Agrees(r: Result<Expression, ParseError>, spec: Result<Parsed, ParseError>, pos: nat)
  {
    match spec
    case Success(p) => r == Success(p.expr) && pos == p.pos
    case Failure(e) => r == Failure(e)
  }

  method ParsePrefix(s: Peekable) returns (r: Result<Expression, ParseError>)
    requires s.Valid()
    modifies s
    ensures s.Valid() && Agrees(r, PrefixSpec(s.lexed, old(s.pos)), s.pos)
  {
    var token := s.Next();
    if token.Failure? {
      return Failure(LexPanic(token.error));
    }
    if token.value.None? {
      return Failure(UnwrapOnNone);
    }
    var tok := token.value.value;
    if tok.Int? {
      r := ParseToNumExpr(tok.base, tok.val);
    } else {
      r := Failure(PrefixUnimplemented);
    }
  }

  method ParsePostfix(s: Peekable, prefixExpr: Expression) returns (r: Result<Expression, ParseError>)
    requires s.Valid()
    modifies s
    ensures s.Valid() && Agrees(r, PostfixSpec(s.lexed, prefixExpr, old(s.pos)), s.pos)
    decreases |s.lexed.kinds| - s.pos, 0
  {
    var token := s.Next();
    if token.Failure? {
      return Failure(LexPanic(token.error));
    }
    if token.value.None? {
      return Failure(UnwrapOnNone);
    }
    if token.value.value == Add {
      var right := ParseExpr(s);
      if right.Failure? {
        return Failure(right.error);
      }
      r := Success(Binary(prefixExpr, right.value, '+'));
    } else {
      r := Failure(PostfixUnimplemented);
    }
  }

  method ParseExpr(s: Peekable) returns (r: Result<Expression, ParseError>)
    requires s.Valid()
    modifies s
    ensures s.Valid() && Agrees(r, ExprSpec(s.lexed, old(s.pos)), s.pos)
    decreases |s.lexed.kinds| - s.pos, 2
  {
    var prefix := ParsePrefix(s);
    if prefix.Failure? {
      return Failure(prefix.error);
    }
    var leftExpr := prefix.value;
    while true
      invariant s.Valid() && old(s.pos) < s.pos
      invariant ExprSpec(s.lexed, old(s.pos)) == TailSpec(s.lexed, leftExpr, s.pos)
      decreases |s.lexed.kinds| - s.pos
    {
      var tok := s.Peek();
      if tok.Failure? {
        return Failure(LexPanic(tok.error));
      }
      if tok.value.None? || tok.value.value == Semicolon {
        break;
      }
      var next := ParsePostfix(s, leftExpr);
      if next.Failure? {
        return Failure(next.error);
      }
      leftExpr := next.value;
    }
    r := Success(leftExpr);
  }

  method ParseExprStmnt(s: Peekable) returns (r: Result<Expression, ParseError>)
    requires s.Valid()
    modifies s
    ensures s.Valid() && Agrees(r, StmntSpec(s.lexed, old(s.pos)), s.pos)
  {
    var result := ParseExpr(s);
    if result.Failure? {
      return result;
    }
    var token := s.Next();
    if token.Failure? {
      return Failure(LexPanic(token.error));
    }
    if token.value.None? {
      return Failure(UnwrapOnNone);
    }
    if token.value.value == Semicolon {
      r := result;
    } else {
      r := Failure(UnpredictedToken);
    }
  }

  /** `pre` put in front of a successful outcome. */
  function Prepend(pre: seq<Expression>, r: Result<seq<Expression>, ParseError>): Result<seq<Expression>, ParseError>
  {
    match r
    case Success(es) => Success(pre + es)
    case Failure(e) => Failure(e)
  }

  lemma PrependTwice(a: seq<Expression>, b: seq<Expression>, r: Result<seq<Expression>, ParseError>)
    ensures Prepend(a, Prepend(b, r)) == Prepend(a + b, r)
    ensures Prepend([], r) == r
  {
    if r.Success? {
      assert a + (b + r.value) == (a + b) + r.value;
      assert [] + r.value == r.value;
    }
  }

  /** `decode_text`: parses statements while the stream has a next token. */
  method DecodeText(input: string) returns (r: Result<seq<Expression>, ParseError>)
    ensures r == DecodeSpec(TokenStream(input), 0)
  {
    var lx := Tokenize(input);
    var s := new Peekable(lx);
    var expressions: seq<Expression> := [];
    PrependTwice([], [], DecodeSpec(lx, 0));
    while true
      invariant s.Valid() && s.lexed == lx
      invariant DecodeSpec(lx, 0) == Prepend(expressions, DecodeSpec(lx, s.pos))
      decreases |lx.kinds| - s.pos
    {
      var token := s.Peek();
      if token.Failure? {
        return Failure(LexPanic(token.error));
      }
      if token.value.None? {
        break;
      }
      ghost var before := s.pos;
      var e := ParseExprStmnt(s);
      if e.Failure? {
        return Failure(e.error);
      }
      assert DecodeSpec(lx, before) == Prepend([e.value], DecodeSpec(lx, s.pos));
      PrependTwice(expressions, [e.value], DecodeSpec(lx, s.pos));
      expressions := expressions + [e.value];
    }
    assert expressions + [] == expressions;
    r := Success(expressions);
  }

  // ---------------------------------------------------------------------------
  // Properties of the first parser.

  /** The loop of `parse_expr` ends only at the end of input or before a `;`. */
  lemma {:induction false} TailStops(lx: OldLexed, left: Expression, pos: nat)
    requires pos <= |lx.kinds|
    ensures TailSpec(lx, left, pos).Success? ==> StopsAt(lx, TailSpec(lx, left, pos).value.pos)
    decreases |lx.kinds| - pos
  {
    var n := NextAt(lx, pos);
    if n.Success? && n.value.Some? && n.value.value != Semicolon {
      var q := PostfixSpec(lx, left, pos);
      if q.Success? {
        TailStops(lx, q.value.expr, q.value.pos);
      }
    }
  }

  /** So does a whole expression. */
  lemma {:induction false} ExprStops(lx: OldLexed, pos: nat)
    requires pos <= |lx.kinds|
    ensures ExprSpec(lx, pos).Success? ==> StopsAt(lx, ExprSpec(lx, pos).value.pos)
  {
    var p := PrefixSpec(lx, pos);
    if p.Success? {
      TailStops(lx, p.value.expr, p.value.pos);
    }
  }

  /** No part of an expression ever fails with "unpredicted token": only
      `parse_expr_stmnt` raises it. */
  lemma {:induction false} ExprNotUnpredicted(lx: OldLexed, pos: nat)
    requires pos <= |lx.kinds|
    ensures ExprSpec(lx, pos) != Failure(UnpredictedToken)
    decreases |lx.kinds| - pos, 2
  {
    var p := PrefixSpec(lx, pos);
    if p.Success? {
      TailNotUnpredicted(lx, p.value.expr, p.value.pos);
    }
  }

  lemma {:induction false} TailNotUnpredicted(lx: OldLexed, left: Expression, pos: nat)
    requires pos <= |lx.kinds|
    ensures TailSpec(lx, left, pos) != Failure(UnpredictedToken)
    decreases |lx.kinds| - pos, 1
  {
    var n := NextAt(lx, pos);
    if n.Success? && n.value.Some? && n.value.value != Semicolon {
      PostfixNotUnpredicted(lx, left, pos);
      var q := PostfixSpec(lx, left, pos);
      if q.Success? {
        TailNotUnpredicted(lx, q.value.expr, q.value.pos);
      }
    }
  }

  lemma {:induction false} PostfixNotUnpredicted(lx: OldLexed, left: Expression, pos: nat)
    requires pos <= |lx.kinds|
    ensures PostfixSpec(lx, left, pos) != Failure(UnpredictedToken)
    decreases |lx.kinds| - pos, 0
  {
    if pos < |lx.kinds| && lx.kinds[pos] == Add {
      ExprNotUnpredicted(lx, pos + 1);
    }
  }

  /** A statement is an expression followed by its `;`, which it consumes; an
      expression that runs to the end of input is the `unwrap` panic; the
      "unpredicted token" panic can never happen, because an expression
      stops only before `;` or at the end. */
  lemma {:induction false} StatementEnd(lx: OldLexed, pos: nat)
    requires pos <= |lx.kinds|
    ensures StmntSpec(lx, pos).Success? ==>
      var e := ExprSpec(lx, pos).value;
      && StmntSpec(lx, pos).value == Parsed(e.expr, e.pos + 1)
      && lx.kinds[e.pos] == Semicolon
    ensures ExprSpec(lx, pos).Success? && NextAt(lx, ExprSpec(lx, pos).value.pos) == Success(None) ==>
      StmntSpec(lx, pos) == Failure(UnwrapOnNone)
    ensures StmntSpec(lx, pos) != Failure(UnpredictedToken)
  {
    ExprStops(lx, pos);
    ExprNotUnpredicted(lx, pos);
  }

  /** A successful `decode_text` lexed the whole input without a panic, and
      the input, if it has tokens, ends with `;`. */
  lemma {:induction false} DecodeNeedsSemicolon(lx: OldLexed, pos: nat)
    requires pos <= |lx.kinds|
    ensures DecodeSpec(lx, pos).Success? ==> lx.failure.None?
    ensures DecodeSpec(lx, pos).Success? && pos < |lx.kinds| ==> lx.kinds[|lx.kinds| - 1] == Semicolon
    decreases |lx.kinds| - pos
  {
    if pos < |lx.kinds| {
      StatementEnd(lx, pos);
      var st := StmntSpec(lx, pos);
      if st.Success? {
        DecodeNeedsSemicolon(lx, st.value.pos);
      }
    }
  }

  /** An expression must start with an integer literal: any other token is
      the prefix `unimplemented!`, and an integer literal never is. */
  lemma {:induction false} OperandRequired(lx: OldLexed, pos: nat, tok: OldTokenKind)
    requires pos <= |lx.kinds| && NextAt(lx, pos) == Success(Some(tok))
    ensures !tok.Int? <==> PrefixSpec(lx, pos) == Failure(PrefixUnimplemented)
    ensures !tok.Int? ==> ExprSpec(lx, pos) == Failure(PrefixUnimplemented)
  {
  }

  /** After an operand, only `+` continues an expression: any token other
      than `+` and `;` is the postfix `unimplemented!`. */
  lemma {:induction false} OnlyPlusContinues(lx: OldLexed, left: Expression, pos: nat, tok: OldTokenKind)
    requires pos <= |lx.kinds| && NextAt(lx, pos) == Success(Some(tok))
    requires tok != Add && tok != Semicolon
    ensures TailSpec(lx, left, pos) == Failure(PostfixUnimplemented)
  {
  }

  /** An integer token whose text `from_str_radix` accepts. */
  predicate ValidLiteral(tok: OldTokenKind)
  {
    tok.Int? && IntParse.FromStrRadix(tok.val, TokenGrammar.Radix(tok.base)).Success?
  }

  /** The expression of a valid literal. */
  function Operand(tok: OldTokenKind): Expression
    requires ValidLiteral(tok)
  {
    Integer(IntParse.FromStrRadix(tok.val, TokenGrammar.Radix(tok.base)).value)
  }

  /** The literals `lits` joined by `+`, right-nested: `a + b + c` is
      `a + (b + c)`. */
  function RightNest(lits: seq<OldTokenKind>): Expression
    requires |lits| > 0 && forall i :: 0 <= i < |lits| ==> ValidLiteral(lits[i])
  {
    if |lits| == 1 then Operand(lits[0]) else Binary(Operand(lits[0]), RightNest(lits[1..]), '+')
  }

  /** One turn of the loop of `parse_expr`: `+` and a right operand that
      ends before `;` or at the end finish the expression. */
  lemma {:induction false} PlusStep(lx: OldLexed, left: Expression, pos: nat, right: Parsed)
    requires pos < |lx.kinds| && lx.kinds[pos] == Add
    requires ExprSpec(lx, pos + 1) == Success(right) && StopsAt(lx, right.pos)
    ensures TailSpec(lx, left, pos) == Success(Parsed(Binary(left, right.expr, '+'), right.pos))
  {
    var whole := Binary(left, right.expr, '+');
    assert PostfixSpec(lx, left, pos) == Success(Parsed(whole, right.pos));
    assert TailSpec(lx, whole, right.pos) == Success(Parsed(whole, right.pos));
  }

  /** From `pos` on, the tokens are `lits[0] + lits[1] + ... + lits[n-1]`. */
  predicate ChainAt(lx: OldLexed, pos: nat, lits: seq<OldTokenKind>)
  {
    && |lits| > 0
    && pos + 2 * |lits| - 1 <= |lx.kinds|
    && (forall i :: 0 <= i < |lits| ==> lx.kinds[pos + 2 * i] == lits[i])
    && (forall i :: 0 <= i < |lits| - 1 ==> lx.kinds[pos + 2 * i + 1] == Add)
  }

  /** A `+`-chain of valid literals that ends at the end of input or before a
      `;` is one expression, nested to the right, and every token of the
      chain is consumed. */
  lemma {:induction false} ChainParses(lx: OldLexed, pos: nat, lits: seq<OldTokenKind>)
    requires ChainAt(lx, pos, lits) && forall i :: 0 <= i < |lits| ==> ValidLiteral(lits[i])
    requires StopsAt(lx, pos + 2 * |lits| - 1)
    ensures ExprSpec(lx, pos) == Success(Parsed(RightNest(lits), pos + 2 * |lits| - 1))
    decreases |lits|
  {
    ChainHead(lx, pos, lits);
    if |lits| > 1 {
      ChainTail(lx, pos, lits);
      ChainParses(lx, pos + 2, lits[1..]);
      PlusStep(lx, Operand(lits[0]), pos + 1, Parsed(RightNest(lits[1..]), pos + 2 * |lits| - 1));
    }
  }

  /** The first literal of a chain is its first operand. */
  lemma {:induction false} ChainHead(lx: OldLexed, pos: nat, lits: seq<OldTokenKind>)
    requires ChainAt(lx, pos, lits) && ValidLiteral(lits[0])
    ensures PrefixSpec(lx, pos) == Success(Parsed(Operand(lits[0]), pos + 1))
  {
    assert lx.kinds[pos] == lits[0];
  }

  /** After its first literal and `+`, a chain goes on with the rest. */
  lemma {:induction false} ChainTail(lx: OldLexed, pos: nat, lits: seq<OldTokenKind>)
    requires ChainAt(lx, pos, lits) && |lits| > 1
    ensures lx.kinds[pos + 1] == Add && ChainAt(lx, pos + 2, lits[1..])
  {
    var tail := lits[1..];
    assert lx.kinds[pos + 2 * 0 + 1] == Add;
    forall i | 0 <= i < |tail|
      ensures lx.kinds[pos + 2 + 2 * i] == tail[i]
    {
      assert lx.kinds[pos + 2 * (i + 1)] == lits[i + 1];
    }
    forall i | 0 <= i < |tail| - 1
      ensures lx.kinds[pos + 2 + 2 * i + 1] == Add
    {
      assert lx.kinds[pos + 2 * (i + 1) + 1] == Add;
    }
  }

  /** A chain followed by `;` is one statement, the `;` consumed. */
  lemma {:induction false} ChainStatement(lx: OldLexed, pos: nat, lits: seq<OldTokenKind>)
    requires ChainAt(lx, pos, lits) && forall i :: 0 <= i < |lits| ==> ValidLiteral(lits[i])
    requires pos + 2 * |lits| - 1 < |lx.kinds| && lx.kinds[pos + 2 * |lits| - 1] == Semicolon
    ensures StmntSpec(lx, pos) == Success(Parsed(RightNest(lits), pos + 2 * |lits|))
  {
    ChainParses(lx, pos, lits);
  }

  /** The number of `;` tokens among the tokens `from` to `to` (excluded). */
  function Semicolons(lx: OldLexed, from: nat, to: nat): nat
    requires from <= to <= |lx.kinds|
  {
    if from == to then 0 else Semicolons(lx, from, to - 1) + (if lx.kinds[to - 1] == Semicolon then 1 else 0)
  }

  /** Every node is an integer leaf or a `'+'` binary node. */
  predicate PlusOnly(e: Expression)
  {
    match e
    case Integer(_) => true
    case Binary(l, r, op) => op == '+' && PlusOnly(l) && PlusOnly(r)
  }

  /** An expression contains no `;`, and all its binary nodes are `'+'`. */
  lemma {:induction false} ExprShape(lx: OldLexed, pos: nat)
    requires pos <= |lx.kinds|
    ensures ExprSpec(lx, pos).Success? ==>
      Semicolons(lx, pos, ExprSpec(lx, pos).value.pos) == 0 && PlusOnly(ExprSpec(lx, pos).value.expr)
    decreases |lx.kinds| - pos, 2
  {
    var p := PrefixSpec(lx, pos);
    if p.Success? {
      TailShape(lx, p.value.expr, p.value.pos);
      var e := ExprSpec(lx, pos);
      if e.Success? {
        assert lx.kinds[pos].Int?;
        assert Semicolons(lx, pos, pos + 1) == 0;
        SemicolonsSplit(lx, pos, pos + 1, e.value.pos);
      }
    }
  }

  lemma {:induction false} TailShape(lx: OldLexed, left: Expression, pos: nat)
    requires pos <= |lx.kinds| && PlusOnly(left)
    ensures TailSpec(lx, left, pos).Success? ==>
      Semicolons(lx, pos, TailSpec(lx, left, pos).value.pos) == 0 && PlusOnly(TailSpec(lx, left, pos).value.expr)
    decreases |lx.kinds| - pos, 1
  {
    var n := NextAt(lx, pos);
    if n.Success? && n.value.Some? && n.value.value != Semicolon {
      PostfixShape(lx, left, pos);
      var q := PostfixSpec(lx, left, pos);
      if q.Success? {
        TailShape(lx, q.value.expr, q.value.pos);
        if TailSpec(lx, left, pos).Success? {
          SemicolonsSplit(lx, pos, q.value.pos, TailSpec(lx, left, pos).value.pos);
        }
      }
    }
  }

  lemma {:induction false} PostfixShape(lx: OldLexed, left: Expression, pos: nat)
    requires pos <= |lx.kinds| && PlusOnly(left)
    ensures PostfixSpec(lx, left, pos).Success? ==>
      Semicolons(lx, pos, PostfixSpec(lx, left, pos).value.pos) == 0 && PlusOnly(PostfixSpec(lx, left, pos).value.expr)
    decreases |lx.kinds| - pos, 0
  {
    if pos < |lx.kinds| && lx.kinds[pos] == Add {
      ExprShape(lx, pos + 1);
      var q := PostfixSpec(lx, left, pos);
      if q.Success? {
        assert Semicolons(lx, pos, pos + 1) == 0;
        SemicolonsSplit(lx, pos, pos + 1, q.value.pos);
      }
    }
  }

  /** Counting `;` over two adjacent ranges. */
  lemma {:induction false} SemicolonsSplit(lx: OldLexed, a: nat, b: nat, c: nat)
    requires a <= b <= c <= |lx.kinds|
    ensures Semicolons(lx, a, c) == Semicolons(lx, a, b) + Semicolons(lx, b, c)
    decreases c
  {
    if b < c {
      SemicolonsSplit(lx, a, b, c - 1);
    }
  }

  /** `decode_text` returns exactly one expression per `;` of the input,
      each built from integer leaves and `'+'` nodes only. */
  lemma {:induction false} OneExpressionPerSemicolon(lx: OldLexed, pos: nat)
    requires pos <= |lx.kinds|
    ensures DecodeSpec(lx, pos).Success? ==> |DecodeSpec(lx, pos).value| == Semicolons(lx, pos, |lx.kinds|)
    ensures DecodeSpec(lx, pos).Success? ==>
      forall i :: 0 <= i < |DecodeSpec(lx, pos).value| ==> PlusOnly(DecodeSpec(lx, pos).value[i])
    decreases |lx.kinds| - pos
  {
    if pos < |lx.kinds| {
      var st := StmntSpec(lx, pos);
      if st.Success? {
        StatementEnd(lx, pos);
        ExprShape(lx, pos);
        var e := ExprSpec(lx, pos).value;
        SemicolonsSplit(lx, pos, e.pos, st.value.pos);
        SemicolonsSplit(lx, pos, st.value.pos, |lx.kinds|);
        OneExpressionPerSemicolon(lx, st.value.pos);
      }
    }
  }

  /** The input of src/main.rs starts `0xa`: the hex digit `a` is not
      scanned, so the first literal is empty and parsing stops with the
      `Empty` error of `from_str_radix`. The same holds for `0x` followed by
      any character that is neither a digit nor `_`. */
  lemma {:induction false} HexLetterRejected(ch: char, t: string)
    requires ch != '_' && !Lex.IsDecimalDigit(ch)
    ensures DecodeSpec(TokenStream(['0', 'x', ch] + t), 0) == Failure(InvalidNumber(IntParse.Empty))
  {
    var input := ['0', 'x', ch] + t;
    HexLetterLost(ch, t);
    TokenStreamStep(input);
    var lx := TokenStream(input);
    assert lx.kinds[0] == Int(TokenGrammar.Hex, []);
    assert PrefixSpec(lx, 0) == Failure(InvalidNumber(IntParse.Empty));
  }

  /** An operand, `+`, then a `WHITESPACE` token: the right operand cannot
      start, so the statement is the prefix `unimplemented!`. */
  lemma {:induction false} BlankOperandRejected(lx: OldLexed, pos: nat)
    requires pos + 3 <= |lx.kinds| && ValidLiteral(lx.kinds[pos])
    requires lx.kinds[pos + 1] == Add && lx.kinds[pos + 2] == Whitespace
    ensures DecodeSpec(lx, pos) == Failure(PrefixUnimplemented)
  {
    OperandRequired(lx, pos + 2, Whitespace);
    assert PostfixSpec(lx, Operand(lx.kinds[pos]), pos + 1) == Failure(PrefixUnimplemented);
    assert ExprSpec(lx, pos) == Failure(PrefixUnimplemented);
  }

  /** An operand followed by a `WHITESPACE` token: the postfix
      `unimplemented!`. */
  lemma {:induction false} BlankAfterOperand(lx: OldLexed, pos: nat)
    requires pos + 2 <= |lx.kinds| && ValidLiteral(lx.kinds[pos]) && lx.kinds[pos + 1] == Whitespace
    ensures DecodeSpec(lx, pos) == Failure(PostfixUnimplemented)
  {
    OnlyPlusContinues(lx, Operand(lx.kinds[pos]), pos + 1, Whitespace);
    assert ExprSpec(lx, pos) == Failure(PostfixUnimplemented);
  }

  /** A lone `0` leaves the blank after it, which becomes a `WHITESPACE`
      token, so `0 + 1;` is rejected too, one token earlier than spaced text
      after any other number. */
  lemma {:induction false} SpacedZeroRejected(t: string)
    ensures DecodeSpec(TokenStream(['0', ' '] + t), 0) == Failure(PostfixUnimplemented)
  {
    var rest := TokenStream(t[LexerCursor.Span(Lex.IsWhitespace, t)..]);
    ZeroBlankStream(t, rest.kinds, rest.failure);
    IntParse.DecimalDigit('0');
    assert ['0'] == "0";
    BlankAfterOperand(TokenStream(['0', ' '] + t), 0);
  }

  /** Spaced text is rejected: the digit scan consumes the blank after a
      number, but the blank after `+` is lexed as a `WHITESPACE` token, and
      that token cannot start an operand. So `1 + 2 + 3;` is not parsed. */
  lemma {:induction false} SpacedPlusRejected(d: char, t: string)
    requires '1' <= d <= '9'
    ensures DecodeSpec(TokenStream([d, ' ', '+', ' '] + t), 0) == Failure(PrefixUnimplemented)
  {
    var rest := TokenStream(t[LexerCursor.Span(Lex.IsWhitespace, t)..]);
    SpacedPlusTokens(d, t, rest.kinds, rest.failure);
    IntParse.DecimalDigit(d);
    BlankOperandRejected(TokenStream([d, ' ', '+', ' '] + t), 0);
  }

  /** The tokens `a + b + c ;` of three one-digit literals: one statement,
      the sum nested to the right. */
  lemma {:induction false} DigitSumParses(lx: OldLexed, a: char, b: char, c: char)
    requires '1' <= a <= '9' && '1' <= b <= '9' && '1' <= c <= '9'
    requires lx.kinds == [Int(TokenGrammar.Decimal, [a]), Add, Int(TokenGrammar.Decimal, [b]), Add,
                          Int(TokenGrammar.Decimal, [c]), Semicolon]
    requires lx.failure == None
    ensures DecodeSpec(lx, 0) ==
      Success([Binary(Integer(((a as int) - ('0' as int)) as int32),
                      Binary(Integer(((b as int) - ('0' as int)) as int32),
                             Integer(((c as int) - ('0' as int)) as int32), '+'), '+')])
  {
    var lits := [lx.kinds[0], lx.kinds[2], lx.kinds[4]];
    IntParse.DecimalDigit(a);
    IntParse.DecimalDigit(b);
    IntParse.DecimalDigit(c);
    assert ChainAt(lx, 0, lits);
    ChainStatement(lx, 0, lits);
    assert lits[1..][1..] == lits[2..];
    assert RightNest(lits[1..]) == Binary(Operand(lits[1]), Operand(lits[2]), '+');
    assert RightNest(lits) == Binary(Operand(lits[0]), RightNest(lits[1..]), '+');
    assert Operand(lits[0]) == Integer(((a as int) - ('0' as int)) as int32);
    assert Operand(lits[1]) == Integer(((b as int) - ('0' as int)) as int32);
    assert Operand(lits[2]) == Integer(((c as int) - ('0' as int)) as int32);
    assert StmntSpec(lx, 0) == Success(Parsed(RightNest(lits), 6));
    assert NextAt(lx, 0) == Success(Some(lx.kinds[0]));
    assert DecodeSpec(lx, 6) == Success([]);
    assert [RightNest(lits)] + [] == [RightNest(lits)];
  }

  /** The same sum with each blank before the `+`: for digits `a`, `b`,
      `c`, every blank of `a +b +c ;` is consumed by the digit scan, the
      tokens are `a + b + c ;`, and the sum is nested to the right. */
  lemma {:induction false} TightSumParses(a: char, b: char, c: char)
    requires '1' <= a <= '9' && '1' <= b <= '9' && '1' <= c <= '9'
    ensures DecodeSpec(TokenStream([a, ' ', '+'] + ([b, ' ', '+'] + [c, ' ', ';'])), 0) ==
      Success([Binary(Integer(((a as int) - ('0' as int)) as int32),
                      Binary(Integer(((b as int) - ('0' as int)) as int32),
                             Integer(((c as int) - ('0' as int)) as int32), '+'), '+')])
  {
    TightSumTokens(a, b, c);
    DigitSumParses(TokenStream([a, ' ', '+'] + ([b, ' ', '+'] + [c, ' ', ';'])), a, b, c);
  }
}
