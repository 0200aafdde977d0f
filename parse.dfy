/** The current parser (ipic_parse/src/lib.rs) over the tokens of the current
    lexer. A `Parser` holds the token stream, read through a position, and its
    two callback tables; `parse_statement` dispatches on the next token.

    `parse_unary_prefix` peeks its operator without consuming it and calls
    `parse_statement` again on the same stream, so the recursion never ends
    and the real program exhausts its stack. The model bounds the recursion by
    a stack `depth` and reports `StackOverflow` when it is used up. The
    iterator of `create_parse_stream` is unbounded; the model takes the number
    of items the consumer asks for, `demand`. */
module Parse {
  import opened Wrappers
  import opened TokenGrammar
  import Lex = Tokenize

  /** The syntax tree of ipic_parse/src/ast/mod.rs. */
  datatype Node =
    | Integer(value: int32)
    | Binary(lhs: Node, rhs: Node, op: TokenKind)
    | Unary(val: Node, op: TokenKind)

  /** The prefix handlers a token can be registered with. */
  datatype PrefixFn = SelfTestFn | UnaryPrefixFn

  /** Why a call does not return normally: a panic, or a recursion deeper
      than the stack. */
  datatype Abort = StackOverflow | LexFailure(cause: Lex.LexError) | UnwrapOnNone

  /** The result of a parsing call and the position it leaves the stream at. */
  datatype Step = Step(result: Result<Option<Node>, Abort>, pos: nat)

  /** The next token of the stream after `pos` tokens: `None` at the end of
      the input, the lexer's panic where lexing stopped. */
  function NextAt(lx: Lex.Lexed, pos: nat): Result<Option<TokenKind>, Lex.LexError>
  {
    if pos < |lx.kinds| then Success(Some(lx.kinds[pos]))
    else if lx.failure.Some? then Failure(lx.failure.value)
    else Success(None)
  }

  /** The operators `register_prefixes` binds to `parse_unary_prefix`. */
  const UnaryOps: seq<TokenKind> := [Decrement, Increment, Minus, Plus]

  /** `m` after inserting the first `n` unary operators. */
  function Inserted(m: map<TokenKind, PrefixFn>, n: nat): map<TokenKind, PrefixFn>
    requires n <= |UnaryOps|
  {
    if n == 0 then m else Inserted(m, n - 1)[UnaryOps[n - 1] := UnaryPrefixFn]
  }

  /** `register_prefixes` applied to the table `m`. */
  function Registered(m: map<TokenKind, PrefixFn>): map<TokenKind, PrefixFn>
  {
    Inserted(m[LBrace := SelfTestFn], |UnaryOps|)
  }

  /** The prefix table of a new parser. */
  function PrefixTable(): map<TokenKind, PrefixFn>
  {
    map[LBrace := SelfTestFn, Decrement := UnaryPrefixFn, Increment := UnaryPrefixFn,
        Minus := UnaryPrefixFn, Plus := UnaryPrefixFn]
  }

  /** `register_prefixes` on the empty tables of `new` builds that table. */
  lemma RegisteredTable()
    ensures Registered(map[]) == PrefixTable()
  {
    var m0: map<TokenKind, PrefixFn> := map[LBrace := SelfTestFn];
    assert Inserted(m0, 1) == m0[Decrement := UnaryPrefixFn];
    assert Inserted(m0, 2) == m0[Decrement := UnaryPrefixFn][Increment := UnaryPrefixFn];
    assert Inserted(m0, 3) == m0[Decrement := UnaryPrefixFn][Increment := UnaryPrefixFn][Minus := UnaryPrefixFn];
  }

  /** After `new`, the prefix table has exactly the keys `( -- ++ - +`; `(`
      is `self_test` and the four operators are `parse_unary_prefix`. */
  lemma PrefixTableContents()
    ensures PrefixTable().Keys == {LBrace, Decrement, Increment, Minus, Plus}
    ensures PrefixTable()[LBrace] == SelfTestFn
    ensures forall k :: k in PrefixTable() && k != LBrace ==> PrefixTable()[k] == UnaryPrefixFn
  {
  }

  /** `parse_literal`: whatever the literal, the node is `INTEGER(10)`. */
  function ParseLiteral(lit: LiteralKind): (n: Node)
    ensures n.Integer? && n.value == 10
  {
    Integer(10)
  }

  /** `self_test`: consumes the next token, if any, and gives `INTEGER(10)`. */
  function SelfTestSpec(lx: Lex.Lexed, pos: nat): (r: Step)
    requires pos <= |lx.kinds|
    ensures r.pos <= |lx.kinds|
  {
    match NextAt(lx, pos)
    case Failure(e) => Step(Failure(LexFailure(e)), pos)
    case Success(None) => Step(Success(Some(Integer(10))), pos)
    case Success(Some(_)) => Step(Success(Some(Integer(10))), pos + 1)
  }

  /** `parse_statement` with table `table` and `depth` frames of stack left:
      a literal is not consumed; a kind with no prefix handler gives `None`. */
  function StatementSpec(lx: Lex.Lexed, table: map<TokenKind, PrefixFn>, pos: nat, depth: nat): (r: Step)
    requires pos <= |lx.kinds|
    ensures pos <= r.pos <= |lx.kinds|
    decreases depth, 1
  {
    match NextAt(lx, pos)
    case Failure(e) => Step(Failure(LexFailure(e)), pos)
    case Success(None) => Step(Success(None), pos)
    case Success(Some(k)) =>
      if k.Literal? then Step(Success(Some(ParseLiteral(k.lit))), pos)
      else if k !in table then Step(Success(None), pos)
      else match table[k]
        case SelfTestFn => SelfTestSpec(lx, pos)
        case UnaryPrefixFn => UnarySpec(lx, table, pos, depth)
  }

  /** `parse_unary_prefix`: the operator is peeked, not consumed, and the
      operand is a whole statement whose `None` is an `unwrap` panic. */
  function UnarySpec(lx: Lex.Lexed, table: map<TokenKind, PrefixFn>, pos: nat, depth: nat): (r: Step)
    requires pos <= |lx.kinds|
    ensures pos <= r.pos <= |lx.kinds|
    decreases depth, 0
  {
    if depth == 0 then Step(Failure(StackOverflow), pos)
    else match NextAt(lx, pos)
      case Failure(e) => Step(Failure(LexFailure(e)), pos)
      case Success(None) => Step(Failure(UnwrapOnNone), pos)
      case Success(Some(op)) =>
        var inner := StatementSpec(lx, table, pos, depth - 1);
        match inner.result
        case Failure(e) => Step(Failure(e), inner.pos)
        case Success(None) => Step(Failure(UnwrapOnNone), inner.pos)
        case Success(Some(n)) => Step(Success(Some(Unary(n, op))), inner.pos)
  }

  /** How the consumer's pulls on the iterator of `create_parse_stream` end:
      a `None` from `parse_statement`, the consumer's demand met, or a call
      that did not return. */
  datatype StreamEnd = Exhausted | DemandMet | Aborted(why: Abort)

  datatype NodeStream = NodeStream(nodes: seq<Node>, end: StreamEnd)

  /** Up to `demand` results of `parse_statement`, in order, ending at the
      first `None`. */
  function StreamSpec(lx: Lex.Lexed, table: map<TokenKind, PrefixFn>, pos: nat, depth: nat, demand: nat): (r: NodeStream)
    requires pos <= |lx.kinds|
    decreases demand
  {
    if demand == 0 then NodeStream([], DemandMet)
    else
      var st := StatementSpec(lx, table, pos, depth);
      match st.result
      case Failure(e) => NodeStream([], Aborted(e))
      case Success(None) => NodeStream([], Exhausted)
      case Success(Some(n)) =>
        var rest := StreamSpec(lx, table, st.pos, depth, demand - 1);
        NodeStream([n] + rest.nodes, rest.end)
  }

  /** `nodes` followed by the stream `s`. */
  function Prepend(nodes: seq<Node>, s: NodeStream): NodeStream
  {
    NodeStream(nodes + s.nodes, s.end)
  }

  lemma PrependTwice(a: seq<Node>, b: seq<Node>, s: NodeStream)
    ensures Prepend(a, Prepend(b, s)) == Prepend(a + b, s)
  {
    assert a + (b + s.nodes) == (a + b) + s.nodes;
  }

  /** One pull on the stream: the outcome of `parse_statement` decides
      whether the stream ends here or goes on with one more node. */
  lemma StreamPull(lx: Lex.Lexed, table: map<TokenKind, PrefixFn>, pos: nat, depth: nat, demand: nat)
    requires pos <= |lx.kinds| && demand > 0
    ensures var st := StatementSpec(lx, table, pos, depth);
      StreamSpec(lx, table, pos, depth, demand) ==
        match st.result
        case Failure(e) => NodeStream([], Aborted(e))
        case Success(None) => NodeStream([], Exhausted)
        case Success(Some(n)) => Prepend([n], StreamSpec(lx, table, st.pos, depth, demand - 1))
  {
  }

  // ---------------------------------------------------------------------------
  // The parser object.

  class Parser {
    const lexed: Lex.Lexed
    var pos: nat
    /** The keys of `infix_callback`; no infix handler exists. */
    var infix: set<TokenKind>
    var prefix: map<TokenKind, PrefixFn>

    ghost predicate Valid()
      reads this
    {
      pos <= |lexed.kinds|
    }

    /** `Parser::new`: empty tables, then `register_prefixes`. */
    constructor (lx: Lex.Lexed)
      ensures Valid() && lexed == lx && pos == 0
      ensures infix == {} && prefix == PrefixTable()
    {
      lexed := lx;
      pos := 0;
      infix := {};
      prefix := map[];
      new;
      RegisterPrefixes();
      RegisteredTable();
    }

    /** `register_prefixes`: `(` to `self_test`, then the four unary
        operators to `parse_unary_prefix`, one insertion at a time. */
    method RegisterPrefixes()
      modifies this
      ensures prefix == Registered(old(prefix))
      ensures pos == old(pos) && infix == old(infix)
    {
      prefix := prefix[LBrace := SelfTestFn];
      ghost var start := prefix;
      for i := 0 to |UnaryOps|
        invariant prefix == Inserted(start, i)
        invariant pos == old(pos) && infix == old(infix)
      {
        prefix := prefix[UnaryOps[i] := UnaryPrefixFn];
      }
    }

    /** `self_test`: prints and consumes the next token. */
    method SelfTest() returns (r: Result<Option<Node>, Abort>)
      requires Valid()
      modifies this
      ensures Valid() && Step(r, pos) == SelfTestSpec(lexed, old(pos))
      ensures prefix == old(prefix) && infix == old(infix)
    {
      var next := NextAt(lexed, pos);
      match next {
        case Failure(e) =>
          return Failure(LexFailure(e));
        case Success(t) =>
          if t.Some? {
            pos := pos + 1;
          }
          return Success(Some(Integer(10)));
      }
    }

    /** `parse_statement` with `depth` frames of stack left. */
    method ParseStatement(depth: nat) returns (r: Result<Option<Node>, Abort>)
      requires Valid()
      modifies this
      ensures Valid() && Step(r, pos) == StatementSpec(lexed, prefix, old(pos), depth)
      ensures prefix == old(prefix) && infix == old(infix)
      decreases depth, 1
    {
      var peeked := NextAt(lexed, pos);
      match peeked {
        case Failure(e) =>
          return Failure(LexFailure(e));
        case Success(None) =>
          return Success(None);
        case Success(Some(k)) =>
          if k.Literal? {
            return Success(Some(ParseLiteral(k.lit)));
          }
          if k !in prefix {
            return Success(None);
          }
          match prefix[k] {
            case SelfTestFn =>
              r := SelfTest();
            case UnaryPrefixFn =>
              r := ParseUnaryPrefix(depth);
          }
      }
    }

    /** `parse_unary_prefix` with `depth` frames of stack left. */
    method ParseUnaryPrefix(depth: nat) returns (r: Result<Option<Node>, Abort>)
      requires Valid()
      modifies this
      ensures Valid() && Step(r, pos) == UnarySpec(lexed, prefix, old(pos), depth)
      ensures prefix == old(prefix) && infix == old(infix)
      decreases depth, 0
    {
      if depth == 0 {
        return Failure(StackOverflow);
      }
      var peeked := NextAt(lexed, pos);
      match peeked {
        case Failure(e) =>
          return Failure(LexFailure(e));
        case Success(None) =>
          return Failure(UnwrapOnNone);
        case Success(Some(op)) =>
          var inner := ParseStatement(depth - 1);
          match inner {
            case Failure(e) =>
              return Failure(e);
            case Success(None) =>
              return Failure(UnwrapOnNone);
            case Success(Some(n)) =>
              return Success(Some(Unary(n, op)));
          }
      }
    }
  }

  /** `create_parse_stream`: tokenize `input`, build a parser, and pull up to
      `demand` nodes from `parse_statement`, stopping at the first `None`. */
  method CreateParseStream(input: string, depth: nat, demand: nat) returns (r: NodeStream)
    ensures r == StreamSpec(Lex.TokenStream(input, 0, 0), PrefixTable(), 0, depth, demand)
  {
    var lx := Lex.Tokenize(input);
    var parser := new Parser(lx);
    ghost var table := PrefixTable();
    var nodes: seq<Node> := [];
    var left := demand;
    while left > 0
      invariant parser.Valid() && parser.lexed == lx && parser.prefix == table
      invariant StreamSpec(lx, table, 0, depth, demand) ==
        Prepend(nodes, StreamSpec(lx, table, parser.pos, depth, left))
      decreases left
    {
      StreamPull(lx, table, parser.pos, depth, left);
      var n := parser.ParseStatement(depth);
      match n {
        case Failure(e) =>
          assert nodes + [] == nodes;
          return NodeStream(nodes, Aborted(e));
        case Success(None) =>
          assert nodes + [] == nodes;
          return NodeStream(nodes, Exhausted);
        case Success(Some(node)) =>
          PrependTwice(nodes, [node], StreamSpec(lx, table, parser.pos, depth, left - 1));
          nodes := nodes + [node];
          left := left - 1;
      }
    }
    assert nodes + [] == nodes;
    return NodeStream(nodes, DemandMet);
  }

  // ---------------------------------------------------------------------------
  // Properties of the parser.

  /** What `parse_statement` does on each kind of head token, for the table
      of a new parser: the end of input is `None`; a literal gives
      `INTEGER(10)` and is not consumed; `(` gives `INTEGER(10)` and is
      consumed; a kind with no handler is `None` and nothing is consumed. */
  lemma {:induction false} StatementOutcomes(lx: Lex.Lexed, pos: nat, depth: nat)
    requires pos <= |lx.kinds|
    ensures NextAt(lx, pos) == Success(None) ==>
      StatementSpec(lx, PrefixTable(), pos, depth) == Step(Success(None), pos)
    ensures pos < |lx.kinds| && lx.kinds[pos].Literal? ==>
      StatementSpec(lx, PrefixTable(), pos, depth) == Step(Success(Some(Integer(10))), pos)
    ensures pos < |lx.kinds| && lx.kinds[pos] == LBrace ==>
      StatementSpec(lx, PrefixTable(), pos, depth) == Step(Success(Some(Integer(10))), pos + 1)
    ensures pos < |lx.kinds| && !lx.kinds[pos].Literal? && lx.kinds[pos] !in PrefixTable() ==>
      StatementSpec(lx, PrefixTable(), pos, depth) == Step(Success(None), pos)
  {
    PrefixTableContents();
  }

  /** `parse_unary_prefix` never returns: whatever the stack depth, a unary
      operator at the head of the stream exhausts it, and nothing is
      consumed. */
  lemma {:induction false} UnaryOverflows(lx: Lex.Lexed, pos: nat, depth: nat)
    requires pos < |lx.kinds| && lx.kinds[pos] in UnaryOps
    ensures UnarySpec(lx, PrefixTable(), pos, depth) == Step(Failure(StackOverflow), pos)
    ensures StatementSpec(lx, PrefixTable(), pos, depth) == Step(Failure(StackOverflow), pos)
    decreases depth
  {
    PrefixTableContents();
    if depth > 0 {
      UnaryOverflows(lx, pos, depth - 1);
    }
  }

  /** `parse_statement` gives a node exactly when the head token is a
      literal or `(`, and that node is always `INTEGER(10)`. */
  lemma {:induction false} NodeIffLiteralOrParen(lx: Lex.Lexed, pos: nat, depth: nat)
    requires pos <= |lx.kinds|
    ensures var r := StatementSpec(lx, PrefixTable(), pos, depth).result;
      r.Success? && r.value.Some? <==> pos < |lx.kinds| && (lx.kinds[pos].Literal? || lx.kinds[pos] == LBrace)
    ensures var r := StatementSpec(lx, PrefixTable(), pos, depth).result;
      r.Success? && r.value.Some? ==> r.value.value == Integer(10)
  {
    StatementOutcomes(lx, pos, depth);
    PrefixTableContents();
    if pos < |lx.kinds| && lx.kinds[pos] in UnaryOps {
      UnaryOverflows(lx, pos, depth);
    }
  }

  /** The stream holds at most `demand` nodes, all `INTEGER(10)`; it ends
      with `DemandMet` exactly when it holds `demand` of them. */
  lemma {:induction false} StreamShape(lx: Lex.Lexed, pos: nat, depth: nat, demand: nat)
    requires pos <= |lx.kinds|
    ensures var r := StreamSpec(lx, PrefixTable(), pos, depth, demand);
      && |r.nodes| <= demand
      && (r.end == DemandMet <==> |r.nodes| == demand)
      && forall i :: 0 <= i < |r.nodes| ==> r.nodes[i] == Integer(10)
    decreases demand
  {
    if demand > 0 {
      NodeIffLiteralOrParen(lx, pos, depth);
      var st := StatementSpec(lx, PrefixTable(), pos, depth);
      if st.result.Success? && st.result.value.Some? {
        StreamShape(lx, st.pos, depth, demand - 1);
      }
    }
  }

  /** A literal at the head is never consumed, so the stream repeats
      `INTEGER(10)` for as long as the consumer pulls. */
  lemma {:induction false} LiteralRepeats(lx: Lex.Lexed, pos: nat, depth: nat, demand: nat)
    requires pos < |lx.kinds| && lx.kinds[pos].Literal?
    ensures StreamSpec(lx, PrefixTable(), pos, depth, demand) ==
      NodeStream(seq(demand, _ => Integer(10)), DemandMet)
    decreases demand
  {
    if demand > 0 {
      StatementOutcomes(lx, pos, depth);
      LiteralRepeats(lx, pos, depth, demand - 1);
      assert seq(demand, _ => Integer(10)) == [Integer(10)] + seq(demand - 1, _ => Integer(10));
    }
  }

  /** Tokens that are all `(` up to the end of input give one `INTEGER(10)`
      each, then the stream ends. */
  lemma {:induction false} ParensStream(lx: Lex.Lexed, pos: nat, depth: nat, demand: nat)
    requires pos <= |lx.kinds| && lx.failure.None?
    requires forall i :: pos <= i < |lx.kinds| ==> lx.kinds[i] == LBrace
    requires demand > |lx.kinds| - pos
    ensures StreamSpec(lx, PrefixTable(), pos, depth, demand) ==
      NodeStream(seq(|lx.kinds| - pos, _ => Integer(10)), Exhausted)
    decreases |lx.kinds| - pos
  {
    StatementOutcomes(lx, pos, depth);
    if pos < |lx.kinds| {
      ParensStream(lx, pos + 1, depth, demand - 1);
      assert seq(|lx.kinds| - pos, _ => Integer(10)) ==
        [Integer(10)] + seq(|lx.kinds| - (pos + 1), _ => Integer(10));
    }
  }

  /** The stream of an input of `n` opening parentheses is `n` times
      `INTEGER(10)`, then its end; for `((` that is `INTEGER(10)` twice. */
  lemma {:induction false} ParensInput(n: nat, depth: nat, demand: nat)
    requires demand > n
    ensures StreamSpec(Lex.TokenStream(seq(n, _ => '('), 0, 0), PrefixTable(), 0, depth, demand) ==
      NodeStream(seq(n, _ => Integer(10)), Exhausted)
    ensures n == 2 ==> Lex.TokenStream("((", 0, 0) == Lex.TokenStream(seq(n, _ => '('), 0, 0)
  {
    Lex.OpenParens(n, 0, 0);
    ParensStream(Lex.TokenStream(seq(n, _ => '('), 0, 0), 0, depth, demand);
    if n == 2 {
      assert seq(n, _ => '(') == "((";
    }
  }
}
