/** The first lexer (src/lexer/mod.rs): `advance_token` and its helpers on a
    `Cursor`, and `tokenize`. It reads numbers bump-first: the character that
    ends a number is consumed with it, and `_` discards the character after
    it. A run of blanks is a `Whitespace` token; any character without a rule
    (letters and `'\n'` included) stops lexing with a panic.

    As for the current lexer, each method is proved against a function on the
    unread input (`ScanDigits`, `LexNumber`, `NextToken`, `TokenStream`). */
module OldLexer {
  import opened Wrappers
  import opened OldGrammar
  import opened LexerCursor
  import TokenGrammar
  import Lex = Tokenize

  /** The panic on a character no rule accepts. */
  datatype OldLexError = UndefinedCharacter(ch: char)

  /** A token kind together with the unread input after it. */
  datatype OldLexeme = OldLexeme(kind: OldTokenKind, rest: string)

  /** What `tokenize` yields: the kinds before the end of input, and the panic
      that stopped it, if any. */
  datatype OldLexed = OldLexed(kinds: seq<OldTokenKind>, failure: Option<OldLexError>)

  /** `parse_num_to_str` on the unread input `s`: each character is consumed
      before it is looked at; a digit is kept, `_` is dropped together with
      the character after it, anything else (or the end) stops the scan and
      is consumed too. */
  function ScanDigits(s: string): (r: (string, string))
    ensures |r.1| <= |s|
    ensures s != [] ==> |r.1| < |s|
    decreases |s|
  {
    if s == [] then ([], [])
    else if s[0] == '_' then ScanDigits(if |s| >= 2 then s[2..] else [])
    else if Lex.IsDecimalDigit(s[0]) then
      var (d, rest) := ScanDigits(s[1..]);
      ([s[0]] + d, rest)
    else ([], s[1..])
  }

  /** `parse_num`: the radix prefix picks the base and is dropped; a `0`
      followed by a digit or `_` is scanned as a decimal without that `0`; a
      lone `0` is decimal `"0"`; any other first digit starts a decimal. */
  function LexNumber(first: char, t: string): (r: (OldTokenKind, string))
    requires Lex.IsDecimalDigit(first)
    ensures |r.1| <= |t|
  {
    if first == '0' then
      var la := Peek(t);
      if la == 'x' then
        var (d, rest) := ScanDigits(t[1..]);
        (Int(TokenGrammar.Hex, d), rest)
      else if la == 'b' then
        var (d, rest) := ScanDigits(t[1..]);
        (Int(TokenGrammar.Binary, d), rest)
      else if la == 'o' then
        var (d, rest) := ScanDigits(t[1..]);
        (Int(TokenGrammar.Octal, d), rest)
      else if Lex.IsDecimalDigit(la) || la == '_' then
        var (d, rest) := ScanDigits(t);
        (Int(TokenGrammar.Decimal, d), rest)
      else (Int(TokenGrammar.Decimal, "0"), t)
    else
      var (d, rest) := ScanDigits(t);
      (Int(TokenGrammar.Decimal, [first] + d), rest)
  }

  /** `advance_token` on the unread input `s`. */
  function NextToken(s: string): (r: Result<OldLexeme, OldLexError>)
    ensures r.Success? && r.value.kind != Eof ==> |r.value.rest| < |s|
  {
    if s == [] then Success(OldLexeme(Eof, []))
    else
      var c, t := s[0], s[1..];
      match c
      case '+' => Success(OldLexeme(Add, t))
      case '-' => Success(OldLexeme(Sub, t))
      case '/' => Success(OldLexeme(Div, t))
      case '*' => Success(OldLexeme(Mul, t))
      case ';' => Success(OldLexeme(Semicolon, t))
      case _ =>
        if Lex.IsWhitespace(c) then Success(OldLexeme(Whitespace, t[Span(Lex.IsWhitespace, t)..]))
        else if Lex.IsDecimalDigit(c) then
          var (k, rest) := LexNumber(c, t);
          Success(OldLexeme(k, rest))
        else Failure(UndefinedCharacter(c))
  }

  /** `tokenize` from the unread input `s`: the kinds up to the first `Eof`
      (which is not yielded) or up to the panic. */
  function TokenStream(s: string): (r: OldLexed)
    decreases |s|
  {
    match NextToken(s)
    case Failure(e) => OldLexed([], Some(e))
    case Success(lx) =>
      if lx.kind == Eof then OldLexed([], None)
      else
        var tail := TokenStream(lx.rest);
        OldLexed([lx.kind] + tail.kinds, tail.failure)
  }

  /** One step of `TokenStream`, unfolded. */
  lemma {:induction false} TokenStreamStep(s: string)
    ensures NextToken(s).Failure? ==> TokenStream(s) == OldLexed([], Some(NextToken(s).error))
    ensures NextToken(s).Success? && NextToken(s).value.kind == Eof ==> TokenStream(s) == OldLexed([], None)
    ensures NextToken(s).Success? && NextToken(s).value.kind != Eof ==>
      var lx := NextToken(s).value;
      TokenStream(s) == OldLexed([lx.kind] + TokenStream(lx.rest).kinds, TokenStream(lx.rest).failure)
  {
  }

  // ---------------------------------------------------------------------------
  // The imperative lexer on a Cursor.

  method ParseNumToStr(c: Cursor) returns (result: string)
    requires c.Valid()
    modifies c
    ensures c.Valid() && c.input == old(c.input) && c.line == old(c.line) && c.col == old(c.col)
    ensures (result, c.rest) == ScanDigits(old(c.rest))
  {
    result := [];
    assert result + ScanDigits(c.rest).0 == ScanDigits(c.rest).0;
    while true
      invariant c.Valid() && c.input == old(c.input) && c.line == old(c.line) && c.col == old(c.col)
      invariant ScanDigits(old(c.rest)) == (result + ScanDigits(c.rest).0, ScanDigits(c.rest).1)
      decreases |c.rest|
    {
      ghost var r0 := c.rest;
      var b := c.Bump();
      var chr := if b.Some? then b.value else '\0';
      if chr == '_' {
        assert ScanDigits(r0) == ScanDigits(if |r0| >= 2 then r0[2..] else []);
        var _ := c.Bump();
      } else if Lex.IsDecimalDigit(chr) {
        ghost var tail := ScanDigits(r0[1..]);
        assert ScanDigits(r0) == ([chr] + tail.0, tail.1);
        assert (result + [chr]) + tail.0 == result + ([chr] + tail.0);
        result := result + [chr];
      } else {
        assert ScanDigits(r0) == ([], c.rest);
        assert result + [] == result;
        break;
      }
    }
  }

  method ParseNum(c: Cursor, first: char) returns (k: OldTokenKind)
    requires c.Valid() && Lex.IsDecimalDigit(first)
    modifies c
    ensures c.Valid() && c.input == old(c.input) && c.line == old(c.line) && c.col == old(c.col)
    ensures (k, c.rest) == LexNumber(first, old(c.rest))
  {
    if first == '0' {
      var la := c.First();
      if la == 'x' {
        var _ := c.Bump();
        var val := ParseNumToStr(c);
        k := Int(TokenGrammar.Hex, val);
      } else if la == 'b' {
        var _ := c.Bump();
        var val := ParseNumToStr(c);
        k := Int(TokenGrammar.Binary, val);
      } else if la == 'o' {
        var _ := c.Bump();
        var val := ParseNumToStr(c);
        k := Int(TokenGrammar.Octal, val);
      } else if Lex.IsDecimalDigit(la) || la == '_' {
        var val := ParseNumToStr(c);
        k := Int(TokenGrammar.Decimal, val);
      } else {
        k := Int(TokenGrammar.Decimal, "0");
      }
    } else {
      var val := ParseNumToStr(c);
      k := Int(TokenGrammar.Decimal, [first] + val);
    }
  }

  method SkipWhitespace(c: Cursor) returns (k: OldTokenKind)
    requires c.Valid()
    modifies c
    ensures c.Valid() && c.input == old(c.input) && c.line == old(c.line) && c.col == old(c.col)
    ensures k == Whitespace && c.rest == old(c.rest)[Span(Lex.IsWhitespace, old(c.rest))..]
  {
    c.EatWhile(Lex.IsWhitespace);
    k := Whitespace;
  }

  method AdvanceToken(c: Cursor) returns (r: Result<OldTokenKind, OldLexError>)
    requires c.Valid()
    modifies c
    ensures c.Valid() && c.input == old(c.input) && c.line == old(c.line) && c.col == old(c.col)
    ensures match NextToken(old(c.rest))
      case Success(lx) => r == Success(lx.kind) && c.rest == lx.rest
      case Failure(e) => r == Failure(e)
  {
    var b := c.Bump();
    if b.None? {
      return Success(Eof);
    }
    var first := b.value;
    match first
    case '+' => r := Success(Add);
    case '-' => r := Success(Sub);
    case '/' => r := Success(Div);
    case '*' => r := Success(Mul);
    case ';' => r := Success(Semicolon);
    case _ =>
      if Lex.IsWhitespace(first) {
        var k := SkipWhitespace(c);
        r := Success(k);
      } else if Lex.IsDecimalDigit(first) {
        var k := ParseNum(c, first);
        r := Success(k);
      } else {
        r := Failure(UndefinedCharacter(first));
      }
  }

  /** `tokenize`: calls `advance_token` until it returns `Eof` (not yielded)
      or panics. */
  method Tokenize(input: string) returns (r: OldLexed)
    ensures r == TokenStream(input)
  {
    var c := new Cursor(input);
    var kinds: seq<OldTokenKind> := [];
    while true
      invariant c.Valid()
      invariant TokenStream(input) == OldLexed(kinds + TokenStream(c.rest).kinds, TokenStream(c.rest).failure)
      decreases |c.rest|
    {
      TokenStreamStep(c.rest);
      var t := AdvanceToken(c);
      match t {
        case Failure(e) =>
          return OldLexed(kinds, Some(e));
        case Success(k) =>
          if k == Eof {
            return OldLexed(kinds, None);
          }
          kinds := kinds + [k];
      }
    }
  }

  // ---------------------------------------------------------------------------
  // Properties of the first lexer.

  /** An integer literal this lexer produces holds only decimal digits,
      whatever its base: no hex letters and no `_`. */
  predicate DecimalOnly(k: OldTokenKind)
  {
    k.Int? ==> forall i :: 0 <= i < |k.val| ==> Lex.IsDecimalDigit(k.val[i])
  }

  /** The digit scan keeps only decimal digits, and its rest is a suffix of
      its input. */
  lemma {:induction false} ScanDigitsShape(s: string)
    ensures forall i :: 0 <= i < |ScanDigits(s).0| ==> Lex.IsDecimalDigit(ScanDigits(s).0[i])
    ensures ScanDigits(s).1 == s[|s| - |ScanDigits(s).1|..]
    decreases |s|
  {
    if s == [] {
    } else if s[0] == '_' {
      var t := if |s| >= 2 then s[2..] else [];
      ScanDigitsShape(t);
      assert t == s[|s| - |t|..];
      assert ScanDigits(t).1 == s[|s| - |ScanDigits(s).1|..];
    } else if Lex.IsDecimalDigit(s[0]) {
      ScanDigitsShape(s[1..]);
      assert ScanDigits(s[1..]).1 == s[|s| - |ScanDigits(s).1|..];
    }
  }

  /** `parse_num` gives an integer literal that is `DecimalOnly`, and leaves a
      suffix of its input unread. */
  lemma {:induction false} LexNumberShape(first: char, t: string)
    requires Lex.IsDecimalDigit(first)
    ensures var r := LexNumber(first, t); r.0.Int? && DecimalOnly(r.0) && r.1 == t[|t| - |r.1|..]
  {
    if first == '0' && Peek(t) in {'x', 'b', 'o'} {
      ScanDigitsShape(t[1..]);
      assert ScanDigits(t[1..]).1 == t[|t| - |ScanDigits(t[1..]).1|..];
    } else {
      ScanDigitsShape(t);
    }
  }

  /** `advance_token` leaves a suffix of its input unread, gives `Eof` only at
      the end, and every integer literal it gives is `DecimalOnly`. */
  lemma {:induction false} NextTokenShape(s: string)
    ensures NextToken(s).Success? ==>
      var lx := NextToken(s).value;
      && |lx.rest| <= |s| && lx.rest == s[|s| - |lx.rest|..]
      && (lx.kind == Eof <==> s == [])
      && DecimalOnly(lx.kind)
  {
    if s != [] {
      var c, t := s[0], s[1..];
      if c in {'+', '-', '/', '*', ';'} {
      } else if Lex.IsWhitespace(c) {
        assert t[Span(Lex.IsWhitespace, t)..] == s[1 + Span(Lex.IsWhitespace, t)..];
      } else if Lex.IsDecimalDigit(c) {
        LexNumberShape(c, t);
        var rest := LexNumber(c, t).1;
        assert t[|t| - |rest|..] == s[|s| - |rest|..];
      }
    }
  }

  /** Lexing fails exactly on a character that is neither an operator, `;`,
      a blank nor a digit. */
  lemma {:induction false} UndefinedCharacterIff(c: char, t: string)
    ensures NextToken([c] + t).Failure? <==> c !in {'+', '-', '/', '*', ';', ' '} && !Lex.IsDecimalDigit(c)
    ensures NextToken([c] + t).Failure? ==> NextToken([c] + t).error == UndefinedCharacter(c)
  {
    assert ([c] + t)[0] == c && ([c] + t)[1..] == t;
  }

  /** `tokenize` never yields `Eof`, and every literal it yields is
      `DecimalOnly`. */
  lemma {:induction false} TokenStreamShape(s: string)
    ensures forall i :: 0 <= i < |TokenStream(s).kinds| ==>
      TokenStream(s).kinds[i] != Eof && DecimalOnly(TokenStream(s).kinds[i])
    decreases |s|
  {
    NextTokenShape(s);
    TokenStreamStep(s);
    if NextToken(s).Success? && NextToken(s).value.kind != Eof {
      TokenStreamShape(NextToken(s).value.rest);
    }
  }

  /** The scan of a run of digits: it keeps every digit, and the character
      that ends the run is consumed with it, so what follows starts after
      that character; at the end of input nothing is left. */
  lemma {:induction false} DigitRunScan(ds: string, c: char, t: string)
    requires forall i :: 0 <= i < |ds| ==> Lex.IsDecimalDigit(ds[i])
    requires c != '_' && !Lex.IsDecimalDigit(c)
    ensures ScanDigits(ds + [c] + t) == (ds, t)
    ensures ScanDigits(ds) == (ds, [])
    decreases |ds|
  {
    if ds == [] {
      assert ([c] + t)[1..] == t;
      assert ds + [c] + t == [c] + t;
    } else {
      DigitRunScan(ds[1..], c, t);
      assert (ds + [c] + t)[1..] == ds[1..] + [c] + t;
      assert [ds[0]] + ds[1..] == ds;
    }
  }

  /** The character that ends a number is consumed with it: after `d ds c`,
      with `c` neither a digit nor `_` (a `;`, a blank, an operator), the
      next token comes from what follows `c`. */
  lemma {:induction false} TerminatorLost(d: char, ds: string, c: char, t: string)
    requires '1' <= d <= '9' && forall i :: 0 <= i < |ds| ==> Lex.IsDecimalDigit(ds[i])
    requires c != '_' && !Lex.IsDecimalDigit(c)
    ensures NextToken([d] + ds + [c] + t) == Success(OldLexeme(Int(TokenGrammar.Decimal, [d] + ds), t))
  {
    DigitRunScan(ds, c, t);
    assert ([d] + ds + [c] + t)[1..] == ds + [c] + t;
  }

  /** `_` in a number drops the digit after it: `d_e` is read as `d`. */
  lemma {:induction false} UnderscoreDropsDigit(d: char, e: char)
    requires '1' <= d <= '9' && Lex.IsDecimalDigit(e)
    ensures NextToken([d, '_', e]) == Success(OldLexeme(Int(TokenGrammar.Decimal, [d]), []))
  {
    assert [d, '_', e][1..] == ['_', e];
    assert ['_', e][2..] == [];
    assert ScanDigits(['_', e]) == ([], []);
    assert [d] + [] == [d];
  }

  /** Hex digits are scanned as decimal ones, so `0x` followed by a letter is
      an empty hex literal, and the letter is lost. */
  lemma {:induction false} HexLetterLost(ch: char, t: string)
    requires ch != '_' && !Lex.IsDecimalDigit(ch)
    ensures NextToken(['0', 'x', ch] + t) == Success(OldLexeme(Int(TokenGrammar.Hex, []), t))
  {
    assert (['0', 'x', ch] + t)[1..] == ['x', ch] + t;
    assert (['x', ch] + t)[1..] == [ch] + t;
    assert ([ch] + t)[1..] == t;
  }

  /** After `0`, the letters `x`, `b` and `o` pick hex, binary and octal and
      are dropped; the digits after them go through the decimal-only scan,
      whatever the base. */
  lemma {:induction false} RadixPrefix(p: char, t: string)
    requires p in {'x', 'b', 'o'}
    ensures LexNumber('0', [p] + t) ==
      (Int(if p == 'x' then TokenGrammar.Hex else if p == 'b' then TokenGrammar.Binary else TokenGrammar.Octal,
           ScanDigits(t).0),
       ScanDigits(t).1)
  {
    assert ([p] + t)[1..] == t;
  }

  /** `0` followed by a run of digits: the leading `0` is dropped, the run is
      a decimal literal, and the character that ends it is consumed. */
  lemma {:induction false} LeadingZeroDropped(ds: string, c: char, t: string)
    requires ds != [] && forall i :: 0 <= i < |ds| ==> Lex.IsDecimalDigit(ds[i])
    requires c != '_' && !Lex.IsDecimalDigit(c)
    ensures LexNumber('0', ds + [c] + t) == (Int(TokenGrammar.Decimal, ds), t)
  {
    DigitRunScan(ds, c, t);
    assert (ds + [c] + t)[0] == ds[0];
  }

  /** A lone `0`: the literal is `"0"`, and the character after it is left
      for the next token. */
  lemma {:induction false} LoneZero(s: string)
    requires s == [] || (!Lex.IsDecimalDigit(s[0]) && s[0] !in {'_', 'x', 'b', 'o'})
    ensures NextToken(['0'] + s) == Success(OldLexeme(Int(TokenGrammar.Decimal, "0"), s))
  {
    assert (['0'] + s)[0] == '0' && (['0'] + s)[1..] == s;
  }

  /** A run of blanks is one `Whitespace` token. */
  lemma {:induction false} BlankRun(blanks: string, t: string)
    requires |blanks| > 0 && forall i :: 0 <= i < |blanks| ==> blanks[i] == ' '
    requires t == [] || t[0] != ' '
    ensures NextToken(blanks + t) == Success(OldLexeme(Whitespace, t))
  {
    var u := (blanks + t)[1..];
    assert u == blanks[1..] + t;
    SpanIs(Lex.IsWhitespace, u, |blanks| - 1);
    assert u[|blanks| - 1..] == t;
  }

  /** A token other than `Eof` heads the stream of the text it is read from. */
  lemma TokenStreamCons(s: string, k: OldTokenKind, rest: string)
    requires NextToken(s) == Success(OldLexeme(k, rest)) && k != Eof
    ensures TokenStream(s) == OldLexed([k] + TokenStream(rest).kinds, TokenStream(rest).failure)
  {
    TokenStreamStep(s);
  }

  /** A lone digit and a blank: the literal is the digit and the blank is
      consumed with it. */
  lemma DigitBlank(d: char, t: string)
    requires '1' <= d <= '9'
    ensures NextToken([d, ' '] + t) == Success(OldLexeme(Int(TokenGrammar.Decimal, [d]), t))
  {
    TerminatorLost(d, [], ' ', t);
    assert [d] + [] + [' '] + t == [d, ' '] + t;
    assert [d] + [] == [d];
  }

  /** A digit and a blank: the literal heads the stream, the blank is
      consumed with it. */
  lemma DigitBlankStream(d: char, t: string, k: seq<OldTokenKind>, f: Option<OldLexError>)
    requires '1' <= d <= '9' && TokenStream(t) == OldLexed(k, f)
    ensures TokenStream([d, ' '] + t) == OldLexed([Int(TokenGrammar.Decimal, [d])] + k, f)
  {
    DigitBlank(d, t);
    TokenStreamCons([d, ' '] + t, Int(TokenGrammar.Decimal, [d]), t);
  }

  /** `+` is one `ADD` token. */
  lemma PlusStream(t: string, k: seq<OldTokenKind>, f: Option<OldLexError>)
    requires TokenStream(t) == OldLexed(k, f)
    ensures TokenStream(['+'] + t) == OldLexed([Add] + k, f)
  {
    assert (['+'] + t)[0] == '+' && (['+'] + t)[1..] == t;
    TokenStreamCons(['+'] + t, Add, t);
  }

  /** A blank and the run of blanks after it are one `WHITESPACE` token. */
  lemma BlankStream(t: string, k: seq<OldTokenKind>, f: Option<OldLexError>)
    requires TokenStream(t[Span(Lex.IsWhitespace, t)..]) == OldLexed(k, f)
    ensures TokenStream([' '] + t) == OldLexed([Whitespace] + k, f)
  {
    assert ([' '] + t)[0] == ' ' && ([' '] + t)[1..] == t;
    TokenStreamCons([' '] + t, Whitespace, t[Span(Lex.IsWhitespace, t)..]);
  }

  /** `0 …`: the blank after a lone `0` is not consumed and becomes a
      `WHITESPACE` token. */
  lemma ZeroBlankStream(t: string, k: seq<OldTokenKind>, f: Option<OldLexError>)
    requires TokenStream(t[Span(Lex.IsWhitespace, t)..]) == OldLexed(k, f)
    ensures TokenStream(['0', ' '] + t) == OldLexed([Int(TokenGrammar.Decimal, "0"), Whitespace] + k, f)
  {
    BlankStream(t, k, f);
    LoneZero([' '] + t);
    Regroup('0', ' ', ' ', ' ', t);
    TokenStreamCons(['0', ' '] + t, Int(TokenGrammar.Decimal, "0"), [' '] + t);
    Regroup(Int(TokenGrammar.Decimal, "0"), Whitespace, Whitespace, Whitespace, k);
  }

  /** `d + …` with the text built one character at a time. */
  lemma SpacedPlusSteps(d: char, t: string, k: seq<OldTokenKind>, f: Option<OldLexError>)
    requires '1' <= d <= '9' && TokenStream(t[Span(Lex.IsWhitespace, t)..]) == OldLexed(k, f)
    ensures TokenStream([d, ' '] + (['+'] + ([' '] + t))) ==
      OldLexed([Int(TokenGrammar.Decimal, [d])] + ([Add] + ([Whitespace] + k)), f)
  {
    BlankStream(t, k, f);
    PlusStream([' '] + t, [Whitespace] + k, f);
    DigitBlankStream(d, ['+'] + ([' '] + t), [Add] + ([Whitespace] + k), f);
  }

  /** `d + …`: the blank after the digit is consumed with it, and the blank
      after `+` becomes a `WHITESPACE` token. */
  lemma {:induction false} SpacedPlusTokens(d: char, t: string, k: seq<OldTokenKind>, f: Option<OldLexError>)
    requires '1' <= d <= '9' && TokenStream(t[Span(Lex.IsWhitespace, t)..]) == OldLexed(k, f)
    ensures TokenStream([d, ' ', '+', ' '] + t) == OldLexed([Int(TokenGrammar.Decimal, [d]), Add, Whitespace] + k, f)
  {
    SpacedPlusSteps(d, t, k, f);
    Regroup(d, ' ', '+', ' ', t);
    Regroup(Int(TokenGrammar.Decimal, [d]), Add, Whitespace, Whitespace, k);
  }

  /** Regrouping a sequence that starts with two to four given elements. */
  lemma Regroup<T>(x: T, y: T, z: T, w: T, t: seq<T>)
    ensures [x] + ([y] + t) == [x, y] + t
    ensures [x, y] + ([z] + t) == [x, y, z] + t
    ensures [x] + ([y] + ([z] + t)) == [x, y, z] + t
    ensures [x, y] + ([z] + ([w] + t)) == [x, y, z, w] + t
  {
  }

  /** `d +…` with the text built one character at a time. */
  lemma TightSteps(d: char, t: string, k: seq<OldTokenKind>, f: Option<OldLexError>)
    requires '1' <= d <= '9' && TokenStream(t) == OldLexed(k, f)
    ensures TokenStream([d, ' '] + (['+'] + t)) == OldLexed([Int(TokenGrammar.Decimal, [d])] + ([Add] + k), f)
  {
    PlusStream(t, k, f);
    DigitBlankStream(d, ['+'] + t, [Add] + k, f);
  }

  /** `d +…`: a digit, its blank, then `+` starts the next token. */
  lemma TightStep(d: char, t: string, k: seq<OldTokenKind>, f: Option<OldLexError>)
    requires '1' <= d <= '9' && TokenStream(t) == OldLexed(k, f)
    ensures TokenStream([d, ' ', '+'] + t) == OldLexed([Int(TokenGrammar.Decimal, [d]), Add] + k, f)
  {
    TightSteps(d, t, k, f);
    Regroup(d, ' ', '+', '+', t);
    Regroup(Int(TokenGrammar.Decimal, [d]), Add, Add, Add, k);
  }

  /** `d ;`: the literal and the `;` that closes it. */
  lemma DigitSemicolon(d: char)
    requires '1' <= d <= '9'
    ensures TokenStream([d, ' ', ';']) == OldLexed([Int(TokenGrammar.Decimal, [d]), Semicolon], None)
  {
    DigitBlank(d, [';']);
    assert [d, ' '] + [';'] == [d, ' ', ';'];
    assert [';'][0] == ';' && [';'][1..] == [];
    TokenStreamCons([d, ' ', ';'], Int(TokenGrammar.Decimal, [d]), [';']);
    TokenStreamCons([';'], Semicolon, []);
    TokenStreamStep([]);
  }

  /** `a +b +c ;` for digits `a`, `b`, `c`: each blank is consumed by the
      digit scan before it, so the tokens are the sum and its `;`. */
  lemma {:induction false} TightSumTokens(a: char, b: char, c: char)
    requires '1' <= a <= '9' && '1' <= b <= '9' && '1' <= c <= '9'
    ensures TokenStream([a, ' ', '+'] + ([b, ' ', '+'] + [c, ' ', ';'])) == OldLexed(
      [Int(TokenGrammar.Decimal, [a]), Add, Int(TokenGrammar.Decimal, [b]), Add,
       Int(TokenGrammar.Decimal, [c]), Semicolon], None)
  {
    var s3 := [c, ' ', ';'];
    var s2 := [b, ' ', '+'] + s3;
    var k3 := [Int(TokenGrammar.Decimal, [c]), Semicolon];
    var k2 := [Int(TokenGrammar.Decimal, [b]), Add] + k3;
    DigitSemicolon(c);
    TightStep(b, s3, k3, None);
    TightStep(a, s2, k2, None);
  }
}
