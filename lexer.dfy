/** The current lexer (ipic_tokenize/src/lib.rs): `advance_token` and its
    helpers, working on a `Cursor`, and `tokenize`, which yields token kinds
    until the end of input.

    Each method is proved against a function on the unread input and the line
    counter (`NextToken`, `LexNumber`, `LexIdent`, `ScanDigits`,
    `TokenStream`); the properties of the lexer are lemmas about those. */
module Tokenize {
  import opened Wrappers
  import opened TokenGrammar
  import opened LexerCursor

  /** Only the blank `' '` is whitespace; `'\n'` is handled on its own. A
      blank is neither a digit nor an identifier character. */
  predicate IsWhitespace(c: char): (b: bool)
    ensures b ==> c != '\n' && !IsDecimalDigit(c) && !IsId(c)
  {
    c == ' '
  }

  /** XID_Start, approximated by the ASCII letters. */
  predicate IsXidStart(c: char)
  {
    'a' <= c <= 'z' || 'A' <= c <= 'Z'
  }

  predicate IsDecimalDigit(c: char)
  {
    '0' <= c <= '9'
  }

  predicate IsHexDigit(c: char)
  {
    IsDecimalDigit(c) || 'a' <= c <= 'f' || 'A' <= c <= 'F'
  }

  /** XID_Continue, approximated by ASCII letters, digits and `_`. */
  predicate IsIdContinue(c: char)
  {
    IsXidStart(c) || IsDecimalDigit(c) || c == '_'
  }

  /** A character that may start an identifier: it may also continue one,
      and it is never a digit, so numbers and identifiers do not overlap. */
  predicate IsId(c: char): (b: bool)
    ensures b ==> IsIdContinue(c) && !IsDecimalDigit(c)
  {
    c == '_' || IsXidStart(c)
  }

  predicate NotNewline(c: char)
  {
    c != '\n'
  }

  /** Characters with a lexical rule of their own; a token may start with them. */
  predicate StartsToken(ch: char)
  {
    ch in {'+', '-', '/', '=', '>', '<', '*', ';', '(', ')'} || IsDecimalDigit(ch) || IsId(ch)
  }

  /** The panic on a character no rule accepts, with the cursor's position. */
  datatype LexError = UndefinedToken(line: int, col: int)

  /** A token kind together with the unread input and the line after it. */
  datatype Lexeme = Lexeme(kind: TokenKind, rest: string, line: int)

  /** What `tokenize` yields: the kinds before the end of input, and the
      failure that stopped it, if any. */
  datatype Lexed = Lexed(kinds: seq<TokenKind>, failure: Option<LexError>)

  /** `s` without its `_` separators. */
  function RemoveUnderscores(s: string): (r: string)
    ensures forall i :: 0 <= i < |r| ==> r[i] != '_'
  {
    if s == [] then []
    else if s[0] == '_' then RemoveUnderscores(s[1..])
    else [s[0]] + RemoveUnderscores(s[1..])
  }

  /** A digit literal as the lexer leaves it: no `_`, and only characters that
      are digits for its base (`0-9` for every base but hex). */
  predicate NormalizedLiteral(k: TokenKind)
  {
    k.Literal? && k.lit.Int? ==>
      forall i :: 0 <= i < |k.lit.val| ==>
        && k.lit.val[i] != '_'
        && (if k.lit.base == Hex then IsHexDigit(k.lit.val[i]) else IsDecimalDigit(k.lit.val[i]))
  }

  /** The two digit scanners: skip `_`, keep legal digits, and stop, without
      consuming it, at the first other character (see `ScanDigitsLongest`). */
  function ScanDigits(legal: char -> bool, s: string): (r: (string, string))
    ensures |r.1| <= |s|
  {
    if s == [] then ([], [])
    else if s[0] == '_' then ScanDigits(legal, s[1..])
    else if legal(s[0]) then
      var (d, rest) := ScanDigits(legal, s[1..]);
      ([s[0]] + d, rest)
    else ([], s)
  }

  /** `parse_num`: the radix prefix picks the base and is dropped; a `0`
      followed by a digit or `_` is a decimal without that `0`; a lone `0` is
      decimal `"0"`; any other first digit starts a decimal value. */
  function LexNumber(first: char, t: string): (r: (TokenKind, string))
    requires IsDecimalDigit(first)
    ensures |r.1| <= |t|
  {
    if first == '0' then
      var la := Peek(t);
      if la == 'x' then
        var (d, rest) := ScanDigits(IsHexDigit, t[1..]);
        (Literal(Int(Hex, d)), rest)
      else if la == 'b' then
        var (d, rest) := ScanDigits(IsDecimalDigit, t[1..]);
        (Literal(Int(Binary, d)), rest)
      else if la == 'o' then
        var (d, rest) := ScanDigits(IsDecimalDigit, t[1..]);
        (Literal(Int(Octal, d)), rest)
      else if IsDecimalDigit(la) || la == '_' then
        var (d, rest) := ScanDigits(IsDecimalDigit, t);
        (Literal(Int(Decimal, d)), rest)
      else (Literal(Int(Decimal, "0")), t)
    else
      var (d, rest) := ScanDigits(IsDecimalDigit, t);
      (Literal(Int(Decimal, [first] + d)), rest)
  }

  /** `parse_id`: the identifier is `first` followed by the longest run of
      identifier characters; the character that ends it is consumed too. */
  function LexIdent(first: char, t: string): (r: (TokenKind, string))
    ensures |r.1| <= |t|
  {
    var n := Span(IsIdContinue, t);
    var name := [first] + t[..n];
    (if name == "let" then Reserved(Let) else Ident(name), if n < |t| then t[n + 1..] else [])
  }

  /** The token a character `c` starts, given the unread input `t` after it,
      with the input left unread; `None` for a character without a rule.
      Blanks, newlines and comments are handled by `NextToken`. */
  function LexSymbol(c: char, t: string): (r: Option<(TokenKind, string)>)
    ensures r.Some? ==> |r.value.1| <= |t|
  {
    match c
    case '+' => if Peek(t) == '+' then Some((Increment, t[1..])) else Some((Plus, t))
    case '-' => if Peek(t) == '-' then Some((Decrement, t[1..])) else Some((Minus, t))
    case '/' => Some((Slash, t))
    case '=' => if Peek(t) == '=' then Some((DoubleEqual, t[1..])) else Some((Equal, t))
    case '>' => Some((Mt, t))
    case '<' => Some((Lt, t))
    case '*' => Some((Star, t))
    case ';' => Some((Semicolon, t))
    case '(' => Some((LBrace, t))
    case ')' => Some((RBrace, t))
    case _ =>
      if IsDecimalDigit(c) then Some(LexNumber(c, t))
      else if IsId(c) then Some(LexIdent(c, t))
      else None
  }

  /** `advance_token` on the unread input `s` at line `line`. */
  function NextToken(s: string, line: int, col: int): (r: Result<Lexeme, LexError>)
    ensures r.Success? && r.value.kind != Eof ==> |r.value.rest| < |s|
    decreases |s|
  {
    if s == [] then Success(Lexeme(Eof, s, line))
    else
      var c, t := s[0], s[1..];
      if IsWhitespace(c) then NextToken(t[Span(IsWhitespace, t)..], line, col)
      else if c == '\n' then NextToken(t, line + 1, col)
      else if c == '/' && Peek(t) == '/' then NextToken(t[Span(NotNewline, t)..], line, col)
      else match LexSymbol(c, t)
        case Some((k, rest)) => Success(Lexeme(k, rest, line))
        case None => Failure(UndefinedToken(line, col))
  }

  /** `tokenize` from the unread input `s`: the kinds up to the first `Eof`
      (which is not yielded) or up to the first failure. */
  function TokenStream(s: string, line: int, col: int): (r: Lexed)
    decreases |s|
  {
    match NextToken(s, line, col)
    case Failure(e) => Lexed([], Some(e))
    case Success(lx) =>
      if lx.kind == Eof then Lexed([], None)
      else
        var tail := TokenStream(lx.rest, lx.line, col);
        Lexed([lx.kind] + tail.kinds, tail.failure)
  }

  /** One step of `TokenStream`, unfolded. */
  lemma {:induction false} TokenStreamStep(s: string, line: int, col: int)
    ensures NextToken(s, line, col).Failure? ==>
      TokenStream(s, line, col) == Lexed([], Some(NextToken(s, line, col).error))
    ensures NextToken(s, line, col).Success? && NextToken(s, line, col).value.kind == Eof ==>
      TokenStream(s, line, col) == Lexed([], None)
    ensures NextToken(s, line, col).Success? && NextToken(s, line, col).value.kind != Eof ==>
      var lx := NextToken(s, line, col).value;
      TokenStream(s, line, col) ==
        Lexed([lx.kind] + TokenStream(lx.rest, lx.line, col).kinds, TokenStream(lx.rest, lx.line, col).failure)
  {
  }

  // ---------------------------------------------------------------------------
  // The imperative lexer on a Cursor.

  method SkipWhitespace(c: Cursor)
    requires c.Valid()
    modifies c
    ensures c.Valid() && c.input == old(c.input) && c.line == old(c.line) && c.col == old(c.col)
    ensures c.rest == old(c.rest)[Span(IsWhitespace, old(c.rest))..]
  {
    c.EatWhile(IsWhitespace);
  }

  method SkipCommentLine(c: Cursor)
    requires c.Valid()
    modifies c
    ensures c.Valid() && c.input == old(c.input) && c.line == old(c.line) && c.col == old(c.col)
    ensures c.rest == old(c.rest)[Span(NotNewline, old(c.rest))..]
  {
    c.EatWhile(NotNewline);
  }

  method ParseNumToStr(c: Cursor) returns (result: string)
    requires c.Valid()
    modifies c
    ensures c.Valid() && c.input == old(c.input) && c.line == old(c.line) && c.col == old(c.col)
    ensures (result, c.rest) == ScanDigits(IsDecimalDigit, old(c.rest))
  {
    result := [];
    assert result + ScanDigits(IsDecimalDigit, c.rest).0 == ScanDigits(IsDecimalDigit, c.rest).0;
    while true
      invariant c.Valid() && c.input == old(c.input) && c.line == old(c.line) && c.col == old(c.col)
      invariant ScanDigits(IsDecimalDigit, old(c.rest)) ==
        (result + ScanDigits(IsDecimalDigit, c.rest).0, ScanDigits(IsDecimalDigit, c.rest).1)
      decreases |c.rest|
    {
      var chr := c.First();
      if chr == '_' {
        assert ScanDigits(IsDecimalDigit, c.rest) == ScanDigits(IsDecimalDigit, c.rest[1..]);
        var _ := c.Bump();
      } else if IsDecimalDigit(chr) {
        ghost var tail := ScanDigits(IsDecimalDigit, c.rest[1..]);
        assert ScanDigits(IsDecimalDigit, c.rest) == ([chr] + tail.0, tail.1);
        var b := c.Bump();
        assert (result + [b.value]) + tail.0 == result + ([chr] + tail.0);
        result := result + [b.value];
      } else {
        assert result + ScanDigits(IsDecimalDigit, c.rest).0 == result;
        break;
      }
    }
  }

  method ParseHexNumToStr(c: Cursor) returns (result: string)
    requires c.Valid()
    modifies c
    ensures c.Valid() && c.input == old(c.input) && c.line == old(c.line) && c.col == old(c.col)
    ensures (result, c.rest) == ScanDigits(IsHexDigit, old(c.rest))
  {
    result := [];
    assert result + ScanDigits(IsHexDigit, c.rest).0 == ScanDigits(IsHexDigit, c.rest).0;
    while true
      invariant c.Valid() && c.input == old(c.input) && c.line == old(c.line) && c.col == old(c.col)
      invariant ScanDigits(IsHexDigit, old(c.rest)) ==
        (result + ScanDigits(IsHexDigit, c.rest).0, ScanDigits(IsHexDigit, c.rest).1)
      decreases |c.rest|
    {
      var chr := c.First();
      if chr == '_' {
        assert ScanDigits(IsHexDigit, c.rest) == ScanDigits(IsHexDigit, c.rest[1..]);
        var _ := c.Bump();
      } else if IsHexDigit(chr) {
        ghost var tail := ScanDigits(IsHexDigit, c.rest[1..]);
        assert ScanDigits(IsHexDigit, c.rest) == ([chr] + tail.0, tail.1);
        var b := c.Bump();
        assert (result + [b.value]) + tail.0 == result + ([chr] + tail.0);
        result := result + [b.value];
      } else {
        assert result + ScanDigits(IsHexDigit, c.rest).0 == result;
        break;
      }
    }
  }

  method ParseNum(c: Cursor, first: char) returns (k: TokenKind)
    requires c.Valid() && IsDecimalDigit(first)
    modifies c
    ensures c.Valid() && c.input == old(c.input) && c.line == old(c.line) && c.col == old(c.col)
    ensures (k, c.rest) == LexNumber(first, old(c.rest))
  {
    if first == '0' {
      var la := c.First();
      if la == 'x' {
        var _ := c.Bump();
        var val := ParseHexNumToStr(c);
        k := Literal(Int(Hex, val));
      } else if la == 'b' {
        var _ := c.Bump();
        var val := ParseNumToStr(c);
        k := Literal(Int(Binary, val));
      } else if la == 'o' {
        var _ := c.Bump();
        var val := ParseNumToStr(c);
        k := Literal(Int(Octal, val));
      } else if IsDecimalDigit(la) || la == '_' {
        var val := ParseNumToStr(c);
        k := Literal(Int(Decimal, val));
      } else {
        k := Literal(Int(Decimal, "0"));
      }
    } else {
      var val := ParseNumToStr(c);
      k := Literal(Int(Decimal, [first] + val));
    }
  }

  method ParseId(c: Cursor, first: char) returns (k: TokenKind)
    requires c.Valid()
    modifies c
    ensures c.Valid() && c.input == old(c.input) && c.line == old(c.line) && c.col == old(c.col)
    ensures (k, c.rest) == LexIdent(first, old(c.rest))
  {
    ghost var t := c.rest;
    var result := [first];
    var stopped := false;
    while true
      invariant c.Valid() && c.input == old(c.input) && c.line == old(c.line) && c.col == old(c.col)
      invariant |c.rest| <= |t| && c.rest == t[|t| - |c.rest|..]
      invariant forall i :: 0 <= i < |t| - |c.rest| ==> IsIdContinue(t[i])
      invariant result == [first] + t[..|t| - |c.rest|]
      decreases |c.rest|
    {
      ghost var k := |t| - |c.rest|;
      var b := c.Bump();
      var chr := if b.Some? then b.value else '\0';
      if !IsIdContinue(chr) {
        assert b.Some? ==> chr == t[k];
        SpanIs(IsIdContinue, t, k);
        break;
      }
      result := result + [chr];
    }
    k := if result == "let" then Reserved(Let) else Ident(result);
  }

  method AdvanceToken(c: Cursor) returns (r: Result<TokenKind, LexError>)
    requires c.Valid()
    modifies c
    ensures c.Valid() && c.input == old(c.input) && c.col == old(c.col)
    ensures match NextToken(old(c.rest), old(c.line), old(c.col))
      case Success(lx) => r == Success(lx.kind) && c.rest == lx.rest && c.line == lx.line
      case Failure(e) => r == Failure(e)
    decreases |c.rest|
  {
    var b := c.Bump();
    if b.None? {
      return Success(Eof);
    }
    var first := b.value;
    if IsWhitespace(first) {
      SkipWhitespace(c);
      r := AdvanceToken(c);
      return;
    }
    if first == '\n' {
      c.line := c.line + 1;
      r := AdvanceToken(c);
      return;
    }
    match first
    case '+' =>
      if c.First() == '+' {
        var _ := c.Bump();
        r := Success(Increment);
      } else {
        r := Success(Plus);
      }
    case '-' =>
      if c.First() == '-' {
        var _ := c.Bump();
        r := Success(Decrement);
      } else {
        r := Success(Minus);
      }
    case '/' =>
      if c.First() == '/' {
        SkipCommentLine(c);
        r := AdvanceToken(c);
      } else {
        r := Success(Slash);
      }
    case '=' =>
      if c.First() == '=' {
        var _ := c.Bump();
        r := Success(DoubleEqual);
      } else {
        r := Success(Equal);
      }
    case '>' => r := Success(Mt);
    case '<' => r := Success(Lt);
    case '*' => r := Success(Star);
    case ';' => r := Success(Semicolon);
    case '(' => r := Success(LBrace);
    case ')' => r := Success(RBrace);
    case _ =>
      if IsDecimalDigit(first) {
        var k := ParseNum(c, first);
        r := Success(k);
      } else if IsId(first) {
        var k := ParseId(c, first);
        r := Success(k);
      } else {
        r := Failure(UndefinedToken(c.line, c.col));
      }
  }

  /** `tokenize`: calls `advance_token` until it returns `Eof` (not yielded)
      or fails; the cursor starts at line 0, column 0. */
  method Tokenize(input: string) returns (r: Lexed)
    ensures r == TokenStream(input, 0, 0)
  {
    var c := new Cursor(input);
    var kinds: seq<TokenKind> := [];
    while true
      invariant c.Valid() && c.col == 0
      invariant TokenStream(input, 0, 0) ==
        Lexed(kinds + TokenStream(c.rest, c.line, 0).kinds, TokenStream(c.rest, c.line, 0).failure)
      decreases |c.rest|
    {
      TokenStreamStep(c.rest, c.line, 0);
      var t := AdvanceToken(c);
      match t {
        case Failure(e) =>
          return Lexed(kinds, Some(e));
        case Success(k) =>
          if k == Eof {
            return Lexed(kinds, None);
          }
          kinds := kinds + [k];
      }
    }
  }

  // ---------------------------------------------------------------------------
  // Properties of the lexer.

  /** The number of `'\n'` in `s`. */
  function NewlineCount(s: string): (n: nat)
    ensures n <= |s|
  {
    if s == [] then 0 else (if s[0] == '\n' then 1 else 0) + NewlineCount(s[1..])
  }

  /** `ScanDigits` takes the longest prefix made of `_` and legal digits: the
      rest is a suffix of the input, every scanned character is `_` or legal,
      the rest does not start with either, and the digits are the scanned
      prefix without its `_`. */
  lemma {:induction false} ScanDigitsLongest(legal: char -> bool, s: string)
    ensures var r := ScanDigits(legal, s); r.1 == s[|s| - |r.1|..]
    ensures var r := ScanDigits(legal, s);
      forall i :: 0 <= i < |s| - |r.1| ==> s[i] == '_' || legal(s[i])
    ensures var r := ScanDigits(legal, s); r.1 == [] || (r.1[0] != '_' && !legal(r.1[0]))
    ensures var r := ScanDigits(legal, s); r.0 == RemoveUnderscores(s[..|s| - |r.1|])
    ensures var r := ScanDigits(legal, s); forall i :: 0 <= i < |r.0| ==> legal(r.0[i])
    decreases |s|
  {
    if s != [] && (s[0] == '_' || legal(s[0])) {
      var r, r' := ScanDigits(legal, s), ScanDigits(legal, s[1..]);
      ScanDigitsLongest(legal, s[1..]);
      assert r.1 == r'.1;
      assert s[..|s| - |r.1|] == [s[0]] + s[1..][..|s[1..]| - |r'.1|];
      forall i | 1 <= i < |s| - |r.1|
        ensures s[i] == '_' || legal(s[i])
      {
        assert s[i] == s[1..][i - 1];
      }
    }
  }

  /** `parse_num` always gives an integer literal in normal form, and leaves
      a suffix of its input unread. */
  lemma {:induction false} LexNumberShape(first: char, t: string)
    requires IsDecimalDigit(first)
    ensures var r := LexNumber(first, t); r.1 == t[|t| - |r.1|..]
    ensures var r := LexNumber(first, t); r.0.Literal? && r.0.lit.Int? && NormalizedLiteral(r.0)
  {
    if first == '0' && Peek(t) in {'x', 'b', 'o'} {
      var legal := if Peek(t) == 'x' then IsHexDigit else IsDecimalDigit;
      ScanDigitsLongest(legal, t[1..]);
      var r := ScanDigits(legal, t[1..]);
      assert t[1..][|t[1..]| - |r.1|..] == t[|t| - |r.1|..];
    } else {
      ScanDigitsLongest(IsDecimalDigit, t);
    }
  }

  /** `parse_id` gives the reserved word `let` or an identifier made of the
      first character and the longest run of identifier characters after it,
      never `Ident("let")`, and leaves a suffix of its input unread. */
  lemma {:induction false} LexIdentShape(first: char, t: string)
    ensures var r := LexIdent(first, t); r.1 == t[|t| - |r.1|..]
    ensures var r := LexIdent(first, t);
      r.0 == (if [first] + t[..Span(IsIdContinue, t)] == "let" then Reserved(Let)
              else Ident([first] + t[..Span(IsIdContinue, t)]))
    ensures LexIdent(first, t).0 != Ident("let")
  {
  }

  /** A character without a lexical rule is exactly one for which `LexSymbol`
      gives nothing. */
  lemma {:induction false} LexSymbolDefined(c: char, t: string)
    ensures LexSymbol(c, t).None? <==> !StartsToken(c)
  {
  }

  /** The token `LexSymbol` gives is never `Eof` nor `Ident("let")`, a literal
      is in normal form, and the rest is a suffix of the input. */
  lemma {:induction false} LexSymbolShape(c: char, t: string)
    requires StartsToken(c)
    ensures var (k, rest) := LexSymbol(c, t).value;
      && k != Eof && k != Ident("let") && NormalizedLiteral(k)
      && rest == t[|t| - |rest|..]
  {
    if IsDecimalDigit(c) {
      LexNumberShape(c, t);
      assert LexSymbol(c, t) == Some(LexNumber(c, t));
    } else if IsId(c) {
      LexIdentShape(c, t);
      assert LexSymbol(c, t) == Some(LexIdent(c, t));
    } else {
      OperatorShape(c, t);
    }
  }

  /** An operator character is a token of its own, or of two characters when
      doubled (`++ -- ==`); the rest is the input or its tail. */
  lemma {:induction false} OperatorShape(c: char, t: string)
    requires c in {'+', '-', '/', '=', '>', '<', '*', ';', '(', ')'}
    ensures LexSymbol(c, t).Some?
    ensures var (k, rest) := LexSymbol(c, t).value;
      && !k.Literal? && !k.Ident? && k != Eof
      && (rest == t || (t != [] && rest == t[1..]))
  {
  }

  /** What `advance_token` promises: the rest is a suffix of the input; at
      `Eof` the input is exhausted; the line counter only grows; a literal is
      in normal form and `let` is always reserved; a failure carries the
      column. */
  lemma {:induction false} NextTokenShape(s: string, line: int, col: int)
    ensures var r := NextToken(s, line, col);
      r.Success? ==> |r.value.rest| <= |s| && r.value.rest == s[|s| - |r.value.rest|..]
    ensures var r := NextToken(s, line, col);
      r.Success? && r.value.kind == Eof ==> r.value.rest == []
    ensures var r := NextToken(s, line, col);
      r.Success? ==> r.value.line >= line && NormalizedLiteral(r.value.kind) && r.value.kind != Ident("let")
    ensures var r := NextToken(s, line, col);
      r.Failure? ==> r.error.line >= line && r.error.col == col
    decreases |s|
  {
    if s != [] {
      var c, t := s[0], s[1..];
      var next :=
        if IsWhitespace(c) then t[Span(IsWhitespace, t)..]
        else if c == '\n' then t
        else if c == '/' && Peek(t) == '/' then t[Span(NotNewline, t)..]
        else [];
      if IsWhitespace(c) || c == '\n' || (c == '/' && Peek(t) == '/') {
        var line' := if c == '\n' then line + 1 else line;
        assert NextToken(s, line, col) == NextToken(next, line', col);
        NextTokenShape(next, line', col);
        assert next == s[|s| - |next|..];
      } else {
        LexSymbolDefined(c, t);
        if LexSymbol(c, t).Some? {
          LexSymbolShape(c, t);
          var rest := LexSymbol(c, t).value.1;
          assert t[|t| - |rest|..] == s[|s| - |rest|..];
        }
      }
    }
  }

  /** What `tokenize` promises: it never yields `Eof`, literals are in normal
      form, `let` is always reserved, and a failure carries the column. */
  lemma {:induction false} TokenStreamShape(s: string, line: int, col: int)
    ensures var r := TokenStream(s, line, col);
      forall i :: 0 <= i < |r.kinds| ==> r.kinds[i] != Eof && r.kinds[i] != Ident("let") && NormalizedLiteral(r.kinds[i])
    ensures var r := TokenStream(s, line, col); r.failure.Some? ==> r.failure.value.col == col
    decreases |s|
  {
    NextTokenShape(s, line, col);
    TokenStreamStep(s, line, col);
    var n := NextToken(s, line, col);
    if n.Success? && n.value.kind != Eof {
      TokenStreamShape(n.value.rest, n.value.line, col);
    }
  }

  /** On exhausted input the lexer returns `Eof` and `tokenize` yields nothing;
      after an `Eof` the input stays exhausted, so it keeps returning `Eof`. */
  lemma {:induction false} EndOfInput(line: int, col: int)
    ensures NextToken([], line, col) == Success(Lexeme(Eof, [], line))
    ensures TokenStream([], line, col) == Lexed([], None)
  {
  }

  /** One step of `NextToken` on a blank. */
  lemma {:induction false} SpaceStep(t: string, line: int, col: int)
    ensures NextToken([' '] + t, line, col) == NextToken(t[Span(IsWhitespace, t)..], line, col)
  {
    assert ([' '] + t)[1..] == t;
  }

  /** One step of `NextToken` on a character that starts neither a blank, a
      newline nor a comment: the token is the one `LexSymbol` gives. */
  lemma {:induction false} SymbolStep(c: char, t: string, line: int, col: int)
    requires c != ' ' && c != '\n' && !(c == '/' && Peek(t) == '/')
    ensures NextToken([c] + t, line, col) ==
      match LexSymbol(c, t)
      case Some((k, rest)) => Success(Lexeme(k, rest, line))
      case None => Failure(UndefinedToken(line, col))
  {
    assert ([c] + t)[1..] == t;
  }

  /** A leading blank is skipped without producing a token. */
  lemma {:induction false} SpaceSkipped(t: string, line: int, col: int)
    ensures NextToken([' '] + t, line, col) == NextToken(t, line, col)
  {
    SpaceStep(t, line, col);
    if t != [] && t[0] == ' ' {
      SpaceStep(t[1..], line, col);
      assert [' '] + t[1..] == t;
      assert t[Span(IsWhitespace, t)..] == t[1..][Span(IsWhitespace, t[1..])..];
    } else {
      assert Span(IsWhitespace, t) == 0;
    }
  }

  /** A newline is skipped and adds one to the line counter. */
  lemma {:induction false} NewlineSkipped(t: string, line: int, col: int)
    ensures NextToken(['\n'] + t, line, col) == NextToken(t, line + 1, col)
  {
    assert (['\n'] + t)[1..] == t;
  }

  /** A blank or a newline in front of the input is skipped. */
  lemma {:induction false} BlankStep(b: char, t: string, line: int, col: int)
    requires b == ' ' || b == '\n'
    ensures NextToken([b] + t, line, col) == NextToken(t, line + (if b == '\n' then 1 else 0), col)
  {
    if b == ' ' {
      SpaceSkipped(t, line, col);
    } else {
      NewlineSkipped(t, line, col);
    }
  }

  /** Blanks and newlines produce no token; each `'\n'` adds exactly one to
      the line counter. */
  lemma {:induction false} BlanksSkipped(blank: string, s: string, line: int, col: int)
    requires forall i :: 0 <= i < |blank| ==> blank[i] == ' ' || blank[i] == '\n'
    ensures NextToken(blank + s, line, col) == NextToken(s, line + NewlineCount(blank), col)
    decreases |blank|
  {
    if blank != [] {
      var b, tail := blank[0], blank[1..];
      var d := if b == '\n' then 1 else 0;
      assert blank + s == [b] + (tail + s);
      BlankStep(b, tail + s, line, col);
      BlanksSkipped(tail, s, line + d, col);
      assert NewlineCount(blank) == d + NewlineCount(tail);
    } else {
      assert blank + s == s;
    }
  }

  /** `tokenize` yields nothing for blanks and newlines in front of the input. */
  lemma {:induction false} BlanksYieldNothing(blank: string, s: string, line: int, col: int)
    requires forall i :: 0 <= i < |blank| ==> blank[i] == ' ' || blank[i] == '\n'
    ensures TokenStream(blank + s, line, col) == TokenStream(s, line + NewlineCount(blank), col)
  {
    BlanksSkipped(blank, s, line, col);
    TokenStreamStep(blank + s, line, col);
    TokenStreamStep(s, line + NewlineCount(blank), col);
  }

  /** `//` discards everything up to, not including, the next `'\n'`, and
      lexing goes on after it. */
  lemma {:induction false} CommentSkipped(body: string, s: string, line: int, col: int)
    requires forall i :: 0 <= i < |body| ==> body[i] != '\n'
    requires s == [] || s[0] == '\n'
    ensures NextToken("//" + body + s, line, col) == NextToken(s, line, col)
  {
    var t := "/" + body + s;
    assert ("//" + body + s)[1..] == t;
    SpanIs(NotNewline, t, 1 + |body|);
    assert t[1 + |body|..] == s;
  }

  /** `++`, `--` and `==` are one token each, both characters consumed. */
  lemma {:induction false} DoubledOperator(op: char, t: string, line: int, col: int)
    requires op in {'+', '-', '='}
    ensures NextToken([op, op] + t, line, col) ==
      Success(Lexeme(if op == '+' then Increment else if op == '-' then Decrement else DoubleEqual, t, line))
  {
    assert [op, op] + t == [op] + ([op] + t);
    SymbolStep(op, [op] + t, line, col);
    assert ([op] + t)[1..] == t;
  }

  /** Without the doubled character `+ - = /` are single-character tokens and
      the lookahead character is not consumed. */
  lemma {:induction false} SingleOperator(op: char, t: string, line: int, col: int)
    requires op in {'+', '-', '=', '/'}
    requires Peek(t) != op
    ensures NextToken([op] + t, line, col) ==
      Success(Lexeme(if op == '+' then Plus else if op == '-' then Minus else if op == '=' then Equal else Slash, t, line))
  {
    SymbolStep(op, t, line, col);
  }

  /** A run of digits and `_` followed by a character that is neither is
      scanned into its digits, and the stopping character stays unread. */
  lemma {:induction false} DigitRun(legal: char -> bool, run: string, s: string)
    requires forall i :: 0 <= i < |run| ==> run[i] == '_' || legal(run[i])
    requires s == [] || (s[0] != '_' && !legal(s[0]))
    ensures ScanDigits(legal, run + s) == (RemoveUnderscores(run), s)
    decreases |run|
  {
    if run == [] {
      assert run + s == s;
      if s != [] {
        assert ScanDigits(legal, s) == ([], s);
      }
    } else {
      DigitRun(legal, run[1..], s);
      assert (run + s)[1..] == run[1..] + s;
      assert [run[0]] + run[1..] == run;
    }
  }

  /** A digit starts a number token; the token is the one `parse_num` scans. */
  lemma {:induction false} NumberToken(d: char, t: string, line: int, col: int)
    requires IsDecimalDigit(d)
    ensures NextToken([d] + t, line, col) == Success(Lexeme(LexNumber(d, t).0, LexNumber(d, t).1, line))
  {
    assert LexSymbol(d, t) == Some(LexNumber(d, t));
    SymbolStep(d, t, line, col);
  }

  /** `0x`, `0b` and `0o` give hex, binary and octal, the prefix dropped; the
      binary and octal scans accept every decimal digit. */
  lemma {:induction false} RadixPrefix(p: char, t: string)
    requires p in {'x', 'b', 'o'}
    ensures var scan := ScanDigits(if p == 'x' then IsHexDigit else IsDecimalDigit, t);
      LexNumber('0', [p] + t) == (Literal(Int(if p == 'x' then Hex else if p == 'b' then Binary else Octal, scan.0)), scan.1)
  {
    assert ([p] + t)[1..] == t;
  }

  /** `0` followed by a digit or `_` is a decimal without the leading zero;
      a lone `0` is the decimal `"0"`, and nothing after it is consumed. */
  lemma {:induction false} LeadingZero(t: string)
    ensures IsDecimalDigit(Peek(t)) || Peek(t) == '_' ==>
      LexNumber('0', t) == (Literal(Int(Decimal, ScanDigits(IsDecimalDigit, t).0)), ScanDigits(IsDecimalDigit, t).1)
    ensures !IsDecimalDigit(Peek(t)) && Peek(t) !in {'_', 'x', 'b', 'o'} ==>
      LexNumber('0', t) == (Literal(Int(Decimal, "0")), t)
  {
  }

  /** A non-zero first digit is kept as the first character of a decimal. */
  lemma {:induction false} NonZeroDigit(d: char, t: string)
    requires '1' <= d <= '9'
    ensures LexNumber(d, t) == (Literal(Int(Decimal, [d] + ScanDigits(IsDecimalDigit, t).0)), ScanDigits(IsDecimalDigit, t).1)
  {
  }

  /** An identifier is its longest run of identifier characters; `let` is the
      reserved word, anything else an `Ident`; the character that ends the
      identifier is consumed and dropped. */
  lemma {:induction false} IdentifierToken(first: char, name: string, s: string, line: int, col: int)
    requires IsId(first)
    requires forall i :: 0 <= i < |name| ==> IsIdContinue(name[i])
    requires s == [] || !IsIdContinue(s[0])
    ensures NextToken([first] + name + s, line, col) ==
      Success(Lexeme(if [first] + name == "let" then Reserved(Let) else Ident([first] + name),
                     if s == [] then [] else s[1..], line))
  {
    assert [first] + name + s == [first] + (name + s);
    SymbolStep(first, name + s, line, col);
    SpanIs(IsIdContinue, name + s, |name|);
    assert (name + s)[..|name|] == name;
    assert s != [] ==> (name + s)[|name| + 1..] == s[1..];
  }

  /** Apart from blanks, newlines and comments, a character without a lexical
      rule is exactly what makes the lexer fail, at the current line and column. */
  lemma {:induction false} UndefinedCharacter(ch: char, t: string, line: int, col: int)
    requires ch !in {' ', '\n', '/'}
    ensures NextToken([ch] + t, line, col).Failure? <==> !StartsToken(ch)
    ensures !StartsToken(ch) ==> NextToken([ch] + t, line, col) == Failure(UndefinedToken(line, col))
  {
    assert ([ch] + t)[1..] == t;
  }

  /** A number directly followed by `;`: the peek-first scanner leaves the
      `;` unread, so the next token is the `;`. */
  lemma {:induction false} NumberThenSemicolon(d: char, t: string, line: int, col: int)
    requires '1' <= d <= '9'
    ensures NextToken([d, ';'] + t, line, col) == Success(Lexeme(Literal(Int(Decimal, [d])), [';'] + t, line))
  {
    assert [d, ';'] + t == [d] + ([';'] + t);
    DigitRun(IsDecimalDigit, [], [';'] + t);
    assert [] + ([';'] + t) == [';'] + t;
    assert ScanDigits(IsDecimalDigit, [';'] + t) == ([], [';'] + t);
    NonZeroDigit(d, [';'] + t);
    assert [d] + [] == [d];
    NumberToken(d, [';'] + t, line, col);
  }

  /** The character that ends an identifier is consumed with it: in `a+b`
      the `+` is lost and the next token is the `b`. */
  lemma {:induction false} IdentifierEatsTerminator(a: char, op: char, t: string, line: int, col: int)
    requires IsId(a) && !IsIdContinue(op)
    ensures NextToken([a, op] + t, line, col) == Success(Lexeme(Ident([a]), t, line))
  {
    assert [a, op] + t == [a] + [] + ([op] + t);
    IdentifierToken(a, [], [op] + t, line, col);
    assert [a] + [] == [a];
    assert ([op] + t)[1..] == t;
  }

  /** `_` separates digits and is dropped on its own: `d_e` is read as `de`. */
  lemma {:induction false} UnderscoreSeparator(d: char, e: char, line: int, col: int)
    requires '1' <= d <= '9' && IsDecimalDigit(e)
    ensures NextToken([d, '_', e], line, col) == Success(Lexeme(Literal(Int(Decimal, [d, e])), [], line))
  {
    assert [d, '_', e] == [d] + ['_', e];
    DigitRun(IsDecimalDigit, ['_', e], []);
    assert ['_', e] + [] == ['_', e];
    assert ['_', e][1..] == [e];
    assert [e][1..] == [];
    assert RemoveUnderscores([e]) == [e] + RemoveUnderscores([]);
    assert RemoveUnderscores(['_', e]) == [e];
    NonZeroDigit(d, ['_', e]);
    assert [d] + [e] == [d, e];
    NumberToken(d, ['_', e], line, col);
  }

  /** A run of `n` opening parentheses is `n` `LBrace` tokens, then the end. */
  lemma {:induction false} OpenParens(n: nat, line: int, col: int)
    ensures TokenStream(seq(n, _ => '('), line, col) == Lexed(seq(n, _ => LBrace), None)
  {
    if n == 0 {
      EndOfInput(line, col);
    } else {
      var rest := seq(n - 1, _ => '(');
      assert seq(n, _ => '(') == ['('] + rest;
      SymbolStep('(', rest, line, col);
      assert NextToken(['('] + rest, line, col) == Success(Lexeme(LBrace, rest, line));
      TokenStreamStep(['('] + rest, line, col);
      OpenParens(n - 1, line, col);
      assert seq(n, _ => LBrace) == [LBrace] + seq(n - 1, _ => LBrace);
    }
  }

  /** A token other than `Eof` heads the stream of the text it is read from. */
  lemma TokenStreamCons(s: string, line: int, col: int, k: TokenKind, rest: string)
    requires NextToken(s, line, col) == Success(Lexeme(k, rest, line)) && k != Eof
    ensures TokenStream(s, line, col) ==
      Lexed([k] + TokenStream(rest, line, col).kinds, TokenStream(rest, line, col).failure)
  {
    TokenStreamStep(s, line, col);
  }

  /** A leading blank yields no token. */
  lemma SpaceStream(t: string, line: int, col: int)
    ensures TokenStream([' '] + t, line, col) == TokenStream(t, line, col)
  {
    SpaceSkipped(t, line, col);
    TokenStreamStep([' '] + t, line, col);
    TokenStreamStep(t, line, col);
  }

  /** The token of one of the operators `+ - / *` standing alone. */
  function OperatorKind(c: char): TokenKind
    requires c in {'+', '-', '/', '*'}
  {
    if c == '+' then Plus else if c == '-' then Minus else if c == '/' then Slash else Star
  }

  /** One of `+ - / *` followed by a blank is one token. */
  lemma OperatorThenBlank(c: char, t: string, line: int, col: int, k: seq<TokenKind>, f: Option<LexError>)
    requires c in {'+', '-', '/', '*'}
    requires TokenStream(t, line, col) == Lexed(k, f)
    ensures TokenStream([c, ' '] + t, line, col) == Lexed([OperatorKind(c)] + k, f)
  {
    SpaceStream(t, line, col);
    assert [c, ' '] + t == [c] + ([' '] + t);
    SymbolStep(c, [' '] + t, line, col);
    TokenStreamCons([c] + ([' '] + t), line, col, OperatorKind(c), [' '] + t);
  }

  /** Each operator of `ops` followed by one blank. */
  function SpacedOperators(ops: string): string
  {
    if ops == [] then [] else [ops[0], ' '] + SpacedOperators(ops[1..])
  }

  /** The tokens of the operators of `ops`, in order. */
  function OperatorKinds(ops: string): seq<TokenKind>
    requires forall i :: 0 <= i < |ops| ==> ops[i] in {'+', '-', '/', '*'}
  {
    if ops == [] then [] else [OperatorKind(ops[0])] + OperatorKinds(ops[1..])
  }

  /** Operators separated by blanks are one token each, and the blanks yield
      nothing. */
  lemma {:induction false} SpacedOperatorsLexed(ops: string, line: int, col: int)
    requires forall i :: 0 <= i < |ops| ==> ops[i] in {'+', '-', '/', '*'}
    ensures TokenStream(SpacedOperators(ops), line, col) == Lexed(OperatorKinds(ops), None)
  {
    if ops == [] {
      EndOfInput(line, col);
    } else {
      SpacedOperatorsLexed(ops[1..], line, col);
      OperatorThenBlank(ops[0], SpacedOperators(ops[1..]), line, col, OperatorKinds(ops[1..]), None);
    }
  }

  /** The text `let` is the one reserved word `LET`, on any line. */
  lemma {:induction false} LexesLet(line: int, col: int)
    ensures TokenStream("let", line, col) == Lexed([Reserved(Let)], None)
  {
    assert ['l'] + "et" + [] == "let";
    IdentifierToken('l', "et", [], line, col);
    TokenStreamCons("let", line, col, Reserved(Let), []);
    EndOfInput(line, col);
  }

  lemma OperatorsText()
    ensures SpacedOperators("+-/*") == "+ - / * "
    ensures OperatorKinds("+-/*") == [Plus, Minus, Slash, Star]
  {
  }

  /** The text `+ - / * ` is the four operators `PLUS MINUS SLASH STAR`. */
  lemma {:induction false} LexesOperators(line: int, col: int)
    ensures TokenStream("+ - / * ", line, col) == Lexed([Plus, Minus, Slash, Star], None)
  {
    SpacedOperatorsLexed("+-/*", line, col);
    OperatorsText();
  }
}
