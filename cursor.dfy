/** The character cursor of src/lexer/cursor.rs: one character of lookahead
    over the unread rest of the input. The `line` and `col` fields belong to the
    cursor of the current tokenizer crate, which the current lexer updates. */
module LexerCursor {
  import opened Wrappers

  /** The length of the longest prefix of `s` whose characters all satisfy `p`. */
  function Span(p: char -> bool, s: string): (n: nat)
    ensures n <= |s|
  {
    if s == [] || !p(s[0]) then 0 else 1 + Span(p, s[1..])
  }

  /** `Span` is the longest such prefix: every character before it satisfies
      `p`, and the one at it, if any, does not. */
  lemma {:induction false} SpanMaximal(p: char -> bool, s: string)
    ensures forall i :: 0 <= i < Span(p, s) ==> p(s[i])
    ensures Span(p, s) == |s| || !p(s[Span(p, s)])
    decreases |s|
  {
    if s != [] && p(s[0]) {
      SpanMaximal(p, s[1..]);
      forall i | 1 <= i < Span(p, s)
        ensures p(s[i])
      {
        assert s[i] == s[1..][i - 1];
      }
    }
  }

  /** A prefix length with the two properties of `Span` is `Span` itself. */
  lemma {:induction false} SpanIs(p: char -> bool, s: string, k: nat)
    requires k <= |s|
    requires forall i :: 0 <= i < k ==> p(s[i])
    requires k == |s| || !p(s[k])
    ensures Span(p, s) == k
    decreases k
  {
    if k > 0 {
      SpanIs(p, s[1..], k - 1);
    }
  }

  /** What `first()` returns for the unread rest `s`. */
  function Peek(s: string): char
  {
    if s == [] then '\0' else s[0]
  }

  class Cursor {
    /** The unread part of the input (the `chars` iterator). */
    var rest: string
    /** The last character consumed, `'\0'` before the first. */
    var prev: char
    var line: int
    var col: int

    /** The whole input and the part consumed so far. */
    ghost var input: string
    ghost var consumed: string

    ghost predicate Valid()
      reads this
    {
      && consumed + rest == input
      && prev == (if consumed == [] then '\0' else consumed[|consumed| - 1])
    }

    constructor (s: string)
      ensures Valid()
      ensures input == s && rest == s && consumed == [] && prev == '\0'
      ensures line == 0 && col == 0
    {
      rest := s;
      prev := '\0';
      line := 0;
      col := 0;
      input := s;
      consumed := [];
    }

    /** Consumes and returns the next character; at the end nothing changes. */
    method Bump() returns (r: Option<char>)
      requires Valid()
      modifies this
      ensures Valid() && input == old(input) && line == old(line) && col == old(col)
      ensures old(rest) == [] ==> r == None && rest == [] && consumed == old(consumed) && prev == old(prev)
      ensures old(rest) != [] ==>
        && r == Some(old(rest)[0])
        && rest == old(rest)[1..]
        && consumed == old(consumed) + [old(rest)[0]]
        && prev == old(rest)[0]
    {
      if rest == [] {
        r := None;
      } else {
        var c := rest[0];
        r := Some(c);
        rest := rest[1..];
        consumed := consumed + [c];
        prev := c;
      }
    }

    /** True exactly when the whole input has been consumed. */
    function IsEof(): (b: bool)
      reads this
      ensures Valid() ==> (b <==> consumed == input)
    {
      rest == []
    }

    /** The next unread character of the input, `'\0'` at the end. */
    function First(): (c: char)
      reads this
      ensures Valid() && |consumed| < |input| ==> c == input[|consumed|]
      ensures Valid() && |consumed| == |input| ==> c == '\0'
    {
      Peek(rest)
    }

    /** The character after the next one, `'\0'` if fewer than two remain. */
    function Second(): (c: char)
      reads this
      ensures Valid() && |consumed| + 1 < |input| ==> c == input[|consumed| + 1]
      ensures Valid() && |consumed| + 1 >= |input| ==> c == '\0'
    {
      if |rest| < 2 then '\0' else rest[1]
    }

    /** Consumes the longest prefix of the unread input whose characters all
        satisfy `p`: afterwards the cursor is at the end or `p(First())` fails. */
    method EatWhile(p: char -> bool)
      requires Valid()
      modifies this
      ensures Valid() && input == old(input) && line == old(line) && col == old(col)
      ensures rest == old(rest)[Span(p, old(rest))..]
      ensures forall i :: |old(consumed)| <= i < |consumed| ==> p(consumed[i])
      ensures IsEof() || !p(First())
    {
      while p(First()) && !IsEof()
        invariant Valid() && input == old(input) && line == old(line) && col == old(col)
        invariant |rest| <= |old(rest)| && rest == old(rest)[|old(rest)| - |rest|..]
        invariant forall i :: 0 <= i < |old(rest)| - |rest| ==> p(old(rest)[i])
        invariant |consumed| == |old(consumed)| + |old(rest)| - |rest|
        decreases |rest|
      {
        var _ := Bump();
      }
      SpanIs(p, old(rest), |old(rest)| - |rest|);
      forall i | |old(consumed)| <= i < |consumed|
        ensures p(consumed[i])
      {
        assert consumed[i] == input[i];
        assert old(consumed + rest)[i] == old(rest)[i - |old(consumed)|];
      }
    }
  }
}
