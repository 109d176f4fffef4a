/**
 * The format-string tokenizer: which byte strings are format strings, how they fall into tokens,
 * and a loop over bytes that finds exactly those tokens.
 */
module FmtParse {
  import opened Words

  const OPEN: Byte := 0x7b
  const CLOSE: Byte := 0x7d

  datatype TokenKind = Literal | PlaceholderI | PlaceholderF | PlaceholderS | PlaceholderR

  datatype Token = Token(kind: TokenKind, start: nat, end: nat)

  datatype ErrorCode = TokenOverflow | InvalidPlaceholder | UnmatchedCloseBrace

  datatype Parse = Tokens(tokens: seq<Token>) | Failed(code: ErrorCode, start: nat, end: nat)

  // ---- the grammar ----------------------------------------------------------------------------

  /** A piece of text: a byte that is no brace, or an escaped brace. */
  predicate IsText(p: seq<Byte>) {
    (|p| == 1 && p[0] != OPEN && p[0] != CLOSE) || p == [OPEN, OPEN] || p == [CLOSE, CLOSE]
  }

  function PlaceholderFor(b: Byte): Option<TokenKind> {
    match b
    case 0x69 => Some(PlaceholderI)
    case 0x66 => Some(PlaceholderF)
    case 0x73 => Some(PlaceholderS)
    case 0x72 => Some(PlaceholderR)
    case _ => None
  }

  predicate IsPlaceholder(p: seq<Byte>) {
    |p| == 3 && p[0] == OPEN && PlaceholderFor(p[1]).Some? && p[2] == CLOSE
  }

  /** A format string is a sequence of text pieces and placeholders. */
  ghost predicate InGrammar(bytes: seq<Byte>) {
    exists pieces: seq<seq<Byte>> :: AllPieces(pieces) && Flatten(pieces) == bytes
  }

  predicate AllPieces(pieces: seq<seq<Byte>>) {
    forall i :: 0 <= i < |pieces| ==> IsText(pieces[i]) || IsPlaceholder(pieces[i])
  }

  function Flatten(pieces: seq<seq<Byte>>): seq<Byte> {
    if pieces == [] then [] else pieces[0] + Flatten(pieces[1..])
  }

  // ---- the tokenizer as a function --------------------------------------------------------------

  function Flush(literalStart: nat, i: nat): seq<Token> {
    if literalStart < i then [Token(Literal, literalStart, i)] else []
  }

  function Before(first: seq<Token>, rest: Parse): Parse {
    match rest
    case Tokens(ts) => Tokens(first + ts)
    case Failed(_, _, _) => rest
  }

  predicate EscapedAt(bytes: seq<Byte>, i: nat, brace: Byte) {
    i + 1 < |bytes| && bytes[i] == brace && bytes[i + 1] == brace
  }

  predicate PlaceholderAt(bytes: seq<Byte>, i: nat) {
    i + 2 < |bytes| && IsPlaceholder(bytes[i..i + 3])
  }

  /** The tokens from `i` on, when the current literal began at `literalStart`. */
  function Scan(bytes: seq<Byte>, i: nat, literalStart: nat): Parse
    requires literalStart <= i <= |bytes|
    decreases |bytes| - i
  {
    if i == |bytes| then Tokens(Flush(literalStart, i))
    else if bytes[i] == OPEN then
      if EscapedAt(bytes, i, OPEN) then Scan(bytes, i + 2, literalStart)
      else if PlaceholderAt(bytes, i) then
        Before(Flush(literalStart, i) + [Token(PlaceholderFor(bytes[i + 1]).value, i, i + 3)],
          Scan(bytes, i + 3, i + 3))
      else Failed(InvalidPlaceholder, i, if i + 1 < |bytes| then i + 2 else i + 1)
    else if bytes[i] == CLOSE then
      if EscapedAt(bytes, i, CLOSE) then Scan(bytes, i + 2, literalStart)
      else Failed(UnmatchedCloseBrace, i, i + 1)
    else Scan(bytes, i + 1, literalStart)
  }

  function ParseTokens(bytes: seq<Byte>): Parse {
    Scan(bytes, 0, 0)
  }

  /** The tokens stand end to end from `from` to `to`; literals are not empty and never neighbours. */
  ghost predicate Tiles(tokens: seq<Token>, from: nat, to: nat) {
    if tokens == [] then from == to
    else
      && tokens[0].start == from < tokens[0].end
      && (tokens[0].kind == Literal && |tokens| > 1 ==> tokens[1].kind != Literal)
      && Tiles(tokens[1..], tokens[0].end, to)
  }

  lemma {:induction false} ScanTiles(bytes: seq<Byte>, i: nat, literalStart: nat)
    requires literalStart <= i <= |bytes| && Scan(bytes, i, literalStart).Tokens?
    ensures Tiles(Scan(bytes, i, literalStart).tokens, literalStart, |bytes|)
    ensures |Scan(bytes, i, literalStart).tokens| <= |bytes| - literalStart
    decreases |bytes| - i
  {
    if i < |bytes| {
      if EscapedAt(bytes, i, OPEN) || EscapedAt(bytes, i, CLOSE) {
        ScanTiles(bytes, i + 2, literalStart);
      } else if PlaceholderAt(bytes, i) {
        ScanTiles(bytes, i + 3, i + 3);
        PlaceholderTiles(literalStart, i, |bytes|, Token(PlaceholderFor(bytes[i + 1]).value, i, i + 3),
          Scan(bytes, i + 3, i + 3).tokens);
      } else {
        ScanTiles(bytes, i + 1, literalStart);
      }
    } else {
      assert Tiles([], |bytes|, |bytes|);
    }
  }

  lemma PlaceholderTiles(literalStart: nat, i: nat, to: nat, p: Token, rest: seq<Token>)
    requires literalStart <= i && p.kind != Literal && p.start == i && p.end == i + 3 && Tiles(rest, i + 3, to)
    ensures Tiles(Flush(literalStart, i) + [p] + rest, literalStart, to)
  {
    var ts := [p] + rest;
    assert ts[1..] == rest;
    assert Tiles(ts, i, to);
    if literalStart < i {
      var all := Flush(literalStart, i) + [p] + rest;
      assert all[1..] == ts;
    } else {
      assert Flush(literalStart, i) + [p] + rest == ts;
    }
  }

  // ---- what the tokens say ------------------------------------------------------------------------

  function Spans(bytes: seq<Byte>, tokens: seq<Token>): seq<Byte> {
    if tokens == [] then []
    else
      (if tokens[0].start <= tokens[0].end <= |bytes| then bytes[tokens[0].start..tokens[0].end] else [])
      + Spans(bytes, tokens[1..])
  }

  lemma {:induction false} TilesSpans(bytes: seq<Byte>, tokens: seq<Token>, from: nat)
    requires from <= |bytes| && Tiles(tokens, from, |bytes|)
    ensures Spans(bytes, tokens) == bytes[from..]
    decreases |tokens|
  {
    if tokens != [] {
      TilesWithin(tokens[1..], tokens[0].end, |bytes|);
      TilesSpans(bytes, tokens[1..], tokens[0].end);
      assert bytes[from..] == bytes[from..tokens[0].end] + bytes[tokens[0].end..];
    }
  }

  lemma {:induction false} TilesWithin(tokens: seq<Token>, from: nat, to: nat)
    requires Tiles(tokens, from, to)
    ensures from <= to
    decreases |tokens|
  {
    if tokens != [] {
      TilesWithin(tokens[1..], tokens[0].end, to);
    }
  }

  /** The tokens of a parsed string, written one after the other, are the string. */
  lemma TokensCoverInput(bytes: seq<Byte>)
    requires ParseTokens(bytes).Tokens?
    ensures Spans(bytes, ParseTokens(bytes).tokens) == bytes && |ParseTokens(bytes).tokens| <= |bytes|
    ensures Tiles(ParseTokens(bytes).tokens, 0, |bytes|)
  {
    ScanTiles(bytes, 0, 0);
    TilesSpans(bytes, ParseTokens(bytes).tokens, 0);
  }

  /** Bytes that are text, with braces doubled. */
  ghost predicate IsLiteral(b: seq<Byte>) {
    exists pieces: seq<seq<Byte>> :: (forall i :: 0 <= i < |pieces| ==> IsText(pieces[i])) && Flatten(pieces) == b
  }

  /** What a token of each kind looks like in the input: text, `{i}`, `{f}`, `{s}`, or `{r}`. */
  ghost predicate Spelled(bytes: seq<Byte>, t: Token) {
    && t.start <= t.end <= |bytes|
    && var b := bytes[t.start..t.end];
       match t.kind
       case Literal => b != [] && IsLiteral(b)
       case PlaceholderI => b == [0x7b, 0x69, 0x7d]
       case PlaceholderF => b == [0x7b, 0x66, 0x7d]
       case PlaceholderS => b == [0x7b, 0x73, 0x7d]
       case PlaceholderR => b == [0x7b, 0x72, 0x7d]
  }

  lemma LiteralGrows(a: seq<Byte>, piece: seq<Byte>)
    requires IsLiteral(a) && IsText(piece)
    ensures IsLiteral(a + piece)
  {
    var pieces :| (forall i :: 0 <= i < |pieces| ==> IsText(pieces[i])) && Flatten(pieces) == a;
    FlattenPush(pieces, piece);
    assert Flatten(pieces + [piece]) == a + piece;
  }

  lemma {:induction false} FlattenPush(pieces: seq<seq<Byte>>, piece: seq<Byte>)
    ensures Flatten(pieces + [piece]) == Flatten(pieces) + piece
    decreases |pieces|
  {
    if pieces == [] {
      assert pieces + [piece] == [piece] && [piece][1..] == [];
    } else {
      assert (pieces + [piece])[0] == pieces[0] && (pieces + [piece])[1..] == pieces[1..] + [piece];
      FlattenPush(pieces[1..], piece);
    }
  }

  lemma EmptyLiteral()
    ensures IsLiteral([])
  {
    var none: seq<seq<Byte>> := [];
    assert Flatten(none) == [];
  }

  lemma PlaceholderSpelled(bytes: seq<Byte>, i: nat)
    requires PlaceholderAt(bytes, i)
    ensures Spelled(bytes, Token(PlaceholderFor(bytes[i + 1]).value, i, i + 3))
  {
    assert bytes[i..i + 3] == [bytes[i], bytes[i + 1], bytes[i + 2]];
  }

  lemma {:induction false} ScanSpelled(bytes: seq<Byte>, i: nat, literalStart: nat, t: Token)
    requires literalStart <= i <= |bytes| && IsLiteral(bytes[literalStart..i])
    requires Scan(bytes, i, literalStart).Tokens? && t in Scan(bytes, i, literalStart).tokens
    ensures Spelled(bytes, t)
    decreases |bytes| - i
  {
    hide IsLiteral;
    if i < |bytes| {
      if EscapedAt(bytes, i, OPEN) || EscapedAt(bytes, i, CLOSE) {
        LiteralGrows(bytes[literalStart..i], bytes[i..i + 2]);
        assert bytes[literalStart..i + 2] == bytes[literalStart..i] + bytes[i..i + 2];
        ScanSpelled(bytes, i + 2, literalStart, t);
      } else if PlaceholderAt(bytes, i) {
        PlaceholderSpelled(bytes, i);
        if t in Scan(bytes, i + 3, i + 3).tokens {
          EmptyLiteral();
          assert bytes[i + 3..i + 3] == [];
          ScanSpelled(bytes, i + 3, i + 3, t);
        }
      } else {
        LiteralGrows(bytes[literalStart..i], bytes[i..i + 1]);
        assert bytes[literalStart..i + 1] == bytes[literalStart..i] + bytes[i..i + 1];
        ScanSpelled(bytes, i + 1, literalStart, t);
      }
    }
  }

  /** Every token of a parsed string is what its kind says. */
  lemma TokensSpelled(bytes: seq<Byte>, t: Token)
    requires ParseTokens(bytes).Tokens? && t in ParseTokens(bytes).tokens
    ensures Spelled(bytes, t)
  {
    EmptyLiteral();
    assert bytes[0..0] == [];
    ScanSpelled(bytes, 0, 0, t);
  }

  // ---- parsing succeeds on the grammar and on nothing else -------------------------------------------

  lemma Extend(piece: seq<Byte>, rest: seq<Byte>)
    requires (IsText(piece) || IsPlaceholder(piece)) && InGrammar(rest)
    ensures InGrammar(piece + rest)
  {
    var pieces :| AllPieces(pieces) && Flatten(pieces) == rest;
    var more := [piece] + pieces;
    assert more[1..] == pieces;
    assert AllPieces(more) && Flatten(more) == piece + rest;
  }

  lemma {:induction false} ScannedIsGrammatical(bytes: seq<Byte>, i: nat, literalStart: nat)
    requires literalStart <= i <= |bytes| && Scan(bytes, i, literalStart).Tokens?
    ensures InGrammar(bytes[i..])
    decreases |bytes| - i
  {
    if i == |bytes| {
      assert AllPieces([]) && Flatten([]) == bytes[i..];
    } else {
      var n := if EscapedAt(bytes, i, OPEN) || EscapedAt(bytes, i, CLOSE) then 2 else if bytes[i] == OPEN then 3 else 1;
      ScannedIsGrammatical(bytes, i + n, if n == 3 then i + 3 else literalStart);
      assert bytes[i..] == bytes[i..i + n] + bytes[i + n..];
      Extend(bytes[i..i + n], bytes[i + n..]);
    }
  }

  lemma {:induction false} GrammaticalIsScanned(bytes: seq<Byte>, i: nat, literalStart: nat, pieces: seq<seq<Byte>>)
    requires literalStart <= i <= |bytes| && AllPieces(pieces) && Flatten(pieces) == bytes[i..]
    ensures Scan(bytes, i, literalStart).Tokens?
    decreases |pieces|
  {
    if pieces != [] {
      var p, rest := pieces[0], pieces[1..];
      assert bytes[i..] == p + Flatten(rest);
      var n := |p|;
      assert bytes[i..i + n] == p;
      assert bytes[i + n..] == Flatten(rest);
      assert forall j :: 0 <= j < n ==> bytes[i + j] == p[j];
      GrammaticalIsScanned(bytes, i + n, if n == 3 then i + 3 else literalStart, rest);
    }
  }

  lemma ParsesExactlyTheGrammar(bytes: seq<Byte>)
    ensures ParseTokens(bytes).Tokens? <==> InGrammar(bytes)
  {
    assert bytes[0..] == bytes;
    if ParseTokens(bytes).Tokens? {
      ScannedIsGrammatical(bytes, 0, 0);
    }
    if InGrammar(bytes) {
      var pieces :| AllPieces(pieces) && Flatten(pieces) == bytes;
      GrammaticalIsScanned(bytes, 0, 0, pieces);
    }
  }

  // ---- the loop -------------------------------------------------------------------------------------

  method PushToken(outTokens: array<Token>, n: nat, token: Token) returns (next: nat, ok: bool)
    requires n <= outTokens.Length
    modifies outTokens
    ensures ok == (n < outTokens.Length) && next <= outTokens.Length
    ensures if ok then next == n + 1 && outTokens[..next] == old(outTokens[..n]) + [token]
      else next == n && outTokens[..n] == old(outTokens[..n])
  {
    ok := n < outTokens.Length;
    next := n;
    if ok {
      outTokens[n] := token;
      next := n + 1;
    }
  }

  /** How many tokens there are from `i` on, up to the first error: a literal in front of a bad
      placeholder is one of them, a literal in front of a single closing brace is not. */
  function TokensBeforeError(bytes: seq<Byte>, i: nat, literalStart: nat): nat
    requires literalStart <= i <= |bytes|
    decreases |bytes| - i
  {
    if i == |bytes| then |Flush(literalStart, i)|
    else if EscapedAt(bytes, i, OPEN) || EscapedAt(bytes, i, CLOSE) then TokensBeforeError(bytes, i + 2, literalStart)
    else if bytes[i] == OPEN then
      if PlaceholderAt(bytes, i) then |Flush(literalStart, i)| + 1 + TokensBeforeError(bytes, i + 3, i + 3)
      else |Flush(literalStart, i)|
    else if bytes[i] == CLOSE then 0
    else TokensBeforeError(bytes, i + 1, literalStart)
  }

  /** They are all tokens when there is no error, and never more than bytes. */
  lemma {:induction false} TokensCounted(bytes: seq<Byte>, i: nat, literalStart: nat)
    requires literalStart <= i <= |bytes|
    ensures TokensBeforeError(bytes, i, literalStart) <= |bytes| - literalStart
    ensures Scan(bytes, i, literalStart).Tokens? ==>
      |Scan(bytes, i, literalStart).tokens| == TokensBeforeError(bytes, i, literalStart)
    decreases |bytes| - i
  {
    if i < |bytes| {
      if EscapedAt(bytes, i, OPEN) || EscapedAt(bytes, i, CLOSE) {
        TokensCounted(bytes, i + 2, literalStart);
      } else if bytes[i] == OPEN && PlaceholderAt(bytes, i) {
        TokensCounted(bytes, i + 3, i + 3);
      } else if bytes[i] != OPEN && bytes[i] != CLOSE {
        TokensCounted(bytes, i + 1, literalStart);
      }
    }
  }

  /** The table overflows exactly when there are more tokens before the first error than it holds;
      otherwise it holds the parse, or the error is the parse's. */
  ghost predicate Outcome(bytes: seq<Byte>, capacity: nat, written: seq<Token>, error: Option<Parse>) {
    var overflows := TokensBeforeError(bytes, 0, 0) > capacity;
    match error
    case None => !overflows && ParseTokens(bytes) == Tokens(written)
    case Some(Tokens(_)) => false
    case Some(Failed(code, start, end)) =>
      if code == TokenOverflow then overflows
      else !overflows && ParseTokens(bytes) == Failed(code, start, end)
  }

  lemma ScanPlaceholder(bytes: seq<Byte>, done: seq<Token>, i: nat, literalStart: nat)
    requires literalStart <= i < |bytes| && bytes[i] == OPEN && !EscapedAt(bytes, i, OPEN) && PlaceholderAt(bytes, i)
    ensures Before(done, Scan(bytes, i, literalStart))
      == Before(done + Flush(literalStart, i) + [Token(PlaceholderFor(bytes[i + 1]).value, i, i + 3)],
        Scan(bytes, i + 3, i + 3))
  {
    var p := Token(PlaceholderFor(bytes[i + 1]).value, i, i + 3);
    BeforeTwice(done, Flush(literalStart, i) + [p], Scan(bytes, i + 3, i + 3));
    assert done + (Flush(literalStart, i) + [p]) == done + Flush(literalStart, i) + [p];
  }

  /** Tokens are written into a caller's table, which is large enough when it has room for every byte. */
  method ParseBytes(bytes: seq<Byte>, outTokens: array<Token>) returns (tokenLen: nat, error: Option<Parse>)
    modifies outTokens
    ensures tokenLen <= outTokens.Length && Outcome(bytes, outTokens.Length, outTokens[..tokenLen], error)
    ensures outTokens.Length >= |bytes| ==>
      error == if ParseTokens(bytes).Tokens? then None else Some(ParseTokens(bytes))
  {
    hide IsPlaceholder, PlaceholderFor, Spans;
    var i, literalStart, ok := 0, 0, true;
    tokenLen := 0;
    TokensCounted(bytes, 0, 0);
    while i < |bytes|
      invariant 0 <= literalStart <= i <= |bytes| && tokenLen <= outTokens.Length
      invariant ParseTokens(bytes) == Before(outTokens[..tokenLen], Scan(bytes, i, literalStart))
      invariant TokensBeforeError(bytes, 0, 0) == tokenLen + TokensBeforeError(bytes, i, literalStart)
    {
      if EscapedAt(bytes, i, OPEN) || EscapedAt(bytes, i, CLOSE) {
        i := i + 2;
      } else if bytes[i] == OPEN {
        ghost var done := outTokens[..tokenLen];
        if literalStart < i {
          tokenLen, ok := PushToken(outTokens, tokenLen, Token(Literal, literalStart, i));
          if !ok {
            return tokenLen, Some(Failed(TokenOverflow, literalStart, i));
          }
        }
        assert outTokens[..tokenLen] == done + Flush(literalStart, i);
        if !PlaceholderAt(bytes, i) {
          return tokenLen, Some(Failed(InvalidPlaceholder, i, if i + 1 < |bytes| then i + 2 else i + 1));
        }
        ScanPlaceholder(bytes, done, i, literalStart);
        PlaceholderKnown(bytes, i);
        tokenLen, ok := PushToken(outTokens, tokenLen, Token(PlaceholderFor(bytes[i + 1]).value, i, i + 3));
        if !ok {
          return tokenLen, Some(Failed(TokenOverflow, i, i + 3));
        }
        i := i + 3;
        literalStart := i;
      } else if bytes[i] == CLOSE {
        return tokenLen, Some(Failed(UnmatchedCloseBrace, i, i + 1));
      } else {
        i := i + 1;
      }
    }
    assert outTokens[..tokenLen] + [] == outTokens[..tokenLen];
    if literalStart < |bytes| {
      tokenLen, ok := PushToken(outTokens, tokenLen, Token(Literal, literalStart, |bytes|));
      if !ok {
        return tokenLen, Some(Failed(TokenOverflow, literalStart, |bytes|));
      }
    }
    error := None;
  }

  lemma PlaceholderKnown(bytes: seq<Byte>, i: nat)
    requires PlaceholderAt(bytes, i)
    ensures PlaceholderFor(bytes[i + 1]).Some?
  {
  }

  lemma BeforeTwice(a: seq<Token>, b: seq<Token>, rest: Parse)
    ensures Before(a, Before(b, rest)) == Before(a + b, rest)
  {
    if rest.Tokens? {
      assert a + (b + rest.tokens) == a + b + rest.tokens;
    }
  }
}
