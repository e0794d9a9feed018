/**
 * The tokenizer of expected outputs in the compiler tests (`tokenize` in
 * packages/compiler/test/render3/mock_compile.ts): leading white space is
 * skipped, then while text is left a token is taken by the TOKEN
 * recogniser (or an error is thrown), the white space after it is
 * skipped, and the token becomes a piece of the pattern builder.
 *
 * Lexing is stated for any recogniser that consumes at least one
 * character, so that its proofs do not depend on how TOKEN matches.
 */
module Tokenizer {
  import opened Base
  import opened Text
  import opened TokenRecogniser
  import opened PatternBuilder

  /** A recogniser of the token at the start of a text: the length of its
      match, if any. */
  type Recogniser = string -> Option<nat>

  /** next consumes at least one and at most all characters when it
      matches. */
  ghost predicate Consumes(next: Recogniser)
  {
    forall s :: next(s).Some? ==> 0 < next(s).value <= |s|
  }

  /** next matches only whole words of the token language isToken. */
  ghost predicate MatchesTokens(next: Recogniser, isToken: string -> bool)
  {
    forall s :: next(s).Some? && next(s).value <= |s| ==> isToken(s[..next(s).value])
  }

  /** TOKEN as written is a recogniser of its own token language. */
  lemma NextTokenAsWrittenRecogniser()
    ensures Consumes(NextTokenAsWritten) && MatchesTokens(NextTokenAsWritten, IsTokenAsWritten)
  {
    forall s | NextTokenAsWritten(s).Some?
      ensures IsTokenAsWritten(s[..NextTokenAsWritten(s).value])
    {
      NextTokenAsWrittenSpec(s);
    }
  }

  /** The corrected TOKEN is a recogniser of the intended token language. */
  lemma NextTokenRecogniser()
    ensures Consumes(NextToken) && MatchesTokens(NextToken, IsToken)
  {
    forall s | NextToken(s).Some?
      ensures IsToken(s[..NextToken(s).value])
    {
      NextTokenSpec(s);
    }
  }

  /** One token with the white space skipped after it. */
  datatype Lexeme = Lexeme(token: string, space: string)

  /** The text of the error thrown when no token is found: the first 30
      characters of what is left. */
  function NoTokenMessage(text: string): string
  {
    "Invalid test, no token found for '" + (if |text| <= 30 then text else text[..30]) + "...'"
  }

  /** The lexemes of text, which starts with a token or is empty: take a
      token with next (or fail), skip the white space after it, go on. */
  function Lex(text: string, next: Recogniser): Result<seq<Lexeme>, string>
    requires Consumes(next)
    decreases |text|
  {
    if |text| == 0 then Ok([])
    else
      match next(text)
      case None => Err(NoTokenMessage(text))
      case Some(n) =>
        var after := text[n..];
        var w := Run(after, IsSpace);
        match Lex(after[w..], next)
        case Err(e) => Err(e)
        case Ok(ls) => Ok([Lexeme(text[..n], after[..w])] + ls)
  }

  /** The text a list of lexemes spells. */
  function Spell(ls: seq<Lexeme>): string
  {
    if |ls| == 0 then "" else ls[0].token + ls[0].space + Spell(ls[1..])
  }

  /** A text cut after its first n characters and w more. */
  lemma Rejoin(text: string, n: nat, w: nat)
    requires n + w <= |text|
    ensures text == text[..n] + text[n..][..w] + text[n..][w..]
  {
  }

  lemma SpellCons(l: Lexeme, ls: seq<Lexeme>)
    ensures Spell([l] + ls) == l.token + l.space + Spell(ls)
  {
    assert ([l] + ls)[1..] == ls;
  }

  /** A successful lexing run consumes the whole text. */
  lemma {:induction false} LexConsumes(text: string, next: Recogniser)
    requires Consumes(next) && Lex(text, next).Ok?
    ensures Spell(Lex(text, next).value) == text
    decreases |text|
  {
    if |text| > 0 {
      var n := next(text).value;
      var w := Run(text[n..], IsSpace);
      var rest := text[n..][w..];
      LexConsumes(rest, next);
      var l := Lexeme(text[..n], text[n..][..w]);
      SpellCons(l, Lex(rest, next).value);
      Rejoin(text, n, w);
    }
  }

  /** Every character of s is white space. */
  predicate AllSpace(s: string)
  {
    forall j | 0 <= j < |s| :: IsSpace(s[j])
  }

  /** Every lexeme is a whole word of isToken followed by nothing but
      white space. */
  predicate WellLexed(ls: seq<Lexeme>, isToken: string -> bool)
  {
    forall k | 0 <= k < |ls| :: isToken(ls[k].token) && AllSpace(ls[k].space)
  }

  lemma WellLexedCons(l: Lexeme, ls: seq<Lexeme>, isToken: string -> bool)
    requires isToken(l.token) && AllSpace(l.space) && WellLexed(ls, isToken)
    ensures WellLexed([l] + ls, isToken)
  {
    forall k | 1 <= k < |[l] + ls|
      ensures isToken(([l] + ls)[k].token) && AllSpace(([l] + ls)[k].space)
    {
      assert ([l] + ls)[k] == ls[k - 1];
    }
  }

  /** The white space skipped after a token is all white space. */
  lemma RunAllSpace(s: string)
    ensures AllSpace(s[..Run(s, IsSpace)])
  {
    RunSpec(s, IsSpace);
  }

  /** The lexemes of a successful run are whole tokens, each followed by
      nothing but white space. */
  lemma {:induction false} LexTokens(text: string, next: Recogniser, isToken: string -> bool)
    requires Consumes(next) && MatchesTokens(next, isToken) && Lex(text, next).Ok?
    ensures WellLexed(Lex(text, next).value, isToken)
    decreases |text|
  {
    if |text| > 0 {
      var n := next(text).value;
      var w := Run(text[n..], IsSpace);
      var rest := text[n..][w..];
      LexTokens(rest, next, isToken);
      RunAllSpace(text[n..]);
      WellLexedCons(Lexeme(text[..n], text[n..][..w]), Lex(rest, next).value, isToken);
    }
  }

  /** A failing run reports the first 30 characters of a remainder of the
      text at which next finds no token. */
  lemma {:induction false} LexError(text: string, next: Recogniser)
    requires Consumes(next) && Lex(text, next).Err?
    ensures exists i | 0 <= i < |text| :: next(text[i..]).None? && Lex(text, next).error == NoTokenMessage(text[i..])
    decreases |text|
  {
    if next(text).None? {
      assert text[0..] == text;
    } else {
      var n := next(text).value;
      var after := text[n..];
      var w := Run(after, IsSpace);
      var rest := after[w..];
      LexError(rest, next);
      var i :| 0 <= i < |rest| && next(rest[i..]).None? && Lex(rest, next).error == NoTokenMessage(rest[i..]);
      assert rest[i..] == text[n + w + i..];
    }
  }

  /** The piece a token becomes. */
  function Classify(token: string): Piece
  {
    if token == "IDENT" then Regex(IdentSource)
    else if token == [Ellipsis] then Regex(SkipSource)
    else Literal(token)
  }

  /** The pieces of a list of lexemes, in order. */
  function PiecesOf(ls: seq<Lexeme>): (ps: seq<Piece>)
    ensures |ps| == |ls|
    ensures forall k | 0 <= k < |ls| :: ps[k] == Classify(ls[k].token)
  {
    if |ls| == 0 then [] else [Classify(ls[0].token)] + PiecesOf(ls[1..])
  }

  /** The pieces already pushed followed by those of the rest of a run, or
      the error of the rest. */
  function Continue(pieces: seq<Piece>, rest: Result<seq<Lexeme>, string>): Result<seq<Piece>, string>
  {
    match rest
    case Err(e) => Err(e)
    case Ok(ls) => Ok(pieces + PiecesOf(ls))
  }

  /** `tokenize(text)`: the pieces of the text after its leading white
      space, or the error thrown, with TOKEN as written. */
  function Tokens(text: string): Result<seq<Piece>, string>
  {
    NextTokenAsWrittenRecogniser();
    Continue([], Lex(text[Run(text, IsSpace)..], NextTokenAsWritten))
  }

  /** The same with the corrected TOKEN. */
  function TokensIntended(text: string): Result<seq<Piece>, string>
  {
    NextTokenRecogniser();
    Continue([], Lex(text[Run(text, IsSpace)..], NextToken))
  }

  /** The end of a run: nothing left, nothing more to push. */
  lemma LexDone(pieces: seq<Piece>, next: Recogniser)
    requires Consumes(next)
    ensures Continue(pieces, Lex([], next)) == Ok(pieces)
  {
    assert pieces + PiecesOf([]) == pieces;
  }

  /** A text holding one double-quoted literal with an apostrophe: TOKEN
      as written finds no token in it, so the tokenizer throws. */
  lemma ApostropheTokens(s: string)
    requires s == "\"it's\""
    ensures Tokens(s) == Err(NoTokenMessage(s))
  {
    assert Run(s, IsSpace) == 0 && s[0..] == s;
    ApostropheAsWritten();
    AtQuote(s);
  }

  /** With the corrected TOKEN the literal is one piece. */
  lemma ApostropheTokensIntended(s: string)
    requires s == "\"it's\""
    ensures TokensIntended(s) == Ok([Literal(s)])
  {
    assert Run(s, IsSpace) == 0;
    QuotedComplete(s, '"', false, 6);
    AtQuote(s);
    TokensIntendedSingle(s);
  }

  /** A text that is one token, with nothing after it, is one piece. */
  lemma LexLast(pieces: seq<Piece>, text: string, next: Recogniser)
    requires Consumes(next) && |text| > 0 && next(text) == Some(|text|)
    ensures Continue(pieces, Lex(text, next)) == Ok(pieces + [Classify(text)])
  {
    LexStep(pieces, text, next, |text|);
    assert text[|text|..] == [] && text[..|text|] == text;
    LexDone(pieces + [Classify(text)], next);
  }

  lemma LexSingle(text: string, next: Recogniser)
    requires Consumes(next) && |text| > 0 && next(text) == Some(|text|)
    ensures Continue([], Lex(text, next)) == Ok([Classify(text)])
  {
    var ps: seq<Piece> := [];
    LexLast(ps, text, next);
    assert ps + [Classify(text)] == [Classify(text)];
  }

  /** A text that is one token as written is one piece. */
  lemma TokensSingle(s: string)
    requires |s| > 0 && Run(s, IsSpace) == 0 && NextTokenAsWritten(s) == Some(|s|)
    ensures Tokens(s) == Ok([Classify(s)])
  {
    assert s[0..] == s;
    NextTokenAsWrittenRecogniser();
    LexSingle(s, NextTokenAsWritten);
  }

  /** A text that is one corrected token is one piece. */
  lemma TokensIntendedSingle(s: string)
    requires |s| > 0 && Run(s, IsSpace) == 0 && NextToken(s) == Some(|s|)
    ensures TokensIntended(s) == Ok([Classify(s)])
  {
    assert s[0..] == s;
    NextTokenRecogniser();
    LexSingle(s, NextToken);
  }

  /** Two double-quoted literals on one line become one literal piece
      with TOKEN as written. */
  lemma TwoStringsTokens(s: string)
    requires s == "\"a\" + \"b\""
    ensures Tokens(s) == Ok([Literal(s)])
  {
    assert Run(s, IsSpace) == 0;
    TwoStringsAsWritten(s);
    TokensSingle(s);
  }

  /** One step of the loop: the piece of the first token is pushed and the
      run goes on after the token and its white space. */
  lemma LexStep(pieces: seq<Piece>, text: string, next: Recogniser, n: nat)
    requires Consumes(next) && |text| > 0 && next(text) == Some(n)
    ensures var after := text[n..];
            Continue(pieces, Lex(text, next))
              == Continue(pieces + [Classify(text[..n])], Lex(after[Run(after, IsSpace)..], next))
  {
    var after := text[n..];
    var w := Run(after, IsSpace);
    match Lex(after[w..], next)
    case Err(e) =>
    case Ok(ls) =>
      var l := Lexeme(text[..n], after[..w]);
      assert Lex(text, next) == Ok([l] + ls);
      assert ([l] + ls)[1..] == ls;
      assert PiecesOf([l] + ls) == [Classify(text[..n])] + PiecesOf(ls);
      AppendAssoc(pieces, [Classify(text[..n])], PiecesOf(ls));
  }

  /** `tokenize`: skip white space, then while text is left take a token
      (or throw), skip the white space after it and push its piece. */
  method Tokenize(input: string) returns (r: Result<seq<Piece>, string>)
    ensures r == Tokens(input)
  {
    NextTokenAsWrittenRecogniser();
    var text := input;
    text := text[Run(text, IsSpace)..];
    var pieces: seq<Piece> := [];
    while |text| > 0
      invariant Continue(pieces, Lex(text, NextTokenAsWritten)) == Tokens(input)
      decreases |text|
    {
      var m := NextTokenAsWritten(text);
      if m.None? {
        assert Lex(text, NextTokenAsWritten) == Err(NoTokenMessage(text));
        return Err(NoTokenMessage(text));
      }
      var n := m.value;
      var token := text[..n];
      LexStep(pieces, text, NextTokenAsWritten, n);
      text := text[n..];
      text := text[Run(text, IsSpace)..];
      if token == "IDENT" {
        pieces := pieces + [Regex(IdentSource)];
      } else if token == [Ellipsis] {
        pieces := pieces + [Regex(SkipSource)];
      } else {
        pieces := pieces + [Literal(token)];
      }
    }
    assert Lex(text, NextTokenAsWritten) == Ok([]);
    assert pieces + PiecesOf([]) == pieces;
    return Ok(pieces);
  }
}
