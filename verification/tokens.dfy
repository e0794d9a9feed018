/**
 * The TOKEN recogniser of the compiler tests' expected-output tokenizer
 * (packages/compiler/test/render3/mock_compile.ts): at the start of a text
 * it matches an identifier, an operator, a string literal, a number or an
 * ellipsis, trying the alternatives in the order the expression lists
 * them, and gives the length of the match.
 */
module TokenRecogniser {
  import opened Base
  import opened Text

  /** First characters of IDENTIFIER. */
  predicate IsIdentStart(c: char)
  {
    ('A' <= c <= 'Z') || ('a' <= c <= 'z') || c == '_' || c == '$' || c == '\U{0275}'
  }

  /** Later characters of IDENTIFIER. */
  predicate IsIdentPart(c: char)
  {
    ('A' <= c <= 'Z') || ('a' <= c <= 'z') || ('0' <= c <= '9') || c == '_' || c == '$'
  }

  /** The alternatives of OPERATOR, in the order the expression lists
      them. */
  const Operators: seq<string> :=
    [ "!", "%", "*", "/", "^", "&", "&&||", "||", "(", ")", "{", "}", "[", "]", ":", ";", ".",
      "<", "<=", ">", ">=", "=", "==", "===", "!=", "!==", "=>", "+", "++", "-", "--", "@", ",",
      ".", "..." ]

  /** The ellipsis character, which stands for any text. */
  const Ellipsis: char := '\U{2026}'

  /** t is one of ops. */
  predicate Listed(t: string, ops: seq<string>)
  {
    |ops| > 0 && (ops[0] == t || Listed(t, ops[1..]))
  }

  /** Every operator is non-empty and starts with printable ASCII
      punctuation. */
  lemma OperatorsStartPunctuation()
    ensures forall k | 0 <= k < |Operators| :: |Operators[k]| > 0 && '!' <= Operators[k][0] <= '~'
  {
  }

  lemma {:induction false} ListedStart(t: string, ops: seq<string>)
    requires Listed(t, ops)
    requires forall k | 0 <= k < |ops| :: |ops[k]| > 0 && '!' <= ops[k][0] <= '~'
    ensures |t| > 0 && '!' <= t[0] <= '~'
  {
    if ops[0] != t {
      ListedStart(t, ops[1..]);
    }
  }

  /** No operator starts with a quote, so a quoted text is never taken
      for an operator. */
  lemma OperatorsAvoidQuotes()
    ensures forall k | 0 <= k < |Operators| :: |Operators[k]| > 0 && Operators[k][0] !in "'\"`"
  {
  }

  lemma {:induction false} ListedAvoidsQuotes(t: string, ops: seq<string>)
    requires Listed(t, ops)
    requires forall k | 0 <= k < |ops| :: |ops[k]| > 0 && ops[k][0] !in "'\"`"
    ensures |t| > 0 && t[0] !in "'\"`"
  {
    if ops[0] != t {
      ListedAvoidsQuotes(t, ops[1..]);
    }
  }

  /** The first of ops that is a prefix of s (an alternation of literals
      tries them in order). */
  function FirstPrefix(ops: seq<string>, s: string): (r: Option<string>)
    ensures r.Some? ==> r.value <= s
  {
    if |ops| == 0 then None
    else if ops[0] <= s then Some(ops[0])
    else FirstPrefix(ops[1..], s)
  }

  /** What FirstPrefix finds is one of ops, and it finds one whenever one
      of ops is a prefix of s. */
  lemma {:induction false} FirstPrefixSpec(ops: seq<string>, s: string)
    ensures FirstPrefix(ops, s).Some? ==> Listed(FirstPrefix(ops, s).value, ops)
    ensures FirstPrefix(ops, s).None? ==> forall t | t <= s :: !Listed(t, ops)
  {
    if |ops| > 0 && !(ops[0] <= s) {
      FirstPrefixSpec(ops[1..], s);
    }
  }

  /** IDENTIFIER at the start of s: the length of its greedy match. */
  function IdentifierMatch(s: string): (r: Option<nat>)
    ensures r.Some? ==> 0 < r.value <= |s|
  {
    if |s| > 0 && IsIdentStart(s[0]) then Some(1 + Run(s[1..], IsIdentPart)) else None
  }

  /** OPERATOR at the start of s. */
  function OperatorMatch(s: string): (r: Option<nat>)
    ensures r.Some? ==> 0 < r.value <= |s|
  {
    match FirstPrefix(Operators, s)
    case None => None
    case Some(op) =>
      FirstPrefixSpec(Operators, s);
      OperatorsStartPunctuation();
      ListedStart(op, Operators);
      Some(|op|)
  }

  /** The characters allowed between the quotes q. */
  function Inside(q: char, lines: bool): char -> bool
  {
    c => c != q && (lines || c != '\n')
  }

  /** A quoted string closed by the same quote: `'[^'\n]*'` for q = `'`,
      `` `[^`]*` `` for the backtick, which may span lines. */
  function QuotedMatch(s: string, q: char, lines: bool): (r: Option<nat>)
    requires |s| > 0
    ensures r.Some? ==> 2 <= r.value <= |s|
  {
    var body := Run(s[1..], Inside(q, lines));
    if 1 + body < |s| && s[1 + body] == q then Some(body + 2) else None
  }

  /** STRING at the start of s, with a double-quoted string closed by the
      first `"` (what the expression evidently means). */
  function StringMatch(s: string): (r: Option<nat>)
    ensures r.Some? ==> 0 < r.value <= |s|
  {
    if |s| == 0 then None
    else if s[0] == '\'' then QuotedMatch(s, '\'', false)
    else if s[0] == '"' then QuotedMatch(s, '"', false)
    else if s[0] == '`' then QuotedMatch(s, '`', true)
    else None
  }

  /** NUMBER at the start of s. */
  function NumberMatch(s: string): (r: Option<nat>)
    ensures r.Some? ==> 0 < r.value <= |s|
  {
    var n := Run(s, IsDigit);
    if n > 0 then Some(n) else None
  }

  /** ELLIPSIS at the start of s. */
  function EllipsisMatch(s: string): (r: Option<nat>)
    ensures r.Some? ==> 0 < r.value <= |s|
  {
    if |s| > 0 && s[0] == Ellipsis then Some(1) else None
  }

  /** The alternatives of TOKEN, in the order the expression lists them. */
  const TokenAlternatives: seq<string -> Option<nat>> :=
    [IdentifierMatch, OperatorMatch, StringMatch, NumberMatch, EllipsisMatch]

  /** Alternation: the match of the first alternative that matches at the
      start of s. */
  function FirstMatch(alts: seq<string -> Option<nat>>, s: string): (r: Option<nat>)
    requires forall k | 0 <= k < |alts| :: alts[k](s).Some? ==> 0 < alts[k](s).value <= |s|
    ensures r.Some? ==> 0 < r.value <= |s|
  {
    if |alts| == 0 then None
    else if alts[0](s).Some? then alts[0](s)
    else FirstMatch(alts[1..], s)
  }

  /** TOKEN at the start of s, as the length of its match. */
  function NextToken(s: string): (r: Option<nat>)
    ensures r.Some? ==> 0 < r.value <= |s|
  {
    FirstMatch(TokenAlternatives, s)
  }

  /** The alternation of TOKEN written out. */
  lemma NextTokenChoice(s: string)
    ensures NextToken(s) ==
              if IdentifierMatch(s).Some? then IdentifierMatch(s)
              else if OperatorMatch(s).Some? then OperatorMatch(s)
              else if StringMatch(s).Some? then StringMatch(s)
              else if NumberMatch(s).Some? then NumberMatch(s)
              else EllipsisMatch(s)
  {
    var a4: seq<string -> Option<nat>> := [EllipsisMatch];
    var a3 := [NumberMatch] + a4;
    var a2 := [StringMatch] + a3;
    var a1 := [OperatorMatch] + a2;
    assert TokenAlternatives == [IdentifierMatch] + a1;
    assert a1[1..] == a2 && a2[1..] == a3 && a3[1..] == a4 && a4[1..] == [];
    assert FirstMatch(a4, s) == EllipsisMatch(s);
    assert FirstMatch(a3, s) == if NumberMatch(s).Some? then NumberMatch(s) else FirstMatch(a4, s);
    assert FirstMatch(a2, s) == if StringMatch(s).Some? then StringMatch(s) else FirstMatch(a3, s);
    assert FirstMatch(a1, s) == if OperatorMatch(s).Some? then OperatorMatch(s) else FirstMatch(a2, s);
  }

  /** A whole identifier. */
  predicate IsIdentifier(t: string)
  {
    |t| > 0 && IsIdentStart(t[0]) && forall k | 1 <= k < |t| :: IsIdentPart(t[k])
  }

  /** A whole string literal: a quote, characters other than that quote
      (and, but for the backtick, other than a line feed), the same
      quote. */
  predicate IsStringLiteral(t: string)
  {
    && |t| >= 2 && t[0] in "'\"`" && t[|t| - 1] == t[0]
    && forall k | 1 <= k < |t| - 1 :: t[k] != t[0] && (t[0] == '`' || t[k] != '\n')
  }

  /** A whole number. */
  predicate IsNumber(t: string)
  {
    |t| > 0 && forall k | 0 <= k < |t| :: IsDigit(t[k])
  }

  /** The words TOKEN matches in full. */
  predicate IsToken(t: string)
  {
    IsIdentifier(t) || Listed(t, Operators) || IsStringLiteral(t) || IsNumber(t) || t == [Ellipsis]
  }

  /** Tokens never begin with white space, so the white space after a
      token is told apart from the next token. */
  lemma TokenStart(t: string)
    requires IsToken(t)
    ensures |t| > 0 && !IsSpace(t[0])
  {
    if Listed(t, Operators) {
      OperatorsStartPunctuation();
      ListedStart(t, Operators);
    }
  }

  /** A string literal of length n at the start of s is what QuotedMatch
      finds. */
  lemma QuotedComplete(s: string, q: char, lines: bool, n: nat)
    requires 2 <= n <= |s| && s[0] == q && s[n - 1] == q
    requires forall k | 1 <= k < n - 1 :: s[k] != q && (lines || s[k] != '\n')
    ensures QuotedMatch(s, q, lines) == Some(n)
  {
    var p := Inside(q, lines);
    RunSpec(s[1..], p);
    assert !p(s[1..][n - 2]);
    forall k | 0 <= k < n - 2
      ensures p(s[1..][k])
    {
      assert s[1..][k] == s[k + 1];
    }
  }

  lemma IdentifierSound(s: string)
    requires IdentifierMatch(s).Some?
    ensures IsIdentifier(s[..IdentifierMatch(s).value])
  {
    var t := s[..IdentifierMatch(s).value];
    RunSpec(s[1..], IsIdentPart);
    forall k | 1 <= k < |t|
      ensures IsIdentPart(t[k])
    {
      assert t[k] == s[1..][k - 1];
    }
  }

  lemma OperatorSound(s: string)
    requires OperatorMatch(s).Some?
    ensures Listed(s[..OperatorMatch(s).value], Operators)
  {
    FirstPrefixSpec(Operators, s);
    assert s[..OperatorMatch(s).value] == FirstPrefix(Operators, s).value;
  }

  lemma StringSound(s: string)
    requires StringMatch(s).Some?
    ensures IsStringLiteral(s[..StringMatch(s).value])
  {
    var t := s[..StringMatch(s).value];
    var p := Inside(s[0], s[0] == '`');
    RunSpec(s[1..], p);
    forall k | 1 <= k < |t| - 1
      ensures p(t[k])
    {
      assert t[k] == s[1..][k - 1];
    }
  }

  lemma NumberSound(s: string)
    requires NumberMatch(s).Some?
    ensures IsNumber(s[..NumberMatch(s).value])
  {
    RunSpec(s, IsDigit);
  }

  /** If some prefix of s is a whole token, TOKEN matches at the start of
      s. */
  lemma TokenAvailable(s: string, n: nat)
    requires n <= |s| && IsToken(s[..n])
    ensures NextToken(s).Some?
  {
    var t := s[..n];
    TokenStart(t);
    NextTokenChoice(s);
    if IsIdentifier(t) {
      assert IsIdentStart(s[0]);
    } else if Listed(t, Operators) {
      FirstPrefixSpec(Operators, s);
    } else if IsStringLiteral(t) {
      forall k | 1 <= k < n - 1
        ensures s[k] != t[0] && (t[0] == '`' || s[k] != '\n')
      {
        assert s[k] == t[k];
      }
      QuotedComplete(s, t[0], t[0] == '`', n);
    } else if IsNumber(t) {
      assert IsDigit(s[0]);
    }
  }

  /** TOKEN against its reference: what it matches is a whole token, and it
      fails exactly when no prefix of the text is a token. */
  lemma NextTokenSpec(s: string)
    ensures NextToken(s).Some? ==> IsToken(s[..NextToken(s).value])
    ensures NextToken(s).None? <==> forall n | 0 <= n <= |s| :: !IsToken(s[..n])
  {
    NextTokenChoice(s);
    if IdentifierMatch(s).Some? {
      IdentifierSound(s);
    } else if OperatorMatch(s).Some? {
      OperatorSound(s);
    } else if StringMatch(s).Some? {
      StringSound(s);
    } else if NumberMatch(s).Some? {
      NumberSound(s);
    } else if EllipsisMatch(s).Some? {
      assert s[..1] == [Ellipsis];
    }
    if exists n | 0 <= n <= |s| :: IsToken(s[..n]) {
      var n :| 0 <= n <= |s| && IsToken(s[..n]);
      TokenAvailable(s, n);
    }
  }

  /** The largest position e with 1 <= e < hi holding c. */
  function LastBelow(s: string, c: char, hi: nat): (r: Option<nat>)
    requires hi <= |s|
    ensures r.Some? ==> 1 <= r.value < hi && s[r.value] == c
    ensures r.Some? ==> forall e | r.value < e < hi :: s[e] != c
    ensures r.None? ==> forall e | 1 <= e < hi :: s[e] != c
  {
    if hi <= 1 then None
    else if s[hi - 1] == c then Some(hi - 1)
    else LastBelow(s, c, hi - 1)
  }

  /** Where the class `[^'\n]*` after an opening `"` stops: the first
      apostrophe or line feed after position 0, or the end of s. */
  function StopAsWritten(s: string): (stop: nat)
    requires |s| > 0
    ensures 1 <= stop <= |s|
    ensures forall k | 1 <= k < stop :: s[k] != '\'' && s[k] != '\n'
    ensures stop < |s| ==> s[stop] == '\'' || s[stop] == '\n'
  {
    var p := Inside('\'', false);
    RunSpec(s[1..], p);
    forall k | 1 <= k < 1 + Run(s[1..], p)
      ensures p(s[k])
    {
      assert s[k] == s[1..][k - 1];
    }
    1 + Run(s[1..], p)
  }

  /** STRING as the expression is written: the double-quoted alternative
      is `"[^'\n]*"`, whose greedy class runs up to the first apostrophe or
      line feed and then backs off to the last `"` before it; the other
      alternatives are those of StringMatch. */
  function StringMatchAsWritten(s: string): (r: Option<nat>)
    ensures r.Some? ==> 2 <= r.value <= |s| && s[r.value - 1] == s[0]
    ensures |s| > 0 && s[0] == '"' ==>
              && (r.Some? ==> r.value <= StopAsWritten(s)
                              && forall e | r.value <= e < StopAsWritten(s) :: s[e] != '"')
              && (r.None? ==> forall e | 1 <= e < StopAsWritten(s) :: s[e] != '"')
    ensures |s| == 0 || s[0] != '"' ==> r == StringMatch(s)
  {
    if |s| > 0 && s[0] == '"' then
      match LastBelow(s, '"', StopAsWritten(s))
      case None => None
      case Some(e) => Some(e + 1)
    else
      match StringMatch(s)
      case None => None
      case Some(n) => assert QuotedMatch(s, s[0], s[0] == '`') == Some(n); Some(n)
  }

  /** The words the STRING alternatives as written match in full: a
      double-quoted literal may hold `"` but neither an apostrophe nor a
      line feed. */
  predicate IsStringAsWritten(t: string)
  {
    if |t| > 0 && t[0] == '"' then
      && |t| >= 2 && t[|t| - 1] == '"'
      && forall k | 1 <= k < |t| - 1 :: t[k] != '\'' && t[k] != '\n'
    else IsStringLiteral(t)
  }

  /** STRING as written matches a whole such word. */
  lemma StringAsWrittenSound(s: string)
    requires StringMatchAsWritten(s).Some?
    ensures IsStringAsWritten(s[..StringMatchAsWritten(s).value])
  {
    if s[0] != '"' {
      StringSound(s);
    }
  }

  /** The back-off finds the longest such word: any double-quoted prefix
      of s in that language is matched, or a longer one is. */
  lemma StringAsWrittenLongest(s: string, m: nat)
    requires m <= |s| && IsStringAsWritten(s[..m]) && m > 0 && s[0] == '"'
    ensures StringMatchAsWritten(s).Some? && m <= StringMatchAsWritten(s).value
  {
    var t := s[..m];
    assert t[0] == '"' && s[m - 1] == '"';
  }

  /** OPERATOR finds nothing at an opening quote. */
  lemma NoOperatorAtQuote(s: string)
    requires |s| > 0 && s[0] in "'\"`"
    ensures OperatorMatch(s).None?
  {
    FirstPrefixSpec(Operators, s);
    if FirstPrefix(Operators, s).Some? {
      var op := FirstPrefix(Operators, s).value;
      OperatorsAvoidQuotes();
      ListedAvoidsQuotes(op, Operators);
    }
  }

  /** The alternatives of TOKEN as the expression is written. */
  const TokenAlternativesAsWritten: seq<string -> Option<nat>> :=
    [IdentifierMatch, OperatorMatch, StringMatchAsWritten, NumberMatch, EllipsisMatch]

  /** TOKEN at the start of s as the expression is written. */
  function NextTokenAsWritten(s: string): (r: Option<nat>)
    ensures r.Some? ==> 0 < r.value <= |s|
  {
    FirstMatch(TokenAlternativesAsWritten, s)
  }

  /** The alternation of TOKEN as written, written out. */
  lemma NextTokenAsWrittenChoice(s: string)
    ensures NextTokenAsWritten(s) ==
              if IdentifierMatch(s).Some? then IdentifierMatch(s)
              else if OperatorMatch(s).Some? then OperatorMatch(s)
              else if StringMatchAsWritten(s).Some? then StringMatchAsWritten(s)
              else if NumberMatch(s).Some? then NumberMatch(s)
              else EllipsisMatch(s)
  {
    var a4: seq<string -> Option<nat>> := [EllipsisMatch];
    var a3 := [NumberMatch] + a4;
    var a2 := [StringMatchAsWritten] + a3;
    var a1 := [OperatorMatch] + a2;
    assert TokenAlternativesAsWritten == [IdentifierMatch] + a1;
    assert a1[1..] == a2 && a2[1..] == a3 && a3[1..] == a4 && a4[1..] == [];
    assert FirstMatch(a4, s) == EllipsisMatch(s);
    assert FirstMatch(a3, s) == if NumberMatch(s).Some? then NumberMatch(s) else FirstMatch(a4, s);
    assert FirstMatch(a2, s) == if StringMatchAsWritten(s).Some? then StringMatchAsWritten(s) else FirstMatch(a3, s);
    assert FirstMatch(a1, s) == if OperatorMatch(s).Some? then OperatorMatch(s) else FirstMatch(a2, s);
  }

  /** The words TOKEN as written matches in full. */
  predicate IsTokenAsWritten(t: string)
  {
    IsIdentifier(t) || Listed(t, Operators) || IsStringAsWritten(t) || IsNumber(t) || t == [Ellipsis]
  }

  /** If some prefix of s is a whole token of that language, TOKEN as
      written matches at the start of s. */
  lemma TokenAsWrittenAvailable(s: string, n: nat)
    requires n <= |s| && IsTokenAsWritten(s[..n])
    ensures NextTokenAsWritten(s).Some?
  {
    var t := s[..n];
    NextTokenAsWrittenChoice(s);
    if IsIdentifier(t) {
      assert IsIdentStart(s[0]);
    } else if Listed(t, Operators) {
      FirstPrefixSpec(Operators, s);
    } else if IsStringAsWritten(t) && n > 0 && t[0] == '"' {
      StringAsWrittenLongest(s, n);
    } else if IsStringAsWritten(t) {
      TokenAvailable(s, n);
      NextTokenChoice(s);
    } else if IsNumber(t) {
      assert IsDigit(s[0]);
    }
  }

  /** TOKEN as written against its language: what it matches is a whole
      word of it, and it fails exactly when no prefix of the text is one. */
  lemma NextTokenAsWrittenSpec(s: string)
    ensures NextTokenAsWritten(s).Some? ==> IsTokenAsWritten(s[..NextTokenAsWritten(s).value])
    ensures NextTokenAsWritten(s).None? <==> forall n | 0 <= n <= |s| :: !IsTokenAsWritten(s[..n])
  {
    NextTokenAsWrittenChoice(s);
    if IdentifierMatch(s).Some? {
      IdentifierSound(s);
    } else if OperatorMatch(s).Some? {
      OperatorSound(s);
    } else if StringMatchAsWritten(s).Some? {
      StringAsWrittenSound(s);
    } else if NumberMatch(s).Some? {
      NumberSound(s);
    } else if EllipsisMatch(s).Some? {
      assert s[..1] == [Ellipsis];
    }
    if exists n | 0 <= n <= |s| :: IsTokenAsWritten(s[..n]) {
      var n :| 0 <= n <= |s| && IsTokenAsWritten(s[..n]);
      TokenAsWrittenAvailable(s, n);
    }
  }

  /** The double-quoted alternative as written rejects a string holding an
      apostrophe, which the alternative evidently means to accept. */
  lemma ApostropheAsWritten()
    ensures IsStringLiteral("\"it's\"")
    ensures StringMatchAsWritten("\"it's\"") == None
  {
    var s := "\"it's\"";
    assert s[1..] == "it's\"";
    assert "it's\""[1..] == "t's\"";
    assert "t's\""[1..] == "'s\"";
    assert Run("it's\"", Inside('\'', false)) == 2;
    assert StopAsWritten(s) == 3;
  }

  /** The corrected alternative accepts it. */
  lemma ApostropheCorrected()
    ensures StringMatch("\"it's\"") == Some(6)
  {
    QuotedComplete("\"it's\"", '"', false, 6);
  }

  /** At an opening quote TOKEN is STRING, as written and corrected. */
  lemma AtQuote(s: string)
    requires |s| > 0 && s[0] in "'\"`"
    ensures NextTokenAsWritten(s) == StringMatchAsWritten(s)
    ensures NextToken(s) == StringMatch(s)
  {
    NoOperatorAtQuote(s);
    NextTokenAsWrittenChoice(s);
    NextTokenChoice(s);
  }

  /** Two double-quoted literals on one line: TOKEN as written backs off
      to the last `"` and takes both, with the text between them, as one
      token. */
  lemma TwoStringsAsWritten(s: string)
    requires s == "\"a\" + \"b\""
    ensures NextTokenAsWritten(s) == Some(9)
  {
    assert StopAsWritten(s) == 9;
    assert StringMatchAsWritten(s) == Some(9);
    AtQuote(s);
  }

  /** The corrected TOKEN takes the first literal only. */
  lemma TwoStringsCorrected(s: string)
    requires s == "\"a\" + \"b\""
    ensures NextToken(s) == Some(3)
  {
    QuotedComplete(s, '"', false, 3);
    AtQuote(s);
  }
}
