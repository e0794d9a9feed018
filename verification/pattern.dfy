/**
 * The expected-output pattern builder of the compiler tests (`r` in
 * packages/compiler/test/render3/mock_compile.ts): a list of pieces becomes
 * the source text of one regular expression. Literal text is escaped,
 * pieces are separated by optional (or, before an identifier-like word,
 * mandatory) white space, and `$name$` placeholders become a capture group
 * on their first appearance and a back-reference to that group afterwards.
 */
module PatternBuilder {
  import opened Text

  /** A piece of an expected output: literal text, or a regular expression
      given by its source. */
  datatype Piece = Literal(text: string) | Regex(source: string)

  /** The source of IDENT, the pattern of one identifier. */
  const IdentSource: string := "[A-Za-z$_][A-Za-z0-9$_]*"

  /** The source of SKIP, which matches any text. */
  const SkipSource: string := "(?:.|\\n|\\r)*"

  /** IDENT_LIKE: a lower-case letter followed by an upper-case one. */
  predicate IdentLike(s: string)
  {
    |s| >= 2 && 'a' <= s[0] <= 'z' && 'A' <= s[1] <= 'Z'
  }

  /** MATCHING_IDENT: `$`, then characters other than line terminators,
      then `$`. */
  predicate MatchingIdent(s: string)
  {
    && |s| >= 2 && s[0] == '$' && s[|s| - 1] == '$'
    && forall k | 1 <= k < |s| - 1 :: !IsLineTerminator(s[k])
  }

  /** A placeholder piece `$name$`. */
  predicate IsPlaceholder(p: Piece)
  {
    p.Literal? && MatchingIdent(p.text)
  }

  /** SPECIAL_RE_CHAR: the characters that literal text escapes. */
  predicate IsSpecial(c: char)
  {
    c in "/()|*+[]{}$"
  }

  /** Literal text with a backslash before every special character. */
  function Escape(s: string): (r: string)
    ensures |s| > 0 ==> |r| > 0 && !IsSpecial(r[0])
  {
    if |s| == 0 then ""
    else (if IsSpecial(s[0]) then ['\\', s[0]] else [s[0]]) + Escape(s[1..])
  }

  /** Escaping works character by character: escaping a concatenation
      escapes each part. */
  lemma {:induction false} EscapeAppend(a: string, b: string)
    ensures Escape(a + b) == Escape(a) + Escape(b)
    decreases |a|
  {
    if |a| > 0 {
      assert (a + b)[0] == a[0] && (a + b)[1..] == a[1..] + b;
      EscapeAppend(a[1..], b);
    } else {
      assert a + b == b;
    }
  }

  /** One character is escaped with a backslash exactly when it is
      special, and is otherwise copied. */
  lemma EscapeChar(c: char)
    ensures Escape([c]) == if IsSpecial(c) then ['\\', c] else [c]
  {
    assert [c][1..] == "";
  }

  /** A text is what comes before index k, the character at k, and what
      comes after it. */
  lemma AroundIndex(s: string, k: nat)
    requires k < |s|
    ensures s[..k] + [s[k]] + s[k + 1..] == s
  {
  }

  /** Escaping text split around one character. */
  lemma EscapeSplit(a: string, c: char, b: string)
    ensures Escape(a + [c] + b) == Escape(a) + (if IsSpecial(c) then ['\\', c] else [c]) + Escape(b)
  {
    EscapeAppend(a + [c], b);
    EscapeAppend(a, [c]);
    EscapeChar(c);
  }

  /** Every character of the text, wherever it stands, appears in the
      pattern in its place, preceded by a backslash exactly when it is
      special; nothing else is added. */
  lemma EscapeAt(s: string, k: nat)
    requires k < |s|
    ensures Escape(s) == Escape(s[..k]) + (if IsSpecial(s[k]) then ['\\', s[k]] else [s[k]]) + Escape(s[k + 1..])
  {
    AroundIndex(s, k);
    EscapeSplit(s[..k], s[k], s[k + 1..]);
  }

  /** Reading escaped text back: a backslash before a special character is
      dropped. */
  function Unescape(r: string): string
  {
    if |r| == 0 then ""
    else if |r| >= 2 && r[0] == '\\' && IsSpecial(r[1]) then [r[1]] + Unescape(r[2..])
    else [r[0]] + Unescape(r[1..])
  }

  /** Escaping loses nothing: the literal text is recovered from the
      pattern. */
  lemma {:induction false} EscapeRoundTrip(s: string)
    ensures Unescape(Escape(s)) == s
  {
    if |s| > 0 {
      EscapeRoundTrip(s[1..]);
      var rest := Escape(s[1..]);
      if IsSpecial(s[0]) {
        assert Escape(s) == ['\\', s[0]] + rest;
        assert (['\\', s[0]] + rest)[2..] == rest;
      } else {
        assert Escape(s) == [s[0]] + rest;
        assert ([s[0]] + rest)[1..] == rest;
      }
    }
  }

  /** The distinct placeholders among ps, in order of first appearance. */
  function Names(ps: seq<Piece>): seq<string>
  {
    if |ps| == 0 then []
    else
      var seen := Names(ps[..|ps| - 1]);
      var p := ps[|ps| - 1];
      if IsPlaceholder(p) && p.text !in seen then seen + [p.text] else seen
  }

  /** The position of x in names. */
  function IndexOf(names: seq<string>, x: string): (k: nat)
    requires x in names
    ensures k < |names| && names[k] == x && x !in names[..k]
  {
    if names[|names| - 1] == x && x !in names[..|names| - 1] then |names| - 1
    else
      assert names == names[..|names| - 1] + [names[|names| - 1]];
      IndexOf(names[..|names| - 1], x)
  }

  /** The separator emitted before every piece but the first. */
  function Separator(p: Piece): string
  {
    if p.Literal? && IdentLike(p.text) then "\\s+" else "\\s*"
  }

  /** What piece i of ps emits, after its separator. */
  function Body(ps: seq<Piece>, i: nat): string
    requires i < |ps|
  {
    match ps[i]
    case Regex(src) => "(?:" + src + ")"
    case Literal(t) =>
      if !MatchingIdent(t) then Escape(t)
      else
        var seen := Names(ps[..i]);
        if t in seen then "\\" + Decimal(IndexOf(seen, t) + 1) else "(" + IdentSource + ")"
  }

  /** Piece i with its separator. */
  function Fragment(ps: seq<Piece>, i: nat): string
    requires i < |ps|
  {
    (if i == 0 then "" else Separator(ps[i])) + Body(ps, i)
  }

  /** The pattern of the first n pieces. */
  function PatternPrefix(ps: seq<Piece>, n: nat): string
    requires n <= |ps|
  {
    if n == 0 then "" else PatternPrefix(ps, n - 1) + Fragment(ps, n - 1)
  }

  /** The pattern of all pieces. */
  function Pattern(ps: seq<Piece>): string
  {
    PatternPrefix(ps, |ps|)
  }

  /** Names of one more piece. */
  lemma NamesSnoc(ps: seq<Piece>, i: nat)
    requires i < |ps|
    ensures Names(ps[..i + 1]) ==
              if IsPlaceholder(ps[i]) && ps[i].text !in Names(ps[..i]) then Names(ps[..i]) + [ps[i].text]
              else Names(ps[..i])
  {
    assert ps[..i + 1][..i] == ps[..i];
  }

  /** Positions in a list of names are kept when a name is appended. */
  lemma IndexOfSnoc(names: seq<string>, y: string, x: string)
    requires x in names + [y]
    ensures x in names ==> IndexOf(names + [y], x) == IndexOf(names, x)
    ensures x !in names ==> IndexOf(names + [y], x) == |names|
  {
    if x in names {
      var j := IndexOf(names, x);
      assert (names + [y])[j] == x && (names + [y])[..j] == names[..j];
    }
  }

  /** A map numbering the names of a list: each name maps to its
      position plus one, and group counts them. */
  ghost predicate Numbered(names: seq<string>, groups: map<string, nat>, group: nat)
  {
    && group == |names|
    && (forall x :: x in groups <==> x in names)
    && (forall x | x in groups :: groups[x] == IndexOf(names, x) + 1)
  }

  /** Numbering a new name after the others keeps the numbering. */
  lemma NumberedSnoc(names: seq<string>, groups: map<string, nat>, group: nat, t: string)
    requires Numbered(names, groups, group) && t !in names
    ensures Numbered(names + [t], groups[t := group + 1], group + 1)
  {
    forall x | x in groups[t := group + 1]
      ensures groups[t := group + 1][x] == IndexOf(names + [t], x) + 1
    {
      IndexOfSnoc(names, t, x);
    }
  }

  /** The map of the loop of `r` after the first i pieces: every
      placeholder seen so far, with its group number, and the count of
      groups. */
  ghost predicate GroupsOk(ps: seq<Piece>, i: nat, groups: map<string, nat>, group: nat)
    requires i <= |ps|
  {
    Numbered(Names(ps[..i]), groups, group)
  }

  /** One more piece: a new placeholder gets the next group number, and
      the body of a placeholder is read off the map. */
  lemma GroupsStep(ps: seq<Piece>, i: nat, groups: map<string, nat>, group: nat)
    requires i < |ps| && GroupsOk(ps, i, groups, group) && IsPlaceholder(ps[i])
    ensures var t := ps[i].text;
            if t in groups then
              && groups[t] > 0
              && Body(ps, i) == "\\" + Decimal(groups[t])
              && GroupsOk(ps, i + 1, groups, group)
            else
              && Body(ps, i) == "(" + IdentSource + ")"
              && GroupsOk(ps, i + 1, groups[t := group + 1], group + 1)
  {
    NamesSnoc(ps, i);
    if ps[i].text !in groups {
      NumberedSnoc(Names(ps[..i]), groups, group, ps[i].text);
    }
  }

  /** Piece k is a placeholder whose name no earlier piece carries. */
  predicate FirstOccurrence(ps: seq<Piece>, k: nat)
    requires k < |ps|
  {
    && IsPlaceholder(ps[k])
    && forall m | 0 <= m < k :: !(IsPlaceholder(ps[m]) && ps[m].text == ps[k].text)
  }

  /** The number of pieces of ps that open a capture group. */
  function Opened(ps: seq<Piece>): nat
  {
    if |ps| == 0 then 0
    else Opened(ps[..|ps| - 1]) + (if FirstOccurrence(ps, |ps| - 1) then 1 else 0)
  }

  /** The names are exactly the placeholders of ps, each listed once, and
      there are as many of them as pieces that open a group. */
  lemma {:induction false} NamesSpec(ps: seq<Piece>)
    ensures forall x :: x in Names(ps) <==> exists m | 0 <= m < |ps| :: IsPlaceholder(ps[m]) && ps[m].text == x
    ensures forall a, b | 0 <= a < b < |Names(ps)| :: Names(ps)[a] != Names(ps)[b]
    ensures |Names(ps)| == Opened(ps)
  {
    if |ps| > 0 {
      var q := ps[..|ps| - 1];
      var p := ps[|ps| - 1];
      NamesSpec(q);
      forall x
        ensures x in Names(ps) <==> exists m | 0 <= m < |ps| :: IsPlaceholder(ps[m]) && ps[m].text == x
      {
        if x in Names(q) {
          var m :| 0 <= m < |q| && IsPlaceholder(q[m]) && q[m].text == x;
          assert ps[m] == q[m];
        }
        if exists m | 0 <= m < |ps| :: IsPlaceholder(ps[m]) && ps[m].text == x {
          var m :| 0 <= m < |ps| && IsPlaceholder(ps[m]) && ps[m].text == x;
          if m < |q| {
            assert q[m] == ps[m];
          }
        }
      }
      if FirstOccurrence(ps, |ps| - 1) {
        assert forall m | 0 <= m < |q| :: q[m] == ps[m];
      } else if IsPlaceholder(p) {
        var m :| 0 <= m < |ps| - 1 && IsPlaceholder(ps[m]) && ps[m].text == p.text;
        assert q[m] == ps[m];
      }
    }
  }

  /** The names of a prefix of ps are a prefix of the names of ps. */
  lemma {:induction false} NamesPrefix(ps: seq<Piece>, i: nat)
    requires i <= |ps|
    ensures Names(ps[..i]) <= Names(ps)
    decreases |ps| - i
  {
    if i < |ps| {
      NamesPrefix(ps, i + 1);
      NamesSnoc(ps, i);
      assert ps[..|ps|] == ps;
    } else {
      assert ps[..i] == ps;
    }
  }

  /** A name's position is the same in a longer list that extends the
      list. */
  lemma IndexOfExtend(names: seq<string>, more: seq<string>, x: string)
    requires x in names && names <= more
    ensures x in more && IndexOf(more, x) == IndexOf(names, x)
  {
    var j := IndexOf(names, x);
    var k := IndexOf(more, x);
    forall m | 0 <= m < k
      ensures more[m] != x
    {
      assert more[..k][m] == more[m];
    }
    forall m | 0 <= m < j
      ensures names[m] != x
    {
      assert names[..j][m] == names[m];
    }
    assert forall m | 0 <= m < |names| :: more[m] == names[m];
  }

  /** Group numbering of `r`: the first occurrence of a placeholder opens
      capture group number 1 + (the number of groups opened before it),
      and every later piece with the same name is a back-reference to that
      same number. */
  lemma GroupNumbering(ps: seq<Piece>, j: nat, i: nat)
    requires j <= i < |ps| && FirstOccurrence(ps, j) && ps[i] == ps[j]
    ensures i == j ==> Body(ps, i) == "(" + IdentSource + ")"
    ensures i > j ==> Body(ps, i) == "\\" + Decimal(Opened(ps[..j]) + 1)
  {
    var t := ps[j].text;
    NamesSpec(ps[..j]);
    assert forall m | 0 <= m < j :: ps[..j][m] == ps[m];
    assert t !in Names(ps[..j]);
    if i > j {
      NamesSnoc(ps, j);
      var upto := Names(ps[..j + 1]);
      assert upto == Names(ps[..j]) + [t];
      NamesPrefix(ps[..i], j + 1);
      assert ps[..i][..j + 1] == ps[..j + 1];
      IndexOfSnoc(Names(ps[..j]), t, t);
      IndexOfExtend(upto, Names(ps[..i]), t);
    }
  }

  /** The parts the loop of `r` has pushed after n pieces: a separator
      before every piece but the first, then the piece's body. */
  function Emitted(ps: seq<Piece>, n: nat): seq<string>
    requires n <= |ps|
  {
    if n == 0 then []
    else Emitted(ps, n - 1) + (if n == 1 then [] else [Separator(ps[n - 1])]) + [Body(ps, n - 1)]
  }

  /** Joining the parts pushed for the first n pieces gives the pattern
      of those pieces. */
  lemma {:induction false} EmittedJoined(ps: seq<Piece>, n: nat)
    requires n <= |ps|
    ensures Concat(Emitted(ps, n)) == PatternPrefix(ps, n)
  {
    if n > 0 {
      EmittedJoined(ps, n - 1);
      var before := Emitted(ps, n - 1);
      var body := Body(ps, n - 1);
      if n == 1 {
        assert Emitted(ps, n) == before + [body];
        ConcatSnoc(before, body);
      } else {
        var sep := Separator(ps[n - 1]);
        assert Emitted(ps, n) == (before + [sep]) + [body];
        ConcatSnoc(before + [sep], body);
        ConcatSnoc(before, sep);
        AppendAssoc(Concat(before), sep, body);
      }
    }
  }

  /** What one piece emits inside the loop of `r`: a regular expression
      is wrapped in a non-capturing group, a placeholder seen for the first
      time opens the next capture group and is entered in the map under its
      number, a repeated one refers back to that number, and any other
      literal text is escaped. */
  method PieceBody(pieces: seq<Piece>, i: nat, groups: map<string, nat>, group: nat)
    returns (body: string, groups': map<string, nat>, group': nat)
    requires i < |pieces| && GroupsOk(pieces, i, groups, group)
    ensures body == Body(pieces, i)
    ensures GroupsOk(pieces, i + 1, groups', group')
  {
    groups', group' := groups, group;
    match pieces[i] {
      case Literal(t) =>
        if MatchingIdent(t) {
          GroupsStep(pieces, i, groups, group);
          var matchGroup := if t in groups then groups[t] else 0;
          if matchGroup == 0 {
            body := "(" + IdentSource + ")";
            group' := group + 1;
            groups' := groups[t := group'];
          } else {
            body := "\\" + Decimal(matchGroup);
          }
        } else {
          NamesSnoc(pieces, i);
          body := Escape(t);
        }
      case Regex(src) =>
        NamesSnoc(pieces, i);
        body := "(?:" + src + ")";
    }
  }

  /** `r(...pieces)`: the loop over the pieces with the `first` flag, the
      group counter and the map from placeholder to group number; the
      joined result is the pattern of the pieces. */
  method BuildPattern(pieces: seq<Piece>) returns (source: string)
    ensures source == Pattern(pieces)
  {
    var results: seq<string> := [];
    var first := true;
    var group: nat := 0;
    var groups: map<string, nat> := map[];
    for i := 0 to |pieces|
      invariant first <==> i == 0
      invariant results == Emitted(pieces, i)
      invariant GroupsOk(pieces, i, groups, group)
    {
      var piece := pieces[i];
      if !first {
        results := results + [Separator(piece)];
      }
      first := false;
      var body;
      body, groups, group := PieceBody(pieces, i, groups, group);
      results := results + [body];
    }
    EmittedJoined(pieces, |pieces|);
    assert pieces[..|pieces|] == pieces;
    source := Concat(results);
  }
}
