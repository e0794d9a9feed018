/**
 * The name of the back-patch function of a compiled type
 * (`getBackPatchFunctionName` in
 * packages/compiler/test/render3/mock_compile.ts): the file path loses its
 * trailing extensions (`/(\.\w+)+$/`) and everything up to the last
 * `/node_modules/` of its first line (`/^.*\/node_modules\//`), every
 * non-word character becomes `_`, the pieces between slashes are joined
 * with `_`, and the result is framed by `ngBackPatch_` and `_` + the type
 * name.
 *
 * JavaScript strings are sequences of UTF-16 code units and these regular
 * expressions have no `u` flag, so `\W` replaces each code unit: a
 * character outside the Basic Multilingual Plane becomes two underscores.
 */
module BackPatch {
  import opened Text

  /** The language of `(\.\w+)+`: a dot and a maximal run of word
      characters, once or more. */
  predicate ExtChain(t: string)
    decreases |t|
  {
    && |t| >= 2 && t[0] == '.' && IsWordChar(t[1])
    && var k := 1 + Run(t[1..], IsWordChar);
       k == |t| || ExtChain(t[k..])
  }

  /** Two chains in a row form a chain. */
  lemma {:induction false} ExtChainAppend(a: string, b: string)
    requires ExtChain(a) && ExtChain(b)
    ensures ExtChain(a + b)
    decreases |a|
  {
    var k := 1 + Run(a[1..], IsWordChar);
    assert (a + b)[1..] == a[1..] + b[..];
    RunAppend(a[1..], b, IsWordChar);
    if k == |a| {
      RunSpec(b, IsWordChar);
      assert (a + b)[k..] == b;
    } else {
      ExtChainAppend(a[k..], b);
      assert (a + b)[k..] == a[k..] + b;
    }
  }

  /** The first position at or after p where a chain runs to the end of
      s, or |s| if there is none: where a regular expression ending in `$`
      first matches when tried at p, p + 1, ... */
  function ExtFrom(s: string, p: nat): (q: nat)
    requires p <= |s|
    ensures p <= q <= |s|
    ensures q < |s| ==> ExtChain(s[q..])
    ensures forall j | p <= j < q :: !ExtChain(s[j..])
    decreases |s| - p
  {
    if p == |s| || ExtChain(s[p..]) then p else ExtFrom(s, p + 1)
  }

  /** `path.replace(/(\.\w+)+$/, '')`. */
  function StripExt(s: string): (r: string)
    ensures r <= s
    ensures |r| < |s| ==> ExtChain(s[|r|..])
    ensures forall j | 0 <= j < |r| :: !ExtChain(s[j..])
  {
    s[..ExtFrom(s, 0)]
  }

  /** No extension is left to strip: the chain removed was the longest. */
  lemma StripExtIdempotent(s: string)
    ensures StripExt(StripExt(s)) == StripExt(s)
  {
    var r := StripExt(s);
    forall j | 0 <= j < |r|
      ensures !ExtChain(r[j..])
    {
      if |r| == |s| {
        assert r == s;
      } else {
        assert r[j..] + s[|r|..] == s[j..];
        if ExtChain(r[j..]) {
          ExtChainAppend(r[j..], s[|r|..]);
        }
      }
    }
    assert r[..ExtFrom(r, 0)] == r;
  }

  const NodeModules := "/node_modules/"

  /** s[..e] is a match of `^.*\/node_modules\/`: it ends with
      `/node_modules/` and holds no line terminator, which `.` does not
      match. */
  predicate ModulesPrefix(s: string, e: nat)
  {
    && |NodeModules| <= e <= |s|
    && s[e - |NodeModules|..e] == NodeModules
    && forall j | 0 <= j < e :: !IsLineTerminator(s[j])
  }

  /** The greatest e' <= e with ModulesPrefix(s, e'), or 0: the greedy
      `.*` backs off from the end. */
  function ModulesEnd(s: string, e: nat): (m: nat)
    requires e <= |s|
    ensures m <= e
    ensures m > 0 ==> ModulesPrefix(s, m)
    ensures forall k | m < k <= e :: !ModulesPrefix(s, k)
    decreases e
  {
    if e == 0 || ModulesPrefix(s, e) then e else ModulesEnd(s, e - 1)
  }

  /** `path.replace(/^.*\/node_modules\//, '')`. */
  function StripNodeModules(s: string): (r: string)
    ensures |r| <= |s| && r == s[|s| - |r|..]
    ensures |r| < |s| ==> ModulesPrefix(s, |s| - |r|)
    ensures forall e | |s| - |r| < e <= |s| :: !ModulesPrefix(s, e)
  {
    s[ModulesEnd(s, |s|)..]
  }

  /** A match in what follows a match (or follows nothing) extends to a
      match in the whole string. */
  lemma ModulesPrefixShift(s: string, m: nat, e: nat)
    requires m <= |s| && (m == 0 || ModulesPrefix(s, m)) && ModulesPrefix(s[m..], e)
    ensures ModulesPrefix(s, m + e)
  {
    var r := s[m..];
    forall j | 0 <= j < m + e
      ensures !IsLineTerminator(s[j])
    {
      if j >= m {
        assert s[j] == r[j - m];
      }
    }
    assert s[m + e - |NodeModules|..m + e] == r[e - |NodeModules|..e];
  }

  /** What is left has no `/node_modules/` in its first line. */
  lemma StripNodeModulesIdempotent(s: string)
    ensures StripNodeModules(StripNodeModules(s)) == StripNodeModules(s)
  {
    var r := StripNodeModules(s);
    var m := |s| - |r|;
    assert r == s[m..];
    forall e | 0 < e <= |r|
      ensures !ModulesPrefix(r, e)
    {
      if ModulesPrefix(r, e) {
        ModulesPrefixShift(s, m, e);
      }
    }
    assert r[ModulesEnd(r, |r|)..] == r;
  }

  /** The code units of c, each non-word one replaced by `_`. */
  function WordUnits(c: char): string
  {
    if IsWordChar(c) then [c] else if (c as int) < 0x1_0000 then "_" else "__"
  }

  /** `path.replace(/\W/g, '_')`. */
  function Identifierize(s: string): (r: string)
    ensures forall k | 0 <= k < |r| :: IsWordChar(r[k])
    ensures |s| <= |r|
  {
    if |s| == 0 then "" else WordUnits(s[0]) + Identifierize(s[1..])
  }

  /** The replacement works unit by unit: replacing in two strings one
      after the other is replacing in each. */
  lemma {:induction false} IdentifierizeAppend(a: string, b: string)
    ensures Identifierize(a + b) == Identifierize(a) + Identifierize(b)
    decreases |a|
  {
    if |a| > 0 {
      assert (a + b)[0] == a[0] && (a + b)[1..] == a[1..] + b;
      IdentifierizeAppend(a[1..], b);
    } else {
      assert a + b == b;
    }
  }

  /** Within the Basic Multilingual Plane every character is one code
      unit: each word character stays in place and each other one becomes
      one `_`. */
  lemma {:induction false} IdentifierizeInPlace(s: string)
    requires forall k | 0 <= k < |s| :: (s[k] as int) < 0x1_0000
    ensures |Identifierize(s)| == |s|
    ensures forall k | 0 <= k < |s| :: Identifierize(s)[k] == if IsWordChar(s[k]) then s[k] else '_'
  {
    if |s| > 0 {
      IdentifierizeInPlace(s[1..]);
      var r := Identifierize(s);
      assert r == WordUnits(s[0]) + Identifierize(s[1..]);
      forall k | 0 < k < |s|
        ensures r[k] == if IsWordChar(s[k]) then s[k] else '_'
      {
        assert s[k] == s[1..][k - 1];
      }
    }
  }

  /** A string of word characters is left as it is. */
  lemma {:induction false} IdentifierizeWords(s: string)
    requires forall k | 0 <= k < |s| :: IsWordChar(s[k])
    ensures Identifierize(s) == s
  {
    if |s| > 0 {
      IdentifierizeWords(s[1..]);
      assert [s[0]] + s[1..] == s;
    }
  }

  /** The position of the first c in s, or |s|. */
  function Find(s: string, c: char): (i: nat)
    ensures i <= |s| && c !in s[..i]
    ensures i < |s| ==> s[i] == c
  {
    if |s| == 0 || s[0] == c then 0
    else
      var i := 1 + Find(s[1..], c);
      assert s[..i] == [s[0]] + s[1..][..i - 1];
      i
  }

  /** `s.split(c)` for a one-character separator: the pieces between the
      occurrences of c, empty ones included. */
  function Split(s: string, c: char): (parts: seq<string>)
    ensures |parts| > 0
    ensures forall k | 0 <= k < |parts| :: c !in parts[k]
    decreases |s|
  {
    var i := Find(s, c);
    if i == |s| then [s] else [s[..i]] + Split(s[i + 1..], c)
  }

  /** `parts.join(sep)`. */
  function Join(parts: seq<string>, sep: string): string
  {
    if |parts| == 0 then ""
    else if |parts| == 1 then parts[0]
    else parts[0] + sep + Join(parts[1..], sep)
  }

  /** `parts.filter(s => !!s)`: the non-empty parts, in order. */
  function NonEmpty(parts: seq<string>): (r: seq<string>)
    ensures |r| <= |parts|
    ensures forall k | 0 <= k < |r| :: r[k] != "" && r[k] in parts
    ensures forall x :: x in r <==> x in parts && x != ""
  {
    if |parts| == 0 then []
    else if parts[0] == "" then NonEmpty(parts[1..])
    else
      assert forall x :: x in parts <==> x == parts[0] || x in parts[1..] by {
        assert parts == [parts[0]] + parts[1..];
      }
      [parts[0]] + NonEmpty(parts[1..])
  }

  /** The filter keeps order: the non-empty parts of two lists one after
      the other are those of the first, then those of the second. */
  lemma {:induction false} NonEmptyAppend(a: seq<string>, b: seq<string>)
    ensures NonEmpty(a + b) == NonEmpty(a) + NonEmpty(b)
    decreases |a|
  {
    if |a| > 0 {
      assert (a + b)[0] == a[0] && (a + b)[1..] == a[1..] + b;
      NonEmptyAppend(a[1..], b);
    } else {
      assert a + b == b;
    }
  }

  /** Joining a part in front of a non-empty list of parts. */
  lemma JoinCons(x: string, xs: seq<string>, sep: string)
    requires |xs| > 0
    ensures Join([x] + xs, sep) == x + sep + Join(xs, sep)
  {
    assert ([x] + xs)[1..] == xs;
  }

  /** A string is the part before position i, its character there and
      the part after. */
  lemma CutAt(s: string, i: nat)
    requires i < |s|
    ensures s == s[..i] + [s[i]] + s[i + 1..]
  {
  }

  /** Splitting at c and joining with c gives the string back. */
  lemma {:induction false} SplitJoin(s: string, c: char)
    ensures Join(Split(s, c), [c]) == s
    decreases |s|
  {
    var i := Find(s, c);
    if i < |s| {
      var rest := s[i + 1..];
      assert Split(s, c) == [s[..i]] + Split(rest, c);
      SplitJoin(rest, c);
      JoinCons(s[..i], Split(rest, c), [c]);
      CutAt(s, i);
    }
  }

  /** Without a slash, split-filter-join is the identity: every slash
      has already become `_`. */
  lemma SlashFree(s: string)
    requires '/' !in s
    ensures Join(NonEmpty(Split(s, '/')), "_") == s
  {
    assert Split(s, '/') == [s];
  }

  /** The identifier of the file path. */
  function PathIdentifier(filePath: string): string
  {
    Join(NonEmpty(Split(Identifierize(StripNodeModules(StripExt(filePath))), '/')), "_")
  }

  /** The identifier of a file path is made of word characters only and is
      the path stripped and with every non-word code unit replaced. */
  lemma PathIdentifierWords(filePath: string)
    ensures PathIdentifier(filePath) == Identifierize(StripNodeModules(StripExt(filePath)))
    ensures forall k | 0 <= k < |PathIdentifier(filePath)| :: IsWordChar(PathIdentifier(filePath)[k])
  {
    var w := Identifierize(StripNodeModules(StripExt(filePath)));
    forall k | 0 <= k < |w|
      ensures w[k] != '/'
    {
      assert IsWordChar(w[k]);
    }
    SlashFree(w);
  }

  /** `getBackPatchFunctionName`: `ngBackPatch_`, the identifier of the
      file path, `_` and the name of the type. The identifier is the
      stripped path with every non-word code unit replaced (split-filter-join
      changes nothing, as no slash is left), so it is made of word
      characters only. */
  function BackPatchName(filePath: string, name: string): (r: string)
    ensures 13 + |name| <= |r|
    ensures var mid := r[12..|r| - |name| - 1];
            && r == "ngBackPatch_" + mid + "_" + name
            && mid == Identifierize(StripNodeModules(StripExt(filePath)))
            && forall k | 0 <= k < |mid| :: IsWordChar(mid[k])
  {
    var mid := PathIdentifier(filePath);
    PathIdentifierWords(filePath);
    Framed(mid, name);
    "ngBackPatch_" + mid + "_" + name
  }

  /** The middle of a framed name is found again by its position. */
  lemma Framed(mid: string, name: string)
    ensures var r := "ngBackPatch_" + mid + "_" + name;
            r[12..|r| - |name| - 1] == mid
  {
    var r := "ngBackPatch_" + mid + "_" + name;
    assert |"ngBackPatch_"| == 12;
    forall k | 0 <= k < |mid|
      ensures r[12 + k] == mid[k]
    {
      assert r == "ngBackPatch_" + (mid + "_" + name);
    }
  }
}
