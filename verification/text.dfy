/**
 * Character classes of JavaScript regular expressions and the decimal
 * rendering of numbers, as the pattern helpers of the compiler tests use
 * them. Strings are sequences of Unicode scalar values.
 */
module Text {

  /** `\w`: an ASCII letter, digit or underscore. */
  predicate IsWordChar(c: char)
  {
    ('a' <= c <= 'z') || ('A' <= c <= 'Z') || ('0' <= c <= '9') || c == '_'
  }

  predicate IsDigit(c: char)
  {
    '0' <= c <= '9'
  }

  /** The characters that `.` does not match: line feed, carriage return,
      line separator and paragraph separator. */
  predicate IsLineTerminator(c: char)
  {
    c == '\n' || c == '\r' || c == '\U{2028}' || c == '\U{2029}'
  }

  /** `\s`: white space and line terminators. */
  predicate IsSpace(c: char)
  {
    || c == '\t' || c == '\U{000B}' || c == '\U{000C}' || c == ' ' || c == '\U{00A0}' || c == '\U{FEFF}'
    || c == '\U{1680}' || ('\U{2000}' <= c <= '\U{200A}') || c == '\U{202F}' || c == '\U{205F}' || c == '\U{3000}'
    || IsLineTerminator(c)
  }

  /** The concatenation of a list of strings (`Array.prototype.join('')`). */
  function Concat(parts: seq<string>): string
  {
    if |parts| == 0 then "" else Concat(parts[..|parts| - 1]) + parts[|parts| - 1]
  }

  /** Concatenation is associative (stated as a lemma so that proofs
      can regroup without the solver searching for it). */
  lemma AppendAssoc<T>(a: seq<T>, b: seq<T>, c: seq<T>)
    ensures a + (b + c) == a + b + c
  {
  }

  /** Joining one more part appends it. */
  lemma ConcatSnoc(parts: seq<string>, x: string)
    ensures Concat(parts + [x]) == Concat(parts) + x
  {
    assert (parts + [x])[..|parts|] == parts;
  }

  /** The length of the longest prefix of s whose characters all satisfy
      p (what a greedy `[...]*` consumes). */
  function Run(s: string, p: char -> bool): (n: nat)
    ensures n <= |s|
  {
    if |s| == 0 || !p(s[0]) then 0 else 1 + Run(s[1..], p)
  }

  /** Run is the longest such prefix: every character in it satisfies p
      and the next one, if any, does not. */
  lemma {:induction false} RunSpec(s: string, p: char -> bool)
    ensures forall k | 0 <= k < Run(s, p) :: p(s[k])
    ensures Run(s, p) < |s| ==> !p(s[Run(s, p)])
  {
    if |s| > 0 && p(s[0]) {
      RunSpec(s[1..], p);
      forall k | 1 <= k < Run(s, p)
        ensures p(s[k])
      {
        assert s[k] == s[1..][k - 1];
      }
    }
  }

  /** The run of a concatenation: it stops inside x when the run of x
      does, and otherwise goes on into y. */
  lemma {:induction false} RunAppend(x: string, y: string, p: char -> bool)
    ensures Run(x, p) < |x| ==> Run(x + y, p) == Run(x, p)
    ensures Run(x, p) == |x| ==> Run(x + y, p) == |x| + Run(y, p)
    decreases |x|
  {
    if |x| == 0 {
      assert x + y == y;
    } else {
      assert (x + y)[0] == x[0];
      if p(x[0]) {
        RunAppend(x[1..], y, p);
        assert (x + y)[1..] == x[1..] + y;
      }
    }
  }

  function DigitChar(d: nat): (c: char)
    requires d < 10
    ensures IsDigit(c) && (c as int) - ('0' as int) == d
  {
    (('0' as int) + d) as char
  }

  /** `String(n)` for a natural number: its decimal digits, most
      significant first, without leading zeros. */
  function Decimal(n: nat): (r: string)
    ensures |r| > 0 && forall k | 0 <= k < |r| :: IsDigit(r[k])
    ensures r[0] == '0' ==> n == 0
  {
    if n < 10 then [DigitChar(n)] else Decimal(n / 10) + [DigitChar(n % 10)]
  }

  /** The number a string of decimal digits denotes. */
  function DigitsValue(s: string): nat
    requires forall k | 0 <= k < |s| :: IsDigit(s[k])
  {
    if |s| == 0 then 0
    else
      assert IsDigit(s[|s| - 1]);
      DigitsValue(s[..|s| - 1]) * 10 + ((s[|s| - 1] as int) - ('0' as int))
  }

  /** Reading back the decimal rendering of n gives n, so distinct numbers
      have distinct renderings. */
  lemma {:induction false} DecimalRoundTrip(n: nat)
    ensures DigitsValue(Decimal(n)) == n
    decreases n
  {
    if n >= 10 {
      DecimalRoundTrip(n / 10);
      var r := Decimal(n);
      assert r[..|r| - 1] == Decimal(n / 10);
    }
  }
}
