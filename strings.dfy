/** The handful of JavaScript string operations the core relies on, over `seq<char>`. */
module Strings {

  /** `String.prototype.toLowerCase`, restricted to the ASCII letters. */
  function LowerChar(c: char): char {
    if 'A' <= c <= 'Z' then (c as int + 32) as char else c
  }

  function Lower(s: string): string {
    seq(|s|, i requires 0 <= i < |s| => LowerChar(s[i]))
  }

  /** `s.startsWith(p)`. */
  predicate StartsWith(s: string, p: string) {
    |p| <= |s| && s[..|p|] == p
  }

  /** `s.includes(t)`: `t` occurs in `s` at some position. */
  predicate Contains(s: string, t: string)
    decreases |s|
  {
    if |t| > |s| then false else StartsWith(s, t) || (s != [] && Contains(s[1..], t))
  }

  /** A text cannot occur in a string that lacks one of its characters. */
  lemma {:induction false} MissingCharNotContained(s: string, t: string, c: char)
    requires c in t && c !in s
    ensures !Contains(s, t)
    decreases |s|
  {
    if |t| <= |s| {
      var i :| 0 <= i < |t| && t[i] == c;
      assert s[..|t|][i] != t[i];
      if s != [] {
        MissingCharNotContained(s[1..], t, c);
      }
    }
  }

  /**
   * If `p` ends with a separator character that `t` lacks, an occurrence of `t` in `p + f`
   * cannot straddle the join: it would have to lie in `p` or in `f`.
   */
  lemma {:induction false} NotContainedAcrossSeparator(p: string, f: string, t: string)
    requires p != [] && t != [] && p[|p| - 1] !in t
    requires !Contains(p, t) && !Contains(f, t)
    ensures !Contains(p + f, t)
    decreases |p|
  {
    var s := p + f;
    if |t| <= |s| {
      if |t| <= |p| {
        assert s[..|t|] == p[..|t|];
      } else {
        assert s[..|t|][|p| - 1] == p[|p| - 1];
      }
      assert s[1..] == p[1..] + f;
      if |p| > 1 {
        NotContainedAcrossSeparator(p[1..], f, t);
      } else {
        assert p[1..] + f == f;
      }
    }
  }

  function DigitChar(d: nat): char
    requires d < 10
  {
    ('0' as int + d) as char
  }

  /**
   * Decimal rendering of a whole number. It agrees with `Number.prototype.toString`
   * below 1e21 in magnitude; from there on JavaScript switches to exponent form.
   */
  function NatToString(n: nat): string
    decreases n
  {
    if n < 10 then [DigitChar(n)] else NatToString(n / 10) + [DigitChar(n % 10)]
  }

  function IntToString(n: int): string {
    if n < 0 then "-" + NatToString(-n) else NatToString(n)
  }
}
