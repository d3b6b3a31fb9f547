/**
 * The string primitives the core relies on, restricted to ASCII:
 * whitespace as `str.isspace` and `\s` see it, `str.lower`, `str.find`,
 * `in`, `str.startswith` and `str.strip`.
 */
module Text {

  /** ASCII characters for which `str.isspace()` holds: space, `\t` to `\r`, and `\x1c` to `\x1f`. */
  predicate IsSpace(c: char)
  {
    c == ' ' || ('\t' <= c <= '\r') || ('\U{1C}' <= c <= '\U{1F}')
  }

  /** ASCII decimal digit (`\d` restricted to ASCII). */
  predicate IsDigit(c: char)
  {
    '0' <= c <= '9'
  }

  /** ASCII lower-casing of one character. */
  function LowerChar(c: char): (d: char)
    ensures 'A' <= c <= 'Z' ==> d as int == c as int + 32
    ensures !('A' <= c <= 'Z') ==> d == c
  {
    if 'A' <= c <= 'Z' then (c as int + 32) as char else c
  }

  /** `s.lower()`: the same length, every character lower-cased in place. */
  function Lower(s: string): (r: string)
    ensures |r| == |s|
    ensures forall i :: 0 <= i < |s| ==> r[i] == LowerChar(s[i])
  {
    seq(|s|, i requires 0 <= i < |s| => LowerChar(s[i]))
  }

  /** Lower-casing twice is lower-casing once. */
  lemma LowerIdempotent(s: string)
    ensures Lower(Lower(s)) == Lower(s)
  {
    forall i | 0 <= i < |s| ensures Lower(Lower(s))[i] == Lower(s)[i] {
      var c := s[i];
      if 'A' <= c <= 'Z' {
        assert !('A' <= LowerChar(c) <= 'Z');
      }
    }
  }

  /** `s.startswith(prefix)`. */
  predicate StartsWith(s: string, prefix: string)
  {
    |prefix| <= |s| && s[..|prefix|] == prefix
  }

  /** `needle` occurs in `hay` at offset `k`. */
  predicate OccursAt(hay: string, needle: string, k: nat)
  {
    k + |needle| <= |hay| && hay[k..k + |needle|] == needle
  }

  /** `hay.find(needle, i)`: the least offset at or after `i` where `needle` occurs, or -1. */
  function FindFrom(hay: string, needle: string, i: nat): (r: int)
    requires i <= |hay|
    decreases |hay| - i
    ensures r == -1 || (i <= r && OccursAt(hay, needle, r))
    ensures r == -1 ==> forall k :: i <= k ==> !OccursAt(hay, needle, k)
    ensures r != -1 ==> forall k :: i <= k < r ==> !OccursAt(hay, needle, k)
  {
    if i + |needle| > |hay| then -1
    else if hay[i..i + |needle|] == needle then i
    else FindFrom(hay, needle, i + 1)
  }

  /** `hay.find(needle)`. */
  function Find(hay: string, needle: string): int
  {
    FindFrom(hay, needle, 0)
  }

  /** `needle in hay`. */
  predicate Contains(hay: string, needle: string)
  {
    Find(hay, needle) != -1
  }

  /** `s.lstrip()`: drops the leading whitespace and nothing else. */
  function LStrip(s: string): (r: string)
    ensures |r| <= |s| && r == s[|s| - |r|..]
    ensures r == [] || !IsSpace(r[0])
    ensures forall i :: 0 <= i < |s| - |r| ==> IsSpace(s[i])
  {
    if s != [] && IsSpace(s[0]) then LStrip(s[1..]) else s
  }

  /** `s.rstrip()`: drops the trailing whitespace and nothing else. */
  function RStrip(s: string): (r: string)
    ensures |r| <= |s| && r == s[..|r|]
    ensures r == [] || !IsSpace(r[|r| - 1])
    ensures forall i :: |r| <= i < |s| ==> IsSpace(s[i])
  {
    if s != [] && IsSpace(s[|s| - 1]) then RStrip(s[..|s| - 1]) else s
  }

  /** No leading and no trailing whitespace. */
  predicate IsStripped(s: string)
  {
    s == [] || (!IsSpace(s[0]) && !IsSpace(s[|s| - 1]))
  }

  predicate AllSpace(s: string)
  {
    forall i :: 0 <= i < |s| ==> IsSpace(s[i])
  }

  /** `r` is what is left of `s` once the whitespace before offset `a` and after `r` is removed. */
  predicate Trims(s: string, a: nat, r: string)
  {
    a + |r| <= |s| && r == s[a..a + |r|] && AllSpace(s[..a]) && AllSpace(s[a + |r|..])
  }

  lemma AllSpacePrefix(s: string, a: nat)
    requires a <= |s| && forall i :: 0 <= i < a ==> IsSpace(s[i])
    ensures AllSpace(s[..a])
  {
    assert forall i :: 0 <= i < a ==> s[..a][i] == s[i];
  }

  lemma AllSpaceSuffix(s: string, b: nat)
    requires b <= |s| && forall i :: b <= i < |s| ==> IsSpace(s[i])
    ensures AllSpace(s[b..])
  {
    assert forall i :: 0 <= i < |s| - b ==> s[b..][i] == s[b + i];
  }

  /** A left-stripped suffix `l` of `s`, then a right-stripped prefix `r` of `l`, trims `s`. */
  lemma TrimsOf(s: string, l: string, r: string)
    requires |l| <= |s| && l == s[|s| - |l|..] && forall i :: 0 <= i < |s| - |l| ==> IsSpace(s[i])
    requires |r| <= |l| && r == l[..|r|] && forall i :: |r| <= i < |l| ==> IsSpace(l[i])
    ensures Trims(s, |s| - |l|, r)
  {
    var a := |s| - |l|;
    AllSpacePrefix(s, a);
    AllSpaceSuffix(l, |r|);
    assert l[|r|..] == s[a + |r|..];
    assert r == s[a..a + |r|];
  }

  lemma StripTrims(s: string)
    ensures Trims(s, |s| - |LStrip(s)|, RStrip(LStrip(s)))
  {
    TrimsOf(s, LStrip(s), RStrip(LStrip(s)));
  }

  /**
   * `s.strip()`: the infix of `s` left once the whitespace before and after
   * it is removed; it is stripped, and empty exactly when `s` is all
   * whitespace.
   */
  function Strip(s: string): (r: string)
    ensures IsStripped(r)
    ensures exists a: nat :: Trims(s, a, r)
    ensures forall c :: c in r ==> c in s
    ensures r == [] <==> AllSpace(s)
  {
    var l := LStrip(s);
    var r := RStrip(l);
    StripTrims(s);
    assert forall c :: c in r ==> c in l;
    r
  }
}
