/**
 * The price tokenizer: `PRICE_REGEX` (`₹\s?[\d,]+|Rs\.?\s?[\d,]+`) as a
 * left-to-right scanner with the behaviour of `re.finditer`: matches are
 * leftmost, do not overlap, and scanning resumes where the last match ended.
 */
module PriceTokens {
  import opened Wrappers
  import opened Text

  const RUPEE: char := '\U{20B9}'

  /** A match of the price pattern: its text (`group(0)`) and its offset (`start()`). */
  datatype Token = Token(raw: string, start: nat)

  function End(t: Token): nat
  {
    t.start + |t.raw|
  }

  /** A member of the class `[\d,]`. */
  predicate IsPriceChar(c: char)
  {
    IsDigit(c) || c == ','
  }

  /** `[\d,]+` matches all of `t`. */
  predicate IsRun(t: string)
  {
    |t| >= 1 && forall i :: 0 <= i < |t| ==> IsPriceChar(t[i])
  }

  /** `\s?[\d,]+` matches all of `t`. */
  predicate IsTail(t: string)
  {
    IsRun(t) || (|t| >= 1 && IsSpace(t[0]) && IsRun(t[1..]))
  }

  /** The whole pattern matches all of `t`: the declarative reading of the regular expression. */
  predicate IsPriceLiteral(t: string)
  {
    || (|t| >= 1 && t[0] == RUPEE && IsTail(t[1..]))
    || (|t| >= 2 && t[0] == 'R' && t[1] == 's'
        && (IsTail(t[2..]) || (|t| >= 3 && t[2] == '.' && IsTail(t[3..]))))
  }

  /** Where the greedy `[\d,]*` starting at `i` stops. */
  function RunEnd(s: string, i: nat): (e: nat)
    requires i <= |s|
    decreases |s| - i
    ensures i <= e <= |s|
    ensures forall k :: i <= k < e ==> IsPriceChar(s[k])
    ensures e == |s| || !IsPriceChar(s[e])
  {
    if i < |s| && IsPriceChar(s[i]) then RunEnd(s, i + 1) else i
  }

  /** The end of the match of `\s?[\d,]+` at `j`; an empty run fails (and backtracking the `\s?` cannot help). */
  function TailEnd(s: string, j: nat): Option<nat>
    requires j <= |s|
  {
    var k := if j < |s| && IsSpace(s[j]) then j + 1 else j;
    var e := RunEnd(s, k);
    if e > k then Some(e) else None
  }

  /** The end of the match of the whole pattern at offset `i`, trying `₹…` before `Rs…` as the alternation does. */
  function MatchAt(s: string, i: nat): Option<nat>
    requires i <= |s|
  {
    if i < |s| && s[i] == RUPEE then TailEnd(s, i + 1)
    else if i + 1 < |s| && s[i] == 'R' && s[i + 1] == 's' then
      if i + 2 < |s| && s[i + 2] == '.' then TailEnd(s, i + 3) else TailEnd(s, i + 2)
    else None
  }

  /** `re.finditer` from offset `i` on. */
  function TokensFrom(s: string, i: nat): seq<Token>
    requires i <= |s|
    decreases |s| - i
  {
    if i == |s| then []
    else match MatchAt(s, i)
      case Some(e) => [Token(s[i..e], i)] + TokensFrom(s, e)
      case None => TokensFrom(s, i + 1)
  }

  /**
   * `list(PRICE_REGEX.finditer(s))`: every token is a match of the pattern
   * at its own offset, and each ends no later than the next starts.
   */
  function Tokens(s: string): (ts: seq<Token>)
    ensures MatchesFrom(s, ts, 0) && Ordered(ts)
  {
    TokensFromSound(s, 0);
    TokensFrom(s, 0)
  }

  /**
   * `PRICE_REGEX.search(s)`: none exactly when no literal of the pattern
   * occurs in `s`; otherwise a match of the pattern before which no
   * literal starts.
   */
  function Search(s: string): (r: Option<Token>)
    ensures r.None? <==> forall p, e :: 0 <= p < e <= |s| ==> !IsPriceLiteral(s[p..e])
    ensures r.Some? ==> IsMatchIn(s, r.value)
    ensures r.Some? ==> forall p, e :: 0 <= p < r.value.start && p < e <= |s| ==> !IsPriceLiteral(s[p..e])
  {
    var ts := Tokens(s);
    NoTokensIff(s);
    if ts == [] then None
    else
      TokensMissNothing(s);
      forall k | 0 <= k < |ts| ensures ts[0].start <= ts[k].start {
        StartsAfterFirst(ts, k);
      }
      Some(ts[0])
  }

  /** In an ordered token list no token starts before the first. */
  lemma {:induction false} StartsAfterFirst(ts: seq<Token>, k: nat)
    requires Ordered(ts) && k < |ts|
    ensures ts[0].start <= ts[k].start
  {
    if k > 0 {
      StartsAfterFirst(ts, k - 1);
    }
  }

  /** The offset `p` lies inside one of the tokens. */
  predicate Covered(ts: seq<Token>, p: nat)
  {
    exists k :: 0 <= k < |ts| && ts[k].start <= p < End(ts[k])
  }

  /** The greedy run end is the only place a run of price characters can stop. */
  lemma RunEndUnique(s: string, i: nat, e: nat)
    requires i <= e <= |s|
    requires forall k :: i <= k < e ==> IsPriceChar(s[k])
    requires e == |s| || !IsPriceChar(s[e])
    ensures RunEnd(s, i) == e
  {
  }

  /** `TailEnd` finds exactly the greedy match of `\s?[\d,]+`. */
  lemma TailEndSound(s: string, j: nat)
    requires j <= |s| && TailEnd(s, j).Some?
    ensures var e := TailEnd(s, j).value;
      j < e <= |s| && IsTail(s[j..e]) && (e == |s| || !IsPriceChar(s[e]))
  {
    var k := if j < |s| && IsSpace(s[j]) then j + 1 else j;
    var e := TailEnd(s, j).value;
    if k == j {
      assert IsRun(s[j..e]);
    } else {
      assert s[j..e][1..] == s[j + 1..e];
      assert IsRun(s[j + 1..e]);
    }
  }

  lemma TailEndComplete(s: string, j: nat, e: nat)
    requires j < e <= |s| && IsTail(s[j..e])
    ensures TailEnd(s, j).Some?
    ensures (e == |s| || !IsPriceChar(s[e])) ==> TailEnd(s, j) == Some(e)
  {
    var t := s[j..e];
    assert forall k :: j <= k < e ==> s[k] == t[k - j];
    if IsSpace(s[j]) {
      assert !IsRun(t) by { assert !IsPriceChar(t[0]); }
      assert t[1..] == s[j + 1..e];
      assert IsPriceChar(s[j + 1]);
      if e == |s| || !IsPriceChar(s[e]) { RunEndUnique(s, j + 1, e); }
    } else {
      assert IsRun(t);
      if e == |s| || !IsPriceChar(s[e]) { RunEndUnique(s, j, e); }
    }
  }

  /** A match found by the scanner is a literal of the pattern that no further price character extends. */
  lemma MatchAtSound(s: string, i: nat)
    requires i <= |s| && MatchAt(s, i).Some?
    ensures var e := MatchAt(s, i).value;
      i < e <= |s| && IsPriceLiteral(s[i..e]) && (e == |s| || !IsPriceChar(s[e]))
  {
    var e := MatchAt(s, i).value;
    var t := s[i..e];
    if s[i] == RUPEE {
      TailEndSound(s, i + 1);
      assert t[1..] == s[i + 1..e];
    } else if i + 2 < |s| && s[i + 2] == '.' {
      TailEndSound(s, i + 3);
      assert t[3..] == s[i + 3..e];
    } else {
      TailEndSound(s, i + 2);
      assert t[2..] == s[i + 2..e];
    }
  }

  /** Wherever a literal of the pattern starts, the scanner matches, and it matches a literal that cannot be extended exactly. */
  lemma MatchAtComplete(s: string, i: nat, e: nat)
    requires i < e <= |s| && IsPriceLiteral(s[i..e])
    ensures MatchAt(s, i).Some?
    ensures (e == |s| || !IsPriceChar(s[e])) ==> MatchAt(s, i) == Some(e)
  {
    var t := s[i..e];
    assert forall k :: i <= k < e ==> s[k] == t[k - i];
    if t[0] == RUPEE {
      assert t[1..] == s[i + 1..e];
      TailEndComplete(s, i + 1, e);
    } else {
      assert s[i] == 'R' && s[i + 1] == 's';
      if IsTail(t[2..]) {
        assert t[2..] == s[i + 2..e];
        assert s[i + 2] != '.' by { assert tail: IsTail(s[i + 2..e]); assert s[i + 2..e][0] == s[i + 2]; }
        TailEndComplete(s, i + 2, e);
      } else {
        assert t[3..] == s[i + 3..e];
        TailEndComplete(s, i + 3, e);
      }
    }
  }

  /** `t` is a match of the pattern in `s` at its own offset, with its own text. */
  predicate IsMatchIn(s: string, t: Token)
  {
    End(t) <= |s| && t.raw == s[t.start..End(t)] && MatchAt(s, t.start) == Some(End(t))
  }

  /** Every token is a match in `s` at or after offset `i`. */
  predicate MatchesFrom(s: string, ts: seq<Token>, i: nat)
  {
    forall k :: 0 <= k < |ts| ==> i <= ts[k].start && IsMatchIn(s, ts[k])
  }

  /** Each token ends at or before the next one starts. */
  predicate Ordered(ts: seq<Token>)
  {
    forall k :: 0 <= k < |ts| - 1 ==> End(ts[k]) <= ts[k + 1].start
  }

  /** A match at `i` followed by ordered matches from its end on. */
  lemma MatchesCons(s: string, t: Token, rest: seq<Token>, i: nat)
    requires t.start == i && IsMatchIn(s, t)
    requires MatchesFrom(s, rest, End(t)) && Ordered(rest)
    ensures MatchesFrom(s, [t] + rest, i) && Ordered([t] + rest)
  {
    var ts := [t] + rest;
    assert ts[0] == t;
    assert forall k :: 0 < k < |ts| ==> ts[k] == rest[k - 1];
  }

  /** What `TokensFrom` produces: true matches at or after `i`, in order and without overlap. */
  lemma {:induction false} TokensFromSound(s: string, i: nat)
    requires i <= |s|
    decreases |s| - i
    ensures MatchesFrom(s, TokensFrom(s, i), i)
    ensures Ordered(TokensFrom(s, i))
  {
    if i < |s| {
      match MatchAt(s, i)
      case None =>
        assert TokensFrom(s, i) == TokensFrom(s, i + 1);
        TokensFromSound(s, i + 1);
      case Some(e) =>
        MatchAtSound(s, i);
        TokensFromSound(s, e);
        var t := Token(s[i..e], i);
        assert TokensFrom(s, i) == [t] + TokensFrom(s, e);
        assert IsMatchIn(s, t);
        MatchesCons(s, t, TokensFrom(s, e), i);
    }
  }

  /** An offset is covered by a token list with a head exactly when the head or a later token covers it. */
  lemma CoveredCons(t: Token, rest: seq<Token>, p: nat)
    ensures Covered([t] + rest, p) <==> (t.start <= p < End(t)) || Covered(rest, p)
  {
    var ts := [t] + rest;
    assert ts[0] == t;
    assert forall k :: 0 < k < |ts| ==> ts[k] == rest[k - 1];
    if Covered(rest, p) {
      var k :| 0 <= k < |rest| && rest[k].start <= p < End(rest[k]);
      assert ts[k + 1] == rest[k];
    }
  }

  /** No match of the pattern starts at an offset from `i` on that the tokens leave uncovered. */
  lemma {:induction false} TokensFromLeftmost(s: string, i: nat)
    requires i <= |s|
    decreases |s| - i
    ensures forall p :: i <= p < |s| && !Covered(TokensFrom(s, i), p) ==> MatchAt(s, p).None?
  {
    if i < |s| {
      match MatchAt(s, i)
      case None =>
        assert TokensFrom(s, i) == TokensFrom(s, i + 1);
        TokensFromLeftmost(s, i + 1);
      case Some(e) =>
        MatchAtSound(s, i);
        TokensFromLeftmost(s, e);
        var t := Token(s[i..e], i);
        var rest := TokensFrom(s, e);
        assert TokensFrom(s, i) == [t] + rest;
        forall p | i <= p < |s| && !Covered([t] + rest, p) ensures MatchAt(s, p).None? {
          CoveredCons(t, rest, p);
        }
    }
  }

  /** The shape every literal has: it starts with `₹` or `Rs` and ends with a price character. */
  lemma LiteralShape(t: string)
    requires IsPriceLiteral(t)
    ensures |t| >= 2
    ensures t[0] == RUPEE || (t[0] == 'R' && t[1] == 's')
    ensures IsPriceChar(t[|t| - 1])
  {
  }

  /**
   * The tokens of `s`: each one is the text of `s` at its offset, spells the
   * pattern, starts with `₹` or `Rs` and ends in `[0-9,]`; offsets strictly
   * increase and tokens do not overlap; every literal of the pattern that
   * starts outside all tokens is missing from `s`; empty text has no token.
   */
  lemma TokensSpec(s: string)
    ensures var ts := Tokens(s);
      && (forall k :: 0 <= k < |ts| ==> TokenOk(s, ts[k]))
      && (forall k :: 0 <= k < |ts| - 1 ==> End(ts[k]) <= ts[k + 1].start && ts[k].start < ts[k + 1].start)
      && (forall p, e :: 0 <= p < e <= |s| && !Covered(ts, p) ==> !IsPriceLiteral(s[p..e]))
      && (s == [] ==> ts == [])
  {
    TokensFromSound(s, 0);
    TokensShape(s);
    TokensMissNothing(s);
  }

  /**
   * `t` is a token of `s` as `finditer` yields it: the text of `s` at its
   * offset, a literal of the pattern of at least two characters that starts
   * with `₹` or `Rs` and ends in `[0-9,]`, and no price character follows it.
   */
  predicate TokenOk(s: string, t: Token)
  {
    && End(t) <= |s| && t.raw == s[t.start..End(t)] && IsPriceLiteral(t.raw)
    && |t.raw| >= 2 && (t.raw[0] == RUPEE || t.raw[..2] == "Rs")
    && IsPriceChar(t.raw[|t.raw| - 1])
    && (End(t) == |s| || !IsPriceChar(s[End(t)]))
  }

  lemma TokensShape(s: string)
    ensures var ts := Tokens(s);
      forall k :: 0 <= k < |ts| ==> TokenOk(s, ts[k])
  {
    var ts := Tokens(s);
    TokensFromSound(s, 0);
    forall k | 0 <= k < |ts|
      ensures IsPriceLiteral(ts[k].raw) && |ts[k].raw| >= 2
      ensures ts[k].raw[0] == RUPEE || ts[k].raw[..2] == "Rs"
      ensures IsPriceChar(ts[k].raw[|ts[k].raw| - 1])
      ensures End(ts[k]) == |s| || !IsPriceChar(s[End(ts[k])])
    {
      MatchAtSound(s, ts[k].start);
      LiteralShape(ts[k].raw);
    }
  }

  lemma TokensMissNothing(s: string)
    ensures forall p, e :: 0 <= p < e <= |s| && !Covered(Tokens(s), p) ==> !IsPriceLiteral(s[p..e])
  {
    var ts := Tokens(s);
    TokensFromLeftmost(s, 0);
    forall p, e | 0 <= p < e <= |s| && !Covered(ts, p) ensures !IsPriceLiteral(s[p..e]) {
      if IsPriceLiteral(s[p..e]) { MatchAtComplete(s, p, e); }
    }
  }

  /** There is no token exactly when no literal of the pattern occurs anywhere in `s`. */
  lemma NoTokensIff(s: string)
    ensures Tokens(s) == [] <==> forall p, e :: 0 <= p < e <= |s| ==> !IsPriceLiteral(s[p..e])
  {
    TokensSpec(s);
    if Tokens(s) != [] {
      var t := Tokens(s)[0];
      assert IsPriceLiteral(s[t.start..End(t)]);
    }
  }
}
