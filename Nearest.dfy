/**
 * `find_nearest_price`: the price token whose offset is closest to the first
 * case-insensitive occurrence of an anchor phrase, or the first token when
 * there is no usable anchor.
 */
module Nearest {
  import opened Wrappers
  import opened Text
  import opened Seqs
  import opened PriceTokens

  /** The `10**9` that the source uses as "no distance seen yet". */
  const SENTINEL: nat := 1_000_000_000

  /** `text.lower().find(item_name.lower()) if item_name else -1`. */
  function AnchorPos(text: string, item: string): (p: int)
    ensures p == -1 || (0 <= p && OccursAt(Lower(text), Lower(item), p))
    ensures item == "" ==> p == -1
    ensures p != -1 ==> forall k :: 0 <= k < p ==> !OccursAt(Lower(text), Lower(item), k)
    ensures item != "" && p == -1 ==> forall k :: !OccursAt(Lower(text), Lower(item), k)
  {
    if item == "" then -1 else Find(Lower(text), Lower(item))
  }

  function Dist(t: Token, pos: nat): nat
  {
    if t.start >= pos then t.start - pos else pos - t.start
  }

  /** `abs(m.start() - item_pos)` for every token, in token order. */
  function Distances(ts: seq<Token>, pos: nat): (ds: seq<int>)
    ensures |ds| == |ts|
    ensures forall k :: 0 <= k < |ts| ==> ds[k] == Dist(ts[k], pos)
  {
    seq(|ts|, k requires 0 <= k < |ts| => Dist(ts[k], pos) as int)
  }

  /** The token `find_nearest_price` is meant to return: none only for a text without tokens, otherwise one of its tokens. */
  function NearestPrice(text: string, item: string): (r: Option<Token>)
    ensures r.None? <==> Tokens(text) == []
    ensures r.Some? ==> r.value in Tokens(text)
  {
    var ts := Tokens(text);
    if ts == [] then None
    else
      var pos := AnchorPos(text, item);
      if pos == -1 then Some(ts[0]) else Some(ts[MinIndex(Distances(ts, pos))])
  }

  /** The matched text of an optional token (`group(0)`). */
  function RawOf(t: Option<Token>): (r: Option<string>)
    ensures r.Some? <==> t.Some?
  {
    match t
    case None => None
    case Some(tok) => Some(tok.raw)
  }

  /**
   * `find_nearest_price` with a running minimum that starts empty, so the
   * first token is always taken: its answer is `NearestPrice`.
   */
  method FindNearestPrice(text: string, item: string) returns (r: Option<Token>)
    ensures r == NearestPrice(text, item)
  {
    var prices := Tokens(text);
    if |prices| == 0 {
      return None;
    }
    var itemPos := AnchorPos(text, item);
    if itemPos == -1 {
      return Some(prices[0]);
    }
    var best := ClosestIndex(prices, itemPos);
    return Some(prices[best]);
  }

  /** The loop of the corrected `find_nearest_price`: the first token at the least distance from `pos`. */
  method ClosestIndex(prices: seq<Token>, pos: nat) returns (best: nat)
    requires |prices| > 0
    ensures best == MinIndex(Distances(prices, pos))
  {
    ghost var keys := Distances(prices, pos);
    var found := false;
    best := 0;
    var bestDist := 0;
    var i := 0;
    while i < |prices|
      invariant 0 <= i <= |prices|
      invariant found <==> i > 0
      invariant found ==> best == MinIndex(keys[..i]) && bestDist == keys[best]
    {
      var dist := Dist(prices[i], pos);
      assert keys[..i + 1][..i] == keys[..i];
      if !found || dist < bestDist {
        bestDist := dist;
        best := i;
        found := true;
      }
      i := i + 1;
    }
    assert keys[..i] == keys;
  }

  /** The inputs on which the source's loop never replaces its initial `None`: every token is at least `10**9` characters from the anchor. */
  predicate SentinelMisses(text: string, item: string)
  {
    var ts := Tokens(text);
    var pos := AnchorPos(text, item);
    ts != [] && pos != -1 && AllFar(ts, pos)
  }

  predicate AllFar(prices: seq<Token>, pos: nat)
  {
    forall k :: 0 <= k < |prices| ==> Dist(prices[k], pos) >= SENTINEL
  }

  /**
   * `find_nearest_price` as written: `best_dist` starts at `10**9`, and when
   * no token comes closer `best` stays `None` and `best.group(0)` raises
   * (`crashed`). On every other input it agrees with `NearestPrice`.
   */
  method FindNearestPriceAsWritten(text: string, item: string) returns (r: Option<Token>, crashed: bool)
    ensures crashed <==> SentinelMisses(text, item)
    ensures !crashed ==> r == NearestPrice(text, item)
    ensures crashed ==> r.None?
  {
    var prices := Tokens(text);
    if |prices| == 0 {
      return None, false;
    }
    var itemPos := AnchorPos(text, item);
    if itemPos == -1 {
      return Some(prices[0]), false;
    }
    var best := ClosestIndexAsWritten(prices, itemPos);
    if best.None? {
      return None, true;
    }
    return Some(prices[best.value]), false;
  }

  /**
   * The loop of `find_nearest_price` as written: a token is taken only when
   * it is closer than `10**9`, so none is taken when all are that far.
   */
  method ClosestIndexAsWritten(prices: seq<Token>, pos: nat) returns (best: Option<nat>)
    ensures best.None? <==> AllFar(prices, pos)
    ensures best.Some? ==> |prices| > 0 && best.value == MinIndex(Distances(prices, pos))
  {
    ghost var keys := Distances(prices, pos);
    best := None;
    var bestDist := SENTINEL;
    var i := 0;
    while i < |prices|
      invariant 0 <= i <= |prices|
      invariant best.None? ==> bestDist == SENTINEL && forall k :: 0 <= k < i ==> keys[k] >= SENTINEL
      invariant best.Some? ==> 0 < i && best.value == MinIndex(keys[..i]) && bestDist == keys[best.value] < SENTINEL
    {
      var dist := Dist(prices[i], pos);
      if best.Some? {
        MinIndexStep(keys, i);
      } else if dist < bestDist {
        assert forall k :: 0 <= k < i ==> keys[..i + 1][k] == keys[k];
        MinIndexLast(keys[..i + 1]);
      }
      if dist < bestDist {
        bestDist := dist;
        best := Some(i);
      }
      i := i + 1;
    }
    assert keys[..i] == keys;
  }

  /** No token is returned exactly when the text holds no literal of the price pattern at all. */
  lemma NearestPriceNone(text: string, item: string)
    ensures NearestPrice(text, item).None? <==> Tokens(text) == []
    ensures NearestPrice(text, item).None? <==>
      forall p, e :: 0 <= p < e <= |text| ==> !IsPriceLiteral(text[p..e])
  {
    NoTokensIff(text);
  }

  /** With an empty anchor, or one that does not occur in the lower-cased text, the first token wins whatever the distances. */
  lemma NearestPriceFallback(text: string, item: string)
    requires Tokens(text) != []
    requires item == "" || !Contains(Lower(text), Lower(item))
    ensures NearestPrice(text, item) == Some(Tokens(text)[0])
  {
  }

  /**
   * With the anchor found at `pos`, the token returned is one of the text's
   * tokens, no token is closer to `pos`, and every earlier token is farther:
   * ties go to the earliest token.
   */
  lemma NearestPriceMinimal(text: string, item: string)
    requires Tokens(text) != []
    requires item != "" && Contains(Lower(text), Lower(item))
    ensures var ts := Tokens(text);
      var pos := Find(Lower(text), Lower(item));
      exists k :: 0 <= k < |ts| && NearestPrice(text, item) == Some(ts[k])
        && (forall j :: 0 <= j < |ts| ==> Dist(ts[k], pos) <= Dist(ts[j], pos))
        && (forall j :: 0 <= j < k ==> Dist(ts[j], pos) > Dist(ts[k], pos))
  {
    var ts := Tokens(text);
    var pos := Find(Lower(text), Lower(item));
    assert AnchorPos(text, item) == pos != -1;
    var k := MinIndex(Distances(ts, pos));
    ClosestIsMinimal(ts, pos);
    assert NearestPrice(text, item) == Some(ts[k]);
  }

  /** The first index of least distance names a token no farther than any other and strictly nearer than every earlier one. */
  lemma ClosestIsMinimal(ts: seq<Token>, pos: nat)
    requires |ts| > 0
    ensures var k := MinIndex(Distances(ts, pos));
      && (forall j :: 0 <= j < |ts| ==> Dist(ts[k], pos) <= Dist(ts[j], pos))
      && (forall j :: 0 <= j < k ==> Dist(ts[j], pos) > Dist(ts[k], pos))
  {
    var ds := Distances(ts, pos);
    var k := MinIndex(ds);
    assert forall j :: 0 <= j < |ts| ==> ds[j] == Dist(ts[j], pos);
  }

  lemma {:induction false} SkipNoMarker(s: string, i: nat, j: nat)
    requires i <= j <= |s|
    requires forall p :: i <= p < j ==> s[p] != RUPEE && s[p] != 'R'
    decreases j - i
    ensures TokensFrom(s, i) == TokensFrom(s, j)
  {
    if i < j {
      assert s[i] != RUPEE && s[i] != 'R';
      assert MatchAt(s, i).None?;
      assert TokensFrom(s, i) == TokensFrom(s, i + 1);
      SkipNoMarker(s, i + 1, j);
    }
  }

  /**
   * The input that shows the sentinel is too small: the anchor `"a"` at
   * offset 0, `10**9` filler characters, then `"₹1"`. Its only token is
   * `10**9 + 1` characters away, so the program as written crashes where
   * `NearestPrice` returns that token.
   */
  lemma SentinelCounterexample()
    ensures var text := "a" + seq(SENTINEL, _ => 'x') + [RUPEE, '1'];
      && Tokens(text) == [Token([RUPEE, '1'], SENTINEL + 1)]
      && SentinelMisses(text, "a")
      && NearestPrice(text, "a") == Some(Token([RUPEE, '1'], SENTINEL + 1))
  {
    var text := "a" + seq(SENTINEL, _ => 'x') + [RUPEE, '1'];
    var n := SENTINEL + 1;
    assert |text| == n + 2;
    assert text[n] == RUPEE && text[n + 1] == '1';
    SkipNoMarker(text, 0, n);
    assert IsPriceChar(text[n + 1]);
    assert RunEnd(text, n + 1) == n + 2;
    assert MatchAt(text, n) == Some(n + 2);
    assert text[n..n + 2] == [RUPEE, '1'];
    assert TokensFrom(text, n) == [Token([RUPEE, '1'], n)] + TokensFrom(text, n + 2);
    assert Lower(text)[0..1] == "a" == Lower("a");
    assert AnchorPos(text, "a") == 0;
    assert Distances(Tokens(text), 0) == [n];
  }
}
