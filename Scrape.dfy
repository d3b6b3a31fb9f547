/**
 * `extract_from_page` and `scrape_platform`: the source record read from
 * the input page's title and body text.
 */
module Scrape {
  import opened Wrappers
  import opened PriceTokens
  import opened Seqs
  import opened Nearest
  import opened Titles
  import opened Text

  /** The dictionary `scrape_platform` returns. */
  datatype SourceRecord = SourceRecord(
    platform: string, url: string, item: string, restaurant: string, priceStr: Option<string>)

  /** Python truthiness of an optional string. */
  predicate Truthy(p: Option<string>)
  {
    p.Some? && p.value != ""
  }

  /**
   * The price string of `extract_from_page`: the first token of the title,
   * else the body token nearest the whole title. There is none exactly when
   * neither the title nor the body holds a token, and a found one is a
   * literal of the price pattern, so it is never empty.
   */
  function ExtractPrice(title: string, body: string): (p: Option<string>)
    ensures p.None? <==> Tokens(title) == [] && Tokens(body) == []
    ensures p.Some? ==> |p.value| >= 2 && IsPriceLiteral(p.value)
  {
    TokenRawNonEmpty(title);
    TokenRawNonEmpty(body);
    match Search(title)
    case Some(t) => Some(t.raw)
    case None =>
      NearestPriceNone(body, title);
      RawOf(NearestPrice(body, title))
  }

  /**
   * `scrape_platform` on a page already rendered, including its
   * first-body-token fallback: the record keeps the given URL and platform,
   * its item and restaurant are the decomposed title without surrounding
   * whitespace, and its price string, when there is one, is a price literal.
   */
  function ScrapePlatform(url: string, platform: string, title: string, body: string): (r: SourceRecord)
    ensures r.url == url && r.platform == platform
    ensures (r.item, r.restaurant) == Decompose(title)
    ensures IsStripped(r.item) && IsStripped(r.restaurant)
    ensures r.priceStr.Some? ==> IsPriceLiteral(r.priceStr.value)
  {
    var names := Decompose(title);
    var priceStr := ExtractPrice(title, body);
    var fallback := RawOf(Search(body));
    SearchLiteral(body);
    SourceRecord(platform, url, names.0, names.1, if !Truthy(priceStr) then fallback else priceStr)
  }

  lemma SearchLiteral(s: string)
    ensures RawOf(Search(s)).Some? ==> IsPriceLiteral(RawOf(Search(s)).value)
  {
    if Search(s).Some? {
      MatchAtSound(s, Search(s).value.start);
    }
  }

  lemma TokenRawNonEmpty(s: string)
    ensures forall k :: 0 <= k < |Tokens(s)| ==> |Tokens(s)[k].raw| >= 2 && IsPriceLiteral(Tokens(s)[k].raw)
  {
    TokensSpec(s);
  }

  /**
   * The price of the title if it has one, else the body token nearest the
   * title; no price only when neither title nor body has a token; and
   * whatever is chosen is a literal of the price pattern.
   */
  lemma ExtractPriceSpec(title: string, body: string)
    ensures Tokens(title) != [] ==> ExtractPrice(title, body) == Some(Tokens(title)[0].raw)
    ensures Tokens(title) == [] ==> ExtractPrice(title, body) == RawOf(NearestPrice(body, title))
    ensures ExtractPrice(title, body).None? <==> Tokens(title) == [] && Tokens(body) == []
    ensures ExtractPrice(title, body).Some? ==>
      |ExtractPrice(title, body).value| >= 2 && IsPriceLiteral(ExtractPrice(title, body).value)
  {
    NearestPriceNone(body, title);
    TokenRawNonEmpty(title);
    TokenRawNonEmpty(body);
  }

  /**
   * The fallback of `scrape_platform` to the first body token never changes
   * the price: whenever the body has a token, the nearest-price search has
   * already returned one.
   */
  lemma FallbackUnreachable(url: string, platform: string, title: string, body: string)
    ensures ScrapePlatform(url, platform, title, body).priceStr == ExtractPrice(title, body)
  {
    ExtractPriceSpec(title, body);
  }

  /**
   * A page whose title has no price and whose body has exactly one price
   * token reports that token, wherever the item sits in the body.
   */
  lemma SingleBodyToken(url: string, platform: string, title: string, body: string)
    requires Tokens(title) == [] && |Tokens(body)| == 1
    ensures ScrapePlatform(url, platform, title, body).priceStr == Some(Tokens(body)[0].raw)
  {
    FallbackUnreachable(url, platform, title, body);
    var ts := Tokens(body);
    var pos := AnchorPos(body, title);
    if pos != -1 {
      assert MinIndex(Distances(ts, pos)) == 0;
    }
  }
}
