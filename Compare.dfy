/**
 * `compare_prices`: classify the input link by its domain, scrape the
 * source platform, look the restaurant and item up on the other platform,
 * and report both prices with the cheaper one.
 */
module Compare {
  import opened Wrappers
  import opened Text
  import opened Seqs
  import opened PriceValue
  import opened Nearest
  import opened Page
  import opened Scrape
  import opened RestaurantSearch

  const MOBILE_LINK_ERROR :=
    "\U{274C} Please paste a full Zomato/Swiggy restaurant link from the web, not a mobile app link."
  const UNSUPPORTED_ERROR := "Only Zomato and Swiggy links supported."

  /** One entry of `results`: `{"platform", "price", "link"}`. */
  datatype Row = Row(platform: string, price: Option<nat>, link: Option<string>)

  /** The dictionary `{"results", "cheapest"}`. */
  datatype Comparison = Comparison(results: seq<Row>, cheapest: Option<Row>)

  predicate IsMobileLink(domain: string)
  {
    Contains(domain, "onelink.me")
  }

  /** A domain the comparison accepts: no mobile deep link, and a Zomato or a Swiggy one. */
  predicate Supported(domain: string)
  {
    !IsMobileLink(domain) && (Contains(domain, "zomato") || Contains(domain, "swiggy"))
  }

  /** The platform of the input link; `zomato` is tested before `swiggy`. */
  function SourcePlatform(domain: string): string
  {
    if Contains(domain, "zomato") then "Zomato" else "Swiggy"
  }

  function TargetPlatform(domain: string): string
  {
    if Contains(domain, "zomato") then "Swiggy" else "Zomato"
  }

  /** `src["restaurant"] or src["item"]`. */
  function QueryName(src: SourceRecord): string
  {
    if src.restaurant != "" then src.restaurant else src.item
  }

  /** The target price string: looked up only when a restaurant link was found. */
  function TargetPriceStr(link: Option<string>, item: string, web: Web): Option<string>
  {
    if Truthy(link) then RawOf(NearestPrice(web.bodyAt(link.value), item)) else None
  }

  /** `[r for r in rows if r["price"] is not None]`. */
  function Available(rows: seq<Row>): (avail: seq<Row>)
    ensures forall r :: r in avail <==> r in rows && r.price.Some?
  {
    if rows == [] then []
    else (if rows[0].price.Some? then [rows[0]] else []) + Available(rows[1..])
  }

  /** Filtering distributes over concatenation: the kept rows stay in their order. */
  lemma {:induction false} AvailableAppend(a: seq<Row>, b: seq<Row>)
    ensures Available(a + b) == Available(a) + Available(b)
  {
    if a == [] {
      assert a + b == b;
    } else {
      assert (a + b)[1..] == a[1..] + b;
      AvailableAppend(a[1..], b);
    }
  }

  /** The kept rows of a prefix one longer: the shorter prefix's, then that row if it has a price. */
  lemma AvailableSnoc(rows: seq<Row>, i: nat)
    requires i < |rows|
    ensures Available(rows[..i + 1]) == Available(rows[..i]) + (if rows[i].price.Some? then [rows[i]] else [])
  {
    assert rows[..i + 1] == rows[..i] + [rows[i]];
    AvailableAppend(rows[..i], [rows[i]]);
    assert [rows[i]][1..] == [];
  }

  function PriceKeys(rows: seq<Row>): (keys: seq<int>)
    ensures |keys| == |rows|
  {
    seq(|rows|, i requires 0 <= i < |rows| => if rows[i].price.Some? then rows[i].price.value else 0)
  }

  /**
   * `min(available, key=lambda x: x["price"]) if available else None`: no
   * cheapest row exactly when no row has a price; otherwise the cheapest is
   * one of the rows, has a price, and no priced row is cheaper.
   */
  function Cheapest(rows: seq<Row>): (c: Option<Row>)
    ensures c.None? <==> forall i :: 0 <= i < |rows| ==> rows[i].price.None?
    ensures c.Some? ==> c.value in rows && c.value.price.Some?
    ensures c.Some? ==>
      forall i :: 0 <= i < |rows| && rows[i].price.Some? ==> c.value.price.value <= rows[i].price.value
  {
    var avail := Available(rows);
    if avail == [] then
      NoneAvailable(rows);
      None
    else
      LeastAvailable(rows);
      Some(avail[MinIndex(PriceKeys(avail))])
  }

  lemma NoneAvailable(rows: seq<Row>)
    requires Available(rows) == []
    ensures forall i :: 0 <= i < |rows| ==> rows[i].price.None?
  {
    forall i | 0 <= i < |rows| ensures rows[i].price.None? {
      assert rows[i] in rows;
    }
  }

  /** The first least-priced available row is a priced row that no priced row undercuts. */
  lemma LeastAvailable(rows: seq<Row>)
    requires Available(rows) != []
    ensures var avail := Available(rows); var k := MinIndex(PriceKeys(avail));
      avail[k] in rows && avail[k].price.Some?
      && forall i :: 0 <= i < |rows| && rows[i].price.Some? ==> avail[k].price.value <= rows[i].price.value
  {
    var avail := Available(rows);
    var k := MinIndex(PriceKeys(avail));
    assert avail[k] in avail;
    forall i | 0 <= i < |rows| && rows[i].price.Some? ensures avail[k].price.value <= rows[i].price.value {
      assert rows[i] in avail;
      NotBelowLeast(avail, rows[i]);
    }
  }

  /** A priced row among the available ones is not cheaper than the first least-priced one. */
  lemma NotBelowLeast(avail: seq<Row>, r: Row)
    requires forall x :: x in avail ==> x.price.Some?
    requires r in avail
    ensures var k := MinIndex(PriceKeys(avail)); avail[k].price.Some? && avail[k].price.value <= r.price.value
  {
    var keys := PriceKeys(avail);
    var k := MinIndex(keys);
    var j :| 0 <= j < |avail| && avail[j] == r;
    assert avail[k] in avail;
    assert keys[k] <= keys[j];
  }

  /**
   * The cheapest of a source row and a target row: none when neither has a
   * price, the priced one when only one has, and the lower price otherwise,
   * with the source row winning a tie.
   */
  lemma CheapestOfPair(source: Row, target: Row)
    ensures Cheapest([source, target]) ==
      if source.price.None? && target.price.None? then None
      else if target.price.None? then Some(source)
      else if source.price.None? then Some(target)
      else if target.price.value < source.price.value then Some(target)
      else Some(source)
  {
    var rows := [source, target];
    assert rows[1..] == [target];
    assert rows[1..][1..] == [];
    assert Available([]) == [];
    assert Available([target]) == (if target.price.Some? then [target] else []);
    assert Available(rows) == (if source.price.Some? then [source] else []) + Available([target]);
    var avail := Available(rows);
    if source.price.Some? && target.price.Some? {
      assert avail == [source, target];
      assert avail[..1] == [source];
    }
  }

  /** The two rows when the input link is on `source` and the other platform is `target`. */
  function RowsFor(inputUrl: string, source: string, target: string, web: Web): seq<Row>
  {
    var src := ScrapePlatform(inputUrl, source, web.titleAt(inputUrl), web.bodyAt(inputUrl));
    var link := RestaurantLink(target, QueryName(src), web);
    [Row(source, Normalize(src.priceStr), Some(inputUrl)),
     Row(target, Normalize(TargetPriceStr(link, src.item, web)), link)]
  }

  /** The two rows: the input page's price and link, then the other platform's. */
  function Rows(inputUrl: string, domain: string, web: Web): seq<Row>
  {
    RowsFor(inputUrl, SourcePlatform(domain), TargetPlatform(domain), web)
  }

  /**
   * What `compare_prices` returns for `inputUrl` with lower-cased host
   * `domain` on the renderer snapshot `web`.
   */
  function Comparing(inputUrl: string, domain: string, web: Web): (r: Result<Comparison>)
    ensures r.Ok? <==> Supported(domain)
    ensures IsMobileLink(domain) ==> r == Err(MOBILE_LINK_ERROR)
    ensures !IsMobileLink(domain) && !Supported(domain) ==> r == Err(UNSUPPORTED_ERROR)
    ensures r.Ok? ==> |r.value.results| == 2 && r.value.cheapest == Cheapest(r.value.results)
  {
    if IsMobileLink(domain) then Err(MOBILE_LINK_ERROR)
    else if !Supported(domain) then Err(UNSUPPORTED_ERROR)
    else
      var rows := Rows(inputUrl, domain, web);
      Ok(Comparison(rows, Cheapest(rows)))
  }

  /**
   * A mobile link and an unsupported domain are rejected with their
   * messages; otherwise there are two rows, one per platform, the target
   * row has no price when no restaurant link was found, a found link is
   * absolute, and there is a cheapest row unless neither row has a price.
   * A `zomato` domain is read as Zomato and compared against Swiggy, any
   * other supported one the other way round; the target is searched for by
   * the restaurant name, or the item name when the title gave no
   * restaurant, and its price is the item's price on the found page.
   */
  lemma ComparingSpec(inputUrl: string, domain: string, web: Web)
    ensures Comparing(inputUrl, domain, web).Ok? ==>
      var c := Comparing(inputUrl, domain, web).value;
      && |c.results| == 2
      && c.results[0].platform in ["Zomato", "Swiggy"]
      && c.results[1].platform in ["Zomato", "Swiggy"]
      && c.results[0].platform != c.results[1].platform
      && c.results[0].link == Some(inputUrl)
      && (c.results[1].link.None? ==> c.results[1].price.None?)
      && (c.results[1].price.None? ==>
            c.cheapest == if c.results[0].price.Some? then Some(c.results[0]) else None)
      && (c.results[1].link.Some? ==> StartsWith(c.results[1].link.value, "http"))
      && (c.cheapest.None? <==> c.results[0].price.None? && c.results[1].price.None?)
    ensures Comparing(inputUrl, domain, web).Ok? ==>
      var c := Comparing(inputUrl, domain, web).value;
      && |c.results| == 2
      && (Contains(domain, "zomato") ==> c.results[0].platform == "Zomato" && c.results[1].platform == "Swiggy")
      && (!Contains(domain, "zomato") ==> c.results[0].platform == "Swiggy" && c.results[1].platform == "Zomato")
      && c.cheapest == Cheapest(c.results)
    ensures Comparing(inputUrl, domain, web).Ok? ==>
      var c := Comparing(inputUrl, domain, web).value;
      var src := ScrapePlatform(inputUrl, SourcePlatform(domain), web.titleAt(inputUrl), web.bodyAt(inputUrl));
      && |c.results| == 2
      && c.results[0].price == Normalize(src.priceStr)
      && c.results[1].link == RestaurantLink(c.results[1].platform, QueryName(src), web)
      && c.results[1].price ==
           (if c.results[1].link.Some? && c.results[1].link.value != ""
            then Normalize(RawOf(NearestPrice(web.bodyAt(c.results[1].link.value), src.item)))
            else None)
  {
    if Supported(domain) {
      var rows := Rows(inputUrl, domain, web);
      var src := ScrapePlatform(inputUrl, SourcePlatform(domain), web.titleAt(inputUrl), web.bodyAt(inputUrl));
      var link := RestaurantLink(TargetPlatform(domain), QueryName(src), web);
      assert rows[1].link == link;
      assert link.None? ==> TargetPriceStr(link, src.item, web).None?;
      CheapestOfPair(rows[0], rows[1]);
      assert rows == [rows[0], rows[1]];
    }
  }

  /** Two appends to an empty list give the two-element list (kept apart so the solver sees the fact alone). */
  lemma AppendTwo<T>(a: T, b: T)
    ensures [] + [a] + [b] == [a, b]
  {
  }

  /** `compare_prices` over the renderer snapshot, with `domain` the lower-cased host of `inputUrl`. */
  method ComparePrices(inputUrl: string, domain: string, web: Web) returns (r: Result<Comparison>)
    ensures r == Comparing(inputUrl, domain, web)
  {
    if Contains(domain, "onelink.me") {
      return Err(MOBILE_LINK_ERROR);
    }
    if Contains(domain, "zomato") {
      r := CompareFrom(inputUrl, "Zomato", "Swiggy", web);
    } else if Contains(domain, "swiggy") {
      r := CompareFrom(inputUrl, "Swiggy", "Zomato", web);
    } else {
      return Err(UNSUPPORTED_ERROR);
    }
  }

  /**
   * The body of `compare_prices` once the platforms are known: scrape the
   * input page, find the restaurant on the other platform, read the item's
   * price there, and pick the cheaper row.
   */
  method CompareFrom(inputUrl: string, source: string, target: string, web: Web) returns (r: Result<Comparison>)
    ensures r == Ok(Comparison(RowsFor(inputUrl, source, target, web), Cheapest(RowsFor(inputUrl, source, target, web))))
  {
    var src := ScrapePlatform(inputUrl, source, web.titleAt(inputUrl), web.bodyAt(inputUrl));

    var restName := QueryName(src);
    var targetRestUrl := SearchRestaurantOnPlatform(target, restName, web);
    var targetPriceStr: Option<string> := None;
    if targetRestUrl.Some? && targetRestUrl.value != "" {
      targetPriceStr := SearchItemInRestaurant(web, targetRestUrl.value, src.item);
    }
    var targetPrice := Normalize(targetPriceStr);
    var srcPrice := Normalize(src.priceStr);

    var results: seq<Row> := [];
    var sourceRow := Row(src.platform, srcPrice, Some(src.url));
    var targetRow := Row(target, targetPrice, targetRestUrl);
    results := results + [sourceRow];
    results := results + [targetRow];
    AppendTwo(sourceRow, targetRow);
    var cheapest := Cheapest(results);
    return Ok(Comparison(results, cheapest));
  }
}
