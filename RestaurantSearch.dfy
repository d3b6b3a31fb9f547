/**
 * `search_restaurant_on_platform` and `search_item_in_restaurant`: find a
 * search box on the other platform's home page, search for the restaurant,
 * and pick a link from the first anchors of the results.
 */
module RestaurantSearch {
  import opened Wrappers
  import opened Text
  import opened Seqs
  import opened PriceTokens
  import opened Nearest
  import opened Page

  const ZOMATO_HOME := "https://www.zomato.com"
  const SWIGGY_HOME := "https://www.swiggy.com"

  /** The search-box selectors, tried in this order. */
  const SELECTORS: seq<string> := [
    "input[placeholder*='Search']",
    "input[type='search']",
    "input[aria-label*='search']",
    "input[placeholder*='Search for']",
    "input"
  ]

  /** How many anchors are scanned for the restaurant's name, and how many for the fallback. */
  const NAME_SCAN_LIMIT := 20
  const FALLBACK_SCAN_LIMIT := 5

  /** The home page searched: Zomato's when the platform is `zomato` in any letter case, Swiggy's otherwise. */
  function HomeUrl(platform: string): (home: string)
    ensures Lower(platform) == "zomato" <==> home == ZOMATO_HOME
    ensures home == ZOMATO_HOME || home == SWIGGY_HOME
  {
    if Lower(platform) == "zomato" then ZOMATO_HOME else SWIGGY_HOME
  }

  /**
   * The platform name is compared after `.lower()`, so any spelling of it
   * in any letter case selects the same home page.
   */
  lemma HomeUrlIgnoresCase(platform: string)
    ensures HomeUrl(platform) == HomeUrl(Lower(platform))
    ensures HomeUrl("Zomato") == ZOMATO_HOME && HomeUrl("Swiggy") == SWIGGY_HOME
  {
    LowerIdempotent(platform);
    assert Lower("Zomato") == "zomato";
    assert Lower("Swiggy") != "zomato" by { assert Lower("Swiggy")[0] == 's'; }
  }

  /** `loc.count() > 0`; a count that raised does not match. */
  predicate HasMatches(count: Option<nat>)
  {
    count.Some? && count.value > 0
  }

  /**
   * The index of the selector whose element becomes the search box: the
   * first selector, in order, that matches at least one element on the
   * page; none when every count is zero or raised.
   */
  function FirstSearchInput(web: Web, home: string): (r: Option<nat>)
    ensures r.Some? ==> r.value < |SELECTORS| && HasMatches(web.countAt(home, SELECTORS[r.value]))
    ensures r.Some? ==> forall j :: 0 <= j < r.value ==> !HasMatches(web.countAt(home, SELECTORS[j]))
    ensures r.None? <==> forall j :: 0 <= j < |SELECTORS| ==> !HasMatches(web.countAt(home, SELECTORS[j]))
  {
    FirstIndex(SELECTORS, (sel: string) => HasMatches(web.countAt(home, sel)))
  }

  /** The selector loop of `search_restaurant_on_platform`, with its early `break`. */
  method FindSearchInput(web: Web, home: string) returns (r: Option<nat>)
    ensures r == FirstSearchInput(web, home)
  {
    var i := 0;
    while i < |SELECTORS|
      invariant 0 <= i <= |SELECTORS|
      invariant forall j :: 0 <= j < i ==> !HasMatches(web.countAt(home, SELECTORS[j]))
    {
      var count := web.countAt(home, SELECTORS[i]);
      if count.Some? && count.value > 0 {
        return Some(i);
      }
      i := i + 1;
    }
    return None;
  }

  /** `href and href.startswith("http")`. */
  predicate IsAbsolute(href: Option<string>)
  {
    href.Some? && href.value != "" && StartsWith(href.value, "http")
  }

  /** An anchor whose text contains the name, ignoring case, and whose link is absolute. */
  predicate NameHit(a: Anchor, name: string)
  {
    a.text.Some? && Contains(Lower(a.text.value), Lower(name)) && IsAbsolute(a.href)
  }

  /**
   * The link the two anchor scans return: the `href` of one of the first 20
   * anchors, and always one that starts with `http`.
   */
  function ResolvedLink(anchors: seq<Anchor>, name: string): (r: Option<string>)
    ensures r.Some? ==> StartsWith(r.value, "http")
    ensures r.Some? ==> exists j :: 0 <= j < Min(|anchors|, NAME_SCAN_LIMIT) && anchors[j].href == r
  {
    var byName := FirstIndex(anchors[..Min(|anchors|, NAME_SCAN_LIMIT)], (a: Anchor) => NameHit(a, name));
    if byName.Some? then anchors[byName.value].href
    else
      var any := FirstIndex(anchors[..Min(|anchors|, FALLBACK_SCAN_LIMIT)], (a: Anchor) => IsAbsolute(a.href));
      if any.Some? then anchors[any.value].href else None
  }

  /** The two anchor loops of `search_restaurant_on_platform`, with their early returns. */
  method ResolveAnchor(anchors: seq<Anchor>, name: string) returns (r: Option<string>)
    ensures r == ResolvedLink(anchors, name)
  {
    var i := 0;
    while i < Min(|anchors|, NAME_SCAN_LIMIT)
      invariant 0 <= i <= Min(|anchors|, NAME_SCAN_LIMIT)
      invariant forall j :: 0 <= j < i ==> !NameHit(anchors[j], name)
    {
      var a := anchors[i];
      if a.text.Some? && Contains(Lower(a.text.value), Lower(name)) {
        var href := a.href;
        if href.Some? && href.value != "" && StartsWith(href.value, "http") {
          ghost var prefix := anchors[..Min(|anchors|, NAME_SCAN_LIMIT)];
          assert prefix[i] == a;
          return href;
        }
      }
      i := i + 1;
    }
    ghost var names := anchors[..Min(|anchors|, NAME_SCAN_LIMIT)];
    assert forall j :: 0 <= j < |names| ==> names[j] == anchors[j];
    i := 0;
    while i < Min(|anchors|, FALLBACK_SCAN_LIMIT)
      invariant 0 <= i <= Min(|anchors|, FALLBACK_SCAN_LIMIT)
      invariant forall j :: 0 <= j < i ==> !IsAbsolute(anchors[j].href)
    {
      var href := anchors[i].href;
      if href.Some? && href.value != "" && StartsWith(href.value, "http") {
        ghost var prefix := anchors[..Min(|anchors|, FALLBACK_SCAN_LIMIT)];
        assert prefix[i] == anchors[i];
        return href;
      }
      i := i + 1;
    }
    ghost var firsts := anchors[..Min(|anchors|, FALLBACK_SCAN_LIMIT)];
    assert forall j :: 0 <= j < |firsts| ==> firsts[j] == anchors[j];
    return None;
  }

  /** The first of the first 20 anchors that names the restaurant and has an absolute link wins. */
  lemma ResolvedLinkPrefersName(anchors: seq<Anchor>, name: string, i: nat)
    requires i < Min(|anchors|, NAME_SCAN_LIMIT) && NameHit(anchors[i], name)
    requires forall j :: 0 <= j < i ==> !NameHit(anchors[j], name)
    ensures ResolvedLink(anchors, name) == anchors[i].href
  {
    var prefix := anchors[..Min(|anchors|, NAME_SCAN_LIMIT)];
    assert prefix[i] == anchors[i];
    assert forall j :: 0 <= j < i ==> prefix[j] == anchors[j];
  }

  /** Failing a name match, the first of the first 5 anchors with an absolute link wins. */
  lemma ResolvedLinkFallback(anchors: seq<Anchor>, name: string, i: nat)
    requires forall j :: 0 <= j < Min(|anchors|, NAME_SCAN_LIMIT) ==> !NameHit(anchors[j], name)
    requires i < Min(|anchors|, FALLBACK_SCAN_LIMIT) && IsAbsolute(anchors[i].href)
    requires forall j :: 0 <= j < i ==> !IsAbsolute(anchors[j].href)
    ensures ResolvedLink(anchors, name) == anchors[i].href
  {
    var names := anchors[..Min(|anchors|, NAME_SCAN_LIMIT)];
    assert forall j :: 0 <= j < |names| ==> names[j] == anchors[j];
    var firsts := anchors[..Min(|anchors|, FALLBACK_SCAN_LIMIT)];
    assert firsts[i] == anchors[i];
    assert forall j :: 0 <= j < i ==> firsts[j] == anchors[j];
  }

  /** No link exactly when none of the first 20 anchors names the restaurant with an absolute link and none of the first 5 has one. */
  lemma ResolvedLinkNone(anchors: seq<Anchor>, name: string)
    ensures ResolvedLink(anchors, name).None? <==>
      (forall j :: 0 <= j < Min(|anchors|, NAME_SCAN_LIMIT) ==> !NameHit(anchors[j], name))
      && (forall j :: 0 <= j < Min(|anchors|, FALLBACK_SCAN_LIMIT) ==> !IsAbsolute(anchors[j].href))
  {
    var names := anchors[..Min(|anchors|, NAME_SCAN_LIMIT)];
    assert forall j :: 0 <= j < |names| ==> names[j] == anchors[j];
    var firsts := anchors[..Min(|anchors|, FALLBACK_SCAN_LIMIT)];
    assert forall j :: 0 <= j < |firsts| ==> firsts[j] == anchors[j];
  }

  /**
   * The link `search_restaurant_on_platform` returns: none without a search
   * box, else the anchor scans on the results page; a found link starts
   * with `http`.
   */
  function RestaurantLink(platform: string, name: string, web: Web): (r: Option<string>)
    ensures FirstSearchInput(web, HomeUrl(platform)).None? ==> r.None?
    ensures FirstSearchInput(web, HomeUrl(platform)).Some? ==>
      r == ResolvedLink(web.anchorsAt(HomeUrl(platform), name), name)
    ensures r.Some? ==> StartsWith(r.value, "http")
  {
    var home := HomeUrl(platform);
    if FirstSearchInput(web, home).None? then None
    else ResolvedLink(web.anchorsAt(home, name), name)
  }

  /**
   * With a search box on the home page, the link found is, on the results
   * page: the link of the first of the first 20 anchors that names the
   * restaurant with an absolute link; failing that, the first absolute link
   * among the first 5 anchors; failing both, none.
   */
  lemma RestaurantLinkScans(platform: string, name: string, web: Web)
    requires FirstSearchInput(web, HomeUrl(platform)).Some?
    ensures var a := web.anchorsAt(HomeUrl(platform), name); var r := RestaurantLink(platform, name, web);
      && (forall i: nat :: FirstNameHit(a, name, i) ==> r == a[i].href)
      && ((forall j :: 0 <= j < Min(|a|, NAME_SCAN_LIMIT) ==> !NameHit(a[j], name)) ==>
            forall i: nat :: FirstAbsolute(a, i) ==> r == a[i].href)
      && (r.None? <==>
            (forall j :: 0 <= j < Min(|a|, NAME_SCAN_LIMIT) ==> !NameHit(a[j], name))
            && (forall j :: 0 <= j < Min(|a|, FALLBACK_SCAN_LIMIT) ==> !IsAbsolute(a[j].href)))
  {
    var a := web.anchorsAt(HomeUrl(platform), name);
    forall i: nat | FirstNameHit(a, name, i) ensures RestaurantLink(platform, name, web) == a[i].href {
      ResolvedLinkPrefersName(a, name, i);
    }
    if forall j :: 0 <= j < Min(|a|, NAME_SCAN_LIMIT) ==> !NameHit(a[j], name) {
      forall i: nat | FirstAbsolute(a, i) ensures RestaurantLink(platform, name, web) == a[i].href {
        ResolvedLinkFallback(a, name, i);
      }
    }
    ResolvedLinkNone(a, name);
  }

  /** Anchor `i` is the first of the first 20 that names the restaurant with an absolute link. */
  predicate FirstNameHit(a: seq<Anchor>, name: string, i: nat)
  {
    i < Min(|a|, NAME_SCAN_LIMIT) && NameHit(a[i], name) && forall j :: 0 <= j < i ==> !NameHit(a[j], name)
  }

  /** Anchor `i` is the first of the first 5 with an absolute link. */
  predicate FirstAbsolute(a: seq<Anchor>, i: nat)
  {
    i < Min(|a|, FALLBACK_SCAN_LIMIT) && IsAbsolute(a[i].href) && forall j :: 0 <= j < i ==> !IsAbsolute(a[j].href)
  }

  /** `search_restaurant_on_platform` over the renderer snapshot. */
  method SearchRestaurantOnPlatform(platform: string, name: string, web: Web) returns (r: Option<string>)
    ensures r == RestaurantLink(platform, name, web)
    ensures r.Some? ==> StartsWith(r.value, "http")
  {
    var home := HomeUrl(platform);
    var searchInput := FindSearchInput(web, home);
    if searchInput.None? {
      return None;
    }
    var anchors := web.anchorsAt(home, name);
    r := ResolveAnchor(anchors, name);
  }

  /** `search_item_in_restaurant`: the body token of the restaurant page nearest the item name. */
  method SearchItemInRestaurant(web: Web, restaurantUrl: string, item: string) returns (priceStr: Option<string>)
    ensures priceStr == RawOf(NearestPrice(web.bodyAt(restaurantUrl), item))
  {
    var body := web.bodyAt(restaurantUrl);
    var found := FindNearestPrice(body, item);
    priceStr := if found.Some? then Some(found.value.raw) else None;
  }
}
