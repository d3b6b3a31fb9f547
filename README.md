# Strain price comparison: a verified model of the decision logic

Strain compares the price of one food item on two delivery platforms. It
takes a Zomato or Swiggy restaurant/item link, scrapes the page it points
to, finds the same restaurant on the other platform, reads the item's price
there, and reports both prices with the cheaper one. This project models
the part of `project.py` that turns page text into that answer. The model
covers these pieces:

- the price tokenizer `PRICE_REGEX`, written as a left-to-right scanner with
  the behaviour of `re.finditer` (module `PriceTokens`);
- `normalize_price_str` (module `PriceValue`);
- `find_nearest_price`, the token closest to an anchor phrase (module
  `Nearest`);
- the title split and the source-price choice of `extract_from_page` and
  `scrape_platform` (modules `Titles`, `Scrape`);
- the selector loop and the two anchor scans of
  `search_restaurant_on_platform`, plus `search_item_in_restaurant` (module
  `RestaurantSearch`);
- the domain classification, the two result rows and the cheapest-row choice
  of `compare_prices` (module `Compare`).

The browser is treated as a source of strings. `Page.Web` is a snapshot of
what the renderer would return:

- the title and body text of a URL;
- the match count of a CSS selector on a page, `None` when `count()` raises;
- the anchors `(text, href)` shown after searching a name on a platform's
  home page. A text or href of `None` stands for `inner_text` or
  `get_attribute` raising, or `href` being absent.

Shared modules:

- `Text`: ASCII whitespace, digits, lower-casing, `find` and `strip`.
- `Seqs`: Python `min`'s first-minimum index and a first-match search.
- `Wrappers`: `Option` and `Result`.

The loops of the source are methods proved equal to specification
functions:

- the running minimum of `find_nearest_price`;
- the selector loop;
- the two anchor loops with their early returns;
- `compare_prices`, whose results are built by appending.

Each specification function has lemmas stating what the source promises.

## Model

| member | source | states |
|---|---|---|
| `PriceTokens.RunEnd` | project.py:18 | `[\d,]*` is greedy: every character up to the returned end is a price character and the one at the end is not |
| `PriceTokens.TailEndSound` | project.py:18 | a match of `\s?[\d,]+` found by the scanner spells that sub-pattern and cannot be extended by a price character |
| `PriceTokens.TailEndComplete` | project.py:18 | wherever `\s?[\d,]+` matches, the scanner matches; where the literal cannot be extended it finds exactly that end, so the optional space's backtracking never yields another match |
| `PriceTokens.MatchAtSound` | project.py:18 | a match at an offset is a literal of `₹\s?[\d,]+\|Rs\.?\s?[\d,]+` that no price character extends |
| `PriceTokens.MatchAtComplete` | project.py:18 | every literal of the pattern starting at an offset makes the scanner match there, ending at the literal's end when that end is maximal |
| `PriceTokens.LiteralShape` | project.py:18 | a literal starts with `₹` or `Rs` and ends with a character of `[0-9,]` |
| `PriceTokens.Tokens` | project.py:31 | `finditer` yields matches of the pattern at their own offsets, each ending no later than the next starts |
| `PriceTokens.Search` | project.py:53 | `search` finds nothing exactly when no literal of the pattern occurs; otherwise a match before which no literal starts |
| `PriceTokens.TokensFromSound` | project.py:31 | the `finditer` scan from an offset yields only true matches at or after it, each ending no later than the next starts |
| `PriceTokens.TokensFromLeftmost` | project.py:31 | no match starts at an offset that the tokens leave uncovered: matches are leftmost |
| `PriceTokens.TokensShape` | project.py:18 | every token is the text at its offset, a literal of the pattern, at least two characters, begins with `₹` or `Rs` and ends in `[0-9,]` |
| `PriceTokens.TokensMissNothing` | project.py:31 | no literal of the pattern starts at an offset outside all tokens |
| `PriceTokens.TokensSpec` | project.py:31 | tokens are literals at their offsets, in strictly increasing non-overlapping order; nothing is missed; empty text has no token |
| `PriceTokens.NoTokensIff` | project.py:31 | there is no token exactly when no literal of the pattern occurs anywhere in the text |
| `PriceValue.DigitsAreDigits` | project.py:23-24 | removing everything except `[\d,]` and then the commas leaves exactly the digits of the input, in order |
| `PriceValue.DigitsEmptyIff` | project.py:25-28 | the remainder is empty, so `int` raises, exactly when the input has no digit |
| `PriceValue.Normalize` | project.py:20-28 | the result is `None` exactly when the input is `None`, empty, has no digit, or has more than 4300 digits (the bare `except` catches `int`'s `ValueError`); otherwise it is the number its digits spell in order |
| `PriceValue.DecimalRoundTrip` | project.py:26 | reading back `str(n)` gives `n` |
| `PriceValue.NormalizeRoundTrip` | project.py:20-28 | a digit-free marker followed by `str(n)` normalizes to `n` when `str(n)` has at most 4300 digits, and to `None` otherwise |
| `PriceValue.NormalizeRupeeExample` | project.py:20-28 | `"₹1,299"` gives 1299 |
| `PriceValue.NormalizeRsExample` | project.py:20-28 | `"Rs.199"` gives 199 |
| `PriceValue.NormalizeAbsentExamples` | project.py:21-22 | `None`, `""` and a bare `"₹"` give `None` |
| `Text.FindFrom` | project.py:34 | `str.find` returns the first offset where the needle occurs, or -1 when it occurs nowhere |
| `Text.LStrip` | project.py:63 | only leading whitespace is removed, and the result does not start with whitespace |
| `Text.RStrip` | project.py:63 | only trailing whitespace is removed, and the result does not end with whitespace |
| `Text.Strip` | project.py:63 | the result is the infix of the input left once exactly its leading and trailing whitespace is removed; it has no whitespace at either end and is empty exactly when the input is all whitespace |
| `Seqs.MinIndex` | project.py:39-43 | the index picked is of a least key, and every earlier key is strictly greater: the first minimum |
| `Seqs.FirstIndex` | project.py:92-99 | the first position satisfying the test, or none when no position does |
| `Nearest.AnchorPos` | project.py:34 | -1 for an empty anchor; otherwise the first offset where the lower-cased anchor occurs in the lower-cased text, and -1 exactly when it occurs nowhere |
| `Nearest.NearestPrice` | project.py:31-44 | no token only for a text without tokens; otherwise one of the text's tokens |
| `Nearest.FindNearestPrice` | project.py:30-44 | the corrected function returns `NearestPrice`: none without tokens, the first token without an anchor, otherwise the first token at least distance |
| `Nearest.ClosestIndex` | project.py:37-43 | the loop with a strict `<` ends on the first index of least distance |
| `Nearest.FindNearestPriceAsWritten` | project.py:30-44 | the function as written crashes exactly when there is an anchor and every token is at least `10**9` away; otherwise it agrees with `NearestPrice` |
| `Nearest.ClosestIndexAsWritten` | project.py:37-43 | the loop seeded with `10**9` takes no token exactly when all are that far; otherwise it ends on the first index of least distance |
| `Nearest.NearestPriceNone` | project.py:31-33 | no token is returned exactly when the text has no token, that is no literal of the pattern |
| `Nearest.NearestPriceFallback` | project.py:34-36 | with an empty anchor, or one absent from the lower-cased text, the first token is returned |
| `Nearest.NearestPriceMinimal` | project.py:37-44 | with the anchor found, the token returned is a token of the text, no token is closer, and every earlier token is farther |
| `Nearest.SentinelCounterexample` | project.py:38 | `"a"`, `10**9` filler characters and `"₹1"` has one token at distance `10**9 + 1`; the loop as written takes no token, while `NearestPrice` returns that one |
| `Titles.Split` | project.py:63 | `re.split` gives one more piece than there are delimiters, no piece holds a delimiter, and the pieces joined back with the delimiters, in order, give the title; a title without delimiters is one piece |
| `Titles.KeptClean` | project.py:63 | every kept piece is non-empty, stripped and free of delimiters |
| `Titles.PartsClean` | project.py:63 | every part of a title is non-empty, stripped and free of delimiters |
| `Titles.Decompose` | project.py:63-73 | neither field has surrounding whitespace, and a non-empty restaurant comes with an item, both clean parts of the title |
| `Titles.DecomposeCases` | project.py:63-69 | with two or more parts, item and restaurant are the first two; with one, the restaurant is empty; with none, the item is the stripped title; in the first two cases both fields are clean |
| `Titles.SplitBlankIff` | project.py:63 | every piece of the split is whitespace exactly when the title holds only delimiters and whitespace |
| `Titles.PartsEmptyIff` | project.py:63-69 | there are no parts exactly when the title holds only delimiters and whitespace |
| `Titles.DecomposeRoundTrip` | project.py:63-73 | a title `"item - restaurant - rest"` with clean item and restaurant decomposes into exactly that item and restaurant |
| `Scrape.TokenRawNonEmpty` | project.py:53-55 | every token's text is a literal of at least two characters, so a found price string is truthy |
| `Scrape.ExtractPrice` | project.py:53-57 | there is no price string exactly when neither title nor body holds a token; a found one is a literal of the pattern of at least two characters |
| `Scrape.ExtractPriceSpec` | project.py:53-57 | the title's first token wins; otherwise the body token nearest the whole title; there is no price exactly when neither title nor body has a token; a price is always a literal |
| `Scrape.FallbackUnreachable` | project.py:70-72 | the first-body-token fallback never changes the price string |
| `Scrape.ScrapePlatform` | project.py:60-73 | the record keeps the given URL and platform, its item and restaurant are the decomposed title with no surrounding whitespace, and its price string, when present, is a price literal |
| `Scrape.SingleBodyToken` | project.py:53-72 | a title without a price and a body with exactly one token report that token |
| `RestaurantSearch.HomeUrlIgnoresCase` | project.py:76 | the platform name is compared after `.lower()`, so its letter case never changes the home page; `"Zomato"` searches Zomato and `"Swiggy"` searches Swiggy |
| `RestaurantSearch.FirstSearchInput` | project.py:84-99 | the first selector, in order, whose count is positive; none exactly when each count is zero or raised |
| `RestaurantSearch.FindSearchInput` | project.py:91-99 | the loop with its `break` returns `FirstSearchInput` |
| `RestaurantSearch.ResolveAnchor` | project.py:121-140 | the two anchor loops with their early returns compute `ResolvedLink` |
| `RestaurantSearch.ResolvedLink` | project.py:121-140 | the link returned is the `href` of one of the first 20 anchors and starts with `http` |
| `RestaurantSearch.ResolvedLinkPrefersName` | project.py:122-129 | the first of the first 20 anchors whose text contains the name, ignoring case, and whose link is absolute is returned |
| `RestaurantSearch.ResolvedLinkFallback` | project.py:133-137 | when no name match exists, the first of the first 5 anchors with an absolute link is returned |
| `RestaurantSearch.ResolvedLinkNone` | project.py:122-140 | there is no link exactly when neither scan finds an anchor |
| `RestaurantSearch.RestaurantLink` | project.py:75-140 | no link without a search box; with one, the link the anchor scans choose on the results page; a found link starts with `http` |
| `RestaurantSearch.RestaurantLinkScans` | project.py:100-140 | with a search box, the first of the first 20 result anchors naming the restaurant with an absolute link wins; failing that, the first absolute link among the first 5; no link exactly when neither exists |
| `RestaurantSearch.SearchRestaurantOnPlatform` | project.py:75-140 | no link without a search box, otherwise the anchor scans' link, which starts with `http` |
| `RestaurantSearch.SearchItemInRestaurant` | project.py:142-150 | the price string is the text of the restaurant page's token nearest the item |
| `Compare.Available` | project.py:186 | a row is available exactly when it is a row with a price |
| `Compare.AvailableAppend` | project.py:186 | the filter distributes over concatenation, so the kept rows stay in their order |
| `Compare.AvailableSnoc` | project.py:186 | the kept rows of a prefix one longer are the shorter prefix's, then that row if it has a price |
| `Compare.Cheapest` | project.py:186-187 | no cheapest row exactly when no row has a price; otherwise it is one of the rows, it has a price, and no priced row is cheaper |
| `Compare.CheapestOfPair` | project.py:186-187 | of two rows, the priced one if only one has a price, the lower price if both do, and the source row on a tie |
| `Compare.Comparing` | project.py:152-170 | a mobile link gives its message, any other domain without `zomato` or `swiggy` gives the unsupported message; otherwise two rows, with the cheapest row chosen from them |
| `Compare.ComparingSpec` | project.py:152-189 | for a supported domain: two rows, one per platform; a `zomato` domain is the Zomato source against Swiggy, any other the Swiggy source against Zomato; the source row carries the input link and its normalized price; the target link is the one found for the restaurant name, or for the item when the restaurant is empty; with no target link the target has no price, otherwise the price of the item's nearest token on the found page; a target link starts with `http`; the cheapest row is `Cheapest` of the rows, the source when the target has no price, and absent only when neither row has a price |
| `Compare.ComparePrices` | project.py:152-170 | the checks for `onelink.me`, then `zomato`, then `swiggy` compute `Comparing` |
| `Compare.CompareFrom` | project.py:172-189 | the query name, the target lookup, the two normalized prices, the two appended rows and the cheapest row are those of `Comparing` |

## Left out

- Browser I/O is not modelled: `sync_playwright`, `goto`, `wait_for_load_state`, the timeouts and `browser.close`. Their results are the inputs taken from `Page.Web`.
- Typing into the search box is not modelled: `fill`, `press`, and the click-and-type fallback of project.py:102-112. The results page is `Page.Web.anchorsAt(home, name)`, whichever way the name was entered.
- `anchors.count()` is read twice in the source. The model reads one snapshot of the anchors for both scans.
- Renderer exceptions are modelled as values where the source catches them: `count()` raising inside the selector loop is a `None` count, and `inner_text`/`get_attribute` raising inside the anchor loops is a `None` field.
- Renderer exceptions the source does not catch are not modelled; the model takes these calls as total. They are `goto` and `launch`, `page.title()` (project.py:51), `page.inner_text("body")` (project.py:52, project.py:148) and `anchors.count()` (project.py:122, project.py:133). Each of them can raise out of `compare_prices`.
- `time.sleep` is timing only. The Windows event-loop policy is environment setup. Neither is modelled.
- `urlparse(...).netloc.lower()` is not modelled. `domain` is taken as an input.
- The Streamlit user interface is not modelled. That includes project.py:210, which shows a price of 0 as "Not available".
- Characters are ASCII only:
  - lower-casing maps `A`–`Z` only;
  - `\d` is `0`–`9`;
  - `\s` and `strip` use the ASCII whitespace of `str.isspace`.
  - Unicode case folding, Unicode digits accepted by `int`, and Unicode whitespace are not modelled.
- PriceValue.Normalize: refuses more than 4300 digits, as `int` does under CPython's default `sys.int_info.default_max_str_digits` (3.11 on, and the 3.7.14, 3.8.14, 3.9.14 and 3.10.7 security releases). An interpreter without that limit returns the value there, which the model does not.
- The regular-expression engine is replaced by the scanner in `PriceTokens`. The scanner is proved equal to the declarative reading of the pattern.
- The pattern is compiled without `re.IGNORECASE`, so only the literal `Rs` matches, and the model does the same.
- `find_nearest_price` returns the pair `(group(0), start())`. The model returns the token, which holds both.
- test_playwright.py is a standalone browser diagnostic. It is not part of this model.
- Scrape.ExtractPrice: uses the corrected `NearestPrice`. Where every body token is at least `10**9` characters from the title (`Nearest.SentinelMisses`), the source raises `AttributeError` at project.py:44, reached from project.py:57; the model returns the nearest token instead.
- RestaurantSearch.SearchItemInRestaurant: uses the corrected `NearestPrice`, so the same `AttributeError`, reached from project.py:149, is not modelled.
- Compare.TargetPriceStr: uses the corrected `NearestPrice`; the crash above is not carried into the target price.
- Compare.Comparing: built on the corrected `NearestPrice`, so on the sentinel input it returns a result where `compare_prices` raises; the crash is modelled only by `Nearest.FindNearestPriceAsWritten` (see Findings).

## Findings

| source | as written | input that shows it | evidently intended | confidence | as-written member | corrected member |
|---|---|---|---|---|---|---|
| project.py:37-44 | `best_dist = 10**9`; a token is kept only when its distance is `< best_dist`, so if every token is that far `best` stays `None` and `best.group(0)` raises `AttributeError` | text `"a"` + 10^9 filler characters + `"₹1"` with item `"a"`: one token, at distance 10^9 + 1 | return the nearest token whatever its distance | low: needs a body of over 10^9 characters; not executed | `Nearest.FindNearestPriceAsWritten` (shown by `Nearest.SentinelCounterexample`) | `Nearest.FindNearestPrice` |
