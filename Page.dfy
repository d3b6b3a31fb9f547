/**
 * What the browser shows during one comparison, as plain values: the core
 * only ever reads titles, body text, selector match counts and the links on
 * a page, so the renderer is a snapshot of those reads.
 */
module Page {
  import opened Wrappers

  /** One `<a>` element: its `inner_text()` (`None` when reading it raised) and its `href` attribute. */
  datatype Anchor = Anchor(text: Option<string>, href: Option<string>)

  /**
   * The renderer's answers, by the URL of the page being read:
   * `titleAt(url)` is `page.title() or ""`, `bodyAt(url)` is
   * `page.inner_text("body")`, `countAt(url, selector)` is
   * `page.locator(selector).count()` (`None` when it raised), and
   * `anchorsAt(url, query)` is the list of `<a>` elements after `query` was
   * submitted in the page's search box.
   */
  datatype Web = Web(
    titleAt: string -> string,
    bodyAt: string -> string,
    countAt: (string, string) -> Option<nat>,
    anchorsAt: (string, string) -> seq<Anchor>)
}
