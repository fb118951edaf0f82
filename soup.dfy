/**
 * What the scraper reads from a parsed page: the node arena, the decoded
 * `application/ld+json` scripts, and the nodes each price selector selects.
 */
module Soup {
  import opened Wrappers
  import opened Dom
  import opened Json

  /** Where a selector's price text comes from: the `content` attribute or the node text. */
  datatype Mode = Content | TextMode

  datatype Selector = Selector(css: string, mode: Mode)

  /** `_PRICE_SELECTORS`, most specific first. */
  const PriceSelectors: seq<Selector> := [
    Selector("[itemprop=\"price\"]", Content),
    Selector("[itemprop=\"price\"]", TextMode),
    Selector("meta[property=\"product:price:amount\"]", Content),
    Selector("meta[property=\"og:price:amount\"]", Content),
    Selector("#priceblock_ourprice", TextMode),
    Selector("#priceblock_dealprice", TextMode),
    Selector(".a-price > .a-offscreen", TextMode),
    Selector("#price_inside_buybox", TextMode),
    Selector(".priceView-hero-price span[aria-hidden='true']", TextMode),
    Selector("[data-test-id*=\"Price\"]", TextMode),
    Selector("[data-test-id*=\"price\"]", TextMode),
    Selector("[data-testid*=\"Price\"]", TextMode),
    Selector("[data-testid*=\"price\"]", TextMode),
    Selector("[data-name-id*=\"Price\"]", TextMode),
    Selector(".product-price", TextMode),
    Selector(".price--main", TextMode),
    Selector(".price-box .price", TextMode),
    Selector(".woocommerce-Price-amount", TextMode),
    Selector("[class*=\"ProductPrice\"]", TextMode),
    Selector("[class*=\"product-price\"]", TextMode),
    Selector("[class*=\"current-price\"]", TextMode),
    Selector("[class*=\"sale-price\"]", TextMode),
    Selector("#price", TextMode),
    Selector(".price", TextMode)
  ]

  /** The mode of each entry of `PriceSelectors`, in the same order. */
  const SelectorModes: seq<Mode> := [
    Content, TextMode, Content, Content, TextMode, TextMode, TextMode, TextMode,
    TextMode, TextMode, TextMode, TextMode, TextMode, TextMode, TextMode, TextMode,
    TextMode, TextMode, TextMode, TextMode, TextMode, TextMode, TextMode, TextMode]

  lemma SelectorModesAgree()
    ensures |SelectorModes| == |PriceSelectors|
    ensures forall k :: 0 <= k < |PriceSelectors| ==> PriceSelectors[k].mode == SelectorModes[k]
  {
  }

  /**
   * A parsed page: the arena, the result of `json.loads` on each
   * `<script type="application/ld+json">` in document order (`None` where
   * it raised), and for each entry of `PriceSelectors` the nodes
   * `soup.select` returns, in document order.
   */
  datatype Page = Page(tree: Tree, ldBlocks: seq<Option<Json>>, selected: seq<seq<nat>>)

  /** Every element hangs under the document, and selections name elements. */
  predicate ValidPage(p: Page) {
    && WellFormed(p.tree)
    && (forall i :: 1 <= i < |p.tree| ==> p.tree[i].parent.Some?)
    && |p.selected| == |SelectorModes|
    && (forall k, j :: 0 <= k < |p.selected| && 0 <= j < |p.selected[k]| ==>
          1 <= p.selected[k][j] < |p.tree|)
  }

  /** A `soup.find` query: a tag name, and optionally one attribute value. */
  datatype Query = ByTag(tag: string) | ByAttr(tag: string, attr: string, value: string)

  predicate Matches(n: Node, q: Query) {
    match q
    case ByTag(tag) => n.tag == tag
    case ByAttr(tag, attr, value) => n.tag == tag && attr in n.attrs && n.attrs[attr] == value
  }

  /** `soup.find(...)`: the first element, in document order from `from` on, that matches. */
  function FindFirst(t: Tree, q: Query, from: nat): (r: Option<nat>)
    requires 1 <= from <= |t|
    ensures r.Some? ==> from <= r.value < |t| && Matches(t[r.value], q)
    ensures r.Some? ==> forall i :: from <= i < r.value ==> !Matches(t[i], q)
    ensures r.None? <==> forall i :: from <= i < |t| ==> !Matches(t[i], q)
    decreases |t| - from
  {
    if from == |t| then None
    else if Matches(t[from], q) then Some(from)
    else FindFirst(t, q, from + 1)
  }

  /** `soup.find("h1")`. */
  function FirstH1(t: Tree): Option<nat>
    requires |t| >= 1
  {
    FindFirst(t, ByTag("h1"), 1)
  }

  /** A price found on the page, with the product name (`None` when absent) and currency. */
  datatype Product = Product(name: Option<string>, price: real, currency: Json)
}
