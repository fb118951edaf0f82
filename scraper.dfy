/**
 * The part of `scrape_product` after the page is fetched: resolve the
 * anchor once, then try JSON-LD, the selectors and the sweep in turn.
 */
module Scraper {
  import opened Wrappers
  import opened Json
  import opened Dom
  import opened Soup
  import opened Closest
  import Url
  import Anchor
  import JsonLd
  import Title
  import Selectors
  import Sweep

  /** `_find_anchor_element(soup, product_name) if product_name else soup.find("h1")`. */
  function ResolveAnchor(t: Tree, productName: string): (r: Option<nat>)
    requires |t| >= 1
    ensures r.Some? ==> 1 <= r.value < |t|
  {
    if productName != [] then Anchor.AnchorOf(t, productName) else FirstH1(t)
  }

  /** A positional strategy's result with `name` set to the page title. */
  function Named(o: Offer, title: string): Product {
    Product(Some(title), o.price, JStr(o.currency))
  }

  /**
   * What `scrape_product(url, product_name=...)` returns, given what the
   * fetch produced: `None` when it failed or returned an empty body.
   */
  function Scrape(url: string, fetched: Option<Page>, productName: string): Option<Product>
    requires fetched.Some? ==> ValidPage(fetched.value)
  {
    if !Url.UrlOk(url) then None
    else
      match fetched
      case None => None
      case Some(p) => Strategies(url, p, ResolveAnchor(p.tree, productName))
  }

  /** JSON-LD first, then the selectors, then the sweep; the first that finds a price wins. */
  function Strategies(url: string, p: Page, anchor: Option<nat>): Option<Product>
    requires ValidPage(p)
    requires anchor.Some? ==> anchor.value < |p.tree|
  {
    match JsonLd.JsonLdResult(p.ldBlocks, url)
    case Some(r) => Some(r)
    case None =>
      match Selectors.SelectorsResult(p, anchor)
      case Some(o) => Some(Named(o, Title.ExtractTitle(p.tree, p.ldBlocks)))
      case None =>
        match Sweep.SweepResult(p, anchor)
        case Some(o) => Some(Named(o, Title.ExtractTitle(p.tree, p.ldBlocks)))
        case None => None
  }

  /** `scrape_product` after the fetch, as the source runs it. */
  method ScrapeProduct(url: string, fetched: Option<Page>, productName: string) returns (result: Option<Product>)
    requires fetched.Some? ==> ValidPage(fetched.value)
    ensures result == Scrape(url, fetched, productName)
  {
    var parsed := Url.UrlParse(url);
    var ok := (parsed.scheme == "http" || parsed.scheme == "https") && parsed.netloc != [];
    assert ok == Url.UrlOk(url);
    if !ok || fetched.None? {
      return None;
    }
    var soup := fetched.value;
    var anchor: Option<nat>;
    if productName != [] {
      anchor := Anchor.FindAnchorElement(soup.tree, productName);
    } else {
      anchor := FirstH1(soup.tree);
    }
    assert anchor == ResolveAnchor(soup.tree, productName);
    result := RunStrategies(url, soup, anchor);
  }

  /** The three strategies, called in turn. */
  method RunStrategies(url: string, soup: Page, anchor: Option<nat>) returns (result: Option<Product>)
    requires ValidPage(soup)
    requires anchor.Some? ==> anchor.value < |soup.tree|
    ensures result == Strategies(url, soup, anchor)
  {
    var ld := JsonLd.TryJsonLd(soup.ldBlocks, url);
    if ld.Some? {
      return ld;
    }
    var sel := Selectors.TrySelectors(soup, anchor);
    if sel.Some? {
      return Some(Named(sel.value, Title.ExtractTitle(soup.tree, soup.ldBlocks)));
    }
    var sweep := Sweep.TryProximitySweep(soup, anchor);
    if sweep.Some? {
      return Some(Named(sweep.value, Title.ExtractTitle(soup.tree, soup.ldBlocks)));
    }
    return None;
  }

  /**
   * Nothing is returned exactly when the URL is refused, the fetch failed,
   * or all three strategies come up empty: every JSON-LD block is skipped
   * and no selector or sweep match lies within the distance cap.
   */
  lemma ScrapeNone(url: string, fetched: Option<Page>, productName: string)
    requires fetched.Some? ==> ValidPage(fetched.value)
    ensures Scrape(url, fetched, productName).None? <==>
      || !Url.UrlOk(url)
      || fetched.None?
      || (var p := fetched.value;
          var anchor := Selectors.Resolve(p.tree, ResolveAnchor(p.tree, productName));
          var sel := Selectors.SelCands(p, anchor, |SelectorModes|);
          var sw := Sweep.SweepCands(p, anchor, |p.tree|);
          && (forall k :: 0 <= k < |p.ldBlocks| ==> JsonLd.BlockCandidate(p.ldBlocks[k], JsonLd.PagePath(url)).None?)
          && (forall j :: 0 <= j < |sel| ==> sel[j].dist >= Start.dist)
          && (forall j :: 0 <= j < |sw| ==> sw[j].dist >= Start.dist))
  {
    if Url.UrlOk(url) && fetched.Some? {
      var p := fetched.value;
      var anchor := ResolveAnchor(p.tree, productName);
      JsonLd.JsonLdNone(p.ldBlocks, url);
      Selectors.SelectorsClosest(p, anchor);
      Sweep.SweepClosest(p, anchor);
    }
  }

  /** A JSON-LD result is returned as the strategy built it: its name is not replaced, even when it is `None`. */
  lemma ScrapeKeepsJsonLdName(url: string, p: Page, productName: string)
    requires ValidPage(p) && Url.UrlOk(url)
    requires JsonLd.JsonLdResult(p.ldBlocks, url).Some?
    ensures Scrape(url, Some(p), productName) == JsonLd.JsonLdResult(p.ldBlocks, url)
  {
  }

  /**
   * A result from the selectors or the sweep is named by `_extract_title`,
   * has a positive price and a currency that is one of GBP, EUR and USD.
   */
  lemma ScrapePositional(url: string, p: Page, productName: string)
    requires ValidPage(p)
    requires JsonLd.JsonLdResult(p.ldBlocks, url).None?
    requires Scrape(url, Some(p), productName).Some?
    ensures var r := Scrape(url, Some(p), productName).value;
      && r.name == Some(Title.ExtractTitle(p.tree, p.ldBlocks))
      && r.price > 0.0
      && r.currency in {JStr("GBP"), JStr("EUR"), JStr("USD")}
  {
    StrategiesPositional(url, p, ResolveAnchor(p.tree, productName));
  }

  lemma StrategiesPositional(url: string, p: Page, anchor: Option<nat>)
    requires ValidPage(p)
    requires anchor.Some? ==> anchor.value < |p.tree|
    requires JsonLd.JsonLdResult(p.ldBlocks, url).None?
    requires Strategies(url, p, anchor).Some?
    ensures var r := Strategies(url, p, anchor).value;
      && r.name == Some(Title.ExtractTitle(p.tree, p.ldBlocks))
      && r.price > 0.0
      && r.currency in {JStr("GBP"), JStr("EUR"), JStr("USD")}
  {
    Selectors.SelectorsClosest(p, anchor);
    Sweep.SweepClosest(p, anchor);
  }

  /** A URL with no `:` has no scheme, so nothing is scraped, whatever the page. */
  lemma NoSchemeNothing(url: string, fetched: Option<Page>, productName: string)
    requires fetched.Some? ==> ValidPage(fetched.value)
    requires ':' !in url
    ensures Scrape(url, fetched, productName).None?
  {
    Url.NoSchemeRefused(url);
  }
}
