# Price-drop notifier: price extraction and email text, in Dafny

This project models two parts of the price-drop notifier's shared Lambda layer.

- **The scraper's price pipeline** (`backend/layers/utils/scraper_utils.py`). It covers:
  - reading a price out of free text (`_extract_price_from_text`) and guessing its currency (`_detect_currency`);
  - locating the element that best matches the product name the user typed (`_find_anchor_element`);
  - measuring tree distance between elements (`_dom_distance`) and picking a product title (`_extract_title`);
  - the three price strategies: JSON-LD with page-URL matching, the ranked CSS selector pool and the short-leaf proximity sweep;
  - the part of `scrape_product` after the fetch, which resolves the anchor once and tries the strategies in order.
- **The pure parts of the email builder** (`backend/layers/utils/email_utils.py`). It covers:
  - the HTML escaper `_esc`;
  - the currency symbol table of `_format_price`;
  - the price and name branching of `build_welcome_email` and `build_unsubscribe_page`.

A fetched page is a `Soup.Page`. It holds three things:
- an arena of elements in document order (node 0 is the document, and every parent comes before its children);
- the decoded `application/ld+json` blocks;
- the nodes each entry of `_PRICE_SELECTORS` selects.

Prices are exact reals. `PyFloat.ParseFloat` stands for Python's `float()` on decimal text. The six price regular expressions are hand-coded as matchers. They try the group's possible ends in the order Python's backtracking engine does.

Each loop of the source is a method whose postcondition ties its result to a specification function. These include:
- the anchor scan;
- both `_dom_distance` walks;
- the JSON-LD candidate collection and choice;
- the selector and sweep loops;
- the pattern loop of the price parser.

Lemmas then state the properties the source and its comments promise of those functions.

Where the code and a comment disagree, the model follows the code. The comment beside the European-decimal branch of `_extract_price_from_text` says `€1.234,56` becomes 1234.56. The code removes every comma before it counts dots, so the text parses to 1.23456. `PriceText.ExtractPriceEuExample` proves the value the code gives.

## Model

| member | source | states |
|---|---|---|
| PriceText.ExtractPriceFromText | backend/layers/utils/scraper_utils.py:89-106 | The pattern loop with its early return computes exactly `ExtractPrice`. |
| PriceText.ExtractPriceFirstMatch | backend/layers/utils/scraper_utils.py:89-106 | The result is `None` iff the text is empty or no pattern matches the whitespace-collapsed text. Otherwise it is the value of the group of the first matching pattern in `_PRICE_PATTERNS` order. It is never negative. |
| PriceText.PriceFromFirstMatch | backend/layers/utils/scraper_utils.py:95-106 | From pattern `k` on, the loop yields `None` iff no later pattern matches. Otherwise it yields the value of the first later pattern that matches. |
| PriceText.MatchValueDefined | backend/layers/utils/scraper_utils.py:97-104 | Once a pattern matches, `float` never raises on the normalised group, which is digits with at most one dot. The value is at least 0, so a match never falls through to the next pattern. |
| PriceText.ExtractPriceUsExample | backend/layers/utils/scraper_utils.py:80-103 | `"$1,234.56"` gives 1234.56: the dollar pattern matches and the commas are dropped. |
| PriceText.ExtractPriceEuExample | backend/layers/utils/scraper_utils.py:84-103 | `"€1.234,56"` gives 1.23456: the comma is removed before the dot count, and one dot is left, so the European branch does not fire. |
| PriceText.NoSuffixAfter | backend/layers/utils/scraper_utils.py:81 | The `USD`-suffix pattern cannot match text without a `U`, whichever group end is tried. |
| PriceText.DetectCurrency | backend/layers/utils/scraper_utils.py:109-114 | The code is always one of GBP, EUR and USD. It is GBP iff `£` occurs, and EUR iff `€` occurs without `£`. |
| Text.CollapseSingleSpaced | backend/layers/utils/scraper_utils.py:94 | After `" ".join(text.split())` the only whitespace left is single spaces between non-blank characters, and the ends are not blank. |
| PyFloat.DecimalValue | backend/layers/utils/scraper_utils.py:103 | `float` of `whole.frac` is the exact decimal value of those digits. |
| PyFloat.PlainDecimalParses | backend/layers/utils/scraper_utils.py:103 | Digits with at most one dot always parse, to a value of at least 0. |
| PyFloat.ParseNegative | backend/layers/utils/scraper_utils.py:244 | A leading `-` parses to the negation of what the rest denotes, and fails exactly when the rest fails. |
| Dom.DomDistance | backend/layers/utils/scraper_utils.py:153-174 | The two ancestor walks return exactly `Distance`. |
| Dom.AncestorDepths | backend/layers/utils/scraper_utils.py:160-166 | The first walk maps each ancestor of `a` (itself included) to its depth below `a`, and nothing else. |
| Dom.DistanceThroughLca | backend/layers/utils/scraper_utils.py:153-174 | The distance is depth(a)+depth(b)−2·depth(lowest common ancestor). It is 10 000 when the two nodes share no ancestor. |
| Dom.LcaExists | backend/layers/utils/scraper_utils.py:167-171 | Whenever the nodes share an ancestor, there is a lowest common one: the first node of `b`'s walk found in `a`'s chain. |
| Dom.DistanceSymmetric | backend/layers/utils/scraper_utils.py:153-174 | `_dom_distance(a, b) == _dom_distance(b, a)`. |
| Dom.DistanceSelfAndParent | backend/layers/utils/scraper_utils.py:153-174 | A node is at distance 0 from itself and at distance 1 from its parent, in both directions. |
| Dom.NoChildTagsNoChildren | backend/layers/utils/scraper_utils.py:325-327 | A node with no child tags is no element's parent: every element is listed among its parent's children. |
| Anchor.FindAnchorElement | backend/layers/utils/scraper_utils.py:117-150 | The scan over `find_all(True)` returns exactly `AnchorOf`. |
| Anchor.ScanBest | backend/layers/utils/scraper_utils.py:133-148 | After any prefix of the scan, the best element is `None` iff no element so far is a hit. Otherwise it is a hit whose score no hit so far exceeds and every earlier hit scores strictly below. |
| Anchor.AnchorIsTightest | backend/layers/utils/scraper_utils.py:128-150 | For a non-blank name that some element contains, the anchor is an element outside script/style/meta/link/head/noscript whose lowercased text contains the stripped, lowercased name. Its score is at most 1 and maximal, and ties keep the earliest element. |
| Anchor.AnchorFallsBackToH1 | backend/layers/utils/scraper_utils.py:128-150 | A blank name, or a name no element contains, gives the first `h1`, or `None`. |
| Title.LdTitleFirst | backend/layers/utils/scraper_utils.py:186-194 | The JSON-LD title is the name of the first block that names a product. It is `None` iff no block does. |
| Title.BlockNameStripped | backend/layers/utils/scraper_utils.py:191-192 | A JSON-LD product name is returned stripped. |
| Title.TitleFromJsonLd | backend/layers/utils/scraper_utils.py:185-194 | The first block naming a product wins over every other source. |
| Title.TitleFromH1 | backend/layers/utils/scraper_utils.py:196-199 | With no JSON-LD name, the first `h1`'s text is the title. |
| Title.TitleFromOg | backend/layers/utils/scraper_utils.py:201-204 | With neither, a non-empty OpenGraph title `content` gives the title, stripped. |
| Title.TitleFromTitleTag | backend/layers/utils/scraper_utils.py:206-209 | With no JSON-LD name, no `h1` and no usable OpenGraph title, the first `title` element's text is the title. |
| Title.TitleUnknown | backend/layers/utils/scraper_utils.py:206-211 | With no JSON-LD name, no `h1`, no `title` element and no usable OpenGraph title, the title is `"Unknown Product"`. Other `meta` tags make no difference. |
| JsonLd.TryJsonLd | backend/layers/utils/scraper_utils.py:214-266 | The loop that appends candidates, followed by the choice, returns exactly `JsonLdResult`. |
| JsonLd.PickCandidate | backend/layers/utils/scraper_utils.py:261-266 | The choice returns exactly `Pick`. |
| JsonLd.PickFirstMatched | backend/layers/utils/scraper_utils.py:261-266 | No candidate gives `None`. Otherwise the first URL-matched candidate is chosen, and with none matched, the first candidate. |
| JsonLd.JsonLdNone | backend/layers/utils/scraper_utils.py:224-262 | The strategy returns `None` iff every block is skipped. |
| JsonLd.CandidatesAreFromBlocks | backend/layers/utils/scraper_utils.py:224-259 | Each block adds at most one candidate. There are none iff every block is skipped. |
| JsonLd.SkippedBlockIgnored | backend/layers/utils/scraper_utils.py:225-259 | A skipped block leaves the candidates of the other blocks, in order, exactly as they would be without it. The block may be unparsable, an empty list, not a Product, or have a missing or unparsable price. |
| JsonLd.UrlMatchMeaning | backend/layers/utils/scraper_utils.py:248-250 | A block's candidate has `url_match` iff the page path and the block's URL path (from `url`, else `@id`, else empty) are both non-empty and equal. |
| JsonLd.SameUrlMatches | backend/layers/utils/scraper_utils.py:222-250 | A priced Product block whose `url` is the page's own http URL, with a non-empty path, is URL-matched. |
| JsonLd.PriceUnchecked | backend/layers/utils/scraper_utils.py:237-246 | Any text that `float` accepts, once its commas are gone, is taken as the price as is. No sign or range check is made, and the currency defaults to `"USD"`. |
| JsonLd.NegativePriceAccepted | backend/layers/utils/scraper_utils.py:237-246 | A Product block whose only field besides `@type` is `"price": "-5"` yields a product priced −5. |
| Json.OnlyScalarsParse | backend/layers/utils/scraper_utils.py:243-246 | A boolean, list or object price makes `float` raise, so the block is skipped. |
| Closest.FoldClosest | backend/layers/utils/scraper_utils.py:279-299 | The best-so-far loop ends with no price iff no match is within the cap. Otherwise it has picked a match at minimal distance that every earlier match is strictly farther than (strict `<` keeps the first of equals). Its currency is that match's. |
| Closest.OutcomeClosest | backend/layers/utils/scraper_utils.py:279-300 | The returned offer is the closest, earliest match's price and detected currency, or `None` when no match is within the cap. |
| Closest.AllZeroFirst | backend/layers/utils/scraper_utils.py:292-296 | When every distance is 0, the first match wins. |
| Closest.PresentExact | backend/layers/utils/scraper_utils.py:289-296 | A match is visited iff some entry holds it. |
| Closest.FoldPresent | backend/layers/utils/scraper_utils.py:279-299 | Visiting the present entries in order ends with no price iff no entry's match is within the cap. Otherwise it ends with the match of an entry that no entry's match is closer than and every earlier entry's match is strictly farther than. |
| Closest.OutcomePresent | backend/layers/utils/scraper_utils.py:279-300 | The returned offer is that entry's match, or `None` when no entry's match is within the cap. |
| Closest.PresentOrdered | backend/layers/utils/scraper_utils.py:322-338 | When each entry can only hold its own element's match, the visited matches come in strictly increasing element order. |
| Selectors.SelCand | backend/layers/utils/scraper_utils.py:285-292 | A selected element is a match iff the value its selector reads (the element's text, or its `content` attribute) yields a price above 0. The match holds that price, that text and the element's distance to the anchor. |
| Selectors.ElCands | backend/layers/utils/scraper_utils.py:284-296 | Every match of a selector is a selected element whose text yields a positive price, scored by its distance to the anchor. |
| Selectors.ElCandsExact | backend/layers/utils/scraper_utils.py:284-296 | A selector's matches are exactly the matches of the elements it selects. |
| Selectors.SelCands | backend/layers/utils/scraper_utils.py:283-296 | The same holds for the matches of all selectors, in selector-then-document order. |
| Selectors.Entries | backend/layers/utils/scraper_utils.py:283-296 | Every entry of the selection, in selector-then-document order, holds a sound match or none. |
| Selectors.EntriesComplete | backend/layers/utils/scraper_utils.py:283-285 | Every element each selector selects has its entry. |
| Selectors.SelCandsPresent | backend/layers/utils/scraper_utils.py:283-296 | The matches of all selectors are the present entries, in the same order. |
| Selectors.SelCandsComplete | backend/layers/utils/scraper_utils.py:284-292 | Every selected element whose text yields a positive price is among the matches. |
| Selectors.SelectorsPickClosest | backend/layers/utils/scraper_utils.py:269-300 | In terms of selection entries: `None` iff no entry's match is within the cap. Otherwise the result is the offer of an entry whose match no entry's match is closer than, and that every earlier entry's match is strictly farther than. |
| Selectors.TrySelectors | backend/layers/utils/scraper_utils.py:269-300 | The nested loops over selectors and selected elements return exactly `SelectorsResult`. |
| Selectors.ScanSelector | backend/layers/utils/scraper_utils.py:283-296 | One selector's pass advances the best-so-far state from the fold over earlier selectors to the fold that includes this one. |
| Selectors.SelectorsClosest | backend/layers/utils/scraper_utils.py:269-300 | `None` iff no match is within the cap. Otherwise the result is the price of a match at minimal distance to the anchor (the first `h1` when none is given), earliest on ties, with `_detect_currency` of that match's text. |
| Selectors.SelectorsPositive | backend/layers/utils/scraper_utils.py:289-291 | The returned price is positive. |
| Selectors.SelectorsNoAnchor | backend/layers/utils/scraper_utils.py:277-296 | With no anchor and no `h1`, the first match in selector-then-document order wins. |
| Sweep.SweepCand | backend/layers/utils/scraper_utils.py:322-334 | An element is a match iff it is outside the skipped tags and has no child tags, and its text is non-empty, at most 30 characters and gives a price strictly between 0 and 1 000 000. |
| Sweep.SweepCandsSound | backend/layers/utils/scraper_utils.py:322-338 | Every match of the sweep is such an element, scored by its distance to the anchor. |
| Sweep.SweepCandsExact | backend/layers/utils/scraper_utils.py:322-338 | The sweep's matches are exactly the eligible elements' matches, each once, in document order. |
| Sweep.SweepPicksClosestLeaf | backend/layers/utils/scraper_utils.py:303-342 | In terms of elements: `None` iff no element's match is within the cap. Otherwise the result is the offer of an eligible element whose match no element's match is closer than, and that every earlier element's match is strictly farther than. |
| Sweep.TryProximitySweep | backend/layers/utils/scraper_utils.py:303-342 | The loop over all elements returns exactly `SweepResult`. |
| Sweep.VisitElement | backend/layers/utils/scraper_utils.py:322-338 | One element's visit advances the best-so-far state by that element's match, if any. |
| Sweep.SweepClosest | backend/layers/utils/scraper_utils.py:303-342 | `None` iff no match is within the cap. Otherwise the result is the price of a match at minimal distance to the anchor, earliest in document order on ties, with the currency of that match's text. |
| Sweep.SweepBounded | backend/layers/utils/scraper_utils.py:331-333 | The returned price lies strictly between 0 and 1 000 000. |
| Sweep.SweepNoAnchor | backend/layers/utils/scraper_utils.py:315-338 | With no anchor and no `h1`, the first match in document order wins. |
| Scraper.ScrapeProduct | backend/layers/utils/scraper_utils.py:399-433 | The URL check, the one-time anchor resolution and the strategy chain return exactly `Scrape`. |
| Scraper.RunStrategies | backend/layers/utils/scraper_utils.py:414-433 | JSON-LD, then the selectors, then the sweep: the first result found is returned, and `None` when all three fail. |
| Scraper.ScrapeNone | backend/layers/utils/scraper_utils.py:399-433 | The result is `None` iff one of three things holds: the URL is refused, the fetch failed, or all three strategies are empty. Empty strategies mean every JSON-LD block is skipped and no selector or sweep match is within the cap of the same anchor. |
| Scraper.ScrapeKeepsJsonLdName | backend/layers/utils/scraper_utils.py:414-418 | A JSON-LD result is returned as built, its name unchanged even when it is `None`. `setdefault` never fills in a title. |
| Scraper.ScrapePositional | backend/layers/utils/scraper_utils.py:420-430 | A selector or sweep result is named by `_extract_title` and has a positive price. Its currency is GBP, EUR or USD. |
| Scraper.NoSchemeNothing | backend/layers/utils/scraper_utils.py:399-402 | A URL without a scheme scrapes nothing, whatever the page. |
| Url.NoSchemeRefused | backend/layers/utils/scraper_utils.py:399-400 | Text without `:` has no scheme, so the URL check refuses it. |
| Url.HttpUrlOk | backend/layers/utils/scraper_utils.py:399-400 | `http://host...` and `https://host...` pass the check when the host is non-empty and has no `/`, `?`, `#`, tab, CR or LF, and the rest is empty or starts with `/`, `?` or `#` and has no tab, CR or LF. The host is then the network location. |
| Email.EscIsMap | backend/layers/utils/email_utils.py:310-318 | The four chained replacements equal escaping each character on its own. |
| Email.EscNoRaw | backend/layers/utils/email_utils.py:310-318 | The output never contains `<`, `>` or `"`. |
| Email.EscAmpersands | backend/layers/utils/email_utils.py:314-317 | Every `&` in the output begins `&amp;`, `&lt;`, `&gt;` or `&quot;`. |
| Email.EscRoundTrip | backend/layers/utils/email_utils.py:314-317 | Decoding the four entities recovers the input. |
| Email.EscInjective | backend/layers/utils/email_utils.py:310-318 | Different inputs escape differently. |
| Email.EscIdentity | backend/layers/utils/email_utils.py:310-318 | Text free of `&<>"` is returned unchanged. |
| Email.EscLength | backend/layers/utils/email_utils.py:310-318 | The output length is len + 4·#`&` + 3·#`<` + 3·#`>` + 5·#`"`. The count of `'` is unchanged. |
| Email.SymbolMatchesDetect | backend/layers/utils/email_utils.py:149-152 | USD, GBP and EUR get `$`, `£` and `€`, which `_detect_currency` reads back as the same code. Any other code gets `$`. |
| Email.WelcomeShowsPrice | backend/layers/utils/email_utils.py:170-178 | With a price, the formatted price appears in the subject, the plain text and the HTML body. |
| Email.WelcomeWithoutPrice | backend/layers/utils/email_utils.py:179-185 | Without a price, the subject is exactly "You’re now tracking " and the name. The text says the price will be checked later, and nothing depends on the currency. |
| Email.WelcomeHtmlEscaped | backend/layers/utils/email_utils.py:187-199 | The escaped name and product URL appear in the HTML body. The escaped name and unsubscribe URL appear in the footer. |
| Email.WelcomePlainRaw | backend/layers/utils/email_utils.py:177-215 | The name appears unescaped in the subject and the plain text, and so do both URLs in the plain text. |
| Email.BlurbMeaning | backend/layers/utils/email_utils.py:279 | The blurb is empty iff the name is `None` or empty. Otherwise it contains the escaped name. |
| Email.BlurbEscapes | backend/layers/utils/email_utils.py:279 | A non-empty name is placed in the blurb escaped, with no raw `<`, `>` or `"` from it. |
| Email.UnsubscribeNamesProduct | backend/layers/utils/email_utils.py:278-294 | With a non-empty name, the unsubscribe page body contains the escaped name. |

## Left out

- `_fetch_html` (the HTTP request, the ScraperAPI proxy, its environment variables and retries) is network I/O. The fetched page is a parameter of `Scraper.Scrape`, and `None` stands for a failed fetch or an empty body.
- HTML parsing, `find_all`, `find`, `select` and `get_text` are library calls. The element arena, each element's two `get_text` forms and each selector's selected nodes are inputs. CSS selector matching itself is not modelled.
- `json.loads` is a library call. Each script block arrives already decoded, with `None` where decoding raised. A number keeps the text `str()` would print for it.
- Json.PyStr: `str()` of a list or dict is rendered as the placeholder `[...]` or `{...}`, not as Python's full repr. Such a value never parses as a price. A list or dict product name (scraper_utils.py:192 and 253) therefore comes out as the placeholder rather than as its repr.
- Anchor.Score: the ratio `len(needle) / len(text)` is an exact rational, not a double. Two different ratios can round to the same double only when texts run to about 10^8 characters. Only then could a tie the source keeps by `>` come out differently here.
- `urlparse` is modelled only for the scheme, network location and path. Its `ValueError`s are not modelled, so `Url.UrlParse` always succeeds and `Url.UrlOk` and `Url.HttpUrlOk` accept URLs that Python refuses. The two lines below give the effects.
- Scraper.ScrapeProduct: `urlsplit` raises `ValueError` in two cases. One is a network location with `[` but no `]`, or the reverse (a malformed IPv6 host). The other is a non-ASCII network location that NFKC normalisation turns into one containing `/`, `?`, `#`, `@` or `:`, such as `http://a\uFF03b`; Unicode normalisation is outside the model. For such a URL the error leaves `scrape_product` at scraper_utils.py:399, whereas the model accepts the URL and goes on to fetch.
- JsonLd.TryJsonLd: when such a URL is a block's `url` or `@id` (scraper_utils.py:249), the `except` at scraper_utils.py:258-259 skips the block, whereas the model keeps its candidate.
- Python's `\d`, `\s`, `str.lower()` and `str.strip()` are modelled on ASCII and the common whitespace characters. Unicode digits, case folding and other space characters are not covered.
- PyFloat.ParseFloat: prices are exact decimals, not binary doubles. Rounding, `inf`, `nan` and digit underscores are not modelled.
- Email.FormatPrice: the `f"{price:,.2f}"` rendering is floating-point formatting and is taken as an input string. Only the symbol choice is modelled.
- Email.Esc: it takes a string. `str()` of a non-string argument is not modelled.
- `build_price_drop_email`, `build_already_unsubscribed_page` and the `_BASE_HTML` template are not modelled. The drop email's savings and percentage are float arithmetic, and the other two are fixed text. The pages are modelled up to the four values passed into the template.
- The Lambda handlers under `backend/functions/` are not part of this model. They are AWS storage and mail glue.
- Logging is not modelled.
