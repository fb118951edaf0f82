/**
 * `_try_json_ld`: Schema.org `Product` blocks, preferring the one whose
 * `url` (or `@id`) path is the path of the page itself.
 */
module JsonLd {
  import opened Wrappers
  import opened Text
  import opened Json
  import opened Soup
  import PyFloat
  import Url

  /**
   * The object a block is read as: the decoded value, or element 0 of a
   * decoded list. `None` where the source's `try` swallows an exception:
   * `json.loads` raised, the list is empty, or the value has no `.get`.
   */
  function BlockObject(b: Option<Json>): (r: Option<map<string, Json>>)
    ensures b.Some? && b.value.JObj? ==> r == Some(b.value.fields)
  {
    match b
    case None => None
    case Some(v) =>
      var data := if v.JArr? then (if v.items == [] then None else Some(v.items[0])) else Some(v);
      if data.Some? && data.value.JObj? then Some(data.value.fields) else None
  }

  /** `data.get("@type") == "Product"`. */
  predicate IsProduct(data: map<string, Json>) {
    Get(data, "@type") == Some(JStr("Product"))
  }

  /** One entry of `candidates`. */
  datatype Candidate = Candidate(name: Option<string>, price: real, currency: Json, urlMatch: bool)

  /** `urlparse(u).path.rstrip("/")`. */
  function PathOf(u: string): string {
    RStripChar(Url.UrlParse(u).path, '/')
  }

  /** The page path the candidates are compared with; empty for an empty page URL. */
  function PagePath(pageUrl: string): string {
    if pageUrl == [] then [] else PathOf(pageUrl)
  }

  /** The path of a block's `url`: parsed when it starts with `http`, else taken as is. */
  function LdPath(raw: string): string {
    if StartsWith(raw, "http") then PathOf(raw) else RStripChar(raw, '/')
  }

  /** `offers`, after taking element 0 of a list; `None` when `.get` on it would raise. */
  function Offers(data: map<string, Json>): Option<map<string, Json>> {
    var o := if "offers" in data then data["offers"] else JObj(map[]);
    var first := if o.JArr? then (if o.items == [] then None else Some(o.items[0])) else Some(o);
    if first.Some? && first.value.JObj? then Some(first.value.fields) else None
  }

  /** What one block adds to `candidates`, if anything. */
  function BlockCandidate(b: Option<Json>, pagePath: string): Option<Candidate> {
    match BlockObject(b)
    case None => None
    case Some(data) =>
      if !IsProduct(data) then None
      else
        match Offers(data)
        case None => None
        case Some(offers) => OfferCandidate(data, offers, pagePath)
  }

  /** A `Product` block with usable `offers`: the price must be present and parse. */
  function OfferCandidate(data: map<string, Json>, offers: map<string, Json>, pagePath: string): Option<Candidate> {
    var priceRaw := Or(Get(offers, "price"), Get(data, "price"));
    if IsNone(priceRaw) then None
    else
      match PyFloat.ParseFloat(ReplaceChar(PyStr(priceRaw.value), ',', ""))
      case None => None
      case Some(price) =>
        var currency := if "priceCurrency" in offers then offers["priceCurrency"] else JStr("USD");
        PricedCandidate(data, price, currency, pagePath)
  }

  /** A priced block: its name and whether its `url` (or `@id`) path is the page's. */
  function PricedCandidate(data: map<string, Json>, price: real, currency: Json, pagePath: string): Option<Candidate> {
    var name := Get(data, "name");
    match LdUrl(data)
    case None => None
    case Some(u) =>
      var ldPath := LdPath(u);
      Some(Candidate(
        if name.Some? && Truthy(name.value) then Some(Strip(PyStr(name.value))) else None,
        price,
        currency,
        pagePath != [] && ldPath != [] && pagePath == ldPath))
  }

  /**
   * `data.get("url") or data.get("@id") or ""`, when it is a string;
   * `None` where calling `.startswith` on it raises.
   */
  function LdUrl(data: map<string, Json>): Option<string> {
    var urlRaw := Or(Get(data, "url"), Or(Get(data, "@id"), Some(JStr(""))));
    if urlRaw.value.JStr? then Some(urlRaw.value.s) else None
  }

  /** `f` applied to every element. */
  function Map<A, B>(f: A -> B, xs: seq<A>): (r: seq<B>)
    ensures |r| == |xs|
    ensures forall k :: 0 <= k < |xs| ==> r[k] == f(xs[k])
  {
    seq(|xs|, k requires 0 <= k < |xs| => f(xs[k]))
  }

  lemma MapAppend<A, B>(f: A -> B, x1: seq<A>, x2: seq<A>)
    ensures Map(f, x1 + x2) == Map(f, x1) + Map(f, x2)
  {
  }

  /** What each block yields, block by block. */
  function Outcomes(blocks: seq<Option<Json>>, pagePath: string): seq<Option<Candidate>> {
    Map(b => BlockCandidate(b, pagePath), blocks)
  }

  /** The entries `candidates.append` adds, in order. */
  function Collect(os: seq<Option<Candidate>>): seq<Candidate>
    decreases |os|
  {
    if os == [] then []
    else Collect(os[..|os| - 1]) + (if os[|os| - 1].Some? then [os[|os| - 1].value] else [])
  }

  /** The `candidates` list after the loop over the blocks. */
  function Candidates(blocks: seq<Option<Json>>, pagePath: string): seq<Candidate> {
    Collect(Outcomes(blocks, pagePath))
  }

  /** The first candidate whose path matches the page, else the first candidate. */
  function Choose(cs: seq<Candidate>): Option<Candidate> {
    if cs == [] then None
    else
      var m := FirstMatched(cs, 0);
      if m < |cs| then Some(cs[m]) else Some(cs[0])
  }

  /** Index of the first URL-matched candidate from `k` on, or `|cs|`. */
  function FirstMatched(cs: seq<Candidate>, k: nat): (r: nat)
    requires k <= |cs|
    ensures k <= r <= |cs|
    ensures r < |cs| ==> cs[r].urlMatch
    ensures forall j :: k <= j < r ==> !cs[j].urlMatch
    decreases |cs| - k
  {
    if k == |cs| then |cs| else if cs[k].urlMatch then k else FirstMatched(cs, k + 1)
  }

  function ToProduct(c: Candidate): Product {
    Product(c.name, c.price, c.currency)
  }

  /** What `_try_json_ld(soup, page_url)` returns. */
  function JsonLdResult(blocks: seq<Option<Json>>, pageUrl: string): Option<Product> {
    Pick(Candidates(blocks, PagePath(pageUrl)))
  }

  /** The returned dict: name, price and currency of the chosen candidate. */
  function Pick(cs: seq<Candidate>): Option<Product> {
    match Choose(cs)
    case None => None
    case Some(c) => Some(ToProduct(c))
  }

  /** `_try_json_ld`, as the source runs it: fill `candidates`, then pick. */
  method TryJsonLd(blocks: seq<Option<Json>>, pageUrl: string) returns (result: Option<Product>)
    ensures result == JsonLdResult(blocks, pageUrl)
  {
    var pagePath := PagePath(pageUrl);
    var candidates: seq<Candidate> := [];
    ghost var os := Outcomes(blocks, pagePath);
    for i := 0 to |blocks|
      invariant candidates == Collect(os[..i])
    {
      CollectStep(os, i);
      var c := BlockCandidate(blocks[i], pagePath);
      assert c == os[i];
      if c.Some? {
        candidates := candidates + [c.value];
      }
    }
    assert os[..|blocks|] == os;
    result := PickCandidate(candidates);
  }

  lemma CollectStep(os: seq<Option<Candidate>>, i: nat)
    requires i < |os|
    ensures Collect(os[..i + 1]) == Collect(os[..i]) + (if os[i].Some? then [os[i].value] else [])
  {
    assert os[..i + 1][..i] == os[..i];
  }

  /** The tail of `_try_json_ld`: `None` for no candidates, else the first matched or the first. */
  method PickCandidate(candidates: seq<Candidate>) returns (result: Option<Product>)
    ensures result == Pick(candidates)
  {
    if candidates == [] {
      return None;
    }
    var matched: seq<Candidate> := [];
    for i := 0 to |candidates|
      invariant matched == Matched(candidates[..i])
    {
      assert candidates[..i + 1][..i] == candidates[..i];
      if candidates[i].urlMatch {
        matched := matched + [candidates[i]];
      }
    }
    assert candidates[..|candidates|] == candidates;
    MatchedFirst(candidates);
    var chosen := if matched != [] then matched[0] else candidates[0];
    return Some(Product(chosen.name, chosen.price, chosen.currency));
  }

  /** `[c for c in cs if c["url_match"]]`. */
  function Matched(cs: seq<Candidate>): seq<Candidate>
    decreases |cs|
  {
    if cs == [] then []
    else Matched(cs[..|cs| - 1]) + (if cs[|cs| - 1].urlMatch then [cs[|cs| - 1]] else [])
  }

  /** The list comprehension's head is the first matched candidate. */
  lemma {:induction false} MatchedFirst(cs: seq<Candidate>)
    ensures Matched(cs) == [] <==> FirstMatched(cs, 0) == |cs|
    ensures Matched(cs) != [] ==> Matched(cs)[0] == cs[FirstMatched(cs, 0)]
    decreases |cs|
  {
    if cs != [] {
      var init := cs[..|cs| - 1];
      MatchedFirst(init);
      FirstMatchedPrefix(cs);
    }
  }

  lemma FirstMatchedPrefix(cs: seq<Candidate>)
    requires cs != []
    ensures var init := cs[..|cs| - 1];
      FirstMatched(init, 0) < |init| ==> FirstMatched(cs, 0) == FirstMatched(init, 0)
    ensures var init := cs[..|cs| - 1];
      FirstMatched(init, 0) == |init| ==>
        FirstMatched(cs, 0) == (if cs[|cs| - 1].urlMatch then |cs| - 1 else |cs|)
  {
    var init := cs[..|cs| - 1];
    var m := FirstMatched(init, 0);
    var r := FirstMatched(cs, 0);
    assert forall j :: 0 <= j < |init| ==> init[j] == cs[j];
    if m < |init| {
      assert cs[m].urlMatch;
      assert r <= m;
    } else {
      assert forall j :: 0 <= j < |init| ==> !cs[j].urlMatch;
      assert r >= |init|;
    }
  }

  lemma {:induction false} CollectAppend(o1: seq<Option<Candidate>>, o2: seq<Option<Candidate>>)
    ensures Collect(o1 + o2) == Collect(o1) + Collect(o2)
    decreases |o2|
  {
    if o2 == [] {
      assert o1 + o2 == o1;
    } else {
      var init := o2[..|o2| - 1];
      assert (o1 + o2)[..|o1 + o2| - 1] == o1 + init;
      assert (o1 + o2)[|o1 + o2| - 1] == o2[|o2| - 1];
      CollectAppend(o1, init);
    }
  }

  lemma {:induction false} CollectEmpty(os: seq<Option<Candidate>>)
    ensures |Collect(os)| <= |os|
    ensures Collect(os) == [] <==> forall k :: 0 <= k < |os| ==> os[k].None?
    decreases |os|
  {
    if os != [] {
      var init := os[..|os| - 1];
      CollectEmpty(init);
      assert forall k :: 0 <= k < |init| ==> init[k] == os[k];
    }
  }

  /** Candidates of concatenated block lists concatenate: blocks do not affect each other. */
  lemma CandidatesAppend(b1: seq<Option<Json>>, b2: seq<Option<Json>>, pagePath: string)
    ensures Candidates(b1 + b2, pagePath) == Candidates(b1, pagePath) + Candidates(b2, pagePath)
  {
    MapAppend(b => BlockCandidate(b, pagePath), b1, b2);
    CollectAppend(Outcomes(b1, pagePath), Outcomes(b2, pagePath));
  }

  /** A skipped block (raising, not a `Product`, no usable price) leaves the candidates unchanged. */
  lemma SkippedBlockIgnored(b1: seq<Option<Json>>, b: Option<Json>, b2: seq<Option<Json>>, pagePath: string)
    requires BlockCandidate(b, pagePath).None?
    ensures Candidates(b1 + [b] + b2, pagePath) == Candidates(b1 + b2, pagePath)
  {
    CandidatesAppend(b1 + [b], b2, pagePath);
    CandidatesAppend(b1, [b], pagePath);
    CandidatesAppend(b1, b2, pagePath);
    CollectEmpty(Outcomes([b], pagePath));
  }

  /** Each block contributes at most one candidate; there are none exactly when every block is skipped. */
  lemma CandidatesAreFromBlocks(blocks: seq<Option<Json>>, pagePath: string)
    ensures |Candidates(blocks, pagePath)| <= |blocks|
    ensures Candidates(blocks, pagePath) == [] <==>
      forall k :: 0 <= k < |blocks| ==> BlockCandidate(blocks[k], pagePath).None?
  {
    CollectEmpty(Outcomes(blocks, pagePath));
  }

  /**
   * The pick is `None` exactly when there are no candidates; otherwise it is
   * the first URL-matched candidate when there is one, else the first one.
   */
  lemma PickFirstMatched(cs: seq<Candidate>)
    ensures Pick(cs).None? <==> cs == []
    ensures forall m :: 0 <= m < |cs| && cs[m].urlMatch && (forall j :: 0 <= j < m ==> !cs[j].urlMatch) ==>
      Pick(cs) == Some(ToProduct(cs[m]))
    ensures cs != [] && (forall j :: 0 <= j < |cs| ==> !cs[j].urlMatch) ==> Pick(cs) == Some(ToProduct(cs[0]))
  {
    if cs != [] {
      var r := FirstMatched(cs, 0);
      forall m | 0 <= m < |cs| && cs[m].urlMatch && (forall j :: 0 <= j < m ==> !cs[j].urlMatch)
        ensures Pick(cs) == Some(ToProduct(cs[m]))
      {
        assert r <= m;
      }
    }
  }

  /**
   * `_try_json_ld` returns `None` exactly when every block is skipped, and
   * otherwise the candidate `PickFirstMatched` describes.
   */
  lemma JsonLdNone(blocks: seq<Option<Json>>, pageUrl: string)
    ensures JsonLdResult(blocks, pageUrl).None? <==>
      forall k :: 0 <= k < |blocks| ==> BlockCandidate(blocks[k], PagePath(pageUrl)).None?
  {
    var pp := PagePath(pageUrl);
    CandidatesAreFromBlocks(blocks, pp);
    PickFirstMatched(Candidates(blocks, pp));
  }

  /**
   * A priced block comes with a `url` (or `@id`) string, and it matches the
   * page exactly when the page path and that string's path are both
   * non-empty and equal.
   */
  lemma UrlMatchMeaning(b: Option<Json>, pagePath: string)
    requires BlockCandidate(b, pagePath).Some?
    ensures BlockObject(b).Some? && LdUrl(BlockObject(b).value).Some?
    ensures var u := LdUrl(BlockObject(b).value).value;
      BlockCandidate(b, pagePath).value.urlMatch <==> pagePath != [] && LdPath(u) != [] && pagePath == LdPath(u)
  {
    var data := BlockObject(b).value;
    assert BlockCandidate(b, pagePath) == OfferCandidate(data, Offers(data).value, pagePath);
  }

  /**
   * A block whose `url` is the page URL itself matches whenever that URL
   * has a path other than slashes.
   */
  lemma SameUrlMatches(pageUrl: string, data: map<string, Json>, price: real, currency: Json)
    requires StartsWith(pageUrl, "http") && PathOf(pageUrl) != []
    requires LdUrl(data) == Some(pageUrl)
    ensures PricedCandidate(data, price, currency, PagePath(pageUrl)).Some?
    ensures PricedCandidate(data, price, currency, PagePath(pageUrl)).value.urlMatch
  {
  }

  /** The block `{"@type": "Product", "offers": {"price": raw}}`. */
  function PriceOnlyData(raw: string): map<string, Json> {
    map["@type" := JStr("Product"), "offers" := JObj(map["price" := JStr(raw)])]
  }

  lemma PriceOnlyPriced(raw: string, v: real)
    ensures PricedCandidate(PriceOnlyData(raw), v, JStr("USD"), []) == Some(Candidate(None, v, JStr("USD"), false))
  {
    var data := PriceOnlyData(raw);
    assert Get(data, "name").None?;
    assert Or(Get(data, "url"), Or(Get(data, "@id"), Some(JStr("")))) == Some(JStr(""));
  }

  /** A string price that parses, with no `priceCurrency`, gives a dollar candidate. */
  lemma OfferParsed(data: map<string, Json>, offers: map<string, Json>, pagePath: string, raw: string, v: real)
    requires Or(Get(offers, "price"), Get(data, "price")) == Some(JStr(raw))
    requires PyFloat.ParseFloat(ReplaceChar(raw, ',', "")) == Some(v)
    requires "priceCurrency" !in offers
    ensures OfferCandidate(data, offers, pagePath) == PricedCandidate(data, v, JStr("USD"), pagePath)
  {
  }

  lemma PriceOnlyShape(raw: string)
    requires raw != []
    ensures var data := PriceOnlyData(raw);
      var offers := map["price" := JStr(raw)];
      && BlockObject(Some(JObj(data))) == Some(data) && IsProduct(data) && Offers(data) == Some(offers)
      && Or(Get(offers, "price"), Get(data, "price")) == Some(JStr(raw)) && "priceCurrency" !in offers
  {
  }

  /** A `Product` object with usable `offers` yields what its offer yields. */
  lemma BlockViaOffer(b: Option<Json>, data: map<string, Json>, offers: map<string, Json>, pagePath: string)
    requires BlockObject(b) == Some(data) && IsProduct(data) && Offers(data) == Some(offers)
    ensures BlockCandidate(b, pagePath) == OfferCandidate(data, offers, pagePath)
  {
  }

  lemma PriceOnlyBlock(raw: string, v: real)
    requires PyFloat.ParseFloat(ReplaceChar(raw, ',', "")) == Some(v)
    ensures BlockCandidate(Some(JObj(PriceOnlyData(raw))), []) == Some(Candidate(None, v, JStr("USD"), false))
  {
    var offers := map["price" := JStr(raw)];
    var data := PriceOnlyData(raw);
    PyFloat.ParseEmpty();
    ReplaceCharEmpty(',', "");
    PriceOnlyShape(raw);
    BlockViaOffer(Some(JObj(data)), data, offers, []);
    OfferParsed(data, offers, [], raw, v);
    PriceOnlyPriced(raw, v);
  }

  /**
   * The JSON-LD price is not checked for sign or size: whatever `float()`
   * makes of the price text, a lone `Product` block yields it.
   */
  lemma PriceUnchecked(raw: string, v: real)
    requires PyFloat.ParseFloat(ReplaceChar(raw, ',', "")) == Some(v)
    ensures JsonLdResult([Some(JObj(PriceOnlyData(raw)))], "") == Some(Product(None, v, JStr("USD")))
  {
    var block := Some(JObj(PriceOnlyData(raw)));
    var c := Candidate(None, v, JStr("USD"), false);
    PriceOnlyBlock(raw, v);
    SingleBlock(block, [], c);
    PickSingle(c);
  }

  lemma SingleBlock(b: Option<Json>, pagePath: string, c: Candidate)
    requires BlockCandidate(b, pagePath) == Some(c)
    ensures Candidates([b], pagePath) == [c]
  {
    var os := Outcomes([b], pagePath);
    assert |os| == 1 && os[0] == BlockCandidate(b, pagePath);
    assert os == [Some(c)];
    CollectSingle(Some(c));
  }

  lemma CollectSingle(o: Option<Candidate>)
    ensures Collect([o]) == if o.Some? then [o.value] else []
  {
    assert [o][..0] == [];
  }

  lemma PickSingle(c: Candidate)
    ensures Pick([c]) == Some(ToProduct(c))
  {
    assert FirstMatched([c], 0) <= 1;
  }

  /** In particular a block with price `-5` yields -5. */
  lemma NegativePriceAccepted()
    ensures JsonLdResult([Some(JObj(PriceOnlyData("-5")))], "") == Some(Product(None, -5.0, JStr("USD")))
  {
    ReplaceCharAbsent("-5", ',', "");
    NegativeFive();
    PriceUnchecked("-5", -5.0);
  }

  lemma UnsignedFive()
    ensures PyFloat.Unsigned("5") == Some(5.0)
  {
    assert Find("5", {'e', 'E'}) == 1;
    assert Find("5", {'.'}) == 1;
    assert AllDigits("5");
    assert PyFloat.DigitsValue("5") == 5 by {
      assert "5"[..0] == "";
    }
  }

  lemma NegativeFive()
    ensures PyFloat.ParseFloat("-5") == Some(-5.0)
  {
    assert "-5"[1..] == "5";
    PyFloat.ParseNegative("-5");
    UnsignedFive();
  }
}
