/**
 * `_try_proximity_sweep`: prices in the short text of leaf elements,
 * scored by their distance to the anchor.
 */
module Sweep {
  import opened Wrappers
  import opened Dom
  import opened Soup
  import opened PriceText
  import opened Closest
  import Anchor
  import Selectors

  /** The longest text the sweep reads a price from. */
  const MaxText := 30

  /** Prices at or above this are taken for something other than the product's price. */
  const PriceCeiling: real := 1000000.0

  /** Element `i` can carry the price: not skipped, no child tags, short non-empty text. */
  predicate Leaf(n: Node) {
    n.tag !in Anchor.SkipTags && n.children == [] && n.spacedText != [] && |n.spacedText| <= MaxText
  }

  /** The element passes every test of the loop: a leaf whose text gives a price strictly between 0 and the ceiling. */
  predicate Eligible(n: Node) {
    && Leaf(n)
    && ExtractPrice(n.spacedText).Some?
    && 0.0 < ExtractPrice(n.spacedText).value < PriceCeiling
  }

  /** Element `i` as a match of the sweep. */
  function SweepCand(p: Page, a: Option<nat>, i: nat): (r: Option<Cand>)
    requires ValidPage(p) && 1 <= i < |p.tree|
    requires a.Some? ==> a.value < |p.tree|
    ensures r.Some? <==> Eligible(p.tree[i])
    ensures r.Some? ==> Sound(p.tree, a, r.value) && r.value.node == i
  {
    var n := p.tree[i];
    if !Leaf(n) then None
    else
      match ExtractPrice(n.spacedText)
      case None => None
      case Some(v) =>
        if 0.0 < v < PriceCeiling then Some(Cand(i, v, Selectors.DistanceTo(p.tree, i, a), n.spacedText))
        else None
  }

  /** The match of every element of the page, by index; the document node has none. */
  function LeafMatches(p: Page, a: Option<nat>): (ms: seq<Option<Cand>>)
    requires ValidPage(p)
    requires a.Some? ==> a.value < |p.tree|
    ensures |ms| == |p.tree| && ms[0] == None
    ensures forall e :: 1 <= e < |p.tree| ==> ms[e] == SweepCand(p, a, e)
  {
    seq(|p.tree|, e requires 0 <= e < |p.tree| => if e == 0 then None else SweepCand(p, a, e))
  }

  /** The matches among elements `1 .. k-1`, in document order. */
  function SweepCands(p: Page, a: Option<nat>, k: nat): seq<Cand>
    requires ValidPage(p) && 1 <= k <= |p.tree|
    requires a.Some? ==> a.value < |p.tree|
  {
    Present(LeafMatches(p, a)[..k])
  }

  /** What `_try_proximity_sweep(soup, anchor)` returns. */
  function SweepResult(p: Page, anchor: Option<nat>): Option<Offer>
    requires ValidPage(p)
    requires anchor.Some? ==> anchor.value < |p.tree|
  {
    Outcome(Fold(SweepCands(p, Selectors.Resolve(p.tree, anchor), |p.tree|)))
  }

  /** A match of the sweep: a short leaf text whose price lies strictly between 0 and the ceiling. */
  predicate Sound(t: Tree, a: Option<nat>, c: Cand)
    requires WellFormed(t)
    requires a.Some? ==> a.value < |t|
  {
    && 1 <= c.node < |t|
    && Leaf(t[c.node])
    && c.raw == t[c.node].spacedText
    && 0.0 < c.price < PriceCeiling
    && ExtractPrice(c.raw) == Some(c.price)
    && c.dist == Selectors.DistanceTo(t, c.node, a)
  }

  /** `_try_proximity_sweep`, as the source runs it. */
  method TryProximitySweep(p: Page, anchor: Option<nat>) returns (result: Option<Offer>)
    requires ValidPage(p)
    requires anchor.Some? ==> anchor.value < |p.tree|
    ensures result == SweepResult(p, anchor)
  {
    var a := if anchor.None? then FirstH1(p.tree) else anchor;
    var bestDist := 10001;
    var bestPrice: Option<real> := None;
    var bestCurrency := "USD";
    SweepCandsFirst(p, a);
    for i := 1 to |p.tree|
      invariant Best(bestDist, bestPrice, bestCurrency) == Fold(SweepCands(p, a, i))
    {
      bestDist, bestPrice, bestCurrency := VisitElement(p, a, i, bestDist, bestPrice, bestCurrency);
    }
    if bestPrice.Some? {
      return Some(Offer(bestPrice.value, bestCurrency));
    }
    return None;
  }

  /** The body of the loop for element `i`: the skips, then the comparison with the best so far. */
  method VisitElement(p: Page, a: Option<nat>, i: nat, dist0: int, price0: Option<real>, currency0: string)
    returns (bestDist: int, bestPrice: Option<real>, bestCurrency: string)
    requires ValidPage(p) && 1 <= i < |p.tree|
    requires a.Some? ==> a.value < |p.tree|
    requires Best(dist0, price0, currency0) == Fold(SweepCands(p, a, i))
    ensures Best(bestDist, bestPrice, bestCurrency) == Fold(SweepCands(p, a, i + 1))
  {
    bestDist, bestPrice, bestCurrency := dist0, price0, currency0;
    SweepStep(p, a, i);
    var el := p.tree[i];
    if el.tag in Anchor.SkipTags {
      return;
    }
    if el.children != [] {
      return;
    }
    var text := el.spacedText;
    if text == [] || |text| > 30 {
      return;
    }
    var price := ExtractPriceFromText(text);
    if price.None? || !(0.0 < price.value < 1000000.0) {
      return;
    }
    var dist := 0;
    if a.Some? {
      dist := DomDistance(p.tree, i, a.value);
    }
    assert SweepCand(p, a, i) == Some(Cand(i, price.value, dist, text));
    if dist < bestDist {
      bestDist := dist;
      bestPrice := price;
      bestCurrency := DetectCurrency(text);
    }
  }

  /** Before the loop there is no match. */
  lemma SweepCandsFirst(p: Page, a: Option<nat>)
    requires ValidPage(p)
    requires a.Some? ==> a.value < |p.tree|
    ensures SweepCands(p, a, 1) == []
  {
    PresentPrefixSnoc(LeafMatches(p, a), 0);
  }

  /** One element of the loop: the fold over the matches takes one step, or none. */
  lemma SweepStep(p: Page, a: Option<nat>, i: nat)
    requires ValidPage(p) && 1 <= i < |p.tree|
    requires a.Some? ==> a.value < |p.tree|
    ensures var c := SweepCand(p, a, i);
      Fold(SweepCands(p, a, i + 1)) ==
        if c.Some? then Step(Fold(SweepCands(p, a, i)), c.value) else Fold(SweepCands(p, a, i))
  {
    var c := SweepCand(p, a, i);
    var ms := LeafMatches(p, a);
    PresentPrefixSnoc(ms, i);
    assert ms[i] == c;
    if c.Some? {
      assert SweepCands(p, a, i + 1) == SweepCands(p, a, i) + [c.value];
      FoldSnoc(SweepCands(p, a, i), c.value);
    } else {
      assert SweepCands(p, a, i) + [] == SweepCands(p, a, i);
      assert SweepCands(p, a, i + 1) == SweepCands(p, a, i);
    }
  }

  /** Every match of the sweep is an eligible element's, scored by its distance to the anchor. */
  lemma SweepCandsSound(p: Page, a: Option<nat>, k: nat)
    requires ValidPage(p) && 1 <= k <= |p.tree|
    requires a.Some? ==> a.value < |p.tree|
    ensures forall c :: c in SweepCands(p, a, k) ==> Sound(p.tree, a, c)
  {
    var ms := LeafMatches(p, a)[..k];
    PresentExact(ms);
    forall c | c in SweepCands(p, a, k)
      ensures Sound(p.tree, a, c)
    {
      var e :| 0 <= e < |ms| && ms[e] == Some(c);
      assert SweepCand(p, a, e) == Some(c);
    }
  }

  /**
   * The matches are exactly the eligible elements before `k`, each once,
   * in document order.
   */
  lemma SweepCandsExact(p: Page, a: Option<nat>, k: nat)
    requires ValidPage(p) && 1 <= k <= |p.tree|
    requires a.Some? ==> a.value < |p.tree|
    ensures forall c :: c in SweepCands(p, a, k) <==> exists i :: 1 <= i < k && SweepCand(p, a, i) == Some(c)
    ensures forall x, y :: 0 <= x < y < |SweepCands(p, a, k)| ==> SweepCands(p, a, k)[x].node < SweepCands(p, a, k)[y].node
  {
    var ms := LeafMatches(p, a)[..k];
    PresentExact(ms);
    PresentOrdered(ms);
    forall c | c in SweepCands(p, a, k)
      ensures exists i :: 1 <= i < k && SweepCand(p, a, i) == Some(c)
    {
      var e :| 0 <= e < |ms| && ms[e] == Some(c);
      assert SweepCand(p, a, e) == Some(c);
    }
    forall c | exists i :: 1 <= i < k && SweepCand(p, a, i) == Some(c)
      ensures c in SweepCands(p, a, k)
    {
      var i :| 1 <= i < k && SweepCand(p, a, i) == Some(c);
      assert ms[i] == Some(c);
    }
  }

  /**
   * In terms of the page's elements: `None` exactly when no element's match
   * lies within the distance cap; otherwise the offer of an eligible
   * element whose match no match is closer than and every earlier
   * element's match is strictly farther than.
   */
  lemma SweepPicksClosestLeaf(p: Page, anchor: Option<nat>)
    requires ValidPage(p)
    requires anchor.Some? ==> anchor.value < |p.tree|
    ensures var ms := LeafMatches(p, Selectors.Resolve(p.tree, anchor));
      && (SweepResult(p, anchor).None? <==>
            forall e :: 0 <= e < |ms| && ms[e].Some? ==> ms[e].value.dist >= Start.dist)
      && (SweepResult(p, anchor).Some? ==>
            exists e: nat :: IsClosestElement(ms, e) && Eligible(p.tree[e])
              && SweepResult(p, anchor) == Some(OfferOf(ms[e].value)))
  {
    var a := Selectors.Resolve(p.tree, anchor);
    var ms := LeafMatches(p, a);
    assert ms[..|p.tree|] == ms;
    OutcomePresent(ms);
    if SweepResult(p, anchor).Some? {
      var e: nat :| IsClosestElement(ms, e) && SweepResult(p, anchor) == Some(OfferOf(ms[e].value));
      assert SweepCand(p, a, e).Some?;
    }
  }

  /**
   * The sweep returns `None` exactly when no match lies within the distance
   * cap; otherwise the price of the closest leaf, earliest in document
   * order, with the currency of that leaf's text. Its price is below the
   * ceiling and its text at most 30 characters long.
   */
  lemma SweepClosest(p: Page, anchor: Option<nat>)
    requires ValidPage(p)
    requires anchor.Some? ==> anchor.value < |p.tree|
    ensures var a := Selectors.Resolve(p.tree, anchor);
      var cs := SweepCands(p, a, |p.tree|);
      && (SweepResult(p, anchor).None? <==> forall j :: 0 <= j < |cs| ==> cs[j].dist >= Start.dist)
      && (SweepResult(p, anchor).Some? ==>
            exists i: nat :: IsClosest(cs, i) && Sound(p.tree, a, cs[i]) &&
              SweepResult(p, anchor) == Some(Offer(cs[i].price, DetectCurrency(cs[i].raw))))
  {
    var a := Selectors.Resolve(p.tree, anchor);
    var cs := SweepCands(p, a, |p.tree|);
    OutcomeClosest(cs);
    SweepCandsSound(p, a, |p.tree|);
  }

  /** The price the sweep returns lies strictly between 0 and 1 000 000. */
  lemma SweepBounded(p: Page, anchor: Option<nat>)
    requires ValidPage(p)
    requires anchor.Some? ==> anchor.value < |p.tree|
    ensures SweepResult(p, anchor).Some? ==> 0.0 < SweepResult(p, anchor).value.price < PriceCeiling
  {
    SweepClosest(p, anchor);
  }

  /** Without an anchor and without an `h1`, the first matching leaf wins. */
  lemma SweepNoAnchor(p: Page)
    requires ValidPage(p)
    requires FirstH1(p.tree).None?
    requires SweepCands(p, None, |p.tree|) != []
    ensures SweepResult(p, None) == Some(OfferOf(SweepCands(p, None, |p.tree|)[0]))
  {
    var cs := SweepCands(p, None, |p.tree|);
    SweepCandsSound(p, None, |p.tree|);
    forall j | 0 <= j < |cs| ensures cs[j].dist == 0 {
      assert cs[j] in cs;
    }
    AllZeroFirst(cs);
  }
}
