/**
 * `_try_selectors`: the prices the selector pool finds, scored by their
 * distance to the anchor.
 */
module Selectors {
  import opened Wrappers
  import opened Dom
  import opened Soup
  import opened PriceText
  import opened Closest

  /** `anchor`, or the first `h1` when the caller passed none. */
  function Resolve(t: Tree, anchor: Option<nat>): (r: Option<nat>)
    requires |t| >= 1
    ensures anchor.Some? ==> r == anchor
    ensures r.Some? ==> r.value < |t|
    requires anchor.Some? ==> anchor.value < |t|
  {
    if anchor.Some? then anchor else FirstH1(t)
  }

  /** `_dom_distance(el, anchor) if anchor else 0`. */
  function DistanceTo(t: Tree, e: nat, anchor: Option<nat>): nat
    requires WellFormed(t) && e < |t|
    requires anchor.Some? ==> anchor.value < |t|
  {
    if anchor.Some? then Distance(t, e, anchor.value) else 0
  }

  /** The text a selector reads from element `e`: its `content` attribute or its spaced text. */
  function Raw(t: Tree, mode: Mode, e: nat): string
    requires e < |t|
  {
    match mode
    case TextMode => t[e].spacedText
    case Content => if "content" in t[e].attrs then t[e].attrs["content"] else ""
  }

  /** Element `e`, selected by selector `k`, as a match: only a positive price counts. */
  function SelCand(p: Page, a: Option<nat>, k: nat, e: nat): (r: Option<Cand>)
    requires ValidPage(p) && k < |SelectorModes| && 1 <= e < |p.tree|
    requires a.Some? ==> a.value < |p.tree|
    ensures r.Some? ==> r.value.node == e && r.value.raw == Raw(p.tree, SelectorModes[k], e)
    ensures r.Some? <==>
      ExtractPrice(Raw(p.tree, SelectorModes[k], e)).Some? && ExtractPrice(Raw(p.tree, SelectorModes[k], e)).value > 0.0
    ensures r.Some? ==> Sound(p.tree, a, r.value)
  {
    var raw := Raw(p.tree, SelectorModes[k], e);
    match ExtractPrice(raw)
    case None => None
    case Some(v) => if v <= 0.0 then None else Some(Cand(e, v, DistanceTo(p.tree, e, a), raw))
  }

  /** The match of every element selector `k` selects, in document order (`None` where it gives no positive price). */
  function Row(p: Page, a: Option<nat>, k: nat): (r: seq<Option<Cand>>)
    requires ValidPage(p) && k < |SelectorModes|
    requires a.Some? ==> a.value < |p.tree|
    ensures |r| == |p.selected[k]|
    ensures forall j :: 0 <= j < |r| ==> r[j] == SelCand(p, a, k, p.selected[k][j])
  {
    seq(|p.selected[k]|, j requires 0 <= j < |p.selected[k]| => SelCand(p, a, k, p.selected[k][j]))
  }

  /** The matches among the first `j` elements selector `k` selects, in document order. */
  function ElCands(p: Page, a: Option<nat>, k: nat, j: nat): (r: seq<Cand>)
    requires ValidPage(p) && k < |SelectorModes| && j <= |p.selected[k]|
    requires a.Some? ==> a.value < |p.tree|
    ensures forall c :: c in r ==> Sound(p.tree, a, c)
  {
    PresentExact(Row(p, a, k)[..j]);
    Present(Row(p, a, k)[..j])
  }

  /** The matches of the first `k` selectors, selector by selector. */
  function SelCands(p: Page, a: Option<nat>, k: nat): (r: seq<Cand>)
    requires ValidPage(p) && k <= |SelectorModes|
    requires a.Some? ==> a.value < |p.tree|
    ensures forall c :: c in r ==> Sound(p.tree, a, c)
    decreases k
  {
    if k == 0 then [] else SelCands(p, a, k - 1) + ElCands(p, a, k - 1, |p.selected[k - 1]|)
  }

  /** What `_try_selectors(soup, anchor)` returns. */
  function SelectorsResult(p: Page, anchor: Option<nat>): Option<Offer>
    requires ValidPage(p)
    requires anchor.Some? ==> anchor.value < |p.tree|
  {
    Outcome(Fold(SelCands(p, Resolve(p.tree, anchor), |SelectorModes|)))
  }

  /** `_try_selectors`, as the source runs it. */
  method TrySelectors(p: Page, anchor: Option<nat>) returns (result: Option<Offer>)
    requires ValidPage(p)
    requires anchor.Some? ==> anchor.value < |p.tree|
    ensures result == SelectorsResult(p, anchor)
  {
    var a := if anchor.None? then FirstH1(p.tree) else anchor;
    var bestDist := 10001;
    var bestPrice: Option<real> := None;
    var bestCurrency := "USD";
    for k := 0 to |SelectorModes|
      invariant Best(bestDist, bestPrice, bestCurrency) == Fold(SelCands(p, a, k))
    {
      bestDist, bestPrice, bestCurrency := ScanSelector(p, a, k, bestDist, bestPrice, bestCurrency);
    }
    if bestPrice.Some? {
      return Some(Offer(bestPrice.value, bestCurrency));
    }
    return None;
  }

  /** The inner loop over `soup.select(selector)` for selector `k`. */
  method ScanSelector(p: Page, a: Option<nat>, k: nat, dist0: int, price0: Option<real>, currency0: string)
    returns (bestDist: int, bestPrice: Option<real>, bestCurrency: string)
    requires ValidPage(p) && k < |SelectorModes|
    requires a.Some? ==> a.value < |p.tree|
    requires Best(dist0, price0, currency0) == Fold(SelCands(p, a, k))
    ensures Best(bestDist, bestPrice, bestCurrency) == Fold(SelCands(p, a, k + 1))
  {
    bestDist, bestPrice, bestCurrency := dist0, price0, currency0;
    var els := p.selected[k];
    assert Row(p, a, k)[..0] == [];
    assert SelCands(p, a, k) + ElCands(p, a, k, 0) == SelCands(p, a, k);
    for j := 0 to |els|
      invariant Best(bestDist, bestPrice, bestCurrency) == Fold(SelCands(p, a, k) + ElCands(p, a, k, j))
    {
      bestDist, bestPrice, bestCurrency := VisitSelected(p, a, k, j, bestDist, bestPrice, bestCurrency);
    }
  }

  /** One pass of the inner loop: element `j` of selector `k`'s selection. */
  method VisitSelected(p: Page, a: Option<nat>, k: nat, j: nat, dist0: int, price0: Option<real>, currency0: string)
    returns (bestDist: int, bestPrice: Option<real>, bestCurrency: string)
    requires ValidPage(p) && k < |SelectorModes| && j < |p.selected[k]|
    requires a.Some? ==> a.value < |p.tree|
    requires Best(dist0, price0, currency0) == Fold(SelCands(p, a, k) + ElCands(p, a, k, j))
    ensures Best(bestDist, bestPrice, bestCurrency) == Fold(SelCands(p, a, k) + ElCands(p, a, k, j + 1))
  {
    bestDist, bestPrice, bestCurrency := dist0, price0, currency0;
    var el := p.selected[k][j];
    var raw := if SelectorModes[k] == TextMode then p.tree[el].spacedText
      else if "content" in p.tree[el].attrs then p.tree[el].attrs["content"] else "";
    assert raw == Raw(p.tree, SelectorModes[k], el);
    var price := ExtractPriceFromText(raw);
    ElStep(p, a, k, j);
    if price.None? || price.value <= 0.0 {
      return;
    }
    var dist := 0;
    if a.Some? {
      dist := DomDistance(p.tree, el, a.value);
    }
    assert SelCand(p, a, k, el) == Some(Cand(el, price.value, dist, raw));
    if dist < bestDist {
      bestDist := dist;
      bestPrice := price;
      bestCurrency := DetectCurrency(raw);
    }
  }

  /** One element of the inner loop: the fold over the matches takes one step, or none. */
  lemma ElStep(p: Page, a: Option<nat>, k: nat, j: nat)
    requires ValidPage(p) && k < |SelectorModes| && j < |p.selected[k]|
    requires a.Some? ==> a.value < |p.tree|
    ensures var c := SelCand(p, a, k, p.selected[k][j]);
      var pre := SelCands(p, a, k) + ElCands(p, a, k, j);
      Fold(SelCands(p, a, k) + ElCands(p, a, k, j + 1)) ==
        if c.Some? then Step(Fold(pre), c.value) else Fold(pre)
  {
    var c := SelCand(p, a, k, p.selected[k][j]);
    var pre := SelCands(p, a, k) + ElCands(p, a, k, j);
    PresentPrefixSnoc(Row(p, a, k), j);
    if c.Some? {
      assert SelCands(p, a, k) + ElCands(p, a, k, j + 1) == pre + [c.value];
      FoldSnoc(pre, c.value);
    } else {
      assert ElCands(p, a, k, j) + [] == ElCands(p, a, k, j);
      assert SelCands(p, a, k) + ElCands(p, a, k, j + 1) == pre;
    }
  }

  /** The matches of selector `k` are exactly its selected elements that give a positive price. */
  lemma ElCandsExact(p: Page, a: Option<nat>, k: nat, jj: nat)
    requires ValidPage(p) && k < |SelectorModes| && jj <= |p.selected[k]|
    requires a.Some? ==> a.value < |p.tree|
    ensures forall c :: c in ElCands(p, a, k, jj) <==>
      exists j :: 0 <= j < jj && SelCand(p, a, k, p.selected[k][j]) == Some(c)
  {
    var ms := Row(p, a, k)[..jj];
    PresentExact(ms);
    forall c | exists j :: 0 <= j < jj && SelCand(p, a, k, p.selected[k][j]) == Some(c)
      ensures c in ElCands(p, a, k, jj)
    {
      var j :| 0 <= j < jj && SelCand(p, a, k, p.selected[k][j]) == Some(c);
      assert ms[j] == Some(c);
    }
  }

  /**
   * The match of every selection entry of the first `kk` selectors, in
   * selector-then-document order: the rows of the selectors one after
   * another.
   */
  function Entries(p: Page, a: Option<nat>, kk: nat): (r: seq<Option<Cand>>)
    requires ValidPage(p) && kk <= |SelectorModes|
    requires a.Some? ==> a.value < |p.tree|
    ensures forall e :: 0 <= e < |r| && r[e].Some? ==> Sound(p.tree, a, r[e].value)
    decreases kk
  {
    if kk == 0 then []
    else Entries(p, a, kk - 1) + Row(p, a, kk - 1)
  }

  /** Every element each of the first `kk` selectors selects has its entry. */
  lemma EntriesComplete(p: Page, a: Option<nat>, kk: nat)
    requires ValidPage(p) && kk <= |SelectorModes|
    requires a.Some? ==> a.value < |p.tree|
    ensures forall k, j :: 0 <= k < kk && 0 <= j < |p.selected[k]| ==>
      SelCand(p, a, k, p.selected[k][j]) in Entries(p, a, kk)
  {
    forall k, j | 0 <= k < kk && 0 <= j < |p.selected[k]|
      ensures SelCand(p, a, k, p.selected[k][j]) in Entries(p, a, kk)
    {
      EntryListed(p, a, kk, k, j);
      assert Row(p, a, k)[j] == SelCand(p, a, k, p.selected[k][j]);
    }
  }

  lemma {:induction false} EntryListed(p: Page, a: Option<nat>, kk: nat, k: nat, j: nat)
    requires ValidPage(p) && k < kk <= |SelectorModes| && j < |p.selected[k]|
    requires a.Some? ==> a.value < |p.tree|
    ensures Row(p, a, k)[j] in Entries(p, a, kk)
    decreases kk
  {
    var pre, row := Entries(p, a, kk - 1), Row(p, a, kk - 1);
    assert Entries(p, a, kk) == pre + row;
    if k < kk - 1 {
      EntryListed(p, a, kk - 1, k, j);
      InAppend(Row(p, a, k)[j], pre, row);
    } else {
      InAppend(row[j], pre, row);
    }
  }



  /** The matches of the first `kk` selectors are the present entries, in the same order. */
  lemma {:induction false} SelCandsPresent(p: Page, a: Option<nat>, kk: nat)
    requires ValidPage(p) && kk <= |SelectorModes|
    requires a.Some? ==> a.value < |p.tree|
    ensures SelCands(p, a, kk) == Present(Entries(p, a, kk))
    decreases kk
  {
    if kk > 0 {
      SelCandsPresent(p, a, kk - 1);
      var row := Row(p, a, kk - 1);
      assert row[..|row|] == row;
      PresentAppend(Entries(p, a, kk - 1), row);
    }
  }

  /** Every element a selector selects whose text gives a positive price is among the matches. */
  lemma SelCandsComplete(p: Page, a: Option<nat>, k: nat, j: nat)
    requires ValidPage(p) && k < |SelectorModes| && j < |p.selected[k]|
    requires a.Some? ==> a.value < |p.tree|
    requires ExtractPrice(Raw(p.tree, SelectorModes[k], p.selected[k][j])).Some?
    requires ExtractPrice(Raw(p.tree, SelectorModes[k], p.selected[k][j])).value > 0.0
    ensures SelCand(p, a, k, p.selected[k][j]).Some?
    ensures SelCand(p, a, k, p.selected[k][j]).value in SelCands(p, a, |SelectorModes|)
  {
    var ms := Entries(p, a, |SelectorModes|);
    EntriesComplete(p, a, |SelectorModes|);
    SelCandsPresent(p, a, |SelectorModes|);
    PresentExact(ms);
    var e :| 0 <= e < |ms| && ms[e] == SelCand(p, a, k, p.selected[k][j]);
  }

  /**
   * Over every selection entry: `None` exactly when no entry's match lies
   * within the distance cap; otherwise the offer of the entry whose match
   * no match is closer than and every earlier entry's match is strictly
   * farther than.
   */
  lemma SelectorsPickClosest(p: Page, anchor: Option<nat>)
    requires ValidPage(p)
    requires anchor.Some? ==> anchor.value < |p.tree|
    ensures var ms := Entries(p, Resolve(p.tree, anchor), |SelectorModes|);
      && (SelectorsResult(p, anchor).None? <==>
            forall e :: 0 <= e < |ms| && ms[e].Some? ==> ms[e].value.dist >= Start.dist)
      && (SelectorsResult(p, anchor).Some? ==>
            exists e: nat :: IsClosestElement(ms, e) && SelectorsResult(p, anchor) == Some(OfferOf(ms[e].value)))
  {
    var a := Resolve(p.tree, anchor);
    SelCandsPresent(p, a, |SelectorModes|);
    OutcomePresent(Entries(p, a, |SelectorModes|));
  }

  /** A match as the loop sees it: a selected element, the positive price its text gives, and its distance to the anchor. */
  predicate Sound(t: Tree, a: Option<nat>, c: Cand)
    requires WellFormed(t)
    requires a.Some? ==> a.value < |t|
  {
    && 1 <= c.node < |t|
    && c.price > 0.0
    && ExtractPrice(c.raw) == Some(c.price)
    && c.dist == DistanceTo(t, c.node, a)
  }

  /**
   * The selectors return `None` exactly when no positive price lies within
   * the distance cap; otherwise the price of the closest match, earliest in
   * selector-then-document order, with the currency of that match's text.
   */
  lemma SelectorsClosest(p: Page, anchor: Option<nat>)
    requires ValidPage(p)
    requires anchor.Some? ==> anchor.value < |p.tree|
    ensures var a := Resolve(p.tree, anchor);
      var cs := SelCands(p, a, |SelectorModes|);
      && (SelectorsResult(p, anchor).None? <==> forall j :: 0 <= j < |cs| ==> cs[j].dist >= Start.dist)
      && (SelectorsResult(p, anchor).Some? ==>
            exists i: nat :: IsClosest(cs, i) && Sound(p.tree, a, cs[i]) &&
              SelectorsResult(p, anchor) == Some(Offer(cs[i].price, DetectCurrency(cs[i].raw))))
  {
    var a := Resolve(p.tree, anchor);
    var cs := SelCands(p, a, |SelectorModes|);
    OutcomeClosest(cs);
  }

  /** The price the selectors return is positive. */
  lemma SelectorsPositive(p: Page, anchor: Option<nat>)
    requires ValidPage(p)
    requires anchor.Some? ==> anchor.value < |p.tree|
    ensures SelectorsResult(p, anchor).Some? ==> SelectorsResult(p, anchor).value.price > 0.0
  {
    SelectorsClosest(p, anchor);
  }

  /** Without an anchor and without an `h1`, every distance is 0 and the first match wins. */
  lemma SelectorsNoAnchor(p: Page)
    requires ValidPage(p)
    requires FirstH1(p.tree).None?
    requires SelCands(p, None, |SelectorModes|) != []
    ensures SelectorsResult(p, None) == Some(OfferOf(SelCands(p, None, |SelectorModes|)[0]))
  {
    var cs := SelCands(p, None, |SelectorModes|);
    forall j | 0 <= j < |cs| ensures cs[j].dist == 0 {
      assert cs[j] in cs;
    }
    AllZeroFirst(cs);
  }
}
