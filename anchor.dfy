/**
 * `_find_anchor_element`: the element whose text most tightly contains the
 * product name the user gave, used as the reference point for the
 * distance-scored strategies.
 */
module Anchor {
  import opened Wrappers
  import opened Text
  import opened Dom
  import opened Soup

  /** Tags whose text is never page content. */
  const SkipTags: set<string> := {"script", "style", "meta", "link", "head", "noscript"}

  /** The element is a candidate: not skipped, with text that contains the needle. */
  predicate Hit(n: Node, needle: string) {
    n.tag !in SkipTags && n.text != [] && Occurs(needle, Lower(n.text))
  }

  /** `len(needle) / len(text_lower)`. */
  function Score(n: Node, needle: string): real
    requires n.text != []
  {
    |needle| as real / |Lower(n.text)| as real
  }

  /**
   * The loop over `find_all(True)` up to (not including) element `k`: the
   * best element so far and its score, replaced only by a strictly higher
   * score.
   */
  function Scan(t: Tree, needle: string, k: nat): (r: (Option<nat>, real))
    requires 1 <= k <= |t|
    ensures r.0.Some? ==> 1 <= r.0.value < k
    decreases k
  {
    if k == 1 then (None, 0.0)
    else
      var (best, bestScore) := Scan(t, needle, k - 1);
      var n := t[k - 1];
      if Hit(n, needle) && Score(n, needle) > bestScore then (Some(k - 1), Score(n, needle))
      else (best, bestScore)
  }

  /** What `_find_anchor_element(soup, productName)` returns. */
  function AnchorOf(t: Tree, productName: string): (r: Option<nat>)
    requires |t| >= 1
    ensures r.Some? ==> 1 <= r.value < |t|
  {
    var needle := Strip(Lower(productName));
    if needle == [] then FirstH1(t)
    else
      var (best, _) := Scan(t, needle, |t|);
      if best.Some? then best else FirstH1(t)
  }

  /** `_find_anchor_element`, as the source runs it. */
  method FindAnchorElement(t: Tree, productName: string) returns (anchor: Option<nat>)
    requires |t| >= 1
    ensures anchor == AnchorOf(t, productName)
  {
    var needle := Strip(Lower(productName));
    if needle == [] {
      return FirstH1(t);
    }
    var bestEl: Option<nat> := None;
    var bestScore := 0.0;
    for i := 1 to |t|
      invariant (bestEl, bestScore) == Scan(t, needle, i)
    {
      ScanStep(t, needle, i);
      var el := t[i];
      if el.tag in SkipTags {
        assert !Hit(el, needle);
        continue;
      }
      var text := el.text;
      if text == [] {
        assert !Hit(el, needle);
        continue;
      }
      var textLower := Lower(text);
      if !Occurs(needle, textLower) {
        assert !Hit(el, needle);
        continue;
      }
      var score := |needle| as real / |textLower| as real;
      assert Hit(el, needle) && score == Score(el, needle);
      if score > bestScore {
        bestScore := score;
        bestEl := Some(i);
      }
    }
    if bestEl.Some? {
      return bestEl;
    }
    return FirstH1(t);
  }

  lemma ScanStep(t: Tree, needle: string, i: nat)
    requires 1 <= i < |t|
    ensures Scan(t, needle, i + 1) ==
      if Hit(t[i], needle) && Score(t[i], needle) > Scan(t, needle, i).1
      then (Some(i), Score(t[i], needle)) else Scan(t, needle, i)
  {
  }

  /** A hit scores above zero and at most one. */
  lemma ScoreRange(n: Node, needle: string)
    requires needle != [] && Hit(n, needle)
    ensures 0.0 < Score(n, needle) <= 1.0
  {
    OccursLength(needle, Lower(n.text));
    RatioRange(|needle|, |Lower(n.text)|);
  }

  lemma RatioRange(a: nat, b: nat)
    requires 0 < a <= b
    ensures 0.0 < a as real / b as real <= 1.0
  {
  }

  /**
   * The state of the scan: no hit yet, or the best hit so far, whose score
   * no earlier hit reaches and no later hit beats.
   */
  lemma {:induction false} ScanBest(t: Tree, needle: string, k: nat)
    requires 1 <= k <= |t| && needle != []
    ensures var (best, s) := Scan(t, needle, k);
      && (best.None? <==> forall j :: 1 <= j < k ==> !Hit(t[j], needle))
      && (best.None? ==> s == 0.0)
      && (best.Some? ==> 1 <= best.value < k && Hit(t[best.value], needle) && s == Score(t[best.value], needle))
      && (best.Some? ==> forall j :: 1 <= j < k && Hit(t[j], needle) ==> Score(t[j], needle) <= s)
      && (best.Some? ==> forall j :: 1 <= j < best.value && Hit(t[j], needle) ==> Score(t[j], needle) < s)
    decreases k
  {
    if k > 1 {
      ScanBest(t, needle, k - 1);
      if Hit(t[k - 1], needle) {
        ScoreRange(t[k - 1], needle);
      }
    }
  }

  /**
   * With a non-blank name and some element containing it, the anchor is a
   * non-skipped element whose lowercased text contains the needle; its
   * score is at most 1, no element scores higher, and every element before
   * it scores lower.
   */
  lemma AnchorIsTightest(t: Tree, productName: string)
    requires |t| >= 1
    requires Strip(Lower(productName)) != []
    requires exists j :: 1 <= j < |t| && Hit(t[j], Strip(Lower(productName)))
    ensures var needle := Strip(Lower(productName));
      var a := AnchorOf(t, productName);
      && a.Some? && 1 <= a.value < |t|
      && t[a.value].tag !in SkipTags && Occurs(needle, Lower(t[a.value].text))
      && t[a.value].text != [] && Score(t[a.value], needle) <= 1.0
      && (forall j :: 1 <= j < |t| && Hit(t[j], needle) ==> Score(t[j], needle) <= Score(t[a.value], needle))
      && (forall j :: 1 <= j < a.value && Hit(t[j], needle) ==> Score(t[j], needle) < Score(t[a.value], needle))
  {
    var needle := Strip(Lower(productName));
    ScanBest(t, needle, |t|);
    var best := Scan(t, needle, |t|).0;
    ScoreRange(t[best.value], needle);
  }

  /** A blank name, or a name no element contains, falls back to the first `h1`. */
  lemma AnchorFallsBackToH1(t: Tree, productName: string)
    requires |t| >= 1
    requires Strip(Lower(productName)) == [] ||
      forall j :: 1 <= j < |t| ==> !Hit(t[j], Strip(Lower(productName)))
    ensures AnchorOf(t, productName) == FirstH1(t)
  {
    var needle := Strip(Lower(productName));
    if needle != [] {
      ScanBest(t, needle, |t|);
    }
  }
}
