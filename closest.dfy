/**
 * The selection rule shared by `_try_selectors` and `_try_proximity_sweep`:
 * among the eligible matches, in the order they are visited, keep the one
 * closest to the anchor; only a strictly smaller distance replaces it.
 */
module Closest {
  import opened Wrappers
  import PriceText

  /** The dict the two positional strategies return. */
  datatype Offer = Offer(price: real, currency: string)

  /** An eligible match: the element, its price, its distance to the anchor and the text the price was read from. */
  datatype Cand = Cand(node: nat, price: real, dist: nat, raw: string)

  /** `best_dist`, `best_price`, `best_currency`. */
  datatype Best = Best(dist: int, price: Option<real>, currency: string)

  /** The values before the loop: a distance no match can tie. */
  const Start: Best := Best(10001, None, "USD")

  /** One visited match: kept only when strictly closer than the best so far. */
  function Step(b: Best, c: Cand): Best {
    if c.dist < b.dist then Best(c.dist, Some(c.price), PriceText.DetectCurrency(c.raw)) else b
  }

  /** The state after visiting `cs` in order. */
  function Fold(cs: seq<Cand>): Best
    decreases |cs|
  {
    if cs == [] then Start else Step(Fold(cs[..|cs| - 1]), cs[|cs| - 1])
  }

  /** The return statement: the best price and its currency, or `None`. */
  function Outcome(b: Best): Option<Offer> {
    if b.price.Some? then Some(Offer(b.price.value, b.currency)) else None
  }

  /** What choosing match `c` returns. */
  function OfferOf(c: Cand): Offer {
    Offer(c.price, PriceText.DetectCurrency(c.raw))
  }

  /**
   * Match `i` is the one the rule should pick: within the cap, no match is
   * closer, and every earlier match is strictly farther.
   */
  predicate IsClosest(cs: seq<Cand>, i: nat) {
    && i < |cs| && cs[i].dist < Start.dist
    && (forall j :: 0 <= j < |cs| ==> cs[i].dist <= cs[j].dist)
    && (forall j :: 0 <= j < i ==> cs[i].dist < cs[j].dist)
  }

  /** The state after picking match `c`. */
  function Chosen(c: Cand): Best {
    Best(c.dist, Some(c.price), PriceText.DetectCurrency(c.raw))
  }

  /** `b` is what picking the closest, earliest match gives. */
  ghost predicate PicksClosest(cs: seq<Cand>, b: Best) {
    exists i: nat :: IsClosest(cs, i) && b == Chosen(cs[i])
  }

  lemma FoldSnoc(cs: seq<Cand>, c: Cand)
    ensures Fold(cs + [c]) == Step(Fold(cs), c)
  {
    assert (cs + [c])[..|cs|] == cs;
  }

  /**
   * The fold keeps the closest match seen so far: nothing is picked exactly
   * when no match is within the cap, and otherwise the picked price and
   * currency are those of the closest, earliest match.
   */
  lemma {:induction false} FoldClosest(cs: seq<Cand>)
    ensures Fold(cs).price.None? <==> forall j :: 0 <= j < |cs| ==> cs[j].dist >= Start.dist
    ensures Fold(cs).price.None? ==> Fold(cs) == Start
    ensures Fold(cs).price.Some? ==> PicksClosest(cs, Fold(cs))
    decreases |cs|
  {
    if cs != [] {
      var init := cs[..|cs| - 1];
      var c := cs[|cs| - 1];
      FoldClosest(init);
      var b := Fold(init);
      assert Fold(cs) == Step(b, c);
      if b.price.None? {
        assert forall j :: 0 <= j < |init| ==> cs[j].dist >= Start.dist by {
          assert forall j :: 0 <= j < |init| ==> init[j] == cs[j];
        }
        if c.dist < Start.dist {
          ClosestLast(cs);
          assert Fold(cs) == Chosen(cs[|cs| - 1]);
        }
      } else {
        var i: nat :| IsClosest(init, i) && b == Chosen(init[i]);
        if c.dist < b.dist {
          forall j | 0 <= j < |init| ensures c.dist < cs[j].dist {
            assert init[j] == cs[j] && init[i].dist <= init[j].dist;
          }
          ClosestLast(cs);
          assert Fold(cs) == Chosen(cs[|cs| - 1]);
        } else {
          ClosestKeep(cs, i);
          assert Fold(cs) == Chosen(cs[i]);
        }
      }
    }
  }

  /** The last match is the closest when it is within the cap and closer than all before it. */
  lemma ClosestLast(cs: seq<Cand>)
    requires cs != [] && cs[|cs| - 1].dist < Start.dist
    requires forall j :: 0 <= j < |cs| - 1 ==> cs[|cs| - 1].dist < cs[j].dist
    ensures IsClosest(cs, |cs| - 1)
  {
  }

  /** The closest of a prefix stays the closest when the next match is no closer. */
  lemma ClosestKeep(cs: seq<Cand>, i: nat)
    requires cs != [] && IsClosest(cs[..|cs| - 1], i) && cs[|cs| - 1].dist >= cs[i].dist
    ensures IsClosest(cs, i)
  {
    assert forall j :: 0 <= j < |cs| - 1 ==> cs[..|cs| - 1][j] == cs[j];
  }

  /** The closest match, as an offer; `None` when no match is within the cap. */
  lemma OutcomeClosest(cs: seq<Cand>)
    ensures Outcome(Fold(cs)).None? <==> forall j :: 0 <= j < |cs| ==> cs[j].dist >= Start.dist
    ensures Outcome(Fold(cs)).Some? ==>
      exists i: nat :: IsClosest(cs, i) && Outcome(Fold(cs)) == Some(OfferOf(cs[i]))
  {
    FoldClosest(cs);
    if Fold(cs).price.Some? {
      var i: nat :| IsClosest(cs, i) && Fold(cs) == Chosen(cs[i]);
      assert Outcome(Fold(cs)) == Some(OfferOf(cs[i]));
    }
  }

  /** Without an anchor every distance is 0, so the first match wins. */
  lemma AllZeroFirst(cs: seq<Cand>)
    requires cs != []
    requires forall j :: 0 <= j < |cs| ==> cs[j].dist == 0
    ensures Outcome(Fold(cs)) == Some(OfferOf(cs[0]))
  {
    FoldClosest(cs);
    var i: nat :| IsClosest(cs, i) && Fold(cs) == Chosen(cs[i]);
  }

  /**
   * Element `e`'s match is the one the rule should pick, among the matches
   * `ms` of all elements (`None` where an element has none): within the
   * cap, no match is closer, and every earlier element's match is strictly
   * farther.
   */
  predicate IsClosestElement(ms: seq<Option<Cand>>, e: nat) {
    && e < |ms| && ms[e].Some? && ms[e].value.dist < Start.dist
    && (forall e' :: 0 <= e' < |ms| && ms[e'].Some? ==> ms[e].value.dist <= ms[e'].value.dist)
    && (forall e' :: 0 <= e' < e && ms[e'].Some? ==> ms[e].value.dist < ms[e'].value.dist)
  }

  /** The matches present in `ms`, in order. */
  function Present(ms: seq<Option<Cand>>): seq<Cand>
    decreases |ms|
  {
    if ms == [] then []
    else Present(ms[..|ms| - 1]) + (if ms[|ms| - 1].Some? then [ms[|ms| - 1].value] else [])
  }

  lemma PresentSnoc(ms: seq<Option<Cand>>, o: Option<Cand>)
    ensures Present(ms + [o]) == Present(ms) + (if o.Some? then [o.value] else [])
  {
    assert (ms + [o])[..|ms|] == ms;
  }

  /** Extending a prefix of `ms` by one entry adds that entry's match, if any. */
  lemma PresentPrefixSnoc(ms: seq<Option<Cand>>, i: nat)
    requires i < |ms|
    ensures Present(ms[..i + 1]) == Present(ms[..i]) + (if ms[i].Some? then [ms[i].value] else [])
  {
    assert ms[..i + 1][..i] == ms[..i];
  }

  /** An entry of either part is an entry of the concatenation. */
  lemma InAppend(o: Option<Cand>, m1: seq<Option<Cand>>, m2: seq<Option<Cand>>)
    requires o in m1 || o in m2
    ensures o in m1 + m2
  {
    if o in m1 {
      var i :| 0 <= i < |m1| && m1[i] == o;
      assert (m1 + m2)[i] == o;
    } else {
      var i :| 0 <= i < |m2| && m2[i] == o;
      assert (m1 + m2)[|m1| + i] == o;
    }
  }

  lemma {:induction false} PresentAppend(m1: seq<Option<Cand>>, m2: seq<Option<Cand>>)
    ensures Present(m1 + m2) == Present(m1) + Present(m2)
    decreases |m2|
  {
    if m2 != [] {
      var init := m2[..|m2| - 1];
      var o := m2[|m2| - 1];
      var t := if o.Some? then [o.value] else [];
      assert m2 == init + [o];
      assert m1 + m2 == (m1 + init) + [o];
      PresentAppend(m1, init);
      PresentSnoc(m1 + init, o);
      PresentSnoc(init, o);
      calc {
        Present(m1 + m2);
        Present((m1 + init) + [o]);
        Present(m1 + init) + t;
        (Present(m1) + Present(init)) + t;
        Present(m1) + (Present(init) + t);
        Present(m1) + Present(m2);
      }
    } else {
      assert m1 + m2 == m1;
      assert Present(m2) == [];
    }
  }


  /** A match is listed exactly when some entry holds it. */
  lemma {:induction false} PresentExact(ms: seq<Option<Cand>>)
    ensures forall c :: c in Present(ms) <==> exists e :: 0 <= e < |ms| && ms[e] == Some(c)
    decreases |ms|
  {
    if ms != [] {
      var init := ms[..|ms| - 1];
      var o := ms[|ms| - 1];
      PresentExact(init);
      forall c | exists e :: 0 <= e < |ms| && ms[e] == Some(c)
        ensures c in Present(ms)
      {
        var e :| 0 <= e < |ms| && ms[e] == Some(c);
        if e < |ms| - 1 {
          assert init[e] == Some(c);
        }
      }
      forall c | c in Present(ms)
        ensures exists e :: 0 <= e < |ms| && ms[e] == Some(c)
      {
        if c in Present(init) {
          var e :| 0 <= e < |init| && init[e] == Some(c);
          assert ms[e] == Some(c);
        }
      }
    }
  }

  /**
   * Visiting the present entries of `ms` in order ends with no price
   * exactly when no entry's match is within the cap, and otherwise with the
   * match of the closest, earliest entry.
   */
  lemma {:induction false} FoldPresent(ms: seq<Option<Cand>>)
    ensures Fold(Present(ms)).price.None? <==>
      forall e :: 0 <= e < |ms| && ms[e].Some? ==> ms[e].value.dist >= Start.dist
    ensures Fold(Present(ms)).price.None? ==> Fold(Present(ms)) == Start
    ensures Fold(Present(ms)).price.Some? ==>
      exists e: nat :: IsClosestElement(ms, e) && Fold(Present(ms)) == Chosen(ms[e].value)
    decreases |ms|
  {
    if ms != [] {
      var init := ms[..|ms| - 1];
      var o := ms[|ms| - 1];
      FoldPresent(init);
      var b := Fold(Present(init));
      assert forall e :: 0 <= e < |init| ==> init[e] == ms[e];
      if o.None? {
        assert Present(ms) == Present(init);
        if b.price.Some? {
          var e: nat :| IsClosestElement(init, e) && b == Chosen(init[e].value);
          ElementKeep(ms, e);
        }
      } else {
        FoldSnoc(Present(init), o.value);
        assert Fold(Present(ms)) == Step(b, o.value);
        if b.price.None? {
          if o.value.dist < Start.dist {
            ElementLast(ms);
            assert Fold(Present(ms)) == Chosen(ms[|ms| - 1].value);
          }
        } else {
          var e: nat :| IsClosestElement(init, e) && b == Chosen(init[e].value);
          if o.value.dist < b.dist {
            ElementLast(ms);
            assert Fold(Present(ms)) == Chosen(ms[|ms| - 1].value);
          } else {
            ElementKeep(ms, e);
            assert Fold(Present(ms)) == Chosen(ms[e].value);
          }
        }
      }
    }
  }

  /** The last entry's match is the closest when it is within the cap and closer than every earlier match. */
  lemma ElementLast(ms: seq<Option<Cand>>)
    requires ms != [] && ms[|ms| - 1].Some? && ms[|ms| - 1].value.dist < Start.dist
    requires forall e :: 0 <= e < |ms| - 1 && ms[e].Some? ==> ms[|ms| - 1].value.dist < ms[e].value.dist
    ensures IsClosestElement(ms, |ms| - 1)
  {
  }

  /** The closest entry of a prefix stays the closest when the next entry's match, if any, is no closer. */
  lemma ElementKeep(ms: seq<Option<Cand>>, e: nat)
    requires ms != [] && IsClosestElement(ms[..|ms| - 1], e)
    requires ms[|ms| - 1].Some? ==> ms[|ms| - 1].value.dist >= ms[e].value.dist
    ensures IsClosestElement(ms, e)
  {
    assert forall e' :: 0 <= e' < |ms| - 1 ==> ms[..|ms| - 1][e'] == ms[e'];
  }

  /** The returned offer is the closest, earliest entry's match, or `None` when no entry's match is within the cap. */
  lemma OutcomePresent(ms: seq<Option<Cand>>)
    ensures Outcome(Fold(Present(ms))).None? <==>
      forall e :: 0 <= e < |ms| && ms[e].Some? ==> ms[e].value.dist >= Start.dist
    ensures Outcome(Fold(Present(ms))).Some? ==>
      exists e: nat :: IsClosestElement(ms, e) && Outcome(Fold(Present(ms))) == Some(OfferOf(ms[e].value))
  {
    FoldPresent(ms);
    if Fold(Present(ms)).price.Some? {
      var e: nat :| IsClosestElement(ms, e) && Fold(Present(ms)) == Chosen(ms[e].value);
      assert Outcome(Fold(Present(ms))) == Some(OfferOf(ms[e].value));
    }
  }

  /** When entry `e` can only hold a match of element `e`, the visited matches are in strictly increasing element order. */
  lemma {:induction false} PresentOrdered(ms: seq<Option<Cand>>)
    requires forall e :: 0 <= e < |ms| && ms[e].Some? ==> ms[e].value.node == e
    ensures forall x :: 0 <= x < |Present(ms)| ==> Present(ms)[x].node < |ms|
    ensures forall x, y :: 0 <= x < y < |Present(ms)| ==> Present(ms)[x].node < Present(ms)[y].node
    decreases |ms|
  {
    if ms != [] {
      var init := ms[..|ms| - 1];
      assert forall e :: 0 <= e < |init| ==> init[e] == ms[e];
      PresentOrdered(init);
    }
  }
}
