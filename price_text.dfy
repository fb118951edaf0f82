/**
 * The price-text parser and the currency detector of the scraper
 * (`_extract_price_from_text`, `_detect_currency`).
 *
 * The six regular expressions of `_PRICE_PATTERNS` are hand-coded. All of
 * them capture the same number shape, `\d{1,6}(?:,\d{3})*(?:\.\d{2})?`
 * (the euro pattern accepts `.` or `,` in both separator positions; the
 * bare pattern requires the decimals). `GroupEnds` lists the places where
 * that group can end, in the order Python's backtracking engine tries them;
 * a match takes the first one after which the rest of the pattern matches.
 */
module PriceText {
  import opened Wrappers
  import opened Text
  import PyFloat

  /**
   * One pattern: a literal before the group (followed by `\s*` when it is
   * not empty), whether separators may be `.` or `,` both (the euro
   * pattern), whether `.dd` is required, and whether `\s*USD` must follow.
   */
  datatype Pattern = Pattern(lead: string, euro: bool, decimalRequired: bool, usdSuffix: bool)

  /** `_PRICE_PATTERNS`, in order. */
  const PricePatterns: seq<Pattern> := [
    Pattern("$", false, false, false),          // \$\s*(N)
    Pattern("", false, false, true),            // (N)\s*USD
    Pattern("USD", false, false, false),        // USD\s*(N)
    Pattern("£", false, false, false),     // £\s*(N)
    Pattern("€", true, false, false),      // €\s*(N) with [.,] separators
    Pattern("", false, true, false)             // bare N with required .dd
  ]

  /** Greedy `\s*`: the first position at or after `p` that is not whitespace. */
  function SkipSpace(s: string, p: nat): (q: nat)
    requires p <= |s|
    ensures p <= q <= |s|
    ensures q < |s| ==> !IsSpace(s[q])
    decreases |s| - p
  {
    if p < |s| && IsSpace(s[p]) then SkipSpace(s, p + 1) else p
  }

  /** Number of consecutive ASCII digits starting at `p`. */
  function DigitRun(s: string, p: nat): (r: nat)
    requires p <= |s|
    ensures p + r <= |s|
    ensures forall i :: p <= i < p + r ==> IsDigit(s[i])
    ensures p + r < |s| ==> !IsDigit(s[p + r])
    decreases |s| - p
  {
    if p < |s| && IsDigit(s[p]) then 1 + DigitRun(s, p + 1) else 0
  }

  predicate IsGroupSep(c: char, euro: bool) {
    c == ',' || (euro && c == '.')
  }

  predicate IsDecimalSep(c: char, euro: bool) {
    c == '.' || (euro && c == ',')
  }

  /** A thousands group `,ddd` starts at `p`. */
  predicate GroupAt(s: string, p: nat, euro: bool) {
    p + 4 <= |s| && IsGroupSep(s[p], euro) && IsDigit(s[p + 1]) && IsDigit(s[p + 2]) && IsDigit(s[p + 3])
  }

  /** A decimal part `.dd` starts at `p`. */
  predicate DecimalAt(s: string, p: nat, euro: bool) {
    p + 3 <= |s| && IsDecimalSep(s[p], euro) && IsDigit(s[p + 1]) && IsDigit(s[p + 2])
  }

  /**
   * Ends of `(?:,\d{3})*(?:\.\d{2})?` started at `p`, in backtracking order:
   * more groups first, and for each number of groups the decimals before
   * their absence.
   */
  function TailEnds(s: string, p: nat, pat: Pattern): (ends: seq<nat>)
    requires p <= |s|
    ensures forall i :: 0 <= i < |ends| ==> p <= ends[i] <= |s|
    decreases |s| - p
  {
    (if GroupAt(s, p, pat.euro) then TailEnds(s, p + 4, pat) else [])
    + (if DecimalAt(s, p, pat.euro) then [p + 3] else [])
    + (if pat.decimalRequired then [] else [p])
  }

  /** Ends `j + k`, `j + k - 1`, ..., `j + 1`: fewer leading digits, nothing after them. */
  function ShortEnds(j: nat, k: nat, pat: Pattern): (ends: seq<nat>)
    ensures forall i :: 0 <= i < |ends| ==> j < ends[i] <= j + k
  {
    if pat.decimalRequired || k == 0 then [] else [j + k] + ShortEnds(j, k - 1, pat)
  }

  /**
   * Ends of the whole group started at `j`, in backtracking order. With the
   * full run of at most six digits, groups and decimals may follow; with
   * fewer digits (or a run longer than six) a digit follows, so neither can.
   */
  function GroupEnds(s: string, j: nat, pat: Pattern): (ends: seq<nat>)
    requires j <= |s|
    ensures forall i :: 0 <= i < |ends| ==> j < ends[i] <= |s|
  {
    var r := DigitRun(s, j);
    if r == 0 then []
    else if r > 6 then ShortEnds(j, 6, pat)
    else TailEnds(s, j + r, pat) + ShortEnds(j, r - 1, pat)
  }

  /** What the pattern requires after the group. */
  predicate SuffixOk(s: string, e: nat, pat: Pattern)
    requires e <= |s|
  {
    !pat.usdSuffix || StartsWith(s[SkipSpace(s, e)..], "USD")
  }

  /** The first end (in backtracking order) after which the pattern completes. */
  function FirstOk(s: string, ends: seq<nat>, pat: Pattern): (r: Option<nat>)
    requires forall i :: 0 <= i < |ends| ==> ends[i] <= |s|
    ensures r.Some? ==> r.value in ends && SuffixOk(s, r.value, pat)
    ensures r.None? <==> forall i :: 0 <= i < |ends| ==> !SuffixOk(s, ends[i], pat)
  {
    if ends == [] then None
    else if SuffixOk(s, ends[0], pat) then Some(ends[0])
    else FirstOk(s, ends[1..], pat)
  }

  /** The span of group 1 when the pattern matches at position `i`. */
  function MatchAt(s: string, i: nat, pat: Pattern): (r: Option<(nat, nat)>)
    requires i <= |s|
    ensures r.Some? ==> i <= r.value.0 < r.value.1 <= |s|
    ensures r.Some? ==> r.value.1 in GroupEnds(s, r.value.0, pat)
  {
    if !StartsWith(s[i..], pat.lead) then None
    else GroupMatch(s, LeadEnd(s, i, pat), pat)
  }

  /** Where the group starts: after the literal lead and the spaces that follow it. */
  function LeadEnd(s: string, i: nat, pat: Pattern): (j: nat)
    requires i <= |s| && StartsWith(s[i..], pat.lead)
    ensures i <= j <= |s|
  {
    if pat.lead == [] then i else SkipSpace(s, i + |pat.lead|)
  }

  /** The span of group 1 when it starts at `j` and the rest of the pattern matches after it. */
  function GroupMatch(s: string, j: nat, pat: Pattern): (r: Option<(nat, nat)>)
    requires j <= |s|
    ensures r.Some? ==> r.value.0 == j < r.value.1 <= |s|
    ensures r.Some? ==> r.value.1 in GroupEnds(s, j, pat)
  {
    match FirstOk(s, GroupEnds(s, j, pat), pat)
    case None => None
    case Some(e) => Some((j, e))
  }

  /** `re.search`: the leftmost position, from `i` on, where the pattern matches. */
  function Search(s: string, pat: Pattern, i: nat): (r: Option<(nat, nat)>)
    requires i <= |s|
    ensures r.Some? ==> r.value.0 < r.value.1 <= |s|
    ensures r.Some? ==> r.value.1 in GroupEnds(s, r.value.0, pat)
    decreases |s| - i
  {
    match MatchAt(s, i, pat)
    case Some(span) => Some(span)
    case None => if i == |s| then None else Search(s, pat, i + 1)
  }

  /**
   * Lines 98-101: drop every `,`; when more than one `.` is left, drop the
   * dots too (the `,` to `.` replacement then finds no comma).
   */
  function Normalise(group: string): string {
    var raw := ReplaceChar(group, ',', "");
    if CountChar(raw, '.') > 1 then ReplaceChar(ReplaceChar(raw, '.', ""), ',', ".") else raw
  }

  /** The loop over `_PRICE_PATTERNS` from pattern `k` on, with its early return. */
  function PriceFrom(s: string, k: nat): Option<real>
    decreases |PricePatterns| - k
  {
    if k >= |PricePatterns| then None
    else
      match Search(s, PricePatterns[k], 0)
      case None => PriceFrom(s, k + 1)
      case Some((j, e)) =>
        match PyFloat.ParseFloat(Normalise(s[j..e]))
        case Some(v) => Some(v)
        case None => PriceFrom(s, k + 1)
  }

  /** `_extract_price_from_text`. */
  function ExtractPrice(text: string): Option<real> {
    if text == [] then None else PriceFrom(Collapse(text), 0)
  }

  /** The same, as the source runs it: a loop over the patterns with an early return. */
  method ExtractPriceFromText(text: string) returns (price: Option<real>)
    ensures price == ExtractPrice(text)
  {
    if text == [] {
      return None;
    }
    var s := Collapse(text);
    for k := 0 to |PricePatterns|
      invariant PriceFrom(s, k) == PriceFrom(s, 0)
    {
      var m := Search(s, PricePatterns[k], 0);
      if m.Some? {
        var (j, e) := m.value;
        var v := PyFloat.ParseFloat(Normalise(s[j..e]));
        if v.Some? {
          return v;
        }
      }
    }
    return None;
  }

  /** The value `float()` gives for the group the pattern captures, when it matches. */
  function MatchValue(s: string, pat: Pattern): Option<real> {
    match Search(s, pat, 0)
    case None => None
    case Some((j, e)) => PyFloat.ParseFloat(Normalise(s[j..e]))
  }

  /** Every character from `a` up to `b` is a digit, `.` or `,`. */
  ghost predicate NumberChars(s: string, a: nat, b: nat)
    requires a <= b <= |s|
  {
    forall i :: a <= i < b ==> IsDigit(s[i]) || s[i] == '.' || s[i] == ','
  }

  lemma {:induction false} TailChars(s: string, p: nat, pat: Pattern)
    requires p <= |s|
    ensures forall x :: 0 <= x < |TailEnds(s, p, pat)| ==> NumberChars(s, p, TailEnds(s, p, pat)[x])
    decreases |s| - p
  {
    var deeper := if GroupAt(s, p, pat.euro) then TailEnds(s, p + 4, pat) else [];
    var dec := if DecimalAt(s, p, pat.euro) then [p + 3] else [];
    var bare := if pat.decimalRequired then [] else [p];
    var ends := TailEnds(s, p, pat);
    assert ends == deeper + dec + bare;
    if GroupAt(s, p, pat.euro) {
      TailChars(s, p + 4, pat);
      assert NumberChars(s, p, p + 4);
    }
    forall x | 0 <= x < |ends|
      ensures NumberChars(s, p, ends[x])
    {
      if x < |deeper| {
        assert ends[x] == deeper[x];
        assert NumberChars(s, p + 4, deeper[x]);
      } else if x < |deeper| + |dec| {
        assert ends[x] == p + 3;
      } else {
        assert ends[x] == p;
      }
    }
  }

  lemma TailChar(s: string, p: nat, pat: Pattern, e: nat)
    requires p <= |s| && e in TailEnds(s, p, pat)
    ensures p <= e <= |s| && NumberChars(s, p, e)
  {
    TailChars(s, p, pat);
    var x :| 0 <= x < |TailEnds(s, p, pat)| && TailEnds(s, p, pat)[x] == e;
  }

  lemma ShortIn(j: nat, k: nat, pat: Pattern, e: nat)
    requires e in ShortEnds(j, k, pat)
    ensures j < e <= j + k
  {
    var x :| 0 <= x < |ShortEnds(j, k, pat)| && ShortEnds(j, k, pat)[x] == e;
  }

  /** The captured group starts with a digit and holds only digits, `.` and `,`. */
  lemma GroupChars(s: string, j: nat, pat: Pattern, e: nat)
    requires j <= |s| && e in GroupEnds(s, j, pat)
    ensures j < e <= |s| && IsDigit(s[j]) && NumberChars(s, j, e)
  {
    var r := DigitRun(s, j);
    assert r != 0;
    if r > 6 {
      ShortIn(j, 6, pat, e);
    } else {
      var tail := TailEnds(s, j + r, pat);
      var short := ShortEnds(j, r - 1, pat);
      assert e in tail + short;
      if e in tail {
        TailChar(s, j + r, pat, e);
        assert NumberChars(s, j, j + r);
      } else {
        ShortIn(j, r - 1, pat, e);
      }
    }
  }

  /** The group as a string: a leading digit, then digits, `.` and `,`. */
  lemma GroupText(s: string, j: nat, e: nat)
    requires j < e <= |s| && IsDigit(s[j]) && NumberChars(s, j, e)
    ensures var g := s[j..e];
      g != [] && IsDigit(g[0]) && forall i :: 0 <= i < |g| ==> IsDigit(g[i]) || g[i] == '.' || g[i] == ','
  {
    var g := s[j..e];
    forall i | 0 <= i < |g| ensures IsDigit(g[i]) || g[i] == '.' || g[i] == ',' {
      assert g[i] == s[j + i];
    }
  }

  /** After line 98-101 normalisation the group is a plain decimal. */
  lemma NormalisePlain(g: string)
    requires g != [] && IsDigit(g[0])
    requires forall i :: 0 <= i < |g| ==> IsDigit(g[i]) || g[i] == '.' || g[i] == ','
    ensures PyFloat.PlainDecimal(Normalise(g))
  {
    var raw := ReplaceChar(g, ',', "");
    ReplaceCharChars(g, ',', "");
    ReplaceCharKeeps(g, ',', "", g[0]);
    assert forall i :: 0 <= i < |raw| ==> IsDigit(raw[i]) || raw[i] == '.' by {
      forall i | 0 <= i < |raw| ensures IsDigit(raw[i]) || raw[i] == '.' {
        assert raw[i] in raw;
      }
    }
    var w :| 0 <= w < |raw| && raw[w] == g[0];
    if CountChar(raw, '.') > 1 {
      var r2 := ReplaceChar(raw, '.', "");
      ReplaceCharChars(raw, '.', "");
      ReplaceCharKeeps(raw, '.', "", g[0]);
      assert forall i :: 0 <= i < |r2| ==> IsDigit(r2[i]) by {
        forall i | 0 <= i < |r2| ensures IsDigit(r2[i]) {
          assert r2[i] in r2;
          assert r2[i] in raw && r2[i] != '.';
        }
      }
      assert ',' !in r2;
      ReplaceCharAbsent(r2, ',', ".");
      assert '.' !in r2;
      CountCharZero(r2, '.');
      var v :| 0 <= v < |r2| && r2[v] == g[0];
    }
  }

  /** A pattern that matches always yields a value: the `ValueError` branch is dead. */
  lemma MatchValueDefined(s: string, pat: Pattern)
    requires Search(s, pat, 0).Some?
    ensures MatchValue(s, pat).Some? && MatchValue(s, pat).value >= 0.0
  {
    var (j, e) := Search(s, pat, 0).value;
    GroupChars(s, j, pat, e);
    GroupText(s, j, e);
    NormalisePlain(s[j..e]);
    PyFloat.PlainDecimalParses(Normalise(s[j..e]));
  }

  /** Pattern `k'` is the first of `_PRICE_PATTERNS`, from pattern `k` on, to match `s`. */
  ghost predicate FirstMatchingFrom(s: string, k: nat, k': nat) {
    && k <= k' < |PricePatterns|
    && Search(s, PricePatterns[k'], 0).Some?
    && forall k'' :: k <= k'' < k' ==> Search(s, PricePatterns[k''], 0).None?
  }

  /** No pattern from `k` on matches `s`. */
  ghost predicate NoneFrom(s: string, k: nat) {
    forall k' :: k <= k' < |PricePatterns| ==> Search(s, PricePatterns[k'], 0).None?
  }

  /** Pattern `k` is the first of `_PRICE_PATTERNS` to match `s`. */
  ghost predicate FirstMatching(s: string, k: nat) {
    FirstMatchingFrom(s, 0, k)
  }

  /** `v` is what the first pattern that matches `s` yields. */
  ghost predicate FirstMatchValue(s: string, v: Option<real>) {
    exists k: nat :: FirstMatching(s, k) && v == MatchValue(s, PricePatterns[k])
  }

  lemma {:induction false} PriceFromFirstMatch(s: string, k: nat)
    requires k <= |PricePatterns|
    ensures PriceFrom(s, k).None? <==> NoneFrom(s, k)
    ensures PriceFrom(s, k).Some? ==>
      exists k': nat :: FirstMatchingFrom(s, k, k') && PriceFrom(s, k) == MatchValue(s, PricePatterns[k'])
    decreases |PricePatterns| - k
  {
    if k < |PricePatterns| {
      var pat := PricePatterns[k];
      PriceFromFirstMatch(s, k + 1);
      if Search(s, pat, 0).Some? {
        MatchValueDefined(s, pat);
        assert PriceFrom(s, k) == MatchValue(s, pat);
        assert FirstMatchingFrom(s, k, k);
      } else {
        assert PriceFrom(s, k) == PriceFrom(s, k + 1);
        NoneFromStep(s, k);
        if PriceFrom(s, k).Some? {
          var k': nat :| FirstMatchingFrom(s, k + 1, k') && PriceFrom(s, k + 1) == MatchValue(s, PricePatterns[k']);
          assert FirstMatchingFrom(s, k, k');
        }
      }
    }
  }

  lemma NoneFromStep(s: string, k: nat)
    requires k < |PricePatterns| && Search(s, PricePatterns[k], 0).None?
    ensures NoneFrom(s, k) <==> NoneFrom(s, k + 1)
  {
  }

  /**
   * `_extract_price_from_text`: `None` exactly for empty text or when no
   * pattern matches the collapsed text; otherwise the value of the group of
   * the first pattern that matches, and never negative.
   */
  lemma ExtractPriceFirstMatch(text: string)
    ensures ExtractPrice(text).None? <==>
      text == [] || forall k :: 0 <= k < |PricePatterns| ==> Search(Collapse(text), PricePatterns[k], 0).None?
    ensures ExtractPrice(text).Some? ==> FirstMatchValue(Collapse(text), ExtractPrice(text))
    ensures ExtractPrice(text).Some? ==> ExtractPrice(text).value >= 0.0
  {
    if text != [] {
      var s := Collapse(text);
      PriceFromFirstMatch(s, 0);
      if PriceFrom(s, 0).Some? {
        var k: nat :| FirstMatchingFrom(s, 0, k) && PriceFrom(s, 0) == MatchValue(s, PricePatterns[k]);
        MatchValueDefined(s, PricePatterns[k]);
        assert FirstMatching(s, k);
      }
    }
  }

  /** A pattern whose literal lead never occurs in `s` does not match it. */
  lemma {:induction false} LeadAbsent(s: string, pat: Pattern, i: nat)
    requires i <= |s| && pat.lead != [] && pat.lead[0] !in s
    ensures Search(s, pat, i).None?
    decreases |s| - i
  {
    if |pat.lead| <= |s[i..]| {
      assert s[i..][0] == s[i] && s[i] in s;
    }
    assert !StartsWith(s[i..], pat.lead);
    if i < |s| {
      LeadAbsent(s, pat, i + 1);
    }
  }

  lemma NoUsdAt(s: string, q: nat)
    requires q <= |s| && 'U' !in s
    ensures !StartsWith(s[q..], "USD")
  {
    if 3 <= |s[q..]| {
      assert s[q..][0] == s[q] && s[q] in s;
    }
  }

  /** `(N)\s*USD` does not match text without a `U`. */
  lemma {:induction false} SuffixAbsent(s: string, pat: Pattern, i: nat)
    requires i <= |s| && pat.usdSuffix && 'U' !in s
    ensures Search(s, pat, i).None?
    decreases |s| - i
  {
    NoSuffixAt(s, pat, i);
    if i < |s| {
      SuffixAbsent(s, pat, i + 1);
    }
  }

  lemma NoSuffixAt(s: string, pat: Pattern, i: nat)
    requires i <= |s| && pat.usdSuffix && 'U' !in s
    ensures MatchAt(s, i, pat).None?
  {
    if StartsWith(s[i..], pat.lead) {
      NoSuffixAfter(s, GroupEnds(s, LeadEnd(s, i, pat), pat), pat);
    }
  }

  lemma NoSuffixAfter(s: string, ends: seq<nat>, pat: Pattern)
    requires pat.usdSuffix && 'U' !in s
    requires forall i :: 0 <= i < |ends| ==> ends[i] <= |s|
    ensures FirstOk(s, ends, pat).None?
  {
    forall x | 0 <= x < |ends| ensures !SuffixOk(s, ends[x], pat) {
      NoUsdAt(s, SkipSpace(s, ends[x]));
    }
  }

  lemma NoSpaceUs()
    ensures NoSpace("$1,234.56")
  {
  }

  /** The run of `$1,234.56` after its sign, in backtracking order. */
  lemma UsEnds()
    ensures GroupEnds("$1,234.56", 1, PricePatterns[0]) == [9, 6, 2]
  {
    var s := "$1,234.56";
    var pat := PricePatterns[0];
    assert DigitRun(s, 3) == 3 && DigitRun(s, 2) == 0 && DigitRun(s, 1) == 1;
    assert TailEnds(s, 6, pat) == [9, 6] by {
      assert !GroupAt(s, 6, false) && DecimalAt(s, 6, false);
    }
    assert GroupAt(s, 2, false) && !DecimalAt(s, 2, false);
  }

  lemma UsMatch()
    ensures Search("$1,234.56", PricePatterns[0], 0) == Some((1, 9))
  {
    var s := "$1,234.56";
    UsEnds();
    assert StartsWith(s, "$") && SkipSpace(s, 1) == 1;
    assert MatchAt(s, 0, PricePatterns[0]) == Some((1, 9));
  }

  lemma UsSlice()
    ensures "$1,234.56"[1..9] == "1,234.56"
  {
  }

  lemma UsNormalise()
    ensures Normalise("1,234.56") == "1234.56"
  {
    assert "1,234.56" == "1" + [','] + "234.56";
    ReplaceCharOnce("1", ',', "234.56");
    assert "1234.56" == "1234" + ['.'] + "56";
    assert "1" + "234.56" == "1234.56";
    CountCharOnce("1234", '.', "56");
  }

  /** `$1,234.56` gives 1234.56, from the first pattern. */
  lemma ExtractPriceUsExample()
    ensures ExtractPrice("$1,234.56") == Some(1234.56)
  {
    var s := "$1,234.56";
    NoSpaceUs();
    CollapseOneWord(s);
    UsMatch();
    UsSlice();
    UsNormalise();
    PyFloat.ParseFloatUsExample();
    assert MatchValue(s, PricePatterns[0]) == Some(1234.56);
    assert PriceFrom(s, 0) == Some(1234.56);
  }

  lemma NoSpaceEu()
    ensures NoSpace("€1.234,56")
  {
  }

  /** The run of `€1.234,56` after its sign: the euro pattern accepts both separators. */
  lemma EuEnds()
    ensures GroupEnds("€1.234,56", 1, PricePatterns[4]) == [9, 6, 5, 2]
  {
    var s := "€1.234,56";
    var pat := PricePatterns[4];
    assert DigitRun(s, 3) == 3 && DigitRun(s, 2) == 0 && DigitRun(s, 1) == 1;
    assert TailEnds(s, 6, pat) == [9, 6] by {
      assert !GroupAt(s, 6, true) && DecimalAt(s, 6, true);
    }
    assert GroupAt(s, 2, true) && DecimalAt(s, 2, true);
  }

  lemma EuMatch()
    ensures Search("€1.234,56", PricePatterns[4], 0) == Some((1, 9))
  {
    var s := "€1.234,56";
    EuEnds();
    assert StartsWith(s, "€") && SkipSpace(s, 1) == 1;
    assert MatchAt(s, 0, PricePatterns[4]) == Some((1, 9));
  }

  lemma EuSlice()
    ensures "€1.234,56"[1..9] == "1.234,56"
  {
  }

  lemma EuNormalise()
    ensures Normalise("1.234,56") == "1.23456"
  {
    assert "1.234,56" == "1.234" + [','] + "56";
    ReplaceCharOnce("1.234", ',', "56");
    assert "1.23456" == "1" + ['.'] + "23456";
    assert "1.234" + "56" == "1.23456";
    CountCharOnce("1", '.', "23456");
  }

  lemma EuNoDollar()
    ensures Search("€1.234,56", PricePatterns[0], 0).None?
  {
    assert '$' !in "€1.234,56";
    LeadAbsent("€1.234,56", PricePatterns[0], 0);
  }

  lemma EuNoUsd()
    ensures Search("€1.234,56", PricePatterns[1], 0).None?
    ensures Search("€1.234,56", PricePatterns[2], 0).None?
  {
    var s := "€1.234,56";
    assert 'U' !in s;
    var p1, p2 := PricePatterns[1], PricePatterns[2];
    assert p1.usdSuffix && p2.lead[0] == 'U';
    SuffixAbsent(s, p1, 0);
    LeadAbsent(s, p2, 0);
  }

  lemma EuNoPound()
    ensures Search("€1.234,56", PricePatterns[3], 0).None?
  {
    assert '£' !in "€1.234,56";
    LeadAbsent("€1.234,56", PricePatterns[3], 0);
  }

  /**
   * `€1.234,56` gives 1.23456: only commas are dropped and a single dot
   * remains, so the dot is read as the decimal point.
   */
  lemma ExtractPriceEuExample()
    ensures ExtractPrice("€1.234,56") == Some(1.23456)
  {
    var s := "€1.234,56";
    NoSpaceEu();
    CollapseOneWord(s);
    EuNoDollar();
    EuNoUsd();
    EuNoPound();
    assert PriceFrom(s, 0) == PriceFrom(s, 1) == PriceFrom(s, 2) == PriceFrom(s, 3) == PriceFrom(s, 4);
    EuMatch();
    EuSlice();
    EuNormalise();
    PyFloat.ParseFloatEuExample();
    assert MatchValue(s, PricePatterns[4]) == Some(1.23456);
    assert PriceFrom(s, 4) == Some(1.23456);
  }

  /** `_detect_currency`: `£` wins over `€`; anything else is dollars. */
  function DetectCurrency(text: string): (code: string)
    ensures code in {"GBP", "EUR", "USD"}
    ensures code == "GBP" <==> '£' in text
    ensures code == "EUR" <==> '£' !in text && '€' in text
  {
    if '£' in text then "GBP" else if '€' in text then "EUR" else "USD"
  }
}
