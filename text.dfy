/**
 * String helpers standing for the few `str` methods the scraper and the
 * email builder use: `isspace`, `lower`, `strip`, `rstrip`, `split`/`join`,
 * `replace`, `count` and the `in` operator.
 */
module Text {

  /** Python's `str.isspace()`, which is also what `str.split()` and the regex class `\s` split on. */
  predicate IsSpace(c: char) {
    || c == ' '
    || ('\U{9}' <= c <= '\U{D}')
    || ('\U{1C}' <= c <= '\U{1F}')
    || c == '\U{85}' || c == '\U{A0}' || c == '\U{1680}'
    || ('\U{2000}' <= c <= '\U{200A}')
    || c == '\U{2028}' || c == '\U{2029}' || c == '\U{202F}' || c == '\U{205F}' || c == '\U{3000}'
  }

  /** The regex class `\d`, restricted to ASCII digits. */
  predicate IsDigit(c: char) {
    '0' <= c <= '9'
  }

  predicate AllDigits(s: string) {
    forall i :: 0 <= i < |s| ==> IsDigit(s[i])
  }

  predicate NoSpace(s: string) {
    forall i :: 0 <= i < |s| ==> !IsSpace(s[i])
  }

  function LowerChar(c: char): char {
    if 'A' <= c <= 'Z' then (c as int + 32) as char else c
  }

  /** `str.lower()` on ASCII letters. */
  function Lower(s: string): (r: string)
    ensures |r| == |s|
    ensures forall i :: 0 <= i < |s| ==> r[i] == LowerChar(s[i])
  {
    seq(|s|, i requires 0 <= i < |s| => LowerChar(s[i]))
  }

  function LStrip(s: string): (r: string)
    ensures |r| <= |s| && r == s[|s| - |r|..]
    ensures r != [] ==> !IsSpace(r[0])
    decreases |s|
  {
    if s != [] && IsSpace(s[0]) then LStrip(s[1..]) else s
  }

  function RStrip(s: string): (r: string)
    ensures |r| <= |s| && r == s[..|r|]
    ensures r != [] ==> !IsSpace(r[|r| - 1])
    decreases |s|
  {
    if s != [] && IsSpace(s[|s| - 1]) then RStrip(s[..|s| - 1]) else s
  }

  /** `str.strip()`: whitespace removed at both ends. */
  function Strip(s: string): string {
    RStrip(LStrip(s))
  }

  /** `str.rstrip(c)` for one character `c`. */
  function RStripChar(s: string, c: char): (r: string)
    ensures |r| <= |s| && r == s[..|r|]
    ensures r != [] ==> r[|r| - 1] != c
    decreases |s|
  {
    if s != [] && s[|s| - 1] == c then RStripChar(s[..|s| - 1], c) else s
  }

  lemma StripNoSpace(s: string)
    requires NoSpace(s)
    ensures Strip(s) == s
  {
    assert LStrip(s) == s;
  }

  /** `strip()` leaves a string alone whose end characters are not whitespace. */
  lemma StripKeeps(s: string)
    requires s != [] && !IsSpace(s[0]) && !IsSpace(s[|s| - 1])
    ensures Strip(s) == s
  {
    assert LStrip(s) == s;
  }

  /** `strip()` keeps a first character that is not whitespace. */
  lemma {:induction false} StripFirst(s: string)
    requires s != [] && !IsSpace(s[0])
    ensures Strip(s) != [] && Strip(s)[0] == s[0]
  {
    assert LStrip(s) == s;
    RStripFirst(s);
  }

  lemma {:induction false} RStripFirst(s: string)
    requires s != [] && !IsSpace(s[0])
    ensures RStrip(s) != [] && RStrip(s)[0] == s[0]
    decreases |s|
  {
    if IsSpace(s[|s| - 1]) {
      RStripFirst(s[..|s| - 1]);
    }
  }

  /** The result of `strip()` has no whitespace at either end, so stripping again changes nothing. */
  lemma StripTrimmed(s: string)
    ensures var r := Strip(s); r == [] || (!IsSpace(r[0]) && !IsSpace(r[|r| - 1]))
    ensures Strip(Strip(s)) == Strip(s)
  {
    var r := Strip(s);
    if r != [] {
      assert r[0] == LStrip(s)[0];
      StripKeeps(r);
    }
  }

  lemma DigitNotSpace(c: char)
    requires IsDigit(c)
    ensures !IsSpace(c)
  {
  }

  predicate StartsWith(s: string, prefix: string) {
    |prefix| <= |s| && s[..|prefix|] == prefix
  }

  /** Python's `needle in hay` on strings. */
  predicate Occurs(needle: string, hay: string) {
    exists k :: 0 <= k <= |hay| && OccursAt(needle, hay, k)
  }

  predicate OccursAt(needle: string, hay: string, k: nat) {
    k + |needle| <= |hay| && hay[k..k + |needle|] == needle
  }

  lemma OccursIn(a: string, needle: string, b: string)
    ensures Occurs(needle, a + needle + b)
  {
    var hay := a + needle + b;
    assert hay[|a|..|a| + |needle|] == needle;
    assert OccursAt(needle, hay, |a|);
  }

  lemma OccursSelf(x: string)
    ensures Occurs(x, x)
  {
    assert OccursAt(x, x, 0);
  }

  /** Text that occurs in `y` occurs in `a + y`. */
  lemma OccursLeft(x: string, a: string, y: string)
    requires Occurs(x, y)
    ensures Occurs(x, a + y)
  {
    var k :| 0 <= k <= |y| && OccursAt(x, y, k);
    assert (a + y)[|a| + k..|a| + k + |x|] == y[k..k + |x|];
    assert OccursAt(x, a + y, |a| + k);
  }

  /** Text that occurs in `y` occurs in `y + b`. */
  lemma OccursRight(x: string, y: string, b: string)
    requires Occurs(x, y)
    ensures Occurs(x, y + b)
  {
    var k :| 0 <= k <= |y| && OccursAt(x, y, k);
    assert (y + b)[k..k + |x|] == y[k..k + |x|];
    assert OccursAt(x, y + b, k);
  }

  lemma OccursLength(needle: string, hay: string)
    requires Occurs(needle, hay)
    ensures |needle| <= |hay|
  {
  }

  /** Index of the first character of `s` that is in `cs`, or `|s|`. */
  function Find(s: string, cs: set<char>): (k: nat)
    ensures k <= |s|
    ensures forall i :: 0 <= i < k ==> s[i] !in cs
    ensures k < |s| ==> s[k] in cs
    decreases |s|
  {
    if s == [] then 0 else if s[0] in cs then 0 else 1 + Find(s[1..], cs)
  }

  /** `s.replace(c, t)` for a one-character pattern `c`. */
  function ReplaceChar(s: string, c: char, t: string): string
    decreases |s|
  {
    if s == [] then [] else (if s[0] == c then t else [s[0]]) + ReplaceChar(s[1..], c, t)
  }

  lemma {:induction false} ReplaceCharAppend(a: string, b: string, c: char, t: string)
    ensures ReplaceChar(a + b, c, t) == ReplaceChar(a, c, t) + ReplaceChar(b, c, t)
    decreases |a|
  {
    if a == [] {
      assert a + b == b;
    } else {
      assert (a + b)[0] == a[0];
      assert (a + b)[1..] == a[1..] + b;
      ReplaceCharAppend(a[1..], b, c, t);
    }
  }

  lemma {:induction false} ReplaceCharAbsent(s: string, c: char, t: string)
    requires c !in s
    ensures ReplaceChar(s, c, t) == s
    decreases |s|
  {
    if s != [] {
      ReplaceCharAbsent(s[1..], c, t);
    }
  }

  lemma ReplaceCharEmpty(c: char, t: string)
    ensures ReplaceChar([], c, t) == []
  {
  }

  lemma ReplaceCharSingle(x: char, c: char, t: string)
    ensures ReplaceChar([x], c, t) == if x == c then t else [x]
  {
    assert [x][1..] == [];
  }

  /** Removing the one occurrence of `c`. */
  lemma ReplaceCharOnce(a: string, c: char, b: string)
    requires c !in a && c !in b
    ensures ReplaceChar(a + [c] + b, c, "") == a + b
  {
    ReplaceCharSingle(c, c, "");
    ReplaceCharAbsent(a, c, "");
    ReplaceCharAppend(a, [c], c, "");
    assert ReplaceChar(a + [c], c, "") == a;
    ReplaceCharAbsent(b, c, "");
    ReplaceCharAppend(a + [c], b, c, "");
  }

  /** Every character of `s.replace(c, t)` is a character of `s` other than `c`, or one of `t`. */
  lemma {:induction false} ReplaceCharChars(s: string, c: char, t: string)
    ensures forall x :: x in ReplaceChar(s, c, t) ==> (x in s && x != c) || x in t
    decreases |s|
  {
    if s != [] {
      ReplaceCharChars(s[1..], c, t);
    }
  }

  /** A character other than `c` survives `s.replace(c, t)`. */
  lemma {:induction false} ReplaceCharKeeps(s: string, c: char, t: string, x: char)
    requires x in s && x != c
    ensures x in ReplaceChar(s, c, t)
    decreases |s|
  {
    if s[0] != x {
      ReplaceCharKeeps(s[1..], c, t, x);
    }
  }

  /** `s.count(c)` for a one-character `c`. */
  function CountChar(s: string, c: char): nat
    decreases |s|
  {
    if s == [] then 0 else (if s[0] == c then 1 else 0) + CountChar(s[1..], c)
  }

  lemma {:induction false} CountCharAppend(a: string, b: string, c: char)
    ensures CountChar(a + b, c) == CountChar(a, c) + CountChar(b, c)
    decreases |a|
  {
    if a == [] {
      assert a + b == b;
    } else {
      assert (a + b)[0] == a[0];
      assert (a + b)[1..] == a[1..] + b;
      CountCharAppend(a[1..], b, c);
    }
  }

  lemma {:induction false} CountCharZero(s: string, c: char)
    ensures CountChar(s, c) == 0 <==> c !in s
    decreases |s|
  {
    if s != [] {
      CountCharZero(s[1..], c);
    }
  }

  lemma CountCharOnce(a: string, c: char, b: string)
    requires c !in a && c !in b
    ensures CountChar(a + [c] + b, c) == 1
  {
    CountCharAppend(a + [c], b, c);
    CountCharAppend(a, [c], c);
    CountCharZero(a, c);
    CountCharZero(b, c);
    assert [c][1..] == [];
  }

  /** Python's `str.split()` with no argument: the maximal runs of non-whitespace. */
  function Words(s: string): seq<string>
    decreases |s|
  {
    var t := LStrip(s);
    if t == [] then [] else
      var e := WordEnd(t, 0);
      [t[..e]] + Words(t[e..])
  }

  function WordEnd(s: string, i: nat): (e: nat)
    requires i <= |s|
    ensures i <= e <= |s|
    ensures forall k :: i <= k < e ==> !IsSpace(s[k])
    ensures i < |s| && !IsSpace(s[i]) ==> i < e
    decreases |s| - i
  {
    if i < |s| && !IsSpace(s[i]) then WordEnd(s, i + 1) else i
  }

  lemma {:induction false} WordsShape(s: string)
    ensures forall k :: 0 <= k < |Words(s)| ==> Words(s)[k] != [] && NoSpace(Words(s)[k])
    decreases |s|
  {
    var t := LStrip(s);
    if t != [] {
      var e := WordEnd(t, 0);
      WordsShape(t[e..]);
      var w, rest := t[..e], Words(t[e..]);
      assert Words(s) == [w] + rest;
      assert w != [] && NoSpace(w);
      forall k | 0 <= k < |Words(s)|
        ensures Words(s)[k] != [] && NoSpace(Words(s)[k])
      {
        if k > 0 {
          assert Words(s)[k] == rest[k - 1];
        }
      }
    }
  }

  /** `" ".join(ws)`. */
  function Join(ws: seq<string>): string {
    if ws == [] then [] else if |ws| == 1 then ws[0] else ws[0] + " " + Join(ws[1..])
  }

  /** `" ".join(s.split())`: whitespace runs collapsed to one space, ends trimmed. */
  function Collapse(s: string): string {
    Join(Words(s))
  }

  /** No whitespace but single `' '`s, each between two non-whitespace characters. */
  ghost predicate SingleSpaced(t: string) {
    forall i :: 0 <= i < |t| && IsSpace(t[i]) ==>
      t[i] == ' ' && 0 < i < |t| - 1 && !IsSpace(t[i - 1]) && !IsSpace(t[i + 1])
  }

  lemma {:induction false} JoinSingleSpaced(ws: seq<string>)
    requires forall k :: 0 <= k < |ws| ==> ws[k] != [] && NoSpace(ws[k])
    ensures SingleSpaced(Join(ws))
    ensures Join(ws) != [] ==> !IsSpace(Join(ws)[0]) && !IsSpace(Join(ws)[|Join(ws)| - 1])
  {
    if |ws| > 1 {
      JoinSingleSpaced(ws[1..]);
      var w, rest := ws[0], Join(ws[1..]);
      var t := w + " " + rest;
      assert rest != [] by { assert ws[1..][0] != []; }
      assert forall i :: 0 <= i < |w| ==> t[i] == w[i];
      assert t[|w|] == ' ';
      assert forall i :: |w| < i < |t| ==> t[i] == rest[i - |w| - 1];
      assert SingleSpaced(t);
    }
  }

  /** After `" ".join(s.split())` the only whitespace left is single spaces between words. */
  lemma CollapseSingleSpaced(s: string)
    ensures SingleSpaced(Collapse(s))
    ensures Collapse(s) != [] ==> !IsSpace(Collapse(s)[0]) && !IsSpace(Collapse(s)[|Collapse(s)| - 1])
  {
    WordsShape(s);
    JoinSingleSpaced(Words(s));
  }

  /** A non-empty string without whitespace is its own single word. */
  lemma CollapseOneWord(s: string)
    requires s != [] && NoSpace(s)
    ensures Collapse(s) == s
  {
    assert LStrip(s) == s;
    var e := WordEnd(s, 0);
    WordEndStops(s, 0);
    assert s[..e] == s;
    assert LStrip(s[e..]) == [];
    assert Words(s[e..]) == [];
    assert Words(s) == [s];
  }

  lemma {:induction false} WordEndStops(s: string, i: nat)
    requires i <= |s|
    ensures WordEnd(s, i) == |s| || IsSpace(s[WordEnd(s, i)])
    decreases |s| - i
  {
    if i < |s| && !IsSpace(s[i]) {
      WordEndStops(s, i + 1);
    }
  }
}
