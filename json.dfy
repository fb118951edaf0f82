/**
 * The values `json.loads` produces, with the Python operations the scraper
 * applies to them: truthiness, `dict.get`, `str()`.
 */
module Json {
  import opened Wrappers
  import opened Text
  import PyFloat

  /**
   * A decoded JSON value. A number carries the text `str()` gives for the
   * Python `int` or `float` the decoder produced; an object is a `dict`.
   */
  datatype Json =
    | JNull
    | JBool(b: bool)
    | JNum(repr: string)
    | JStr(s: string)
    | JArr(items: seq<Json>)
    | JObj(fields: map<string, Json>)

  /** Python truthiness: `None`, `False`, zero and empty containers are false. */
  predicate Truthy(v: Json) {
    match v
    case JNull => false
    case JBool(b) => b
    case JNum(r) => PyFloat.ParseFloat(r) != Some(0.0)
    case JStr(s) => s != []
    case JArr(xs) => xs != []
    case JObj(m) => m != map[]
  }

  /** `d.get(key)`; `None` is Python's `None` for a missing key. */
  function Get(m: map<string, Json>, key: string): (r: Option<Json>)
    ensures r.Some? <==> key in m
    ensures r.Some? ==> r.value == m[key]
  {
    if key in m then Some(m[key]) else None
  }

  /** `d.get(key)` seen as Python sees it: a missing key and JSON `null` are both `None`. */
  predicate IsNone(v: Option<Json>) {
    v.None? || v.value.JNull?
  }

  /** `a or b` on two values `d.get` returned. */
  function Or(a: Option<Json>, b: Option<Json>): (r: Option<Json>)
    ensures a.Some? && Truthy(a.value) ==> r == a
    ensures !(a.Some? && Truthy(a.value)) ==> r == b
  {
    if a.Some? && Truthy(a.value) then a else b
  }

  /**
   * `str(v)`. Lists and dicts are shown only by their opening bracket and an
   * ellipsis; the scraper reads them as a price (never a number) or as a
   * product name.
   */
  function PyStr(v: Json): string {
    match v
    case JNull => "None"
    case JBool(b) => if b then "True" else "False"
    case JNum(r) => r
    case JStr(s) => s
    case JArr(_) => "[...]"
    case JObj(_) => "{...}"
  }

  /** `float()` refuses text that starts with anything but a sign, a dot or a digit. */
  lemma LeadingJunk(s: string)
    requires s != [] && !IsSpace(s[0]) && !IsDigit(s[0]) && s[0] !in {'+', '-', '.'}
    ensures PyFloat.ParseFloat(s).None?
  {
    var t := Strip(s);
    StripFirst(s);
    var k := Find(t, {'e', 'E'});
    var m := if k == |t| then t else t[..k];
    if m != [] {
      assert m[0] == s[0];
      var d := Find(m, {'.'});
      assert d > 0;
      if d < |m| {
        assert m[..d][0] == s[0];
      } else {
        assert !IsDigit(m[0]);
      }
    }
  }

  /**
   * Only numbers and strings can become a price: `float(str(v).replace(",", ""))`
   * raises for `True`, `False`, lists and dicts.
   */
  lemma OnlyScalarsParse(v: Json)
    requires v.JBool? || v.JArr? || v.JObj?
    ensures PyFloat.ParseFloat(ReplaceChar(PyStr(v), ',', "")).None?
  {
    var s := PyStr(v);
    assert ReplaceChar(s, ',', "") == [s[0]] + ReplaceChar(s[1..], ',', "");
    LeadingJunk(ReplaceChar(s, ',', ""));
  }
}
