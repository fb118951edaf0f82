/**
 * `_extract_title`: the product name shown to the user when the price came
 * from a selector or the sweep.
 */
module Title {
  import opened Wrappers
  import opened Text
  import opened Json
  import opened Dom
  import opened Soup
  import JsonLd

  /** The name one script block offers: a `Product` object with a truthy `name`, stripped. */
  function BlockName(b: Option<Json>): (r: Option<string>)
    ensures r.Some? ==> JsonLd.BlockObject(b).Some? && JsonLd.IsProduct(JsonLd.BlockObject(b).value)
  {
    match JsonLd.BlockObject(b)
    case None => None
    case Some(data) =>
      if JsonLd.IsProduct(data) && "name" in data && Truthy(data["name"])
      then Some(Strip(PyStr(data["name"])))
      else None
  }

  /** The loop over the JSON-LD scripts: the first block that names a product. */
  function LdTitle(blocks: seq<Option<Json>>): Option<string> {
    FirstSome(JsonLd.Map(BlockName, blocks))
  }

  /** The first present value, if any. */
  function FirstSome<T>(xs: seq<Option<T>>): Option<T>
    decreases |xs|
  {
    if xs == [] then None
    else if xs[0].Some? then xs[0]
    else FirstSome(xs[1..])
  }

  /** `soup.find("meta", property="og:title") or soup.find("meta", attrs={"name": "og:title"})`. */
  function OgTag(t: Tree): (r: Option<nat>)
    requires |t| >= 1
    ensures r.Some? ==> 1 <= r.value < |t| && t[r.value].tag == "meta"
  {
    match FindFirst(t, ByAttr("meta", "property", "og:title"), 1)
    case Some(i) => Some(i)
    case None => FindFirst(t, ByAttr("meta", "name", "og:title"), 1)
  }

  /** The `content` of the OpenGraph tag, when it is there and not empty. */
  function OgContent(t: Tree): (r: Option<string>)
    requires |t| >= 1
    ensures r.Some? ==> r.value != []
  {
    match OgTag(t)
    case None => None
    case Some(i) =>
      if "content" in t[i].attrs && t[i].attrs["content"] != [] then Some(t[i].attrs["content"]) else None
  }

  /** What `_extract_title(soup)` returns. */
  function ExtractTitle(t: Tree, blocks: seq<Option<Json>>): string
    requires |t| >= 1
  {
    match LdTitle(blocks)
    case Some(name) => name
    case None =>
      match FirstH1(t)
      case Some(h) => t[h].text
      case None =>
        match OgContent(t)
        case Some(c) => Strip(c)
        case None =>
          match FindFirst(t, ByTag("title"), 1)
          case Some(ti) => t[ti].text
          case None => "Unknown Product"
  }

  /** No block before `k` names a product. */
  predicate FirstNamed(blocks: seq<Option<Json>>, k: nat)
    requires k <= |blocks|
  {
    forall j :: 0 <= j < k ==> BlockName(blocks[j]).None?
  }

  /** `FirstSome` is the value at the first present position, and `None` when there is none. */
  lemma {:induction false} FirstSomeFirst<T>(xs: seq<Option<T>>)
    ensures FirstSome(xs).None? <==> forall k :: 0 <= k < |xs| ==> xs[k].None?
    ensures forall k :: 0 <= k < |xs| && xs[k].Some? && (forall j :: 0 <= j < k ==> xs[j].None?) ==>
      FirstSome(xs) == xs[k]
    decreases |xs|
  {
    if xs != [] {
      FirstSomeFirst(xs[1..]);
      assert forall k :: 1 <= k < |xs| ==> xs[k] == xs[1..][k - 1];
    }
  }

  /**
   * The JSON-LD name is the one of the first block that names a product;
   * there is none exactly when no block does.
   */
  lemma LdTitleFirst(blocks: seq<Option<Json>>)
    ensures LdTitle(blocks).None? <==> forall k :: 0 <= k < |blocks| ==> BlockName(blocks[k]).None?
    ensures forall k :: 0 <= k < |blocks| && BlockName(blocks[k]).Some? && FirstNamed(blocks, k) ==>
      LdTitle(blocks) == BlockName(blocks[k])
  {
    FirstSomeFirst(JsonLd.Map(BlockName, blocks));
  }

  /** A name taken from JSON-LD has no whitespace at either end. */
  lemma BlockNameStripped(b: Option<Json>)
    requires BlockName(b).Some?
    ensures var n := BlockName(b).value; n == [] || (!IsSpace(n[0]) && !IsSpace(n[|n| - 1]))
  {
    var data := JsonLd.BlockObject(b).value;
    assert BlockName(b) == Some(Strip(PyStr(data["name"])));
    StripTrimmed(PyStr(data["name"]));
  }

  /** A JSON-LD product name wins over every tag on the page. */
  lemma TitleFromJsonLd(t: Tree, blocks: seq<Option<Json>>, k: nat)
    requires |t| >= 1
    requires k < |blocks| && BlockName(blocks[k]).Some?
    requires FirstNamed(blocks, k)
    ensures ExtractTitle(t, blocks) == BlockName(blocks[k]).value
  {
    LdTitleFirst(blocks);
  }

  /** Without a JSON-LD name, the first `h1` gives the title, whatever its text. */
  lemma TitleFromH1(t: Tree, blocks: seq<Option<Json>>, h: nat)
    requires |t| >= 1
    requires forall k :: 0 <= k < |blocks| ==> BlockName(blocks[k]).None?
    requires 1 <= h < |t| && t[h].tag == "h1" && forall j :: 1 <= j < h ==> t[j].tag != "h1"
    ensures ExtractTitle(t, blocks) == t[h].text
  {
    LdTitleFirst(blocks);
  }

  /**
   * Without a JSON-LD name or an `h1`, a non-empty `og:title` content gives
   * the title, stripped; the `property` form is looked up before the `name` form.
   */
  lemma TitleFromOg(t: Tree, blocks: seq<Option<Json>>)
    requires |t| >= 1
    requires forall k :: 0 <= k < |blocks| ==> BlockName(blocks[k]).None?
    requires forall j :: 1 <= j < |t| ==> t[j].tag != "h1"
    requires OgTag(t).Some?
    requires var m := t[OgTag(t).value]; "content" in m.attrs && m.attrs["content"] != []
    ensures ExtractTitle(t, blocks) == Strip(t[OgTag(t).value].attrs["content"])
  {
    LdTitleFirst(blocks);
  }

  /**
   * Without a JSON-LD name, an `h1` or a non-empty `og:title` content, the
   * first `<title>` gives the title, whatever its text.
   */
  lemma TitleFromTitleTag(t: Tree, blocks: seq<Option<Json>>, ti: nat)
    requires |t| >= 1
    requires forall k :: 0 <= k < |blocks| ==> BlockName(blocks[k]).None?
    requires forall j :: 1 <= j < |t| ==> t[j].tag != "h1"
    requires OgContent(t).None?
    requires 1 <= ti < |t| && t[ti].tag == "title" && forall j :: 1 <= j < ti ==> t[j].tag != "title"
    ensures ExtractTitle(t, blocks) == t[ti].text
  {
    LdTitleFirst(blocks);
    assert Matches(t[ti], ByTag("title"));
  }

  /**
   * No JSON-LD name, no `h1`, no non-empty `og:title` content and no
   * `<title>`: the fixed placeholder. Other `meta` tags do not matter.
   */
  lemma TitleUnknown(t: Tree, blocks: seq<Option<Json>>)
    requires |t| >= 1
    requires forall k :: 0 <= k < |blocks| ==> BlockName(blocks[k]).None?
    requires forall j :: 1 <= j < |t| ==> t[j].tag != "h1" && t[j].tag != "title"
    requires OgContent(t).None?
    ensures ExtractTitle(t, blocks) == "Unknown Product"
  {
    LdTitleFirst(blocks);
  }
}
