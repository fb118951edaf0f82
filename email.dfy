/**
 * The pure parts of the email builder: HTML escaping, the currency symbol,
 * and which text the welcome email and the unsubscribe page contain.
 */
module Email {
  import opened Wrappers
  import opened Text
  import PriceText

  /** `_esc`: `&`, then `<`, `>` and `"` replaced by their entities, in that order. */
  function Esc(s: string): string {
    ReplaceChar(ReplaceChar(ReplaceChar(ReplaceChar(s, '&', "&amp;"), '<', "&lt;"), '>', "&gt;"), '"', "&quot;")
  }

  /** What one character becomes. */
  function EscChar(c: char): string {
    if c == '&' then "&amp;"
    else if c == '<' then "&lt;"
    else if c == '>' then "&gt;"
    else if c == '"' then "&quot;"
    else [c]
  }

  /** Escaping character by character: the reference `Esc` is proved equal to. */
  function EscMap(s: string): string
    decreases |s|
  {
    if s == [] then [] else EscChar(s[0]) + EscMap(s[1..])
  }

  /** Reads the four entities back; any other character stands for itself. */
  function Unescape(t: string): string
    decreases |t|
  {
    if t == [] then []
    else if StartsWith(t, "&amp;") then "&" + Unescape(t[5..])
    else if StartsWith(t, "&lt;") then "<" + Unescape(t[4..])
    else if StartsWith(t, "&gt;") then ">" + Unescape(t[4..])
    else if StartsWith(t, "&quot;") then "\"" + Unescape(t[6..])
    else [t[0]] + Unescape(t[1..])
  }

  lemma EscAppend(a: string, b: string)
    ensures Esc(a + b) == Esc(a) + Esc(b)
  {
    var a1, b1 := ReplaceChar(a, '&', "&amp;"), ReplaceChar(b, '&', "&amp;");
    var a2, b2 := ReplaceChar(a1, '<', "&lt;"), ReplaceChar(b1, '<', "&lt;");
    var a3, b3 := ReplaceChar(a2, '>', "&gt;"), ReplaceChar(b2, '>', "&gt;");
    ReplaceCharAppend(a, b, '&', "&amp;");
    ReplaceCharAppend(a1, b1, '<', "&lt;");
    ReplaceCharAppend(a2, b2, '>', "&gt;");
    ReplaceCharAppend(a3, b3, '"', "&quot;");
  }

  /** The last three replacements leave a string alone that holds none of `<`, `>`, `"`. */
  lemma EscTail(r: string)
    requires '<' !in r && '>' !in r && '"' !in r
    ensures ReplaceChar(ReplaceChar(ReplaceChar(r, '<', "&lt;"), '>', "&gt;"), '"', "&quot;") == r
  {
    ReplaceCharAbsent(r, '<', "&lt;");
    ReplaceCharAbsent(r, '>', "&gt;");
    ReplaceCharAbsent(r, '"', "&quot;");
  }

  lemma EscSingle(c: char)
    ensures Esc([c]) == EscChar(c)
  {
    ReplaceCharSingle(c, '&', "&amp;");
    if c == '&' {
      EscTail("&amp;");
    } else {
      ReplaceCharSingle(c, '<', "&lt;");
      if c == '<' {
        ReplaceCharAbsent("&lt;", '>', "&gt;");
        ReplaceCharAbsent("&lt;", '"', "&quot;");
      } else {
        ReplaceCharSingle(c, '>', "&gt;");
        if c == '>' {
          ReplaceCharAbsent("&gt;", '"', "&quot;");
        } else {
          ReplaceCharSingle(c, '"', "&quot;");
        }
      }
    }
  }

  /** The chained replacements escape each character on its own. */
  lemma {:induction false} EscIsMap(s: string)
    ensures Esc(s) == EscMap(s)
    decreases |s|
  {
    if s == [] {
    } else {
      assert s == [s[0]] + s[1..];
      EscAppend([s[0]], s[1..]);
      EscSingle(s[0]);
      EscIsMap(s[1..]);
    }
  }

  lemma {:induction false} EscMapNoRaw(s: string)
    ensures '<' !in EscMap(s) && '>' !in EscMap(s) && '"' !in EscMap(s)
    decreases |s|
  {
    if s != [] {
      EscMapNoRaw(s[1..]);
    }
  }

  /** The escaped text has no raw `<`, `>` or `"`. */
  lemma EscNoRaw(s: string)
    ensures '<' !in Esc(s) && '>' !in Esc(s) && '"' !in Esc(s)
  {
    EscIsMap(s);
    EscMapNoRaw(s);
  }

  lemma UnescapeStep(c: char, rest: string)
    ensures Unescape(EscChar(c) + rest) == [c] + Unescape(rest)
  {
    var t := EscChar(c) + rest;
    if c == '&' {
      assert StartsWith(t, "&amp;") && t[5..] == rest;
    } else if c == '<' {
      assert t[..4] == "&lt;" && t[4..] == rest;
      assert !StartsWith(t, "&amp;") by {
        if |t| >= 5 { assert t[..5][1] == 'l'; }
      }
    } else if c == '>' {
      assert t[..4] == "&gt;" && t[4..] == rest;
      assert !StartsWith(t, "&amp;") by {
        if |t| >= 5 { assert t[..5][1] == 'g'; }
      }
      assert !StartsWith(t, "&lt;") by {
        assert t[..4][1] == 'g';
      }
    } else if c == '"' {
      assert t[..6] == "&quot;" && t[6..] == rest;
      assert t[..5][1] == 'q' && t[..4][1] == 'q';
    } else {
      assert t[0] == c && t[1..] == rest;
      assert !StartsWith(t, "&amp;") && !StartsWith(t, "&lt;") by {
        if |t| >= 4 { assert t[..4][0] == c; }
        if |t| >= 5 { assert t[..5][0] == c; }
      }
      assert !StartsWith(t, "&gt;") && !StartsWith(t, "&quot;") by {
        if |t| >= 4 { assert t[..4][0] == c; }
        if |t| >= 6 { assert t[..6][0] == c; }
      }
    }
  }

  lemma {:induction false} UnescapeEscMap(s: string)
    ensures Unescape(EscMap(s)) == s
    decreases |s|
  {
    if s != [] {
      UnescapeStep(s[0], EscMap(s[1..]));
      UnescapeEscMap(s[1..]);
    }
  }

  /** Decoding the four entities recovers the original text. */
  lemma EscRoundTrip(s: string)
    ensures Unescape(Esc(s)) == s
  {
    EscIsMap(s);
    UnescapeEscMap(s);
  }

  /** Different texts escape differently. */
  lemma EscInjective(a: string, b: string)
    requires Esc(a) == Esc(b)
    ensures a == b
  {
    EscRoundTrip(a);
    EscRoundTrip(b);
  }

  /** A text free of `&`, `<`, `>` and `"` comes out unchanged. */
  lemma EscIdentity(s: string)
    requires '&' !in s && '<' !in s && '>' !in s && '"' !in s
    ensures Esc(s) == s
  {
    ReplaceCharAbsent(s, '&', "&amp;");
    ReplaceCharAbsent(s, '<', "&lt;");
    ReplaceCharAbsent(s, '>', "&gt;");
    ReplaceCharAbsent(s, '"', "&quot;");
  }

  /** Each `&` adds four characters, each `<` and `>` three, each `"` five; `'` passes through. */
  lemma EscLength(s: string)
    ensures |Esc(s)| == |s| + 4 * CountChar(s, '&') + 3 * CountChar(s, '<') + 3 * CountChar(s, '>') + 5 * CountChar(s, '"')
    ensures CountChar(Esc(s), '\'') == CountChar(s, '\'')
  {
    EscIsMap(s);
    EscMapLength(s);
    EscMapApostrophes(s);
  }

  lemma {:induction false} EscMapLength(s: string)
    ensures |EscMap(s)| == |s| + 4 * CountChar(s, '&') + 3 * CountChar(s, '<') + 3 * CountChar(s, '>') + 5 * CountChar(s, '"')
    decreases |s|
  {
    if s != [] {
      EscMapLength(s[1..]);
      assert |EscChar(s[0])| == 1 + (if s[0] == '&' then 4 else 0) + (if s[0] == '<' || s[0] == '>' then 3 else 0) +
        (if s[0] == '"' then 5 else 0);
    }
  }

  lemma {:induction false} EscMapApostrophes(s: string)
    ensures CountChar(EscMap(s), '\'') == CountChar(s, '\'')
    decreases |s|
  {
    if s != [] {
      EscMapApostrophes(s[1..]);
      CountCharAppend(EscChar(s[0]), EscMap(s[1..]), '\'');
      var e := EscChar(s[0]);
      assert CountChar(e, '\'') == if s[0] == '\'' then 1 else 0 by {
        if s[0] in "&<>\"" {
          CountCharZero(e, '\'');
        } else {
          assert e == [s[0]] && e[1..] == [];
        }
      }
    }
  }

  /** Every `&` of the escaped text starts one of the four entities. */
  lemma {:induction false} EscMapAmpersands(s: string)
    ensures forall i :: 0 <= i < |EscMap(s)| && EscMap(s)[i] == '&' ==> IsEntityAt(EscMap(s), i)
    decreases |s|
  {
    if s != [] {
      EscMapAmpersands(s[1..]);
      var e := EscChar(s[0]);
      var rest := EscMap(s[1..]);
      var t := e + rest;
      forall i | 0 <= i < |t| && t[i] == '&' ensures IsEntityAt(t, i) {
        if i < |e| {
          assert i == 0;
          assert t[..|e|] == e;
        } else {
          assert t[i] == rest[i - |e|];
          assert t[i..] == rest[i - |e|..];
        }
      }
    }
  }

  /** `t[i..]` starts with `&amp;`, `&lt;`, `&gt;` or `&quot;`. */
  predicate IsEntityAt(t: string, i: nat)
    requires i <= |t|
  {
    StartsWith(t[i..], "&amp;") || StartsWith(t[i..], "&lt;") || StartsWith(t[i..], "&gt;") || StartsWith(t[i..], "&quot;")
  }

  lemma EscAmpersands(s: string)
    ensures forall i :: 0 <= i < |Esc(s)| && Esc(s)[i] == '&' ==> IsEntityAt(Esc(s), i)
  {
    EscIsMap(s);
    EscMapAmpersands(s);
  }

  /** The `symbols` table of `_format_price`. */
  const Symbols: map<string, string> := map["USD" := "$", "GBP" := "£", "EUR" := "€"]

  /** `symbols.get(currency, "$")`. */
  function Symbol(currency: string): string {
    if currency in Symbols then Symbols[currency] else "$"
  }

  /**
   * `_format_price`, given the digits `f"{price:,.2f}"` produces: the symbol
   * of the currency, then the amount.
   */
  function FormatPrice(amount: string, currency: string): string {
    Symbol(currency) + amount
  }

  /**
   * The symbols agree with `_detect_currency`: each code it returns gets a
   * symbol it reads back as that code; any other code gets `$`.
   */
  lemma SymbolMatchesDetect(currency: string)
    ensures currency in {"GBP", "EUR", "USD"} ==> PriceText.DetectCurrency(Symbol(currency)) == currency
    ensures currency !in {"GBP", "EUR", "USD"} ==> Symbol(currency) == "$"
  {
    if currency == "USD" {
      assert Symbol(currency) == "$";
      assert '£' !in "$" && '€' !in "$";
    } else if currency == "GBP" {
      assert Symbol(currency) == "£";
      assert '£' in "£";
    } else if currency == "EUR" {
      assert Symbol(currency) == "€";
      assert '£' !in "€" && '€' in "€";
    }
  }

  /** The four values `_BASE_HTML.format` fills in. */
  datatype Html = Html(title: string, header: string, body: string, footer: string)

  /** The dict `build_welcome_email` returns. */
  datatype Message = Message(subject: string, html: Html, text: string)

  /** The fixed text around the interpolated values of the welcome email. */
  const BadgeHead := "\n        <div class=\"price-row\">\n          <span class=\"price-badge\">"
  const BadgeTail := "</span>\n          <span style=\"color:#94a3b8;font-size:13px;\">current price</span>\n        </div>"
  const LaterNote := "\n        <div style=\"color:#94a3b8;font-size:13px;margin-top:4px;\">\n          We\U{2019}ll check the price on our next scheduled run and email you the moment it drops.\n        </div>"
  const SubjectHead := "Tracking "
  const SubjectMid := " \U{2014} Currently "
  const SubjectLater := "You\U{2019}re now tracking "
  const TextPriceHead := "Current price: "
  const TextLater := "Price will be checked on our next scheduled run.\n"
  const BodyHead := "\n      <p>You're all set! We'll email you as soon as the price drops on:</p>\n      <div class=\"product-card\">\n        <div class=\"product-name\">"
  const BodyNameEnd := "</div>\n        "
  const BodyLinkHead := "\n      </div>\n      <a href=\""
  const BodyTail := "\" class=\"cta-button\">View Product</a>\n    "
  const FooterHead := "You subscribed to price alerts for <em>"
  const FooterMid := "</em>.<br>No longer interested? <a href=\""
  const FooterTail := "\">Unsubscribe</a>"
  const TextHead := "Price Drop Notifier \U{2014} Subscription confirmed\n\nYou're tracking: "
  const TextUrlHead := "Product URL: "
  const TextUnsubHead := "\n\nWe'll email you when the price drops.\n\nUnsubscribe: "

  /** `price_block`: the price badge, or the note that the price comes later. */
  function PriceBlock(priceStr: Option<string>): string {
    match priceStr
    case Some(ps) => BadgeHead + ps + BadgeTail
    case None => LaterNote
  }

  function WelcomeSubject(name: string, priceStr: Option<string>): string {
    match priceStr
    case Some(ps) => SubjectHead + name + SubjectMid + ps
    case None => SubjectLater + name
  }

  /** `text_price`. */
  function TextPrice(priceStr: Option<string>): string {
    match priceStr
    case Some(ps) => TextPriceHead + ps + "\n"
    case None => TextLater
  }

  function WelcomeBody(name: string, productUrl: string, priceStr: Option<string>): string {
    BodyHead + Esc(name) + BodyNameEnd + PriceBlock(priceStr) + BodyLinkHead + Esc(productUrl) + BodyTail
  }

  function WelcomeFooter(name: string, unsubscribeUrl: string): string {
    FooterHead + Esc(name) + FooterMid + Esc(unsubscribeUrl) + FooterTail
  }

  function WelcomeText(name: string, productUrl: string, unsubscribeUrl: string, priceStr: Option<string>): string {
    TextHead + name + "\n" + TextPrice(priceStr) + TextUrlHead + productUrl + TextUnsubHead + unsubscribeUrl
  }

  /**
   * `build_welcome_email`; `amount` is `f"{price:,.2f}"` when a price is
   * known and `None` when `price is None`.
   */
  function WelcomeEmail(name: string, productUrl: string, unsubscribeUrl: string, amount: Option<string>, currency: string): Message {
    var priceStr := if amount.Some? then Some(FormatPrice(amount.value, currency)) else None;
    Message(
      WelcomeSubject(name, priceStr),
      Html("You're tracking a product", "You're now tracking this product!",
        WelcomeBody(name, productUrl, priceStr), WelcomeFooter(name, unsubscribeUrl)),
      WelcomeText(name, productUrl, unsubscribeUrl, priceStr))
  }

  /** With a price, the subject, the plain text and the HTML body all show the formatted price. */
  lemma WelcomeShowsPrice(name: string, productUrl: string, unsubscribeUrl: string, amount: string, currency: string)
    ensures var m := WelcomeEmail(name, productUrl, unsubscribeUrl, Some(amount), currency);
      var ps := FormatPrice(amount, currency);
      && Occurs(ps, m.subject) && Occurs(ps, m.text) && Occurs(ps, m.html.body)
  {
    var ps := FormatPrice(amount, currency);
    OccursSelf(ps);
    OccursLeft(ps, SubjectHead + name + SubjectMid, ps);
    OccursLeft(ps, TextPriceHead, ps);
    OccursRight(ps, TextPriceHead + ps, "\n");
    TextShows(name, productUrl, unsubscribeUrl, Some(ps), ps);
    BodyPriceShows(name, productUrl, ps);
  }

  /** Text inside `text_price` shows in the plain text. */
  lemma TextShows(name: string, productUrl: string, unsubscribeUrl: string, priceStr: Option<string>, x: string)
    requires Occurs(x, TextPrice(priceStr))
    ensures Occurs(x, WelcomeText(name, productUrl, unsubscribeUrl, priceStr))
  {
    var t0 := TextHead + name + "\n";
    var tp := TextPrice(priceStr);
    OccursLeft(x, t0, tp);
    OccursRight(x, t0 + tp, TextUrlHead);
    OccursRight(x, t0 + tp + TextUrlHead, productUrl);
    OccursRight(x, t0 + tp + TextUrlHead + productUrl, TextUnsubHead);
    OccursRight(x, t0 + tp + TextUrlHead + productUrl + TextUnsubHead, unsubscribeUrl);
  }

  lemma BodyPriceShows(name: string, productUrl: string, ps: string)
    ensures Occurs(ps, WelcomeBody(name, productUrl, Some(ps)))
  {
    var h := BodyHead + Esc(name) + BodyNameEnd;
    OccursSelf(ps);
    OccursLeft(ps, BadgeHead, ps);
    OccursRight(ps, BadgeHead + ps, BadgeTail);
    var pb := PriceBlock(Some(ps));
    OccursLeft(ps, h, pb);
    OccursRight(ps, h + pb, BodyLinkHead);
    OccursRight(ps, h + pb + BodyLinkHead, Esc(productUrl));
    OccursRight(ps, h + pb + BodyLinkHead + Esc(productUrl), BodyTail);
  }

  /**
   * Without a price, the subject only announces the tracking, the text says
   * the price comes later, and nothing depends on the currency.
   */
  lemma WelcomeWithoutPrice(name: string, productUrl: string, unsubscribeUrl: string, currency: string, other: string)
    ensures var m := WelcomeEmail(name, productUrl, unsubscribeUrl, None, currency);
      && m.subject == SubjectLater + name
      && Occurs(TextLater, m.text)
      && m == WelcomeEmail(name, productUrl, unsubscribeUrl, None, other)
  {
    OccursSelf(TextLater);
    TextShows(name, productUrl, unsubscribeUrl, None, TextLater);
  }

  /** The name and the URLs are escaped in the HTML body and footer. */
  lemma WelcomeHtmlEscaped(name: string, productUrl: string, unsubscribeUrl: string, amount: Option<string>, currency: string)
    ensures var m := WelcomeEmail(name, productUrl, unsubscribeUrl, amount, currency);
      && Occurs(Esc(name), m.html.body) && Occurs(Esc(productUrl), m.html.body)
      && Occurs(Esc(name), m.html.footer) && Occurs(Esc(unsubscribeUrl), m.html.footer)
  {
    var priceStr := if amount.Some? then Some(FormatPrice(amount.value, currency)) else None;
    BodyMentions(name, productUrl, priceStr);
    FooterMentions(name, unsubscribeUrl);
  }

  /** The name and the URLs appear as given, unescaped, in the subject and the plain text. */
  lemma WelcomePlainRaw(name: string, productUrl: string, unsubscribeUrl: string, amount: Option<string>, currency: string)
    ensures var m := WelcomeEmail(name, productUrl, unsubscribeUrl, amount, currency);
      && Occurs(name, m.subject) && Occurs(name, m.text)
      && Occurs(productUrl, m.text) && Occurs(unsubscribeUrl, m.text)
  {
    var priceStr := if amount.Some? then Some(FormatPrice(amount.value, currency)) else None;
    SubjectMentions(name, priceStr);
    TextMentions(name, productUrl, unsubscribeUrl, priceStr);
  }

  lemma BodyMentions(name: string, productUrl: string, priceStr: Option<string>)
    ensures Occurs(Esc(name), WelcomeBody(name, productUrl, priceStr))
    ensures Occurs(Esc(productUrl), WelcomeBody(name, productUrl, priceStr))
  {
    var h := BodyHead;
    var en, eu := Esc(name), Esc(productUrl);
    var pb := PriceBlock(priceStr);
    var m1, m2, e := BodyNameEnd, BodyLinkHead, BodyTail;
    OccursSelf(en);
    OccursLeft(en, h, en);
    OccursRight(en, h + en, m1);
    OccursRight(en, h + en + m1, pb);
    OccursRight(en, h + en + m1 + pb, m2);
    OccursRight(en, h + en + m1 + pb + m2, eu);
    OccursRight(en, h + en + m1 + pb + m2 + eu, e);
    OccursSelf(eu);
    OccursLeft(eu, h + en + m1 + pb + m2, eu);
    OccursRight(eu, h + en + m1 + pb + m2 + eu, e);
  }

  lemma FooterMentions(name: string, unsubscribeUrl: string)
    ensures Occurs(Esc(name), WelcomeFooter(name, unsubscribeUrl))
    ensures Occurs(Esc(unsubscribeUrl), WelcomeFooter(name, unsubscribeUrl))
  {
    var h, m, e := FooterHead, FooterMid, FooterTail;
    var en, eu := Esc(name), Esc(unsubscribeUrl);
    OccursSelf(en);
    OccursLeft(en, h, en);
    OccursRight(en, h + en, m);
    OccursRight(en, h + en + m, eu);
    OccursRight(en, h + en + m + eu, e);
    OccursSelf(eu);
    OccursLeft(eu, h + en + m, eu);
    OccursRight(eu, h + en + m + eu, e);
  }

  lemma SubjectMentions(name: string, priceStr: Option<string>)
    ensures Occurs(name, WelcomeSubject(name, priceStr))
  {
    OccursSelf(name);
    match priceStr
    case Some(ps) =>
      OccursLeft(name, SubjectHead, name);
      OccursRight(name, SubjectHead + name, SubjectMid);
      OccursRight(name, SubjectHead + name + SubjectMid, ps);
    case None =>
      OccursLeft(name, SubjectLater, name);
  }

  lemma TextMentions(name: string, productUrl: string, unsubscribeUrl: string, priceStr: Option<string>)
    ensures Occurs(name, WelcomeText(name, productUrl, unsubscribeUrl, priceStr))
    ensures Occurs(productUrl, WelcomeText(name, productUrl, unsubscribeUrl, priceStr))
    ensures Occurs(unsubscribeUrl, WelcomeText(name, productUrl, unsubscribeUrl, priceStr))
  {
    var h := TextHead;
    var tp := TextPrice(priceStr);
    var m1, m2, m3 := "\n", TextUrlHead, TextUnsubHead;
    OccursSelf(name);
    OccursLeft(name, h, name);
    OccursRight(name, h + name, m1);
    OccursRight(name, h + name + m1, tp);
    OccursRight(name, h + name + m1 + tp, m2);
    OccursRight(name, h + name + m1 + tp + m2, productUrl);
    OccursRight(name, h + name + m1 + tp + m2 + productUrl, m3);
    OccursRight(name, h + name + m1 + tp + m2 + productUrl + m3, unsubscribeUrl);
    OccursSelf(productUrl);
    OccursLeft(productUrl, h + name + m1 + tp + m2, productUrl);
    OccursRight(productUrl, h + name + m1 + tp + m2 + productUrl, m3);
    OccursRight(productUrl, h + name + m1 + tp + m2 + productUrl + m3, unsubscribeUrl);
    OccursSelf(unsubscribeUrl);
    OccursLeft(unsubscribeUrl, h + name + m1 + tp + m2 + productUrl + m3, unsubscribeUrl);
  }

  /** `name_blurb` of `build_unsubscribe_page`: empty for a missing or empty name. */
  function NameBlurb(name: Option<string>): string {
    if name.Some? && name.value != [] then " from <strong>" + Esc(name.value) + "</strong> price alerts" else ""
  }

  /** The fixed text of the unsubscribe page body, before and after the blurb. */
  const UnsubscribedHead := "\n      <p>You've been successfully unsubscribed"
  const UnsubscribedTail := ".</p>\n      <p>You will no longer receive price drop notifications for this product.\n         If you change your mind, just visit the app to subscribe again.</p>\n    "

  /** `build_unsubscribe_page`. */
  function UnsubscribePage(name: Option<string>): Html {
    Html("Unsubscribed", "You've been unsubscribed",
      UnsubscribedHead + NameBlurb(name) + UnsubscribedTail,
      "\U{A9} Price Drop Notifier")
  }

  /** The blurb is empty exactly when the name is missing or empty; otherwise it carries the escaped name. */
  lemma BlurbMeaning(name: Option<string>)
    ensures NameBlurb(name) == [] <==> name.None? || name.value == []
    ensures name.Some? && name.value != [] ==> Occurs(Esc(name.value), NameBlurb(name))
  {
    if name.Some? && name.value != [] {
      var e := Esc(name.value);
      var p0, p1 := " from <strong>", "</strong> price alerts";
      OccursSelf(e);
      OccursLeft(e, p0, e);
      OccursRight(e, p0 + e, p1);
    }
  }

  /** A non-empty name shows, escaped, in the unsubscribe page body. */
  lemma UnsubscribeNamesProduct(n: string)
    requires n != []
    ensures Occurs(Esc(n), UnsubscribePage(Some(n)).body)
  {
    BlurbMeaning(Some(n));
    OccursLeft(Esc(n), UnsubscribedHead, NameBlurb(Some(n)));
    OccursRight(Esc(n), UnsubscribedHead + NameBlurb(Some(n)), UnsubscribedTail);
  }

  /** The blurb never carries a raw `<`, `>` or `"` from the name: the only ones are its own tags. */
  lemma BlurbEscapes(n: string)
    requires n != []
    ensures NameBlurb(Some(n)) == " from <strong>" + Esc(n) + "</strong> price alerts"
    ensures '<' !in Esc(n) && '>' !in Esc(n) && '"' !in Esc(n)
  {
    EscNoRaw(n);
  }
}
