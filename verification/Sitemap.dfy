/**
 The per-tenant sitemap (backend/src/controllers/sitemap.controller.js): escaping, the
 XML printing loop with a reader that undoes it, and the one-hour cache per tenant.
 */
module Sitemap {
  import opened Wrappers
  import opened JsStrings

  // ---------------------------------------------------------------- escaping

  function EscapeXml(s: string): string {
    var s1 := ReplaceAll(s, '&', "&amp;");
    var s2 := ReplaceAll(s1, '<', "&lt;");
    var s3 := ReplaceAll(s2, '>', "&gt;");
    var s4 := ReplaceAll(s3, '\"', "&quot;");
    ReplaceAll(s4, '\'', "&apos;")
  }

  function EscapeChar(c: char): (e: string)
    ensures e != [] && '<' !in e
  {
    match c
    case '&' => "&amp;"
    case '<' => "&lt;"
    case '>' => "&gt;"
    case '\"' => "&quot;"
    case '\'' => "&apos;"
    case _ => [c]
  }

  function EscapeEach(s: string): (e: string)
    ensures '<' !in e
  {
    if s == [] then [] else EscapeChar(s[0]) + EscapeEach(s[1..])
  }

  /** No replacement text contains a character replaced later, so one pass per character suffices. */
  lemma {:induction false} EscapeIsPerCharacter(s: string)
    ensures EscapeXml(s) == EscapeEach(s)
  {
    if s != [] {
      EscapeIsPerCharacter(s[1..]);
      assert s == [s[0]] + s[1..];
      EscapeConcat([s[0]], s[1..]);
      EscapeOne(s[0]);
    }
  }

  lemma EscapeConcat(a: string, b: string)
    ensures EscapeXml(a + b) == EscapeXml(a) + EscapeXml(b)
  {
    hide ReplaceAll;
    ReplaceAllConcat(a, b, '&', "&amp;");
    var (a1, b1) := (ReplaceAll(a, '&', "&amp;"), ReplaceAll(b, '&', "&amp;"));
    ReplaceAllConcat(a1, b1, '<', "&lt;");
    var (a2, b2) := (ReplaceAll(a1, '<', "&lt;"), ReplaceAll(b1, '<', "&lt;"));
    ReplaceAllConcat(a2, b2, '>', "&gt;");
    var (a3, b3) := (ReplaceAll(a2, '>', "&gt;"), ReplaceAll(b2, '>', "&gt;"));
    ReplaceAllConcat(a3, b3, '\"', "&quot;");
    var (a4, b4) := (ReplaceAll(a3, '\"', "&quot;"), ReplaceAll(b3, '\"', "&quot;"));
    ReplaceAllConcat(a4, b4, '\'', "&apos;");
  }

  lemma {:induction false} ReplaceNone(s: string, c: char, into: string)
    requires c !in s
    ensures ReplaceAll(s, c, into) == s
  {
    if s != [] {
      ReplaceNone(s[1..], c, into);
      assert s == [s[0]] + s[1..];
    }
  }

  lemma ReplaceSelf(c: char, into: string)
    ensures ReplaceAll([c], c, into) == into
  {
    assert [c][1..] == [];
  }

  lemma EscapeOne(c: char)
    ensures EscapeXml([c]) == EscapeChar(c)
  {
    hide ReplaceAll;
    match c
    case '&' =>
      ReplaceSelf('&', "&amp;");
      LaterKeep("&amp;");
    case '<' =>
      ReplaceNone([c], '&', "&amp;");
      ReplaceSelf('<', "&lt;");
      LaterKeep("&lt;");
    case '>' =>
      ReplaceNone([c], '&', "&amp;");
      ReplaceNone([c], '<', "&lt;");
      ReplaceSelf('>', "&gt;");
      LaterKeep("&gt;");
    case '\"' =>
      ReplaceNone([c], '&', "&amp;");
      ReplaceNone([c], '<', "&lt;");
      ReplaceNone([c], '>', "&gt;");
      ReplaceSelf('\"', "&quot;");
      LaterKeep("&quot;");
    case '\'' =>
      ReplaceNone([c], '&', "&amp;");
      ReplaceNone([c], '<', "&lt;");
      ReplaceNone([c], '>', "&gt;");
      ReplaceNone([c], '\"', "&quot;");
      ReplaceSelf('\'', "&apos;");
    case _ =>
      ReplaceNone([c], '&', "&amp;");
      LaterKeep([c]);
  }

  /** Text without the four later characters passes through the four later replacements. */
  lemma LaterKeep(s: string)
    requires '<' !in s && '>' !in s && '\"' !in s && '\'' !in s
    ensures ReplaceAll(s, '<', "&lt;") == s && ReplaceAll(s, '>', "&gt;") == s
    ensures ReplaceAll(s, '\"', "&quot;") == s && ReplaceAll(s, '\'', "&apos;") == s
  {
    ReplaceNone(s, '<', "&lt;");
    ReplaceNone(s, '>', "&gt;");
    ReplaceNone(s, '\"', "&quot;");
    ReplaceNone(s, '\'', "&apos;");
  }

  /** The reader's side: the five predefined entities of XML 1.0, section 4.6. */
  function Unescape(s: string): string {
    if s == [] then []
    else if StartsWith(s, "&amp;") then "&" + Unescape(s[5..])
    else if StartsWith(s, "&lt;") then "<" + Unescape(s[4..])
    else if StartsWith(s, "&gt;") then ">" + Unescape(s[4..])
    else if StartsWith(s, "&quot;") then "\"" + Unescape(s[6..])
    else if StartsWith(s, "&apos;") then "\'" + Unescape(s[6..])
    else [s[0]] + Unescape(s[1..])
  }

  lemma UnescapeChar(c: char, rest: string)
    ensures Unescape(EscapeChar(c) + rest) == [c] + Unescape(rest)
  {
    var s := EscapeChar(c) + rest;
    assert s[|EscapeChar(c)|..] == rest;
    if c in "&<>\"\'" {
      assert c != '&' ==> s[1] != 'a' || s[2] != 'm';
      assert c != '<' ==> s[1] != 'l';
      assert c != '>' ==> s[1] != 'g';
      assert c != '\"' ==> s[1] != 'q';
      EntityStarts(c, rest);
    } else {
      assert s[0] == c;
    }
  }

  lemma EntityStarts(c: char, rest: string)
    requires c in "&<>\"\'"
    ensures StartsWith(EscapeChar(c) + rest, EscapeChar(c))
  {
  }

  /** Unescaping undoes the five successive replacements. */
  lemma {:induction false} UnescapeEscape(s: string)
    ensures Unescape(EscapeXml(s)) == s
  {
    EscapeIsPerCharacter(s);
    if s != [] {
      EscapeIsPerCharacter(s[1..]);
      UnescapeChar(s[0], EscapeEach(s[1..]));
      UnescapeEscape(s[1..]);
      assert s == [s[0]] + s[1..];
    }
  }

  // ---------------------------------------------------------------- printing

  datatype Url = Url(loc: string, lastmod: Option<string>, changefreq: string, priority: string)

  const URLSET := "<urlset xmlns=\"http://www.sitemaps.org/schemas/sitemap/0.9\">"
  const PROLOG := "<?xml version=\"1.0\" encoding=\"UTF-8\"?>"
  const HEAD := PROLOG + "\n" + URLSET + "\n"
  const TAIL := "</urlset>"

  const LOC := "  <url>\n    <loc>"
  const LASTMOD := "    <lastmod>"
  const FREQ := "    <changefreq>"
  const PRIORITY := "    <priority>"
  const END_LOC := "</loc>\n"
  const END_LASTMOD := "</lastmod>\n"
  const END_FREQ := "</changefreq>\n"
  const END_PRIORITY := "</priority>\n  </url>\n"

  function Element(open: string, text: string, close: string): string { open + text + close }

  function LastmodLine(u: Url): string {
    if u.lastmod.Some? && u.lastmod.value != "" then Element(LASTMOD, u.lastmod.value, END_LASTMOD) else ""
  }

  function Entry(u: Url): string {
    Element(LOC, EscapeXml(u.loc), END_LOC) + LastmodLine(u)
    + Element(FREQ, u.changefreq, END_FREQ) + Element(PRIORITY, u.priority, END_PRIORITY)
  }

  function Entries(urls: seq<Url>): string {
    if urls == [] then [] else Entry(urls[0]) + Entries(urls[1..])
  }

  function Document(urls: seq<Url>): string { HEAD + Entries(urls) + TAIL }

  lemma {:induction false} EntriesSnoc(urls: seq<Url>, u: Url)
    ensures Entries(urls + [u]) == Entries(urls) + Entry(u)
  {
    hide Entry;
    if urls == [] {
      assert ([] + [u])[1..] == [];
      assert Entries([u]) == Entry(u) + Entries([]);
    } else {
      assert (urls + [u])[1..] == urls[1..] + [u];
      EntriesSnoc(urls[1..], u);
      Regroup(Entry(urls[0]), Entries(urls[1..]), Entry(u));
    }
  }

  lemma Regroup(a: string, b: string, c: string)
    ensures a + b + c == a + (b + c)
  {
  }

  /** Appending an entry line by line appends the entry. */
  lemma EntryInLines(before: string, u: Url)
    ensures before + "  <url>\n" + Element("    <loc>", EscapeXml(u.loc), END_LOC) + LastmodLine(u)
            + Element(FREQ, u.changefreq, END_FREQ) + Element("    <priority>", u.priority, "</priority>\n")
            + "  </url>\n"
            == before + Entry(u)
  {
    var (l, f) := (LastmodLine(u), Element(FREQ, u.changefreq, END_FREQ));
    var first := Element("    <loc>", EscapeXml(u.loc), END_LOC);
    var last := Element("    <priority>", u.priority, "</priority>\n");
    assert "  <url>\n" + first == Element(LOC, EscapeXml(u.loc), END_LOC);
    assert last + "  </url>\n" == Element(PRIORITY, u.priority, END_PRIORITY);
    hide *;
    Regroup(before, "  <url>\n", first);
    Regroup(before, "  <url>\n" + first, l);
    Regroup(before, "  <url>\n" + first + l, f);
    Regroup(before, "  <url>\n" + first + l + f, last);
    Regroup(before, "  <url>\n" + first + l + f + last, "  </url>\n");
    Regroup("  <url>\n" + first + l + f, last, "  </url>\n");
  }

  method Print(urls: seq<Url>) returns (xml: string)
    ensures xml == Document(urls)
  {
    hide Entries, EscapeXml, Element, Entry;
    xml := PROLOG + "\n";
    xml := xml + URLSET + "\n";
    assert Entries(urls[..0]) == "" by { NoEntries(urls); }
    for i := 0 to |urls|
      invariant xml == HEAD + Entries(urls[..i])
    {
      var u := urls[i];
      ghost var before := xml;
      xml := xml + "  <url>\n";
      xml := xml + Element("    <loc>", EscapeXml(u.loc), "</loc>\n");
      if u.lastmod.Some? && u.lastmod.value != "" {
        xml := xml + Element("    <lastmod>", u.lastmod.value, "</lastmod>\n");
      }
      xml := xml + Element("    <changefreq>", u.changefreq, "</changefreq>\n");
      xml := xml + Element("    <priority>", u.priority, "</priority>\n");
      xml := xml + "  </url>\n";
      assert xml == before + Entry(u) by { EntryInLines(before, u); }
      EntriesSnoc(urls[..i], u);
      assert urls[..i + 1] == urls[..i] + [u];
      Regroup(HEAD, Entries(urls[..i]), Entry(u));
    }
    assert urls[..|urls|] == urls;
    xml := xml + "</urlset>";
  }

  lemma NoEntries(urls: seq<Url>)
    ensures Entries(urls[..0]) == ""
  {
  }

  // ---------------------------------------------------------------- reading

  function After(s: string, prefix: string): (r: Option<string>)
    ensures r.Some? ==> s == prefix + r.value
  {
    if StartsWith(s, prefix) then Some(s[|prefix|..]) else None
  }

  /** The text up to the next `<`. */
  function TextOf(s: string): (t: string)
    ensures t <= s
  {
    if s == [] || s[0] == '<' then [] else [s[0]] + TextOf(s[1..])
  }

  function ReadElement(s: string, open: string, close: string): (r: Option<(string, string)>)
    requires open != ""
    ensures r.Some? ==> |r.value.1| < |s|
  {
    match After(s, open)
    case None => None
    case Some(rest) =>
      var text := TextOf(rest);
      match After(rest[|text|..], close)
      case None => None
      case Some(left) => Some((text, left))
  }

  function ReadLastmod(s: string): (r: (Option<string>, string))
    ensures |r.1| <= |s|
  {
    match ReadElement(s, LASTMOD, END_LASTMOD)
    case Some((text, left)) => (Some(text), left)
    case None => (None, s)
  }

  function ReadUrl(s: string): (r: Option<(Url, string)>)
    ensures r.Some? ==> |r.value.1| < |s|
  {
    match ReadElement(s, LOC, END_LOC)
    case None => None
    case Some((loc, s1)) =>
      var (lastmod, s2) := ReadLastmod(s1);
      match ReadElement(s2, FREQ, END_FREQ)
      case None => None
      case Some((freq, s3)) =>
        match ReadElement(s3, PRIORITY, END_PRIORITY)
        case None => None
        case Some((priority, s4)) => Some((Url(Unescape(loc), lastmod, freq, priority), s4))
  }

  function ReadUrls(s: string): Option<seq<Url>>
    decreases |s|
  {
    if s == TAIL then Some([])
    else
      match ReadUrl(s)
      case None => None
      case Some((u, rest)) =>
        match ReadUrls(rest)
        case None => None
        case Some(us) => Some([u] + us)
  }

  function ReadDocument(s: string): Option<seq<Url>> {
    match After(s, HEAD)
    case None => None
    case Some(rest) => ReadUrls(rest)
  }

  lemma {:induction false} TextStopsAt(t: string, rest: string)
    requires '<' !in t && rest != "" && rest[0] == '<'
    ensures TextOf(t + rest) == t
  {
    if t == [] {
      assert t + rest == rest;
    } else {
      assert (t + rest)[1..] == t[1..] + rest;
      TextStopsAt(t[1..], rest);
      assert t == [t[0]] + t[1..];
    }
  }

  lemma AfterPrefix(prefix: string, rest: string)
    ensures After(prefix + rest, prefix) == Some(rest)
  {
  }

  lemma ReadsElement(open: string, text: string, close: string, rest: string)
    requires open != "" && '<' !in text && close != "" && close[0] == '<'
    ensures ReadElement(Element(open, text, close) + rest, open, close) == Some((text, rest))
  {
    assert Element(open, text, close) + rest == open + (text + (close + rest));
    AfterPrefix(open, text + (close + rest));
    TextStopsAt(text, close + rest);
    assert (text + (close + rest))[|text|..] == close + rest;
    AfterPrefix(close, rest);
  }

  /** What the code prints unescaped must not open a tag; a last-modified date is never empty. */
  predicate Printable(u: Url) {
    && '<' !in u.changefreq && '<' !in u.priority
    && (u.lastmod.Some? ==> u.lastmod.value != "" && '<' !in u.lastmod.value)
  }

  lemma ReadsLastmod(u: Url, rest: string)
    requires Printable(u)
    requires StartsWith(rest, FREQ)
    ensures ReadLastmod(LastmodLine(u) + rest) == (u.lastmod, rest)
  {
    if u.lastmod.Some? {
      ReadsElement(LASTMOD, u.lastmod.value, END_LASTMOD, rest);
    } else {
      assert LastmodLine(u) + rest == rest;
      assert rest[5] == FREQ[5] != LASTMOD[5];
    }
  }

  lemma ReadsUrl(u: Url, rest: string)
    requires Printable(u)
    ensures ReadUrl(Entry(u) + rest) == Some((u, rest))
  {
    EscapeIsPerCharacter(u.loc);
    UnescapeEscape(u.loc);
    var loc := Element(LOC, EscapeXml(u.loc), END_LOC);
    var mod := LastmodLine(u);
    var freq := Element(FREQ, u.changefreq, END_FREQ);
    var priority := Element(PRIORITY, u.priority, END_PRIORITY);
    var s3 := priority + rest;
    var s2 := freq + s3;
    var s1 := mod + s2;
    assert StartsWith(s2, FREQ);
    assert Entry(u) == loc + mod + freq + priority;
    hide Entry, Element, LastmodLine, ReadElement, ReadLastmod, EscapeXml, Unescape, StartsWith;
    assert Entry(u) + rest == loc + s1 by {
      Regroup(loc + mod + freq, priority, rest);
      Regroup(loc + mod, freq, s3);
      Regroup(loc, mod, s2);
    }
    ReadsElement(LOC, EscapeXml(u.loc), END_LOC, s1);
    ReadsLastmod(u, s2);
    ReadsElement(FREQ, u.changefreq, END_FREQ, s3);
    ReadsElement(PRIORITY, u.priority, END_PRIORITY, rest);
  }

  lemma ReadUrlsCons(doc: string, u: Url, rest: string, us: seq<Url>)
    requires doc != TAIL && ReadUrl(doc) == Some((u, rest)) && ReadUrls(rest) == Some(us)
    ensures ReadUrls(doc) == Some([u] + us)
  {
  }

  lemma {:induction false} ReadsUrls(urls: seq<Url>)
    requires forall u :: u in urls ==> Printable(u)
    ensures ReadUrls(Entries(urls) + TAIL) == Some(urls)
  {
    hide Entry, ReadUrl, Printable, ReadUrls;
    if urls == [] {
      assert Entries(urls) + TAIL == TAIL;
      assert ReadUrls(TAIL) == Some([]) by { ReadsTail(); }
    } else {
      var rest := Entries(urls[1..]) + TAIL;
      var doc := Entry(urls[0]) + rest;
      assert Entries(urls) + TAIL == doc by { Regroup(Entry(urls[0]), Entries(urls[1..]), TAIL); }
      ReadsUrls(urls[1..]);
      hide Entries;
      ReadsUrl(urls[0], rest);
      assert doc != TAIL by { EntryStarts(urls[0], rest); }
      ReadUrlsCons(doc, urls[0], rest, urls[1..]);
      assert urls == [urls[0]] + urls[1..];
    }
  }

  lemma ReadsTail()
    ensures ReadUrls(TAIL) == Some([])
  {
  }

  lemma EntryStarts(u: Url, rest: string)
    ensures Entry(u) + rest != TAIL
  {
    assert (Entry(u) + rest)[0] == Element(LOC, EscapeXml(u.loc), END_LOC)[0] == LOC[0] == ' ';
    assert TAIL[0] == '<';
  }

  /** Round trip: reading the printed sitemap gives back the URL list, with every optional date. */
  lemma ReadPrinted(urls: seq<Url>)
    requires forall u :: u in urls ==> Printable(u)
    ensures ReadDocument(Document(urls)) == Some(urls)
  {
    hide Entries, ReadUrls;
    ReadsUrls(urls);
    Regroup(HEAD, Entries(urls), TAIL);
    AfterPrefix(HEAD, Entries(urls) + TAIL);
  }

  // ---------------------------------------------------------------- the controller

  /** A listing or category row: its slug and, if it has one, its ISO date of last update. */
  datatype Row = Row(slug: string, updated: Option<string>)

  /** What the store holds for one tenant; `None` where the model is missing. */
  datatype Catalogue = Catalogue(listings: Option<seq<Row>>, categories: Option<seq<Row>>)

  const CACHE_TTL: int := 60 * 60 * 1000
  const MAX_LISTINGS: nat := 50000

  function Rows(rows: Option<seq<Row>>): seq<Row> { if rows.Some? then rows.value else [] }

  function Limited(rows: seq<Row>): seq<Row> { if |rows| <= MAX_LISTINGS then rows else rows[..MAX_LISTINGS] }

  function ProductUrl(host: string, row: Row, enc: string -> string): Url {
    Url("https://" + host + "/p/" + enc(row.slug), row.updated, "weekly", "0.8")
  }

  function CategoryUrl(host: string, row: Row, enc: string -> string): Url {
    Url("https://" + host + "/search?category=" + enc(row.slug), row.updated, "weekly", "0.6")
  }

  function Products(host: string, rows: seq<Row>, enc: string -> string): seq<Url> {
    seq(|rows|, i requires 0 <= i < |rows| => ProductUrl(host, rows[i], enc))
  }

  function Categories(host: string, rows: seq<Row>, enc: string -> string): seq<Url> {
    seq(|rows|, i requires 0 <= i < |rows| => CategoryUrl(host, rows[i], enc))
  }

  /** Home page, then products, then categories; `enc` is `encodeURIComponent`. */
  function UrlsOf(host: string, c: Catalogue, enc: string -> string): seq<Url> {
    [Url("https://" + host, None, "daily", "1.0")]
    + Products(host, Limited(Rows(c.listings)), enc)
    + Categories(host, Rows(c.categories), enc)
  }

  /**
   What is listed: the home page, a page for each of the first 50000 products, a search page
   for each category, in that order, each under the request's own host.
   */
  lemma AddressesAre(host: string, c: Catalogue, enc: string -> string)
    ensures var (urls, ls, cs) := (UrlsOf(host, c, enc), Rows(c.listings), Rows(c.categories));
            var n := if |ls| <= 50000 then |ls| else 50000;
            && |urls| == 1 + n + |cs|
            && urls[0] == Url("https://" + host, None, "daily", "1.0")
            && (forall i :: 0 <= i < n ==>
                  && urls[1 + i].loc == "https://" + host + "/p/" + enc(ls[i].slug)
                  && urls[1 + i].lastmod == ls[i].updated
                  && urls[1 + i].changefreq == "weekly" && urls[1 + i].priority == "0.8")
            && (forall i :: 0 <= i < |cs| ==>
                  && urls[1 + n + i].loc == "https://" + host + "/search?category=" + enc(cs[i].slug)
                  && urls[1 + n + i].lastmod == cs[i].updated
                  && urls[1 + n + i].changefreq == "weekly" && urls[1 + n + i].priority == "0.6")
  {
  }

  datatype Cached = Cached(xml: string, expiresAt: int)

  datatype Request = Request(tenantId: Option<string>, host: string, now: int)

  predicate Fresh(cache: map<string, Cached>, tenant: string, now: int) {
    tenant in cache && now < cache[tenant].expiresAt
  }

  function Body(cache: map<string, Cached>, req: Request, c: Catalogue, enc: string -> string): string {
    match req.tenantId
    case None => PROLOG + URLSET + TAIL
    case Some(t) => if Fresh(cache, t, req.now) then cache[t].xml else Document(UrlsOf(req.host, c, enc))
  }

  function CacheAfter(cache: map<string, Cached>, req: Request, c: Catalogue, enc: string -> string)
    : map<string, Cached>
  {
    match req.tenantId
    case None => cache
    case Some(t) =>
      if Fresh(cache, t, req.now) then cache
      else cache[t := Cached(Document(UrlsOf(req.host, c, enc)), req.now + CACHE_TTL)]
  }

  /** A request without a tenant gets an empty list and leaves the cache alone. */
  lemma NoTenantGetsNothing(cache: map<string, Cached>, host: string, now: int, c: Catalogue, enc: string -> string)
    ensures Body(cache, Request(None, host, now), c, enc)
            == "<?xml version=\"1.0\" encoding=\"UTF-8\"?>"
               + "<urlset xmlns=\"http://www.sitemaps.org/schemas/sitemap/0.9\"></urlset>"
    ensures CacheAfter(cache, Request(None, host, now), c, enc) == cache
  {
  }

  class Controller {
    var cache: map<string, Cached>

    constructor ()
      ensures cache == map[]
    {
      cache := map[];
    }

    method Generate(req: Request, c: Catalogue, enc: string -> string) returns (body: string)
      modifies this
      ensures body == Body(old(cache), req, c, enc)
      ensures cache == CacheAfter(old(cache), req, c, enc)
    {
      hide Document, Products, Categories, ProductUrl, CategoryUrl;
      if req.tenantId.None? { return PROLOG + URLSET + "</urlset>"; }
      var tenant := req.tenantId.value;
      if tenant in cache && cache[tenant].expiresAt > req.now { return cache[tenant].xml; }
      var urls := [Url("https://" + req.host, None, "daily", "1.0")];
      ghost var home := urls;
      NoRows(req.host, enc);
      if c.listings.Some? {
        var listings := Limited(c.listings.value);
        for i := 0 to |listings|
          invariant cache == old(cache)
          invariant urls == home + Products(req.host, listings[..i], enc)
        {
          urls := urls + [ProductUrl(req.host, listings[i], enc)];
          ProductsSnoc(req.host, listings, i, enc);
        }
        assert listings[..|listings|] == listings;
      }
      ghost var pages := urls;
      assert pages == home + Products(req.host, Limited(Rows(c.listings)), enc);
      if c.categories.Some? {
        var categories := c.categories.value;
        for i := 0 to |categories|
          invariant cache == old(cache)
          invariant urls == pages + Categories(req.host, categories[..i], enc)
        {
          urls := urls + [CategoryUrl(req.host, categories[i], enc)];
          CategoriesSnoc(req.host, categories, i, enc);
        }
        assert categories[..|categories|] == categories;
      }
      assert urls == UrlsOf(req.host, c, enc);
      body := Print(urls);
      cache := cache[tenant := Cached(body, req.now + CACHE_TTL)];
    }
  }

  lemma NoRows(host: string, enc: string -> string)
    ensures forall rows: seq<Row> :: |rows| == 0 ==>
              Products(host, rows, enc) == [] && Categories(host, rows, enc) == []
  {
  }

  lemma ProductsSnoc(host: string, rows: seq<Row>, i: nat, enc: string -> string)
    requires i < |rows|
    ensures Products(host, rows[..i + 1], enc) == Products(host, rows[..i], enc) + [ProductUrl(host, rows[i], enc)]
  {
  }

  lemma CategoriesSnoc(host: string, rows: seq<Row>, i: nat, enc: string -> string)
    requires i < |rows|
    ensures Categories(host, rows[..i + 1], enc)
            == Categories(host, rows[..i], enc) + [CategoryUrl(host, rows[i], enc)]
  {
  }

  // ---------------------------------------------------------------- what crawlers read

  /** A request together with the catalogue it found. */
  datatype Visit = Visit(req: Request, catalogue: Catalogue)

  function Run(cache: map<string, Cached>, vs: seq<Visit>, enc: string -> string): map<string, Cached> {
    if vs == [] then cache
    else CacheAfter(Run(cache, vs[..|vs| - 1], enc), vs[|vs| - 1].req, vs[|vs| - 1].catalogue, enc)
  }

  predicate Ascending(vs: seq<Visit>) { forall i, j :: 0 <= i < j < |vs| ==> vs[i].req.now <= vs[j].req.now }

  /** Visit `i` filled the cache for tenant `t` at most an hour before `now`. */
  predicate Source(vs: seq<Visit>, i: nat, t: string, now: int, xml: string, enc: string -> string)
    requires i < |vs|
  {
    && vs[i].req.tenantId == Some(t)
    && now < vs[i].req.now + CACHE_TTL
    && xml == Document(UrlsOf(vs[i].req.host, vs[i].catalogue, enc))
  }

  lemma {:induction false} CachedHasSource(vs: seq<Visit>, t: string, now: int, enc: string -> string)
    requires Fresh(Run(map[], vs, enc), t, now)
    ensures exists i :: 0 <= i < |vs| && Source(vs, i, t, now, Run(map[], vs, enc)[t].xml, enc)
  {
    hide Document, UrlsOf;
    var n := |vs| - 1;
    var cache := Run(map[], vs[..n], enc);
    var after := Run(map[], vs, enc);
    if vs[n].req.tenantId == Some(t) && !Fresh(cache, t, vs[n].req.now) {
      assert Source(vs, n, t, now, after[t].xml, enc);
    } else {
      assert after[t] == cache[t];
      CachedHasSource(vs[..n], t, now, enc);
      var i :| 0 <= i < n && Source(vs[..n], i, t, now, cache[t].xml, enc);
      assert Source(vs, i, t, now, after[t].xml, enc);
    }
  }

  /**
   Every response to a request with a tenant is the sitemap that this tenant's own catalogue
   gave to this visit or to one at most an hour earlier.
   */
  lemma ServedIsRecent(vs: seq<Visit>, v: Visit, t: string, enc: string -> string)
    requires v.req.tenantId == Some(t)
    ensures var body := Body(Run(map[], vs, enc), v.req, v.catalogue, enc);
            || body == Document(UrlsOf(v.req.host, v.catalogue, enc))
            || exists i :: 0 <= i < |vs| && Source(vs, i, t, v.req.now, body, enc)
  {
    hide Document, UrlsOf;
    if Fresh(Run(map[], vs, enc), t, v.req.now) { CachedHasSource(vs, t, v.req.now, enc); }
  }

  /** The catalogue rows carry printable dates. */
  predicate Dated(rows: seq<Row>) {
    forall i :: 0 <= i < |rows| && rows[i].updated.Some? ==>
      rows[i].updated.value != "" && '<' !in rows[i].updated.value
  }

  /** What a reader gets from a fresh response: home page, products and categories, in that order. */
  lemma FreshReadsBack(host: string, c: Catalogue, enc: string -> string)
    requires Dated(Rows(c.listings)) && Dated(Rows(c.categories))
    ensures ReadDocument(Document(UrlsOf(host, c, enc))) == Some(UrlsOf(host, c, enc))
  {
    forall u | u in UrlsOf(host, c, enc) ensures Printable(u) {
    }
    hide Document, UrlsOf, ReadDocument;
    ReadPrinted(UrlsOf(host, c, enc));
  }

  /** The visit that last printed and stored the sitemap of tenant `t`. */
  function LastFill(vs: seq<Visit>, t: string, enc: string -> string): Option<Visit> {
    if vs == [] then None
    else
      var n := |vs| - 1;
      if vs[n].req.tenantId == Some(t) && !Fresh(Run(map[], vs[..n], enc), t, vs[n].req.now) then Some(vs[n])
      else LastFill(vs[..n], t, enc)
  }

  lemma {:induction false} CachedIsLastFill(vs: seq<Visit>, t: string, enc: string -> string)
    ensures var cache := Run(map[], vs, enc);
            && (t in cache <==> LastFill(vs, t, enc).Some?)
            && (t in cache ==>
                  var v := LastFill(vs, t, enc).value;
                  v in vs && cache[t] == Cached(Document(UrlsOf(v.req.host, v.catalogue, enc)), v.req.now + CACHE_TTL))
  {
    hide Document, UrlsOf;
    if vs != [] {
      var n := |vs| - 1;
      assert vs == vs[..n] + [vs[n]];
      CachedIsLastFill(vs[..n], t, enc);
    }
  }

  predicate DatedCatalogue(c: Catalogue) { Dated(Rows(c.listings)) && Dated(Rows(c.categories)) }

  /** The address of the home page a reader finds in a response. */
  function HomePage(body: string): Option<string> {
    match ReadDocument(body)
    case None => None
    case Some(urls) => if urls == [] then None else Some(urls[0].loc)
  }

  lemma HomePageOf(host: string, c: Catalogue, enc: string -> string)
    requires DatedCatalogue(c)
    ensures HomePage(Document(UrlsOf(host, c, enc))) == Some("https://" + host)
  {
    FreshReadsBack(host, c, enc);
    assert UrlsOf(host, c, enc)[0].loc == "https://" + host;
  }

  lemma HostIsInUrl(host: string, other: string)
    requires "https://" + host == "https://" + other
    ensures host == other
  {
    assert ("https://" + host)[8..] == host && ("https://" + other)[8..] == other;
  }

  /**
   The cache key is the tenant alone while the URLs contain the host. Over every run, a visit
   is served its own host's URLs exactly when nothing fresh is cached for its tenant, or the
   visit that filled the entry came through the same host; a fresh entry is read back as the
   whole list of the visit that filled it.
   */
  lemma OwnHostServedIff(vs: seq<Visit>, v: Visit, t: string, enc: string -> string)
    requires v.req.tenantId == Some(t) && DatedCatalogue(v.catalogue)
    requires forall i :: 0 <= i < |vs| ==> DatedCatalogue(vs[i].catalogue)
    ensures var cache := Run(map[], vs, enc);
            HomePage(Body(cache, v.req, v.catalogue, enc)) == Some("https://" + v.req.host)
            <==> !Fresh(cache, t, v.req.now)
                 || (LastFill(vs, t, enc).Some? && LastFill(vs, t, enc).value.req.host == v.req.host)
    ensures var cache := Run(map[], vs, enc);
            Fresh(cache, t, v.req.now) ==>
              var filled := LastFill(vs, t, enc);
              filled.Some? && ReadDocument(Body(cache, v.req, v.catalogue, enc))
                              == Some(UrlsOf(filled.value.req.host, filled.value.catalogue, enc))
  {
    hide Document, UrlsOf, HomePage, Dated, Rows, Run, LastFill, ReadDocument;
    CachedIsLastFill(vs, t, enc);
    HomePageOf(v.req.host, v.catalogue, enc);
    if Fresh(Run(map[], vs, enc), t, v.req.now) {
      var filled := LastFill(vs, t, enc).value;
      HomePageOf(filled.req.host, filled.catalogue, enc);
      FreshReadsBack(filled.req.host, filled.catalogue, enc);
      if "https://" + filled.req.host == "https://" + v.req.host { HostIsInUrl(filled.req.host, v.req.host); }
    }
  }

  /**
   The cache key is the tenant alone while the URLs contain the host: within the hour, a
   second host of the tenant is served the first host's URLs, whichever host it is.
   */
  lemma SecondHostGetsFirst(t: string, host: string, other: string, c: Catalogue, enc: string -> string,
                            now: int, later: int)
    requires now <= later < now + CACHE_TTL
    requires Dated(Rows(c.listings)) && Dated(Rows(c.categories))
    ensures var vs := [Visit(Request(Some(t), host, now), c)];
            ReadDocument(Body(Run(map[], vs, enc), Request(Some(t), other, later), c, enc))
            == Some(UrlsOf(host, c, enc))
    ensures UrlsOf(host, c, enc) == UrlsOf(other, c, enc) ==> host == other
  {
    var vs := [Visit(Request(Some(t), host, now), c)];
    assert vs[..0] == [];
    assert Run(map[], vs, enc) == CacheAfter(map[], vs[0].req, c, enc);
    FreshReadsBack(host, c, enc);
    if UrlsOf(host, c, enc) == UrlsOf(other, c, enc) {
      assert UrlsOf(host, c, enc)[0].loc == UrlsOf(other, c, enc)[0].loc;
      assert ("https://" + host)[8..] == host && ("https://" + other)[8..] == other;
    }
  }
}
