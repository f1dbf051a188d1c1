/**
 * The pieces of the Sitemaps XML format (protocol 0.9 of sitemaps.org) that
 * both sitemap builders share: the XML declaration, the `<urlset>` header
 * with its namespace and schema attributes, one `<url>` block per page and
 * the closing tag; and the facts about how often `<url>` occurs in them.
 */
module SitemapXml {

  import Text

  datatype Page = Page(url: string, changefreq: string, priority: string, lastmod: string)

  const UrlTag := "<url>"

  const XmlDeclMarker := "<?xml version=\"1.0\""
  const XmlDecl := XmlDeclMarker + " encoding=\"UTF-8\"?>\n"
  const UrlsetMarker := "<url" + "set"
  // each line is split into short literals so that character facts about it stay cheap
  const AttributesLine1 := " xmlns=\"http://www.sitemaps.org/" + "schemas/sitemap/0.9\"\n"
  const AttributesLine2 := "        xmlns:xsi=\"http://www.w3.org/" + "2001/XMLSchema-instance\"\n"
  const AttributesLine3 := "        xsi:schemaLocation=\"http://" + "www.sitemaps.org/schemas/sitemap/0.9\n"
  const AttributesLine4 := "        http://www.sitemaps.org/" + "schemas/sitemap/0.9/sitemap.xsd\">\n"
  const UrlsetAttributes := AttributesLine1 + AttributesLine2 + AttributesLine3 + AttributesLine4
  /** Everything before the first `<url>` block; it ends with a newline. */
  const Header := XmlDecl + UrlsetMarker + UrlsetAttributes
  const UrlsetClose := "</" + "urlset>"

  const BlockOpen := "  " + UrlTag + "\n    <loc>"
  const LocClose := "</loc>\n    <lastmod>"
  const LastmodClose := "</lastmod>\n    <changefreq>"
  const ChangefreqClose := "</changefreq>\n    <priority>"
  const BlockClose := "</priority>\n  </" + "url>"

  /** One page's `<url>` block, from its opening indentation to `</url>`, without a trailing newline. */
  function UrlBlock(domain: string, page: Page): string {
    BlockOpen + (domain + page.url) + LocClose + page.lastmod + LastmodClose
    + page.changefreq + ChangefreqClose + page.priority + BlockClose
  }

  /** A field text in which the pattern `/<url>/g` finds nothing. */
  predicate Clean(field: string) {
    Text.CountMatches(field, UrlTag) == 0
  }

  predicate CleanPage(page: Page) {
    Clean(page.url) && Clean(page.changefreq) && Clean(page.priority) && Clean(page.lastmod)
  }

  /** A domain that brings no `<url>` of its own and cannot start one with the page's url. */
  predicate CleanDomain(domain: string) {
    '<' !in domain && (domain == [] || domain[|domain| - 1] !in "<url")
  }

  lemma UrlTagShape()
    ensures |UrlTag| == 5 && UrlTag[..4] == "<url" && UrlTag[1..] == "url>"
  {
  }

  /** Counting splits at a seam whose left side ends in a character that cannot begin or continue `<url>` before its end. */
  lemma SplitAfter(a: string, b: string)
    requires a == [] || a[|a| - 1] !in "<url"
    ensures Text.CountMatches(a + b, UrlTag) == Text.CountMatches(a, UrlTag) + Text.CountMatches(b, UrlTag)
  {
    UrlTagShape();
    Text.CountMatchesConcatByLast(a, b, UrlTag);
  }

  /** Counting splits at a seam whose right side starts with a character that cannot continue `<url>`. */
  lemma SplitBefore(a: string, b: string)
    requires b == [] || b[0] !in "url>"
    ensures Text.CountMatches(a + b, UrlTag) == Text.CountMatches(a, UrlTag) + Text.CountMatches(b, UrlTag)
  {
    UrlTagShape();
    Text.CountMatchesConcatByFirst(a, b, UrlTag);
  }

  lemma NoUrlTagWithout(s: string, c: char)
    requires c in UrlTag && c !in s
    ensures Clean(s)
  {
    Text.CountMatchesAbsent(s, UrlTag, c);
  }

  lemma ShortIsClean(s: string)
    requires |s| < 5
    ensures Clean(s)
  {
  }

  lemma XmlDeclClean()
    ensures Clean(XmlDecl) && XmlDecl[|XmlDecl| - 1] == '\n'
  {
    NoUrlTagWithout(XmlDecl, 'u');
  }

  lemma UrlsetMarkerClean()
    ensures Clean(UrlsetMarker) && UrlsetMarker[0] == '<'
  {
    ShortIsClean("<url");
    NoUrlTagWithout("set", '<');
    SplitBefore("<url", "set");
  }

  lemma Line1LacksTags() ensures '<' !in AttributesLine1 && AttributesLine1[0] == ' ' { }
  lemma Line2LacksTags() ensures '<' !in AttributesLine2 { }
  lemma Line3LacksTags() ensures '<' !in AttributesLine3 { }
  lemma Line4LacksTags() ensures '<' !in AttributesLine4 && AttributesLine4[|AttributesLine4| - 1] == '\n' { }

  lemma AttributesLackTags()
    ensures '<' !in UrlsetAttributes && UrlsetAttributes[0] == ' '
    ensures UrlsetAttributes[|UrlsetAttributes| - 1] == '\n'
  {
    Line1LacksTags();
    Line2LacksTags();
    Line3LacksTags();
    Line4LacksTags();
  }

  lemma AttributesClean()
    ensures Clean(UrlsetAttributes) && UrlsetAttributes[0] == ' '
    ensures UrlsetAttributes[|UrlsetAttributes| - 1] == '\n'
  {
    AttributesLackTags();
    NoUrlTagWithout(UrlsetAttributes, '<');
  }

  /** The header holds no `<url>` and ends with a newline. */
  lemma HeaderClean()
    ensures Clean(Header) && Header[|Header| - 1] == '\n'
  {
    XmlDeclClean();
    UrlsetMarkerClean();
    AttributesClean();
    SplitAfter(XmlDecl, UrlsetMarker);
    SplitBefore(XmlDecl + UrlsetMarker, UrlsetAttributes);
  }

  lemma BlockOpenCountsOne()
    ensures Text.CountMatches(BlockOpen, UrlTag) == 1 && BlockOpen[|BlockOpen| - 1] == '>'
  {
    ShortIsClean("  ");
    Text.CountMatchesSelf(UrlTag);
    NoUrlTagWithout("\n    <loc>", 'u');
    SplitAfter("  ", UrlTag);
    SplitBefore("  " + UrlTag, "\n    <loc>");
  }

  /** A fixed piece between two fields: it opens with `<`, closes with `>` and holds no `<url>`. */
  predicate Tag(piece: string) {
    |piece| > 0 && piece[0] == '<' && piece[|piece| - 1] == '>' && Clean(piece)
  }

  lemma LocCloseIsTag() ensures Tag(LocClose) { NoUrlTagWithout(LocClose, 'u'); }
  lemma LastmodCloseIsTag() ensures Tag(LastmodClose) { NoUrlTagWithout(LastmodClose, 'u'); }
  lemma ChangefreqCloseIsTag() ensures Tag(ChangefreqClose) { NoUrlTagWithout(ChangefreqClose, 'u'); }

  lemma BlockCloseIsTag()
    ensures Tag(BlockClose)
  {
    NoUrlTagWithout("</priority>\n  </", 'u');
    ShortIsClean("url>");
    SplitAfter("</priority>\n  </", "url>");
  }

  /** Appending a field and then a tag to text ending in `>` adds the field's count and keeps the `>` ending. */
  lemma AppendFieldAndTag(acc: string, field: string, piece: string)
    requires |acc| > 0 && acc[|acc| - 1] == '>' && Tag(piece)
    ensures Text.CountMatches(acc + field + piece, UrlTag)
      == Text.CountMatches(acc, UrlTag) + Text.CountMatches(field, UrlTag)
    ensures (acc + field + piece)[|acc + field + piece| - 1] == '>'
  {
    SplitAfter(acc, field);
    SplitBefore(acc + field, piece);
  }

  /** A block built from an opening holding one `<url>` and four tags holds exactly one `<url>` when its fields hold none. */
  lemma {:induction false} BlockCountsOne(open: string, loc: string, locClose: string, lastmod: string, lastmodClose: string,
                                          changefreq: string, changefreqClose: string, priority: string, close: string)
    requires |open| > 0 && open[|open| - 1] == '>' && Text.CountMatches(open, UrlTag) == 1
    requires Tag(locClose) && Tag(lastmodClose) && Tag(changefreqClose) && Tag(close)
    requires Clean(loc) && Clean(lastmod) && Clean(changefreq) && Clean(priority)
    ensures var block := open + loc + locClose + lastmod + lastmodClose + changefreq + changefreqClose + priority + close;
      Text.CountMatches(block, UrlTag) == 1 && block[|block| - 1] == '>'
  {
    var s1 := open + loc + locClose;
    AppendFieldAndTag(open, loc, locClose);
    var s2 := s1 + lastmod + lastmodClose;
    AppendFieldAndTag(s1, lastmod, lastmodClose);
    var s3 := s2 + changefreq + changefreqClose;
    AppendFieldAndTag(s2, changefreq, changefreqClose);
    AppendFieldAndTag(s3, priority, close);
  }

  lemma PiecesReady()
    ensures Text.CountMatches(BlockOpen, UrlTag) == 1 && BlockOpen[|BlockOpen| - 1] == '>'
    ensures Tag(LocClose) && Tag(LastmodClose) && Tag(ChangefreqClose) && Tag(BlockClose)
  {
    BlockOpenCountsOne();
    LocCloseIsTag();
    LastmodCloseIsTag();
    ChangefreqCloseIsTag();
    BlockCloseIsTag();
  }

  /** A block holds exactly one `<url>` when its fields hold none. */
  lemma UrlBlockCountsOne(domain: string, page: Page)
    requires CleanDomain(domain) && CleanPage(page)
    ensures Text.CountMatches(UrlBlock(domain, page), UrlTag) == 1
    ensures UrlBlock(domain, page)[|UrlBlock(domain, page)| - 1] == '>'
  {
    PiecesReady();
    NoUrlTagWithout(domain, '<');
    SplitAfter(domain, page.url);
    BlockCountsOne(BlockOpen, domain + page.url, LocClose, page.lastmod, LastmodClose,
                   page.changefreq, ChangefreqClose, page.priority, BlockClose);
  }

  lemma UrlsetCloseClean()
    ensures Clean(UrlsetClose)
  {
    ShortIsClean("</");
    NoUrlTagWithout("urlset>", '<');
    SplitAfter("</", "urlset>");
  }

  /** The three markers that both validators look for. */
  predicate HasMarkers(xml: string) {
    Text.Contains(xml, XmlDeclMarker) && Text.Contains(xml, UrlsetMarker) && Text.Contains(xml, UrlsetClose)
  }

  lemma {:induction false} FramedHasMarkersAt(declMarker: string, declRest: string, marker: string, attrs: string, body: string, close: string)
    ensures var xml := declMarker + declRest + marker + attrs + body + close;
      Text.Contains(xml, declMarker) && Text.Contains(xml, marker) && Text.Contains(xml, close)
  {
    var xml := declMarker + declRest + marker + attrs + body + close;
    assert xml == [] + declMarker + (declRest + marker + attrs + body + close);
    Text.ContainsInfix([], declMarker, declRest + marker + attrs + body + close);
    assert xml == (declMarker + declRest) + marker + (attrs + body + close);
    Text.ContainsInfix(declMarker + declRest, marker, attrs + body + close);
    assert xml == (declMarker + declRest + marker + attrs + body) + close + [];
    Text.ContainsInfix(declMarker + declRest + marker + attrs + body, close, []);
  }

  /** Any text that starts with the header and ends with the closing tag carries all three markers. */
  lemma FramedHasMarkers(body: string)
    ensures HasMarkers(Header + body + UrlsetClose)
  {
    FramedHasMarkersAt(XmlDeclMarker, " encoding=\"UTF-8\"?>\n", UrlsetMarker, UrlsetAttributes, body, UrlsetClose);
  }
}
