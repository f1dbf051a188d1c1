/**
 * The build-time sitemap script: it accumulates `public/sitemap.xml` line by
 * line, reads it back to check the markers and the number of `<url>` blocks,
 * and writes a sitemap index pointing at it. File reads and writes are the
 * identity here: the validator receives the text the generator built.
 */
module SitemapScript {

  import Text
  import opened SitemapXml

  const Domain := "https://www.theranote.co.uk"

  /** The four static pages; the home page's url is `/`, so its loc keeps a trailing slash. */
  function StaticPages(lastmod: string): (pages: seq<Page>)
    ensures |pages| == 4 && pages[0].url == "/"
    ensures forall i | 0 <= i < |pages| :: pages[i].lastmod == lastmod
  {
    [ Page("/", "weekly", "1.0", lastmod),
      Page("/features", "monthly", "0.9", lastmod),
      Page("/pricing", "monthly", "0.9", lastmod),
      Page("/security", "monthly", "0.8", lastmod) ]
  }

  // the template lines of one page, each ending in a newline
  const UrlLine := "  " + UrlTag + "\n"
  const LocOpen := "    <loc>"
  const LocEnd := "</loc>\n"
  const LastmodOpen := "    <lastmod>"
  const LastmodEnd := "</lastmod>\n"
  const ChangefreqOpen := "    <changefreq>"
  const ChangefreqEnd := "</changefreq>\n"
  const PriorityOpen := "    <priority>"
  const PriorityEnd := "</priority>\n"
  const UrlEndLine := "  </" + "url>\n"

  /** One template line holding a field between an opening and a closing tag. */
  function Line(open: string, field: string, close: string): string {
    open + field + close
  }

  /** The six lines one page contributes. */
  function PageLines(domain: string, page: Page): string {
    UrlLine + Line(LocOpen, domain + page.url, LocEnd) + Line(LastmodOpen, page.lastmod, LastmodEnd)
    + Line(ChangefreqOpen, page.changefreq, ChangefreqEnd) + Line(PriorityOpen, page.priority, PriorityEnd)
    + UrlEndLine
  }

  /** The text the loop has appended after handling `pages`: each page's lines, in order. */
  function Body(pages: seq<Page>): string
    decreases |pages|
  {
    if pages == [] then ""
    else Body(pages[..|pages| - 1]) + PageLines(Domain, pages[|pages| - 1])
  }

  lemma {:induction false} AppendSix(acc: string, a: string, b: string, c: string, d: string, e: string, f: string)
    ensures acc + a + b + c + d + e + f == acc + (a + b + c + d + e + f)
  {
    calc {
      acc + a + b + c + d + e + f;
      acc + (a + b) + c + d + e + f;
      acc + (a + b + c) + d + e + f;
      acc + (a + b + c + d) + e + f;
      acc + (a + b + c + d + e) + f;
      acc + (a + b + c + d + e + f);
    }
  }

  lemma {:induction false} HeaderLinesAt(decl: string, marker: string, l1: string, l2: string, l3: string, l4: string)
    ensures decl + marker + (l1 + l2 + l3 + l4) == decl + (marker + l1) + l2 + l3 + l4
  {
    calc {
      decl + marker + (l1 + l2 + l3 + l4);
      decl + marker + l1 + l2 + l3 + l4;
      decl + (marker + l1) + l2 + l3 + l4;
    }
  }

  lemma Assoc(a: string, b: string, c: string)
    ensures a + b + c == a + (b + c)
  {
  }

  /** The six appends the loop makes for one page. */
  method AppendPage(before: string, page: Page) returns (sitemap: string)
    ensures sitemap == before + PageLines(Domain, page)
  {
    sitemap := before + UrlLine;
    sitemap := sitemap + Line(LocOpen, Domain + page.url, LocEnd);
    sitemap := sitemap + Line(LastmodOpen, page.lastmod, LastmodEnd);
    sitemap := sitemap + Line(ChangefreqOpen, page.changefreq, ChangefreqEnd);
    sitemap := sitemap + Line(PriorityOpen, page.priority, PriorityEnd);
    sitemap := sitemap + UrlEndLine;
    AppendSix(before, UrlLine, Line(LocOpen, Domain + page.url, LocEnd), Line(LastmodOpen, page.lastmod, LastmodEnd),
              Line(ChangefreqOpen, page.changefreq, ChangefreqEnd), Line(PriorityOpen, page.priority, PriorityEnd),
              UrlEndLine);
  }

  /** The five header lines. */
  method HeaderText() returns (sitemap: string)
    ensures sitemap == Header
  {
    sitemap := XmlDecl;
    sitemap := sitemap + (UrlsetMarker + AttributesLine1);
    sitemap := sitemap + AttributesLine2;
    sitemap := sitemap + AttributesLine3;
    sitemap := sitemap + AttributesLine4;
    HeaderLinesAt(XmlDecl, UrlsetMarker, AttributesLine1, AttributesLine2, AttributesLine3, AttributesLine4);
  }

  /** `generateSitemap`: the header lines, then six lines per page, then the closing tag. */
  method GenerateSitemap(pages: seq<Page>) returns (sitemap: string)
    ensures sitemap == Header + Body(pages) + UrlsetClose
  {
    sitemap := HeaderText();
    for i := 0 to |pages|
      invariant sitemap == Header + Body(pages[..i])
    {
      var before := sitemap;
      sitemap := AppendPage(sitemap, pages[i]);
      assert pages[..i + 1][..i] == pages[..i];
      Assoc(Header, Body(pages[..i]), PageLines(Domain, pages[i]));
    }
    assert pages[..|pages|] == pages;
    sitemap := sitemap + UrlsetClose;
  }

  /** A template line around a field: the opening ends in `>`, the closing starts with `<` and ends the line. */
  predicate Around(open: string, close: string) {
    |open| > 0 && open[|open| - 1] == '>' && Clean(open)
    && |close| > 0 && close[0] == '<' && close[|close| - 1] == '\n' && Clean(close)
  }

  lemma LineCount(open: string, field: string, close: string)
    requires Around(open, close)
    ensures Text.CountMatches(Line(open, field, close), UrlTag) == Text.CountMatches(field, UrlTag)
    ensures Line(open, field, close)[|Line(open, field, close)| - 1] == '\n'
  {
    SplitAfter(open, field);
    SplitBefore(open + field, close);
  }

  lemma LocAround() ensures Around(LocOpen, LocEnd) {
    NoUrlTagWithout(LocOpen, 'u');
    NoUrlTagWithout(LocEnd, 'u');
  }

  lemma LastmodAround() ensures Around(LastmodOpen, LastmodEnd) {
    NoUrlTagWithout(LastmodOpen, 'u');
    NoUrlTagWithout(LastmodEnd, 'u');
  }

  lemma ChangefreqAround() ensures Around(ChangefreqOpen, ChangefreqEnd) {
    NoUrlTagWithout(ChangefreqOpen, 'u');
    NoUrlTagWithout(ChangefreqEnd, 'u');
  }

  lemma PriorityAround() ensures Around(PriorityOpen, PriorityEnd) {
    NoUrlTagWithout(PriorityOpen, 'u');
    NoUrlTagWithout(PriorityEnd, 'u');
  }

  lemma UrlLineCountsOne()
    ensures Text.CountMatches(UrlLine, UrlTag) == 1 && UrlLine[|UrlLine| - 1] == '\n'
  {
    ShortIsClean("  ");
    ShortIsClean("\n");
    Text.CountMatchesSelf(UrlTag);
    SplitAfter("  ", UrlTag);
    SplitBefore("  " + UrlTag, "\n");
  }

  lemma UrlEndLineClean()
    ensures Clean(UrlEndLine) && UrlEndLine[|UrlEndLine| - 1] == '\n'
  {
    ShortIsClean("  </");
    NoUrlTagWithout("url>\n", '<');
    SplitAfter("  </", "url>\n");
  }

  lemma DomainClean()
    ensures CleanDomain(Domain)
  {
  }

  /** Six lines, each ending in a newline, count as the sum of their parts. */
  lemma {:induction false} SixLinesCount(a: string, b: string, c: string, d: string, e: string, f: string)
    requires |a| > 0 && a[|a| - 1] == '\n' && |b| > 0 && b[|b| - 1] == '\n' && |c| > 0 && c[|c| - 1] == '\n'
    requires |d| > 0 && d[|d| - 1] == '\n' && |e| > 0 && e[|e| - 1] == '\n'
    ensures Text.CountMatches(a + b + c + d + e + f, UrlTag)
      == Text.CountMatches(a, UrlTag) + Text.CountMatches(b, UrlTag) + Text.CountMatches(c, UrlTag)
       + Text.CountMatches(d, UrlTag) + Text.CountMatches(e, UrlTag) + Text.CountMatches(f, UrlTag)
    ensures |f| > 0 ==> (a + b + c + d + e + f)[|a + b + c + d + e + f| - 1] == f[|f| - 1]
  {
    SplitAfter(a, b);
    SplitAfter(a + b, c);
    SplitAfter(a + b + c, d);
    SplitAfter(a + b + c + d, e);
    SplitAfter(a + b + c + d + e, f);
  }

  /** Six template lines around clean fields hold as many `<url>` as the first line. */
  lemma {:induction false} PageLinesCountAt(urlLine: string, locOpen: string, loc: string, locEnd: string,
                                            lastmodOpen: string, lastmod: string, lastmodEnd: string,
                                            changefreqOpen: string, changefreq: string, changefreqEnd: string,
                                            priorityOpen: string, priority: string, priorityEnd: string, endLine: string)
    requires |urlLine| > 0 && urlLine[|urlLine| - 1] == '\n' && Text.CountMatches(urlLine, UrlTag) == 1
    requires Around(locOpen, locEnd) && Around(lastmodOpen, lastmodEnd)
    requires Around(changefreqOpen, changefreqEnd) && Around(priorityOpen, priorityEnd)
    requires |endLine| > 0 && endLine[|endLine| - 1] == '\n' && Clean(endLine)
    requires Clean(loc) && Clean(lastmod) && Clean(changefreq) && Clean(priority)
    ensures var lines := urlLine + Line(locOpen, loc, locEnd) + Line(lastmodOpen, lastmod, lastmodEnd)
      + Line(changefreqOpen, changefreq, changefreqEnd) + Line(priorityOpen, priority, priorityEnd) + endLine;
      Text.CountMatches(lines, UrlTag) == 1 && lines[|lines| - 1] == '\n'
  {
    LineCount(locOpen, loc, locEnd);
    LineCount(lastmodOpen, lastmod, lastmodEnd);
    LineCount(changefreqOpen, changefreq, changefreqEnd);
    LineCount(priorityOpen, priority, priorityEnd);
    SixLinesCount(urlLine, Line(locOpen, loc, locEnd), Line(lastmodOpen, lastmod, lastmodEnd),
                  Line(changefreqOpen, changefreq, changefreqEnd), Line(priorityOpen, priority, priorityEnd), endLine);
  }

  lemma TemplateReady()
    ensures |UrlLine| > 0 && UrlLine[|UrlLine| - 1] == '\n' && Text.CountMatches(UrlLine, UrlTag) == 1
    ensures Around(LocOpen, LocEnd) && Around(LastmodOpen, LastmodEnd)
    ensures Around(ChangefreqOpen, ChangefreqEnd) && Around(PriorityOpen, PriorityEnd)
    ensures |UrlEndLine| > 0 && UrlEndLine[|UrlEndLine| - 1] == '\n' && Clean(UrlEndLine)
  {
    UrlLineCountsOne();
    LocAround();
    LastmodAround();
    ChangefreqAround();
    PriorityAround();
    UrlEndLineClean();
  }

  /** A page's six lines hold exactly one `<url>` when its fields hold none. */
  lemma PageLinesCountOne(domain: string, page: Page)
    requires CleanDomain(domain) && CleanPage(page)
    ensures Text.CountMatches(PageLines(domain, page), UrlTag) == 1
    ensures PageLines(domain, page)[|PageLines(domain, page)| - 1] == '\n'
  {
    TemplateReady();
    NoUrlTagWithout(domain, '<');
    SplitAfter(domain, page.url);
    PageLinesCountAt(UrlLine, LocOpen, domain + page.url, LocEnd, LastmodOpen, page.lastmod, LastmodEnd,
                     ChangefreqOpen, page.changefreq, ChangefreqEnd, PriorityOpen, page.priority, PriorityEnd, UrlEndLine);
  }

  datatype Verdict = Passed | Failed(message: string)

  function MismatchMessage(expected: nat, found: nat): string {
    "URL count mismatch: expected " + Text.NatToString(expected) + ", found " + Text.NatToString(found)
  }

  /** `validateSitemap` on the text read back, against the number of static pages. */
  function ValidateSitemap(content: string, expected: nat): (v: Verdict)
    ensures v.Passed? <==> HasMarkers(content) && Text.CountMatches(content, UrlTag) == expected
    ensures !Text.Contains(content, XmlDeclMarker) ==> v == Failed("Missing XML declaration")
  {
    if !Text.Contains(content, XmlDeclMarker) then Failed("Missing XML declaration")
    else if !Text.Contains(content, UrlsetMarker) then Failed("Missing urlset element")
    else if !Text.Contains(content, UrlsetClose) then Failed("Missing closing urlset element")
    else
      var urlCount := Text.CountMatches(content, UrlTag);
      if urlCount != expected then Failed(MismatchMessage(expected, urlCount))
      else Passed
  }

  lemma {:induction false} BodyCount(pages: seq<Page>)
    requires forall i | 0 <= i < |pages| :: CleanPage(pages[i])
    ensures Text.CountMatches(Body(pages), UrlTag) == |pages|
    ensures Body(pages) == [] || Body(pages)[|Body(pages)| - 1] == '\n'
    decreases |pages|
  {
    if pages != [] {
      var init := pages[..|pages| - 1];
      BodyCount(init);
      DomainClean();
      PageLinesCountOne(Domain, pages[|pages| - 1]);
      AfterNewline(Body(init), PageLines(Domain, pages[|pages| - 1]));
    }
  }

  lemma AfterNewline(a: string, b: string)
    requires a == [] || a[|a| - 1] == '\n'
    requires |b| > 0 && b[|b| - 1] == '\n'
    ensures Text.CountMatches(a + b, UrlTag) == Text.CountMatches(a, UrlTag) + Text.CountMatches(b, UrlTag)
    ensures (a + b)[|a + b| - 1] == '\n'
  {
    SplitAfter(a, b);
  }

  /** A framed text whose frame holds no `<url>` counts as its body. */
  lemma {:induction false} FramedCount(header: string, body: string, close: string)
    requires Clean(header) && |header| > 0 && header[|header| - 1] == '\n' && Clean(close)
    requires body == [] || body[|body| - 1] == '\n'
    ensures Text.CountMatches(header + body + close, UrlTag) == Text.CountMatches(body, UrlTag)
  {
    SplitAfter(header, body);
    if body == [] {
      assert header + body == header;
    }
    SplitAfter(header + body, close);
  }

  lemma FrameReady()
    ensures Clean(Header) && |Header| > 0 && Header[|Header| - 1] == '\n' && Clean(UrlsetClose)
  {
    HeaderClean();
    UrlsetCloseClean();
  }

  /** A body framed by the header and the closing tag passes when it ends a line and holds one `<url>` per page. */
  lemma FramedValidates(body: string, expected: nat)
    requires Clean(Header) && |Header| > 0 && Header[|Header| - 1] == '\n' && Clean(UrlsetClose)
    requires body == [] || body[|body| - 1] == '\n'
    requires HasMarkers(Header + body + UrlsetClose) && Text.CountMatches(body, UrlTag) == expected
    ensures ValidateSitemap(Header + body + UrlsetClose, expected) == Passed
  {
    FramedCount(Header, body, UrlsetClose);
  }

  /** The generated text passes the script's own validation when no field contains `<url>`. */
  lemma GeneratedSitemapValidates(pages: seq<Page>)
    requires forall i | 0 <= i < |pages| :: CleanPage(pages[i])
    ensures ValidateSitemap(Header + Body(pages) + UrlsetClose, |pages|) == Passed
  {
    BodyCount(pages);
    FramedHasMarkers(Body(pages));
    FrameReady();
    FramedValidates(Body(pages), |pages|);
  }

  /** In particular the four static pages pass, for any date without `<url>`. */
  lemma StaticSitemapValidates(date: string)
    requires Clean(date)
    ensures ValidateSitemap(Header + Body(StaticPages(date)) + UrlsetClose, |StaticPages(date)|) == Passed
  {
    var pages := StaticPages(date);
    forall i | 0 <= i < |pages| ensures CleanPage(pages[i]) {
      NoUrlTagWithout(pages[i].url, '<');
      NoUrlTagWithout(pages[i].changefreq, '<');
      NoUrlTagWithout(pages[i].priority, '<');
    }
    GeneratedSitemapValidates(pages);
  }

  /** A text with the markers but a missing block fails with the count message. */
  lemma CountMismatchFails(content: string, expected: nat)
    requires HasMarkers(content) && Text.CountMatches(content, UrlTag) != expected
    ensures ValidateSitemap(content, expected).Failed?
    ensures ValidateSitemap(content, expected).message == MismatchMessage(expected, Text.CountMatches(content, UrlTag))
  {
  }

  const SitemapTag := "<sitemap>"

  const IndexMarker := "<sitemap" + "index"
  const IndexOpen := XmlDecl + IndexMarker + IndexAttributes
  const IndexAttributes := " xmlns=\"http://www.sitemaps.org/" + "schemas/sitemap/0.9\">\n"
  const SitemapLine := "  " + SitemapTag + "\n"
  const SitemapPath := "/sitemap.xml"
  const IndexLocEnd := SitemapPath + LocEnd
  const SitemapEndLine := "  </" + "sitemap>\n"
  const IndexClose := "</" + "sitemapindex>"

  /** `generateSitemapIndex`: one `<sitemap>` entry pointing at the domain's `/sitemap.xml`. */
  function SitemapIndex(domain: string, date: string): string {
    IndexOpen + SitemapLine + (LocOpen + domain + IndexLocEnd) + (LastmodOpen + date + LastmodEnd)
    + SitemapEndLine + IndexClose
  }

  /** The script's accumulation of the index, line by line, for the site's domain and the given date. */
  method GenerateSitemapIndex(date: string) returns (index: string)
    ensures index == SitemapIndex(Domain, date)
  {
    index := IndexOpen;
    index := index + SitemapLine;
    index := index + (LocOpen + Domain + IndexLocEnd);
    index := index + (LastmodOpen + date + LastmodEnd);
    index := index + SitemapEndLine;
    index := index + IndexClose;
  }

  lemma SitemapTagShape()
    ensures |SitemapTag| == 9 && SitemapTag[..8] == "<sitemap" && SitemapTag[1..] == "sitemap>"
  {
  }

  lemma NoSitemapTagWithout(s: string, c: char)
    requires c in SitemapTag && c !in s
    ensures Text.CountMatches(s, SitemapTag) == 0
  {
    Text.CountMatchesAbsent(s, SitemapTag, c);
  }

  /** Counting `<sitemap>` splits at a seam whose left side ends in a character that cannot begin or continue it. */
  lemma IndexSplitAfter(a: string, b: string)
    requires a == [] || a[|a| - 1] !in "<sitemap"
    ensures Text.CountMatches(a + b, SitemapTag) == Text.CountMatches(a, SitemapTag) + Text.CountMatches(b, SitemapTag)
  {
    SitemapTagShape();
    Text.CountMatchesConcatByLast(a, b, SitemapTag);
  }

  /** Counting `<sitemap>` splits at a seam whose right side starts with a character that cannot continue it. */
  lemma IndexSplitBefore(a: string, b: string)
    requires b == [] || b[0] !in "sitemap>"
    ensures Text.CountMatches(a + b, SitemapTag) == Text.CountMatches(a, SitemapTag) + Text.CountMatches(b, SitemapTag)
  {
    SitemapTagShape();
    Text.CountMatchesConcatByFirst(a, b, SitemapTag);
  }

  /** Two pieces without `<sitemap>` make none when the first ends in a character that cannot start one across the seam. */
  lemma CleanJoin(a: string, b: string)
    requires Text.CountMatches(a, SitemapTag) == 0 && Text.CountMatches(b, SitemapTag) == 0
    requires a == [] || a[|a| - 1] !in "<sitemap"
    ensures Text.CountMatches(a + b, SitemapTag) == 0
  {
    IndexSplitAfter(a, b);
  }

  lemma XmlDeclLacksP() ensures 'p' !in XmlDecl && XmlDecl[|XmlDecl| - 1] == '\n' { }
  lemma IndexMarkerLacksClose() ensures '>' !in IndexMarker && IndexMarker[|IndexMarker| - 1] == 'x' { }
  lemma IndexAttributesLackTags() ensures '<' !in IndexAttributes && IndexAttributes[|IndexAttributes| - 1] == '\n' { }

  /** The opening lines, `<sitemapindex` included, hold no `<sitemap>`: its `<sitemap` is followed by `i`. */
  lemma IndexOpenClean()
    ensures Text.CountMatches(IndexOpen, SitemapTag) == 0 && IndexOpen[|IndexOpen| - 1] == '\n'
  {
    XmlDeclLacksP();
    IndexMarkerLacksClose();
    IndexAttributesLackTags();
    NoSitemapTagWithout(XmlDecl, 'p');
    NoSitemapTagWithout(IndexMarker, '>');
    NoSitemapTagWithout(IndexAttributes, '<');
    CleanJoin(XmlDecl, IndexMarker);
    CleanJoin(XmlDecl + IndexMarker, IndexAttributes);
  }

  lemma SitemapLineCountsOne()
    ensures Text.CountMatches(SitemapLine, SitemapTag) == 1 && SitemapLine[|SitemapLine| - 1] == '\n'
  {
    NoSitemapTagWithout("  ", '<');
    NoSitemapTagWithout("\n", '<');
    Text.CountMatchesSelf(SitemapTag);
    IndexSplitAfter("  ", SitemapTag);
    IndexSplitAfter("  " + SitemapTag, "\n");
  }

  /** A field without `<` between an opening ending in `>` and a closing line starting with `<` or `/` adds no `<sitemap>`. */
  lemma {:induction false} EntryClean(open: string, field: string, close: string)
    requires Text.CountMatches(open, SitemapTag) == 0 && |open| > 0 && open[|open| - 1] == '>'
    requires '<' !in field
    requires Text.CountMatches(close, SitemapTag) == 0 && |close| > 0 && close[|close| - 1] == '\n'
    requires close[0] == '<' || close[0] == '/'
    ensures Text.CountMatches(open + field + close, SitemapTag) == 0 && (open + field + close)[|open + field + close| - 1] == '\n'
  {
    NoSitemapTagWithout(field, '<');
    CleanJoin(open, field);
    IndexSplitBefore(open + field, close);
  }

  lemma LocOpenLacksS() ensures 's' !in LocOpen && LocOpen[|LocOpen| - 1] == '>' { }
  lemma LocEndLacksS() ensures 's' !in LocEnd && LocEnd[|LocEnd| - 1] == '\n' { }
  lemma SitemapPathLacksTags() ensures '<' !in SitemapPath && SitemapPath[0] == '/' && SitemapPath[|SitemapPath| - 1] == 'l' { }
  lemma LastmodOpenLacksP() ensures 'p' !in LastmodOpen && LastmodOpen[|LastmodOpen| - 1] == '>' { }
  lemma LastmodEndLacksP() ensures 'p' !in LastmodEnd && LastmodEnd[0] == '<' && LastmodEnd[|LastmodEnd| - 1] == '\n' { }

  lemma IndexLocEndClean()
    ensures Text.CountMatches(IndexLocEnd, SitemapTag) == 0 && IndexLocEnd[0] == '/' && IndexLocEnd[|IndexLocEnd| - 1] == '\n'
  {
    LocEndLacksS();
    SitemapPathLacksTags();
    NoSitemapTagWithout(SitemapPath, '<');
    NoSitemapTagWithout(LocEnd, 's');
    CleanJoin(SitemapPath, LocEnd);
  }

  /** The loc line holds no `<sitemap>` when the domain holds no `<`. */
  lemma LocEntryClean(domain: string)
    requires '<' !in domain
    ensures var line := LocOpen + domain + IndexLocEnd;
      Text.CountMatches(line, SitemapTag) == 0 && line[|line| - 1] == '\n'
  {
    LocOpenLacksS();
    NoSitemapTagWithout(LocOpen, 's');
    IndexLocEndClean();
    EntryClean(LocOpen, domain, IndexLocEnd);
  }

  /** The lastmod line holds no `<sitemap>` when the date holds no `<`. */
  lemma LastmodEntryClean(date: string)
    requires '<' !in date
    ensures var line := LastmodOpen + date + LastmodEnd;
      Text.CountMatches(line, SitemapTag) == 0 && line[|line| - 1] == '\n'
  {
    LastmodOpenLacksP();
    LastmodEndLacksP();
    NoSitemapTagWithout(LastmodOpen, 'p');
    NoSitemapTagWithout(LastmodEnd, 'p');
    EntryClean(LastmodOpen, date, LastmodEnd);
  }

  lemma IndexClosingClean()
    ensures Text.CountMatches(SitemapEndLine, SitemapTag) == 0 && SitemapEndLine[|SitemapEndLine| - 1] == '\n'
    ensures Text.CountMatches(IndexClose, SitemapTag) == 0
  {
    NoSitemapTagWithout("  </", 's');
    NoSitemapTagWithout("sitemap>\n", '<');
    IndexSplitAfter("  </", "sitemap>\n");
    NoSitemapTagWithout("</", 's');
    NoSitemapTagWithout("sitemapindex>", '<');
    IndexSplitAfter("</", "sitemapindex>");
  }

  /** Six lines, the first five ending in a newline, count `<sitemap>` as the sum of their parts. */
  lemma {:induction false} IndexLinesCount(a: string, b: string, c: string, d: string, e: string, f: string)
    requires |a| > 0 && a[|a| - 1] == '\n' && |b| > 0 && b[|b| - 1] == '\n' && |c| > 0 && c[|c| - 1] == '\n'
    requires |d| > 0 && d[|d| - 1] == '\n' && |e| > 0 && e[|e| - 1] == '\n'
    ensures Text.CountMatches(a + b + c + d + e + f, SitemapTag)
      == Text.CountMatches(a, SitemapTag) + Text.CountMatches(b, SitemapTag) + Text.CountMatches(c, SitemapTag)
       + Text.CountMatches(d, SitemapTag) + Text.CountMatches(e, SitemapTag) + Text.CountMatches(f, SitemapTag)
  {
    IndexSplitAfter(a, b);
    IndexSplitAfter(a + b, c);
    IndexSplitAfter(a + b + c, d);
    IndexSplitAfter(a + b + c + d, e);
    IndexSplitAfter(a + b + c + d + e, f);
  }

  /** The index has exactly one `<sitemap>` entry, and its loc line names the domain's `/sitemap.xml`. */
  lemma SitemapIndexHasOneEntry(domain: string, date: string)
    requires '<' !in domain && '<' !in date
    ensures Text.CountMatches(SitemapIndex(domain, date), SitemapTag) == 1
    ensures Text.Contains(SitemapIndex(domain, date), LocOpen + domain + "/sitemap.xml" + LocEnd)
  {
    IndexOpenClean();
    SitemapLineCountsOne();
    LocEntryClean(domain);
    LastmodEntryClean(date);
    IndexClosingClean();
    IndexLinesCount(IndexOpen, SitemapLine, LocOpen + domain + IndexLocEnd, LastmodOpen + date + LastmodEnd,
                    SitemapEndLine, IndexClose);
    var loc := LocOpen + domain + IndexLocEnd;
    assert loc == LocOpen + domain + "/sitemap.xml" + LocEnd;
    var rest := (LastmodOpen + date + LastmodEnd) + SitemapEndLine + IndexClose;
    AppendThreeAfter(IndexOpen + SitemapLine, loc, LastmodOpen + date + LastmodEnd, SitemapEndLine, IndexClose);
    Text.ContainsInfix(IndexOpen + SitemapLine, loc, rest);
  }

  lemma {:induction false} AppendThreeAfter(pre: string, x: string, a: string, b: string, c: string)
    ensures pre + x + a + b + c == pre + x + (a + b + c)
  {
    calc {
      pre + x + a + b + c;
      pre + x + (a + b) + c;
      pre + x + (a + b + c);
    }
  }

  /** The site's own index, for any date without `<`, has the single entry. */
  lemma SiteIndexHasOneEntry(date: string)
    requires '<' !in date
    ensures Text.CountMatches(SitemapIndex(Domain, date), SitemapTag) == 1
  {
    SitemapIndexHasOneEntry(Domain, date);
  }
}
