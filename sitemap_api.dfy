/**
 * The dynamic sitemap route: it stamps every static page with today's date,
 * renders the `<urlset>` document from a template, checks it for the three
 * markers and answers with the XML and caching headers, or with a 500 when
 * the check fails.
 */
module SitemapApi {

  import opened Wrappers
  import Text
  import opened SitemapXml

  const Domain := "https://www.theranotepro.com"

  /** The seven static pages; the home page's url is empty, so its loc is the bare domain. */
  function StaticPages(lastmod: string): (pages: seq<Page>)
    ensures |pages| == 7 && pages[0].url == ""
    ensures forall i | 0 <= i < |pages| :: pages[i].lastmod == lastmod
  {
    [ Page("", "weekly", "1.0", lastmod),
      Page("/features", "weekly", "0.9", lastmod),
      Page("/pricing", "weekly", "0.9", lastmod),
      Page("/security", "monthly", "0.8", lastmod),
      Page("/privacy", "monthly", "0.5", lastmod),
      Page("/terms", "monthly", "0.5", lastmod),
      Page("/contact", "monthly", "0.7", lastmod) ]
  }

  /** `pages.map(...)`: one block per page, same order. */
  function Blocks(pages: seq<Page>): (blocks: seq<string>)
    ensures |blocks| == |pages|
    ensures forall i | 0 <= i < |pages| :: blocks[i] == UrlBlock(Domain, pages[i])
  {
    seq(|pages|, i requires 0 <= i < |pages| => UrlBlock(Domain, pages[i]))
  }

  /** `generateSitemap`: the header, the blocks joined by newlines, a newline and the closing tag. */
  function GenerateSitemap(pages: seq<Page>): string {
    Header + (Text.Join(Blocks(pages), "\n") + "\n") + UrlsetClose
  }

  /** `validateSitemap`: the three markers are present; the `<url>` count is only logged. */
  predicate ValidateSitemap(xml: string) {
    HasMarkers(xml)
  }

  /** The count the validator logs. */
  function LoggedUrlCount(xml: string): nat {
    Text.CountMatches(xml, UrlTag)
  }

  /** Every generated document passes the check, so the route's failure path is never taken. */
  lemma GeneratedSitemapValidates(pages: seq<Page>)
    ensures ValidateSitemap(GenerateSitemap(pages))
  {
    FramedHasMarkers(Text.Join(Blocks(pages), "\n") + "\n");
  }

  lemma {:induction false} JoinedBlocksCount(blocks: seq<string>)
    requires forall i | 0 <= i < |blocks| ::
      |blocks[i]| > 0 && blocks[i][|blocks[i]| - 1] == '>' && Text.CountMatches(blocks[i], UrlTag) == 1
    ensures Text.CountMatches(Text.Join(blocks, "\n"), UrlTag) == |blocks|
    decreases |blocks|
  {
    if |blocks| == 1 {
    } else if |blocks| > 1 {
      JoinedBlocksCount(blocks[1..]);
      ShortIsClean("\n");
      SplitBefore(blocks[0], "\n");
      SplitAfter(blocks[0] + "\n", Text.Join(blocks[1..], "\n"));
    }
  }

  /** With fields free of `<url>`, the logged count is exactly the number of pages. */
  lemma GeneratedSitemapCountsPages(pages: seq<Page>)
    requires forall i | 0 <= i < |pages| :: CleanPage(pages[i])
    ensures LoggedUrlCount(GenerateSitemap(pages)) == |pages|
  {
    var blocks := Blocks(pages);
    assert CleanDomain(Domain);
    forall i | 0 <= i < |blocks|
      ensures |blocks[i]| > 0 && blocks[i][|blocks[i]| - 1] == '>' && Text.CountMatches(blocks[i], UrlTag) == 1
    {
      UrlBlockCountsOne(Domain, pages[i]);
    }
    JoinedBlocksCount(blocks);
    var joined := Text.Join(blocks, "\n");
    HeaderClean();
    UrlsetCloseClean();
    ShortIsClean("\n");
    SplitBefore(joined, "\n");
    SplitAfter(Header, joined + "\n");
    SplitAfter(Header + (joined + "\n"), UrlsetClose);
  }

  /** `toISOString().split('T')[0]`: the text before the first `T`, or all of it when there is none. */
  function DatePart(iso: string): (date: string)
    ensures 'T' !in date
    ensures |date| <= |iso| && date == iso[..|date|]
    ensures |date| == |iso| || iso[|date|] == 'T'
  {
    var t := Text.IndexOf(iso, 'T');
    if t == -1 then iso else iso[..t]
  }

  /** The route's `{...page, lastmod}` copy: only the date changes, and the page count is kept. */
  function WithLastmod(pages: seq<Page>, date: string): (updated: seq<Page>)
    ensures |updated| == |pages|
    ensures forall i | 0 <= i < |pages| ::
      updated[i].lastmod == date && updated[i].url == pages[i].url
      && updated[i].changefreq == pages[i].changefreq && updated[i].priority == pages[i].priority
  {
    seq(|pages|, i requires 0 <= i < |pages| => pages[i].(lastmod := date))
  }

  /** The HTTP response object the route writes to. */
  class Response {
    var statusCode: nat
    var headers: map<string, string>
    var body: string

    constructor ()
      ensures statusCode == 200 && headers == map[] && body == ""
    {
      statusCode := 200;
      headers := map[];
      body := "";
    }
  }

  const ErrorBody := "{\"error\":\"Failed to generate sitemap\"}"

  /**
   * The route. `loadDate` is the date the page list was built with when the
   * module loaded and `nowIso` the current time as an ISO string.
   */
  method Handle(res: Response, loadDate: string, nowIso: string)
    modifies res
    ensures var xml := GenerateSitemap(WithLastmod(StaticPages(loadDate), DatePart(nowIso)));
      if ValidateSitemap(xml) then
        res.statusCode == 200 && res.body == xml
        && res.headers == old(res.headers)["Content-Type" := "application/xml"]
             ["Cache-Control" := "public, max-age=3600, s-maxage=3600"]["X-Robots-Tag" := "noindex"]
      else
        res.statusCode == 500 && res.body == ErrorBody && res.headers == old(res.headers)
  {
    var updatedPages := WithLastmod(StaticPages(loadDate), DatePart(nowIso));
    var sitemap := GenerateSitemap(updatedPages);
    if !ValidateSitemap(sitemap) {
      res.statusCode := 500;
      res.body := ErrorBody;
      return;
    }
    res.headers := res.headers["Content-Type" := "application/xml"];
    res.headers := res.headers["Cache-Control" := "public, max-age=3600, s-maxage=3600"];
    res.headers := res.headers["X-Robots-Tag" := "noindex"];
    res.statusCode := 200;
    res.body := sitemap;
  }

  /** Whatever the dates, the route answers 200 with the XML content type. */
  lemma RouteAlwaysSucceeds(loadDate: string, nowIso: string)
    ensures ValidateSitemap(GenerateSitemap(WithLastmod(StaticPages(loadDate), DatePart(nowIso))))
  {
    GeneratedSitemapValidates(WithLastmod(StaticPages(loadDate), DatePart(nowIso)));
  }
}
