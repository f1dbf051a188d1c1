/**
 * The Lighthouse audit script: per-page results with ranked performance
 * opportunities, the failure fallback, the loop that audits every page on
 * desktop and then on mobile, and the figures of the summary report
 * (rounded category averages, pass/fail against the targets, per-page ticks
 * and the ten largest opportunities across pages). Lighthouse itself, Chrome
 * and the file writes are outside the model: each audit run's outcome is an
 * input. Scores are the integers the script derives; savings are whole
 * milliseconds.
 */
module LighthouseAudit {

  import opened Wrappers
  import opened Rounding

  datatype Device = Desktop | Mobile
  datatype Category = Performance | Accessibility | BestPractices | Seo

  datatype Scores = Scores(performance: int, accessibility: int, bestPractices: int, seo: int)

  function ScoreOf(s: Scores, c: Category): int {
    match c
    case Performance => s.performance
    case Accessibility => s.accessibility
    case BestPractices => s.bestPractices
    case Seo => s.seo
  }

  const ZeroScores := Scores(0, 0, 0, 0)

  /** `config.targetScores`: 90 in every category. */
  function Target(c: Category): int {
    90
  }

  datatype Page = Page(path: string, name: string)

  const BaseUrl := "http://localhost:3000"
  const Pages := [Page("/", "Homepage"), Page("/features", "Features"), Page("/pricing", "Pricing"), Page("/security", "Security")]

  function Url(page: Page): string {
    BaseUrl + page.path
  }

  // ---------------------------------------------------------------- ranking

  /** Every element's key is at least that of the elements after it. */
  predicate Descending<T>(xs: seq<T>, key: T -> int) {
    forall i, j | 0 <= i < j < |xs| :: key(xs[i]) >= key(xs[j])
  }

  /** Puts `x` in front of the first element whose key is not larger, so it precedes its equals. */
  function Insert<T>(x: T, s: seq<T>, key: T -> int): seq<T>
    decreases |s|
  {
    if s == [] then [x]
    else if key(s[0]) <= key(x) then [x] + s
    else [s[0]] + Insert(x, s[1..], key)
  }

  /** Inserting adds `x` and loses nothing. */
  lemma {:induction false} InsertAddsOne<T>(x: T, s: seq<T>, key: T -> int)
    ensures multiset(Insert(x, s, key)) == multiset(s) + multiset{x}
    decreases |s|
  {
    if s != [] && key(s[0]) > key(x) {
      InsertAddsOne(x, s[1..], key);
      assert s == [s[0]] + s[1..];
    }
  }

  /** An element at least as large as all of a descending sequence can go in front of it. */
  lemma ConsDescending<T>(h: T, s: seq<T>, key: T -> int)
    requires Descending(s, key) && forall y | y in s :: key(h) >= key(y)
    ensures Descending([h] + s, key)
  {
    var r := [h] + s;
    forall i, j | 0 <= i < j < |r| ensures key(r[i]) >= key(r[j]) {
      assert r[j] == s[j - 1];
      if i > 0 {
        assert r[i] == s[i - 1];
      }
    }
  }

  lemma TailDescending<T>(s: seq<T>, key: T -> int)
    requires s != [] && Descending(s, key)
    ensures Descending(s[1..], key) && forall y | y in s[1..] :: key(s[0]) >= key(y)
  {
    var tail := s[1..];
    forall i, j | 0 <= i < j < |tail| ensures key(tail[i]) >= key(tail[j]) {
      assert tail[i] == s[i + 1] && tail[j] == s[j + 1];
    }
    forall y | y in tail ensures key(s[0]) >= key(y) {
      var k :| 0 <= k < |tail| && tail[k] == y;
      assert s[k + 1] == y;
    }
  }

  /** Inserting into a descending sequence keeps it descending. */
  lemma {:induction false} InsertKeepsDescending<T>(x: T, s: seq<T>, key: T -> int)
    requires Descending(s, key)
    ensures Descending(Insert(x, s, key), key)
    decreases |s|
  {
    if s == [] {
    } else {
      TailDescending(s, key);
      if key(s[0]) <= key(x) {
        assert forall y | y in s :: y == s[0] || y in s[1..] by {
          assert s == [s[0]] + s[1..];
        }
        ConsDescending(x, s, key);
      } else {
        var rest := Insert(x, s[1..], key);
        InsertKeepsDescending(x, s[1..], key);
        InsertAddsOne(x, s[1..], key);
        forall y | y in rest ensures key(s[0]) >= key(y) {
          assert y in multiset(rest);
        }
        ConsDescending(s[0], rest, key);
      }
    }
  }

  /**
   * `xs.sort((a, b) => key(b) - key(a))`; the sort JavaScript engines use is
   * stable, as this insertion sort is.
   */
  function SortDescending<T>(xs: seq<T>, key: T -> int): seq<T>
    decreases |xs|
  {
    if xs == [] then [] else Insert(xs[0], SortDescending(xs[1..], key), key)
  }

  /** The sort yields the same elements, each as often, by descending key. */
  lemma {:induction false} SortDescendingSorts<T>(xs: seq<T>, key: T -> int)
    ensures Descending(SortDescending(xs, key), key)
    ensures multiset(SortDescending(xs, key)) == multiset(xs)
    decreases |xs|
  {
    if xs != [] {
      var rest := SortDescending(xs[1..], key);
      assert SortDescending(xs, key) == Insert(xs[0], rest, key);
      SortDescendingSorts(xs[1..], key);
      InsertKeepsDescending(xs[0], rest, key);
      InsertAddsOne(xs[0], rest, key);
      assert multiset(xs) == multiset(xs[1..]) + multiset{xs[0]} by {
        assert xs == [xs[0]] + xs[1..];
      }
    }
  }

  /** Cutting a descending sequence keeps a descending prefix none of whose elements is smaller than any cut off. */
  lemma PrefixOfDescending<T>(sorted: seq<T>, n: nat, key: T -> int)
    requires Descending(sorted, key) && n <= |sorted|
    ensures Descending(sorted[..n], key)
    ensures multiset(sorted) == multiset(sorted[..n]) + multiset(sorted[n..])
    ensures forall x, y | x in sorted[n..] && y in sorted[..n] :: key(x) <= key(y)
  {
    assert sorted == sorted[..n] + sorted[n..];
    forall x, y | x in sorted[n..] && y in sorted[..n] ensures key(x) <= key(y) {
      var i :| 0 <= i < |sorted[n..]| && sorted[n..][i] == x;
      var j :| 0 <= j < n && sorted[..n][j] == y;
      assert sorted[n + i] == x && sorted[j] == y;
    }
  }

  // ---------------------------------------------------------- one audit run

  datatype Details = Details(overallSavingsMs: Option<int>)
  datatype AuditEntry = AuditEntry(id: string, title: string, description: string, details: Option<Details>)

  /** The parts of a Lighthouse result the script reads: the four rounded scores and the performance audits. */
  datatype Lhr = Lhr(scores: Scores, auditRefs: seq<AuditEntry>)

  /** What the `lighthouse` call gave: nothing, an exception with its message, or a result. */
  datatype RunOutcome = NoResult | Threw(message: string) | Ran(lhr: Lhr)

  datatype Opportunity = Opportunity(id: string, title: string, description: string, savings: int)

  function Savings(o: Opportunity): int {
    o.savings
  }

  datatype AuditResult = AuditResult(pageName: string, url: string, device: Device, scores: Scores,
                                     error: Option<string>, opportunities: Option<seq<Opportunity>>)

  /** `details && details.overallSavingsMs > 0`; a missing saving compares false. */
  predicate HasSavings(e: AuditEntry) {
    e.details.Some? && e.details.value.overallSavingsMs.Some? && e.details.value.overallSavingsMs.value > 0
  }

  function ToOpportunity(e: AuditEntry): Opportunity
    requires HasSavings(e)
  {
    Opportunity(e.id, e.title, e.description, e.details.value.overallSavingsMs.value)
  }

  /** The filter and map before the sort: one opportunity per audit with savings, in audit order. */
  function Candidates(refs: seq<AuditEntry>): (opps: seq<Opportunity>)
    ensures forall o | o in opps :: o.savings > 0
    ensures forall o | o in opps :: exists i | 0 <= i < |refs| :: HasSavings(refs[i]) && o == ToOpportunity(refs[i])
    ensures forall i | 0 <= i < |refs| :: HasSavings(refs[i]) ==> ToOpportunity(refs[i]) in opps
    decreases |refs|
  {
    if refs == [] then []
    else
      var rest := Candidates(refs[1..]);
      assert forall i | 1 <= i < |refs| :: refs[i] == refs[1..][i - 1];
      (if HasSavings(refs[0]) then [ToOpportunity(refs[0])] else []) + rest
  }

  /** The opportunities a successful audit reports: those with positive savings, largest first. */
  function RankedOpportunities(refs: seq<AuditEntry>): seq<Opportunity> {
    SortDescending(Candidates(refs), Savings)
  }

  /** The ranking keeps exactly the audits with positive savings, each once, sorted by savings descending. */
  lemma RankedOpportunitiesAreTheSavings(refs: seq<AuditEntry>)
    ensures var ranked := RankedOpportunities(refs);
      Descending(ranked, Savings) && multiset(ranked) == multiset(Candidates(refs))
      && (forall o | o in ranked :: o.savings > 0)
      && (forall i | 0 <= i < |refs| :: HasSavings(refs[i]) ==> ToOpportunity(refs[i]) in ranked)
  {
    var ranked := RankedOpportunities(refs);
    SortDescendingSorts(Candidates(refs), Savings);
    forall o | o in ranked ensures o.savings > 0 {
      assert o in multiset(ranked);
    }
    forall i | 0 <= i < |refs| && HasSavings(refs[i]) ensures ToOpportunity(refs[i]) in ranked {
      assert ToOpportunity(refs[i]) in multiset(Candidates(refs));
    }
  }

  /** `auditPage`: a result with scores and ranked opportunities, or on any failure the zero fallback. */
  function AuditPage(url: string, pageName: string, device: Device, outcome: RunOutcome): (r: AuditResult)
    ensures r.pageName == pageName && r.url == url && r.device == device
    ensures r.error.None? <==> outcome.Ran?
    ensures outcome.NoResult? ==> r.error == Some("No lighthouse results returned")
    ensures outcome.Threw? ==> r.error == Some(outcome.message)
  {
    match outcome
    case NoResult => AuditResult(pageName, url, device, ZeroScores, Some("No lighthouse results returned"), None)
    case Threw(message) => AuditResult(pageName, url, device, ZeroScores, Some(message), None)
    case Ran(lhr) => AuditResult(pageName, url, device, lhr.scores, None, Some(RankedOpportunities(lhr.auditRefs)))
  }

  /** A failed audit scores zero in all four categories and contributes no opportunities. */
  lemma FailedAuditScoresZero(url: string, pageName: string, device: Device, outcome: RunOutcome)
    requires AuditPage(url, pageName, device, outcome).error.Some?
    ensures var r := AuditPage(url, pageName, device, outcome);
      (forall c :: ScoreOf(r.scores, c) == 0) && r.opportunities.None?
  {
  }

  // ---------------------------------------------------------------- the run

  /**
   * `runAudit`'s loop: each page is audited on desktop and then on mobile, so
   * result `2i` is page `i` on desktop and result `2i + 1` the same page on
   * mobile.
   */
  method RunAudit(pages: seq<Page>, lighthouse: (string, Device) -> RunOutcome) returns (results: seq<AuditResult>)
    ensures |results| == 2 * |pages|
    ensures forall i | 0 <= i < |pages| ::
      results[2 * i] == AuditPage(Url(pages[i]), pages[i].name, Desktop, lighthouse(Url(pages[i]), Desktop))
      && results[2 * i + 1] == AuditPage(Url(pages[i]), pages[i].name, Mobile, lighthouse(Url(pages[i]), Mobile))
  {
    results := [];
    for i := 0 to |pages|
      invariant |results| == 2 * i
      invariant forall k | 0 <= k < i ::
        results[2 * k] == AuditPage(Url(pages[k]), pages[k].name, Desktop, lighthouse(Url(pages[k]), Desktop))
        && results[2 * k + 1] == AuditPage(Url(pages[k]), pages[k].name, Mobile, lighthouse(Url(pages[k]), Mobile))
    {
      var url := Url(pages[i]);
      var desktop := AuditPage(url, pages[i].name, Desktop, lighthouse(url, Desktop));
      results := results + [desktop];
      var mobile := AuditPage(url, pages[i].name, Mobile, lighthouse(url, Mobile));
      results := results + [mobile];
    }
  }

  // ------------------------------------------------------------- the report

  function Sum(xs: seq<int>): int
    decreases |xs|
  {
    if xs == [] then 0 else xs[0] + Sum(xs[1..])
  }

  /** `Math.round(xs.reduce(+) / xs.length)`; an empty list divides by zero, giving NaN, here `None`. */
  function Average(xs: seq<int>): (avg: Option<int>)
    ensures avg.None? <==> xs == []
    ensures avg.Some? ==> 2 * |xs| * avg.value <= 2 * Sum(xs) + |xs| < 2 * |xs| * (avg.value + 1)
  {
    if xs == [] then None else Some(RoundHalfUp(Sum(xs), |xs|))
  }

  lemma {:induction false} SumBounds(xs: seq<int>, lo: int, hi: int)
    requires forall i | 0 <= i < |xs| :: lo <= xs[i] <= hi
    ensures |xs| * lo <= Sum(xs) <= |xs| * hi
    decreases |xs|
  {
    if xs != [] {
      SumBounds(xs[1..], lo, hi);
    }
  }

  /** The rounded average of scores between `lo` and `hi` lies between them too. */
  lemma AverageBounds(xs: seq<int>, lo: int, hi: int)
    requires xs != [] && forall i | 0 <= i < |xs| :: lo <= xs[i] <= hi
    ensures lo <= Average(xs).value <= hi
  {
    SumBounds(xs, lo, hi);
    RoundHalfUpWithin(Sum(xs), |xs|, lo, hi);
  }

  function CategoryScores(results: seq<AuditResult>, c: Category): (xs: seq<int>)
    ensures |xs| == |results|
    ensures forall i | 0 <= i < |results| :: xs[i] == ScoreOf(results[i].scores, c)
  {
    seq(|results|, i requires 0 <= i < |results| => ScoreOf(results[i].scores, c))
  }

  /** The "Average Score" cell of a category. */
  function AverageScore(results: seq<AuditResult>, c: Category): Option<int> {
    Average(CategoryScores(results, c))
  }

  /** The "Status" cell: PASS iff the average reaches the target; a NaN average never does. */
  function Passes(results: seq<AuditResult>, c: Category): (pass: bool)
    ensures pass <==> AverageScore(results, c).Some? && AverageScore(results, c).value >= Target(c)
    ensures results == [] ==> !pass
  {
    var avg := AverageScore(results, c);
    avg.Some? && avg.value >= Target(c)
  }

  /** The per-page tick of a category. */
  function Tick(result: AuditResult, c: Category): bool {
    ScoreOf(result.scores, c) >= Target(c)
  }

  /** When every result is ticked in a category, the category passes overall. */
  lemma AllTickedPasses(results: seq<AuditResult>, c: Category)
    requires results != [] && forall i | 0 <= i < |results| :: Tick(results[i], c)
    ensures Passes(results, c)
  {
    var xs := CategoryScores(results, c);
    assert forall i | 0 <= i < |xs| :: 90 <= xs[i];
    SumBounds(xs, 90, MaxOf(xs));
    AverageBounds(xs, 90, MaxOf(xs));
  }

  function MaxOf(xs: seq<int>): (m: int)
    ensures forall i | 0 <= i < |xs| :: xs[i] <= m
    decreases |xs|
  {
    if xs == [] then 0
    else
      var rest := MaxOf(xs[1..]);
      assert forall i | 1 <= i < |xs| :: xs[i] == xs[1..][i - 1];
      if xs[0] > rest then xs[0] else rest
  }

  /** A single failed audit among otherwise perfect ones can pull a category below its target. */
  lemma OneFailureCanFailCategory()
    ensures var ok := AuditResult("Homepage", Url(Pages[0]), Desktop, Scores(100, 100, 100, 100), None, Some([]));
      var failed := AuditPage(Url(Pages[0]), "Homepage", Mobile, NoResult);
      AverageScore([ok, failed], Performance) == Some(50) && !Passes([ok, failed], Performance)
  {
    var ok := AuditResult("Homepage", Url(Pages[0]), Desktop, Scores(100, 100, 100, 100), None, Some([]));
    var failed := AuditPage(Url(Pages[0]), "Homepage", Mobile, NoResult);
    var xs := CategoryScores([ok, failed], Performance);
    assert xs == [100, 0];
    assert xs[1..] == [0] && xs[1..][1..] == [];
    assert Sum(xs[1..]) == 0;
    assert Sum(xs) == 100;
  }

  /** An opportunity with the page it was found on, `{ ...opp, page: r.pageName }`. */
  datatype TaggedOpportunity = TaggedOpportunity(opportunity: Opportunity, page: string)

  function TaggedSavings(t: TaggedOpportunity): int {
    t.opportunity.savings
  }

  function Tag(opps: seq<Opportunity>, page: string): (tagged: seq<TaggedOpportunity>)
    ensures |tagged| == |opps|
    ensures forall i | 0 <= i < |opps| :: tagged[i] == TaggedOpportunity(opps[i], page)
  {
    seq(|opps|, i requires 0 <= i < |opps| => TaggedOpportunity(opps[i], page))
  }

  /** The filter and flat map: every opportunity of every result that has some, tagged, in result order. */
  function AllOpportunities(results: seq<AuditResult>): (all: seq<TaggedOpportunity>)
    ensures forall t | t in all :: exists i | 0 <= i < |results| ::
      results[i].opportunities.Some? && t.page == results[i].pageName && t.opportunity in results[i].opportunities.value
    ensures forall i, j | 0 <= i < |results| && results[i].opportunities.Some? && 0 <= j < |results[i].opportunities.value| ::
      TaggedOpportunity(results[i].opportunities.value[j], results[i].pageName) in all
    decreases |results|
  {
    if results == [] then []
    else
      var r := results[0];
      var rest := AllOpportunities(results[1..]);
      assert forall i | 1 <= i < |results| :: results[i] == results[1..][i - 1];
      var own := if r.opportunities.Some? then Tag(r.opportunities.value, r.pageName) else [];
      assert forall t | t in own :: r.opportunities.Some? && t.page == r.pageName && t.opportunity in r.opportunities.value;
      own + rest
  }

  function Min(a: nat, b: nat): nat {
    if a <= b then a else b
  }

  /** The "Top Performance Opportunities" list: all tagged opportunities by savings descending, at most ten. */
  function TopOpportunities(results: seq<AuditResult>): seq<TaggedOpportunity> {
    var sorted := SortDescending(AllOpportunities(results), TaggedSavings);
    sorted[..Min(10, |sorted|)]
  }

  /**
   * The list holds the ten largest opportunities (or all of them when there
   * are fewer), in descending order, and none left out saves more than any
   * that is listed.
   */
  lemma TopOpportunitiesAreTheLargest(results: seq<AuditResult>)
    ensures var all := AllOpportunities(results); var top := TopOpportunities(results);
      |top| == Min(10, |all|) && Descending(top, TaggedSavings) && multiset(top) <= multiset(all)
      && forall x: TaggedOpportunity, y: TaggedOpportunity | x in multiset(all) - multiset(top) && y in top ::
        x.opportunity.savings <= y.opportunity.savings
  {
    var all := AllOpportunities(results);
    var sorted := SortDescending(all, TaggedSavings);
    SortDescendingSorts(all, TaggedSavings);
    var n := Min(10, |sorted|);
    PrefixOfDescending(sorted, n, TaggedSavings);
    var top := sorted[..n];
    forall x: TaggedOpportunity, y: TaggedOpportunity | x in multiset(all) - multiset(top) && y in top
      ensures x.opportunity.savings <= y.opportunity.savings
    {
      assert x in multiset(sorted[n..]);
      assert TaggedSavings(x) <= TaggedSavings(y);
    }
  }
}
