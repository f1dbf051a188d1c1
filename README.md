# TheraNote marketing site — a verified model of its logic

The TheraNote marketing site is a Next.js site that is mostly static
content. This project models in Dafny the pieces of it that do compute
something, and proves properties of each:

- **Cookie consent gate** (`CookieConsent`, class `ConsentGate`). On mount,
  missing or expired consent shows the banner. Accept-all, reject-all and
  save-custom each persist a preference record with a timestamp. The
  Google Analytics loader appends its script at most once.
- **Waitlist endpoint** (`WaitlistApi`, class `WaitlistStore`). The method,
  required-field and email-regex checks run in that order. Then comes
  the insert into a table that is unique on email. Errors map to the
  statuses 405, 400, 409, 500 and 201.
- **Waitlist form** (`WaitlistModal`, class `WaitlistForm`). Covers field
  and interest updates, the submit state machine and the close/reset.
- **Sitemaps** (`SitemapXml`, `SitemapApi`, `SitemapScript`). These follow
  the Sitemaps XML protocol 0.9 of sitemaps.org:
  - the dynamic API route, with its lastmod rewrite and status logic;
  - the build script's line-by-line accumulation, its validator and the
    sitemap index;
  - generate-then-validate lemmas for both builders.
- **Image optimisation** (`OptimizeImages`). Covers:
  - the nested size/format planning loop and the generated file names;
  - srcset strings and the fallback choice;
  - the component identifier and alt text;
  - the input file filter and the per-file results loop.
- **Lighthouse report** (`LighthouseAudit`). Covers:
  - per-page opportunity ranking and the failure fallback;
  - the desktop-then-mobile audit loop;
  - rounded category averages, PASS/tick thresholds and the top-ten
    opportunities across pages.
- **UI list logic** (`PricingFaq`, `SecurityFeatures`, `FeatureGrid`,
  `SecurityCta`, `PricingCta`). Covers category filters and counts, the
  open-set and single-expanded toggles, four-bullet truncation with
  "+N more", the stat number formatter and the testimonial rotation.

Shared modules:
- `Text`: `includes`, global-regex match counting, `indexOf`,
  `toString` and `join`.
- `ListFilter`: `Array.prototype.filter` and the visible-set growth of
  the intersection observers.
- `Rounding`: `Math.round` and `toFixed(0)` of an integer quotient.
- `Wrappers`: `Option`.

Browser storage, `fetch`, the Supabase client, `sharp`, Lighthouse, file
writes and the clock are not modelled as code. Each one becomes a
parameter: a stored value, a response outcome, an image width, an audit
outcome, or a timestamp.

## Model

| member | source | states |
|---|---|---|
| CookieConsent.ShowBannerOnMount | components/CookieConsent.tsx:19-34 | the banner shows iff a stored key is missing or the stored date is strictly before one year ago |
| CookieConsent.ConsentExactlyOneYearOldIsValid | components/CookieConsent.tsx:32 | a consent dated exactly one year ago keeps the banner hidden, one instant earlier shows it |
| CookieConsent.InitializeGa4 | components/CookieConsent.tsx:49-75 | with gtag defined nothing changes; otherwise gtag becomes defined, one script is appended and the `js` and `config` calls are queued |
| CookieConsent.AtMostOneScript | components/CookieConsent.tsx:49-75 | any number of initialiser calls append at most one script and leave an already-initialised window unchanged |
| CookieConsent.TogglePreference | components/CookieConsent.tsx:123-130 | `necessary` never changes; toggling analytics or marketing flips exactly that field |
| CookieConsent.TogglePreferenceTwice | components/CookieConsent.tsx:123-130 | toggling the same preference twice restores the record |
| CookieConsent.ConsentGate.constructor | components/CookieConsent.tsx:11-17 | starts with banner and dialog hidden and the default preferences `{true,false,false}` |
| CookieConsent.ConsentGate.InitializeGa4Now | components/CookieConsent.tsx:49-75 | applies the initialiser to the window and changes nothing else |
| CookieConsent.ConsentGate.Mount | components/CookieConsent.tsx:19-47 | shows the banner exactly per ShowBannerOnMount; a valid consent is adopted and initialises analytics iff its analytics flag is set; otherwise the defaults stay |
| CookieConsent.ConsentGate.SaveConsent | components/CookieConsent.tsx:117-121 | persists exactly the given preferences with the current timestamp and adopts them |
| CookieConsent.ConsentGate.AcceptAll | components/CookieConsent.tsx:77-89 | persists `{true,true,true}` with a fresh timestamp, loads analytics and hides the banner, so the dialog is no longer rendered |
| CookieConsent.ConsentGate.RejectAll | components/CookieConsent.tsx:91-102 | persists `{true,false,false}`, hides the banner (and with it the dialog) and leaves the analytics window untouched (nothing is unloaded) |
| CookieConsent.ConsentGate.SavePreferences | components/CookieConsent.tsx:104-115 | persists the current preferences, initialises analytics iff analytics is on, closes banner and dialog |
| CookieConsent.ConsentGate.PreferenceChange | components/CookieConsent.tsx:123-130 | the preferences become TogglePreference of the old ones; every saved record keeps `necessary = true` |
| CookieConsent.ConsentGate.OpenPreferences | components/CookieConsent.tsx:132-158 | the dialog flag becomes true and nothing else changes; the dialog is rendered iff the banner is shown |
| CookieConsent.ConsentGate.ClosePreferences | components/CookieConsent.tsx:181-190 | the dialog flag becomes false, so the dialog is not rendered, and nothing else changes |
| WaitlistApi.ValidEmailMatchesRegex | pages/api/waitlist.js:23 | every string the executable check accepts matches `^[^\s@]+@[^\s@]+\.[^\s@]+$` |
| WaitlistApi.RegexMatchesValidEmail | pages/api/waitlist.js:23 | every string matching the regular expression is accepted by the check |
| WaitlistApi.EmailCheckIsRegex | pages/api/waitlist.js:23-24 | the check accepts exactly the regex's language |
| WaitlistApi.Precheck | pages/api/waitlist.js:6-27 | non-POST gives 405; a missing body gives 500; a falsy name or email gives 400 "Name and email are required" before the format check; with both present, an email outside the regex gives 400 "Invalid email format"; no early answer iff every check passes |
| WaitlistApi.AfterInsert | pages/api/waitlist.js:44-61 | 201 iff the insert succeeded (with its id), 409 iff the error code is `23505`, every other error 500 |
| WaitlistApi.NewRow | pages/api/waitlist.js:32-40 | the row carries name, email, practice and role unchanged and missing interests as an empty list |
| WaitlistApi.EveryStatusIsOneOfFive | pages/api/waitlist.js:6-66 | every response status is one of 405, 400, 409, 500, 201 |
| WaitlistApi.PresenceBeforeFormat | pages/api/waitlist.js:17-27 | an empty name is reported as missing even when the email is malformed too |
| WaitlistApi.WaitlistStore.constructor | pages/api/waitlist.js:30-31 | the table starts empty and consistent |
| WaitlistApi.WaitlistStore.Insert | pages/api/waitlist.js:30-42 | an injected fault changes nothing; a registered email yields `23505` and no row; otherwise the row is appended with a fresh id |
| WaitlistApi.WaitlistStore.Handle | pages/api/waitlist.js:3-66 | a request failing a check gets its early answer and changes nothing; a registered email gets 409 "Email already registered for waitlist" and changes nothing; a database fault gets AfterInsert of that fault and changes nothing; otherwise exactly NewRow is appended with the next id and the answer is 201 with that id |
| WaitlistModal.SetField | components/WaitlistModal.tsx:33-36 | the named field takes the value, every other field and the interests are unchanged |
| WaitlistModal.Remove | components/WaitlistModal.tsx:42 | the interest is gone, every other element's membership is kept |
| WaitlistModal.RemoveKeepsNoDuplicates | components/WaitlistModal.tsx:42 | removing from a duplicate-free list leaves it duplicate-free |
| WaitlistModal.ToggleInterest | components/WaitlistModal.tsx:38-45 | membership of exactly that interest flips; an absent one is appended at the end; the other fields are unchanged |
| WaitlistModal.ToggleInterestKeepsNoDuplicates | components/WaitlistModal.tsx:38-45 | the toggle preserves absence of duplicates |
| WaitlistModal.ToggleInterestKeepsOptions | components/WaitlistModal.tsx:100-240 | toggling one of the offered options keeps every chosen interest among the offered options |
| WaitlistModal.ToggleInterestTwice | components/WaitlistModal.tsx:38-45 | adding then removing an interest restores the form; removing then adding moves it to the end |
| WaitlistModal.RemoveAppended | components/WaitlistModal.tsx:42-43 | removing a just-appended new interest gives back the list |
| WaitlistModal.WaitlistForm.constructor | components/WaitlistModal.tsx:9-18 | starts with an empty form, not submitting, not submitted, no error |
| WaitlistModal.WaitlistForm.InputChange | components/WaitlistModal.tsx:33-36 | the form becomes SetField of the old form; the flags are unchanged |
| WaitlistModal.WaitlistForm.InterestChange | components/WaitlistModal.tsx:38-45 | the form becomes ToggleInterest of the old form; the flags are unchanged |
| WaitlistModal.WaitlistForm.StartSubmit | components/WaitlistModal.tsx:47-59 | sets submitting, clears the error and posts the current form unchanged |
| WaitlistModal.WaitlistForm.FinishSubmit | components/WaitlistModal.tsx:62-85 | submitting ends after every outcome; ok sets submitted; non-ok or a thrown error sets the fixed message and leaves submitted as it was |
| WaitlistModal.WaitlistForm.Submit | components/WaitlistModal.tsx:47-86 | the whole submit: afterwards not submitting, ok gives submitted with no error, failure gives the fixed message |
| WaitlistModal.WaitlistForm.Close | components/WaitlistModal.tsx:88-98 | ignored while submitting; otherwise resets to the empty form, not submitted, no error, closed |
| SitemapXml.UrlBlockCountsOne | pages/api/sitemap.js:61-66 | a page's `<url>` block holds exactly one `<url>` when its fields hold none |
| SitemapXml.FramedHasMarkers | pages/api/sitemap.js:54-69 | any text between the header and `</urlset>` carries the declaration, `<urlset` and `</urlset>` |
| SitemapXml.HeaderClean | pages/api/sitemap.js:54-58 | the header holds no `<url>` and ends with a newline |
| SitemapApi.StaticPages | pages/api/sitemap.js:7-50 | seven pages, the home page's url is empty, all with the given lastmod |
| SitemapApi.Blocks | pages/api/sitemap.js:59-67 | one block per page, in input order, with loc `DOMAIN + page.url` |
| SitemapApi.GeneratedSitemapValidates | pages/api/sitemap.js:53-97 | validateSitemap(generateSitemap(p)) holds for every page list |
| SitemapApi.JoinedBlocksCount | pages/api/sitemap.js:59-68 | blocks each holding one `<url>` and ending in `>`, joined by newlines, hold one `<url>` each |
| SitemapApi.GeneratedSitemapCountsPages | pages/api/sitemap.js:89 | with fields free of `<url>`, the count the validator logs equals the number of pages |
| SitemapApi.DatePart | pages/api/sitemap.js:107 | the text before the first `T` (all of it when there is none) |
| SitemapApi.WithLastmod | pages/api/sitemap.js:105-108 | same page count; each page keeps url, changefreq and priority and gets the date |
| SitemapApi.Handle | pages/api/sitemap.js:100-140 | a valid document answers 200 with the XML and the three headers; otherwise 500 with the error body and no headers |
| SitemapApi.RouteAlwaysSucceeds | pages/api/sitemap.js:111-128 | for any dates the validation passes, so the 500 path is unreachable |
| SitemapScript.StaticPages | scripts/generate-sitemap.js:9-34 | four pages, the home page's url is `/`, all with the given lastmod |
| SitemapScript.AppendPage | scripts/generate-sitemap.js:53-64 | the six appends for one page add exactly that page's lines |
| SitemapScript.HeaderText | scripts/generate-sitemap.js:40-49 | the five header appends build the declaration and `<urlset …>` header |
| SitemapScript.GenerateSitemap | scripts/generate-sitemap.js:37-67 | the loop builds header, each page's lines in order, then `</urlset>` |
| SitemapScript.PageLinesCountOne | scripts/generate-sitemap.js:53-64 | a page's six lines hold one `<url>` when its fields hold none |
| SitemapScript.BodyCount | scripts/generate-sitemap.js:52-65 | the lines of n clean pages hold n `<url>` |
| SitemapScript.ValidateSitemap | scripts/generate-sitemap.js:88-117 | passes iff the three markers are present and the `<url>` count equals the expected count; a missing declaration fails with its message |
| SitemapScript.FramedValidates | scripts/generate-sitemap.js:93-109 | a framed body ending in a newline with the right count passes |
| SitemapScript.GeneratedSitemapValidates | scripts/generate-sitemap.js:37-109 | the generated text passes the script's own validation when no field contains `<url>` |
| SitemapScript.StaticSitemapValidates | scripts/generate-sitemap.js:9-34 | the four static pages pass for any date free of `<url>` |
| SitemapScript.CountMismatchFails | scripts/generate-sitemap.js:106-109 | markers present but the wrong count fails with the mismatch message |
| SitemapScript.GenerateSitemapIndex | scripts/generate-sitemap.js:121-136 | the seven appends build the index for the domain and date |
| SitemapScript.SitemapIndexHasOneEntry | scripts/generate-sitemap.js:124-136 | the index holds exactly one `<sitemap>` and contains the loc line for `DOMAIN + /sitemap.xml` |
| SitemapScript.SiteIndexHasOneEntry | scripts/generate-sitemap.js:124-136 | the site's own index has one entry for any date without `<` |
| OptimizeImages.Block | scripts/optimize-images.js:46-67 | one variant per format in format order, each named by OutputName |
| OptimizeImages.Kept | scripts/optimize-images.js:42-44 | a size is kept iff it is configured and at most the width (equal sizes kept) |
| OptimizeImages.KeptPrefix | scripts/optimize-images.js:42-44 | sizes all within the width are kept in front, in order |
| OptimizeImages.PlanConcat | scripts/optimize-images.js:42-68 | the plan of split size lists is the concatenation of their plans |
| OptimizeImages.PlanVariants | scripts/optimize-images.js:42-68 | the nested loops with `continue` push exactly Plan |
| OptimizeImages.GenerateResponsiveImages | scripts/optimize-images.js:31-75 | the results are the planned variants, empty when processing failed |
| OptimizeImages.PlanOneFormat | scripts/optimize-images.js:42-68 | with one format, one variant per kept size in size order |
| OptimizeImages.PlanPairs | scripts/optimize-images.js:46-67 | 2 × kept entries: a webp then a jpg for each kept size, in order |
| OptimizeImages.PlanSizes | scripts/optimize-images.js:42-44 | every planned size is configured and at most the width |
| OptimizeImages.KeptAscending | scripts/optimize-images.js:10-44 | kept sizes keep the ascending configured order |
| OptimizeImages.NoVariantsIffNarrow | scripts/optimize-images.js:10-44 | no variant at all iff the width is below 320 |
| OptimizeImages.Entries | scripts/optimize-images.js:81 | one `/images/optimized/<name> <size>w` entry per image, in order |
| OptimizeImages.OfFormatPlan | scripts/optimize-images.js:80 | filtering a plan by format gives the single-format plan |
| OptimizeImages.SrcSetOfPlan | scripts/optimize-images.js:78-83 | the srcset lists only the requested format, one entry per kept size, ascending, joined by `", "` |
| OptimizeImages.FindIndex | scripts/optimize-images.js:89 | the first index satisfying the test, or -1 iff none does |
| OptimizeImages.Fallback | scripts/optimize-images.js:89 | none iff no images; the first jpg at 1024 with a non-empty name, else the first image's name |
| OptimizeImages.FallbackOfWideImage | scripts/optimize-images.js:89 | an image at least 1024 wide falls back to its 1024 jpg |
| OptimizeImages.FallbackOfNarrowImage | scripts/optimize-images.js:89 | an image 320 to 1023 wide falls back to its 320 webp |
| OptimizeImages.GeneratedFallbackNames | components/OptimizedImages.tsx:22-46 | these give `feature-icon-320w.webp` and `hero-background-1024w.jpg`, as in the generated file |
| OptimizeImages.StripNonAlphanumeric | scripts/optimize-images.js:93 | only alphanumerics remain, and every alphanumeric is kept |
| OptimizeImages.StripTwice | scripts/optimize-images.js:93 | stripping is idempotent |
| OptimizeImages.Identifier | scripts/optimize-images.js:93 | the stripped name followed by `Image` |
| OptimizeImages.IdentifierOfHyphenated | scripts/optimize-images.js:93 | `a-b` becomes `abImage` for alphanumeric parts |
| OptimizeImages.AltText | scripts/optimize-images.js:107 | same length; each `_` and `-` becomes a space, other characters stay in place |
| OptimizeImages.AltTextHasNoSeparators | scripts/optimize-images.js:107 | the alt text has no `_` or `-` |
| OptimizeImages.AltTextConcat | scripts/optimize-images.js:107 | the replacement works piecewise |
| OptimizeImages.AltTextOfHyphenated | scripts/optimize-images.js:107 | `a-b` becomes `a b` |
| OptimizeImages.ComponentOfPlan | scripts/optimize-images.js:86-115 | a planned component's srcsets follow its kept sizes and its fallback follows its width |
| OptimizeImages.IsImageFileIgnoresCase | scripts/optimize-images.js:134 | the extension filter ignores case |
| OptimizeImages.ImageFiles | scripts/optimize-images.js:133-135 | exactly the files passing the filter |
| OptimizeImages.ExtName | scripts/optimize-images.js:24 | the suffix from the last dot, unless that dot starts the name |
| OptimizeImages.UpperCaseExtensionKept | scripts/optimize-images.js:23-25 | `photo.JPG` passes the filter but keeps its extension in the as-written name; the corrected name is `photo` |
| OptimizeImages.BaseName | scripts/optimize-images.js:23-25 | name plus extension is the whole file name |
| OptimizeImages.AsWrittenAgreesOnLowerCase | scripts/optimize-images.js:23-25 | the two names agree when the extension is lower case |
| OptimizeImages.Optimized | scripts/optimize-images.js:149-157 | every recorded image has at least one variant; each is named by the given naming of its file |
| OptimizeImages.OptimizedNamesAgree | scripts/optimize-images.js:149-157 | two namings that agree on every file give the same records |
| OptimizeImages.LowerCaseExtensionsAsIntended | scripts/optimize-images.js:149-157 | when every extension is lower case, the script's records equal those under the intended BaseName |
| OptimizeImages.UpperCaseExtensionRecorded | scripts/optimize-images.js:150-155 | `photo.JPG` at width 1024 is recorded as `photo.JPG` by the script and as `photo` under the intended name |
| OptimizeImages.OmittedIffFailedOrNarrow | scripts/optimize-images.js:153-156 | an image is omitted iff it failed to process or is narrower than 320 |
| OptimizeImages.Components | scripts/optimize-images.js:155 | one component per recorded image, in order |
| OptimizeImages.OptimizedStep | scripts/optimize-images.js:149-157 | one more file adds its record, under its name, exactly when it has variants |
| OptimizeImages.OptimizeAll | scripts/optimize-images.js:133-157 | the loop records exactly Optimized of the filtered files, each named by `getFileInfo` as written (BaseNameAsWritten), and their components |
| LighthouseAudit.InsertKeepsDescending | scripts/lighthouse-audit.js:130 | inserting into a descending list keeps it descending |
| LighthouseAudit.InsertAddsOne | scripts/lighthouse-audit.js:130 | inserting adds the element and loses nothing |
| LighthouseAudit.SortDescendingSorts | scripts/lighthouse-audit.js:130 | the sort is a permutation of its input, descending by savings |
| LighthouseAudit.PrefixOfDescending | scripts/lighthouse-audit.js:160 | a prefix of a descending list is descending and none of its elements is smaller than one cut off |
| LighthouseAudit.Candidates | scripts/lighthouse-audit.js:122-129 | every opportunity has positive savings and comes from an audit with savings; every such audit yields one |
| LighthouseAudit.RankedOpportunitiesAreTheSavings | scripts/lighthouse-audit.js:121-130 | descending by savings, a permutation of the candidates, all positive, none with savings missing |
| LighthouseAudit.AuditPage | scripts/lighthouse-audit.js:78-143 | page, url and device are kept; no error iff Lighthouse ran; a missing result has the fixed message, an exception its own |
| LighthouseAudit.FailedAuditScoresZero | scripts/lighthouse-audit.js:133-142 | a failed audit scores zero in all four categories and has no opportunities |
| LighthouseAudit.RunAudit | scripts/lighthouse-audit.js:284-296 | 2 × pages results: result 2i is page i on desktop, 2i+1 the same page on mobile |
| Rounding.RoundHalfUp | scripts/lighthouse-audit.js:149 | the nearest integer to n / d, ties rounded up, as `Math.round`; non-negative for non-negative n, as `toFixed(0)` at components/SecurityCTA.tsx:170-173 |
| Rounding.RoundHalfUpWithin | scripts/lighthouse-audit.js:149 | a quotient between lo and hi stays between them once rounded |
| LighthouseAudit.Average | scripts/lighthouse-audit.js:149-152 | none (NaN) iff the list is empty; otherwise the rounded mean |
| LighthouseAudit.SumBounds | scripts/lighthouse-audit.js:149 | n scores in [lo, hi] sum to between n·lo and n·hi |
| LighthouseAudit.AverageBounds | scripts/lighthouse-audit.js:149-152 | the rounded average of scores in [lo, hi] lies in [lo, hi] |
| LighthouseAudit.CategoryScores | scripts/lighthouse-audit.js:149-152 | one score per result, in result order |
| LighthouseAudit.Passes | scripts/lighthouse-audit.js:174-177 | PASS iff the average exists and is at least 90; no results never pass |
| LighthouseAudit.AllTickedPasses | scripts/lighthouse-audit.js:174-191 | when every result is ticked in a category, its status is PASS |
| LighthouseAudit.OneFailureCanFailCategory | scripts/lighthouse-audit.js:133-177 | one failed audit beside a perfect one averages 50 and fails |
| LighthouseAudit.AllOpportunities | scripts/lighthouse-audit.js:156-158 | every tagged entry comes from a result with opportunities and carries its page; every opportunity of such a result is present |
| LighthouseAudit.TopOpportunitiesAreTheLargest | scripts/lighthouse-audit.js:156-160 | min(10, n) entries, descending, drawn from all opportunities, none left out saving more than any listed |
| PricingFaq.FilteredItems | components/PricingFAQ.tsx:123-125 | `all` gives every item; any other category exactly its items, in order |
| PricingFaq.Categories | components/PricingFAQ.tsx:115-121 | each tab's count is its filtered length; the four category counts sum to the `all` count |
| PricingFaq.CountsPartition | components/PricingFAQ.tsx:115-121 | every item belongs to exactly one of the four categories |
| PricingFaq.ToggleItem | components/PricingFAQ.tsx:127-138 | flips membership of exactly the id, the rest of the set is unchanged |
| PricingFaq.ToggleItemTwice | components/PricingFAQ.tsx:127-138 | toggling twice restores the set |
| PricingFaq.SeveralOpen | components/PricingFAQ.tsx:129-142 | two answers can be open at once |
| ListFilter.Filter | components/PricingFAQ.tsx:125 | the kept elements satisfy the test and every element satisfying it is kept |
| ListFilter.FilterConcat | components/PricingFAQ.tsx:125 | filtering works piecewise, so kept elements keep their order |
| ListFilter.Reveal | components/PricingFAQ.tsx:22-26 | the visible set gains exactly the non-empty id of an intersecting entry |
| ListFilter.RevealAllGrows | components/SecurityFeatures.tsx:25-29 | the visible set only grows |
| SecurityFeatures.FilteredFeatures | components/SecurityFeatures.tsx:183-185 | `all` gives every feature; otherwise exactly that category's, in order |
| SecurityFeatures.Categories | components/SecurityFeatures.tsx:175-181 | counts equal filtered lengths and the four sum to the `all` count |
| SecurityFeatures.CountsPartition | components/SecurityFeatures.tsx:175-181 | every feature belongs to exactly one category |
| SecurityFeatures.ToggleFeature | components/SecurityFeatures.tsx:187-190 | toggling the expanded id collapses it; any other id becomes the only expanded one |
| SecurityFeatures.ExpandedIds | components/SecurityFeatures.tsx:238 | at most one card is expanded, and a card is expanded iff its id is the expanded one |
| SecurityFeatures.ToggleTwoFeatures | components/SecurityFeatures.tsx:189 | opening another card replaces the first; toggling one twice leaves it as it was |
| FeatureGrid.FilteredFeatures | components/FeatureGrid.tsx:202-204 | `all` gives every feature; otherwise exactly that category's, in order |
| FeatureGrid.Categories | components/FeatureGrid.tsx:191-200 | eight tabs, each count the length of its filtered list |
| FeatureGrid.ShownBullets | components/FeatureGrid.tsx:260 | the first min(4, n) bullets |
| FeatureGrid.MoreCount | components/FeatureGrid.tsx:270-274 | the "+N more" line is present iff there are more than four bullets |
| FeatureGrid.CardAccountsForAllBullets | components/FeatureGrid.tsx:260-274 | shown bullets plus N equals the bullet count; the rest are exactly the hidden ones |
| FeatureGrid.ReplaceFirst | components/FeatureGrid.tsx:249 | only the first occurrence is replaced, everything else is kept |
| FeatureGrid.CategoryLabelExample | components/FeatureGrid.tsx:249 | `client-management` is labelled `client management` |
| SecurityCta.FormatSmall | components/SecurityCTA.tsx:175 | below 1000 the plain decimal without a suffix |
| SecurityCta.FormatThousands | components/SecurityCTA.tsx:172-173 | 1000 to 999999 read as the rounded thousands followed by `K+` |
| SecurityCta.FormatMillions | components/SecurityCTA.tsx:170-171 | a million or more read as the rounded millions followed by `M+` |
| SecurityCta.JustUnderAMillion | components/SecurityCTA.tsx:169-173 | 999500 to 999999 read `1000K+`, since the branch is chosen before rounding |
| SecurityCta.TiesRoundUp | components/SecurityCTA.tsx:170-173 | 1500 reads `2K+` and 2500000 reads `3M+` |
| PricingCta.Rotate | components/PricingCTA.tsx:42 | the next index stays below the count: one step forward, wrapping to 0 after the last |
| PricingCta.RotateStepsWithinCycle | components/PricingCTA.tsx:41-43 | k ticks within a cycle advance k places, wrapping once |
| PricingCta.FullCycle | components/PricingCTA.tsx:42 | count ticks return to the starting index |
| PricingCta.ClickDot | components/PricingCTA.tsx:215-218 | clicking dot i, one of the testimonials' dots, selects exactly i, which stays below the count |
| PricingCta.DotKeepsOneVisible | components/PricingCTA.tsx:215-218 | after a dot is clicked exactly one slide is visible |
| PricingCta.Visibility | components/PricingCTA.tsx:179-184 | slide i is visible iff it is the current one |
| PricingCta.ExactlyOneVisible | components/PricingCTA.tsx:179-184 | exactly one slide is visible |
| PricingCta.RotationKeepsOneVisible | components/PricingCTA.tsx:179-184 | after every tick exactly one slide is visible |
| Text.NatToString | scripts/optimize-images.js:47 | decimal digits without leading zeros, one digit iff below 10 |
| Text.ParseNatToString | scripts/optimize-images.js:47 | reading the digits back gives the number |
| Text.NatToStringInjective | scripts/optimize-images.js:47 | distinct sizes give distinct file names' size parts |
| Text.IntToString | components/SecurityCTA.tsx:175 | negatives get a leading `-` before the magnitude's digits |
| Text.IndexOf | components/FeatureGrid.tsx:249 | the first position holding the character, or -1 iff absent |
| Text.ContainsInfix | pages/api/sitemap.js:78-86 | `includes` finds any infix |

## Left out

- Dates: `new Date`, `setFullYear`, `toISOString` and `toLocaleString` are not modelled. Timestamps are integers, "one year ago" is a parameter, and ISO strings are given text.
- JSON: `JSON.parse` of tampered storage and `JSON.stringify` are not modelled. The stored consent is a record.
- WaitlistApi: the body's fields are strings, or a list of strings for interests. Non-string JSON values are not modelled: `0` or `false` counted as missing, and the regex test coercing a non-string such as `["a@b.co"]` to text and then inserting it as it is.
- Logging: `console` output is left out. So is the `gtag('event', …)` conversion call after a waitlist submission, which only reports to analytics.
- Timers: the rotation interval, the 1-second delay between audits and the 300 ms delayed reset in the form's close are not modelled. `WaitlistModal.WaitlistForm.Close` applies the reset at once, and only the rotation step function is modelled.
- Floating point: `score * 100` rounding in the audit and opportunity savings given in fractional milliseconds are left out. Scores and savings are integers.
- Floating point is also why the price arithmetic and the stat easing animation are left out.
- External services and tools are parameters or outcomes, not code: the Supabase client, `fetch`, `sharp`, Lighthouse, `chrome-launcher`, and every file read and write.
- Chrome launch failure and `process.exit` are not modelled.
- Site-wide consent gating is not claimed. `components/Analytics.tsx` loads gtag unconditionally from `pages/_app.tsx:114`, and the consent component is mounted twice. The consent properties hold inside the consent component only.
- CookieConsent.ConsentGate.Mount: requires the state the component mounts with (banner hidden), since the effect runs once after the first render.
- Rendering: the JSX, styling, icons and IntersectionObserver wiring are not modelled, apart from the visible-set update. The component and report template text is left out too; only the computed parts are modelled (identifier, srcsets, fallback, alt text, averages, statuses, ticks, top list).
- Client-side email checks: the form has none besides browser `required`/`type="email"`. The server regex is the only one modelled.
- SitemapApi.Handle: the 500 answer's JSON body is a fixed text without the message and timestamp fields. The lemma RouteAlwaysSucceeds shows that branch is never taken.
- SitemapScript: the writes to `public/sitemap.xml` and `public/sitemap-index.xml` and the read-back are not modelled. The validator takes the generated text directly.
- OptimizeImages: `path.join`, `path.dirname` and output paths are not modelled. An image is known by its file name.
- OptimizeImages.ExtName: node's special case of names made only of dots is not modelled.
- OptimizeImages: a missing `metadata.width` is treated like a failed image, which has no variants. In the script, `undefined < size` is false, so such an image would get every size. That case is not modelled.
- OptimizeImages: sample-image creation, the usage-documentation file and the export list text are left out.
- LighthouseAudit: the report file name derived from the page name, the per-audit JSON dump, the `audits` and `reportPath` fields, and an opportunity's `score` are left out.
- LighthouseAudit.SortDescendingSorts: the sort is a stable insertion sort, but its contract states order and permutation only, not stability.
- LighthouseAudit.AuditPage: an audit missing from a result's audit map (a `TypeError` caught as a failure) is not modelled. Each audit reference carries its audit.
- PricingCta.Rotate: requires a non-empty list, which the fixed three testimonials ensure.
- Static components are left out. They contain only constant data and one-line toggles: ComplianceSection, Header, Features, Hero, FeatureHero, FeatureCTA, PricingHero, SecurityHero, Layout, PricingPlans and the pages.
- `scripts/generate-og-image.js` only writes a fixed buffer and is left out.

## Findings

| source | as written | input that shows it | evidently intended | confidence | as-written member | corrected member |
|---|---|---|---|---|---|---|
| scripts/optimize-images.js:23-25 | `getFileInfo` lowercases the extension and then strips it with the case-sensitive `path.basename(filePath, ext)`, so an upper-case extension is not removed | `photo.JPG` passes the `/…$/i` filter but gets the name `photo.JPG`, giving variants such as `photo.JPG-320w.webp` | the name without its extension, `photo` | not executed | OptimizeImages.UpperCaseExtensionKept | OptimizeImages.BaseName |

The main loop, OptimizeImages.OptimizeAll, names each image as the script does, with BaseNameAsWritten. OptimizeImages.UpperCaseExtensionRecorded shows the resulting record for `photo.JPG`. OptimizeImages.LowerCaseExtensionsAsIntended shows that the corrected BaseName gives the same records whenever every extension is lower case.
