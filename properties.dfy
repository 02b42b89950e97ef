/**
 * What the scrape handler guarantees, stated over `Handle` for every request
 * and every behaviour of the fetchers, the DOM and Readability.
 */
module ScrapeProperties {
  import opened Wrappers
  import opened Text
  import Url
  import Checkpoint
  import opened Extraction
  import opened Scrape

  /** The request carries a non-empty URL string. */
  predicate HasUrl(body: RequestBody) {
    body.Json? && body.url.Str? && body.url.s != ""
  }

  /** The URL the handler fetches for such a request. */
  function FullUrl(body: RequestBody): (u: string)
    requires HasUrl(body)
    ensures IsPrefix("http", u)
  {
    Url.Normalize(body.url.s)
  }

  /** A request that carries a URL is handled by `Process` on its normalised URL. */
  lemma HandleWithUrl(
    body: RequestBody, direct: string -> DirectOutcome, headless: string -> HeadlessOutcome,
    dom: string -> Dom, readability: (string, string) -> Option<Article>)
    requires HasUrl(body)
    ensures Handle(body, direct, headless, dom, readability) ==
      Process(FullUrl(body), direct, headless, dom, readability)
  {
  }

  /**
   * A missing or empty URL (or any falsy value) is answered 400 "URL is
   * required" before anything is fetched, and only such a request gets that answer.
   */
  lemma UrlRequiredBeforeAnyFetch(
    body: RequestBody, direct: string -> DirectOutcome, headless: string -> HeadlessOutcome,
    dom: string -> Dom, readability: (string, string) -> Option<Article>)
    ensures var o := Handle(body, direct, headless, dom, readability);
      && (o.response == UrlRequired <==> body.Json? && !Truthy(body.url))
      && (o.response == UrlRequired ==>
            o.steps == [] && o.response.Status() == 400 && o.response.Error() == UrlRequiredError)
  {
  }

  /**
   * A body that is not JSON, or a truthy `url` that is not a string (whose
   * `startsWith` throws), is answered 500 without any fetch.
   */
  lemma UnusableRequestIsServerError(
    body: RequestBody, direct: string -> DirectOutcome, headless: string -> HeadlessOutcome,
    dom: string -> Dom, readability: (string, string) -> Option<Article>)
    requires body.MalformedJson? || (body.Json? && Truthy(body.url) && !body.url.Str?)
    ensures Handle(body, direct, headless, dom, readability) == Outcome(Unexpected, [])
    ensures Unexpected.Status() == 500
  {
  }

  /**
   * Every fetch goes to the normalised URL, which starts with "http", and the
   * direct fetch always comes first.
   */
  lemma FetchesUseNormalizedUrl(
    body: RequestBody, direct: string -> DirectOutcome, headless: string -> HeadlessOutcome,
    dom: string -> Dom, readability: (string, string) -> Option<Article>)
    ensures var o := Handle(body, direct, headless, dom, readability);
      && (o.steps != [] ==> HasUrl(body) && o.steps[0] == DirectFetch(FullUrl(body)))
      && forall k :: 0 <= k < |o.steps| && !o.steps[k].ExtractContent? ==>
           HasUrl(body) && o.steps[k].url == FullUrl(body) && IsPrefix("http", o.steps[k].url)
  {
    if HasUrl(body) {
      HandleWithUrl(body, direct, headless, dom, readability);
      ProcessFetchesOnlyItsUrl(FullUrl(body), direct, headless, dom, readability);
    }
  }

  /** `Process` fetches only the URL it is given, and extracts at most once, at the end. */
  lemma ProcessFetchesOnlyItsUrl(
    fullUrl: string, direct: string -> DirectOutcome, headless: string -> HeadlessOutcome,
    dom: string -> Dom, readability: (string, string) -> Option<Article>)
    ensures var o := Process(fullUrl, direct, headless, dom, readability);
      forall k :: 0 <= k < |o.steps| && !o.steps[k].ExtractContent? ==> o.steps[k].url == fullUrl
  {
    AcquireFetchesOnlyItsUrl(fullUrl, direct, headless);
    FetchesOnlyWithExtract(Acquire(fullUrl, direct, headless).steps, fullUrl);
  }

  /** Acquisition fetches the URL it is given, directly first, and extracts nothing. */
  lemma AcquireFetchesOnlyItsUrl(fullUrl: string, direct: string -> DirectOutcome, headless: string -> HeadlessOutcome)
    ensures var a := Acquire(fullUrl, direct, headless);
      && a.steps != [] && a.steps[0] == DirectFetch(fullUrl)
      && forall k :: 0 <= k < |a.steps| ==> !a.steps[k].ExtractContent? && a.steps[k].url == fullUrl
  {
  }

  /** Appending the extraction step adds no fetch. */
  lemma FetchesOnlyWithExtract(steps: seq<Step>, url: string)
    requires forall k :: 0 <= k < |steps| ==> !steps[k].ExtractContent? && steps[k].url == url
    ensures var t := steps + [ExtractContent];
      forall k :: 0 <= k < |t| && !t[k].ExtractContent? ==> t[k].url == url
  {
  }

  /**
   * An ok direct response with a readable body is used as it is: the headless
   * fetcher is never started, the request is never reported blocked, and a
   * success reports a "fetch" method.
   */
  lemma DirectSuccessNeverEscalates(
    body: RequestBody, direct: string -> DirectOutcome, headless: string -> HeadlessOutcome,
    dom: string -> Dom, readability: (string, string) -> Option<Article>)
    requires HasUrl(body) && DirectHtml(direct(FullUrl(body))).Some?
    ensures var o := Handle(body, direct, headless, dom, readability);
      && o.steps[0] == DirectFetch(FullUrl(body))
      && (forall k :: 0 <= k < |o.steps| ==> !o.steps[k].HeadlessFetch?)
      && !o.response.ScrapingBlocked?
      && (o.response.Scraped? ==> IsPrefix("fetch", o.response.extractionMethod))
  {
    HandleWithUrl(body, direct, headless, dom, readability);
    ProcessDirectSuccess(FullUrl(body), direct, headless, dom, readability);
  }

  /** `Process` after an ok, readable direct response: no second fetch, and "fetch" as the method. */
  lemma ProcessDirectSuccess(
    fullUrl: string, direct: string -> DirectOutcome, headless: string -> HeadlessOutcome,
    dom: string -> Dom, readability: (string, string) -> Option<Article>)
    requires DirectHtml(direct(fullUrl)).Some?
    ensures var o := Process(fullUrl, direct, headless, dom, readability);
      && (o.steps == [DirectFetch(fullUrl)] || o.steps == [DirectFetch(fullUrl), ExtractContent])
      && !o.response.ScrapingBlocked?
      && (o.response.Scraped? ==> IsPrefix("fetch", o.response.extractionMethod))
  {
    var h := DirectHtml(direct(fullUrl)).value;
    MethodStartsWithStrategy(fullUrl, h, "fetch", dom(h), readability(h, fullUrl));
  }

  /** The method a success reports starts with the strategy that obtained the page. */
  lemma MethodStartsWithStrategy(fullUrl: string, html: string, strategy: string, page: Dom, parsed: Option<Article>)
    ensures var r := Respond(fullUrl, html, strategy, page, parsed);
      r.Scraped? ==> IsPrefix(strategy, r.extractionMethod)
  {
    var r := Respond(fullUrl, html, strategy, page, parsed);
    if r.Scraped? {
      var m := r.extractionMethod;
      assert m[..|strategy|] == strategy;
    }
  }

  /**
   * A non-ok status, an unreadable body or an exception escalates to the
   * headless fetcher; if that fails too the answer is SCRAPING_BLOCKED (400)
   * with no data, and a success reports a "puppeteer-stealth" method.
   */
  lemma FailedDirectEscalates(
    body: RequestBody, direct: string -> DirectOutcome, headless: string -> HeadlessOutcome,
    dom: string -> Dom, readability: (string, string) -> Option<Article>)
    requires HasUrl(body) && DirectHtml(direct(FullUrl(body))).None?
    ensures var o := Handle(body, direct, headless, dom, readability);
      && |o.steps| >= 2
      && o.steps[..2] == [DirectFetch(FullUrl(body)), HeadlessFetch(FullUrl(body))]
      && (headless(FullUrl(body)).Failed? ==>
            o == Outcome(ScrapingBlocked, [DirectFetch(FullUrl(body)), HeadlessFetch(FullUrl(body))])
            && o.response.Status() == 400 && o.response.Type() == "SCRAPING_BLOCKED")
      && (o.response.Scraped? ==> IsPrefix("puppeteer-stealth", o.response.extractionMethod))
  {
  }

  /** SCRAPING_BLOCKED is answered exactly when both fetchers failed. */
  lemma BlockedExactlyWhenBothFail(
    body: RequestBody, direct: string -> DirectOutcome, headless: string -> HeadlessOutcome,
    dom: string -> Dom, readability: (string, string) -> Option<Article>)
    ensures Handle(body, direct, headless, dom, readability).response.ScrapingBlocked? <==>
      HasUrl(body) && DirectHtml(direct(FullUrl(body))).None? && headless(FullUrl(body)).Failed?
  {
  }

  /**
   * A challenge page stops the request: SECURITY_CHECKPOINT (400) is answered
   * exactly when the obtained HTML, with the page title, makes the detector
   * fire; it carries the kind the detector names (so its message and type),
   * and content extraction is not started.
   */
  lemma CheckpointStopsExtraction(
    body: RequestBody, direct: string -> DirectOutcome, headless: string -> HeadlessOutcome,
    dom: string -> Dom, readability: (string, string) -> Option<Article>)
    requires HasUrl(body)
    ensures var o := Handle(body, direct, headless, dom, readability);
      var a := Acquire(FullUrl(body), direct, headless);
      && (o.response.SecurityCheckpoint? <==>
            a.html.Some? && Checkpoint.Detect(a.html.value, PageTitle(dom(a.html.value))).IsCheckpoint())
      && (o.response.SecurityCheckpoint? ==>
            var v := Checkpoint.Detect(a.html.value, PageTitle(dom(a.html.value)));
            && o.response == SecurityCheckpoint(v.kind)
            && o.response.Status() == 400 && o.response.Type() == "SECURITY_CHECKPOINT"
            && ExtractContent !in o.steps)
  {
  }

  /**
   * The SECURITY_CHECKPOINT answer for a verdict: status 400, its `error` is
   * the verdict's message and its `checkpointType` the verdict's type.
   */
  lemma CheckpointResponseFields(v: Checkpoint.Verdict)
    requires v.Blocked?
    ensures var r := SecurityCheckpoint(v.kind);
      && r.Status() == 400 && r.Type() == "SECURITY_CHECKPOINT"
      && r.Error() == v.Message() && r.CheckpointType() == v.Type()
  {
  }

  /** Content extraction runs exactly on the requests that succeed, as their last step. */
  lemma ExtractionOnlyOnSuccess(
    body: RequestBody, direct: string -> DirectOutcome, headless: string -> HeadlessOutcome,
    dom: string -> Dom, readability: (string, string) -> Option<Article>)
    ensures var o := Handle(body, direct, headless, dom, readability);
      && (ExtractContent in o.steps <==> o.response.Scraped?)
      && (o.response.Scraped? ==> o.steps[|o.steps| - 1] == ExtractContent)
  {
    var o := Handle(body, direct, headless, dom, readability);
    if HasUrl(body) {
      var a := Acquire(FullUrl(body), direct, headless);
      assert ExtractContent !in a.steps;
    }
  }

  /**
   * A successful answer is well formed: its URL is the normalised one, its
   * title is not empty, content and description are within 3000 and 500
   * characters, hold no two whitespace characters in a row and no whitespace
   * other than spaces, and do not begin with whitespace; the method is the
   * strategy that obtained the page followed by the extraction used.
   */
  lemma ScrapedFieldsAreClean(
    body: RequestBody, direct: string -> DirectOutcome, headless: string -> HeadlessOutcome,
    dom: string -> Dom, readability: (string, string) -> Option<Article>)
    ensures var o := Handle(body, direct, headless, dom, readability);
      o.response.Scraped? ==>
        var d := o.response.data;
        && HasUrl(body) && d.url == FullUrl(body) && IsPrefix("http", d.url)
        && o.response.Status() == 200
        && d.title != ""
        && |d.content| <= MaxContentLength && |d.description| <= MaxDescriptionLength
        && NoWsRun(d.content) && NoWsRun(d.description)
        && OnlySpaces(d.content) && OnlySpaces(d.description)
        && (d.content != [] ==> !IsWs(d.content[0]))
        && (d.description != [] ==> !IsWs(d.description[0]))
        && exists strategy :: strategy in {"fetch", "puppeteer-stealth"} &&
             o.response.extractionMethod in {strategy + "+readability", strategy + "+cheerio-fallback"}
  {
    if HasUrl(body) {
      HandleWithUrl(body, direct, headless, dom, readability);
      var a := Acquire(FullUrl(body), direct, headless);
      if a.html.Some? {
        var h := a.html.value;
        ScrapedResponseIsClean(FullUrl(body), h, a.strategy, dom(h), readability(h, FullUrl(body)));
        assert a.strategy in {"fetch", "puppeteer-stealth"};
      }
    }
  }

  /** The same guarantees, for the response built from an obtained page. */
  lemma ScrapedResponseIsClean(fullUrl: string, html: string, strategy: string, page: Dom, parsed: Option<Article>)
    ensures var r := Respond(fullUrl, html, strategy, page, parsed);
      r.Scraped? ==>
        var d := r.data;
        && d.url == fullUrl
        && d.title != ""
        && |d.content| <= MaxContentLength && |d.description| <= MaxDescriptionLength
        && NoWsRun(d.content) && NoWsRun(d.description)
        && OnlySpaces(d.content) && OnlySpaces(d.description)
        && (d.content != [] ==> !IsWs(d.content[0]))
        && (d.description != [] ==> !IsWs(d.description[0]))
        && r.extractionMethod in {strategy + "+readability", strategy + "+cheerio-fallback"}
  {
    var x := Extract(page, parsed);
    CleanSpec(x.description, MaxDescriptionLength);
    CleanSpec(x.content, MaxContentLength);
  }

  /**
   * Which extraction is used, once a page without a checkpoint is obtained:
   * Readability exactly when it returned content longer than 100 characters,
   * and then its title (even the "No title found" it defaults to) replaces
   * the page title; otherwise the Cheerio fallback, with the page title and
   * the first non-empty of the trimmed main, article and body texts. The result
   * is the chosen text, cleaned.
   */
  lemma ReadabilitySelection(
    body: RequestBody, direct: string -> DirectOutcome, headless: string -> HeadlessOutcome,
    dom: string -> Dom, readability: (string, string) -> Option<Article>)
    requires HasUrl(body)
    requires Acquire(FullUrl(body), direct, headless).html.Some?
    requires var h := Acquire(FullUrl(body), direct, headless).html.value;
      !Checkpoint.Detect(h, PageTitle(dom(h))).IsCheckpoint()
    ensures var o := Handle(body, direct, headless, dom, readability);
      var a := Acquire(FullUrl(body), direct, headless);
      var h := a.html.value;
      var r := FromArticle(readability(h, FullUrl(body)));
      var page := dom(h);
      && o.response.Scraped?
      && (Accepted(r) ==>
            && o.response.extractionMethod == a.strategy + "+readability"
            && o.response.data.title == r.value.title
            && o.response.data.content == Clean(r.value.content, MaxContentLength))
      && (!Accepted(r) ==>
            && o.response.extractionMethod == a.strategy + "+cheerio-fallback"
            && o.response.data.title == PageTitle(page)
            && o.response.data.content ==
                 Clean(Or(Or(Trim(page.mainText), Trim(page.articleText)), Trim(page.bodyText)), MaxContentLength))
  {
  }

  /**
   * In the file as shown, `puppeteer` is never bound, so the headless fetcher
   * always throws: every request whose direct fetch fails ends SCRAPING_BLOCKED.
   */
  lemma StealthAsShippedAlwaysBlocks(
    body: RequestBody, direct: string -> DirectOutcome, headless: string -> HeadlessOutcome,
    dom: string -> Dom, readability: (string, string) -> Option<Article>)
    requires forall u :: headless(u) == Failed
    requires HasUrl(body) && DirectHtml(direct(FullUrl(body))).None?
    ensures Handle(body, direct, headless, dom, readability).response == ScrapingBlocked
  {
  }

  /** Text that the clean-up leaves alone: single spaces only, no white space at the ends. */
  predicate Tidy(s: string) {
    NoWsRun(s) && OnlySpaces(s) && (s != [] ==> !IsWs(s[0]) && !IsWs(s[|s| - 1]))
  }

  /**
   * The direct fetch answers 200, Readability finds nothing, no checkpoint
   * pattern occurs, and the page has a tidy `<title>`, no meta description, a
   * tidy first paragraph (at most 500 characters) and tidy `<main>` text (at most
   * 3000): the answer carries exactly those texts, found by the fallback after
   * the direct fetch.
   */
  lemma DirectPageIsExtracted(
    body: RequestBody, direct: string -> DirectOutcome, headless: string -> HeadlessOutcome,
    dom: string -> Dom, readability: (string, string) -> Option<Article>, html: string)
    requires HasUrl(body)
    requires direct(FullUrl(body)) == Responded(200, Some(html))
    requires readability(html, FullUrl(body)) == None
    requires var page := dom(html);
      && page.titleText != "" && Tidy(page.titleText) && page.metaDescription.None?
      && Tidy(page.firstParagraphText) && |page.firstParagraphText| <= MaxDescriptionLength
      && page.mainText != "" && Tidy(page.mainText) && |page.mainText| <= MaxContentLength
    requires !Checkpoint.Detect(html, dom(html).titleText).IsCheckpoint()
    ensures var page := dom(html);
      Handle(body, direct, headless, dom, readability) ==
        Outcome(
          Scraped(Data(FullUrl(body), page.titleText, page.firstParagraphText, page.mainText),
                  "fetch" + CheerioFallback.Suffix()),
          [DirectFetch(FullUrl(body)), ExtractContent])
  {
    var u := FullUrl(body);
    HandleWithUrl(body, direct, headless, dom, readability);
    assert Acquire(u, direct, headless) == Acquisition(Some(html), "fetch", [DirectFetch(u)]);
    TidyPageIsKept(u, html, "fetch", dom(html));
  }

  /**
   * A page that Readability cannot parse, with tidy texts short enough and no
   * checkpoint pattern, is answered with its title, first paragraph and main
   * text as they are, by the fallback.
   */
  lemma TidyPageIsKept(fullUrl: string, html: string, strategy: string, page: Dom)
    requires page.titleText != "" && Tidy(page.titleText) && page.metaDescription.None?
    requires Tidy(page.firstParagraphText) && |page.firstParagraphText| <= MaxDescriptionLength
    requires page.mainText != "" && Tidy(page.mainText) && |page.mainText| <= MaxContentLength
    requires !Checkpoint.Detect(html, page.titleText).IsCheckpoint()
    ensures Respond(fullUrl, html, strategy, page, None) ==
      Scraped(Data(fullUrl, page.titleText, page.firstParagraphText, page.mainText),
              strategy + CheerioFallback.Suffix())
  {
    AlreadyTrimmed(page.titleText);
    AlreadyTrimmed(page.firstParagraphText);
    AlreadyTrimmed(page.mainText);
    assert PageTitle(page) == page.titleText;
    ExtractSpec(page, None);
    assert Extract(page, None) == Extracted(page.titleText, page.firstParagraphText, page.mainText, CheerioFallback);
    CleanOfCleaned(page.firstParagraphText, MaxDescriptionLength);
    CleanOfCleaned(page.mainText, MaxContentLength);
  }

  /** A text that neither starts nor ends with white space is its own trim. */
  lemma AlreadyTrimmed(s: string)
    requires s != [] ==> !IsWs(s[0]) && !IsWs(s[|s| - 1])
    ensures Trim(s) == s
  {
    assert WsPrefixLen(s) == 0;
    assert s[0..] == s;
    assert WsSuffixLen(s) == 0;
  }

  /** Text that is already clean and short enough goes through the clean-up unchanged. */
  lemma CleanOfCleaned(s: string, n: nat)
    requires Tidy(s) && |s| <= n
    ensures Clean(s, n) == s
  {
    CollapseOfCollapsed(s);
    AlreadyTrimmed(s);
  }

  /**
   * Direct fetch refused with 403, the headless fetcher renders a page without
   * challenge signatures: the result is extracted from that page and says that
   * the headless path was used.
   */
  lemma BlockedThenRendered(
    body: RequestBody, direct: string -> DirectOutcome, headless: string -> HeadlessOutcome,
    dom: string -> Dom, readability: (string, string) -> Option<Article>, html: string)
    requires HasUrl(body)
    requires direct(FullUrl(body)).Responded? && direct(FullUrl(body)).status == 403
    requires headless(FullUrl(body)) == Rendered(html)
    requires !Checkpoint.Detect(html, PageTitle(dom(html))).IsCheckpoint()
    ensures var o := Handle(body, direct, headless, dom, readability);
      && o.response.Scraped?
      && IsPrefix("puppeteer-stealth", o.response.extractionMethod)
      && o.steps == [DirectFetch(FullUrl(body)), HeadlessFetch(FullUrl(body)), ExtractContent]
  {
    var u := FullUrl(body);
    HandleWithUrl(body, direct, headless, dom, readability);
    assert Acquire(u, direct, headless) ==
      Acquisition(Some(html), "puppeteer-stealth", [DirectFetch(u), HeadlessFetch(u)]);
    MethodStartsWithStrategy(u, html, "puppeteer-stealth", dom(html), readability(html, u));
  }

  /**
   * The headless fetcher renders a page that mentions "cf-ray" and shows no
   * Vercel pattern: the answer is a Cloudflare SECURITY_CHECKPOINT and no
   * content is extracted.
   */
  lemma CloudflareChallengeIsReported(
    body: RequestBody, direct: string -> DirectOutcome, headless: string -> HeadlessOutcome,
    dom: string -> Dom, readability: (string, string) -> Option<Article>, html: string)
    requires HasUrl(body)
    requires DirectHtml(direct(FullUrl(body))).None?
    requires headless(FullUrl(body)) == Rendered(html)
    requires Contains(html, "cf-ray")
    requires !Checkpoint.AnyOccurs(Checkpoint.Patterns(Checkpoint.Vercel), Lower(html), Lower(PageTitle(dom(html))))
    ensures var o := Handle(body, direct, headless, dom, readability);
      && o.response == SecurityCheckpoint(Checkpoint.Cloudflare)
      && o.steps == [DirectFetch(FullUrl(body)), HeadlessFetch(FullUrl(body))]
  {
    var p := "cf-ray";
    assert Lower(p) == p by {
      forall i | 0 <= i < |p| ensures Lower(p)[i] == p[i] {
        assert i == 0 || i == 1 || i == 2 || i == 3 || i == 4 || i == 5;
      }
    }
    LowerKeepsContains(html, p);
    Checkpoint.CloudflareBeforeGeneric(html, PageTitle(dom(html)), p);
  }

  /** Both fetchers fail with network errors: SCRAPING_BLOCKED, and no partial result. */
  lemma EverythingFails(
    body: RequestBody, direct: string -> DirectOutcome, headless: string -> HeadlessOutcome,
    dom: string -> Dom, readability: (string, string) -> Option<Article>)
    requires HasUrl(body)
    requires direct(FullUrl(body)) == Threw && headless(FullUrl(body)) == Failed
    ensures Handle(body, direct, headless, dom, readability) ==
      Outcome(ScrapingBlocked, [DirectFetch(FullUrl(body)), HeadlessFetch(FullUrl(body))])
  {
  }
}
