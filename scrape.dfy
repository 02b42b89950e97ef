/**
 * The `POST` handler of the scrape route: check the posted URL, normalise it,
 * fetch directly, escalate to the headless browser when that fails, refuse
 * challenge pages, extract and clean the content.
 *
 * What the handler cannot see is passed in as functions: the direct fetch and
 * the headless fetch (from the URL to their outcome), Cheerio's view of a page
 * (from the HTML to a `Dom`) and Readability (from the HTML and the URL to its
 * article). The outcome records, besides the response, the calls made to them.
 */
module Scrape {
  import opened Wrappers
  import opened Text
  import Url
  import Checkpoint
  import opened Extraction

  /** The `url` field of the posted JSON as JavaScript sees it. */
  datatype UrlField = Absent | Str(s: string) | NonString(truthy: bool)

  /**
   * The posted body: one whose `{ url }` destructuring throws (text that is
   * not JSON, or JSON `null`), or a JSON value with its `url` field.
   */
  datatype RequestBody = MalformedJson | Json(url: UrlField)

  /**
   * `!url` is false: a missing field and the empty string are falsy, every other
   * string is truthy, and any other JSON value has its own truthiness.
   */
  predicate Truthy(u: UrlField): (r: bool)
    ensures u.Absent? ==> !r
    ensures u.Str? ==> (r <==> u.s != "")
  {
    match u
    case Absent => false
    case Str(s) => s != ""
    case NonString(truthy) => truthy
  }

  /**
   * The single direct fetch with browser-like headers: a response with its
   * status and its body text (`None` when reading the body throws), or an
   * exception (network failure, the 15-second timeout).
   */
  datatype DirectOutcome = Responded(status: int, body: Option<string>) | Threw

  /** The headless-browser fetch: the rendered HTML, or an exception. */
  datatype HeadlessOutcome = Rendered(html: string) | Failed

  /** `response.ok`. */
  predicate IsOk(status: int) {
    200 <= status <= 299
  }

  /** The HTML the direct fetch yields: the body of an ok response that could be read. */
  function DirectHtml(o: DirectOutcome): (r: Option<string>)
    ensures r.Some? <==> o.Responded? && IsOk(o.status) && o.body.Some?
    ensures r.Some? ==> r.value == o.body.value
  {
    match o
    case Responded(status, body) => if IsOk(status) then body else None
    case Threw => None
  }

  /** The calls the handler makes to code it cannot see. */
  datatype Step = DirectFetch(url: string) | HeadlessFetch(url: string) | ExtractContent

  datatype Data = Data(url: string, title: string, description: string, content: string)

  const UrlRequiredError := "URL is required"
  const BlockedError := "This website is protected by advanced bot detection that could not be bypassed."
  const BlockedSuggestion := "Please try accessing the website directly in your browser."
  const UnexpectedError := "An unexpected error occurred while processing the request."
  const MaxContentLength := 3000
  const MaxDescriptionLength := 500

  /** The JSON responses of the handler. */
  datatype Response =
    | Scraped(data: Data, extractionMethod: string)
    | UrlRequired
    | ScrapingBlocked
    | SecurityCheckpoint(kind: Checkpoint.Kind)
    | Unexpected
  {
    function Status(): int {
      match this
      case Scraped(_, _) => 200
      case Unexpected => 500
      case _ => 400
    }

    /** The `type` field of an error response ("" where there is none). */
    function Type(): string {
      match this
      case ScrapingBlocked => "SCRAPING_BLOCKED"
      case SecurityCheckpoint(_) => "SECURITY_CHECKPOINT"
      case _ => ""
    }

    /** The `error` field ("" on success). */
    function Error(): string {
      match this
      case Scraped(_, _) => ""
      case UrlRequired => UrlRequiredError
      case ScrapingBlocked => BlockedError
      case SecurityCheckpoint(kind) => kind.Message()
      case Unexpected => UnexpectedError
    }

    /** The `suggestion` field of a SCRAPING_BLOCKED response ("" elsewhere). */
    function Suggestion(): string {
      if ScrapingBlocked? then BlockedSuggestion else ""
    }

    /** The `checkpointType` field of a SECURITY_CHECKPOINT response ("" elsewhere). */
    function CheckpointType(): string {
      if SecurityCheckpoint? then kind.Name() else ""
    }
  }

  datatype Outcome = Outcome(response: Response, steps: seq<Step>)

  /** What the escalation ladder obtained: the HTML and the method that got it, if any, and the calls made. */
  datatype Acquisition = Acquisition(html: Option<string>, strategy: string, steps: seq<Step>)

  /**
   * The escalation ladder: one direct fetch; any non-ok status, unreadable body
   * or exception escalates to the headless fetcher, whose failure ends the
   * attempt. The method is "fetch" or, after escalation, "puppeteer-stealth".
   */
  function Acquire(fullUrl: string, direct: string -> DirectOutcome, headless: string -> HeadlessOutcome): (a: Acquisition)
    ensures DirectHtml(direct(fullUrl)).Some? ==>
      a == Acquisition(DirectHtml(direct(fullUrl)), "fetch", [DirectFetch(fullUrl)])
    ensures DirectHtml(direct(fullUrl)).None? ==>
      a.steps == [DirectFetch(fullUrl), HeadlessFetch(fullUrl)]
    ensures DirectHtml(direct(fullUrl)).None? && headless(fullUrl).Rendered? ==>
      a.html == Some(headless(fullUrl).html) && a.strategy == "puppeteer-stealth"
    ensures DirectHtml(direct(fullUrl)).None? && headless(fullUrl).Failed? ==> a.html.None?
  {
    match DirectHtml(direct(fullUrl))
    case Some(html) => Acquisition(Some(html), "fetch", [DirectFetch(fullUrl)])
    case None =>
      var steps := [DirectFetch(fullUrl), HeadlessFetch(fullUrl)];
      match headless(fullUrl)
      case Rendered(html) => Acquisition(Some(html), "puppeteer-stealth", steps)
      case Failed => Acquisition(None, "fetch", steps)
  }

  /**
   * The response for a page that was obtained, from the checkpoint check on: a
   * SECURITY_CHECKPOINT carrying the detector's message and type exactly when
   * the detector fires on the HTML and the page title; otherwise the extracted
   * fields, the description and the content cleaned and cut to 500 and 3000
   * characters, with the method that obtained the page and the extraction's suffix.
   */
  function Respond(fullUrl: string, html: string, strategy: string, dom: Dom, parsed: Option<Article>): (r: Response)
    ensures r.Scraped? || r.SecurityCheckpoint?
    ensures var v := Checkpoint.Detect(html, PageTitle(dom));
      r.SecurityCheckpoint? <==> v.Blocked?
    ensures var v := Checkpoint.Detect(html, PageTitle(dom));
      r.SecurityCheckpoint? ==> r == SecurityCheckpoint(v.kind)
    ensures r.Scraped? ==> var x := Extract(dom, parsed);
      && r.data == Data(fullUrl, x.title, Clean(x.description, MaxDescriptionLength), Clean(x.content, MaxContentLength))
      && r.extractionMethod == strategy + x.via.Suffix()
  {
    var title := PageTitle(dom);
    var verdict := Checkpoint.Detect(html, title);
    if verdict.IsCheckpoint() then
      SecurityCheckpoint(verdict.kind)
    else
      var x := Extract(dom, parsed);
      Scraped(
        Data(fullUrl, x.title, Clean(x.description, MaxDescriptionLength), Clean(x.content, MaxContentLength)),
        strategy + x.via.Suffix())
  }

  /**
   * The handler once the URL is normalised: the escalation ladder, then the
   * response for the page it obtained. The direct fetch of that URL comes
   * first, is made once, and at most two more calls follow it; the answer is
   * neither "URL is required" nor 500.
   */
  function Process(
    fullUrl: string,
    direct: string -> DirectOutcome,
    headless: string -> HeadlessOutcome,
    dom: string -> Dom,
    readability: (string, string) -> Option<Article>): (o: Outcome)
    ensures o.steps != [] && o.steps[0] == DirectFetch(fullUrl) && |o.steps| <= 3
    ensures forall k :: 1 <= k < |o.steps| ==> !o.steps[k].DirectFetch?
    ensures !o.response.UrlRequired? && !o.response.Unexpected?
  {
    var a := Acquire(fullUrl, direct, headless);
    match a.html
    case None => Outcome(ScrapingBlocked, a.steps)
    case Some(html) =>
      var r := Respond(fullUrl, html, a.strategy, dom(html), readability(html, fullUrl));
      Outcome(r, if r.Scraped? then a.steps + [ExtractContent] else a.steps)
  }

  /**
   * The whole handler, as a function of the request and of what the
   * collaborators answer. Nothing is called for the requests answered "URL is
   * required" or 500, and only for them; otherwise the direct fetch comes first,
   * is made once, and at most two more calls follow it.
   */
  function Handle(
    body: RequestBody,
    direct: string -> DirectOutcome,
    headless: string -> HeadlessOutcome,
    dom: string -> Dom,
    readability: (string, string) -> Option<Article>): (o: Outcome)
    ensures o.steps == [] <==> (o.response.UrlRequired? || o.response.Unexpected?)
    ensures o.steps != [] ==> o.steps[0].DirectFetch? && |o.steps| <= 3
    ensures forall k :: 1 <= k < |o.steps| ==> !o.steps[k].DirectFetch?
  {
    match body
    case MalformedJson => Outcome(Unexpected, [])
    case Json(url) =>
      if !Truthy(url) then Outcome(UrlRequired, [])
      else if !url.Str? then Outcome(Unexpected, [])
      else Process(Url.Normalize(url.s), direct, headless, dom, readability)
  }

  /**
   * The fetch step by step: the direct fetch, and the headless fetcher only
   * when the direct fetch does not yield a page; `None` means both failed.
   */
  method AcquireHtml(fullUrl: string, direct: string -> DirectOutcome, headless: string -> HeadlessOutcome)
    returns (html: Option<string>, extractionMethod: string, steps: seq<Step>)
    ensures Acquisition(html, extractionMethod, steps) == Acquire(fullUrl, direct, headless)
  {
    steps := [DirectFetch(fullUrl)];
    extractionMethod := "fetch";
    var response := direct(fullUrl);
    if response.Responded? && IsOk(response.status) && response.body.Some? {
      html := Some(response.body.value);
    } else {
      steps := steps + [HeadlessFetch(fullUrl)];
      var rendered := headless(fullUrl);
      if rendered.Failed? {
        html := None;
      } else {
        html := Some(rendered.html);
        extractionMethod := "puppeteer-stealth";
      }
    }
  }

  /**
   * The extraction block step by step: Readability's result when it is long
   * enough, the Cheerio fallback otherwise. `title` is the page title already
   * resolved from `<title>` and the first `<h1>`.
   */
  method ExtractFields(page: Dom, parsed: Option<Article>, title: string)
    returns (title': string, description: string, content: string, via: Method)
    requires title == PageTitle(page)
    ensures Extracted(title', description, content, via) == Extract(page, parsed)
  {
    var readabilityResult := FromArticle(parsed);
    if readabilityResult.Some? && |readabilityResult.value.content| > MinReadableLength {
      title' := Or(readabilityResult.value.title, title);
      content := readabilityResult.value.content;
      description := Or(Or(readabilityResult.value.excerpt, MetaDescription(page)),
                        Truncate(content, DescriptionFromContentLength));
      via := ReadabilityMethod;
    } else {
      title' := title;
      description := Or(MetaDescription(page), Trim(page.firstParagraphText));
      content := Or(Or(Trim(page.mainText), Trim(page.articleText)), Trim(page.bodyText));
      via := CheerioFallback;
    }
  }

  /**
   * The handler step by step, with the locals of the route (`html`,
   * `extractionMethod`, `title`, `description`, `content`) reassigned as it
   * does; it behaves as `Handle` says.
   */
  method Post(
    body: RequestBody,
    direct: string -> DirectOutcome,
    headless: string -> HeadlessOutcome,
    dom: string -> Dom,
    readability: (string, string) -> Option<Article>) returns (o: Outcome)
    ensures o == Handle(body, direct, headless, dom, readability)
  {
    if body.MalformedJson? {
      return Outcome(Unexpected, []);
    }
    var url := body.url;
    if !Truthy(url) {
      return Outcome(UrlRequired, []);
    }
    if !url.Str? {
      // `url.startsWith` is not a function: the outer catch answers 500
      return Outcome(Unexpected, []);
    }
    var fullUrl := Url.Normalize(url.s);
    assert Handle(body, direct, headless, dom, readability) == Process(fullUrl, direct, headless, dom, readability);
    var fetched, extractionMethod, steps := AcquireHtml(fullUrl, direct, headless);
    if fetched.None? {
      return Outcome(ScrapingBlocked, steps);
    }
    var html := fetched.value;
    ghost var parsed := readability(html, fullUrl);

    var page := dom(html);
    var title := PageTitle(page);
    var checkpointResult := Checkpoint.Detect(html, title);
    if checkpointResult.IsCheckpoint() {
      assert Respond(fullUrl, html, extractionMethod, page, parsed).SecurityCheckpoint?;
      return Outcome(SecurityCheckpoint(checkpointResult.kind), steps);
    }

    steps := steps + [ExtractContent];
    var description, content, via;
    title, description, content, via := ExtractFields(page, readability(html, fullUrl), title);
    extractionMethod := extractionMethod + via.Suffix();
    content := Clean(content, MaxContentLength);
    description := Clean(description, MaxDescriptionLength);
    o := Outcome(Scraped(Data(fullUrl, title, description, content), extractionMethod), steps);
  }
}
