# Scrape route model

A Dafny model of the `POST /api/scrape` handler of a Next.js application
(`app/api/scrape/route.ts`). The handler works in these steps:

1. It receives `{ url }` and answers 400 "URL is required" when the URL is falsy.
2. It normalises the URL: `https://` is prefixed unless the URL already starts with `http`.
3. It fetches the page directly. A non-ok status, a body that cannot be read or an exception escalates to a headless-browser fetch. When that fails too, it answers SCRAPING_BLOCKED.
4. It runs a security-checkpoint detector over the HTML and the page title. The detector is an ordered, case-insensitive, first-match table of Vercel, Cloudflare, access-denied and rate-limit patterns. A hit answers SECURITY_CHECKPOINT.
5. Otherwise it extracts title, description and content. Readability's article is used when its content is longer than 100 characters; the Cheerio fallback chains are used otherwise.
6. It cleans description and content: whitespace runs collapsed to one space, trimmed, cut to 500 and 3000 characters.
7. It answers with the data and an `extractionMethod` such as `fetch+readability`.

The handler's collaborators are parameters of the model:

- the direct fetch, a function from the URL to a `DirectOutcome`;
- the headless fetch, a function from the URL to a `HeadlessOutcome`;
- Cheerio's view of a page, a function from the HTML to a `Dom` record of the texts the route reads;
- Readability, a function from the HTML and the URL to an optional `Article`.

The model has the following modules:

- `Text` holds the JavaScript string operations the route uses (`startsWith`, `includes`, `toLowerCase`, `trim`, `replace(/\s+/g, " ")`, `substring(0, n)`, `||`). `startsWith` is the prefix test itself and `||` on strings is a one-line definition. The contract of `Lower` states `toLowerCase` character by character. `includes`, `trim`, `replace` and `substring` are characterised in other terms, by lemmas or by their contracts: an occurrence at some position, the infix between the whitespace runs, a result with no whitespace run that keeps the visible characters in order and turns each run between two words into one space, and a prefix of bounded length.
- `Url` holds the URL normalisation.
- `Checkpoint` holds the detector: a generic first-match search over a table of rows, instantiated with the route's four rows.
- `Extraction` holds the shape of the Readability result, the title chain, and the description and content chains of both branches.
- `Scrape` holds the handler in two forms. `Handle` is a function from the request and the collaborators' answers to the response, together with the calls made to the collaborators; the part after the URL is normalised is `Process`. `Post` follows the route statement by statement, reassigning its locals, and is proved equal to `Handle`.
- `ScrapeProperties` holds the guarantees of the handler, each stated for every request and every behaviour of the collaborators.

## Model

| member | source | states |
|---|---|---|
| Text.Contains | app/api/scrape/route.ts:88 | `includes` finds nothing longer than the text, and always finds a pattern the text starts with |
| Text.ContainsSpec | app/api/scrape/route.ts:86-89 | the `includes` scan holds exactly when the pattern occurs at some position of the text |
| Text.Lower | app/api/scrape/route.ts:45-46 | `toLowerCase` keeps the length, turns each of A-Z into its lower-case letter, leaves every other character as it is, and leaves no upper-case ASCII letter |
| Text.LowerIdempotent | app/api/scrape/route.ts:45-46 | lower-casing an already lower-cased text changes nothing |
| Text.LowerKeepsContains | app/api/scrape/route.ts:45-46 | an occurrence of a lower-case pattern survives lower-casing of the text it occurs in |
| Text.WsPrefixLen | app/api/scrape/route.ts:325-326 | the length of the leading whitespace run: all whitespace before it, a non-whitespace character or the end after it |
| Text.WsSuffixLen | app/api/scrape/route.ts:325-326 | the length of the trailing whitespace run, with the same maximality |
| Text.Trim | app/api/scrape/route.ts:325-326 | `trim()` gives a text that is no longer than its input and neither starts nor ends with whitespace |
| Text.TrimSplit | app/api/scrape/route.ts:325-326 | the trimmed text is the infix between the leading and the trailing whitespace runs |
| Text.TrimIsInfix | app/api/scrape/route.ts:325-326 | the trimmed text is an infix of the input with only whitespace around it, and it is empty exactly when the input is all whitespace |
| Text.TrimKeepsNonWs | app/api/scrape/route.ts:325-326 | trimming removes no visible character |
| Text.Collapse | app/api/scrape/route.ts:325-326 | collapsing never lengthens the text, is empty only for the empty text, and keeps whether the text starts with whitespace |
| Text.CollapseIsCollapsed | app/api/scrape/route.ts:325-326 | after `replace(/\s+/g, " ")` no two whitespace characters are adjacent and every whitespace character is a space |
| Text.CollapseNoRun | app/api/scrape/route.ts:325-326 | no two adjacent whitespace characters remain after collapsing |
| Text.CollapseOnlySpaces | app/api/scrape/route.ts:325-326 | the only whitespace left after collapsing is the plain space |
| Text.CollapseKeepsNonWs | app/api/scrape/route.ts:325-326 | collapsing removes and adds no visible character, in order |
| Text.CollapseOfCollapsed | app/api/scrape/route.ts:325-326 | a text with single spaces only is left unchanged by collapsing |
| Text.CollapseIdempotent | app/api/scrape/route.ts:325-326 | collapsing twice is collapsing once |
| Text.CollapseAppend | app/api/scrape/route.ts:325-326 | a text that ends in a visible character is collapsed independently of what follows it |
| Text.CollapseLeadingRun | app/api/scrape/route.ts:325-326 | a whitespace run before a word, or at the end, becomes exactly one space |
| Text.CollapseWordBreak | app/api/scrape/route.ts:325-326 | a whitespace run of any length and kind between two words becomes exactly one space, and both sides are collapsed on their own |
| Text.Truncate | app/api/scrape/route.ts:325-326 | `substring(0, n)` is a prefix of at most `n` characters: the whole text when it fits, exactly `n` characters otherwise |
| Text.InfixKeepsCollapsed | app/api/scrape/route.ts:325-326 | any piece cut out of a collapsed text is still collapsed |
| Text.Clean | app/api/scrape/route.ts:325-326 | the clean-up result has at most `n` characters |
| Text.CleanSpec | app/api/scrape/route.ts:325-326 | the clean-up result has at most `n` characters, holds no whitespace run and no whitespace but spaces, does not begin with whitespace, and is a prefix of the collapsed-and-trimmed text (all of it when that fits). That text has exactly the visible characters of the input. |
| Url.Normalize | app/api/scrape/route.ts:232 | a URL starting with "http" is kept, any other gets "https://" in front, and the result always starts with "http" |
| Url.NormalizeEndsWithInput | app/api/scrape/route.ts:232 | the posted text is always the tail of the normalised URL |
| Url.NormalizeIdempotent | app/api/scrape/route.ts:232 | normalising a normalised URL changes nothing |
| Checkpoint.Patterns | app/api/scrape/route.ts:47-82 | every row of the table has at least one pattern, and no pattern is empty, so that no row matches every page |
| Checkpoint.AnyOccurs | app/api/scrape/route.ts:86-89 | `some` over a row's patterns holds only for a row with patterns, and holds whenever one of them occurs in the lower-cased HTML or title |
| Checkpoint.AnyOccursSpec | app/api/scrape/route.ts:86-89 | a row matches exactly when one of its patterns is a substring of the lower-cased HTML or title |
| Checkpoint.FirstMatch | app/api/scrape/route.ts:84-98 | the search returns the first row that matches, every earlier row does not match, and no row matches when it returns nothing |
| Checkpoint.FirstMatchSpec | app/api/scrape/route.ts:84-98 | the search finds a row exactly when some pattern of some row occurs |
| Checkpoint.Detect | app/api/scrape/route.ts:41-99 | a positive verdict names a row one of whose patterns occurs in the lower-cased HTML or title; a negative verdict means that no row's pattern occurs |
| Checkpoint.DetectFiresIff | app/api/scrape/route.ts:45-98 | `isCheckpoint` is true exactly when some pattern of some row is a substring of the lower-cased HTML or title |
| Checkpoint.DetectNamesFirstRow | app/api/scrape/route.ts:84-97 | a positive verdict carries the row that matches and before which no row of the table matches |
| Checkpoint.DetectIgnoresCase | app/api/scrape/route.ts:45-46 | inputs that agree after lower-casing get the same verdict |
| Checkpoint.DetectOfLowered | app/api/scrape/route.ts:45-46 | lower-casing the inputs beforehand does not change the verdict |
| Checkpoint.VerdictFields | app/api/scrape/route.ts:91-98 | `isCheckpoint` is false exactly when type and message are both "", and true exactly when the type is one of the four row types |
| Checkpoint.VercelWins | app/api/scrape/route.ts:47-57 | any Vercel pattern in the page makes the verdict Vercel, whatever else the page shows |
| Checkpoint.CloudflareBeforeGeneric | app/api/scrape/route.ts:58-81 | a Cloudflare pattern on a page with no Vercel pattern gives the Cloudflare verdict, even when access-denied or rate-limit patterns occur too |
| Extraction.FromArticle | app/api/scrape/route.ts:101-117 | a record exists exactly when Readability parsed an article. Its title and content are never empty: the title is the article's or "No title found"; the content is the text content, else the HTML content, else "No content found". The excerpt is kept. |
| Extraction.PageTitle | app/api/scrape/route.ts:274-277 | the page title is the trimmed `<title>`, else the trimmed first `<h1>`, else "No title found"; it is never empty and has no whitespace at either end |
| Extraction.Accepted | app/api/scrape/route.ts:300 | a Readability result is used only when there is one and its content is not the "No content found" default |
| Extraction.Extract | app/api/scrape/route.ts:300-322 | the Readability branch is taken exactly when a Readability result exists with content longer than 100, and the title is never empty |
| Extraction.ExtractSpec | app/api/scrape/route.ts:300-322 | case by case, each field is the first non-empty candidate in the route's order. Readability branch: the Readability title, its content, then excerpt, meta description or the first 300 characters. Fallback branch: the page title, meta description or trimmed first paragraph, then main, article or body text. |
| Extraction.FallbackContentIsAContainer | app/api/scrape/route.ts:317-320 | the fallback content is the trimmed text of `<main>`, `<article>` or `<body>` |
| Scrape.Truthy | app/api/scrape/route.ts:228 | a missing `url` is falsy, and a string is truthy exactly when it is not empty |
| Scrape.DirectHtml | app/api/scrape/route.ts:241-248 | the direct fetch yields HTML exactly when it responded with an ok status and a readable body, and the HTML is that body |
| Scrape.Acquire | app/api/scrape/route.ts:235-271 | a direct page is used with method "fetch" after one call. Otherwise the headless fetcher is called second; its page is used with "puppeteer-stealth", and its failure leaves no HTML. |
| Scrape.AcquireHtml | app/api/scrape/route.ts:235-271 | the fetch statements, with `html` and `extractionMethod` reassigned, yield what `Acquire` describes |
| Scrape.Respond | app/api/scrape/route.ts:273-337 | an obtained page is answered SECURITY_CHECKPOINT with the detector's row exactly when the detector fires on the HTML and the page title. Otherwise the answer is the extracted fields, with description and content cleaned to 500 and 3000 and the method followed by the extraction's suffix. |
| Scrape.ExtractFields | app/api/scrape/route.ts:297-322 | the extraction statements, with `title`, `description` and `content` reassigned, yield what `Extract` describes |
| Scrape.Process | app/api/scrape/route.ts:235-337 | once the URL is normalised, the direct fetch of that URL is the first call and is not repeated, at most three calls are made, and the answer is neither "URL is required" nor 500 |
| Scrape.Handle | app/api/scrape/route.ts:225-345 | no call is made for the requests answered "URL is required" or 500, and only for them; otherwise the direct fetch comes first, is made once, and at most three calls are made |
| Scrape.Post | app/api/scrape/route.ts:225-345 | the handler statement by statement answers exactly what `Handle` answers and makes the same calls |
| ScrapeProperties.FullUrl | app/api/scrape/route.ts:232 | the URL the handler fetches starts with "http" |
| ScrapeProperties.UrlRequiredBeforeAnyFetch | app/api/scrape/route.ts:227-230 | "URL is required" (400) is answered exactly for a falsy `url`, and then before any fetch |
| ScrapeProperties.UnusableRequestIsServerError | app/api/scrape/route.ts:226-232 | a body whose destructuring throws, or a truthy non-string `url`, is answered 500 without any call |
| ScrapeProperties.FetchesUseNormalizedUrl | app/api/scrape/route.ts:232-256 | the direct fetch is always the first call, and every fetch goes to the normalised URL |
| ScrapeProperties.AcquireFetchesOnlyItsUrl | app/api/scrape/route.ts:235-257 | the escalation ladder fetches only the URL it is given, the direct fetch first, and extracts nothing |
| ScrapeProperties.ProcessFetchesOnlyItsUrl | app/api/scrape/route.ts:235-337 | every fetch the handler makes after normalising goes to that URL |
| ScrapeProperties.DirectSuccessNeverEscalates | app/api/scrape/route.ts:236-248 | after an ok, readable direct response the headless fetcher is never called, the request is not reported blocked, and a success reports a method starting with "fetch" |
| ScrapeProperties.ProcessDirectSuccess | app/api/scrape/route.ts:236-248 | after an ok, readable direct response the only calls are that fetch and possibly the extraction, nothing is reported blocked, and a success reports a method starting with "fetch" |
| ScrapeProperties.MethodStartsWithStrategy | app/api/scrape/route.ts:308-321 | the method a success reports starts with the strategy that obtained the page |
| ScrapeProperties.FailedDirectEscalates | app/api/scrape/route.ts:249-270 | after a failed direct fetch the headless fetcher is called second. Its failure gives SCRAPING_BLOCKED (400) with no data after exactly those two calls; a success reports a method starting with "puppeteer-stealth". |
| ScrapeProperties.BlockedExactlyWhenBothFail | app/api/scrape/route.ts:255-270 | SCRAPING_BLOCKED is answered exactly when there is a URL and both fetchers failed |
| ScrapeProperties.CheckpointStopsExtraction | app/api/scrape/route.ts:279-294 | on a request with a URL, SECURITY_CHECKPOINT (400) is answered exactly when a page was obtained and the detector fires on it; it carries the detector's row and no extraction is started |
| ScrapeProperties.CheckpointResponseFields | app/api/scrape/route.ts:286-293 | the SECURITY_CHECKPOINT answer has status 400, the verdict's message as `error` and the verdict's type as `checkpointType` |
| ScrapeProperties.ExtractionOnlyOnSuccess | app/api/scrape/route.ts:296-337 | extraction runs exactly on the requests that succeed, and as their last step |
| ScrapeProperties.ScrapedFieldsAreClean | app/api/scrape/route.ts:324-337 | a success carries the normalised URL and status 200. The title is non-empty; content and description are within 3000 and 500 characters, free of whitespace runs and non-space whitespace, and do not start with whitespace. The method is "fetch" or "puppeteer-stealth" followed by "+readability" or "+cheerio-fallback". |
| ScrapeProperties.ScrapedResponseIsClean | app/api/scrape/route.ts:324-337 | the same guarantees for the answer built from any obtained page |
| ScrapeProperties.ReadabilitySelection | app/api/scrape/route.ts:300-322 | once a page without a checkpoint is obtained, Readability is used exactly when its content is longer than 100; its title then replaces the page title. Otherwise the fallback gives the page title and the first non-empty of the trimmed main, article and body texts. |
| ScrapeProperties.StealthAsShippedAlwaysBlocks | app/api/scrape/route.ts:171 | with a headless fetcher that always throws, as it does when `puppeteer` is unbound, a failed direct fetch always ends SCRAPING_BLOCKED |
| ScrapeProperties.DirectPageIsExtracted | app/api/scrape/route.ts:225-337 | a 200 page that Readability cannot parse, with tidy title, first paragraph and main text that fit the limits, is answered with exactly those texts by "fetch+cheerio-fallback" after one fetch and the extraction |
| ScrapeProperties.TidyPageIsKept | app/api/scrape/route.ts:273-337 | such a page, however obtained, is answered with its title, first paragraph and main text unchanged |
| ScrapeProperties.AlreadyTrimmed | app/api/scrape/route.ts:325-326 | a text that neither starts nor ends with whitespace is its own trim |
| ScrapeProperties.CleanOfCleaned | app/api/scrape/route.ts:325-326 | a tidy text within the limit goes through the clean-up unchanged |
| ScrapeProperties.BlockedThenRendered | app/api/scrape/route.ts:244-257 | a 403 from the direct fetch followed by a rendered page without checkpoint succeeds by "puppeteer-stealth" after the direct fetch, the headless fetch and the extraction |
| ScrapeProperties.CloudflareChallengeIsReported | app/api/scrape/route.ts:58-70 | a rendered page that mentions "cf-ray" and shows no Vercel pattern is answered SECURITY_CHECKPOINT for Cloudflare after the two fetches, without extraction |
| ScrapeProperties.EverythingFails | app/api/scrape/route.ts:249-270 | network errors on both fetchers give SCRAPING_BLOCKED after exactly the two fetch attempts |

## Left out

- `fetchWithHeaders` (route.ts:31-39): the HTTP request, its headers, the redirect policy and the 15-second timeout are I/O. Only the outcome is modelled, as `DirectOutcome`, where a timeout is an exception.
- User-agent rotation (route.ts:6-29): it uses `Math.random`, and the header values do not reach the response.
- `scrapeWithPuppeteerStealth` (route.ts:120-222): browser launch, proxy and environment reads, timers and page interaction are I/O. It is a parameter that renders HTML or fails. Closing the browser on both paths is resource handling and is not modelled. In the file, `puppeteer` is never imported, so the call always throws; `ScrapeProperties.StealthAsShippedAlwaysBlocks` states the consequence.
- Cheerio, JSDOM and Readability are foreign libraries; their answers are inputs. The `remove()` of script, style, nav, header, footer and aside (route.ts:316) is represented by the `mainText`, `articleText` and `bodyText` of `Dom` being the texts after that removal. The title, meta description and first paragraph are read before it, as in the route.
- Logging (`console.log`, `console.error`) throughout.
- Exceptions other than an unusable body and a non-string `url` are not modelled. An example is a failure inside Cheerio. The route answers such exceptions 500 through its outer `catch`.
- The response wrapper is not modelled: headers, JSON serialisation and the `success: true` flag. A success is the `Scraped` response, and each other field is a member of `Response`.
- Text.Lower: maps only the ASCII letters A-Z; the full Unicode case mapping of `toLowerCase` is not modelled. Every checkpoint pattern is ASCII, but some non-ASCII characters lower-case to ASCII ones in JavaScript, and there the model differs. For example, U+212A KELVIN SIGN lower-cases to "k", so HTML containing "chec\u212Aing your browser" gets a Cloudflare verdict in the route and a clear one from `Checkpoint.Detect`.
- Text.Truncate: counts `char`s (Unicode scalar values), whereas JavaScript's `substring` and `length` count UTF-16 code units. The two agree on text in the Basic Multilingual Plane.
- Extraction.Accepted: the "longer than 100" test counts `char`s, not UTF-16 code units, for the same reason.
- The code has no retry loop, no `og:` meta fallbacks and no scan over a list of content selectors. The model follows the code: one direct fetch, one headless attempt, the meta `description` only, and `main`, then `article`, then `body`.
- In the Readability branch, `readabilityResult.title || title` never falls back to the page title, because `extractWithReadability` already replaces an empty title with "No title found". `Extraction.ExtractSpec` states that the Readability title is used.
- The other files of the repository are outside this model: the marketing-report route, the React page and the Next.js configuration.
