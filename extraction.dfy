/**
 * Content extraction: the shape of the Readability result, the title chain, and
 * the choice between Readability and the Cheerio fallback with their
 * description and content chains. The DOM and Readability themselves are not
 * modelled; their answers arrive as strings.
 */
module Extraction {
  import opened Wrappers
  import opened Text

  const NoTitle := "No title found"
  const NoContent := "No content found"

  /** Readability's content is accepted only when it is longer than this. */
  const MinReadableLength := 100

  /** How much of the Readability content stands in for a missing description. */
  const DescriptionFromContentLength := 300

  /**
   * What Readability's `parse()` returns: a field it leaves null or undefined
   * is written "", which JavaScript's `||` treats the same way.
   */
  datatype Article = Article(title: string, textContent: string, content: string, excerpt: string)

  /** The record `extractWithReadability` returns when it returns one. */
  datatype Readable = Readable(title: string, content: string, excerpt: string)

  /**
   * `extractWithReadability(html, url)` given what Readability produced for that
   * page (`None` when `parse()` returned null or building the DOM or parsing
   * threw): title and content are never empty, each falling back to its
   * sentinel; the text content is preferred to the HTML content.
   */
  function FromArticle(parsed: Option<Article>): (r: Option<Readable>)
    ensures r.Some? <==> parsed.Some?
    ensures r.Some? ==> r.value.title != "" && r.value.content != ""
    ensures r.Some? ==> var a := parsed.value;
      && (a.title != "" ==> r.value.title == a.title)
      && (a.title == "" ==> r.value.title == NoTitle)
      && (a.textContent != "" ==> r.value.content == a.textContent)
      && (a.textContent == "" && a.content != "" ==> r.value.content == a.content)
      && (a.textContent == "" && a.content == "" ==> r.value.content == NoContent)
      && r.value.excerpt == a.excerpt
  {
    match parsed
    case None => None
    case Some(a) =>
      Some(Readable(Or(a.title, NoTitle), Or(Or(a.textContent, a.content), NoContent), Or(a.excerpt, "")))
  }

  /**
   * What Cheerio reports about the page. `titleText` is the text of the
   * `<title>` elements, `firstH1Text` of the first `<h1>` ("" without one),
   * `metaDescription` the `content` attribute of `meta[name="description"]`
   * (`None` when absent), `firstParagraphText` the text of the first `<p>`;
   * these are read from the page as fetched. `mainText`, `articleText` and
   * `bodyText` are the texts of `<main>`, `<article>` and `<body>` after the
   * script, style, nav, header, footer and aside elements have been removed.
   */
  datatype Dom = Dom(
    titleText: string,
    firstH1Text: string,
    metaDescription: Option<string>,
    firstParagraphText: string,
    mainText: string,
    articleText: string,
    bodyText: string)

  /** The meta description as `||` sees it: absent is the same as empty. */
  function MetaDescription(d: Dom): string {
    match d.metaDescription
    case None => ""
    case Some(s) => s
  }

  /**
   * The page title: the trimmed `<title>`, else the trimmed first `<h1>`, else
   * "No title found". Never empty, and never with whitespace at either end.
   */
  function PageTitle(d: Dom): (t: string)
    ensures t != ""
    ensures !IsWs(t[0]) && !IsWs(t[|t| - 1])
    ensures Trim(d.titleText) != "" ==> t == Trim(d.titleText)
    ensures Trim(d.titleText) == "" && Trim(d.firstH1Text) != "" ==> t == Trim(d.firstH1Text)
    ensures Trim(d.titleText) == "" && Trim(d.firstH1Text) == "" ==> t == NoTitle
  {
    Or(Or(Trim(d.titleText), Trim(d.firstH1Text)), NoTitle)
  }

  /** Which extraction produced the text; it ends `extractionMethod`. */
  datatype Method = ReadabilityMethod | CheerioFallback {
    function Suffix(): string {
      match this
      case ReadabilityMethod => "+readability"
      case CheerioFallback => "+cheerio-fallback"
    }
  }

  /** Title, description and content before the clean-up, and how they were found. */
  datatype Extracted = Extracted(title: string, description: string, content: string, via: Method)

  /**
   * The Readability result is used exactly when there is one and its content is
   * longer than 100; so its "No content found" default is never used.
   */
  predicate Accepted(r: Option<Readable>): (b: bool)
    ensures b ==> r.Some? && r.value.content != NoContent
  {
    r.Some? && |r.value.content| > MinReadableLength
  }

  /**
   * The extraction step of the route. With Readability accepted: its title
   * (which already defaults to "No title found", so the page title is never
   * used), its content, and as description its excerpt, else the meta
   * description, else the first 300 characters of the content. Otherwise the
   * Cheerio fallback: the page title, the meta description or else the trimmed
   * first paragraph, and the first non-empty of the trimmed main, article and
   * body texts. `r` stands for `extractWithReadability(html, url)`.
   */
  function Extract(d: Dom, parsed: Option<Article>): (x: Extracted)
    ensures x.via == ReadabilityMethod <==> Accepted(FromArticle(parsed))
    ensures x.title != ""
  {
    var r := FromArticle(parsed);
    var title := PageTitle(d);
    if Accepted(r) then
      var content := r.value.content;
      Extracted(
        Or(r.value.title, title),
        Or(Or(r.value.excerpt, MetaDescription(d)), Truncate(content, DescriptionFromContentLength)),
        content,
        ReadabilityMethod)
    else
      Extracted(
        title,
        Or(MetaDescription(d), Trim(d.firstParagraphText)),
        Or(Or(Trim(d.mainText), Trim(d.articleText)), Trim(d.bodyText)),
        CheerioFallback)
  }

  /**
   * Which field each chain of the extraction step picks, case by case: the
   * first non-empty candidate in the route's order.
   */
  lemma ExtractSpec(d: Dom, parsed: Option<Article>)
    ensures var x, r := Extract(d, parsed), FromArticle(parsed);
      && (Accepted(r) ==>
            && x.title == r.value.title && x.content == r.value.content && x.description != ""
            && (r.value.excerpt != "" ==> x.description == r.value.excerpt)
            && (r.value.excerpt == "" && MetaDescription(d) != "" ==> x.description == MetaDescription(d))
            && (r.value.excerpt == "" && MetaDescription(d) == "" ==>
                  x.description == Truncate(r.value.content, DescriptionFromContentLength)))
      && (!Accepted(r) ==>
            && x.title == PageTitle(d)
            && (MetaDescription(d) != "" ==> x.description == MetaDescription(d))
            && (MetaDescription(d) == "" ==> x.description == Trim(d.firstParagraphText))
            && (Trim(d.mainText) != "" ==> x.content == Trim(d.mainText))
            && (Trim(d.mainText) == "" && Trim(d.articleText) != "" ==> x.content == Trim(d.articleText))
            && (Trim(d.mainText) == "" && Trim(d.articleText) == "" ==> x.content == Trim(d.bodyText)))
  {
  }

  /** The fallback content is one of the three container texts, trimmed. */
  lemma FallbackContentIsAContainer(d: Dom, parsed: Option<Article>)
    requires !Accepted(FromArticle(parsed))
    ensures Extract(d, parsed).content in {Trim(d.mainText), Trim(d.articleText), Trim(d.bodyText)}
  {
  }
}
