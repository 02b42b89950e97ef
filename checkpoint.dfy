/**
 * The security-checkpoint detector: a fixed, ordered table of pattern groups
 * (Vercel, Cloudflare, access denied, rate limited) searched, case-insensitively,
 * in the page's HTML and title; the first group with a matching pattern names
 * the kind of block.
 */
module Checkpoint {
  import opened Wrappers
  import opened Text

  /** The rows of the table; each has a type and a message, and its patterns below. */
  datatype Kind = Vercel | Cloudflare | AccessDenied | RateLimited {
    /** The `type` the detector reports. */
    function Name(): string {
      match this
      case Vercel => "Vercel Security"
      case Cloudflare => "Cloudflare Protection"
      case AccessDenied => "Access Denied"
      case RateLimited => "Rate Limited"
    }

    /** The `message` the detector reports. */
    function Message(): string {
      match this
      case Vercel =>
        "This website uses Vercel's security protection that blocks automated access. Try visiting the site directly in your browser first."
      case Cloudflare =>
        "This website uses Cloudflare's bot protection. The site may be temporarily blocking automated requests."
      case AccessDenied => "Access to this website is currently restricted or blocked."
      case RateLimited => "This website is rate limiting requests. Please try again later."
    }
  }

  /**
   * The patterns of each row, all lower case. Every row has patterns and none
   * of them is empty (an empty pattern would match every page).
   */
  function Patterns(k: Kind): (r: seq<string>)
    ensures r != [] && forall p :: p in r ==> p != ""
  {
    match k
    case Vercel => ["vercel security checkpoint", "failed to verify your browser", "code 21"]
    case Cloudflare =>
      ["cloudflare", "checking your browser", "please wait while we check your browser",
       "ray id:", "cf-ray", "just a moment..."]
    case AccessDenied => ["access denied", "forbidden", "403 forbidden"]
    case RateLimited => ["rate limit", "too many requests", "429"]
  }

  /** The table, in the order it is searched. */
  const Table: seq<Kind> := [Vercel, Cloudflare, AccessDenied, RateLimited]

  /**
   * The detector's answer `{ isCheckpoint, type, message }`: `Clear` is
   * `{ false, "", "" }`, `Blocked(k)` carries the type and message of row `k`.
   */
  datatype Verdict = Clear | Blocked(kind: Kind) {
    function IsCheckpoint(): bool {
      Blocked?
    }

    function Type(): string {
      if Blocked? then kind.Name() else ""
    }

    function Message(): string {
      if Blocked? then kind.Message() else ""
    }
  }

  /**
   * `patterns.some(p => lowerHtml.includes(p) || lowerTitle.includes(p))`: an
   * empty group never matches, and any pattern that occurs makes the group match.
   */
  predicate AnyOccurs(patterns: seq<string>, lowerHtml: string, lowerTitle: string): (r: bool)
    ensures r ==> patterns != []
    ensures forall k :: 0 <= k < |patterns| && (Contains(lowerHtml, patterns[k]) || Contains(lowerTitle, patterns[k])) ==> r
  {
    patterns != [] &&
    (Contains(lowerHtml, patterns[0]) || Contains(lowerTitle, patterns[0])
     || AnyOccurs(patterns[1..], lowerHtml, lowerTitle))
  }

  /** `AnyOccurs` holds exactly when one of the patterns occurs in the HTML or the title. */
  lemma {:induction false} AnyOccursSpec(patterns: seq<string>, lowerHtml: string, lowerTitle: string)
    ensures AnyOccurs(patterns, lowerHtml, lowerTitle) <==>
      exists p :: p in patterns && (Contains(lowerHtml, p) || Contains(lowerTitle, p))
  {
    if patterns != [] {
      AnyOccursSpec(patterns[1..], lowerHtml, lowerTitle);
      assert patterns[0] in patterns;
      if AnyOccurs(patterns[1..], lowerHtml, lowerTitle) {
        var p :| p in patterns[1..] && (Contains(lowerHtml, p) || Contains(lowerTitle, p));
        assert p in patterns;
      }
      forall p | p in patterns && (Contains(lowerHtml, p) || Contains(lowerTitle, p))
        ensures AnyOccurs(patterns, lowerHtml, lowerTitle)
      {
        if p != patterns[0] {
          assert p in patterns[1..];
        }
      }
    }
  }

  /** The index of the first row with a pattern that occurs in the HTML or the title, if any. */
  function FirstMatch<K>(rows: seq<K>, patterns: K -> seq<string>, lowerHtml: string, lowerTitle: string)
    : (r: Option<nat>)
    ensures r.Some? ==> r.value < |rows| && AnyOccurs(patterns(rows[r.value]), lowerHtml, lowerTitle)
    ensures r.Some? ==> forall j :: 0 <= j < r.value ==> !AnyOccurs(patterns(rows[j]), lowerHtml, lowerTitle)
    ensures r.None? ==> forall j :: 0 <= j < |rows| ==> !AnyOccurs(patterns(rows[j]), lowerHtml, lowerTitle)
  {
    if rows == [] then None
    else if AnyOccurs(patterns(rows[0]), lowerHtml, lowerTitle) then Some(0)
    else match FirstMatch(rows[1..], patterns, lowerHtml, lowerTitle)
      case None => None
      case Some(k) => Some(k + 1)
  }

  /** The search finds a row exactly when some pattern of some row occurs. */
  lemma FirstMatchSpec<K>(rows: seq<K>, patterns: K -> seq<string>, lowerHtml: string, lowerTitle: string)
    ensures FirstMatch(rows, patterns, lowerHtml, lowerTitle).Some? <==>
      exists i, p :: 0 <= i < |rows| && p in patterns(rows[i])
                     && (Contains(lowerHtml, p) || Contains(lowerTitle, p))
  {
    forall i | 0 <= i < |rows| {
      AnyOccursSpec(patterns(rows[i]), lowerHtml, lowerTitle);
    }
    match FirstMatch(rows, patterns, lowerHtml, lowerTitle)
    case Some(i) =>
      var p :| p in patterns(rows[i]) && (Contains(lowerHtml, p) || Contains(lowerTitle, p));
      assert 0 <= i < |rows| && p in patterns(rows[i]);
      assert exists i, p :: 0 <= i < |rows| && p in patterns(rows[i])
                     && (Contains(lowerHtml, p) || Contains(lowerTitle, p));
    case None =>
  }

  /**
   * `isSecurityCheckpoint(html, title)`: the first row of the table one of whose
   * patterns occurs in the lower-cased HTML or title, if any. A positive verdict
   * names a row that matches; a negative one means that no row matches.
   */
  function Detect(html: string, title: string): (v: Verdict)
    ensures v.Blocked? ==> AnyOccurs(Patterns(v.kind), Lower(html), Lower(title))
    ensures v.Clear? ==> forall i :: 0 <= i < |Table| ==> !AnyOccurs(Patterns(Table[i]), Lower(html), Lower(title))
  {
    match FirstMatch(Table, Patterns, Lower(html), Lower(title))
    case Some(i) => Blocked(Table[i])
    case None => Clear
  }

  /** The detector fires exactly when some pattern of some row occurs in the lower-cased HTML or title. */
  lemma DetectFiresIff(html: string, title: string)
    ensures Detect(html, title).IsCheckpoint() <==>
      exists i, p :: 0 <= i < |Table| && p in Patterns(Table[i])
                     && (Contains(Lower(html), p) || Contains(Lower(title), p))
  {
    FirstMatchSpec(Table, Patterns, Lower(html), Lower(title));
  }

  /** A positive verdict names the first row of the table with a pattern that occurs. */
  lemma DetectNamesFirstRow(html: string, title: string)
    requires Detect(html, title).Blocked?
    ensures exists i ::
      && 0 <= i < |Table| && Table[i] == Detect(html, title).kind
      && AnyOccurs(Patterns(Table[i]), Lower(html), Lower(title))
      && forall j :: 0 <= j < i ==> !AnyOccurs(Patterns(Table[j]), Lower(html), Lower(title))
  {
    var i := FirstMatch(Table, Patterns, Lower(html), Lower(title)).value;
    assert Table[i] == Detect(html, title).kind;
  }

  /** The detector ignores letter case: it sees only the lower-cased inputs. */
  lemma DetectIgnoresCase(html: string, title: string, html': string, title': string)
    requires Lower(html) == Lower(html') && Lower(title) == Lower(title')
    ensures Detect(html, title) == Detect(html', title')
  {
  }

  /** In particular, lower-casing the inputs first does not change the verdict. */
  lemma DetectOfLowered(html: string, title: string)
    ensures Detect(Lower(html), Lower(title)) == Detect(html, title)
  {
    LowerIdempotent(html);
    LowerIdempotent(title);
  }

  /**
   * The answer as the route reads it: `isCheckpoint` is false exactly when type
   * and message are both empty, and a positive answer names one of the four types.
   */
  lemma {:induction false} VerdictFields(html: string, title: string)
    ensures var v := Detect(html, title);
      && (!v.IsCheckpoint() <==> v.Type() == "" && v.Message() == "")
      && (v.IsCheckpoint() <==>
            v.Type() in {"Vercel Security", "Cloudflare Protection", "Access Denied", "Rate Limited"})
  {
    var v := Detect(html, title);
    if v.Blocked? {
      match v.kind
      case Vercel =>
      case Cloudflare =>
      case AccessDenied =>
      case RateLimited =>
    }
  }

  /** Priority: a page that shows any Vercel pattern is classified as Vercel, whatever else it shows. */
  lemma VercelWins(html: string, title: string, p: string)
    requires p in Patterns(Vercel) && (Contains(Lower(html), p) || Contains(Lower(title), p))
    ensures Detect(html, title) == Blocked(Vercel)
  {
    AnyOccursSpec(Patterns(Vercel), Lower(html), Lower(title));
  }

  /**
   * A Cloudflare pattern on a page with no Vercel pattern gives a Cloudflare
   * verdict, even if access-denied or rate-limit patterns occur as well.
   */
  lemma CloudflareBeforeGeneric(html: string, title: string, p: string)
    requires p in Patterns(Cloudflare) && (Contains(Lower(html), p) || Contains(Lower(title), p))
    requires !AnyOccurs(Patterns(Vercel), Lower(html), Lower(title))
    ensures Detect(html, title) == Blocked(Cloudflare)
  {
    AnyOccursSpec(Patterns(Cloudflare), Lower(html), Lower(title));
    assert Table[0] == Vercel && Table[1..][0] == Cloudflare;
    assert FirstMatch(Table[1..], Patterns, Lower(html), Lower(title)) == Some(0);
  }
}
