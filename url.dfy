/** Normalisation of the URL the client posts: a scheme is added when it seems missing. */
module Url {
  import opened Text

  /**
   * `url.startsWith("http") ? url : "https://" + url`. The test is a literal
   * prefix test on "http", so "httpbin.org" is kept as it is and "ftp://x"
   * becomes "https://ftp://x".
   */
  function Normalize(url: string): (r: string)
    ensures IsPrefix("http", url) ==> r == url
    ensures !IsPrefix("http", url) ==> r == "https://" + url
    ensures IsPrefix("http", r)
  {
    if IsPrefix("http", url) then url else "https://" + url
  }

  /** The posted text always survives, at the end of the normalised URL. */
  lemma NormalizeEndsWithInput(url: string)
    ensures |url| <= |Normalize(url)| && Normalize(url)[|Normalize(url)| - |url|..] == url
  {
  }

  /** Normalising a normalised URL changes nothing. */
  lemma NormalizeIdempotent(url: string)
    ensures Normalize(Normalize(url)) == Normalize(url)
  {
  }
}
