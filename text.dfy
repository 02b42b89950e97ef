/**
 * The JavaScript string operations the scrape route relies on, over `seq<char>`:
 * `startsWith`, `includes`, `toLowerCase`, `trim`, `substring(0, n)`,
 * `replace(/\s+/g, " ")` and the `a || b` fallback on strings.
 */
module Text {

  /** `s.startsWith(p)`. */
  predicate IsPrefix(p: string, s: string) {
    |p| <= |s| && s[..|p|] == p
  }

  /** `p` occurs in `s` starting at position `i`. */
  predicate OccursAt(s: string, p: string, i: int) {
    0 <= i && i + |p| <= |s| && s[i..i + |p|] == p
  }

  /** `s.includes(p)`, as a scan from the left. */
  predicate Contains(s: string, p: string): (r: bool)
    ensures r ==> |p| <= |s|
    ensures IsPrefix(p, s) ==> r
    decreases |s|
  {
    if |s| < |p| then false
    else s[..|p|] == p || Contains(s[1..], p)
  }

  /** `Contains` holds exactly when `p` occurs at some position of `s`. */
  lemma {:induction false} ContainsSpec(s: string, p: string)
    ensures Contains(s, p) <==> exists i :: 0 <= i <= |s| && OccursAt(s, p, i)
    decreases |s|
  {
    if |s| < |p| {
      forall i | 0 <= i <= |s| ensures !OccursAt(s, p, i) {
      }
    } else if s[..|p|] == p {
      assert OccursAt(s, p, 0);
    } else {
      ContainsSpec(s[1..], p);
      forall i | 0 <= i <= |s[1..]| ensures OccursAt(s[1..], p, i) <==> OccursAt(s, p, i + 1) {
        OccursShift(s, p, i);
      }
      assert !OccursAt(s, p, 0);
      if !Contains(s[1..], p) {
        forall i | 0 < i <= |s| ensures !OccursAt(s, p, i) {
          assert !OccursAt(s[1..], p, i - 1);
        }
      }
    }
  }

  /** An occurrence in the tail is an occurrence one position further on. */
  lemma OccursShift(s: string, p: string, i: nat)
    requires s != []
    ensures OccursAt(s[1..], p, i) <==> OccursAt(s, p, i + 1)
  {
    if i + |p| <= |s[1..]| {
      assert s[1..][i..i + |p|] == s[i + 1..i + 1 + |p|];
    }
  }

  /** Lower-casing of one character; only the ASCII letters are mapped. */
  function LowerChar(c: char): char {
    if 'A' <= c <= 'Z' then (c as int + 32) as char else c
  }

  /**
   * `s.toLowerCase()`, character by character: no upper-case ASCII letter is
   * left, each one becomes its lower-case letter, and every other character is kept.
   */
  function Lower(s: string): (r: string)
    ensures |r| == |s|
    ensures forall i :: 0 <= i < |r| ==> !('A' <= r[i] <= 'Z')
    ensures forall i :: 0 <= i < |s| && 'A' <= s[i] <= 'Z' ==> r[i] as int == s[i] as int + 32 && 'a' <= r[i] <= 'z'
    ensures forall i :: 0 <= i < |s| && !('A' <= s[i] <= 'Z') ==> r[i] == s[i]
  {
    seq(|s|, i requires 0 <= i < |s| => LowerChar(s[i]))
  }

  /** Lower-casing twice is lower-casing once. */
  lemma LowerIdempotent(s: string)
    ensures Lower(Lower(s)) == Lower(s)
  {
  }

  /** Lower-casing keeps an occurrence of a pattern that is already lower case. */
  lemma LowerKeepsContains(s: string, p: string)
    requires Contains(s, p) && Lower(p) == p
    ensures Contains(Lower(s), p)
  {
    ContainsSpec(s, p);
    var i :| 0 <= i <= |s| && OccursAt(s, p, i);
    assert Lower(s)[i..i + |p|] == Lower(p);
    assert OccursAt(Lower(s), p, i);
    ContainsSpec(Lower(s), p);
  }

  /**
   * The characters that `\s` matches in a JavaScript regular expression and that
   * `trim()` removes: ECMAScript's WhiteSpace (tab, vertical tab, form feed, the
   * space separators, the byte order mark) and LineTerminator (LF, CR, U+2028, U+2029).
   */
  predicate IsWs(c: char) {
    c == '\t' || c == '\n' || c == '\U{000B}' || c == '\U{000C}' || c == '\r' || c == ' '
    || c == '\U{00A0}' || c == '\U{1680}' || ('\U{2000}' <= c <= '\U{200A}')
    || c == '\U{2028}' || c == '\U{2029}' || c == '\U{202F}' || c == '\U{205F}'
    || c == '\U{3000}' || c == '\U{FEFF}'
  }

  predicate AllWs(s: string) {
    forall i :: 0 <= i < |s| ==> IsWs(s[i])
  }

  /** No two adjacent characters are both whitespace. */
  predicate NoWsRun(s: string) {
    forall i, j :: 0 <= i < |s| && 0 <= j < |s| && j == i + 1 ==> !(IsWs(s[i]) && IsWs(s[j]))
  }

  /** Every whitespace character is a plain space. */
  predicate OnlySpaces(s: string) {
    forall i :: 0 <= i < |s| && IsWs(s[i]) ==> s[i] == ' '
  }

  /** The non-whitespace characters of `s`, in order: what a text "says". */
  function NonWs(s: string): (r: string)
    ensures |r| <= |s|
  {
    if s == [] then [] else (if IsWs(s[0]) then [] else [s[0]]) + NonWs(s[1..])
  }

  lemma {:induction false} NonWsAppend(a: string, b: string)
    ensures NonWs(a + b) == NonWs(a) + NonWs(b)
  {
    if a == [] {
      assert a + b == b;
    } else {
      assert (a + b)[1..] == a[1..] + b;
      NonWsAppend(a[1..], b);
    }
  }

  lemma {:induction false} NonWsOfAllWs(s: string)
    requires AllWs(s)
    ensures NonWs(s) == []
  {
    if s != [] {
      NonWsOfAllWs(s[1..]);
    }
  }

  /** Length of the leading run of whitespace. */
  function WsPrefixLen(s: string): (n: nat)
    ensures n <= |s|
    ensures forall i :: 0 <= i < n ==> IsWs(s[i])
    ensures n < |s| ==> !IsWs(s[n])
  {
    if s != [] && IsWs(s[0]) then 1 + WsPrefixLen(s[1..]) else 0
  }

  /** Length of the trailing run of whitespace. */
  function WsSuffixLen(s: string): (n: nat)
    ensures n <= |s|
    ensures forall i :: |s| - n <= i < |s| ==> IsWs(s[i])
    ensures n < |s| ==> !IsWs(s[|s| - 1 - n])
  {
    if s != [] && IsWs(s[|s| - 1]) then 1 + WsSuffixLen(s[..|s| - 1]) else 0
  }

  /** `s.trim()`: the leading and the trailing whitespace removed. */
  function Trim(s: string): (r: string)
    ensures |r| <= |s|
    ensures r != [] ==> !IsWs(r[0]) && !IsWs(r[|r| - 1])
  {
    var t := s[WsPrefixLen(s)..];
    t[..|t| - WsSuffixLen(t)]
  }

  /** Where the trailing whitespace of `s`, after its leading whitespace is cut, begins. */
  function TrimEndIndex(s: string): (j: nat)
    ensures WsPrefixLen(s) <= j <= |s|
  {
    var t := s[WsPrefixLen(s)..];
    WsPrefixLen(s) + |t| - WsSuffixLen(t)
  }

  /**
   * `trim()` cuts `s` into whitespace, the result, whitespace: the result is the
   * infix `s[i..j]` between a run of leading and a run of trailing whitespace.
   */
  lemma TrimSplit(s: string)
    ensures var i, j := WsPrefixLen(s), TrimEndIndex(s);
      Trim(s) == s[i..j] && AllWs(s[..i]) && AllWs(s[j..])
  {
    var i := WsPrefixLen(s);
    var t := s[i..];
    var n := WsSuffixLen(t);
    var j := TrimEndIndex(s);
    assert j == i + |t| - n;
    assert Trim(s) == t[..|t| - n];
    assert t[..|t| - n] == s[i..j];
    assert AllWs(s[..i]) by {
      forall k | 0 <= k < i ensures IsWs(s[..i][k]) {
        assert s[..i][k] == s[k];
      }
    }
    assert AllWs(s[j..]) by {
      forall k | 0 <= k < |s| - j ensures IsWs(s[j..][k]) {
        assert s[j..][k] == t[|t| - n + k];
      }
    }
  }

  /**
   * The result of `trim()` is an infix of `s` with only whitespace around it,
   * and it is empty exactly when `s` is all whitespace.
   */
  lemma TrimIsInfix(s: string)
    ensures exists i, j ::
      0 <= i <= j <= |s| && Trim(s) == s[i..j] && AllWs(s[..i]) && AllWs(s[j..])
    ensures Trim(s) == [] <==> AllWs(s)
  {
    TrimSplit(s);
    var i, j := WsPrefixLen(s), TrimEndIndex(s);
    if Trim(s) != [] {
      assert s[i] == Trim(s)[0];
    } else {
      forall k | 0 <= k < |s| ensures IsWs(s[k]) {
        assert s[k] == s[..i][k];
      }
    }
  }

  /** `trim()` removes only whitespace. */
  lemma TrimKeepsNonWs(s: string)
    ensures NonWs(Trim(s)) == NonWs(s)
  {
    TrimSplit(s);
    var i, j := WsPrefixLen(s), TrimEndIndex(s);
    assert s == s[..i] + s[i..j] + s[j..];
    NonWsAppend(s[..i] + s[i..j], s[j..]);
    NonWsAppend(s[..i], s[i..j]);
    NonWsOfAllWs(s[..i]);
    NonWsOfAllWs(s[j..]);
  }

  /**
   * `s.replace(/\s+/g, " ")`: every maximal run of whitespace becomes one space.
   * Read one character at a time: a whitespace character followed by another
   * one is dropped, and the last one of a run becomes the space.
   */
  function Collapse(s: string): (r: string)
    ensures |r| <= |s|
    ensures r == [] <==> s == []
    ensures r != [] ==> (IsWs(r[0]) <==> IsWs(s[0]))
  {
    if s == [] then []
    else if !IsWs(s[0]) then [s[0]] + Collapse(s[1..])
    else if |s| > 1 && IsWs(s[1]) then Collapse(s[1..])
    else [' '] + Collapse(s[1..])
  }

  /** After collapsing, no two whitespace characters are adjacent and every whitespace is a space. */
  lemma CollapseIsCollapsed(s: string)
    ensures NoWsRun(Collapse(s)) && OnlySpaces(Collapse(s))
  {
    CollapseNoRun(s);
    CollapseOnlySpaces(s);
  }

  /** No two whitespace characters are adjacent after collapsing. */
  lemma {:induction false} CollapseNoRun(s: string)
    ensures NoWsRun(Collapse(s))
    decreases |s|
  {
    if s != [] {
      var rest := s[1..];
      CollapseNoRun(rest);
      var c := Collapse(rest);
      var r := Collapse(s);
      if IsWs(s[0]) && |s| > 1 && IsWs(s[1]) {
        assert r == c;
      } else {
        assert r == [if IsWs(s[0]) then ' ' else s[0]] + c;
        forall i, j | 0 <= i < |r| && 0 <= j < |r| && j == i + 1 ensures !(IsWs(r[i]) && IsWs(r[j])) {
          if i > 0 {
            assert r[i] == c[i - 1] && r[j] == c[j - 1];
          } else if IsWs(s[0]) {
            assert r[j] == c[0] && rest[0] == s[1];
          }
        }
      }
    }
  }

  /** The only whitespace left after collapsing is the space. */
  lemma {:induction false} CollapseOnlySpaces(s: string)
    ensures OnlySpaces(Collapse(s))
    decreases |s|
  {
    if s != [] {
      var rest := s[1..];
      CollapseOnlySpaces(rest);
      var c := Collapse(rest);
      var r := Collapse(s);
      if !(IsWs(s[0]) && |s| > 1 && IsWs(s[1])) {
        assert r == [if IsWs(s[0]) then ' ' else s[0]] + c;
        forall i | 0 <= i < |r| && IsWs(r[i]) ensures r[i] == ' ' {
          if i > 0 {
            assert r[i] == c[i - 1];
          }
        }
      }
    }
  }

  /** Collapsing removes no visible character and adds none. */
  lemma {:induction false} CollapseKeepsNonWs(s: string)
    ensures NonWs(Collapse(s)) == NonWs(s)
    decreases |s|
  {
    if s != [] {
      var rest := s[1..];
      CollapseKeepsNonWs(rest);
      if !IsWs(s[0]) {
        NonWsAppend([s[0]], Collapse(rest));
      } else if !(|s| > 1 && IsWs(s[1])) {
        NonWsAppend([' '], Collapse(rest));
      }
    }
  }

  /** A text already in collapsed form is left as it is. */
  lemma {:induction false} CollapseOfCollapsed(s: string)
    requires NoWsRun(s) && OnlySpaces(s)
    ensures Collapse(s) == s
    decreases |s|
  {
    if s != [] {
      var rest := s[1..];
      assert NoWsRun(rest) && OnlySpaces(rest) by {
        forall i, j | 0 <= i < |rest| && 0 <= j < |rest| && j == i + 1 ensures !(IsWs(rest[i]) && IsWs(rest[j])) {
          assert rest[i] == s[i + 1] && rest[j] == s[j + 1];
        }
      }
      CollapseOfCollapsed(rest);
      if IsWs(s[0]) && |s| > 1 {
        assert !IsWs(s[1]);
      }
    }
  }

  /** Collapsing is idempotent. */
  lemma CollapseIdempotent(s: string)
    ensures Collapse(Collapse(s)) == Collapse(s)
  {
    CollapseIsCollapsed(s);
    CollapseOfCollapsed(Collapse(s));
  }

  /** Collapsing works piece by piece across a cut that follows a visible character. */
  lemma {:induction false} CollapseAppend(a: string, t: string)
    requires a == [] || !IsWs(a[|a| - 1])
    ensures Collapse(a + t) == Collapse(a) + Collapse(t)
    decreases |a|
  {
    if a == [] {
      assert a + t == t;
    } else {
      var rest := a[1..];
      assert (a + t)[1..] == rest + t;
      CollapseAppend(rest, t);
      if IsWs(a[0]) {
        assert |a| > 1 && (a + t)[1] == a[1];
      }
    }
  }

  /** A leading run of whitespace before a word, or before the end, becomes one space. */
  lemma {:induction false} CollapseLeadingRun(w: string, b: string)
    requires w != [] && AllWs(w)
    requires b == [] || !IsWs(b[0])
    ensures Collapse(w + b) == " " + Collapse(b)
    decreases |w|
  {
    assert (w + b)[1..] == w[1..] + b;
    if |w| > 1 {
      assert (w + b)[1] == w[1];
      CollapseLeadingRun(w[1..], b);
    } else {
      assert w[1..] + b == b;
    }
  }

  /**
   * A run of whitespace between two words becomes exactly one space: the words
   * on either side are neither merged nor pulled further apart, and each is
   * collapsed on its own.
   */
  lemma CollapseWordBreak(a: string, w: string, b: string)
    requires a == [] || !IsWs(a[|a| - 1])
    requires w != [] && AllWs(w)
    requires b == [] || !IsWs(b[0])
    ensures Collapse(a + (w + b)) == Collapse(a) + (" " + Collapse(b))
  {
    CollapseAppend(a, w + b);
    CollapseLeadingRun(w, b);
  }

  /** `s.substring(0, n)`: at most the first `n` characters. */
  function Truncate(s: string, n: nat): (r: string)
    ensures |r| <= n && IsPrefix(r, s)
    ensures |s| <= n ==> r == s
    ensures |s| > n ==> |r| == n
  {
    if |s| <= n then s else s[..n]
  }

  /** A piece cut out of a collapsed text is still collapsed. */
  lemma InfixKeepsCollapsed(s: string, i: nat, j: nat)
    requires i <= j <= |s| && NoWsRun(s) && OnlySpaces(s)
    ensures NoWsRun(s[i..j]) && OnlySpaces(s[i..j])
  {
    var t := s[i..j];
    forall k, l | 0 <= k < |t| && 0 <= l < |t| && l == k + 1 ensures !(IsWs(t[k]) && IsWs(t[l])) {
      assert t[k] == s[i + k] && t[l] == s[i + l];
    }
  }

  /** The route's clean-up `s.replace(/\s+/g, " ").trim().substring(0, n)`. */
  function Clean(s: string, n: nat): (r: string)
    ensures |r| <= n
  {
    Truncate(Trim(Collapse(s)), n)
  }

  /**
   * What the clean-up guarantees: at most `n` characters, no two whitespace
   * characters in a row, every whitespace a space, no leading whitespace, a
   * prefix of the collapsed and trimmed text (all of it when that fits in
   * `n`), which in turn has exactly the visible characters of `s`. A trailing
   * space can remain after the cut.
   */
  lemma CleanSpec(s: string, n: nat)
    ensures var r := Clean(s, n);
      && |r| <= n
      && NoWsRun(r) && OnlySpaces(r)
      && (r != [] ==> !IsWs(r[0]))
      && IsPrefix(r, Trim(Collapse(s)))
      && (|Trim(Collapse(s))| <= n ==> r == Trim(Collapse(s)))
      && NonWs(Trim(Collapse(s))) == NonWs(s)
  {
    var c := Collapse(s);
    CollapseIsCollapsed(s);
    TrimKeepsNonWs(c);
    CollapseKeepsNonWs(s);
    var t := Trim(c);
    TrimSplit(c);
    InfixKeepsCollapsed(c, WsPrefixLen(c), TrimEndIndex(c));
    var r := Truncate(t, n);
    InfixKeepsCollapsed(t, 0, |r|);
    assert r == t[0..|r|];
  }

  /** JavaScript's `a || b` on two strings: `a` unless it is empty. */
  function Or(a: string, b: string): string {
    if a != "" then a else b
  }
}
