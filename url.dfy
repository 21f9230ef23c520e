/**
 * The part of Python 2.7's `urlparse.urlsplit` that `uri_to_name` consumes:
 * the scheme test, the `//netloc` split, and the removal of `#fragment`
 * and `?query` from the path.
 */
module Url {
  import opened Wrappers
  import opened Strings

  /** A character of `urlparse.scheme_chars`: a letter, a digit, `+`, `-` or `.`. */
  predicate IsSchemeChar(ch: char)
  {
    ('a' <= ch <= 'z') || ('A' <= ch <= 'Z') || ('0' <= ch <= '9') || ch == '+' || ch == '-' || ch == '.'
  }

  datatype SplitResult = SplitResult(netloc: string, path: string, query: string, fragment: string)

  predicate AllSchemeChars(s: string)
  {
    forall i :: 0 <= i < |s| ==> IsSchemeChar(s[i])
  }

  /**
   * What is left of `url` once a leading scheme is removed: a `scheme:`
   * prefix counts when the scheme is non-empty and made of scheme characters,
   * and what follows the colon is not a port number (all digits), except
   * that `http:` always counts.
   */
  function AfterScheme(url: string): string
  {
    match Find(url, ":")
    case None => url
    case Some(i) =>
      var rest := url[i + 1..];
      if i > 0 && (url[..i] == "http" || (AllSchemeChars(url[..i]) && (rest == "" || !IsDigits(rest))))
      then rest
      else url
  }

  /** The first index at or after `k` holding `/`, `?` or `#`, or `|s|` when there is none. */
  function NetlocEnd(s: string, k: nat): (r: nat)
    requires k <= |s|
    decreases |s| - k
    ensures k <= r <= |s|
    ensures forall j :: k <= j < r ==> s[j] !in "/?#"
    ensures r < |s| ==> s[r] in "/?#"
  {
    if k == |s| || s[k] in "/?#" then k else NetlocEnd(s, k + 1)
  }

  /** `urlparse.urlsplit(url)` with fragments allowed. */
  function Split(url: string): SplitResult
  {
    var rest := AfterScheme(url);
    var (netloc, afterNetloc) :=
      if StartsWith(rest, "//")
      then var e := NetlocEnd(rest, 2); (rest[2..e], rest[e..])
      else ("", rest);
    var frag := Partition(afterNetloc, "#");
    var query := Partition(frag.before, "?");
    SplitResult(netloc, query.before, query.after, frag.after)
  }

  /** A path without `:`, `?`, `#` and not starting with `//` is split into an empty netloc and itself. */
  lemma PlainPath(p: string)
    requires ':' !in p && '?' !in p && '#' !in p
    requires !StartsWith(p, "//")
    ensures Split(p).netloc == "" && Split(p).path == p
  {
    ContainsChar(p, ':');
    ContainsChar(p, '#');
    ContainsChar(p, '?');
  }

  /** A scheme followed by `//` is removed. */
  lemma SchemeRemoved(scheme: string, rest: string)
    requires scheme != "" && AllSchemeChars(scheme)
    requires StartsWith(rest, "//")
    ensures AfterScheme(scheme + ":" + rest) == rest
  {
    var url := scheme + ":" + rest;
    assert ':' !in scheme by {
      forall i | 0 <= i < |scheme| ensures scheme[i] != ':' {
        assert IsSchemeChar(scheme[i]);
      }
    }
    NoEarlyOccurrence(scheme, ":", rest) by { ContainsChar(scheme, ':'); }
    PartitionFirst(scheme, ":", rest);
    assert Find(url, ":") == Some(|scheme|);
    assert url[..|scheme|] == scheme && url[|scheme| + 1..] == rest;
    assert !IsDigits(rest) by { assert rest[0] == '/'; }
  }

  /** After `//`, the netloc runs up to the first `/`, `?` or `#`. */
  lemma NetlocSplit(netloc: string, path: string)
    requires forall i :: 0 <= i < |netloc| ==> netloc[i] !in "/?#"
    requires path == [] || path[0] == '/'
    ensures var rest := "//" + netloc + path;
      var e := NetlocEnd(rest, 2);
      rest[2..e] == netloc && rest[e..] == path
  {
    var rest := "//" + netloc + path;
    assert forall j :: 2 <= j < 2 + |netloc| ==> rest[j] == netloc[j - 2];
    assert 2 + |netloc| < |rest| ==> rest[2 + |netloc|] == '/';
    assert NetlocEnd(rest, 2) == 2 + |netloc|;
  }

  /**
   * `scheme://netloc/path` is split at the first `/` after the `//`, as long
   * as netloc and path hold no `?` or `#`.
   */
  lemma SchemeUrl(scheme: string, netloc: string, path: string)
    requires scheme != "" && AllSchemeChars(scheme)
    requires forall i :: 0 <= i < |netloc| ==> netloc[i] !in "/?#"
    requires path == [] || path[0] == '/'
    requires '?' !in path && '#' !in path
    ensures Split(scheme + "://" + netloc + path).netloc == netloc
    ensures Split(scheme + "://" + netloc + path).path == path
  {
    var rest := "//" + netloc + path;
    assert scheme + "://" + netloc + path == scheme + ":" + rest;
    SchemeRemoved(scheme, rest);
    NetlocSplit(netloc, path);
    ContainsChar(path, '#');
    ContainsChar(path, '?');
  }
}
