/**
 * Recognition of Spotify links: `GBSPCKCore.parse` and
 * `GBSPCKCore.validateURL`.
 *
 * The library tests the query-stripped link against
 *   /^https?:\/\/(?:open|play)\.spotify\.com\/<kind>\/[\w\d]+$/i
 * for one of three fixed kinds. The flag `i` without `u` folds case only
 * between ASCII letters, and `\w` is `[A-Za-z0-9_]`, so the pattern is
 * modelled by ASCII lower-casing the input and matching lower-case literals
 * with a hand-written matcher. `InPattern` states the pattern's language
 * declaratively and `MatchesIffInPattern` shows the matcher accepts exactly
 * that language.
 */
module SpotifyUrl {
  import opened Wrappers
  import Text

  /** The kinds of link `validateURL` has a pattern for. */
  const Kinds: set<string> := {"track", "album", "playlist"}

  /** `GBSPCKCore.parse`: the link with its query string cut off. */
  function Parse(url: string): (r: string)
    ensures r <= url
    ensures '?' !in r
    ensures |r| == |url| || url[|r|] == '?'
  {
    Text.Split(url, '?')[0]
  }

  /** A character of the regular-expression class `[\w\d]`. */
  predicate IsWordChar(c: char)
  {
    || 'a' <= c <= 'z'
    || 'A' <= c <= 'Z'
    || '0' <= c <= '9'
    || c == '_'
  }

  /** A string `[\w\d]+` matches in full. */
  predicate IsId(s: string)
  {
    |s| > 0 && forall i :: 0 <= i < |s| ==> IsWordChar(s[i])
  }

  /** Consumes `https?://` from the front of a lower-cased link. */
  function StripScheme(s: string): Option<string>
  {
    if "https://" <= s then Some(s[|"https://"|..])
    else if "http://" <= s then Some(s[|"http://"|..])
    else None
  }

  /** Consumes `(?:open|play)\.` from the front of a lower-cased link. */
  function StripHost(s: string): Option<string>
  {
    if "open." <= s || "play." <= s then Some(s[|"open."|..]) else None
  }

  /** The fixed text between the host prefix and the id. */
  function PathHead(kind: string): string
  {
    "spotify.com/" + kind + "/"
  }

  /** Matches `spotify\.com\/<kind>\/[\w\d]+$` against the rest of the link. */
  predicate MatchPath(s: string, kind: string)
  {
    PathHead(kind) <= s && IsId(s[|PathHead(kind)|..])
  }

  /** The hand-written matcher for the whole pattern, on a lower-cased link. */
  predicate Matches(s: string, kind: string)
  {
    match StripScheme(s)
    case None => false
    case Some(afterScheme) =>
      match StripHost(afterScheme)
      case None => false
      case Some(afterHost) => MatchPath(afterHost, kind)
  }

  /** `GBSPCKCore.validateURL(url, kind)`. The source's default kind,
      `'track'`, is passed explicitly by its callers here. */
  function ValidateURL(url: string, kind: string): (valid: bool)
    ensures valid ==> kind in Kinds
  {
    if kind == "track" || kind == "album" || kind == "playlist" then
      Matches(Text.Lower(Parse(url)), kind)
    else
      false
  }

  /** The text `https?://` stands for: with or without the `s`. */
  function Scheme(secure: bool): string
  {
    if secure then "https://" else "http://"
  }

  /** The text `(?:open|play)\.` stands for. */
  function Host(play: bool): string
  {
    if play then "play." else "open."
  }

  /** The link that the pattern describes for a scheme, host, kind and id. */
  function Link(secure: bool, play: bool, kind: string, id: string): string
  {
    Scheme(secure) + (Host(play) + (PathHead(kind) + id))
  }

  /** The language of the pattern for `kind`, over lower-cased text. */
  ghost predicate InPattern(s: string, kind: string)
  {
    exists secure: bool, play: bool, id: string :: IsId(id) && s == Link(secure, play, kind, id)
  }

  /** What `StripScheme` consumed is one of the two scheme texts. */
  lemma StripSchemeInverse(s: string)
    requires StripScheme(s).Some?
    ensures s == Scheme("https://" <= s) + StripScheme(s).value
  {
  }

  /** `StripScheme` consumes exactly a leading scheme text. */
  lemma StripSchemeOf(secure: bool, a: string)
    ensures StripScheme(Scheme(secure) + a) == Some(a)
  {
    var s := Scheme(secure) + a;
    assert Scheme(secure) <= s;
    if !secure {
      assert s[4] == ':';
      assert !("https://" <= s);
    }
    assert s[|Scheme(secure)|..] == a;
  }

  /** What `StripHost` consumed is one of the two host texts. */
  lemma StripHostInverse(s: string)
    requires StripHost(s).Some?
    ensures s == Host(!("open." <= s)) + StripHost(s).value
  {
  }

  /** `StripHost` consumes exactly a leading host text. */
  lemma StripHostOf(play: bool, b: string)
    ensures StripHost(Host(play) + b) == Some(b)
  {
  }

  /** Links the matcher accepts are in the pattern's language. */
  lemma MatchesInPattern(s: string, kind: string)
    requires Matches(s, kind)
    ensures InPattern(s, kind)
  {
    StripSchemeInverse(s);
    var a := StripScheme(s).value;
    StripHostInverse(a);
    var b := StripHost(a).value;
    var id := b[|PathHead(kind)|..];
    assert b == PathHead(kind) + id;
    assert s == Link("https://" <= s, !("open." <= a), kind, id);
  }

  /** Links in the pattern's language are accepted by the matcher. */
  lemma InPatternMatches(s: string, kind: string)
    requires InPattern(s, kind)
    ensures Matches(s, kind)
  {
    var secure, play, id :| IsId(id) && s == Link(secure, play, kind, id);
    var b := PathHead(kind) + id;
    StripSchemeOf(secure, Host(play) + b);
    StripHostOf(play, b);
    assert b[|PathHead(kind)|..] == id;
  }

  /** The matcher accepts a lower-cased link exactly when it is in the pattern's language. */
  lemma MatchesIffInPattern(s: string, kind: string)
    ensures Matches(s, kind) <==> InPattern(s, kind)
  {
    if Matches(s, kind) {
      MatchesInPattern(s, kind);
    }
    if InPattern(s, kind) {
      InPatternMatches(s, kind);
    }
  }

  /** `p` is the part of `s` before the first `sep`. */
  ghost predicate BeforeFirst(p: string, s: string, sep: char)
  {
    p <= s && sep !in p && (|p| == |s| || s[|p|] == sep)
  }

  /** Only one prefix of a string stops at its first separator. */
  lemma BeforeFirstUnique(p1: string, p2: string, s: string, sep: char)
    requires BeforeFirst(p1, s, sep) && BeforeFirst(p2, s, sep)
    ensures p1 == p2
  {
  }

  /** Stripping the query string twice is the same as stripping it once. */
  lemma ParseIdempotent(url: string)
    ensures Parse(Parse(url)) == Parse(url)
  {
  }

  /** Whatever follows the first `?` is cut off, whatever it holds. */
  lemma ParseIgnoresQuery(url: string, query: string)
    ensures Parse(url + "?" + query) == Parse(url)
  {
    var s := url + "?" + query;
    var p := Parse(url);
    assert p <= s by {
      assert s[..|p|] == url[..|p|];
    }
    if |p| == |url| {
      assert s[|p|] == '?';
    } else {
      assert s[|p|] == url[|p|];
    }
    BeforeFirstUnique(Parse(s), p, s, '?');
  }

  /** Appending a query string never changes whether a link is valid. */
  lemma ValidateIgnoresQuery(url: string, query: string, kind: string)
    ensures ValidateURL(url + "?" + query, kind) == ValidateURL(url, kind)
  {
    ParseIgnoresQuery(url, query);
  }

  /** A link is valid for `kind` exactly when `kind` has a pattern and the
      lower-cased, query-stripped link is in that pattern's language. */
  lemma ValidateIffInPattern(url: string, kind: string)
    ensures ValidateURL(url, kind) <==> kind in Kinds && InPattern(Text.Lower(Parse(url)), kind)
  {
    var s := Text.Lower(Parse(url));
    MatchesIffInPattern(s, kind);
    assert ValidateURL(url, kind) == (kind in Kinds && Matches(s, kind));
  }

  /** No link is valid for two different kinds. */
  lemma KindsExclusive(url: string, kind1: string, kind2: string)
    requires ValidateURL(url, kind1) && ValidateURL(url, kind2)
    ensures kind1 == kind2
  {
    var s := Text.Lower(Parse(url));
    var b := StripHost(StripScheme(s).value).value;
    assert b[|"spotify.com/"|] == PathHead(kind1)[12] == kind1[0];
    assert b[|"spotify.com/"|] == PathHead(kind2)[12] == kind2[0];
  }

  /** Lower-casing commutes with stripping the query string. */
  lemma LowerParse(url: string)
    ensures Parse(Text.Lower(url)) == Text.Lower(Parse(url))
  {
  }

  /** The link's letter case does not matter: `validateURL` is case-insensitive. */
  lemma ValidateIgnoresCase(url: string, kind: string)
    ensures ValidateURL(Text.Lower(url), kind) == ValidateURL(url, kind)
  {
    LowerParse(url);
    Text.LowerIdempotent(Parse(url));
  }
}
