/**
 * A worked resolution of one shared track link, with stub collaborators.
 * Each lemma takes the link as a parameter fixed by a `requires` rather
 * than writing the literal inline: on a literal argument the verifier
 * evaluates the recursive `Text.Split` character by character, which is
 * far more costly than reasoning from its contract.
 */
module Example {
  import opened Wrappers
  import Text
  import SpotifyUrl
  import Resolver

  /** The link has no query string. */
  lemma TrackLinkHasNoQuery(link: string)
    requires link == "https://open.spotify.com/track/abc123"
    ensures '?' !in link
  {
  }

  /** The link is already lower case. */
  lemma TrackLinkIsLower(link: string)
    requires link == "https://open.spotify.com/track/abc123"
    ensures Text.Lower(link) == link
  {
  }

  /** The link has the shape of a secure `open.` track link with id `abc123`. */
  lemma TrackLinkInPattern(link: string)
    requires link == "https://open.spotify.com/track/abc123"
    ensures SpotifyUrl.InPattern(link, "track")
  {
    assert SpotifyUrl.IsId("abc123");
    assert link == SpotifyUrl.Link(true, false, "track", "abc123");
  }

  /** A query-free, lower-case link in the track pattern stays valid with any query string. */
  lemma ValidWithAnyQuery(link: string, query: string)
    requires '?' !in link && Text.Lower(link) == link
    requires SpotifyUrl.InPattern(link, "track")
    ensures SpotifyUrl.ValidateURL(link + "?" + query, "track")
  {
    SpotifyUrl.ValidateIgnoresQuery(link, query, "track");
    assert SpotifyUrl.Parse(link) == link;
    SpotifyUrl.ValidateIffInPattern(link, "track");
  }

  /** A shared link with a tracking query string is a valid track link. */
  lemma SharedLinkIsValid(link: string, query: string)
    requires link == "https://open.spotify.com/track/abc123"
    ensures SpotifyUrl.ValidateURL(link + "?" + query, "track")
  {
    TrackLinkHasNoQuery(link);
    TrackLinkIsLower(link);
    TrackLinkInPattern(link);
    ValidWithAnyQuery(link, query);
  }

  /** The id of the link is its last path segment. */
  lemma TrackLinkId(link: string)
    requires link == "https://open.spotify.com/track/abc123"
    ensures Text.LastSegment(link, '/') == "abc123"
  {
  }

  /** With a track preview and a video with views for every query, a valid
      link resolves to the preview's fields and the video's duration. */
  lemma ResolveWithStubs(
    url: string,
    link: string,
    getPreview: string -> Resolver.Reply<Option<Resolver.Preview>>,
    searchOne: string -> Resolver.Reply<Option<Resolver.Video>>)
    requires SpotifyUrl.ValidateURL(url, "track")
    requires forall u :: getPreview(u) == Resolver.Answered(Some(Resolver.Preview("track", "X", "Y", link, "img.png")))
    requires forall q :: searchOne(q) == Resolver.Answered(Some(Resolver.Video("v", 100, 200000)))
    ensures Resolver.GetInfo(url, getPreview, searchOne)
      == Success(Resolver.TrackInfo("X", "Y", link, Text.LastSegment(link, '/'), 200000, "img.png"))
  {
  }

  /** Resolving the shared link, with a preview stub that answers with a
      track record and a search stub that finds a video with views for
      every query, gives the track's own fields, the video's duration and
      the id `abc123`. */
  lemma ResolveSharedLink(
    link: string,
    getPreview: string -> Resolver.Reply<Option<Resolver.Preview>>,
    searchOne: string -> Resolver.Reply<Option<Resolver.Video>>)
    requires link == "https://open.spotify.com/track/abc123"
    requires forall u :: getPreview(u) == Resolver.Answered(Some(Resolver.Preview("track", "X", "Y", link, "img.png")))
    requires forall q :: searchOne(q) == Resolver.Answered(Some(Resolver.Video("v", 100, 200000)))
    ensures Resolver.GetInfo(link + "?" + "si=xyz", getPreview, searchOne)
      == Success(Resolver.TrackInfo("X", "Y", link, "abc123", 200000, "img.png"))
  {
    SharedLinkIsValid(link, "si=xyz");
    ResolveWithStubs(link + "?" + "si=xyz", link, getPreview, searchOne);
    TrackLinkId(link);
  }
}
