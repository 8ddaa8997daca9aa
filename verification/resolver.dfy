/**
 * Track resolution: `GBSPCKCore.getInfo` and the default export `gbspck`.
 *
 * The three outside services are parameters. `getPreview` is
 * `spotifyApi.getPreview`, `searchOne` is `Youtube.searchOne` and `ytdl`
 * opens the audio stream; each either answers or throws (rejects). Both
 * entry points share the selection steps of `SelectVideo`: validate the
 * link, fetch the preview, search with one fallback query, reject a
 * zero-view video.
 */
module Resolver {
  import opened Wrappers
  import Text
  import SpotifyUrl

  /** The preview record `{type, track, artist, link, image}`. */
  datatype Preview = Preview(kind: string, track: string, artist: string, link: string, image: string)

  /** The fields of a search hit the library reads. */
  datatype Video = Video(url: string, views: int, duration: int)

  /** The `trackInfo` record `getInfo` resolves with. */
  datatype TrackInfo = TrackInfo(
    title: string,
    artist: string,
    url: string,
    id: string,
    duration: int,
    thumbnail: string)

  /** Why a resolution was rejected: `InvalidUrl` is the library's
      "Invalid URL" error, `TrackNotFound` its "Track not found", and
      `Upstream` carries a collaborator's own error, passed on unchanged. */
  datatype Error = InvalidUrl | TrackNotFound | Upstream(reason: string)

  /** How a call to an outside service settled. */
  datatype Reply<+T> = Answered(value: T) | Threw(reason: string)

  /** The selected pair: the track preview and the video that plays it. */
  datatype Selection = Selection(preview: Preview, video: Video)

  /** The first search query, `"{track} {artist}"`. */
  function PrimaryQuery(p: Preview): string
  {
    p.track + " " + p.artist
  }

  /** The fallback search query, the title alone. */
  function FallbackQuery(p: Preview): string
  {
    p.track
  }

  /** The video search with one fallback: the title-only query's reply can
      change the outcome only after the first query answered with no video. */
  function Search(p: Preview, searchOne: string -> Reply<Option<Video>>): Reply<Option<Video>>
  {
    match searchOne(PrimaryQuery(p))
    case Threw(e) => Threw(e)
    case Answered(Some(v)) => Answered(Some(v))
    case Answered(None) => searchOne(FallbackQuery(p))
  }

  /** `v` is the video the search settles on for preview `p`: the primary
      hit, or the fallback hit when the primary query found nothing. */
  ghost predicate Chosen(p: Preview, searchOne: string -> Reply<Option<Video>>, v: Video)
  {
    || searchOne(PrimaryQuery(p)) == Answered(Some(v))
    || (searchOne(PrimaryQuery(p)) == Answered(None) && searchOne(FallbackQuery(p)) == Answered(Some(v)))
  }

  /** The search reads the service at the two queries only: services that
      agree there give the same outcome. */
  lemma SearchReadsTwoQueries(
    p: Preview,
    searchOne: string -> Reply<Option<Video>>,
    otherSearch: string -> Reply<Option<Video>>)
    requires searchOne(PrimaryQuery(p)) == otherSearch(PrimaryQuery(p))
    requires searchOne(FallbackQuery(p)) == otherSearch(FallbackQuery(p))
    ensures Search(p, searchOne) == Search(p, otherSearch)
  {
  }

  /** The search answers with a video exactly when that video is the one
      chosen: the primary hit, or the fallback hit after an empty primary. */
  lemma SearchFindsChosen(p: Preview, searchOne: string -> Reply<Option<Video>>, v: Video)
    ensures Search(p, searchOne) == Answered(Some(v)) <==> Chosen(p, searchOne, v)
  {
  }

  /** The steps both entry points share, in the library's order. */
  function SelectVideo(
    url: string,
    getPreview: string -> Reply<Option<Preview>>,
    searchOne: string -> Reply<Option<Video>>): (r: Result<Selection, Error>)
    ensures r == Failure(InvalidUrl) <==> !SpotifyUrl.ValidateURL(url, "track")
    ensures r.Success? ==>
      && SpotifyUrl.ValidateURL(url, "track")
      && getPreview(url) == Answered(Some(r.value.preview))
      && r.value.preview.kind == "track"
      && Chosen(r.value.preview, searchOne, r.value.video)
      && r.value.video.views != 0
  {
    if !SpotifyUrl.ValidateURL(url, "track") then Failure(InvalidUrl)
    else
      match getPreview(url)
      case Threw(e) => Failure(Upstream(e))
      case Answered(None) => Failure(TrackNotFound)
      case Answered(Some(p)) =>
        if p.kind != "track" then Failure(TrackNotFound)
        else
          match Search(p, searchOne)
          case Threw(e) => Failure(Upstream(e))
          case Answered(None) => Failure(TrackNotFound)
          case Answered(Some(v)) =>
            if v.views == 0 then Failure(TrackNotFound) else Success(Selection(p, v))
  }

  /** `t` is the record built from preview `p` and video `v`: the track's
      own title, artist, link and image, the video's duration, and as id the
      part of the link after its last `/`. */
  ghost predicate Describes(t: TrackInfo, p: Preview, v: Video)
  {
    && t.title == p.track
    && t.artist == p.artist
    && t.url == p.link
    && t.thumbnail == p.image
    && t.duration == v.duration
    && '/' !in t.id
    && |t.id| <= |p.link|
    && p.link[|p.link| - |t.id|..] == t.id
    && (|t.id| == |p.link| || p.link[|p.link| - |t.id| - 1] == '/')
  }

  /** `GBSPCKCore.getInfo(url)`. It resolves only for a valid track link
      whose preview is a track and for which the search chose a video with
      views, and the record then describes that preview and video. */
  function GetInfo(
    url: string,
    getPreview: string -> Reply<Option<Preview>>,
    searchOne: string -> Reply<Option<Video>>): (r: Result<TrackInfo, Error>)
    ensures r.Success? ==>
      && SpotifyUrl.ValidateURL(url, "track")
      && getPreview(url).Answered?
      && getPreview(url).value.Some?
      && var p := getPreview(url).value.value;
      && p.kind == "track"
      && exists v :: Chosen(p, searchOne, v) && v.views != 0 && Describes(r.value, p, v)
  {
    match SelectVideo(url, getPreview, searchOne)
    case Failure(e) => Failure(e)
    case Success(Selection(p, v)) =>
      Success(TrackInfo(
        title := p.track,
        artist := p.artist,
        url := p.link,
        id := Text.LastSegment(p.link, '/'),
        duration := v.duration,
        thumbnail := p.image))
  }

  /** `GetInfo` rejects with "Invalid URL" exactly for links `validateURL`
      refuses, and then neither the preview nor the search is consulted. */
  lemma GetInfoInvalidUrl(
    url: string,
    getPreview: string -> Reply<Option<Preview>>,
    searchOne: string -> Reply<Option<Video>>,
    otherPreview: string -> Reply<Option<Preview>>,
    otherSearch: string -> Reply<Option<Video>>)
    ensures GetInfo(url, getPreview, searchOne) == Failure(InvalidUrl) <==> !SpotifyUrl.ValidateURL(url, "track")
    ensures !SpotifyUrl.ValidateURL(url, "track") ==>
      GetInfo(url, getPreview, searchOne) == GetInfo(url, otherPreview, otherSearch)
  {
  }

  /** A missing preview, or a preview of something other than a track,
      rejects a valid link with "Track not found", whatever the search would say. */
  lemma GetInfoNeedsTrackPreview(
    url: string,
    getPreview: string -> Reply<Option<Preview>>,
    searchOne: string -> Reply<Option<Video>>)
    requires SpotifyUrl.ValidateURL(url, "track")
    requires getPreview(url) == Answered(None)
      || (getPreview(url).Answered? && getPreview(url).value.Some? && getPreview(url).value.value.kind != "track")
    ensures GetInfo(url, getPreview, searchOne) == Failure(TrackNotFound)
  {
  }

  /** When neither query finds a video, or the chosen video has no views,
      a track preview still ends in "Track not found". */
  lemma GetInfoNeedsViewedVideo(
    url: string,
    getPreview: string -> Reply<Option<Preview>>,
    searchOne: string -> Reply<Option<Video>>,
    p: Preview)
    requires SpotifyUrl.ValidateURL(url, "track")
    requires getPreview(url) == Answered(Some(p)) && p.kind == "track"
    requires
      || (searchOne(PrimaryQuery(p)) == Answered(None) && searchOne(FallbackQuery(p)) == Answered(None))
      || exists v :: Chosen(p, searchOne, v) && v.views == 0
    ensures GetInfo(url, getPreview, searchOne) == Failure(TrackNotFound)
  {
  }

  /** A failure of an outside service rejects with that service's own error. */
  lemma GetInfoPassesUpstreamErrors(
    url: string,
    getPreview: string -> Reply<Option<Preview>>,
    searchOne: string -> Reply<Option<Video>>,
    e: string)
    requires SpotifyUrl.ValidateURL(url, "track")
    requires
      || getPreview(url) == Threw(e)
      || (exists p: Preview :: getPreview(url) == Answered(Some(p)) && p.kind == "track" &&
           (|| searchOne(PrimaryQuery(p)) == Threw(e)
            || (searchOne(PrimaryQuery(p)) == Answered(None) && searchOne(FallbackQuery(p)) == Threw(e))))
    ensures GetInfo(url, getPreview, searchOne) == Failure(Upstream(e))
  {
  }

  /** The title-only query's reply can change the result only after the
      first query answered with no video: two searches that agree on the first query's reply give
      the same result whenever that reply is not "no video". */
  lemma FallbackOnlyAfterEmptyPrimary(
    url: string,
    getPreview: string -> Reply<Option<Preview>>,
    searchOne: string -> Reply<Option<Video>>,
    otherSearch: string -> Reply<Option<Video>>,
    p: Preview)
    requires getPreview(url) == Answered(Some(p))
    requires searchOne(PrimaryQuery(p)) == otherSearch(PrimaryQuery(p)) != Answered(None)
    ensures GetInfo(url, getPreview, searchOne) == GetInfo(url, getPreview, otherSearch)
  {
  }

  /** A valid track link with a track preview and a chosen video with views
      always resolves, with the record describing that preview and video. */
  lemma GetInfoSucceeds(
    url: string,
    getPreview: string -> Reply<Option<Preview>>,
    searchOne: string -> Reply<Option<Video>>,
    p: Preview,
    v: Video)
    requires SpotifyUrl.ValidateURL(url, "track")
    requires getPreview(url) == Answered(Some(p)) && p.kind == "track"
    requires Chosen(p, searchOne, v) && v.views != 0
    ensures GetInfo(url, getPreview, searchOne).Success?
    ensures Describes(GetInfo(url, getPreview, searchOne).value, p, v)
  {
  }

  /** `gbspck(url, options)`: after the shared steps, the selected video's
      url and the caller's options, uninterpreted, go to `ytdl`, whose
      stream or error is passed on. */
  function Download<O, S>(
    url: string,
    options: O,
    getPreview: string -> Reply<Option<Preview>>,
    searchOne: string -> Reply<Option<Video>>,
    ytdl: (string, O) -> Reply<S>): (r: Result<S, Error>)
    ensures r.Success? ==>
      && SpotifyUrl.ValidateURL(url, "track")
      && getPreview(url).Answered?
      && getPreview(url).value.Some?
      && var p := getPreview(url).value.value;
      && p.kind == "track"
      && exists v :: Chosen(p, searchOne, v) && v.views != 0 && ytdl(v.url, options) == Answered(r.value)
  {
    match SelectVideo(url, getPreview, searchOne)
    case Failure(e) => Failure(e)
    case Success(Selection(_, v)) =>
      match ytdl(v.url, options)
      case Answered(stream) => Success(stream)
      case Threw(e) => Failure(Upstream(e))
  }

  /** The stream path runs the same steps as `GetInfo`: it rejects with the
      same error whenever `GetInfo` does, and otherwise the outcome is the
      stream for the video `GetInfo` describes, or `ytdl`'s own error. */
  lemma DownloadAgreesWithGetInfo<O, S>(
    url: string,
    options: O,
    getPreview: string -> Reply<Option<Preview>>,
    searchOne: string -> Reply<Option<Video>>,
    ytdl: (string, O) -> Reply<S>)
    ensures GetInfo(url, getPreview, searchOne).Failure? ==>
      Download(url, options, getPreview, searchOne, ytdl) == Failure(GetInfo(url, getPreview, searchOne).error)
    ensures GetInfo(url, getPreview, searchOne).Success? ==>
      exists v :: && Describes(GetInfo(url, getPreview, searchOne).value, getPreview(url).value.value, v)
                  && Chosen(getPreview(url).value.value, searchOne, v)
                  && Download(url, options, getPreview, searchOne, ytdl) ==
                       (match ytdl(v.url, options)
                        case Answered(stream) => Success(stream)
                        case Threw(e) => Failure(Upstream(e)))
  {
  }
}
