# gbspck-core: link validation and track resolution

A Dafny model of the pure core of `gbspck-core` (`lib/index.js`). The library
turns a Spotify track link into a YouTube audio stream. This project models
and proves its two decision parts:

- **Link recognition.** `GBSPCKCore.parse` cuts a link at its first `?`.
  `GBSPCKCore.validateURL` tests the rest, case-insensitively, against
  `^https?://(open|play).spotify.com/<kind>/[\w\d]+$` for the kinds `track`,
  `album` and `playlist`, and refuses every other kind.
- **Track resolution.** `GBSPCKCore.getInfo` and the default export `gbspck`
  run the same steps. They validate the link and fetch the Spotify preview,
  which must be a track. They search YouTube for `"{track} {artist}"`, then
  for `"{track}"`. The title-only reply can change the result only after an
  empty first search. A video with zero views is
  refused. `getInfo` then builds a `trackInfo` record. `gbspck` passes the
  video's url and the caller's options to `ytdl`.

Modules:

- `Wrappers` (`wrappers.dfy`): `Option` and `Result`.
- `Text` (`text.dfy`): JavaScript's one-character `split`, its inverse
  `join`, the last path segment, and ASCII lower-casing.
- `SpotifyUrl` (`spotify_url.dfy`): `Parse`, `ValidateURL` and a
  hand-written matcher (`Matches`) for the pattern. `InPattern` describes the
  pattern's language declaratively, and `MatchesIffInPattern` proves that the
  matcher accepts exactly that language.
- `Resolver` (`resolver.dfy`): the preview, search-hit and `trackInfo`
  records. It defines the shared selection steps (`SelectVideo`), `GetInfo`
  and `Download` (the default export `gbspck`).
- `Example` (`example.dfy`): the link
  `https://open.spotify.com/track/abc123?si=xyz`, resolved end to end against
  stub services.

The outside services are parameters that are functions:

- `getPreview` stands for `spotifyApi.getPreview`.
- `searchOne` stands for `Youtube.searchOne`.
- `ytdl` stands for the stream opener.

Each returns a `Reply`: either an answer or the error it threw. A thrown
error reaches the caller unchanged as `Upstream(reason)`.

The regular expressions use the flag `i` without `u`. Under that flag, case
folding never maps a non-ASCII character to an ASCII one, and `[\w\d]` is
`[A-Za-z0-9_]`. So the model lower-cases ASCII letters only and matches
lower-case literals. This gives the same answer as the source.

The preview is fetched for the link exactly as given, query string
included. It is not fetched for the stripped link (`lib/index.js:28`,
`lib/index.js:53`). So `getPreview` receives `url` unchanged.

## Model

| member | source | states |
|---|---|---|
| Text.Split | lib/index.js:98 | `split` with a one-character separator: at least one piece and no piece holds the separator. The first piece is the prefix before the first separator. A string without the separator is its own single piece. |
| Text.JoinSplit | lib/index.js:98 | Joining the pieces of `split` with the separator gives back the original string, so no character is lost or added. |
| Text.SplitJoin | lib/index.js:62 | Splitting a join of separator-free pieces gives those pieces back. |
| Text.LastSegment | lib/index.js:62 | `split('/')[length - 1]` is a suffix of the link that contains no `/`. It is either the whole link or comes right after a `/`. |
| Text.Lower | lib/index.js:78 | ASCII lower-casing, as used for the `i` flag: the length is kept and each upper-case ASCII letter becomes its lower-case partner. No upper-case ASCII letter remains, and every other character is unchanged. |
| Text.LowerIdempotent | lib/index.js:78 | Lower-casing an already lower-cased string changes nothing. |
| Text.LastSegmentUnique | lib/index.js:62 | Only one suffix has those properties, so the id is determined by the link. |
| SpotifyUrl.Parse | lib/index.js:97-99 | `parse` returns the prefix of the url before its first `?`, or the whole url when it has none. The result contains no `?`. |
| SpotifyUrl.ParseIdempotent | lib/index.js:97-99 | Parsing an already parsed url changes nothing. |
| SpotifyUrl.ParseIgnoresQuery | lib/index.js:97-99 | `parse(u + "?" + q) == parse(u)` for every `u` and `q`. |
| SpotifyUrl.ValidateURL | lib/index.js:75-85 | A url is only ever valid for `track`, `album` or `playlist`. Any other type returns false. |
| SpotifyUrl.ValidateIgnoresQuery | lib/index.js:75-85 | `validateURL(u + "?" + q, t) == validateURL(u, t)` for every `u`, `q` and `t`. |
| SpotifyUrl.MatchesIffInPattern | lib/index.js:78 | The hand-written matcher accepts a lower-cased string exactly when it is `http(s)://`, then `open.` or `play.`, then `spotify.com/<kind>/`, then a non-empty `[A-Za-z0-9_]` id and nothing more. |
| SpotifyUrl.ValidateIffInPattern | lib/index.js:77-82 | `validateURL(u, t)` holds if and only if `t` is one of the three kinds and the lower-cased `parse(u)` has that exact shape. Both directions are proved. |
| SpotifyUrl.KindsExclusive | lib/index.js:77-82 | No url is valid for two different kinds. |
| SpotifyUrl.ValidateIgnoresCase | lib/index.js:78 | Lower-casing the url never changes the verdict, as the `i` flag promises. |
| Resolver.SearchReadsTwoQueries | lib/index.js:55-56 | The outcome of the search depends on the search service only through its replies to `"{track} {artist}"` and `"{track}"`. |
| Resolver.SearchFindsChosen | lib/index.js:55-56 | The search settles on video `v` exactly when `v` is the first query's hit, or the title-only query's hit after the first query found nothing. |
| Resolver.SelectVideo | lib/index.js:27-32 | It rejects with "Invalid URL" exactly for urls `validateURL` refuses. A selection is made only for a track preview fetched for the url and a video chosen by the search with fallback whose views are not 0. |
| Resolver.GetInfo | lib/index.js:50-67 | A resolved record comes only from a valid link, a track preview and a chosen video with views. It carries the preview's title, artist, link and image and the video's duration. Its id is the link's last `/`-segment, which contains no `/`. |
| Resolver.GetInfoInvalidUrl | lib/index.js:52 | The result is "Invalid URL" if and only if `validateURL` fails. In that case the result does not depend on the preview or search services. |
| Resolver.GetInfoNeedsTrackPreview | lib/index.js:53-54 | A missing preview, or one whose type is not `track`, gives "Track not found". |
| Resolver.GetInfoNeedsViewedVideo | lib/index.js:55-57 | No video from either query, or a chosen video with 0 views, gives "Track not found". |
| Resolver.GetInfoPassesUpstreamErrors | lib/index.js:53-56 | An error thrown by the preview fetch or by a search that was made is the result, unchanged. |
| Resolver.FallbackOnlyAfterEmptyPrimary | lib/index.js:55-56 | Two search services that give the same reply to the first query give the same result, as long as that reply is not "no video". So the title-only query's reply can change the result only after an empty first search. |
| Resolver.GetInfoSucceeds | lib/index.js:57-65 | A valid link, a track preview and a chosen video with views always resolve, to the record describing that preview and video. |
| Resolver.Download | lib/index.js:24-38 | A stream is returned only if it is what `ytdl` answered for the url of a chosen, viewed video matching a track preview of a valid link. |
| Resolver.DownloadAgreesWithGetInfo | lib/index.js:27-33 | `gbspck` rejects with `getInfo`'s error whenever `getInfo` rejects. Otherwise its outcome is `ytdl`'s answer or error for the video `getInfo` describes. |
| Example.ValidWithAnyQuery | lib/index.js:75-99 | A lower-case, query-free link in the track pattern is valid with any query string appended. |
| Example.SharedLinkIsValid | lib/index.js:75-78 | `https://open.spotify.com/track/abc123?<anything>` is a valid track link. |
| Example.ResolveSharedLink | lib/index.js:50-65 | The sample link, with stub services, resolves to `{title: "X", artist: "Y", url: link, id: "abc123", duration: 200000, thumbnail: "img.png"}`. |

## Left out

- `GBSPCKCore.updater` (`lib/index.js:106-124`) and its call at load time are left out. They are an HTTP request, an environment variable and console warnings, with no result a caller sees.
- The throwing constructor (`lib/index.js:41-43`) and the export wiring (`lib/index.js:127-134`) are not behaviour.
- `spotifyApi.getPreview`, `Youtube.searchOne` and `ytdl` are foreign libraries. They appear only as parameters, and the returned stream is an opaque value.
- Promise plumbing is not modelled. In `getInfo`, when the first search rejects, `.catch` still lets the fallback search be sent. The promise has already settled with the first error, so the result is the same as in `gbspck` and the model does not send that extra request.
- JavaScript type coercion is not modelled. The model's url, type and record fields are always strings. In `getInfo` a non-string url (line 52), or a preview without a `link` (line 62), throws inside the async promise executor, which has no `try`, so the returned promise never settles. In `gbspck` the same throw from a non-string url happens inside the `try` at lines 26-36, so that promise rejects with the `TypeError`.
- Search hits: `views` and `duration` are modelled as integers. A hit with no `views` field passes the source's `=== 0` test and would be accepted, a case the integer model cannot express.
- Strings are sequences of Unicode scalar values, not UTF-16 code units. Only ASCII characters take part in matching, so this does not change any verdict.
- `validateURL`'s default type `'track'` is passed explicitly. The library's callers use that default.
- `gbspck`'s default `options = {}` (`lib/index.js:24`) is not modelled. The options are a type parameter of `Download`, and the caller always supplies them.
