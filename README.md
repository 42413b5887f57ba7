# Spotify CLI core, modelled in Dafny

`spotfy.py` is a small command-line client for the Spotify Web API. Most of it
only wraps HTTP requests. This project models the four parts whose behaviour
does not depend on the network, and proves properties about them:

- **`UrlParser`** models `SpotifyAPI.extract_id_from_url`. It finds the leftmost
  place where a catalog URL matches: "https://open.spotify.com/", then a
  non-empty run of lower-case letters (the type), then `/`, then a non-empty
  run of letters, digits, `?`, `=` and `&`. The id is that second run cut at
  its first `?`. The result is `Some((id, type))`, or `None` when nothing
  matches. The regular-expression search is written as an explicit scan over
  maximal runs. Backtracking cannot change either run: `/` is not a
  lower-case letter, and nothing in the pattern follows the second group. The
  matcher takes the literal prefix as a parameter, and `ExtractIdFromUrl`
  instantiates it with the real one.
- **`Pagination`** models the `while url:` loops of `get_album_tracks` and
  `get_playlist_tracks`. HTTP is a page source: a map from locator to
  `Failed` or to a page whose "items" and "next" may each be missing.
  `FetchAllPages` is a method with a loop that grows `tracks` page by page.
  It is proved against `Fetched`. That specification says the loop requests
  exactly the chain of "next" locators from the start URL. It returns the
  in-order concatenation of the pages' items, or `[]` if the last request
  failed. Lemmas about `Collected` state what the concatenation holds.
- **`Display`** models three pieces of the interactive script:
  - the `m:ss` duration arithmetic and its text;
  - the top-10 album and playlist listings, with their "... and n more" count;
  - the filter that keeps the playlist items that carry a track.
- **`Wrappers`** holds `Option`, used for Python's `None`, missing keys and
  falsy values.

Python's `//` and `%` by a positive divisor floor, and so agree with Dafny's
Euclidean `/` and `%` for every integer, negative durations included. So the
duration arithmetic carries over unchanged.

A failed page request discards the items already gathered: the
`except RequestException` returns `[]` (spotfy.py:113-115, 133-135). The model
follows the code, and `FailureOnSecondPage` states the consequence.

## Model

| member | source | states |
|---|---|---|
| UrlParser.RunLength | spotfy.py:39 | Each character class of the pattern is consumed as a maximal run: every character in the run is in the class, and the run stops at the end of the text or at a character outside it. |
| UrlParser.MatchAt | spotfy.py:39-43 | A match at a position gives a non-empty type of lower-case letters and a non-empty raw id of identifier characters. |
| UrlParser.MatchAtText | spotfy.py:39-43 | A match at position i is the text prefix + type + "/" + raw starting at i, and the raw id is followed by the end of the input or by a character outside its class. |
| UrlParser.MatchAtIffMatches | spotfy.py:39-41 | The scan finds a match at a position exactly when the prefix is there and is followed by one or more lower-case letters, a `/` and an identifier character. |
| UrlParser.Search | spotfy.py:40 | A found match has a non-empty lower-case type and a non-empty raw id of identifier characters. SearchIsLeftmost states which match it is. |
| UrlParser.SearchIsLeftmost | spotfy.py:40 | The search fails exactly when no position from i on matches. When it succeeds, it returns the match at the leftmost matching position. |
| UrlParser.BeforeQuery | spotfy.py:45 | The id is a prefix of the raw group and holds no `?`. It is the whole group, or it stops right at the group's first `?`. |
| UrlParser.ExtractIdFromUrl | spotfy.py:35-47 | On success the type is non-empty and lower-case and the id holds no `?`. ExtractNoneIffNoMatch, ExtractFromLeftmostMatch and ExtractRoundTrip specify the result in full. |
| UrlParser.ExtractNoneIffNoMatch | spotfy.py:39-47 | The parser returns None exactly when the pattern matches at no position of the input. |
| UrlParser.ExtractFromLeftmostMatch | spotfy.py:39-46 | On success the type is non-empty and lower-case. The id holds only letters, digits, `=` and `&`. Both come from the leftmost match, with the id being its second group cut at the first `?`. |
| UrlParser.ExtractRoundTrip | spotfy.py:35-46 | Parsing prefix + type + "/" + id + rest gives (id, type) for a non-empty lower-case type and an id without `?`, when rest is empty, starts with `?`, or starts with a character outside the id class. The id may be empty only when rest starts with `?`. |
| UrlParser.QueryDoesNotChangeResult | spotfy.py:44-46 | For a non-empty lower-case type and a non-empty id without `?`, appending a query string "?..." after the id leaves the result (id, type) unchanged. |
| UrlParser.EmptyIdBeforeQuery | spotfy.py:39-46 | A second segment that starts with `?`, as in ".../track/?si=x", still matches and gives an empty id, not None. |
| Pagination.EndsOnlyAtLast | spotfy.py:106-111 | Within a request chain, only the last request is a failure or a page without a continuing "next". |
| Pagination.ChainUnique | spotfy.py:106-111 | A start URL has at most one request chain, so the sequence of requests the loop makes is determined by the page source. |
| Pagination.CollectedAppend | spotfy.py:110 | Requesting one more page extends the accumulated items by exactly that page's items, at the end. |
| Pagination.CollectedConcat | spotfy.py:104-111 | The items of two consecutive runs of requests are the first run's items followed by the second's. |
| Pagination.CollectedMembers | spotfy.py:110 | An item is in the accumulated list exactly when some requested page holds it. |
| Pagination.CollectedLength | spotfy.py:110 | The accumulated list is as long as the requested pages' item counts added up. A page without "items" counts zero. |
| Pagination.DuplicatesKept | spotfy.py:110 | An item on two different requested pages appears at least twice in the accumulated list, which is the result when no request failed. |
| Pagination.SinglePage | spotfy.py:106-112 | When the first page succeeds and has no "next", the only request chain is that one request, and the result is that page's items. |
| Pagination.FailureOnSecondPage | spotfy.py:105-115 | When the first page links to a second page that fails, the outcome is exactly two requests and the result []. The first page's items are discarded. |
| Pagination.FetchAllPages | spotfy.py:104-115 | The loop requests exactly the chain of "next" locators from the start URL and stops after the first page without one or after the first failure. It returns the in-order concatenation of the pages' items, or [] when the last request failed. An empty start URL makes no request. |
| Pagination.GetAlbumTracks | spotfy.py:98-115 | Without a token the result is [] and no request is made. With a token, the first request is the album's tracks endpoint and the result is as FetchAllPages states. |
| Pagination.GetPlaylistTracks | spotfy.py:117-135 | Without a token the result is [] and no request is made. With a token, the first request is the playlist's tracks endpoint and the result is as FetchAllPages states. |
| Display.DurationParts | spotfy.py:157 | The seconds part is in 0..59, and minutes * 60 + seconds equals the whole seconds of the duration. |
| Display.DurationPartsUnique | spotfy.py:157 | No other minutes/seconds split with seconds below 60 gives the same whole seconds. |
| Display.NatText | spotfy.py:272 | The listing number's text is decimal digits with no leading zero, and it starts with `0` exactly when the number is 0. |
| Display.NatTextRoundTrip | spotfy.py:272 | The decimal text of a listing number reads back as that number. |
| Display.NatTextUnique | spotfy.py:272 | Decimal digits without a leading zero (other than "0" itself) are the text of their value. So the number text is exactly Python's `str` of the number. |
| Display.IntText | spotfy.py:271 | The minutes' text is canonical integer text, and it starts with `-` exactly when the minutes are negative. |
| Display.IntTextRoundTrip | spotfy.py:271 | The decimal text of the minutes, negative ones included, reads back as the minutes. |
| Display.IntTextUnique | spotfy.py:271 | Canonical integer text, meaning canonical digits with a `-` before a non-zero value, is the text of its value. So the minutes text is exactly Python's `str` of the minutes. |
| Display.Pad2 | spotfy.py:271 | The zero-padded seconds are exactly two characters. Pad2ReadsBack shows they are the digits of the seconds. |
| Display.Pad2ReadsBack | spotfy.py:271 | The two-digit zero-padded seconds are two digits that read back as the seconds. |
| Display.DurationText | spotfy.py:157 | The duration text ends in a colon and two characters, with at least one character before the colon. DurationTextReadsBack and DurationTextUnique specify it in full. |
| Display.DurationTextReadsBack | spotfy.py:271 | The duration text is the minutes in canonical decimal, a colon and two digits. Read back, the seconds are below 60 and minutes * 60 + seconds is the whole seconds of the duration. |
| Display.DurationTextUnique | spotfy.py:292 | Any text of that shape whose minutes and seconds give the whole seconds of the duration is the duration text. So the text is the only one the format allows. |
| Display.MoreCount | spotfy.py:273-274 | The "more" note appears exactly when there are more than 10 entries. The shown entries plus the count in the note make up all entries. |
| Display.ListAlbumTracks | spotfy.py:270-274 | Line k shows track k, numbered k + 1, for the first min(n, 10) tracks. The more-note appears exactly when n > 10, with the count n - 10. |
| Display.LeadArtist | spotfy.py:291 | The artist shown is the track's first artist, or "Unknown" when the track has no artists. |
| Display.ListPlaylistTracks | spotfy.py:288-295 | Each line shows an item among the first 10 that carries a track, under its playlist position. Line numbers strictly increase. Every such item gets a line. The more-note is as for albums. |
| Display.PlaylistTracks | spotfy.py:299 | The filtered list is never longer than the playlist. A track is in it exactly when some playlist item carries it. |
| Display.PlaylistTracksConcat | spotfy.py:299 | Filtering keeps the original order: filtering a concatenation gives the concatenation of the filtered parts. |
| Display.PlaylistTracksKeepsAll | spotfy.py:299 | The filter drops nothing exactly when every item carries a track, and then it returns those tracks position by position. |

## Left out

- `authenticate`: an HTTP POST with base64-encoded credentials. This is I/O and a foreign library.
- `search_track`, `get_track_by_id`, `get_album` and `get_track_features`: each is a single request wrapped in an authentication check, with no logic to model.
- `display_track_info`, `display_album_info` and `save_tracks_to_file`: console and file output. Only their duration arithmetic is modelled, in `Display`.
- The `:.2f` audio-feature output: floating-point formatting.
- The interactive `__main__` loop: `input()` and `print` plumbing and its catch-all exception handlers. The listings are modelled as the lines they would show (`Listed`: the number and the track). The printed line text around those parts is not modelled; its number and duration are `NatText` and `DurationText`, and its artist is `LeadArtist`.
- HTTP status codes, JSON parsing and network timeouts all collapse into the page source's `Failed` outcome. A locator the page source does not hold is also `Failed`.
- A JSON `null` under "items" makes `extend` raise a `TypeError` that the loop does not catch. The model's items are present or missing, never null.
- Pagination.FetchAllPages: requires that the "next" chain from the start URL ends (`Finite`). On a cyclic chain the source never terminates, and that case is not modelled.
- Pagination.GetAlbumTracks: requires, when a token is present, that the album's "next" chain ends, for the same reason.
- Pagination.GetPlaylistTracks: requires, when a token is present, that the playlist's "next" chain ends, for the same reason.
- A track's artists are modelled as their names. A track object missing "name", "artists" or "duration_ms" raises `KeyError` in the source. This is not modelled.
- Every falsy "track" value (missing, null, empty object) is modelled as `None`.
- The printing of the error messages and of "Retrieved n tracks" is output only and is not modelled.
