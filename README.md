# VOD playlist add-on: M3U parsing and id lookup

A model of the decision logic of a Stremio add-on that serves a video playlist
as a catalog. On every catalog, meta or stream request the add-on fetches an
M3U playlist (the URL given in the request, or a built-in default) with a
cache-busting `t=<timestamp>` query parameter, and parses it line by line:
an `#EXTINF:<duration>,<title>` line opens a pending entry, and the next
non-blank line that does not start with `#` becomes that entry's URL. Entries
get the identifiers `vod-1`, `vod-2`, … in order. The meta handler answers
with the first entry that has the requested identifier (or `{}`), and the
stream handler answers with that entry's URL under its name (or no stream).

Modules:

- `JsString` (`js_string.dfy`): the JavaScript string operations the parser
  uses: `trim`, `split(",")`, `split(/\r?\n/)`, `startsWith`, and the
  decimal rendering of integers in template literals.
- `Playlist` (`playlist.dfy`): the entry, the pending entry, the parser
  state, the classification of a trimmed line into the loop's three
  branches, and one step of the line machine as functions; the URL builder;
  `ParseBody`, the parser loop as a method proved equal to the fold of the
  step function over the classified lines; and `FetchPlaylist`, which
  requests the URL and parses the body or answers `[]`.
- `PlaylistProperties` (`playlist_properties.dfy`): a description of the
  parser's output without a state machine (every URL line whose nearest
  preceding significant line is an `#EXTINF` line pairs with it), proved to
  agree with the machine, and the properties that follow: numbering, titles,
  URLs, bounds, and which lines are dropped.
- `Handlers` (`handlers.dfy`): the `find` lookup, the meta and stream
  answers, the two handlers, and lemmas tying what the catalog lists to what
  meta and stream find.

The HTTP request is the parameter `fetch: string -> FetchOutcome` (the
requested URL to a body or a failure) and `Date.now()` is the parameter
`now: nat`.

Behaviour of the code worth knowing:

- Every handler fetches and parses the playlist again (index.js:78, 85, 93).
  `CatalogEntryStreamable` states the consequence: an entry the catalog
  lists is found by a later meta or stream call when the server answers the
  later request with the same body.
- The title is the text between the first and the second comma after
  `#EXTINF:`, or up to the end of the line when there is no second comma
  (`TitleFieldBetweenCommas`).
- A field that is absent or empty gives `Video <k>`, but a field of only
  whitespace (possible when a second comma follows it) is truthy in
  JavaScript and is trimmed to an empty name (`BlankTitleFieldGivesEmptyName`).

## Model

| member | source | states |
|---|---|---|
| JsString.TrimSpec | index.js:49 | `trim` yields the infix of the line after its leading whitespace with only whitespace after it, which neither starts nor ends with whitespace and is empty exactly when the line is all whitespace |
| JsString.TrimIdempotent | index.js:49 | trimming an already trimmed line changes nothing |
| JsString.SplitJoin | index.js:51 | no piece of `split(",")` holds a comma, and joining the pieces with commas gives the input back |
| JsString.SplitAtFirst | index.js:51 | the first piece of a split is the text before the first comma, and the other pieces are the split of the text after it (none when there is no comma) |
| JsString.SplitLines | index.js:44 | `split(/\r?\n/)` yields at least one line and no line contains LF |
| JsString.SplitLinesAsLfSplit | index.js:44 | splitting on `\r?\n` equals removing the CR of every CRLF and then splitting on LF |
| JsString.SplitLinesWithoutLf | index.js:44 | a body without LF is a single line |
| JsString.NatToString | index.js:53-54 | a number renders as digits only, with no leading zero, and zero renders as `0` |
| JsString.DecimalRoundTrip | index.js:53-54 | reading the rendered counter back as a decimal gives the counter |
| JsString.NatToStringInjective | index.js:53 | distinct counters render differently |
| Playlist.NoCacheUrl | index.js:42 | the requested URL starts with the given URL (the default one when none or an empty one is given), then `&` exactly when that base contains `?` and `?` otherwise, then `t=` and the timestamp |
| Playlist.Classify | index.js:49-60 | the branch a line takes after `trim`: it is an `#EXTINF` line exactly when the trimmed line starts with `#EXTINF:`; a URL line is the trimmed line, is non-empty, is unchanged by `trim` and does not start with `#` |
| Playlist.ParseBody | index.js:44-69 | the loop over the trimmed lines with `metas`, `currentMeta` and `idCounter` returns the fold of the step function over the classified lines of the body |
| Playlist.FetchPlaylist | index.js:39-73 | `fetchPlaylist` requests the cache-busting URL and returns the parsed body, or `[]` when the request fails |
| PlaylistProperties.LastSignificant | index.js:48-60 | the last line before a position that the loop does not ignore, with only ignored lines after it, or none when all are ignored |
| PlaylistProperties.Pairings | index.js:48-68 | the pairings of `#EXTINF` lines with the URL lines that close them are in source order, each has only blank or comment lines between its two lines, and each ends before the next begins |
| PlaylistProperties.PairingsComplete | index.js:48-68 | every `#EXTINF` line followed, with only blank or comment lines between, by a URL line is one of the pairings |
| PlaylistProperties.RunMatchesPairings | index.js:45-68 | after any number of lines the parser holds one entry per pairing, the k-th built from the k-th pairing with id `vod-k`, the counter is one past the last entry, and an entry is pending exactly when the last significant line is an `#EXTINF` line |
| PlaylistProperties.ParseMatchesPairings | index.js:44-69 | the entries parsed from a body are exactly those built from the pairings of its lines, in order |
| PlaylistProperties.ParsedEntries | index.js:47-65 | the k-th entry has id `vod-k`, its description equals its name, and its URL is a non-empty trimmed line that does not start with `#` |
| PlaylistProperties.IdOfInjective | index.js:53 | distinct counters give distinct ids |
| PlaylistProperties.ParsedIdsDistinct | index.js:47-64 | no two parsed entries share an id |
| PlaylistProperties.RunBounds | index.js:50-66 | entries plus the pending one never outnumber the `#EXTINF` lines, and entries never outnumber the URL lines |
| PlaylistProperties.ParseBounds | index.js:44-69 | a body yields at most as many entries as it has `#EXTINF` lines and at most as many as it has URL lines, so a body of bare URLs yields none |
| PlaylistProperties.SingleLineYieldsNothing | index.js:44-69 | a one-line body (a lone URL or a lone `#EXTINF`) yields no entry |
| PlaylistProperties.IgnoredLines | index.js:49-60 | a line is ignored exactly when it trims to nothing or starts with `#` but not `#EXTINF:`; a line of only whitespace is always ignored |
| PlaylistProperties.LowerCaseExtInfIgnored | index.js:50 | the `#EXTINF:` test is case-sensitive: `#extinf:-1,Clip` is ignored |
| PlaylistProperties.IgnoredLineKeepsState | index.js:49-60 | a blank line or a `#` line other than `#EXTINF:` leaves the parser state unchanged |
| PlaylistProperties.ExtInfOnlyReplacesPending | index.js:50-59 | an `#EXTINF` line emits nothing and consumes no id, and a second one before any URL line replaces the pending entry |
| PlaylistProperties.UrlClosesPending | index.js:60-66 | a URL line appends the pending entry with the trimmed line as its URL and advances the counter when one is pending, changes neither otherwise, and leaves nothing pending |
| PlaylistProperties.IgnoredSuffixKeepsState | index.js:48-68 | a run of blank and comment lines leaves the parser state unchanged |
| PlaylistProperties.UnterminatedExtInfDropped | index.js:48-69 | an `#EXTINF` line followed only by blank and comment lines is never emitted: the entries are those parsed before it |
| PlaylistProperties.TitleFieldBetweenCommas | index.js:51 | the title field is the text between the first and the second comma after `#EXTINF:` (or the end of the line), and is absent when there is no comma |
| PlaylistProperties.TitleRule | index.js:54-58 | an absent or empty field gives `Video <k>`, any other field is trimmed, and the title is empty exactly when the field is non-empty whitespace |
| PlaylistProperties.BlankTitleFieldGivesEmptyName | index.js:54 | the line `#EXTINF:0, ,x` gives an empty name, not `Video 1` |
| Handlers.FindIndex | index.js:86 | `find` stops at an entry with the id and no earlier entry has it; it finds nothing exactly when no entry has the id |
| Handlers.MetaFor | index.js:86-87 | the meta answer is the first entry of the list with the requested id, as `find` returns it, and `{}` exactly when no entry has it |
| Handlers.StreamsFor | index.js:94-98 | the stream answer has at most one stream, has one exactly when the found entry exists and has a URL, and that stream carries the entry's URL and name |
| Handlers.MetaHandler | index.js:83-88 | the meta handler answers the lookup of the id in the freshly fetched playlist |
| Handlers.StreamHandler | index.js:91-99 | the stream handler answers the stream lookup of the id in the freshly fetched playlist |
| Handlers.ParsedEntryFound | index.js:86-98 | looking up `vod-k` in a parsed body gives back its k-th entry, and the stream of its URL under its name |
| Handlers.UnknownIdFindsNothing | index.js:86-98 | an id other than `vod-1` … `vod-N` gives `{}` and no stream |
| Handlers.FailedFetchFindsNothing | index.js:70-71 | a failed request gives an empty list, so meta gives `{}` and stream gives no stream |
| Handlers.CatalogEntryStreamable | index.js:76-99 | when the later request is answered with the same body, each listed entry is found by its id by meta and stream |
| Handlers.CacheBusting | index.js:42 | requests at different times ask for different URLs |

## Left out

- The HTTP request (axios) and the clock (`Date.now()`): they are the
  parameters `fetch` and `now`. A failed request, a non-2xx status and a
  body that is not a string (so that `split` throws) are all `Failed`.
- The Stremio SDK wiring (`addonBuilder`, handler registration,
  `serveHTTP`): a library whose code is not part of this model.
- The catalog handler (index.js:76-80): it returns `fetchPlaylist`'s result
  unchanged, which is `FetchPlaylist`; its own test of `extra.playlist` for
  truthiness selects the same URL as the one in `BaseUrl`.
- The Express routes and HTML configuration pages (index.js:102-156), and
  the `/update-playlist` handler, which discards its input.
- The manifest object (index.js:9-32) and the constant entry fields `type`,
  `poster` and `background`: data without logic.
- netlify/functions/configure.js, manifest.js and update-playlist.js: they
  return constant HTML or JSON or a redirect.
- Concurrency between overlapping requests: the handlers share no state.
- Strings are sequences of Unicode scalar values rather than UTF-16 code
  units; this changes nothing for the ASCII prefix `#EXTINF:`, the comma,
  CR and LF, or the whitespace `trim` removes.
- A request parameter `playlist` that is not a string is not modelled: the
  URL is an optional string.
