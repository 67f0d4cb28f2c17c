/** `fetchPlaylist` of index.js: build a cache-busting URL, fetch it, and turn
    the M3U text into catalog entries with a two-state line machine (no entry
    pending, or an `#EXTINF` entry waiting for its URL line).

    The HTTP fetch and the clock are parameters: `fetch` maps the requested
    URL to what the request produced, and `now` is the `Date.now()` value. */
module Playlist {
  import opened Wrappers
  import opened JsString

  /** The playlist used when the request names none (index.js:6). */
  const DefaultPlaylistUrl: string := "https://app.rcsfacility.com/1.m3u"

  const ExtInfPrefix: string := "#EXTINF:"

  /** Prefix of every catalog identifier (index.js:24, 53). */
  const IdPrefix: string := "vod-"

  /** One catalog entry as the handlers see it. The constant fields `type`,
      `poster` and `background` are not modelled. */
  datatype Meta = Meta(id: string, name: string, description: string, url: string)

  /** `currentMeta`: `{}` (Idle) or an entry still waiting for its URL. */
  datatype Pending = Idle | Awaiting(id: string, name: string, description: string)

  /** What the HTTP request yields: a text body, or `Failed` when axios
      throws (transport error, non-2xx status) or the body is not a string,
      so that `split` throws. */
  datatype FetchOutcome = Body(text: string) | Failed

  /** The loop variables of the parser: `metas`, `currentMeta`, `idCounter`. */
  datatype ParserState = ParserState(metas: seq<Meta>, current: Pending, idCounter: nat)

  const Start: ParserState := ParserState([], Idle, 1)

  /** A trimmed line as the loop's branches see it: an `#EXTINF:` line with
      its title field, a URL line, or a line the loop ignores. */
  datatype Line = Info(field: Option<string>) | Url(url: string) | Ignored

  function IdOf(k: nat): string {
    IdPrefix + NatToString(k)
  }

  function Placeholder(k: nat): string {
    "Video " + NatToString(k)
  }

  /** `info[1]` for `info = line.substring(8).split(",")`: the second
      comma-separated field after the prefix, `None` when there is none. */
  function TitleField(line: string): Option<string>
    requires StartsWith(line, ExtInfPrefix)
  {
    var info := Split(line[|ExtInfPrefix|..], ',');
    if |info| > 1 then Some(info[1]) else None
  }

  /** The branch the loop takes on a raw line: it is trimmed, the
      case-sensitive `#EXTINF:` test comes first, and every other line that
      is empty or starts with `#` is ignored. A URL line is non-empty,
      trimmed and does not start with `#`. */
  function Classify(raw: string): (l: Line)
    ensures l.Info? <==> StartsWith(Trim(raw), ExtInfPrefix)
    ensures l.Url? ==> l.url == Trim(raw)
    ensures l.Url? ==> l.url != "" && Trim(l.url) == l.url && !StartsWith(l.url, "#")
  {
    var line := Trim(raw);
    TrimIdempotent(raw);
    if StartsWith(line, ExtInfPrefix) then Info(TitleField(line))
    else if line != "" && !StartsWith(line, "#") then Url(line)
    else Ignored
  }

  /** `info[1] ? info[1].trim() : \`Video ${k}\``: a missing or empty field
      falls back to the placeholder; any other field is trimmed. */
  function TitleFor(field: Option<string>, k: nat): string {
    if field.Some? && field.value != "" then Trim(field.value) else Placeholder(k)
  }

  /** One iteration of the parser loop. */
  function Step(st: ParserState, line: Line): ParserState {
    match line
    case Info(field) =>
      var name := TitleFor(field, st.idCounter);
      st.(current := Awaiting(IdOf(st.idCounter), name, name))
    case Url(url) =>
      if st.current.Awaiting? then
        ParserState(st.metas + [Meta(st.current.id, st.current.name, st.current.description, url)],
                    Idle, st.idCounter + 1)
      else st
    case Ignored => st
  }

  /** The parser state after the first `n` classified lines. */
  function Run(lines: seq<Line>, n: nat): ParserState
    requires n <= |lines|
  {
    if n == 0 then Start else Step(Run(lines, n - 1), lines[n - 1])
  }

  function ClassifyAll(raws: seq<string>): (lines: seq<Line>)
    ensures |lines| == |raws|
    ensures forall i | 0 <= i < |raws| :: lines[i] == Classify(raws[i])
  {
    if raws == [] then [] else [Classify(raws[0])] + ClassifyAll(raws[1..])
  }

  /** The classified lines of a response body. */
  function LinesOf(text: string): seq<Line> {
    ClassifyAll(SplitLines(text))
  }

  /** The entries parsed from a response body. */
  function Parse(text: string): seq<Meta> {
    var lines := LinesOf(text);
    Run(lines, |lines|).metas
  }

  /** `playlistUrl || VOD_PLAYLIST_URL`: an absent or empty URL selects the
      default playlist. */
  function BaseUrl(playlistUrl: Option<string>): string {
    if playlistUrl.Some? && playlistUrl.value != "" then playlistUrl.value else DefaultPlaylistUrl
  }

  /** The URL actually requested (index.js:42): the base URL, then `&` if the
      base already has a `?` and `?` otherwise, then `t=` and the timestamp. */
  function NoCacheUrl(playlistUrl: Option<string>, now: nat): (r: string)
    ensures var base := BaseUrl(playlistUrl);
      && |r| == |base| + 3 + |NatToString(now)|
      && r[..|base|] == base
      && (r[|base|] == '&' <==> '?' in base)
      && (r[|base|] == '?' <==> '?' !in base)
      && r[|base| + 1..] == "t=" + NatToString(now)
  {
    var base := BaseUrl(playlistUrl);
    base + (if '?' in base then "&" else "?") + "t=" + NatToString(now)
  }

  /** What `fetchPlaylist` resolves to: the parsed entries, or `[]` when the
      request fails (index.js:70-71). */
  function FetchedPlaylist(playlistUrl: Option<string>, now: nat, fetch: string -> FetchOutcome): seq<Meta> {
    match fetch(NoCacheUrl(playlistUrl, now))
    case Body(text) => Parse(text)
    case Failed => []
  }

  /** Which branch of the loop a raw line takes, with the title computed as
      the loop computes it. */
  lemma ClassifyBranches(raw: string)
    ensures var line := Trim(raw);
      if StartsWith(line, ExtInfPrefix) then
        var info := Split(line[8..], ',');
        && Classify(raw) == Info(TitleField(line))
        && forall k: nat :: TitleFor(TitleField(line), k) ==
             if |info| > 1 && info[1] != "" then Trim(info[1]) else Placeholder(k)
      else if line != "" && !StartsWith(line, "#") then Classify(raw) == Url(line)
      else Classify(raw) == Ignored
  {
  }

  /** The parser loop of `fetchPlaylist` (index.js:44-69) over a response
      body. */
  method ParseBody(text: string) returns (metas: seq<Meta>)
    ensures metas == Parse(text)
  {
    var lines := SplitLines(text);
    ghost var classified := ClassifyAll(lines);
    metas := [];
    var currentMeta := Idle;
    var idCounter := 1;
    var i := 0;
    while i < |lines|
      invariant i <= |lines| == |classified|
      invariant ParserState(metas, currentMeta, idCounter) == Run(classified, i)
    {
      var line := Trim(lines[i]);
      ClassifyBranches(lines[i]);
      assert classified[i] == Classify(lines[i]);
      if StartsWith(line, ExtInfPrefix) {
        var info := Split(line[8..], ',');
        var name := if |info| > 1 && info[1] != "" then Trim(info[1]) else Placeholder(idCounter);
        currentMeta := Awaiting(IdOf(idCounter), name, name);
      } else if line != "" && !StartsWith(line, "#") {
        // `if (currentMeta.id)`: the id of a pending entry is never empty
        if currentMeta.Awaiting? {
          metas := metas + [Meta(currentMeta.id, currentMeta.name, currentMeta.description, line)];
          idCounter := idCounter + 1;
          currentMeta := Idle;
        }
      }
      i := i + 1;
    }
    assert classified == LinesOf(text);
  }

  /** `fetchPlaylist`: request the cache-busting URL and parse the body, or
      resolve to `[]` when the request fails. */
  method FetchPlaylist(playlistUrl: Option<string>, now: nat, fetch: string -> FetchOutcome)
    returns (metas: seq<Meta>)
    ensures metas == FetchedPlaylist(playlistUrl, now, fetch)
  {
    var res := fetch(NoCacheUrl(playlistUrl, now));
    if res.Failed? {
      return [];
    }
    metas := ParseBody(res.text);
  }

}
