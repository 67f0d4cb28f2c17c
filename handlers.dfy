/** The meta and stream handlers of index.js (lines 83-99). Each one calls
    `fetchPlaylist` again and looks the requested identifier up in the fresh
    list with `metas.find(m => m.id === id)`. */
module Handlers {
  import opened Wrappers
  import opened JsString
  import opened Playlist
  import opened PlaylistProperties

  /** A stream object `{ url, title }` of the stream handler's answer. */
  datatype Stream = Stream(url: string, title: string)

  /** Position of the first entry with identifier `id`: what `find` stops at. */
  function FindIndex(metas: seq<Meta>, id: string): (r: Option<nat>)
    ensures r.Some? ==> r.value < |metas| && metas[r.value].id == id
    ensures r.Some? ==> forall j | 0 <= j < r.value :: metas[j].id != id
    ensures r.None? <==> forall j | 0 <= j < |metas| :: metas[j].id != id
  {
    if metas == [] then None
    else if metas[0].id == id then Some(0)
    else
      match FindIndex(metas[1..], id)
      case None => None
      case Some(k) => Some(k + 1)
  }

  /** `meta || {}`: the first entry with identifier `id`, or `None` for the
      empty object. */
  function MetaFor(metas: seq<Meta>, id: string): (r: Option<Meta>)
    ensures r.Some? ==> r.value in metas && r.value.id == id
    ensures r.Some? ==> exists k | 0 <= k < |metas| ::
      r.value == metas[k] && forall j | 0 <= j < k :: metas[j].id != id
    ensures r.None? <==> forall j | 0 <= j < |metas| :: metas[j].id != id
  {
    match FindIndex(metas, id)
    case Some(k) =>
      assert forall j | 0 <= j < k :: metas[j].id != id;
      Some(metas[k])
    case None => None
  }

  /** `streams` of the stream handler: one stream with the entry's URL and
      name when an entry with that identifier exists and its URL is not
      empty, none otherwise. */
  function StreamsFor(metas: seq<Meta>, id: string): (r: seq<Stream>)
    ensures |r| <= 1
    ensures r != [] <==> MetaFor(metas, id).Some? && MetaFor(metas, id).value.url != ""
    ensures r != [] ==> r[0] == Stream(MetaFor(metas, id).value.url, MetaFor(metas, id).value.name)
  {
    match MetaFor(metas, id)
    case Some(meta) => if meta.url != "" then [Stream(meta.url, meta.name)] else []
    case None => []
  }

  /** The meta handler: fetch and parse the playlist, then look `id` up. */
  method MetaHandler(playlistUrl: Option<string>, id: string, now: nat, fetch: string -> FetchOutcome)
    returns (meta: Option<Meta>)
    ensures meta == MetaFor(FetchedPlaylist(playlistUrl, now, fetch), id)
  {
    var metas := FetchPlaylist(playlistUrl, now, fetch);
    meta := MetaFor(metas, id);
  }

  /** The stream handler: fetch and parse the playlist, then look `id` up. */
  method StreamHandler(playlistUrl: Option<string>, id: string, now: nat, fetch: string -> FetchOutcome)
    returns (streams: seq<Stream>)
    ensures streams == StreamsFor(FetchedPlaylist(playlistUrl, now, fetch), id)
  {
    var metas := FetchPlaylist(playlistUrl, now, fetch);
    streams := StreamsFor(metas, id);
  }

  /** Every entry of a parsed body is found again by its identifier: meta
      returns that very entry, and stream returns its URL under its name. */
  lemma ParsedEntryFound(text: string, k: nat)
    requires k < |Parse(text)|
    ensures MetaFor(Parse(text), IdOf(k + 1)) == Some(Parse(text)[k])
    ensures StreamsFor(Parse(text), IdOf(k + 1)) == [Stream(Parse(text)[k].url, Parse(text)[k].name)]
  {
    var metas := Parse(text);
    ParsedEntries(text);
    ParsedIdsDistinct(text);
    match FindIndex(metas, IdOf(k + 1))
    case None =>
    case Some(j) =>
      assert j == k;
  }

  /** An identifier that is not `vod-1` … `vod-N` for the `N` entries of a
      body finds nothing: meta is the empty object and there is no stream. */
  lemma UnknownIdFindsNothing(text: string, id: string)
    requires forall k: nat | 1 <= k <= |Parse(text)| :: IdOf(k) != id
    ensures MetaFor(Parse(text), id) == None
    ensures StreamsFor(Parse(text), id) == []
  {
    ParsedEntries(text);
    forall j | 0 <= j < |Parse(text)|
      ensures Parse(text)[j].id != id
    {
      assert Parse(text)[j].id == IdOf(j + 1);
    }
  }

  /** A failed request yields an empty catalog, so every lookup finds
      nothing. */
  lemma FailedFetchFindsNothing(playlistUrl: Option<string>, now: nat, fetch: string -> FetchOutcome, id: string)
    requires fetch(NoCacheUrl(playlistUrl, now)) == Failed
    ensures FetchedPlaylist(playlistUrl, now, fetch) == []
    ensures MetaFor(FetchedPlaylist(playlistUrl, now, fetch), id) == None
    ensures StreamsFor(FetchedPlaylist(playlistUrl, now, fetch), id) == []
  {
  }

  /** The catalog lists what a later meta or stream call finds: when the
      server answers the request of the stream call (made at time `later`)
      with the body it gave to the catalog request (made at `now`), the
      `k`-th listed entry is found by its identifier. */
  lemma CatalogEntryStreamable(playlistUrl: Option<string>, now: nat, later: nat,
                               fetch: string -> FetchOutcome, k: nat)
    requires fetch(NoCacheUrl(playlistUrl, later)) == fetch(NoCacheUrl(playlistUrl, now))
    requires k < |FetchedPlaylist(playlistUrl, now, fetch)|
    ensures var entry := FetchedPlaylist(playlistUrl, now, fetch)[k];
      && MetaFor(FetchedPlaylist(playlistUrl, later, fetch), entry.id) == Some(entry)
      && StreamsFor(FetchedPlaylist(playlistUrl, later, fetch), entry.id) == [Stream(entry.url, entry.name)]
  {
    var text := fetch(NoCacheUrl(playlistUrl, now)).text;
    ParsedEntries(text);
    ParsedEntryFound(text, k);
  }

  /** Requests made at different times ask for different URLs, so no cache
      keyed on the URL can answer the second from the first. */
  lemma CacheBusting(playlistUrl: Option<string>, now: nat, later: nat)
    requires now != later
    ensures NoCacheUrl(playlistUrl, now) != NoCacheUrl(playlistUrl, later)
  {
    NatToStringInjective(now, later);
    var base := BaseUrl(playlistUrl);
    var u, v := NoCacheUrl(playlistUrl, now), NoCacheUrl(playlistUrl, later);
    assert u[|base| + 3..] == NatToString(now);
    assert v[|base| + 3..] == NatToString(later);
  }

}
