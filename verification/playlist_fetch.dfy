/** `getPlaylist`: search the music catalog for one playlist named after the
    beer style, fetch its tracks, and project each track to name, first
    artist and that artist's link. The two HTTP GETs are parameters. */
module PlaylistFetch {
  import opened Results

  datatype Track = Track(name: string, artist: string, link: string)

  datatype Playlist = Playlist(name: string, tracks: seq<Track>)

  /** Upstream shapes: only the fields the projection reads. */
  datatype Artist = Artist(name: string, spotifyUrl: string)
  datatype TrackInfo = TrackInfo(name: string, artists: seq<Artist>)
  datatype PlaylistItem = PlaylistItem(track: TrackInfo)
  datatype SearchHit = SearchHit(name: string, href: string)

  /** A GET request: the URL and the value of the `Authorization` header. */
  datatype Request = Request(url: string, authorization: string)

  const SearchPrefix: string := "https://api.spotify.com/v1/search?q="
  const SearchSuffix: string := "&type=playlist&limit=1"
  const TrackFields: string := "?fields=name,tracks.items"
  const BearerPrefix: string := "Bearer "
  const FetchError: string := "Erro ao buscar playlist"

  /** The search URL; the style is inserted verbatim, without escaping. */
  function SearchUrl(beerStyle: string): (url: string)
    ensures |url| == |SearchPrefix| + |beerStyle| + |SearchSuffix|
    ensures url[..|SearchPrefix|] == SearchPrefix
    ensures url[|SearchPrefix|..|SearchPrefix| + |beerStyle|] == beerStyle
    ensures url[|SearchPrefix| + |beerStyle|..] == SearchSuffix
  {
    SearchPrefix + beerStyle + SearchSuffix
  }

  /** Reads the query back out of a search URL. */
  function QueryOf(url: string): Option<string>
  {
    if |url| >= |SearchPrefix| + |SearchSuffix|
       && url[..|SearchPrefix|] == SearchPrefix
       && url[|url| - |SearchSuffix|..] == SearchSuffix
    then Some(url[|SearchPrefix|..|url| - |SearchSuffix|])
    else None
  }

  /** The style is recoverable from the search URL, so different styles give
      different searches. */
  lemma SearchUrlRoundTrip(beerStyle: string)
    ensures QueryOf(SearchUrl(beerStyle)) == Some(beerStyle)
  {
  }

  /** The `Authorization` header for a bearer token. */
  function AuthHeader(token: string): (h: string)
    ensures |h| == |BearerPrefix| + |token|
    ensures h[..|BearerPrefix|] == BearerPrefix && h[|BearerPrefix|..] == token
  {
    BearerPrefix + token
  }

  /** Reads the token back out of an `Authorization` header. */
  function TokenOf(h: string): Option<string>
  {
    if |h| >= |BearerPrefix| && h[..|BearerPrefix|] == BearerPrefix
    then Some(h[|BearerPrefix|..])
    else None
  }

  lemma AuthHeaderRoundTrip(token: string)
    ensures TokenOf(AuthHeader(token)) == Some(token)
  {
  }

  /** The track-listing URL for a playlist reference. */
  function TracksUrl(href: string): (url: string)
    ensures |url| == |href| + |TrackFields|
    ensures url[..|href|] == href && url[|href|..] == TrackFields
  {
    href + TrackFields
  }

  /** Reads the playlist reference back out of a track-listing URL. */
  function HrefOf(url: string): Option<string>
  {
    if |url| >= |TrackFields| && url[|url| - |TrackFields|..] == TrackFields
    then Some(url[..|url| - |TrackFields|])
    else None
  }

  lemma TracksUrlRoundTrip(href: string)
    ensures HrefOf(TracksUrl(href)) == Some(href)
  {
  }

  /** The projection of one item; reading `artists[0]` of an empty artist
      list throws, which the wrapper turns into the fetch error. */
  function ProjectItem(item: PlaylistItem): (r: Result<Track>)
    ensures r.Ok? <==> |item.track.artists| > 0
    ensures r.Ok? ==> ProjectsTo(item, r.value)
    ensures r.Err? ==> r.error == FetchError
  {
    if |item.track.artists| == 0 then Err(FetchError)
    else
      var first := item.track.artists[0];
      Ok(Track(item.track.name, first.name, first.spotifyUrl))
  }

  /** Every item names at least one artist. */
  ghost predicate AllHaveArtists(items: seq<PlaylistItem>)
  {
    forall i :: 0 <= i < |items| ==> |items[i].track.artists| > 0
  }

  /** The projected track of an item (when it has an artist). */
  ghost predicate ProjectsTo(item: PlaylistItem, t: Track)
  {
    && |item.track.artists| > 0
    && t.name == item.track.name
    && t.artist == item.track.artists[0].name
    && t.link == item.track.artists[0].spotifyUrl
  }

  /** `tracks.items.map(...)`: one track per item, in the same order, or the
      fetch error if any item has no artist. */
  function ProjectTracks(items: seq<PlaylistItem>): (r: Result<seq<Track>>)
    ensures r.Ok? <==> AllHaveArtists(items)
    ensures r.Ok? ==> |r.value| == |items| && forall i :: 0 <= i < |items| ==> ProjectsTo(items[i], r.value[i])
    ensures r.Err? ==> r.error == FetchError
  {
    if items == [] then Ok([])
    else
      match ProjectItem(items[0])
      case Err(e) => Err(e)
      case Ok(t) =>
        match ProjectTracks(items[1..])
        case Err(e) => Err(e)
        case Ok(ts) =>
          assert forall i :: 1 <= i < |items| ==> items[1..][i - 1] == items[i];
          Ok([t] + ts)
  }

  /** `getPlaylist(token, beerStyle)` over the two GETs `search` and
      `fetchTracks`. The search is made with the style's URL and the bearer
      header; the tracks are fetched from the first hit's reference with the
      same header. The playlist is found exactly when both GETs succeed, the
      search has a hit and every track has an artist; it is then named after
      the first hit and holds the items projected one by one, in order. Any
      failure, an empty search included, is the single fetch error: there is
      no "no playlist" answer. */
  function GetPlaylist(token: string, beerStyle: string,
                       search: Request -> Result<seq<SearchHit>>,
                       fetchTracks: Request -> Result<seq<PlaylistItem>>): (r: Result<Playlist>)
    ensures r.Err? ==> r.error == FetchError
    ensures var hits := search(Request(SearchUrl(beerStyle), AuthHeader(token)));
      r.Ok? <==>
        && hits.Ok? && |hits.value| > 0
        && var listing := fetchTracks(Request(TracksUrl(hits.value[0].href), AuthHeader(token)));
        && listing.Ok? && AllHaveArtists(listing.value)
    ensures r.Ok? ==>
      var hits := search(Request(SearchUrl(beerStyle), AuthHeader(token))).value;
      var listing := fetchTracks(Request(TracksUrl(hits[0].href), AuthHeader(token))).value;
      && r.value.name == hits[0].name
      && |r.value.tracks| == |listing|
      && forall i :: 0 <= i < |listing| ==> ProjectsTo(listing[i], r.value.tracks[i])
  {
    var auth := AuthHeader(token);
    match search(Request(SearchUrl(beerStyle), auth))
    case Err(_) => Err(FetchError)
    case Ok(hits) =>
      if |hits| == 0 then Err(FetchError)
      else
        match fetchTracks(Request(TracksUrl(hits[0].href), auth))
        case Err(_) => Err(FetchError)
        case Ok(items) =>
          match ProjectTracks(items)
          case Err(_) => Err(FetchError)
          case Ok(tracks) => Ok(Playlist(hits[0].name, tracks))
  }

  /** An empty search result is an error, not an absent playlist. */
  lemma EmptySearchFails(token: string, beerStyle: string,
                         search: Request -> Result<seq<SearchHit>>,
                         fetchTracks: Request -> Result<seq<PlaylistItem>>)
    requires search(Request(SearchUrl(beerStyle), AuthHeader(token))) == Ok([])
    ensures GetPlaylist(token, beerStyle, search, fetchTracks) == Err(FetchError)
  {
  }
}
