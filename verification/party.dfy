/** `handleBeerAndPlaylist`: query the store with the temperature, pick the
    closest beer, fetch a token and a playlist for its style, and map every
    outcome to one response. The store, the token source and the playlist
    source are collaborators whose answers are parameters; the exchange
    records which of them were consulted and with what. */
module Party {
  import opened Results
  import opened Beers
  import Matcher
  import StoreQuery
  import StyleOrder
  import PlaylistFetch

  /** A consultation of a collaborator. */
  datatype Call =
    | FindCall(query: StoreQuery.TempQuery)
    | TokenCall
    | PlaylistCall(token: string, beerStyle: string)

  datatype Body =
    | ErrorBody(error: string)
    | MatchBody(beerStyle: string, playlist: PlaylistFetch.Playlist)

  datatype Response = Response(status: int, body: Body)

  /** The response together with the collaborator calls made, in order. */
  datatype Exchange = Exchange(response: Response, calls: seq<Call>)

  const NoBeerMessage: string := "Nenhuma cerveja encontrada"
  const LookupErrorMessage: string := "Erro ao buscar cerveja"

  function NoPlaylistMessage(beerStyle: string): string
  {
    "Nenhuma playlist encontrada para: " + beerStyle
  }

  /** A playlist source as the handler sees it: it may fail, or answer with
      a falsy value. */
  type PlaylistSource = (string, string) -> Result<Option<PlaylistFetch.Playlist>>

  /** The handler. `found` is what the store returned for the temperature
      query (taken as given: the ranges are not re-checked), `token` what the
      token source returned. */
  function HandleBeerAndPlaylist(found: Result<seq<Beer>>, temperature: real,
                                 token: Result<string>, getPlaylist: PlaylistSource): (x: Exchange)
    ensures |x.calls| > 0 && x.calls[0] == FindCall(StoreQuery.QueryFor(temperature))
    ensures x.response.status in {200, 404, 500}
    ensures x.response.status == 200 <==> x.response.body.MatchBody?
    ensures x.response.status == 500 ==> x.response.body == ErrorBody(LookupErrorMessage)
    ensures found.Err? ==> x == Exchange(Response(500, ErrorBody(LookupErrorMessage)), [FindCall(StoreQuery.QueryFor(temperature))])
    ensures found == Ok([]) ==> x == Exchange(Response(404, ErrorBody(NoBeerMessage)), [FindCall(StoreQuery.QueryFor(temperature))])
    ensures found.Ok? && |found.value| > 0 && token.Err? ==>
      x == Exchange(Response(500, ErrorBody(LookupErrorMessage)), [FindCall(StoreQuery.QueryFor(temperature)), TokenCall])
    ensures found.Ok? && |found.value| > 0 && token.Ok? ==>
      var style := Matcher.FindClosest(found.value, temperature).beerStyle;
      var answer := getPlaylist(token.value, style);
      && x.calls == [FindCall(StoreQuery.QueryFor(temperature)), TokenCall, PlaylistCall(token.value, style)]
      && (answer.Err? ==> x.response == Response(500, ErrorBody(LookupErrorMessage)))
      && (answer == Ok(None) ==> x.response == Response(404, ErrorBody(NoPlaylistMessage(style))))
      && (answer.Ok? && answer.value.Some? ==> x.response == Response(200, MatchBody(style, answer.value.value)))
    ensures x.response.status == 200 ==>
      && found.Ok? && |found.value| > 0 && token.Ok?
      && var style := Matcher.FindClosest(found.value, temperature).beerStyle;
      && x.response.body.beerStyle == style
      && getPlaylist(token.value, style) == Ok(Some(x.response.body.playlist))
      && x.calls == [FindCall(StoreQuery.QueryFor(temperature)), TokenCall, PlaylistCall(token.value, style)]
  {
    var find := FindCall(StoreQuery.QueryFor(temperature));
    match found
    case Err(_) => Exchange(Response(500, ErrorBody(LookupErrorMessage)), [find])
    case Ok(beers) =>
      if |beers| == 0 then Exchange(Response(404, ErrorBody(NoBeerMessage)), [find])
      else
        var closest := Matcher.SelectClosest(beers, temperature);
        match token
        case Err(_) => Exchange(Response(500, ErrorBody(LookupErrorMessage)), [find, TokenCall])
        case Ok(tok) =>
          var calls := [find, TokenCall, PlaylistCall(tok, closest.beerStyle)];
          match getPlaylist(tok, closest.beerStyle)
          case Err(_) => Exchange(Response(500, ErrorBody(LookupErrorMessage)), calls)
          case Ok(None) => Exchange(Response(404, ErrorBody(NoPlaylistMessage(closest.beerStyle))), calls)
          case Ok(Some(p)) => Exchange(Response(200, MatchBody(closest.beerStyle, p)), calls)
  }

  /** With no matching beer, neither the token source nor the playlist
      source is consulted: the exchange does not depend on them. */
  lemma NoBeerIgnoresCollaborators(temperature: real, token1: Result<string>, token2: Result<string>,
                                   source1: PlaylistSource, source2: PlaylistSource)
    ensures HandleBeerAndPlaylist(Ok([]), temperature, token1, source1)
         == HandleBeerAndPlaylist(Ok([]), temperature, token2, source2)
  {
  }

  /** A 500 happens exactly when one of the three steps failed. */
  lemma InternalErrorIffSomeStepFailed(found: Result<seq<Beer>>, temperature: real,
                                       token: Result<string>, getPlaylist: PlaylistSource)
    ensures HandleBeerAndPlaylist(found, temperature, token, getPlaylist).response.status == 500 <==>
      || found.Err?
      || (|found.value| > 0 && token.Err?)
      || (|found.value| > 0 && token.Ok?
          && getPlaylist(token.value, Matcher.FindClosest(found.value, temperature).beerStyle).Err?)
  {
  }

  /** The "no playlist" 404 happens exactly when the playlist source answered
      with a falsy value for the closest style, and names that style. */
  lemma NoPlaylistIff(found: Result<seq<Beer>>, temperature: real,
                      token: Result<string>, getPlaylist: PlaylistSource)
    ensures var x := HandleBeerAndPlaylist(found, temperature, token, getPlaylist);
      (x.response.status == 404 && x.response.body != ErrorBody(NoBeerMessage)) <==>
        && found.Ok? && |found.value| > 0 && token.Ok?
        && var style := Matcher.FindClosest(found.value, temperature).beerStyle;
        && getPlaylist(token.value, style) == Ok(None)
        && x.response.body == ErrorBody(NoPlaylistMessage(style))
  {
  }

  /** The real playlist source as the handler sees it: `getPlaylist` never
      answers with a falsy playlist; it either finds one or throws. */
  function RealPlaylistSource(search: PlaylistFetch.Request -> Result<seq<PlaylistFetch.SearchHit>>,
                              fetchTracks: PlaylistFetch.Request -> Result<seq<PlaylistFetch.PlaylistItem>>): (source: PlaylistSource)
    ensures forall tok, style :: source(tok, style) != Ok(None)
    ensures forall tok, style :: source(tok, style).Err? <==> PlaylistFetch.GetPlaylist(tok, style, search, fetchTracks).Err?
    ensures forall tok, style :: source(tok, style).Ok? ==>
      source(tok, style).value == Some(PlaylistFetch.GetPlaylist(tok, style, search, fetchTracks).value)
  {
    (tok: string, style: string) =>
      match PlaylistFetch.GetPlaylist(tok, style, search, fetchTracks)
      case Ok(p) => Ok(Some(p))
      case Err(e) => Err(e)
  }

  /** Composed with the real `getPlaylist`, the "no playlist" 404 cannot
      happen: every 404 is the "no beer" one, and an empty search result is
      a 500. */
  lemma NoPlaylistUnreachable(found: Result<seq<Beer>>, temperature: real, token: Result<string>,
                              search: PlaylistFetch.Request -> Result<seq<PlaylistFetch.SearchHit>>,
                              fetchTracks: PlaylistFetch.Request -> Result<seq<PlaylistFetch.PlaylistItem>>)
    ensures var x := HandleBeerAndPlaylist(found, temperature, token, RealPlaylistSource(search, fetchTracks));
      x.response.status == 404 ==> x.response.body == ErrorBody(NoBeerMessage)
    ensures found.Ok? && |found.value| > 0 && token.Ok?
      && search(PlaylistFetch.Request(
           PlaylistFetch.SearchUrl(Matcher.FindClosest(found.value, temperature).beerStyle),
           PlaylistFetch.AuthHeader(token.value))) == Ok([])
      ==> HandleBeerAndPlaylist(found, temperature, token, RealPlaylistSource(search, fetchTracks)).response
          == Response(500, ErrorBody(LookupErrorMessage))
  {
  }

  /** With the store answering the temperature query as modelled, a 200
      names the style of a beer of the store whose range holds the
      temperature, no in-range beer is closer, and an equally close in-range
      beer has a later style. */
  lemma StoreBackedMatch(store: seq<Beer>, temperature: real,
                         token: Result<string>, getPlaylist: PlaylistSource)
    requires StoreQuery.UniqueStyles(store)
    ensures var found := StoreQuery.FilterByTemperature(store, temperature);
      var x := HandleBeerAndPlaylist(Ok(found), temperature, token, getPlaylist);
      x.response.status == 200 ==>
        var b := Matcher.FindClosest(found, temperature);
        && b in store && InRange(b, temperature)
        && b.beerStyle == x.response.body.beerStyle
        && (forall c :: c in store && InRange(c, temperature) ==> Dist(b, temperature) <= Dist(c, temperature))
        && (forall c :: c in store && InRange(c, temperature) && c != b && Dist(c, temperature) == Dist(b, temperature)
              ==> StyleOrder.Less(b.beerStyle, c.beerStyle))
  {
    var found := StoreQuery.FilterByTemperature(store, temperature);
    if found != [] {
      Matcher.FindClosestIsFirst(found, temperature);
      var k :| Matcher.FirstClosest(found, temperature, k) && Matcher.FindClosest(found, temperature) == found[k];
      var b := found[k];
      forall c | c in store && InRange(c, temperature) && c != b && Dist(c, temperature) == Dist(b, temperature)
        ensures StyleOrder.Less(b.beerStyle, c.beerStyle)
      {
        var j :| 0 <= j < |found| && found[j] == c;
        assert j != k;
        assert !(j < k);
      }
    }
  }

  /** The 404 "no beer" answer comes exactly when no beer of the store has a
      range holding the temperature. */
  lemma StoreBackedNoBeer(store: seq<Beer>, temperature: real,
                          token: Result<string>, getPlaylist: PlaylistSource)
    ensures HandleBeerAndPlaylist(Ok(StoreQuery.FilterByTemperature(store, temperature)), temperature, token, getPlaylist).response
            == Response(404, ErrorBody(NoBeerMessage))
        <==> forall b :: b in store ==> !InRange(b, temperature)
  {
    var found := StoreQuery.FilterByTemperature(store, temperature);
    if found != [] {
      assert found[0] in found;
    }
  }

  /** The handler's test: the store answers IPA (-2..3) and Lager (-1..0) for
      temperature 10; IPA's midpoint is closer, the playlist is requested
      with the mocked token and IPA, and the answer is a 200. */
  lemma HandlerPicksIpa(playlist: PlaylistFetch.Playlist)
    ensures var source: PlaylistSource := (tok: string, style: string) => Ok(Some(playlist));
      HandleBeerAndPlaylist(Ok([Beer("IPA", -2.0, 3.0), Beer("Lager", -1.0, 0.0)]), 10.0, Ok("mocked-token"), source)
      == Exchange(Response(200, MatchBody("IPA", playlist)),
                  [FindCall(StoreQuery.TempQuery(10.0, 10.0)), TokenCall, PlaylistCall("mocked-token", "IPA")])
  {
  }

  /** IPA (-1..3) and Lager (-1..3) both have midpoint 1, so both are at
      distance 1 from temperature 2; the first, IPA, wins. */
  lemma TieGoesToFirstStyle()
    ensures Matcher.FindClosest([Beer("IPA", -1.0, 3.0), Beer("Lager", -1.0, 3.0)], 2.0) == Beer("IPA", -1.0, 3.0)
  {
  }
}
