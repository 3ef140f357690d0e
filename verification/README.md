# Beer-by-temperature party service: a Dafny model

This project models the logic of a small beer-catalog backend that, given a
temperature, picks the beer style whose serving range best fits it and fetches
a themed playlist for that style from a music catalog. Three pieces are
modelled, each as pure functions over immutable datatypes:

- **the party handler** (`handleBeerAndPlaylist`): the store's answer to the
  temperature query, the closest-beer fold (`findClosestBeer`), the token and
  playlist steps, and the mapping of every outcome to a response
  (modules `Matcher`, `StoreQuery`, `Party`);
- **the beer body validator** (`validateBeerData`): key count, then presence
  and type per schema key in order, first failure wins (module `Validation`);
- **the playlist fetch** (`getPlaylist`): search and track URLs, the
  `Authorization` header, the per-track projection and the collapse of every
  failure into one error (module `PlaylistFetch`).

Collaborators are parameters: the store's result (`Result<seq<Beer>>`), the
token source's result (`Result<string>`), the playlist source
(`(token, style) -> Result<Option<Playlist>>`) and the two HTTP GETs
(`Request -> Result<...>`). The handler returns the response together with
the list of collaborator calls made, so "which collaborator was consulted,
with what" is part of each result.

Temperatures are Dafny `real`s, so midpoints `(min + max) / 2` and absolute
differences are exact. The store's sort order on `beerStyle` is modelled as
lexicographic order on character codes (`StyleOrder.Less`), with proofs that
it is a strict total order.

Two points about the handler and the sources it relies on:

- The handler has an `if (!playlist)` branch that answers 404 "Nenhuma
  playlist encontrada para: <style>" (src/controllers/partyController.ts:23-30),
  so it expects `getPlaylist` to answer with a falsy playlist when nothing is
  found. But `getPlaylist` reads `items[0].name` of the search result
  (src/utils/getPlaylist.ts:25), which throws on an empty result, and its
  wrapper turns every throw into "Erro ao buscar playlist". The handler then
  answers 500. `Party.NoPlaylistUnreachable` proves that the 404 branch can
  never fire with the real `getPlaylist`; the handler itself is modelled over
  an arbitrary playlist source, so the branch is still there.
- The handler does not re-check temperature ranges: it trusts the store's
  list. The handler's test feeds beers whose ranges exclude 10 and still
  expects IPA (`Party.HandlerPicksIpa`).

## Model

| member | source | states |
|---|---|---|
| Beers.Midpoint | src/controllers/partyController.ts:58-59 | the midpoint `(minTemp + maxTemp) / 2` is half the sum of the bounds and lies between them when the range is well formed |
| Beers.Dist | src/controllers/partyController.ts:60-61 | the distance `Math.abs(avg - temperature)` is non-negative, zero exactly at the midpoint, and at most half the range width for an in-range temperature |
| StyleOrder.Less | src/controllers/partyController.ts:48 | the style order of `.sort({beerStyle: 1})`: a proper prefix sorts first, and no string sorts before one of its prefixes |
| StyleOrder.LessIrreflexive | src/controllers/partyController.ts:48 | no style sorts before itself |
| StyleOrder.LessTransitive | src/controllers/partyController.ts:48 | the style order is transitive |
| StyleOrder.LessConnected | src/controllers/partyController.ts:48 | any two different styles are ordered one way or the other |
| StyleOrder.LessAsymmetric | src/controllers/partyController.ts:48 | two styles are never each before the other |
| StyleOrder.NotLessTransitive | src/controllers/partyController.ts:48 | "sorts no earlier than" is transitive, so the non-strict sort order is well defined |
| Matcher.Step | src/controllers/partyController.ts:57-64 | the reducer returns one of its two arguments, no farther than either, and keeps the incumbent on a tie |
| Matcher.FoldFrom | src/controllers/partyController.ts:57-64 | the left fold's result is the start value or a later element, and is no farther than any element it folded over |
| Matcher.FindClosest | src/controllers/partyController.ts:56-67 | on a non-empty list the result is a member of the list and no beer of the list is closer to the temperature |
| Matcher.FoldFromFirstClosest | src/controllers/partyController.ts:63 | fold invariant: an incumbent that is the first closest beer of the folded prefix leads to the first closest beer of the whole list |
| Matcher.FindClosestIsFirst | src/controllers/partyController.ts:63 | the result is the beer at the first index of minimal distance, because replacement needs a strictly smaller distance |
| Matcher.FirstClosestUnique | src/controllers/partyController.ts:63 | the first index of minimal distance is unique, so the tie-break determines the result |
| Matcher.FindClosestPrefersEarlier | src/controllers/partyController.ts:63 | if the beer at index i is among the closest, the result comes from index i or earlier |
| Matcher.SelectClosest | src/controllers/partyController.ts:17-18 | the single-candidate short cut returns `beers[0]` and agrees with the fold on every non-empty list |
| StoreQuery.QueryForMatchesInRange | src/controllers/partyController.ts:45-47 | the query `{minTemp: {$lte: t}, maxTemp: {$gte: t}}` selects exactly the beers whose range holds t |
| StoreQuery.Select | src/controllers/partyController.ts:45-47 | the matching records are exactly the store's records that satisfy the query, a sub-multiset of the store |
| StoreQuery.SelectCounts | src/controllers/partyController.ts:45-47 | every record satisfying the query is kept as many times as the store holds it; every other record is dropped |
| StoreQuery.SelectUnique | src/models/Beer.ts:11-15 | selecting from a store with unique styles keeps styles unique |
| StoreQuery.Insert | src/controllers/partyController.ts:48 | insertion adds exactly one copy of the beer and nothing else |
| StoreQuery.InsertSorted | src/controllers/partyController.ts:48 | insertion keeps a style-sorted list sorted |
| StoreQuery.InsertStrictlySorted | src/controllers/partyController.ts:48 | inserting a new style into a strictly ascending list keeps it strictly ascending |
| StoreQuery.SortByStyle | src/controllers/partyController.ts:48 | the sort is a permutation of its input in ascending style order |
| StoreQuery.SortStrictlySorted | src/controllers/partyController.ts:48 | with unique styles the sorted list is strictly ascending |
| StoreQuery.Find | src/controllers/partyController.ts:45-48 | `find(query).sort({beerStyle: 1})` holds exactly the matching records, as a permutation of them, in ascending style order |
| StoreQuery.FilterByTemperature | src/controllers/partyController.ts:43-54 | the store's answer contains exactly the beers with `minTemp <= t <= maxTemp`, sorted, strictly ascending when styles are unique |
| StoreQuery.StrictlySortedUnique | src/controllers/partyController.ts:48 | two strictly ascending lists with the same members are equal |
| StoreQuery.FilterByTemperatureCharacterized | src/controllers/partyController.ts:45-48 | with unique styles, any strictly ascending listing of exactly the in-range beers is the store's answer, so the answer is deterministic |
| Party.HandleBeerAndPlaylist | src/controllers/partyController.ts:7-41 | the store is always queried with the temperature; a store failure answers 500 "Erro ao buscar cerveja" with no further call; an empty store answer gives 404 "Nenhuma cerveja encontrada" with no further call; for a non-empty answer a token failure answers 500 after asking only the token source, otherwise the playlist source is asked with the token and the closest beer's style and its failure gives 500, its empty answer 404 "Nenhuma playlist encontrada para: <style>", and its playlist p the 200 `{beerStyle: style, playlist: p}`; every 200 comes from that last case |
| Party.NoBeerIgnoresCollaborators | src/controllers/partyController.ts:12-15 | with no matching beer the exchange is the same whatever the token and playlist sources would answer |
| Party.InternalErrorIffSomeStepFailed | src/controllers/partyController.ts:20-40 | a 500 happens if and only if the store, token or playlist step failed |
| Party.NoPlaylistIff | src/controllers/partyController.ts:23-30 | the "no playlist" 404 happens if and only if the playlist source answered with nothing for the closest style, and it names that style |
| Party.NoPlaylistUnreachable | src/controllers/partyController.ts:21-30 | with the real `getPlaylist` every 404 is the "no beer" one, and an empty search result gives a 500 |
| Party.StoreBackedMatch | src/controllers/partyController.ts:10-21 | with the modelled store, a 200 names an in-range beer of the store that no in-range beer beats, and any equally close in-range beer has a later style |
| Party.StoreBackedNoBeer | src/controllers/partyController.ts:10-15 | with the modelled store, the "no beer" 404 happens if and only if no beer's range holds the temperature |
| Party.HandlerPicksIpa | src/__tests__/partyController.test.ts:28-72 | for IPA (-2..3) and Lager (-1..0) at 10 the handler queries the store, the token source, then the playlist source with the mocked token and IPA, and answers 200 with IPA |
| Party.TieGoesToFirstStyle | src/controllers/partyController.ts:63 | IPA and Lager (both -1..3, midpoint 1) are both at distance 1 from 2: the first, IPA, is chosen |
| Party.RealPlaylistSource | src/controllers/partyController.ts:21 | `getPlaylist` as the handler's playlist source never answers with a falsy playlist: it fails exactly when `getPlaylist` fails and otherwise answers its playlist |
| Validation.Truthy | src/middleware/validation.ts:24 | the negation of `!beerData[key]`: a value is falsy exactly when it is `""`, `0`, `false`, `null` or `undefined` |
| Validation.TypeOf | src/middleware/validation.ts:28 | `typeof` yields one of five names, and "object" exactly for `null`, objects and arrays |
| Validation.CheckKeysFrom | src/middleware/validation.ts:22-31 | the per-key loop calls `next` exactly when every remaining key passes, else answers 400 naming the first failing key, presence before type |
| Validation.ValidateBeerData | src/middleware/validation.ts:10-34 | a key count other than 3 is rejected first; otherwise `next` exactly when all three keys pass, else a 400 for the first failing key in schema order |
| Validation.RejectionMessages | src/middleware/validation.ts:18-31 | every rejection carries the key-count message or the missing/wrong-type message of a schema key |
| Validation.ValidateBeerDataAcceptsExactlyConforming | src/middleware/validation.ts:4-33 | `next` is called exactly for bodies whose keys are the schema's, with a non-empty string style and non-zero numeric temperatures |
| Validation.ExtraKeyReportsMissingSchemaKey | src/middleware/validation.ts:18-26 | a 3-key body with a foreign key and `maxTemp` absent reports `maxTemp` missing, not the foreign key |
| Validation.FalsyValueIsMissing | src/middleware/validation.ts:24-26 | a `0` or `""` at the first failing key is reported as a missing key |
| Validation.ValidBodyCallsNext | src/__tests__/validation.test.ts:25-38 | the valid IPA body passes |
| Validation.MissingKeyFailsCount | src/__tests__/validation.test.ts:40-54 | a body without `maxTemp` fails the key count |
| Validation.StringTemperatureIsWrongType | src/__tests__/validation.test.ts:56-71 | `minTemp: "5"` is reported as a type error on `minTemp` |
| Validation.ExtraKeyFailsCount | src/__tests__/validation.test.ts:73-89 | a fourth key fails the key count |
| Validation.ZeroTemperatureRejected | src/middleware/validation.ts:24-26 | a beer with `minTemp: 0` is rejected as missing `minTemp`; the intended validator accepts it |
| Validation.ValidateBeerDataIntended | src/middleware/validation.ts:18-33 | same order of checks, with a key missing only when absent, `undefined` or `null` |
| Validation.ValidateBeerDataIntendedAcceptsExactlyConforming | src/middleware/validation.ts:4-33 | the intended validator accepts exactly the bodies with the schema's keys, a string style and numeric temperatures |
| Validation.IntendedAgreesOnTruthyValues | src/middleware/validation.ts:24-30 | on bodies without `0`, `""` or `false` values the intended and the written validators agree |
| PlaylistFetch.SearchUrl | src/utils/getPlaylist.ts:20 | the search URL is the fixed prefix, the style verbatim (no escaping), then `&type=playlist&limit=1` |
| PlaylistFetch.SearchUrlRoundTrip | src/utils/getPlaylist.ts:20 | the style can be read back from the search URL |
| PlaylistFetch.AuthHeader | src/utils/getPlaylist.ts:21-23 | the header is `Bearer ` followed by the token |
| PlaylistFetch.AuthHeaderRoundTrip | src/utils/getPlaylist.ts:21-23 | the token can be read back from the header |
| PlaylistFetch.TracksUrl | src/utils/getPlaylist.ts:28 | the track URL is the playlist reference followed by `?fields=name,tracks.items` |
| PlaylistFetch.TracksUrlRoundTrip | src/utils/getPlaylist.ts:28 | the playlist reference can be read back from the track URL |
| PlaylistFetch.ProjectItem | src/utils/getPlaylist.ts:37-45 | a track projects to its name, its first artist's name and that artist's link, and fails when it has no artist |
| PlaylistFetch.ProjectTracks | src/utils/getPlaylist.ts:36-46 | the projection succeeds exactly when every item has an artist, and then has the same length and order as the items |
| PlaylistFetch.GetPlaylist | src/utils/getPlaylist.ts:14-58 | both requests carry the bearer header; the search uses the style's URL, the listing the first hit's reference; success exactly when both succeed, a hit exists and every track has an artist, then named after the first hit with the projected tracks; every failure is "Erro ao buscar playlist" |
| PlaylistFetch.EmptySearchFails | src/utils/getPlaylist.ts:25 | an empty search result is the fetch error, never an absent playlist |

## Left out

- CRUD handlers (`src/controllers/beerController.ts`): thin status-code wrappers over store calls whose behaviour is not visible.
- Token acquisition (`src/utils/getToken.ts`): environment secrets, base64 encoding and an HTTP POST; the handler receives its result as a parameter. The handler's default import of a module that only has a named export is not modelled either.
- HTTP transport and logging inside `getPlaylist`: the two GETs are parameters, the `console.log` of the error is dropped.
- A missing `playlists`, `items`, `track`, `artists`, `external_urls` or `tracks` throws and is covered by a GET error. A missing hit name, track name, artist name or `external_urls.spotify` makes the source return `undefined` in that field, and the model's `string` fields cannot represent that.
- Server start-up, database connection and route wiring (`src/index.ts`, `src/routes/*.ts`).
- `validatePartyData`: imported and tested, but not defined in `src/middleware/validation.ts`.
- Which routes use `validateBeerData`: the beer routes (`src/routes/beer.ts`) do not mount it, so the validator is modelled on its own.
- Asynchrony (`async`/`await`) and IEEE-754 numbers (NaN, rounding): temperatures are exact reals.
- Matcher.FindClosest: requires a non-empty list; `reduce` without a start value throws on an empty array, which the handler never passes.
- Collation details of the store's string sort beyond code-point order.

## Findings

| source | as written | input that shows it | evidently intended | confidence | as-written member | corrected member |
|---|---|---|---|---|---|---|
| src/middleware/validation.ts:24-26 | presence is tested with truthiness, so `0` and `""` count as missing | `{beerStyle: "Brown ale", minTemp: 0, maxTemp: 6}` is rejected with "Chave não encontrada: minTemp" | a key is missing only when absent, `undefined` or `null`, so a 0 °C bound is accepted | high, not executed | Validation.ZeroTemperatureRejected | Validation.ValidateBeerDataIntendedAcceptsExactlyConforming |
