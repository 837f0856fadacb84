# Directory proxy routes of auth0client, modelled in Dafny

The repository pairs a React single-page app with two small Express servers.
The API server (`api-server.js`) offers `GET /groups`, the distinct group names
of all users of the remote user directory, and `GET /groups/:groupId/users`,
the users of one group. It also refuses to start when its auth configuration is
incomplete. The application server (`server.js`) offers `GET /unique`, the
distinct group names stored under each user's `app_metadata`.

All three routes take the bearer token from the `Authorization` header and
answer 401 when there is none. Otherwise they forward the token to the
directory's users listing and compute their answer from the returned array. A
failure anywhere in that try block answers 500 with a fixed message.

The model is pure: each route is a function from the request's Authorization
header and the directory to an `Exchange`. The directory is a function from the
Authorization header it is sent to the outcome of the users request. An
`Exchange` records the header actually sent upstream (`None` when the
directory was not called) and the response.

Modules, one per concept:

- `Wrappers` (`wrappers.dfy`): `Option`.
- `JsArray` (`js_array.dfy`): `xs[i]`, `flatMap`, `[...new Set(xs)]`.
- `JsString` (`js_string.dfy`): `split` on one character, `join`, truthiness of a string.
- `Bearer` (`bearer.dfy`): token extraction and the forwarded header.
- `Directory` (`directory.dfy`): user records and the upstream outcome.
- `Routes` (`routes.dfy`): the guard / fetch / catch shape every route has.
- `ApiServer` (`api_server.dfy`): `/groups`, `/groups/:groupId/users`, the startup check.
- `Server` (`server.dfy`): `/unique`.
- `Variants` (`variants.dfy`): the two servers compared.

The code behaves as follows, and the model follows it:

- The directory routes are not behind the JSON Web Token checker. They only
  require a non-empty second field in the Authorization header.
- The scheme word is not checked: `Basic abc` yields the token `abc`. Two
  spaces after `Bearer` give an empty token and a 401.
- Group names are not merged from both storage locations. `api-server.js`
  reads only the top-level `groups`, and `server.js` reads only
  `app_metadata.groups` (`Variants.GroupsReadTopLevelOnly` and its siblings).
- The distinct groups come out in first-occurrence order, not in an
  unspecified order.
- A `null` in the users array is skipped by `/groups`, but it makes `/unique`
  answer 500, because `user.app_metadata` is read without `?.`.

## Model

| member | source | states |
|---|---|---|
| JsArray.FlatMap | api-server.js:66 | a value is in the flattened list iff it is in the list of some element |
| JsArray.FlatMapAppend | api-server.js:66 | flatMap distributes over concatenation, so the output keeps the input's order |
| JsArray.FlatMapSameLists | api-server.js:66 | inputs whose elements give the same lists have the same flattened output |
| JsArray.Distinct | api-server.js:69 | the Set spread has no repeats, has the same elements as its input, and lists them in first-occurrence order |
| JsArray.DistinctOfDistinct | api-server.js:69 | a list without repeats passes through the Set spread unchanged |
| JsArray.DistinctIdempotent | api-server.js:69 | deduplicating twice is the same as deduplicating once |
| JsArray.DistinctUnique | api-server.js:69 | any list with no repeats, the same elements and first-occurrence order equals the Set spread |
| JsString.Truthy | api-server.js:51 | `!token` is false exactly for a present, non-empty string; `undefined` and `""` are falsy |
| JsString.Split | api-server.js:49 | `split(' ')` gives at least one field, and no field holds a space |
| JsString.FieldCount | api-server.js:49 | `split(' ')` gives one field more than there are spaces |
| JsString.JoinSplit | api-server.js:49 | joining the fields with the separator restores the header |
| JsString.SplitJoin | api-server.js:49 | splitting a join of separator-free fields gives those fields back |
| JsString.SecondField | api-server.js:49 | a string holding the separator has a field 1: what follows the first separator, up to the next separator or the end |
| JsString.RunAfter | api-server.js:49 | that run sits in the string right after its start and ends at a separator or at the end of the string, so it is the longest separator-free run there |
| Bearer.Token | api-server.js:49 | there is a token iff the header is present and holds a space; a token never contains a space |
| Bearer.ForwardedAuthorization | api-server.js:59 | the header sent upstream is `Bearer ` followed by the token (its round trip is `Bearer.ForwardedTokenRoundTrip`) |
| Bearer.TokenAfterScheme | api-server.js:49 | for any space-free scheme word, `<scheme> <token>` yields the token |
| Bearer.TokenIgnoresRest | api-server.js:49 | fields after the second one are ignored |
| Bearer.TokenIsRun | api-server.js:49 | the token is exactly the header's characters between the first space and the next space or the end |
| Bearer.NoTokenCases | api-server.js:49-53 | the request is refused iff the header is missing, has no space, or has an empty second field |
| Bearer.ForwardedTokenRoundTrip | api-server.js:57-61 | extracting the token from the forwarded `Bearer <token>` header gives the caller's token back |
| Bearer.OtherSchemeAccepted | api-server.js:49 | `Basic abc` yields the token `abc` |
| Bearer.TrailingSpaceRefused | api-server.js:49-53 | `Bearer ` has an empty token and is refused |
| Bearer.DoubleSpaceRefused | api-server.js:49-53 | `Bearer  x` has an empty token and is refused |
| Bearer.SchemeAloneRefused | api-server.js:49-53 | `Bearer` has no token and is refused |
| Routes.Unauthorized | api-server.js:52 | the refusal is status 401 with the body `{ error: 'Authorization token is required' }` |
| Routes.DirectoryRoute | api-server.js:49-75 | the directory is called iff there is a token, always with `Bearer <token>`; without one the answer is 401 `Authorization token is required`; the answer is 500 with the route's message iff the upstream call fails or the handler throws, and 200 with the handler's body otherwise |
| Routes.NoTokenNoFetch | api-server.js:51-53 | without a token the exchange is 401 with no upstream call, whatever the directory would answer |
| Routes.FailureHidesDetail | api-server.js:72-75 | two upstream failures with different details give the same response |
| ApiServer.StartupRejected | api-server.js:18-22 | the exit condition: the domain is missing or empty, the audience is missing or empty, or the audience is `YOUR_API_IDENTIFIER` |
| ApiServer.Startup | api-server.js:18-38 | startup stops iff domain or audience is empty or the audience is `YOUR_API_IDENTIFIER`; otherwise the checker uses that audience, issuer `https://<domain>/` and RS256 |
| ApiServer.StartupRejectsIncompleteConfig | api-server.js:18-22 | the placeholder audience, or an empty or missing domain or audience, stops startup |
| Directory.TopLevelGroups | api-server.js:66 | the callback `user?.groups`, falling back to `[]`: a `null` entry or a user without `groups` gives the empty list, otherwise the user's `groups` |
| ApiServer.UniqueGroups | api-server.js:66-69 | no repeats; a name is listed iff it is in some user's top-level `groups`; listed in first-occurrence order of the flattened lists |
| ApiServer.GroupsRoute | api-server.js:48-76 | 401 iff no token, exactly when nothing is forwarded; 500 with `Failed to fetch unique groups` iff the fetch fails; 200 otherwise, with the distinct top-level groups |
| ApiServer.UniqueGroupsIdempotent | api-server.js:66-69 | deduplicating the answer again leaves it unchanged |
| ApiServer.UniqueGroupsDetermined | api-server.js:66-69 | the answer is the only repeat-free, first-occurrence-ordered list of the flattened groups |
| ApiServer.UserWithoutGroupsIgnored | api-server.js:66 | a `null` entry or a user without `groups` contributes nothing, wherever it stands |
| ApiServer.UniqueGroupsIgnoreMetadata | api-server.js:66 | dropping every user's `app_metadata` leaves the answer unchanged |
| ApiServer.InGroup | api-server.js:98 | `user?.groups?.includes(groupId)` holds iff the group is among the names `/groups` takes from that entry |
| ApiServer.UsersInGroup | api-server.js:97-99 | every returned user has `groupId` in its top-level `groups`; every such user is returned as often as it occurs; the result is an order-preserving subsequence of the input; it is empty iff no user matches |
| ApiServer.GroupUsersRoute | api-server.js:78-106 | 401 iff no token, exactly when nothing is forwarded; 500 with `Failed to fetch users for the specified group` iff the fetch fails; 200 otherwise, with the matching users unchanged |
| ApiServer.NoMemberIsEmptySuccess | api-server.js:97-101 | when no user matches, the answer is 200 with an empty list |
| Directory.MetadataGroups | server.js:41 | `app_metadata?.groups` of a user, falling back to `[]`: missing metadata or a missing list gives the empty list |
| Server.EntryMetadataGroups | server.js:41 | the callback's list for an entry; a `null` entry gives none here, its throw is modelled by `Server.CollectMetadataGroups` |
| Server.CollectMetadataGroups | server.js:41 | the callback throws iff the array holds a `null`; otherwise the result is the plain flatMap of the `app_metadata.groups` lists |
| Server.UniqueMetadataGroups | server.js:41-44 | fails iff there is a `null` entry; otherwise no repeats, a name is listed iff it is in some user's `app_metadata.groups`, in first-occurrence order |
| Server.UniqueRoute | server.js:23-51 | 401 iff no token, exactly when nothing is forwarded; 500 with `Failed to fetch unique groups` iff the fetch fails or the array holds a `null`; 200 otherwise, with the distinct metadata groups |
| Server.UniqueMetadataGroupsIdempotent | server.js:41-44 | deduplicating the answer again leaves it unchanged |
| Server.UniqueMetadataGroupsDetermined | server.js:41-44 | the answer is the only repeat-free, first-occurrence-ordered list of the flattened metadata groups |
| Server.UniqueIgnoresTopLevelGroups | server.js:41 | dropping every user's top-level `groups` leaves the answer unchanged |
| Variants.SameTokenHandling | server.js:24-28 | all three routes forward the same header and give the same 401 for the same Authorization header |
| Variants.NullEntryOnlyBreaksUnique | server.js:41 | an array holding `null` gives 200 on `/groups` but 500 on `/unique` |
| Variants.GroupsReadTopLevelOnly | api-server.js:66-69 | for one user with top-level groups `a, b` and one with metadata groups `b, c`, `/groups` lists `a, b` |
| Variants.UniqueReadsMetadataOnly | server.js:41-44 | for the same two users, `/unique` lists `b, c` |
| Variants.GroupUsersReadTopLevelOnly | api-server.js:97-99 | for the same two users, `/groups/b/users` returns only the first |

## Left out

- JSON Web Token validation by `express-oauth2-jwt-bearer` (`checkJwt`, `checkWeatherForecastJwt`, `/api/external`, `/api/weatherforecast`) is left out. It lives in a library that is not part of this model, and the directory routes do not use it.
- The users request (axios) and the hard-coded tenant URL are left out. They become the `directory` parameter.
- A users payload that is not an array makes `flatMap`/`filter` throw, which answers 500. It is folded into `FetchError`.
- Group lists that are not arrays are left out, such as a string on which `includes` would match substrings. `groups` is always a list of strings here.
- Express routing, `morgan`, `helmet`, `cors`, static files, `app.listen`, `process.exit` and console logging are I/O. The route's `res.status(...).json(...)` calls become the returned `Response`.
- `src/config.js` and `src/views/ExternalApi.js` (environment plumbing and React UI) are not part of this model.
- ApiServer.Startup: models only the checker of `/api/external`; the forecast checker's fixed audience belongs to the JSON Web Token checking left out above.
