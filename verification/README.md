# Fantrax scraper: cache-or-fetch core, in Dafny

This project models the deterministic decision logic of `data/ftscraper.py`, the
client that fetches player and league data from the Fantrax API and caches it on
disk. The logic has three parts:

- **Freshness** (`_is_cache_file_too_old`). A cache file is too old when it is missing,
  or when its age is strictly greater than the maximum age. The default maximum age
  is 86400 seconds.
- **One API request** (`_fantrax_api_request`). Empty headers are replaced by JSON
  defaults. The loop makes at most three attempts, and only a timeout leads to another
  attempt. Any other exception ends the request at once. So does a decoded body that
  Python's `'error' in body` accepts or cannot search. Three timeouts end it with the
  distinct "timed out after multiple retries" failure.
- **Cache-or-fetch** (`request_player_data`, `request_league_info`). The player
  directory is served from a fresh cache file that parses; otherwise one request is
  issued. The league batch first serves fresh files and collects the leagues that need
  a request. It then pairs the `gather` responses with `league_ids` by position.

Modules, in dependency order:

- `JsonValue` (`json.dfy`): decoded JSON, and the `'error' in body` test for every JSON shape.
- `Freshness` (`freshness.dfy`): the freshness predicate.
- `CacheStore` (`cache.dfy`): cache files as a map from path to modification time and
  contents (`Parsed` or `Corrupt`), plus the four states a fetch can find.
- `Transport` (`transport.dfy`): header defaulting and the retry loop. The server's
  behaviour is a sequence of per-attempt answers: `TimedOut`, `Raised` or `Decoded(body)`.
- `PlayerData` (`player.dfy`): the player fetch.
- `LeagueInfo` (`league.dfy`): the league batch as written. It also holds a corrected
  batch (see Findings).

Network calls, file reads and writes, and the clock are parameters. The request's
outcome is a `Response` value. The cache is a `Store` map. The time is an integer `now`.

Behaviours the code does not implement:

- The code does no schema validation.
- The code has no "season concluded" freshness override.
- The code does no atomic write and no explicit refresh of the modification time.
- The code never checks the HTTP status. Any body that decodes is examined the same way.
- In the league batch, a fresh cache file that does not parse is not treated as a
  miss. The league is skipped without a request.
- The batch result is not an outcome per requested key. It is the positional `zip`
  described under Findings.

## Model

| member | source | states |
|---|---|---|
| `JsonValue.HasSubstring` | data/ftscraper.py:93 | Python's substring `in`, searched from the front, holds exactly when the substring occurs at some offset of the string |
| `JsonValue.ErrorMembership` | data/ftscraper.py:93 | `'error' in body` raises exactly for JSON that is not an object, array or string. On an object it is the key test. On an array it is true iff some element is the string "error". On a string it is true iff the string is some `pre + "error" + post` |
| `JsonValue.SubstringAnywhere` | data/ftscraper.py:93 | a string body with "error" anywhere inside it is flagged by the test |
| `JsonValue.SubstringSound` | data/ftscraper.py:93 | a string body the test flags contains "error", so a string without it is not flagged |
| `Freshness.MissingIsAlwaysTooOld` | data/ftscraper.py:61-62 | a missing cache file is too old at every time, for every maximum age |
| `Freshness.StrictBoundary` | data/ftscraper.py:65 | a file exactly maxAge seconds old is fresh; one second later it is too old |
| `Freshness.FreshWindow` | data/ftscraper.py:63-65 | an existing file is fresh iff now <= mtime + maxAge, so a future mtime counts as fresh |
| `Freshness.TooOldIsPermanent` | data/ftscraper.py:58-65 | once too old, a file stays too old as time advances |
| `Freshness.LongerMaxAgeKeepsFresh` | data/ftscraper.py:58-65 | raising the maximum age never makes a fresh file stale |
| `CacheStore.Classify` | data/ftscraper.py:106-113 | Missing or Stale iff the freshness predicate says too old; Missing iff no file; a fresh result carries the parsed contents, or is FreshCorrupt when the file does not parse |
| `CacheStore.Write` | data/ftscraper.py:118-119 | a write stamps the written file with the current time and its new contents, and leaves every other file as it was |
| `CacheStore.WriteThenClassify` | data/ftscraper.py:118-119 | a payload written and read back within maxAge is served as that same payload |
| `CacheStore.WriteIsLocal` | data/ftscraper.py:145-146 | writing one cache file never changes how another file is classified |
| `CacheStore.LeaguePathInjective` | data/ftscraper.py:131 | distinct league ids have distinct cache files |
| `CacheStore.LeaguePathIsNotPlayerPath` | data/ftscraper.py:131 | no league cache file is the player cache file |
| `Transport.WithDefaultHeaders` | data/ftscraper.py:74-78 | the headers sent are never empty. Caller headers pass through unchanged. Empty headers become exactly accept and Content-Type set to application/json |
| `Transport.DefaultHeadersIdempotent` | data/ftscraper.py:74-78 | defaulting already-sent headers changes nothing |
| `Transport.Settle` | data/ftscraper.py:91-100 | an answer that is not a timeout is returned iff it decoded and the "error" test is false. An object with "error" fails with that error's detail. Every failure is a wrapped request failure, never the retries-exhausted one |
| `Transport.RetryLoop` | data/ftscraper.py:81-102 | attempts stay within the bound. Every attempt before the last timed out. A last attempt that did not time out settles the outcome. A timeout on the last attempt happens only at the bound and yields the exhausted failure |
| `Transport.FantraxApiRequest` | data/ftscraper.py:68-102 | 1 to 3 attempts. All but the last timed out. A non-timeout last attempt decides the outcome. A timed-out last attempt happens only at attempt 3 and gives the exhausted failure. "Timed out after multiple retries" holds iff the first three answers are all timeouts |
| `Transport.ThreeTimeoutsExhaust` | data/ftscraper.py:96-102 | three consecutive timeouts give the distinct exhausted failure after exactly 3 attempts |
| `Transport.SuccessStopsRetrying` | data/ftscraper.py:88-95 | an accepted body on attempt k <= 3, after k-1 timeouts, is returned and attempt k is the last |
| `Transport.FailureIsNotRetried` | data/ftscraper.py:93-100 | a non-timeout exception or a flagged body on attempt k ends the request with a request failure after exactly k attempts |
| `Transport.AttemptsAreTimeoutsPlusOne` | data/ftscraper.py:96-98 | only timeouts advance the counter: attempts = timeouts seen + 1, or = timeouts = 3 when retries are exhausted |
| `Transport.UnusedAnswersIgnored` | data/ftscraper.py:85-95 | answers after the last attempt made never influence the request |
| `PlayerData.RequestPlayerData` | data/ftscraper.py:105-123 | zero requests iff the cache is fresh and parses, and then the cached data is returned with the cache unchanged. Otherwise exactly one request: success returns and writes the body; failure returns `{}` and writes nothing |
| `PlayerData.RefreshedCacheServesForOneDay` | data/ftscraper.py:106-119 | after a successful refresh, any call within 86400 seconds returns the same data with no request |
| `PlayerData.RefreshedCacheExpires` | data/ftscraper.py:106-117 | more than 86400 seconds after a refresh, the next call issues a request |
| `PlayerData.FailedRefreshIgnoresStaleData` | data/ftscraper.py:115-123 | a failed refresh of a stale file returns `{}`, never the stale data, and leaves the cache alone |
| `PlayerData.CorruptCacheIsRefetched` | data/ftscraper.py:107-117 | a fresh file that does not parse leads to one request |
| `PlayerData.TimeoutsYieldEmptyPlayerData` | data/ftscraper.py:116-123 | with the cache unable to serve and three timeouts, the result is `{}` and the cache is unchanged |
| `LeagueInfo.ScanLeagues` | data/ftscraper.py:129-141 | requested leagues are distinct and exactly those in the ids that need a request. Cached results are exactly the ids with a fresh parsed file, holding its contents |
| `LeagueInfo.RequestsFollowFirstOccurrence` | data/ftscraper.py:129-143 | requests follow the order of each league's first occurrence in `league_ids` |
| `LeagueInfo.AllRequestedInOrder` | data/ftscraper.py:130-141 | with distinct ids all needing a request, the requests are exactly `league_ids` |
| `LeagueInfo.Zip` | data/ftscraper.py:144 | `zip` yields as many pairs as the shorter input, and pair i is (a[i], b[i]) |
| `LeagueInfo.Record` | data/ftscraper.py:144-147 | the zip loop adds exactly the zipped keys, keeps other entries, and each key holds the response at its last zipped position |
| `LeagueInfo.RequestLeagueInfo` | data/ftscraper.py:126-149 | only too-old leagues are requested, each once, in order. Write i is (league_ids[i], response i), failures included. Results hold the fresh parsed leagues and the zipped ids, and id i holds response i unless it repeats later |
| `LeagueInfo.AssociationCorrectWithoutCacheHits` | data/ftscraper.py:143-147 | with distinct ids and no fresh file, the i-th request is for league_ids[i], so response i lands under the league it answers |
| `LeagueInfo.PairingCorrectIff` | data/ftscraper.py:129-147 | every write is keyed by the league its response answers iff the first `len(responses)` entries of `league_ids` are exactly the requested leagues |
| `LeagueInfo.CachedFirstLeagueTakesFirstResponse` | data/ftscraper.py:130-147 | if the first league is fresh and any request is made, the first response answers another league yet is recorded and written under the first league |
| `LeagueInfo.MisassociationExample` | data/ftscraper.py:130-147 | "a" fresh, "b" missing: the one request is for "b". Its response is recorded and written under "a", and "b" is absent from the results |
| `LeagueInfo.FreshCorruptDropped` | data/ftscraper.py:131-138 | a fresh file that does not parse is never requested. Unless the zip reaches its position, that league is absent from the results |
| `LeagueInfo.RequestLeagueInfoKeyed` | data/ftscraper.py:126-149 | corrected batch. Every league not served from a parsed fresh file is requested once, in order. Every id gets a result, and response i is recorded and written under request i |
| `LeagueInfo.KeyedAgreesWithoutCacheHits` | data/ftscraper.py:126-149 | with distinct ids and no fresh file, the corrected batch and the batch as written coincide |

## Findings

| source | as written | input that shows it | evidently intended | confidence | as-written member | corrected member |
|---|---|---|---|---|---|---|
| data/ftscraper.py:144 | `zip(league_ids, responses)` pairs response i with the i-th entry of `league_ids`. Response i actually answers the i-th requested league | `league_ids = ["a", "b"]`, "a" fresh, "b" missing: b's response is recorded and cached under "a", and "b" gets no result | `zip(info_requests.keys(), responses)` | high; not executed | `LeagueInfo.MisassociationExample` | `LeagueInfo.RequestLeagueInfoKeyed` |
| data/ftscraper.py:131-138 | a fresh league file that fails to parse hits `continue`, so no request is made and the league silently has no result | `league_ids = ["a"]` with a fresh, unparseable file for "a": no request, empty results | treat it as a miss and refetch, as `request_player_data` does | medium; not executed | `LeagueInfo.FreshCorruptDropped` | `LeagueInfo.RequestLeagueInfoKeyed` |

## Left out

- Session creation and closing, and the HTTP call itself: foreign network I/O. They are replaced by the per-attempt answer sequence.
- The `asyncio.Semaphore(5)` limit and `asyncio.gather` scheduling: these concern only concurrency. `gather` is a sequence with one response per request, in request order.
- The 10-second client timeout: it only decides when an attempt's answer is `TimedOut`.
- File reads and writes, `json.load` and `json.dump`: I/O. The cache is a map, and a dump followed by a load is taken to return the same JSON value.
- Dumping an exception object: in the source, `json.dump` of a failed league response raises `TypeError`. That would end the batch after truncating that file. The model records the failure as a value and a write, and does not model the raise.
- `os.path.getmtime` and `time.time`: these are float clocks. Times are whole seconds, and one `now` serves a whole call. A file exactly maxAge old is therefore representable, but a real clock hits that instant with negligible probability.
- Transport.FantraxApiRequest: requires at least three answers from the server. The loop can need that many; answers it does not read are irrelevant (`UnusedAnswersIgnored`).
- The `url`, `method.upper()` and `params` arguments: they are passed straight to the HTTP call and affect no decision.
- Exception messages: failures are tagged by kind (`RequestFailed` with a cause, or `TimedOutAfterRetries`), not by their text.
- JSON numbers are integers: no decision in the code looks at them.
- `print` logging, `main`, the `KeyboardInterrupt` handler and the static `_knownLeagues` list: console output and configuration.
- Errors while writing the player cache file after a successful request: in the source they turn the result into `{}`. They are file-system failures and not modelled.
