/** `request_player_data`: serve the player directory from its cache file
    when that file is fresh and parses, otherwise issue one request, write a
    successful body back to the cache and return it. */
module PlayerData {
  import opened JsonValue
  import opened Freshness
  import opened CacheStore
  import opened Transport

  /** What one call returns, how many requests it issued, and the cache it
      leaves behind. */
  datatype PlayerFetch = PlayerFetch(data: Json, requests: nat, store: Store)

  /** `response` is what the request would return if it were issued. */
  function RequestPlayerData(store: Store, now: int, response: Response): (r: PlayerFetch)
    ensures r.requests <= 1
    ensures r.requests == 0 <==> Classify(store, PlayerPath, now, DefaultMaxAge).FreshParsed?
    ensures r.requests == 0 ==>
              store[PlayerPath].contents == Parsed(r.data) && r.store == store
    ensures r.requests == 1 && response.Ok? ==>
              r.data == response.body && r.store == Write(store, PlayerPath, response.body, now)
    ensures r.requests == 1 && response.Err? ==> r.data == EmptyObject && r.store == store
  {
    match Classify(store, PlayerPath, now, DefaultMaxAge)
    case FreshParsed(cached) => PlayerFetch(cached, 0, store)
    case _ =>
      match response
      case Ok(body) => PlayerFetch(body, 1, Write(store, PlayerPath, body, now))
      case Err(_) => PlayerFetch(EmptyObject, 1, store)
  }

  /** After a successful refresh, every call within the next day is served
      from the cache, returns the same data and issues no request. */
  lemma RefreshedCacheServesForOneDay(store: Store, now: int, response: Response, later: int, next: Response)
    requires response.Ok?
    requires RequestPlayerData(store, now, response).requests == 1
    requires later <= now + DefaultMaxAge
    ensures var first := RequestPlayerData(store, now, response);
      var second := RequestPlayerData(first.store, later, next);
      second.requests == 0 && second.data == first.data && second.store == first.store
  {
    WriteThenClassify(store, PlayerPath, response.body, now, later, DefaultMaxAge);
  }

  /** More than a day after a refresh, the next call issues a request again. */
  lemma RefreshedCacheExpires(store: Store, now: int, response: Response, later: int, next: Response)
    requires response.Ok?
    requires RequestPlayerData(store, now, response).requests == 1
    requires later > now + DefaultMaxAge
    ensures RequestPlayerData(RequestPlayerData(store, now, response).store, later, next).requests == 1
  {
  }

  /** A failed refresh never falls back to the cached data, even when the
      stale file still parses: it returns `{}` and leaves the cache alone. */
  lemma FailedRefreshIgnoresStaleData(store: Store, now: int, response: Response)
    requires response.Err?
    requires Classify(store, PlayerPath, now, DefaultMaxAge).Stale?
    ensures RequestPlayerData(store, now, response) == PlayerFetch(EmptyObject, 1, store)
  {
  }

  /** A fresh file that does not parse is treated like a stale one. */
  lemma CorruptCacheIsRefetched(store: Store, now: int, response: Response)
    requires Classify(store, PlayerPath, now, DefaultMaxAge).FreshCorrupt?
    ensures RequestPlayerData(store, now, response).requests == 1
  {
  }

  /** End to end: when the cache cannot serve and the server times out three
      times, the caller gets `{}` and the cache is untouched. */
  lemma TimeoutsYieldEmptyPlayerData(store: Store, now: int, answers: seq<Attempt>)
    requires MaxRetries <= |answers|
    requires answers[0] == TimedOut && answers[1] == TimedOut && answers[2] == TimedOut
    requires !Classify(store, PlayerPath, now, DefaultMaxAge).FreshParsed?
    ensures var call := FantraxApiRequest(map[], answers);
      RequestPlayerData(store, now, call.response) == PlayerFetch(EmptyObject, 1, store)
  {
    ThreeTimeoutsExhaust(map[], answers);
  }
}
