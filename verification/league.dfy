/** `request_league_info`: a batch over league ids. A first pass serves fresh
    cache files and collects one request per league that needs one; the
    responses are then paired with the ids and recorded. The responses of
    `gather(..., return_exceptions=True)` are given as a sequence with one
    entry per request, failures included. */
module LeagueInfo {
  import opened JsonValue
  import opened Freshness
  import opened CacheStore
  import opened Transport

  predicate Distinct<T(==)>(s: seq<T>) {
    forall i, j :: 0 <= i < j < |s| ==> s[i] != s[j]
  }

  /** How the batch sees the cache file of one league. */
  function LeagueState(store: Store, leagueId: string, now: int): CacheState {
    Classify(store, LeaguePath(leagueId), now, DefaultMaxAge)
  }

  /** Whether the first pass asks for a request. As written, a league is
      requested exactly when its file is too old; `refetchCorrupt` also
      requests a fresh file that does not parse. */
  predicate NeedsRequest(state: CacheState, refetchCorrupt: bool) {
    state.Missing? || state.Stale? || (refetchCorrupt && state.FreshCorrupt?)
  }

  /** The result of the first pass: results served from the cache, and the
      leagues to request in the order of the `info_requests` dictionary. */
  datatype Scan = Scan(cached: map<string, Response>, requested: seq<string>)

  /** The first pass over `ids`. A league already in `info_requests` keeps
      its place in the dictionary, so it is requested once. */
  function ScanLeagues(store: Store, ids: seq<string>, now: int, refetchCorrupt: bool): (s: Scan)
    decreases |ids|
    ensures |s.requested| <= |ids|
    ensures Distinct(s.requested)
    ensures forall x :: x in s.requested <==> x in ids && NeedsRequest(LeagueState(store, x, now), refetchCorrupt)
    ensures forall x :: x in s.cached <==> x in ids && LeagueState(store, x, now).FreshParsed?
    ensures forall x :: x in s.cached ==> s.cached[x] == Ok(LeagueState(store, x, now).value)
  {
    if |ids| == 0 then Scan(map[], [])
    else
      var front := ids[..|ids| - 1];
      var x := ids[|ids| - 1];
      assert ids == front + [x];
      ScanStep(ScanLeagues(store, front, now, refetchCorrupt), x, LeagueState(store, x, now), refetchCorrupt)
  }

  /** One iteration of the first pass, for league `x` whose file is in `state`. */
  function ScanStep(s: Scan, x: string, state: CacheState, refetchCorrupt: bool): Scan {
    if state.FreshParsed? then
      Scan(s.cached[x := Ok(state.value)], s.requested)
    else if NeedsRequest(state, refetchCorrupt) && x !in s.requested then
      Scan(s.cached, s.requested + [x])
    else
      s
  }

  /** `r` lists its elements in the order of their first occurrence in
      `ids`: wherever a later element of `r` occurs in `ids`, every earlier
      element of `r` has already occurred. */
  predicate InFirstOccurrenceOrder(r: seq<string>, ids: seq<string>) {
    forall i, j, q :: 0 <= i < j < |r| && 0 <= q < |ids| && ids[q] == r[j] ==> r[i] in ids[..q]
  }

  lemma OrderSurvivesExtension(r: seq<string>, front: seq<string>, x: string)
    requires forall y :: y in r ==> y in front
    requires InFirstOccurrenceOrder(r, front)
    ensures InFirstOccurrenceOrder(r, front + [x])
  {
    var ids := front + [x];
    forall i, j, q | 0 <= i < j < |r| && 0 <= q < |ids| && ids[q] == r[j]
      ensures r[i] in ids[..q]
    {
      if q < |front| {
        assert ids[..q] == front[..q];
      } else {
        assert ids[..q] == front;
      }
    }
  }

  lemma OrderSurvivesAppend(r: seq<string>, front: seq<string>, x: string)
    requires forall y :: y in r ==> y in front
    requires x !in front
    requires InFirstOccurrenceOrder(r, front)
    ensures InFirstOccurrenceOrder(r + [x], front + [x])
  {
    var ids := front + [x];
    var r' := r + [x];
    forall i, j, q | 0 <= i < j < |r'| && 0 <= q < |ids| && ids[q] == r'[j]
      ensures r'[i] in ids[..q]
    {
      assert r'[i] == r[i];
      if q < |front| {
        assert ids[..q] == front[..q];
        assert ids[q] == front[q];
        assert r'[j] == r[j];
      } else {
        assert ids[..q] == front;
      }
    }
  }

  /** The leagues are requested in the order of their first occurrence in
      `league_ids`. */
  lemma {:induction false} RequestsFollowFirstOccurrence(store: Store, ids: seq<string>, now: int, refetchCorrupt: bool)
    ensures InFirstOccurrenceOrder(ScanLeagues(store, ids, now, refetchCorrupt).requested, ids)
    decreases |ids|
  {
    if |ids| > 0 {
      var front := ids[..|ids| - 1];
      var x := ids[|ids| - 1];
      assert ids == front + [x];
      RequestsFollowFirstOccurrence(store, front, now, refetchCorrupt);
      var before := ScanLeagues(store, front, now, refetchCorrupt).requested;
      if ScanLeagues(store, ids, now, refetchCorrupt).requested == before {
        OrderSurvivesExtension(before, front, x);
      } else {
        OrderSurvivesAppend(before, front, x);
      }
    }
  }

  /** No position of `keys` after `i` and before `n` repeats `keys[i]`. */
  predicate LastBefore(keys: seq<string>, i: nat, n: nat)
    requires i < n <= |keys|
  {
    forall j :: i < j < n ==> keys[j] != keys[i]
  }

  /** The zip loop: for each of the first `n` positions, `results[keys[i]]`
      is set to `responses[i]`, later positions overwriting earlier ones. */
  function Record(base: map<string, Response>, keys: seq<string>, responses: seq<Response>, n: nat): (r: map<string, Response>)
    requires n <= |keys| && n <= |responses|
    decreases n
    ensures forall k :: k in r <==> k in base || k in keys[..n]
    ensures forall k :: k in base && k !in keys[..n] ==> r[k] == base[k]
    ensures forall i :: 0 <= i < n && LastBefore(keys, i, n) ==> r[keys[i]] == responses[i]
  {
    if n == 0 then base
    else
      var r := Record(base, keys, responses, n - 1);
      assert keys[..n] == keys[..n - 1] + [keys[n - 1]];
      assert forall i :: 0 <= i < n - 1 && LastBefore(keys, i, n) ==> LastBefore(keys, i, n - 1);
      r[keys[n - 1] := responses[n - 1]]
  }

  /** The zip loop over keys that do not repeat: every key gets its own
      response. */
  function RecordDistinct(base: map<string, Response>, keys: seq<string>, responses: seq<Response>): (r: map<string, Response>)
    requires Distinct(keys) && |keys| == |responses|
    ensures forall k :: k in r <==> k in base || k in keys
    ensures forall k :: k in base && k !in keys ==> r[k] == base[k]
    ensures forall i :: 0 <= i < |keys| ==> r[keys[i]] == responses[i]
  {
    assert keys[..|keys|] == keys;
    assert forall i :: 0 <= i < |keys| ==> LastBefore(keys, i, |keys|);
    Record(base, keys, responses, |keys|)
  }

  /** The pairs `zip` yields. */
  function Zip<A, B>(a: seq<A>, b: seq<B>): (z: seq<(A, B)>)
    ensures |z| == if |a| <= |b| then |a| else |b|
    ensures forall i :: 0 <= i < |z| ==> z[i] == (a[i], b[i])
  {
    if |a| == 0 || |b| == 0 then [] else [(a[0], b[0])] + Zip(a[1..], b[1..])
  }

  /** A finished batch: the results returned, the leagues requested (one
      request each, in order) and the cache writes made (league id and the
      value dumped to its file, in order). */
  datatype Batch = Batch(results: map<string, Response>, requests: seq<string>, writes: seq<(string, Response)>)

  /** `request_league_info` as written: the responses are zipped with
      `league_ids`, not with the leagues that were requested. */
  function RequestLeagueInfo(store: Store, ids: seq<string>, now: int, responses: seq<Response>): (b: Batch)
    requires |responses| == |ScanLeagues(store, ids, now, false).requested|
    ensures b.requests == ScanLeagues(store, ids, now, false).requested
    ensures Distinct(b.requests)
    ensures forall x :: x in b.requests <==> x in ids && IsTooOld(StatOf(store, LeaguePath(x)), now, DefaultMaxAge)
    ensures InFirstOccurrenceOrder(b.requests, ids)
    ensures |b.writes| == |responses| <= |ids|
    ensures forall i :: 0 <= i < |responses| ==> b.writes[i] == (ids[i], responses[i])
    ensures forall x :: x in b.results <==>
              (x in ids && LeagueState(store, x, now).FreshParsed?) || x in ids[..|responses|]
    ensures forall x :: x in ids && LeagueState(store, x, now).FreshParsed? && x !in ids[..|responses|] ==>
              b.results[x] == Ok(LeagueState(store, x, now).value)
    ensures forall i :: 0 <= i < |responses| && LastBefore(ids, i, |responses|) ==>
              b.results[ids[i]] == responses[i]
  {
    var s := ScanLeagues(store, ids, now, false);
    RequestsFollowFirstOccurrence(store, ids, now, false);
    var results := Record(s.cached, ids, responses, |responses|);
    Batch(results, s.requested, Zip(ids, responses))
  }

  /** Without duplicates and without any fresh file, every league is
      requested, in `league_ids` order. */
  lemma {:induction false} AllRequestedInOrder(store: Store, ids: seq<string>, now: int, refetchCorrupt: bool)
    requires Distinct(ids)
    requires forall x :: x in ids ==> NeedsRequest(LeagueState(store, x, now), refetchCorrupt)
    ensures ScanLeagues(store, ids, now, refetchCorrupt).requested == ids
    decreases |ids|
  {
    if |ids| > 0 {
      var front := ids[..|ids| - 1];
      var x := ids[|ids| - 1];
      assert ids == front + [x];
      AllRequestedInOrder(store, front, now, refetchCorrupt);
      assert x !in front;
    }
  }

  /** When no league is served from the cache and no id repeats, the
      positional pairing is right: the i-th request is for `league_ids[i]`,
      so each response is recorded (and, by the batch's contract, written)
      under the league it answers. */
  lemma AssociationCorrectWithoutCacheHits(store: Store, ids: seq<string>, now: int, responses: seq<Response>)
    requires Distinct(ids)
    requires forall x :: x in ids ==> IsTooOld(StatOf(store, LeaguePath(x)), now, DefaultMaxAge)
    requires |responses| == |ScanLeagues(store, ids, now, false).requested|
    ensures RequestLeagueInfo(store, ids, now, responses).requests == ids
    ensures forall i :: 0 <= i < |responses| ==>
              RequestLeagueInfo(store, ids, now, responses).results[ids[i]] == responses[i]
  {
    AllRequestedInOrder(store, ids, now, false);
    forall i | 0 <= i < |responses|
      ensures LastBefore(ids, i, |responses|)
    {
    }
  }

  /** The exact condition for the positional pairing to be right: every
      write is keyed by the league its response answers iff the first
      `|responses|` entries of `league_ids` are the requested leagues. */
  lemma PairingCorrectIff(store: Store, ids: seq<string>, now: int, responses: seq<Response>)
    requires |responses| == |ScanLeagues(store, ids, now, false).requested|
    ensures var b := RequestLeagueInfo(store, ids, now, responses);
      (forall i :: 0 <= i < |responses| ==> b.writes[i].0 == b.requests[i]) <==> ids[..|responses|] == b.requests
  {
    var b := RequestLeagueInfo(store, ids, now, responses);
    PositionalMatch(ids, b.requests);
  }

  /** `keys` agrees position by position with `r` exactly when `r` is the
      prefix of `keys` of its own length. */
  lemma PositionalMatch(keys: seq<string>, r: seq<string>)
    requires |r| <= |keys|
    ensures (forall i :: 0 <= i < |r| ==> keys[i] == r[i]) <==> keys[..|r|] == r
  {
    if forall i :: 0 <= i < |r| ==> keys[i] == r[i] {
      assert forall i :: 0 <= i < |r| ==> keys[..|r|][i] == r[i];
    }
  }

  /** When the first league is served from the cache and some league is
      requested, the first response answers a different league yet is
      recorded and written under the first one. */
  lemma CachedFirstLeagueTakesFirstResponse(store: Store, ids: seq<string>, now: int, responses: seq<Response>)
    requires Distinct(ids)
    requires |ids| > 0 && !IsTooOld(StatOf(store, LeaguePath(ids[0])), now, DefaultMaxAge)
    requires |responses| == |ScanLeagues(store, ids, now, false).requested| > 0
    ensures var b := RequestLeagueInfo(store, ids, now, responses);
      b.requests[0] != ids[0] && b.writes[0] == (ids[0], responses[0]) && b.results[ids[0]] == responses[0]
  {
    var b := RequestLeagueInfo(store, ids, now, responses);
    assert b.requests[0] in b.requests;
  }

  /** A concrete batch: league "a" has a fresh file, "b" has none. The one
      request is for "b", but its response is recorded and written under
      "a", and "b" is absent from the results. */
  lemma MisassociationExample(v: Json, w: Response)
    ensures var store := map[LeaguePath("a") := CacheFile(0, Parsed(v))];
      && |ScanLeagues(store, ["a", "b"], 10, false).requested| == 1
      && var b := RequestLeagueInfo(store, ["a", "b"], 10, [w]);
        b.requests == ["b"] && b.writes == [("a", w)] && b.results == map["a" := w]
  {
    var store := map[LeaguePath("a") := CacheFile(0, Parsed(v))];
    LeaguePathIsNotPlayerPath("a");
    assert LeaguePath("b") != LeaguePath("a") by {
      if LeaguePath("b") == LeaguePath("a") {
        LeaguePathInjective("b", "a");
      }
    }
    assert LeagueState(store, "b", 10) == Missing;
    assert ScanLeagues(store, ["a"], 10, false) == Scan(map["a" := Ok(v)], []) by {
      assert ["a"][..0] == [];
    }
    assert ["a", "b"][..1] == ["a"];
    var s := ScanLeagues(store, ["a", "b"], 10, false);
    assert s == Scan(map["a" := Ok(v)], ["b"]);
    assert Record(s.cached, ["a", "b"], [w], 1) == map["a" := w] by {
      assert Record(s.cached, ["a", "b"], [w], 0) == map["a" := Ok(v)];
    }
    assert Zip(["a", "b"], [w]) == [("a", w)];
    assert RequestLeagueInfo(store, ["a", "b"], 10, [w]) == Batch(map["a" := w], ["b"], [("a", w)]);
  }

  /** A fresh file that does not parse is never requested; unless the zip
      happens to reach its position, the league is absent from the results. */
  lemma FreshCorruptDropped(store: Store, ids: seq<string>, now: int, responses: seq<Response>, x: string)
    requires |responses| == |ScanLeagues(store, ids, now, false).requested|
    requires x in ids && LeagueState(store, x, now).FreshCorrupt?
    ensures x !in RequestLeagueInfo(store, ids, now, responses).requests
    ensures x !in ids[..|responses|] ==> x !in RequestLeagueInfo(store, ids, now, responses).results
  {
  }

  /** The second half of the intended batch: each response is recorded and
      written under the league it was requested for. */
  function RecordRequested(s: Scan, responses: seq<Response>): (b: Batch)
    requires Distinct(s.requested) && |responses| == |s.requested|
    ensures b.requests == s.requested
    ensures forall x :: x in b.results <==> x in s.cached || x in s.requested
    ensures forall x :: x in s.cached && x !in s.requested ==> b.results[x] == s.cached[x]
    ensures |b.writes| == |responses|
    ensures forall i :: 0 <= i < |s.requested| ==>
              b.results[s.requested[i]] == responses[i] && b.writes[i] == (s.requested[i], responses[i])
  {
    Batch(RecordDistinct(s.cached, s.requested, responses), s.requested, Zip(s.requested, responses))
  }

  /** With corrupt files refetched, the first pass accounts for every id:
      each is either served from the cache or requested, never both. */
  lemma ScanCoversIds(store: Store, ids: seq<string>, now: int)
    ensures var s := ScanLeagues(store, ids, now, true);
      && (forall x :: x in s.requested <==> x in ids && !LeagueState(store, x, now).FreshParsed?)
      && (forall x :: x in ids <==> x in s.cached || x in s.requested)
      && (forall x :: x in s.cached ==> x !in s.requested)
  {
  }

  /** The batch as evidently intended: a fresh file that does not parse is
      refetched, like the player file, and each response is recorded and
      written under the league it was requested for. */
  function RequestLeagueInfoKeyed(store: Store, ids: seq<string>, now: int, responses: seq<Response>): (b: Batch)
    requires |responses| == |ScanLeagues(store, ids, now, true).requested|
    ensures Distinct(b.requests)
    ensures forall x :: x in b.requests <==> x in ids && !LeagueState(store, x, now).FreshParsed?
    ensures InFirstOccurrenceOrder(b.requests, ids)
    ensures forall x :: x in b.results <==> x in ids
    ensures forall x :: x in ids && LeagueState(store, x, now).FreshParsed? ==>
              b.results[x] == Ok(LeagueState(store, x, now).value)
    ensures |b.writes| == |b.requests| == |responses|
    ensures forall i :: 0 <= i < |b.requests| ==>
              b.results[b.requests[i]] == responses[i] && b.writes[i] == (b.requests[i], responses[i])
  {
    RequestsFollowFirstOccurrence(store, ids, now, true);
    ScanCoversIds(store, ids, now);
    RecordRequested(ScanLeagues(store, ids, now, true), responses)
  }

  /** The intended batch agrees with the written one whenever no league was
      served from the cache and every fresh file parses. */
  lemma KeyedAgreesWithoutCacheHits(store: Store, ids: seq<string>, now: int, responses: seq<Response>)
    requires Distinct(ids)
    requires forall x :: x in ids ==> IsTooOld(StatOf(store, LeaguePath(x)), now, DefaultMaxAge)
    requires |responses| == |ids|
    ensures ScanLeagues(store, ids, now, false).requested == ids
    ensures ScanLeagues(store, ids, now, true).requested == ids
    ensures RequestLeagueInfoKeyed(store, ids, now, responses) == RequestLeagueInfo(store, ids, now, responses)
  {
    AllRequestedInOrder(store, ids, now, false);
    AllRequestedInOrder(store, ids, now, true);
    var a := RequestLeagueInfoKeyed(store, ids, now, responses);
    var b := RequestLeagueInfo(store, ids, now, responses);
    AssociationCorrectWithoutCacheHits(store, ids, now, responses);
    assert ScanLeagues(store, ids, now, false).cached == map[];
    assert ScanLeagues(store, ids, now, true).cached == map[];
  }
}
