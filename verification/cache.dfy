/** The on-disk cache: one file per resource, identified by its path. A file
    has a modification time and contents that either parse as JSON or do
    not. Reading and writing are modelled as operations on a map. */
module CacheStore {
  import opened JsonValue
  import opened Freshness

  /** What reading a cache file yields. */
  datatype Contents = Parsed(value: Json) | Corrupt

  datatype CacheFile = CacheFile(mtime: int, contents: Contents)

  /** Every cache file that exists, by path. */
  type Store = map<string, CacheFile>

  /** How a fetch sees one cache file at a given time. */
  datatype CacheState = Missing | Stale | FreshParsed(value: Json) | FreshCorrupt

  const CacheDir: string := "data/.cache/"
  const PlayerPath: string := CacheDir + "player_data.json"
  const LeaguePrefix: string := CacheDir + "league_info_"
  const JsonSuffix: string := ".json"

  /** The cache file of one league. */
  function LeaguePath(leagueId: string): string {
    LeaguePrefix + leagueId + JsonSuffix
  }

  /** What `os.path.exists` and `os.path.getmtime` report for a path. */
  function StatOf(store: Store, path: string): FileStat {
    if path in store then Modified(store[path].mtime) else NoFile
  }

  /** The state a fetch finds: the freshness test first, then, for a fresh
      file only, an attempt to parse it. */
  function Classify(store: Store, path: string, now: int, maxAge: int): (s: CacheState)
    ensures (s.Missing? || s.Stale?) <==> IsTooOld(StatOf(store, path), now, maxAge)
    ensures s.Missing? <==> path !in store
    ensures s.FreshParsed? ==> path in store && store[path].contents == Parsed(s.value)
    ensures s.FreshCorrupt? ==> path in store && store[path].contents == Corrupt
  {
    if IsTooOld(StatOf(store, path), now, maxAge) then
      if path in store then Stale else Missing
    else
      match store[path].contents
      case Parsed(v) => FreshParsed(v)
      case Corrupt => FreshCorrupt
  }

  /** Writing a payload replaces the file and stamps it with the current time. */
  function Write(store: Store, path: string, payload: Json, now: int): (s': Store)
    ensures path in s' && s'[path] == CacheFile(now, Parsed(payload))
    ensures forall p :: p != path ==> (p in s' <==> p in store)
    ensures forall p :: p != path && p in store ==> s'[p] == store[p]
  {
    store[path := CacheFile(now, Parsed(payload))]
  }

  /** A payload read back within its freshness window is the payload that
      was written. */
  lemma WriteThenClassify(store: Store, path: string, payload: Json, now: int, later: int, maxAge: int)
    requires later <= now + maxAge
    ensures Classify(Write(store, path, payload, now), path, later, maxAge) == FreshParsed(payload)
  {
  }

  /** Writing one file does not change how any other file is seen. */
  lemma WriteIsLocal(store: Store, path: string, payload: Json, now: int, other: string, later: int, maxAge: int)
    requires other != path
    ensures Classify(Write(store, path, payload, now), other, later, maxAge) == Classify(store, other, later, maxAge)
  {
    assert StatOf(Write(store, path, payload, now), other) == StatOf(store, other);
  }

  /** Distinct leagues have distinct cache files. */
  lemma LeaguePathInjective(a: string, b: string)
    requires LeaguePath(a) == LeaguePath(b)
    ensures a == b
  {
    var n := |LeaguePrefix|;
    assert |a| == |b|;
    assert LeaguePath(a)[n..n + |a|] == a;
    assert LeaguePath(b)[n..n + |b|] == b;
  }

  /** No league's cache file is the player cache file. */
  lemma LeaguePathIsNotPlayerPath(leagueId: string)
    ensures LeaguePath(leagueId) != PlayerPath
  {
    assert LeaguePath(leagueId)[12] == 'l';
    assert PlayerPath[12] == 'p';
  }
}
