/** The cache freshness predicate `_is_cache_file_too_old`: a pure function
    of whether the file exists, its modification time, the current time and
    the maximum age. Times are whole seconds. */
module Freshness {

  /** The default maximum age of a cache file: one day, in seconds. */
  const DefaultMaxAge: int := 86400

  /** What the file system reports about a cache file. */
  datatype FileStat = NoFile | Modified(mtime: int)

  /** True when the cache file must be refreshed. */
  predicate IsTooOld(stat: FileStat, now: int, maxAge: int) {
    match stat
    case NoFile => true
    case Modified(mtime) => now - mtime > maxAge
  }

  /** A missing file is too old at every time and for every maximum age. */
  lemma MissingIsAlwaysTooOld(now: int, maxAge: int)
    ensures IsTooOld(NoFile, now, maxAge)
  {
  }

  /** The comparison is strict: a file exactly `maxAge` seconds old is still
      fresh, and one second later it is too old. */
  lemma StrictBoundary(mtime: int, maxAge: int)
    ensures !IsTooOld(Modified(mtime), mtime + maxAge, maxAge)
    ensures IsTooOld(Modified(mtime), mtime + maxAge + 1, maxAge)
  {
  }

  /** An existing file is fresh exactly during the window that ends
      `maxAge` seconds after it was modified (a modification time in the
      future counts as fresh). */
  lemma FreshWindow(mtime: int, now: int, maxAge: int)
    ensures !IsTooOld(Modified(mtime), now, maxAge) <==> now <= mtime + maxAge
  {
  }

  /** Once too old, a file stays too old as time passes. */
  lemma TooOldIsPermanent(stat: FileStat, now: int, later: int, maxAge: int)
    requires now <= later
    requires IsTooOld(stat, now, maxAge)
    ensures IsTooOld(stat, later, maxAge)
  {
  }

  /** A larger maximum age never turns a fresh file into a stale one. */
  lemma LongerMaxAgeKeepsFresh(stat: FileStat, now: int, maxAge: int, longer: int)
    requires maxAge <= longer
    requires !IsTooOld(stat, now, maxAge)
    ensures !IsTooOld(stat, now, longer)
  {
  }
}
