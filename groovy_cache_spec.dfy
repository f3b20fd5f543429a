/**
 * The script cache of GroovyService as values: what `loadGroovyClass` and
 * `cleanGroovyCache` do to the map from file name to cache entry, with the
 * file system, the clock and the Groovy compiler passed in.  The classes in
 * module GroovyService are proved to follow these functions.
 */
module GroovyCacheSpec {
  import opened Wrappers

  /** A compiled Groovy class, opaque to the cache. */
  datatype GroovyClass = GroovyClass(handle: nat)

  /** The fields of one GroovyClassInfo: the compiled class, the file's
      modification time when it was loaded, the last access in seconds, and
      the number of invocations running against it. */
  datatype Info = Info(gclass: GroovyClass, lastModified: int, lastAccess: int, executing: nat)

  /** ProcessServlet.MaxHold and ProcessServlet.CheckCacheDelay, in seconds. */
  datatype Config = Config(maxHold: int, checkCacheDelay: int)

  /** The static map `groovyClassCache` and the static `cacheLastChecked`. */
  datatype CacheState = CacheState(entries: map<string, Info>, cacheLastChecked: int)

  /** The existing files and their modification times. */
  type FileSystem = map<string, int>

  /** java.io.File.lastModified(): the modification time, 0 for a missing file. */
  function LastModified(fs: FileSystem, path: string): int {
    if path in fs then fs[path] else 0
  }

  /** java.io.File.exists(). */
  predicate Exists(fs: FileSystem, path: string) {
    path in fs
  }

  /** The throttle of the sweep: a strict comparison with the delay. */
  predicate SweepDue(cacheLastChecked: int, now: int, cfg: Config) {
    now - cacheLastChecked > cfg.checkCacheDelay
  }

  /** An entry the sweep drops: idle, and unused for longer than MaxHold. */
  predicate Evictable(e: Info, now: int, cfg: Config) {
    e.executing == 0 && now - e.lastAccess > cfg.maxHold
  }

  /** What a cache operation may do to an entry it keeps: nothing, or, for an
      entry that is executing, move its last access to `now`. */
  predicate Refreshed(before: Info, after: Info, now: int) {
    after == before || (before.executing > 0 && after == before.(lastAccess := now))
  }

  /** What the scan does to an entry it keeps: an executing entry counts as
      used now, an idle one is left alone. */
  function Touched(e: Info, now: int): (r: Info)
    ensures Refreshed(e, r, now)
    ensures r.executing > 0 ==> r.lastAccess == now
  {
    if e.executing > 0 then e.(lastAccess := now) else e
  }

  /** One scan of the sweep over all entries. */
  function Swept(entries: map<string, Info>, now: int, cfg: Config): (r: map<string, Info>)
    ensures r.Keys <= entries.Keys
    ensures forall k :: k in entries ==> (k in r <==> !Evictable(entries[k], now, cfg))
    ensures forall k :: k in entries && entries[k].executing > 0 ==>
              k in r && r[k] == entries[k].(lastAccess := now)
    ensures forall k :: k in r && entries[k].executing == 0 ==> r[k] == entries[k]
  {
    map k | k in entries && !Evictable(entries[k], now, cfg) :: Touched(entries[k], now)
  }

  /** Removing the evictable names and touching the rest is the scan. */
  lemma SweptByParts(before: map<string, Info>, keys: set<string>, after: map<string, Info>, now: int, cfg: Config)
    requires keys == set k | k in before && Evictable(before[k], now, cfg)
    requires after.Keys == before.Keys - keys
    requires forall k :: k in after ==> after[k] == Touched(before[k], now)
    ensures after == Swept(before, now, cfg)
  {
  }

  /** `cleanGroovyCache`: a scan when the delay has passed, otherwise nothing. */
  function Cleaned(c: CacheState, now: int, cfg: Config): (r: CacheState)
    ensures !SweepDue(c.cacheLastChecked, now, cfg) ==> r == c
    ensures SweepDue(c.cacheLastChecked, now, cfg) ==> r.cacheLastChecked == now
    ensures SweepDue(c.cacheLastChecked, now, cfg) ==>
              forall k :: k in c.entries ==> (k in r.entries <==> !Evictable(c.entries[k], now, cfg))
    ensures r.entries.Keys <= c.entries.Keys
    ensures forall k :: k in r.entries ==> Refreshed(c.entries[k], r.entries[k], now)
  {
    if SweepDue(c.cacheLastChecked, now, cfg) then CacheState(Swept(c.entries, now, cfg), now) else c
  }

  /** The cache after a lookup, and the entry returned (None for null). */
  datatype Lookup = Lookup(cache: CacheState, found: Option<Info>)

  /** The end of `loadGroovyClass`, on a swept cache without an entry for
      `path`: if the file exists, compile it and cache the result.
      `compiled` is what `new GroovyClass(false, fileName)` gives, None when
      it throws. */
  function Compiled(c: CacheState, path: string, fs: FileSystem, now: int,
                    compiled: Option<GroovyClass>): (r: Lookup)
    requires path !in c.entries
    ensures r.found.None? <==> !Exists(fs, path) || compiled.None?
    ensures r.found.None? ==> r.cache == c
    ensures r.found.Some? ==>
              && r.found == Some(Info(compiled.value, LastModified(fs, path), now, 0))
              && r.cache == c.(entries := c.entries[path := r.found.value])
  {
    if !Exists(fs, path) then Lookup(c, None)
    else match compiled
      case None => Lookup(c, None)
      case Some(g) =>
        var e := Info(g, LastModified(fs, path), now, 0);
        Lookup(c.(entries := c.entries[path := e]), Some(e))
  }

  /** The part of `loadGroovyClass` after the cached entry has been ruled out:
      sweep, then compile and cache. */
  function LoadMiss(c: CacheState, path: string, fs: FileSystem, now: int,
                    compiled: Option<GroovyClass>, cfg: Config): (r: Lookup)
    requires path !in c.entries
    ensures r.found.None? <==> !Exists(fs, path) || compiled.None?
    ensures r.found.None? ==> path !in r.cache.entries
    ensures r.found.Some? ==> compiled.Some? && r.found == Some(Info(compiled.value, LastModified(fs, path), now, 0))
    ensures r.found.Some? ==> path in r.cache.entries && r.cache.entries[path] == r.found.value
    ensures r.cache.cacheLastChecked == Cleaned(c, now, cfg).cacheLastChecked
    ensures forall k :: k in c.entries ==> (k in r.cache.entries <==> k in Cleaned(c, now, cfg).entries)
  {
    Compiled(Cleaned(c, now, cfg), path, fs, now, compiled)
  }

  /** `loadGroovyClass(path)`: reuse, reload or load the script at `path`. */
  function Loaded(c: CacheState, path: string, fs: FileSystem, now: int,
                  compiled: Option<GroovyClass>, cfg: Config): (r: Lookup)
    ensures !Exists(fs, path) ==> r.found.None?
    ensures r.found.None? ==> path !in r.cache.entries
    ensures r.found.Some? ==>
              r.found.value.lastModified == LastModified(fs, path) && r.found.value.lastAccess == now
    ensures r.cache.entries.Keys <= c.entries.Keys + {path}
    ensures forall k :: k in r.cache.entries && k != path ==>
              k in c.entries && Refreshed(c.entries[k], r.cache.entries[k], now)
  {
    if path in c.entries then
      var e := c.entries[path];
      var lastModified := LastModified(fs, path);
      if lastModified == 0 then
        Lookup(c.(entries := c.entries - {path}), None)
      else if lastModified == e.lastModified then
        var hit := e.(lastAccess := now);
        Lookup(Cleaned(c.(entries := c.entries[path := hit]), now, cfg), Some(hit))
      else
        LoadMiss(c.(entries := c.entries - {path}), path, fs, now, compiled, cfg)
    else
      LoadMiss(c, path, fs, now, compiled, cfg)
  }

  /** Every lookup but the one that finds its cached file gone runs the
      throttled sweep: the time of the last sweep and the other keys kept are
      those of `Cleaned` on the cache as it was. */
  lemma {:induction false} LookupSweeps(c: CacheState, path: string, fs: FileSystem, now: int,
                                        compiled: Option<GroovyClass>, cfg: Config)
    requires !(path in c.entries && LastModified(fs, path) == 0)
    ensures var r := Loaded(c, path, fs, now, compiled, cfg);
            && r.cache.cacheLastChecked == Cleaned(c, now, cfg).cacheLastChecked
            && forall k :: k in c.entries && k != path ==>
                 (k in r.cache.entries <==> k in Cleaned(c, now, cfg).entries)
  {
  }

  /** A cached entry whose file is unchanged is returned as it is, with its
      last access moved to now, and nothing is compiled: the result does not
      depend on what the compiler would have produced. */
  lemma CacheHit(c: CacheState, path: string, fs: FileSystem, now: int,
                 compiled: Option<GroovyClass>, other: Option<GroovyClass>, cfg: Config)
    requires path in c.entries
    requires LastModified(fs, path) != 0 && LastModified(fs, path) == c.entries[path].lastModified
    ensures Loaded(c, path, fs, now, compiled, cfg) == Loaded(c, path, fs, now, other, cfg)
    ensures Loaded(c, path, fs, now, compiled, cfg).found == Some(c.entries[path].(lastAccess := now))
  {
  }

  /** A cached entry whose file has vanished is dropped and null is returned;
      no sweep runs on this path. */
  lemma VanishedFileDropsEntry(c: CacheState, path: string, fs: FileSystem, now: int,
                               compiled: Option<GroovyClass>, cfg: Config)
    requires path in c.entries && LastModified(fs, path) == 0
    ensures Loaded(c, path, fs, now, compiled, cfg) == Lookup(c.(entries := c.entries - {path}), None)
  {
  }

  /** A cached entry whose file changed is dropped before the reload: a
      successful reload caches a new entry with the new time, an idle counter
      and the current access time; a failed one leaves no entry at all. */
  lemma ChangedFileReloads(c: CacheState, path: string, fs: FileSystem, now: int,
                           compiled: Option<GroovyClass>, cfg: Config)
    requires path in c.entries
    requires LastModified(fs, path) != 0 && LastModified(fs, path) != c.entries[path].lastModified
    ensures var r := Loaded(c, path, fs, now, compiled, cfg);
            match compiled
            case None => r.found.None? && path !in r.cache.entries
            case Some(g) =>
              r.found == Some(Info(g, LastModified(fs, path), now, 0))
              && path in r.cache.entries && r.cache.entries[path] == r.found.value
  {
  }

  /** With a non-negative MaxHold, whatever a lookup returns is what the cache
      holds for that path afterwards. */
  lemma {:induction false} FoundIsCached(c: CacheState, path: string, fs: FileSystem, now: int,
                                         compiled: Option<GroovyClass>, cfg: Config)
    requires cfg.maxHold >= 0
    ensures var r := Loaded(c, path, fs, now, compiled, cfg);
            r.found.Some? <==> path in r.cache.entries
    ensures var r := Loaded(c, path, fs, now, compiled, cfg);
            r.found.Some? ==> r.cache.entries[path] == r.found.value
  {
    var r := Loaded(c, path, fs, now, compiled, cfg);
    if path in c.entries {
      var e := c.entries[path];
      var lastModified := LastModified(fs, path);
      if lastModified != 0 && lastModified == e.lastModified {
        var hit := e.(lastAccess := now);
        var c' := c.(entries := c.entries[path := hit]);
        assert !Evictable(hit, now, cfg);
        assert r.cache == Cleaned(c', now, cfg);
      }
    }
  }

  /** On a hit the source reads the clock twice: once for the entry's last
      access and again in the sweep that follows.  With the hit at `tHit` and
      a due sweep at `tSweep`, an idle hit entry survives exactly when
      `tSweep - tHit <= MaxHold`; the model's single `now` is the case
      `tSweep == tHit`. */
  lemma {:induction false} HitSurvivesLaterSweep(c: CacheState, path: string, tHit: int, tSweep: int,
                                                 cfg: Config)
    requires path in c.entries && c.entries[path].executing == 0
    requires SweepDue(c.cacheLastChecked, tSweep, cfg)
    ensures var hit := c.(entries := c.entries[path := c.entries[path].(lastAccess := tHit)]);
            path in Cleaned(hit, tSweep, cfg).entries <==> tSweep - tHit <= cfg.maxHold
  {
    var hit := c.(entries := c.entries[path := c.entries[path].(lastAccess := tHit)]);
    assert !Evictable(hit.entries[path], tSweep, cfg) <==> tSweep - tHit <= cfg.maxHold;
  }

  /** Two lookups of an unchanged file: the second one is a cache hit on the
      entry the first one returned (same compiled class, same counter), with
      only its last access moved, whatever the compiler would do. */
  lemma {:induction false} SecondLookupHits(c: CacheState, path: string, fs: FileSystem,
                                            t1: int, t2: int, o1: Option<GroovyClass>,
                                            o2: Option<GroovyClass>, cfg: Config)
    requires cfg.maxHold >= 0
    requires LastModified(fs, path) != 0
    requires Loaded(c, path, fs, t1, o1, cfg).found.Some?
    ensures var r1 := Loaded(c, path, fs, t1, o1, cfg);
            var r2 := Loaded(r1.cache, path, fs, t2, o2, cfg);
            r2.found == Some(r1.found.value.(lastAccess := t2))
  {
    var r1 := Loaded(c, path, fs, t1, o1, cfg);
    FoundIsCached(c, path, fs, t1, o1, cfg);
    CacheHit(r1.cache, path, fs, t2, o2, o2, cfg);
  }

  /** A file that exists with modification time 0 is compiled on a miss (the
      miss path asks `exists()`), but the next lookup takes the 0 for "file
      gone" (the cached path tests the time), drops the entry and returns
      null although the file is there. */
  lemma {:induction false} EpochFileDroppedOnNextLookup(c: CacheState, path: string, fs: FileSystem,
                                                        t1: int, t2: int, g: GroovyClass,
                                                        o2: Option<GroovyClass>, cfg: Config)
    requires path !in c.entries
    requires Exists(fs, path) && fs[path] == 0
    ensures var r1 := Loaded(c, path, fs, t1, Some(g), cfg);
            r1.found == Some(Info(g, 0, t1, 0)) && path in r1.cache.entries
    ensures var r1 := Loaded(c, path, fs, t1, Some(g), cfg);
            var r2 := Loaded(r1.cache, path, fs, t2, o2, cfg);
            r2.found.None? && path !in r2.cache.entries
  {
    var r1 := Loaded(c, path, fs, t1, Some(g), cfg);
    assert r1 == LoadMiss(c, path, fs, t1, Some(g), cfg);
    VanishedFileDropsEntry(r1.cache, path, fs, t2, o2, cfg);
  }

  /** The sweep never removes an entry that is executing, however long it has
      been idle, and it marks such an entry as used now. */
  lemma {:induction false} SweepSparesExecuting(c: CacheState, now: int, cfg: Config, k: string)
    requires k in c.entries && c.entries[k].executing > 0
    ensures k in Cleaned(c, now, cfg).entries
    ensures SweepDue(c.cacheLastChecked, now, cfg) ==>
              Cleaned(c, now, cfg).entries[k] == c.entries[k].(lastAccess := now)
  {
    if SweepDue(c.cacheLastChecked, now, cfg) {
      assert !Evictable(c.entries[k], now, cfg);
    }
  }
}
