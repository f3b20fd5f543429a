/**
 * GroovyService's hot-reload cache as the source keeps it: a mutable map from
 * file name to GroovyClassInfo objects, updated in place by lookups, sweeps
 * and the `executing` guard around invocations.  Every method is proved to
 * act on the cache exactly as the functions of GroovyCacheSpec say.
 *
 * Collaborators are parameters: the file system (`fs`), the clock (`now`, in
 * seconds), what the Groovy compiler yields for a file (`compiled`) and how
 * the reflective calls on the compiled class turn out.
 */
module GroovyService {
  import opened Wrappers
  import opened GroovyCacheSpec
  import opened GroovyPaths

  /** One cache entry.  Its counters are changed in place, also after the entry
      has left the map while a caller still holds it. */
  class GroovyClassInfo {
    const gclass: GroovyClass
    const lastModified: int
    var lastAccess: int
    var executing: nat

    ghost function View(): Info
      reads this
    {
      Info(gclass, lastModified, lastAccess, executing)
    }

    constructor (gc: GroovyClass, lm: int, now: int)
      ensures View() == Info(gc, lm, now, 0)
    {
      gclass := gc;
      lastModified := lm;
      lastAccess := now;
      executing := 0;
    }

    /** One step of the scan of `cleanGroovyCache`: an executing entry is
        marked as used now; an idle one is reported when it has been unused
        for longer than MaxHold. */
    method Scan(now: int, config: Config) returns (evict: bool)
      modifies this`lastAccess
      ensures View() == Touched(old(View()), now)
      ensures evict == Evictable(old(View()), now, config)
    {
      evict := false;
      if executing > 0 {
        lastAccess := now;
      } else if now - lastAccess > config.maxHold {
        evict := true;
      }
    }

    /** The `try { executing++; ... } finally { executing--; }` block of
        `tryGroovy`: create an instance, look the method up, invoke it.  The
        counter is one higher while these run and is restored on every exit. */
    method RunGuarded(construct: Completion, member: MemberLookup, invoke: Completion)
      returns (r: ExecutionReturn, ghost executingDuringCall: nat)
      modifies this`executing
      ensures View() == old(View())
      ensures executingDuringCall == old(executing) + 1
      ensures r == if construct == Returns && member == MemberFound && invoke == Returns then Success else Error
    {
      executing := executing + 1;
      executingDuringCall := executing;
      if construct == Raises {
        r := Error;
      } else if member != MemberFound {
        // a null Method fails when it is invoked, in the same handler
        r := Error;
      } else if invoke == Raises {
        r := Error;
      } else {
        r := Success;
      }
      executing := executing - 1;
    }

    /** The `try { executing++; invoke } finally { executing--; }` block of
        `internalGroovy`: the counter is restored whether the method returns
        or raises. */
    method InvokeGuarded(invoke: Completion) returns (completed: bool, ghost executingDuringCall: nat)
      modifies this`executing
      ensures View() == old(View())
      ensures executingDuringCall == old(executing) + 1
      ensures completed == (invoke == Returns)
    {
      executing := executing + 1;
      executingDuringCall := executing;
      completed := invoke == Returns;
      executing := executing - 1;
    }
  }

  /** How GroovyClass.getMethod answers: a method, null, or an exception. */
  datatype MemberLookup = MemberFound | MemberNull | MemberThrows

  /** How a reflective call (a constructor or a method) ends. */
  datatype Completion = Returns | Raises

  /** ProcessServlet.ExecutionReturn. */
  datatype ExecutionReturn = Success | Error | NotFound

  /** The exceptions `getMethod` and `constructor` raise. */
  datatype Failure = FileNotFound | MethodNotFound | ConstructorFailed

  /** The answer of `getMethod` / `constructor`: the Method or instance, null,
      or an exception. */
  datatype Reply = Value | Null | Thrown(failure: Failure)

  /** The static state of GroovyService: the cache and the sweep time, with the
      configuration it reads. */
  class GroovyCache {
    var classCache: map<string, GroovyClassInfo>
    var cacheLastChecked: int
    const config: Config
    const applicationPath: string

    /** Each path owns its entry: no object is cached under two names. */
    ghost predicate Valid()
      reads this
    {
      forall k1, k2 :: k1 in classCache && k2 in classCache && k1 != k2 ==> classCache[k1] != classCache[k2]
    }

    /** The entries as values. */
    ghost function Snapshot(): map<string, Info>
      reads this, classCache.Values
    {
      map k | k in classCache :: classCache[k].View()
    }

    ghost function Abstract(): CacheState
      reads this, classCache.Values
    {
      CacheState(Snapshot(), cacheLastChecked)
    }

    /** Entries this cache still holds are the objects it held before. */
    twostate predicate KeepsObjects(except: string)
      reads this
    {
      forall k :: k in classCache && k != except ==> k in old(classCache) && classCache[k] == old(classCache)[k]
    }

    constructor (applicationPath: string, config: Config)
      ensures Valid() && this.applicationPath == applicationPath && this.config == config
      ensures Abstract() == CacheState(map[], 0)
    {
      this.applicationPath := applicationPath;
      this.config := config;
      classCache := map[];
      cacheLastChecked := 0;
    }

    /** The scan of `cleanGroovyCache`: every executing entry is marked as used
        now, and the names of the idle entries unused for longer than MaxHold
        are collected. */
    method ScanEntries(now: int) returns (keys: set<string>)
      requires Valid()
      modifies classCache.Values
      ensures keys == set k | k in classCache && Evictable(old(classCache[k].View()), now, config)
      ensures forall k :: k in classCache ==> classCache[k].View() == Touched(old(classCache[k].View()), now)
    {
      ghost var before := Snapshot();
      keys := {};
      var todo := classCache.Keys;
      while todo != {}
        invariant todo <= classCache.Keys
        invariant forall k :: k in classCache ==>
                    classCache[k].View() == if k in todo then before[k] else Touched(before[k], now)
        invariant forall k :: k in keys <==> k in classCache && k !in todo && Evictable(before[k], now, config)
        decreases todo
      {
        var key :| key in todo;
        var evict := classCache[key].Scan(now, config);
        if evict {
          keys := keys + {key};
        }
        todo := todo - {key};
      }
      assert keys == set k | k in classCache && Evictable(before[k], now, config);
    }

    /** `cleanGroovyCache`. */
    method CleanGroovyCache(now: int)
      requires Valid()
      modifies this, classCache.Values
      ensures Valid()
      ensures forall k :: k in classCache ==> k in old(classCache) && classCache[k] == old(classCache)[k]
      ensures Abstract() == Cleaned(old(Abstract()), now, config)
      ensures forall k :: k in old(classCache) ==>
                Refreshed(old(classCache[k].View()), old(classCache)[k].View(), now)
    {
      if now - cacheLastChecked > config.checkCacheDelay {
        Sweep(now);
      }
    }

    /** The body of `cleanGroovyCache` once the delay has passed: scan, drop
        the collected names, and note the time of the sweep. */
    method Sweep(now: int)
      requires Valid()
      modifies this, classCache.Values
      ensures Valid()
      ensures forall k :: k in classCache ==> k in old(classCache) && classCache[k] == old(classCache)[k]
      ensures Abstract() == CacheState(Swept(old(Snapshot()), now, config), now)
      ensures forall k :: k in old(classCache) ==>
                old(classCache)[k].View() == Touched(old(classCache[k].View()), now)
    {
      ghost var before := Snapshot();
      var keys := ScanEntries(now);
      classCache := classCache - keys;
      cacheLastChecked := now;
      SweptByParts(before, keys, Snapshot(), now, config);
    }

    /** `loadGroovyClass`: the entry for `fileName`, reused, reloaded or newly
        loaded, or null. */
    method LoadGroovyClass(fileName: string, fs: FileSystem, now: int, compiled: Option<GroovyClass>)
      returns (ci: GroovyClassInfo?)
      requires Valid()
      modifies this, classCache.Values
      ensures Valid()
      ensures var spec := Loaded(old(Abstract()), fileName, fs, now, compiled, config);
              Abstract() == spec.cache
              && (ci == null <==> spec.found.None?)
              && (ci != null ==> ci.View() == spec.found.value)
      ensures ci != null && fileName in old(classCache)
              && LastModified(fs, fileName) == old(classCache[fileName].lastModified) ==>
                ci == old(classCache[fileName])
      ensures ci != null && !(fileName in old(classCache)
              && LastModified(fs, fileName) == old(classCache[fileName].lastModified)) ==>
                fresh(ci)
      ensures ci != null && fileName in classCache ==> classCache[fileName] == ci
      ensures KeepsObjects(fileName)
      ensures forall k :: k in old(classCache) && k != fileName ==>
                Refreshed(old(classCache[k].View()), old(classCache)[k].View(), now)
      ensures fileName in old(classCache) ==>
                var e := old(classCache[fileName].View());
                old(classCache)[fileName].View() ==
                  if LastModified(fs, fileName) != 0 && LastModified(fs, fileName) == e.lastModified
                  then e.(lastAccess := now) else e
    {
      if fileName in classCache {
        ci := classCache[fileName];
        var lastModified := LastModified(fs, fileName);
        if lastModified == 0 {
          classCache := classCache - {fileName};
          assert Snapshot() == old(Snapshot()) - {fileName};
          return null;
        }
        if lastModified == ci.lastModified {
          ci.lastAccess := now;
          assert Snapshot() == old(Snapshot())[fileName := old(ci.View()).(lastAccess := now)];
          CleanGroovyCache(now);
          return ci;
        }
        classCache := classCache - {fileName};
        assert Snapshot() == old(Snapshot()) - {fileName};
        assert ci !in classCache.Values;
      }
      ci := LoadMissing(fileName, fs, now, compiled);
    }

    /** The part of `loadGroovyClass` once no usable entry is cached: sweep,
        then compile the file if it exists and cache the new entry. */
    method LoadMissing(fileName: string, fs: FileSystem, now: int, compiled: Option<GroovyClass>)
      returns (ci: GroovyClassInfo?)
      requires Valid() && fileName !in classCache
      modifies this, classCache.Values
      ensures Valid()
      ensures var spec := LoadMiss(old(Abstract()), fileName, fs, now, compiled, config);
              Abstract() == spec.cache
              && (ci == null <==> spec.found.None?)
              && (ci != null ==> ci.View() == spec.found.value)
      ensures ci != null ==> fresh(ci) && fileName in classCache && classCache[fileName] == ci
      ensures KeepsObjects(fileName)
      ensures forall k :: k in old(classCache) ==>
                Refreshed(old(classCache[k].View()), old(classCache)[k].View(), now)
    {
      CleanGroovyCache(now);
      ci := AddCompiled(fileName, fs, now, compiled);
    }

    /** The end of `loadGroovyClass`: a new entry for an existing file that
        compiles, nothing otherwise. */
    method AddCompiled(fileName: string, fs: FileSystem, now: int, compiled: Option<GroovyClass>)
      returns (ci: GroovyClassInfo?)
      requires Valid() && fileName !in classCache
      modifies this
      ensures Valid()
      ensures var spec := Compiled(old(Abstract()), fileName, fs, now, compiled);
              Abstract() == spec.cache
              && (ci == null <==> spec.found.None?)
              && (ci != null ==> ci.View() == spec.found.value)
      ensures ci != null ==> fresh(ci) && fileName in classCache && classCache[fileName] == ci
      ensures KeepsObjects(fileName)
    {
      if !Exists(fs, fileName) {
        return null;
      }
      match compiled {
        case None =>
          return null;
        case Some(gclass) =>
          ci := new GroovyClassInfo(gclass, LastModified(fs, fileName), now);
          classCache := classCache[fileName := ci];
          assert Snapshot() == old(Snapshot())[fileName := ci.View()];
      }
    }

    /** `getMethod(ignoreMissing, filePath, className, methodName, args)` up to
        the reflective lookup, whose answer is `member`.  With `ignoreMissing`
        a missing file is answered with null before the cache is consulted. */
    method GetMethod(ignoreMissing: bool, filePath: Option<string>, className: string,
                     fs: FileSystem, now: int, compiled: Option<GroovyClass>, member: MemberLookup)
      returns (r: Reply)
      requires Valid()
      modifies this, classCache.Values
      ensures Valid()
      ensures var fileName := MethodFileName(applicationPath, filePath, className);
              if ignoreMissing && !Exists(fs, fileName) then
                r == Null && Abstract() == old(Abstract()) && classCache == old(classCache)
              else
                var spec := Loaded(old(Abstract()), fileName, fs, now, compiled, config);
                Abstract() == spec.cache
                && r == (if spec.found.None? then (if ignoreMissing then Null else Thrown(FileNotFound))
                         else match member
                           case MemberFound => Value
                           case MemberNull => if ignoreMissing then Null else Thrown(MethodNotFound)
                           case MemberThrows => Thrown(MethodNotFound))
      ensures forall k :: k in old(classCache) && k != MethodFileName(applicationPath, filePath, className) ==>
                Refreshed(old(classCache[k].View()), old(classCache)[k].View(), now)
    {
      var fileName := MethodFileName(applicationPath, filePath, className);
      if ignoreMissing && !Exists(fs, fileName) {
        return Null;
      }
      var ci := LoadGroovyClass(fileName, fs, now, compiled);
      if ci == null {
        if ignoreMissing {
          return Null;
        }
        return Thrown(FileNotFound);
      }
      match member {
        case MemberFound => r := Value;
        case MemberNull => r := if ignoreMissing then Null else Thrown(MethodNotFound);
        case MemberThrows => r := Thrown(MethodNotFound);
      }
    }

    /** `constructor(relativePath, className, args)`: load the script and call
        its constructor, whose outcome is `construct`. */
    method Constructor(relativePath: Option<string>, className: string, fs: FileSystem, now: int,
                       compiled: Option<GroovyClass>, construct: Completion)
      returns (r: Reply)
      requires Valid()
      modifies this, classCache.Values
      ensures Valid()
      ensures var spec := Loaded(old(Abstract()), ConstructorFileName(applicationPath, relativePath, className),
                                 fs, now, compiled, config);
              Abstract() == spec.cache
              && r == (if spec.found.None? then Thrown(FileNotFound)
                       else if construct == Returns then Value
                       else Thrown(ConstructorFailed))
      ensures forall k :: k in old(classCache) && k != ConstructorFileName(applicationPath, relativePath, className) ==>
                Refreshed(old(classCache[k].View()), old(classCache)[k].View(), now)
    {
      var fileName := ConstructorFileName(applicationPath, relativePath, className);
      var ci := LoadGroovyClass(fileName, fs, now, compiled);
      if ci == null {
        return Thrown(FileNotFound);
      }
      r := if construct == Returns then Value else Thrown(ConstructorFailed);
    }

    /** `internalGroovy`: run a static method with no arguments.  The counter
        of the entry is raised only around the invocation itself, and it is
        back to its earlier value whether the invocation returns or raises. */
    method InternalGroovy(package: Option<string>, className: string, fs: FileSystem, now: int,
                          compiled: Option<GroovyClass>, member: MemberLookup, invoke: Completion)
      returns (r: ExecutionReturn, ghost invoked: bool, ghost executingDuringCall: int)
      requires Valid()
      modifies this, classCache.Values
      ensures Valid()
      ensures var spec := Loaded(old(Abstract()), InternalFileName(applicationPath, package, className),
                                 fs, now, compiled, config);
              Abstract() == spec.cache
              && invoked == (spec.found.Some? && member == MemberFound)
              && (invoked ==> executingDuringCall == spec.found.value.executing + 1)
              && r == (if spec.found.None? then NotFound
                       else if invoked && invoke == Returns then Success
                       else Error)
      ensures forall k :: k in old(classCache) && k != InternalFileName(applicationPath, package, className) ==>
                Refreshed(old(classCache[k].View()), old(classCache)[k].View(), now)
    {
      invoked, executingDuringCall := false, 0;
      var fileName := InternalFileName(applicationPath, package, className);
      var ci := LoadGroovyClass(fileName, fs, now, compiled);
      if ci == null {
        return NotFound, invoked, executingDuringCall;
      }
      if member != MemberFound {
        return Error, invoked, executingDuringCall;
      }
      var completed;
      completed, executingDuringCall := InvokeEntry(ci, invoke);
      invoked := true;
      r := if completed then Success else Error;
    }

    /** `InvokeGuarded` on a cached entry: the cache reads the same afterwards. */
    method InvokeEntry(ci: GroovyClassInfo, invoke: Completion) returns (completed: bool, ghost executingDuringCall: nat)
      modifies ci`executing
      ensures Abstract() == old(Abstract())
      ensures ci.View() == old(ci.View())
      ensures executingDuringCall == old(ci.executing) + 1
      ensures completed == (invoke == Returns)
    {
      ghost var before := Snapshot();
      completed, executingDuringCall := ci.InvokeGuarded(invoke);
      assert forall k :: k in classCache ==> classCache[k].View() == before[k];
      assert Snapshot() == before;
    }

    /** `tryGroovy`: construct an instance and run a web-service method on it.
        The counter of the entry is raised before the constructor runs and is
        back to its earlier value on every exit: a failing constructor, a
        missing method, a failing method or success. */
    method TryGroovy(className: string, fs: FileSystem, now: int, compiled: Option<GroovyClass>,
                     construct: Completion, member: MemberLookup, invoke: Completion)
      returns (r: ExecutionReturn, ghost executingDuringCall: int)
      requires Valid()
      modifies this, classCache.Values
      ensures Valid()
      ensures var spec := Loaded(old(Abstract()), TryFileName(applicationPath, className),
                                 fs, now, compiled, config);
              Abstract() == spec.cache
              && (spec.found.Some? ==> executingDuringCall == spec.found.value.executing + 1)
              && r == (if spec.found.None? then NotFound
                       else if construct == Returns && member == MemberFound && invoke == Returns then Success
                       else Error)
      ensures forall k :: k in old(classCache) && k != TryFileName(applicationPath, className) ==>
                Refreshed(old(classCache[k].View()), old(classCache)[k].View(), now)
    {
      executingDuringCall := 0;
      var fileName := TryFileName(applicationPath, className);
      var ci := LoadGroovyClass(fileName, fs, now, compiled);
      if ci == null {
        return NotFound, executingDuringCall;
      }
      r, executingDuringCall := RunEntry(ci, construct, member, invoke);
    }

    /** `RunGuarded` on a cached entry: the cache reads the same afterwards. */
    method RunEntry(ci: GroovyClassInfo, construct: Completion, member: MemberLookup, invoke: Completion)
      returns (r: ExecutionReturn, ghost executingDuringCall: nat)
      modifies ci`executing
      ensures Abstract() == old(Abstract())
      ensures ci.View() == old(ci.View())
      ensures executingDuringCall == old(ci.executing) + 1
      ensures r == if construct == Returns && member == MemberFound && invoke == Returns then Success else Error
    {
      ghost var before := Snapshot();
      r, executingDuringCall := ci.RunGuarded(construct, member, invoke);
      assert forall k :: k in classCache ==> classCache[k].View() == before[k];
      assert Snapshot() == before;
    }
  }
}
