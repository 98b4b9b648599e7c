/**
  The persisted Open CAS configuration and the observable effects of a task on it.

  The configuration file is owned by the opencas helper library, whose parsing,
  writing and insertion rules are not visible here: a `Config` is only inspected
  for emptiness and for its version tag, and every library call the module makes
  is a field of `CasLibrary`, a record of pure functions supplied by the caller.
  A task's side effects are recorded, in the order they happen, as a trace of
  `Effect`s; `FileAfter` replays the trace's writes over the file.
 */
module Registry {
  import opened Outcomes
  import opened Values

  /** The optional cache settings, each present only when the playbook gave a truthy value. */
  datatype CacheParams = CacheParams(
    lineSize: Option<string>,
    ioClassFile: Option<string>,
    cleaningPolicy: Option<Value>,
    promotionPolicy: Option<Value>)

  /** `cas_config.cache_config(cache_id, path, cache_mode, **params)`. */
  datatype CacheConfig = CacheConfig(cacheId: int, device: Value, mode: Value, params: CacheParams)

  /** `cas_config.core_config(cache_id, core_id, path)`. */
  datatype CoreConfig = CoreConfig(cacheId: int, coreId: int, device: Value)

  /** The configuration file's contents: a version stamp, the caches and the cores. */
  datatype Config = Config(versionTag: string, caches: map<int, CacheConfig>, cores: seq<CoreConfig>)

  /** `config.is_empty()`: no cache and no core is configured. */
  predicate IsEmpty(c: Config) {
    c.caches == map[] && c.cores == []
  }

  /** `cas_config(version_tag=tag)`: a configuration with nothing in it but the stamp. */
  function EmptyConfig(tag: string): (c: Config)
    ensures IsEmpty(c) && c.versionTag == tag
  {
    Config(tag, map[], [])
  }

  /** What `config.insert_cache` / `config.insert_core` did. */
  datatype InsertOutcome =
    | Inserted(updated: Config)      // returned normally; `updated` is the mutated configuration
    | AlreadyConfigured              // raised AlreadyConfiguredException
    | InsertRaised(message: string)  // raised any other exception

  /** How a call into the caching subsystem ended. */
  datatype Apply =
    | Done
    | CasadmError(stderr: string)   // raised casadm.CasadmError
    | OtherError(message: string)   // raised any other exception

  /**
    The opencas helper library, as the module sees it. A query answers `None` when
    the call raises.
   */
  datatype CasLibrary = CasLibrary(
    version: Option<string>,
    insertCache: (Config, CacheConfig) -> InsertOutcome,
    insertCore: (Config, CoreConfig) -> InsertOutcome,
    isCacheStarted: CacheConfig -> Option<bool>,
    isCoreAdded: CoreConfig -> Option<bool>,
    startCache: (CacheConfig, bool, Value) -> Apply,
    configureCache: CacheConfig -> Apply,
    addCore: (CoreConfig, bool) -> Apply,
    validateCache: (CacheConfig, Value) -> Apply,
    validateCore: CoreConfig -> Apply,
    stop: Value -> Apply)

  /** Why a task failed; the module reports it as "<exception type>: <message>". */
  datatype Failure =
    | MissingCoreParams             // Exception("Missing core config parameters")
    | MissingCacheParams            // Exception("Missing cache config parameters")
    | LoadFailed                    // from_file raised; the exception is re-raised
    | InsertFailed(message: string) // insert_* raised something other than AlreadyConfigured
    | QueryFailed                   // a live-state query raised
    | CasadmFailed(stderr: string)  // Exception("Internal casadm error(<stderr>)")
    | Raised(cause: Apply)          // a library call failed and its exception propagated as is
    | NotAllStopped                 // Exception("Couldn't stop all cache devices")
    | MissingFlush                  // KeyError: the stop options carry no "flush"

  /** One externally visible action of a task, in the order performed. */
  datatype Effect =
    | Write(config: Config)                                  // config.write(default_location)
    | StartCache(cache: CacheConfig, load: bool, force: Value) // start_cache(cfg, load=, force=)
    | ConfigureCache(cache: CacheConfig)                     // configure_cache(cfg)
    | AddCore(core: CoreConfig, tryAdd: bool)                // add_core(cfg, try_add)
    | StopAll(flush: Value)                                  // stop(flush)

  /** The configurations written, in order. */
  function Writes(effects: seq<Effect>): (w: seq<Config>)
    ensures |w| <= |effects|
  {
    if effects == [] then []
    else (if effects[0].Write? then [effects[0].config] else []) + Writes(effects[1..])
  }

  /** The calls into the live caching subsystem, in order. */
  function LiveActions(effects: seq<Effect>): (a: seq<Effect>)
    ensures |a| <= |effects|
  {
    if effects == [] then []
    else (if effects[0].Write? then [] else [effects[0]]) + LiveActions(effects[1..])
  }

  /** What `from_file` would return after the trace's writes have been applied to `file`. */
  function FileAfter(file: Option<Config>, effects: seq<Effect>): Option<Config>
    decreases |effects|
  {
    if effects == [] then file
    else FileAfter(if effects[0].Write? then Some(effects[0].config) else file, effects[1..])
  }

  /** Running two traces one after the other is running their concatenation. */
  lemma {:induction false} FileAfterAppend(file: Option<Config>, a: seq<Effect>, b: seq<Effect>)
    ensures FileAfter(file, a + b) == FileAfter(FileAfter(file, a), b)
    decreases |a|
  {
    if a != [] {
      assert (a + b)[1..] == a[1..] + b;
      FileAfterAppend(if a[0].Write? then Some(a[0].config) else file, a[1..], b);
    } else {
      assert a + b == b;
    }
  }

  /** The file holds what was written last, or what it held before when nothing was written. */
  lemma {:induction false} FileAfterLastWrite(file: Option<Config>, effects: seq<Effect>)
    ensures Writes(effects) == [] ==> FileAfter(file, effects) == file
    ensures Writes(effects) != [] ==>
      FileAfter(file, effects) == Some(Writes(effects)[|Writes(effects)| - 1])
    decreases |effects|
  {
    if effects != [] {
      var next := if effects[0].Write? then Some(effects[0].config) else file;
      FileAfterLastWrite(next, effects[1..]);
    }
  }

  /** Writes and live actions of a concatenation are those of the parts. */
  lemma {:induction false} TraceAppend(a: seq<Effect>, b: seq<Effect>)
    ensures Writes(a + b) == Writes(a) + Writes(b)
    ensures LiveActions(a + b) == LiveActions(a) + LiveActions(b)
    decreases |a|
  {
    if a != [] {
      assert (a + b)[1..] == a[1..] + b;
      TraceAppend(a[1..], b);
    } else {
      assert a + b == b;
    }
  }
}
