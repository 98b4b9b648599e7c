/**
  The module's operations on the host: configuring a cache or a core (load the
  configuration file, insert the entry, persist it, bring the live subsystem in
  line, roll the file back when that fails), checking a descriptor, emptying the
  configuration, stopping every cache and gathering facts.

  `file` is what `cas_config.from_file(default_location)` returns at the start of a
  task (`None` when it raises); every effect on the file and on the live subsystem
  is returned in the task's trace.
 */
module Reconcile {
  import opened Outcomes
  import opened Values
  import opened Registry
  import opened Params

  /** A task's effects, in order, and how it ended. */
  datatype Run<T> = Run(effects: seq<Effect>, result: Result<T, Failure>)

  /** A call into the live subsystem and how it ends. */
  datatype Step = Step(action: Effect, outcome: Apply)

  /** How far a sequence of steps got: how many were called, and the failure that ended it. */
  datatype Progress = Progress(count: nat, failure: Option<Apply>)

  predicate LiveStep(s: Step) {
    !s.action.Write?
  }

  predicate AllDone(steps: seq<Step>) {
    forall k :: 0 <= k < |steps| ==> steps[k].outcome == Done
  }

  /** Step `k` is the first one that fails. */
  predicate FirstFailureAt(steps: seq<Step>, k: int) {
    && 0 <= k < |steps|
    && steps[k].outcome != Done
    && AllDone(steps[..k])
  }

  function Actions(steps: seq<Step>): (a: seq<Effect>)
    ensures |a| == |steps|
    ensures forall k :: 0 <= k < |steps| ==> a[k] == steps[k].action
  {
    if steps == [] then [] else [steps[0].action] + Actions(steps[1..])
  }

  /** Live actions record no writes and are all live. */
  lemma {:induction false} ActionsAreLive(steps: seq<Step>)
    requires forall k :: 0 <= k < |steps| ==> LiveStep(steps[k])
    ensures Writes(Actions(steps)) == []
    ensures LiveActions(Actions(steps)) == Actions(steps)
    decreases |steps|
  {
    if steps != [] {
      var a := Actions(steps);
      assert a[1..] == Actions(steps[1..]);
      ActionsAreLive(steps[1..]);
    }
  }

  /** Calls the steps in order and stops after the first that fails (the `try` block). */
  function Perform(steps: seq<Step>): (p: Progress)
    ensures p.count <= |steps|
    ensures p.failure.None? <==> AllDone(steps)
    ensures p.failure.None? ==> p.count == |steps|
    ensures p.failure.Some? ==>
      FirstFailureAt(steps, p.count - 1) && p.failure.value == steps[p.count - 1].outcome
    decreases |steps|
  {
    if steps == [] then Progress(0, None)
    else if steps[0].outcome != Done then Progress(1, Some(steps[0].outcome))
    else
      var rest := Perform(steps[1..]);
      assert forall k :: 0 < k <= rest.count ==> steps[..k] == [steps[0]] + steps[1..][..k - 1];
      Progress(rest.count + 1, rest.failure)
  }

  /** The failure a task reports when a live action raised. */
  function LiveFailure(a: Apply): (f: Failure)
    requires a != Done
    ensures a.CasadmError? ==> f == CasadmFailed(a.stderr)
    ensures a.OtherError? ==> f == Raised(a)
  {
    match a
    case CasadmError(stderr) => CasadmFailed(stderr)
    case OtherError(_) => Raised(a)
  }

  /** The write that records a successful insertion, if there was one. */
  function Persisted(insert: InsertOutcome): (w: seq<Effect>)
    ensures Writes(w) == (if insert.Inserted? then [insert.updated] else [])
    ensures LiveActions(w) == []
  {
    if insert.Inserted? then [Write(insert.updated)] else []
  }

  /**
    The shared body of `configure_cache_device` and `configure_core_device`, once the
    configuration is loaded: `insert` is what inserting the new entry did, `live` whether
    the entry is already live, `steps` the live actions to take when it is not.
   */
  function Transact(loaded: Config, insert: InsertOutcome, live: Option<bool>, steps: seq<Step>)
    : (r: Run<bool>)
    requires forall k :: 0 <= k < |steps| ==> LiveStep(steps[k])
    // any other insertion error propagates before any write or live action
    ensures insert.InsertRaised? ==> r == Run([], Err(InsertFailed(insert.message)))
    ensures insert.Inserted? ==> |r.effects| > 0 && r.effects[0] == Write(insert.updated)
    ensures !insert.InsertRaised? && live.None? ==> r.result == Err(QueryFailed)
    // an entry already live is reported changed exactly when it was newly inserted
    ensures !insert.InsertRaised? && live == Some(true) ==> r.result == Ok(insert.Inserted?)
    ensures !insert.InsertRaised? && live == Some(false) ==> (r.result == Ok(true) <==> AllDone(steps))
  {
    match insert
    case InsertRaised(message) => Run([], Err(InsertFailed(message)))
    case _ =>
      var persisted := Persisted(insert);
      match live
      case None => Run(persisted, Err(QueryFailed))
      case Some(true) => Run(persisted, Ok(insert.Inserted?))
      case Some(false) =>
        var p := Perform(steps);
        var attempted := persisted + Actions(steps[..p.count]);
        if p.failure.None? then Run(attempted, Ok(true))
        else Run(attempted + [Write(loaded)], Err(LiveFailure(p.failure.value)))
  }

  /**
    The file is written with the new entry exactly when the insertion succeeded; a
    failed live action adds exactly one write, of the configuration as loaded, at the end.
    Nothing is done to the live subsystem unless the entry is known not to be live, and
    then the steps are called in order up to the first that fails.
   */
  lemma TransactTrace(loaded: Config, insert: InsertOutcome, live: Option<bool>, steps: seq<Step>)
    requires forall k :: 0 <= k < |steps| ==> LiveStep(steps[k])
    requires !insert.InsertRaised?
    ensures var r := Transact(loaded, insert, live, steps);
      && Writes(r.effects)
         == (if insert.Inserted? then [insert.updated] else [])
          + (if live == Some(false) && r.result.Err? then [loaded] else [])
      && (live != Some(false) ==> LiveActions(r.effects) == [])
      && (live == Some(false) && AllDone(steps) ==> LiveActions(r.effects) == Actions(steps))
      && (live == Some(false) && !AllDone(steps) ==>
            exists k :: FirstFailureAt(steps, k)
              && r.result == Err(LiveFailure(steps[k].outcome))
              && LiveActions(r.effects) == Actions(steps[..k + 1])
              && r.effects[|r.effects| - 1] == Write(loaded))
  {
    var r := Transact(loaded, insert, live, steps);
    var persisted := Persisted(insert);
    if live != Some(false) {
      assert r.effects == persisted;
    } else {
      var p := Perform(steps);
      var called := Actions(steps[..p.count]);
      var attempted := persisted + called;
      ActionsAreLive(steps[..p.count]);
      TraceAppend(persisted, called);
      if p.failure.None? {
        assert r == Run(attempted, Ok(true));
        assert steps[..p.count] == steps;
      } else {
        assert r == Run(attempted + [Write(loaded)], Err(LiveFailure(p.failure.value)));
        TraceAppend(attempted, [Write(loaded)]);
        assert LiveActions([Write(loaded)]) == [];
        assert Writes([Write(loaded)]) == [loaded];
        assert FirstFailureAt(steps, p.count - 1);
      }
    }
  }

  /**
    What the file holds afterwards: the loaded configuration with the new entry when the
    task succeeds or the live query raises, and exactly the loaded configuration again
    when a live action fails (the snapshot is written back).
   */
  lemma TransactFile(loaded: Config, insert: InsertOutcome, live: Option<bool>, steps: seq<Step>)
    requires forall k :: 0 <= k < |steps| ==> LiveStep(steps[k])
    ensures var r := Transact(loaded, insert, live, steps);
      && (r.result.Ok? || r.result == Err(QueryFailed) ==>
            FileAfter(Some(loaded), r.effects) == Some(if insert.Inserted? then insert.updated else loaded))
      && (r.result.Err? && live == Some(false) ==> FileAfter(Some(loaded), r.effects) == Some(loaded))
  {
    var r := Transact(loaded, insert, live, steps);
    if !insert.InsertRaised? {
      TransactTrace(loaded, insert, live, steps);
      FileAfterLastWrite(Some(loaded), r.effects);
    }
  }

  /** The live actions of `configure_cache_device`: start without loading, then configure. */
  function CacheSteps(lib: CasLibrary, req: CacheRequest): (steps: seq<Step>)
    ensures |steps| == 2 && forall k :: 0 <= k < |steps| ==> LiveStep(steps[k])
    ensures Actions(steps) == [StartCache(req.cache, false, req.force), ConfigureCache(req.cache)]
    ensures steps[0].outcome == lib.startCache(req.cache, false, req.force)
    ensures steps[1].outcome == lib.configureCache(req.cache)
  {
    var c := req.cache;
    [ Step(StartCache(c, false, req.force), lib.startCache(c, false, req.force)),
      Step(ConfigureCache(c), lib.configureCache(c)) ]
  }

  /** `configure_cache_device`: configure a cache in the file, then start and configure it live. */
  function ConfigureCacheDevice(args: Args, lib: CasLibrary, file: Option<Config>): (r: Run<bool>)
    ensures HandleCacheConfig(args).Err? ==> r == Run([], Err(MissingCacheParams))
    ensures HandleCacheConfig(args).Ok? && file.None? ==> r == Run([], Err(LoadFailed))
    ensures HandleCacheConfig(args).Ok? && file.Some? ==>
      var req := HandleCacheConfig(args).value;
      var insert := lib.insertCache(file.value, req.cache);
      var live := lib.isCacheStarted(req.cache);
      && (insert.InsertRaised? ==> r == Run([], Err(InsertFailed(insert.message))))
      && (insert.Inserted? ==> |r.effects| > 0 && r.effects[0] == Write(insert.updated))
      && (!insert.InsertRaised? && live.None? ==> r.result == Err(QueryFailed))
      && (!insert.InsertRaised? && live == Some(true) ==> r.result == Ok(insert.Inserted?))
      && (!insert.InsertRaised? && live == Some(false) ==>
            (r.result == Ok(true) <==>
               lib.startCache(req.cache, false, req.force) == Done && lib.configureCache(req.cache) == Done))
  {
    match HandleCacheConfig(args)
    case Err(e) => Run([], Err(e))
    case Ok(req) =>
      match file
      case None => Run([], Err(LoadFailed))
      case Some(loaded) =>
        var steps := CacheSteps(lib, req);
        assert AllDone(steps) <==> steps[0].outcome == Done && steps[1].outcome == Done;
        Transact(loaded, lib.insertCache(loaded, req.cache), lib.isCacheStarted(req.cache), steps)
  }

  /**
    The file is written with the new cache exactly when the insertion succeeded and
    rewritten with the loaded configuration exactly when a live action failed;
    `start_cache` is called only when the cache is not started, once, without load and
    with the caller's `force`, and `configure_cache` only after it succeeded.
   */
  lemma ConfigureCacheTrace(args: Args, lib: CasLibrary, file: Option<Config>)
    requires HandleCacheConfig(args).Ok? && file.Some?
    requires !lib.insertCache(file.value, HandleCacheConfig(args).value.cache).InsertRaised?
    ensures
      var r := ConfigureCacheDevice(args, lib, file);
      var req := HandleCacheConfig(args).value;
      var c := req.cache;
      var insert := lib.insertCache(file.value, c);
      var live := lib.isCacheStarted(c);
      var start := lib.startCache(c, false, req.force);
      var configure := lib.configureCache(c);
      && Writes(r.effects)
         == (if insert.Inserted? then [insert.updated] else [])
          + (if live == Some(false) && r.result.Err? then [file.value] else [])
      && (live != Some(false) ==> LiveActions(r.effects) == [])
      && (live == Some(false) ==>
            LiveActions(r.effects)
            == [StartCache(c, false, req.force)] + (if start == Done then [ConfigureCache(c)] else []))
      && (live == Some(false) && start != Done ==> r.result == Err(LiveFailure(start)))
      && (live == Some(false) && start == Done && configure != Done ==>
            r.result == Err(LiveFailure(configure)))
  {
    var req := HandleCacheConfig(args).value;
    var steps := CacheSteps(lib, req);
    var insert := lib.insertCache(file.value, req.cache);
    var live := lib.isCacheStarted(req.cache);
    TransactTrace(file.value, insert, live, steps);
    assert steps[..1] == [steps[0]];
    assert steps[..2] == steps;
    if live == Some(false) && !AllDone(steps) {
      var k :| FirstFailureAt(steps, k)
        && Transact(file.value, insert, live, steps).result == Err(LiveFailure(steps[k].outcome))
        && LiveActions(Transact(file.value, insert, live, steps).effects) == Actions(steps[..k + 1]);
      assert k == 0 <==> steps[0].outcome != Done;
    }
  }

  /**
    After `configure_cache_device` the file holds the loaded configuration with the new
    cache when the task succeeded, and exactly the loaded configuration when starting or
    configuring the cache failed.
   */
  lemma ConfigureCacheFile(args: Args, lib: CasLibrary, file: Option<Config>)
    ensures
      var r := ConfigureCacheDevice(args, lib, file);
      && (r.result.Err? && LiveActions(r.effects) != [] ==> FileAfter(file, r.effects) == file)
      && (r.result.Ok? ==>
            var insert := lib.insertCache(file.value, HandleCacheConfig(args).value.cache);
            FileAfter(file, r.effects) == (if insert.Inserted? then Some(insert.updated) else file))
  {
    if HandleCacheConfig(args).Ok? && file.Some? {
      var req := HandleCacheConfig(args).value;
      var insert := lib.insertCache(file.value, req.cache);
      var live := lib.isCacheStarted(req.cache);
      TransactFile(file.value, insert, live, CacheSteps(lib, req));
      if !insert.InsertRaised? {
        TransactTrace(file.value, insert, live, CacheSteps(lib, req));
      }
    }
  }

  /**
    How a failed live action of `configure_cache_device` is reported: a casadm error as an
    internal casadm error carrying its stderr, any other error as it was raised.
   */
  lemma ConfigureCacheFailure(args: Args, lib: CasLibrary, file: Option<Config>)
    requires HandleCacheConfig(args).Ok? && file.Some?
    requires !lib.insertCache(file.value, HandleCacheConfig(args).value.cache).InsertRaised?
    requires lib.isCacheStarted(HandleCacheConfig(args).value.cache) == Some(false)
    ensures
      var r := ConfigureCacheDevice(args, lib, file);
      var req := HandleCacheConfig(args).value;
      var start := lib.startCache(req.cache, false, req.force);
      var configure := lib.configureCache(req.cache);
      && (start.CasadmError? ==> r.result == Err(CasadmFailed(start.stderr)))
      && (start.OtherError? ==> r.result == Err(Raised(start)))
      && (start == Done && configure.CasadmError? ==> r.result == Err(CasadmFailed(configure.stderr)))
      && (start == Done && configure.OtherError? ==> r.result == Err(Raised(configure)))
  {
    ConfigureCacheTrace(args, lib, file);
  }

  /** `configure_core_device`: configure a core in the file, then add it to its cache live. */
  function ConfigureCoreDevice(args: Args, lib: CasLibrary, file: Option<Config>): (r: Run<bool>)
    ensures HandleCoreConfig(args).Err? ==> r == Run([], Err(MissingCoreParams))
    ensures HandleCoreConfig(args).Ok? && file.None? ==> r == Run([], Err(LoadFailed))
    ensures HandleCoreConfig(args).Ok? && file.Some? ==>
      var c := HandleCoreConfig(args).value;
      var insert := lib.insertCore(file.value, c);
      var live := lib.isCoreAdded(c);
      && (insert.InsertRaised? ==> r == Run([], Err(InsertFailed(insert.message))))
      && (insert.Inserted? ==> |r.effects| > 0 && r.effects[0] == Write(insert.updated))
      && (!insert.InsertRaised? && live.None? ==> r.result == Err(QueryFailed))
      && (!insert.InsertRaised? && live == Some(true) ==> r.result == Ok(insert.Inserted?))
      && (!insert.InsertRaised? && live == Some(false) ==> (r.result == Ok(true) <==> lib.addCore(c, false) == Done))
  {
    match HandleCoreConfig(args)
    case Err(e) => Run([], Err(e))
    case Ok(c) =>
      match file
      case None => Run([], Err(LoadFailed))
      case Some(loaded) =>
        var steps := [Step(AddCore(c, false), lib.addCore(c, false))];
        assert AllDone(steps) <==> steps[0].outcome == Done;
        Transact(loaded, lib.insertCore(loaded, c), lib.isCoreAdded(c), steps)
  }

  /**
    The file is written with the new core exactly when the insertion succeeded and
    rewritten with the loaded configuration exactly when adding the core failed;
    `add_core` is called once, not in try-add mode, and only when the core is not added.
   */
  lemma ConfigureCoreTrace(args: Args, lib: CasLibrary, file: Option<Config>)
    requires HandleCoreConfig(args).Ok? && file.Some?
    requires !lib.insertCore(file.value, HandleCoreConfig(args).value).InsertRaised?
    ensures
      var r := ConfigureCoreDevice(args, lib, file);
      var c := HandleCoreConfig(args).value;
      var insert := lib.insertCore(file.value, c);
      var live := lib.isCoreAdded(c);
      && Writes(r.effects)
         == (if insert.Inserted? then [insert.updated] else [])
          + (if live == Some(false) && r.result.Err? then [file.value] else [])
      && (live != Some(false) ==> LiveActions(r.effects) == [])
      && (live == Some(false) ==> LiveActions(r.effects) == [AddCore(c, false)])
      && (live == Some(false) && lib.addCore(c, false) != Done ==>
            r.result == Err(LiveFailure(lib.addCore(c, false))))
  {
    var c := HandleCoreConfig(args).value;
    var steps := [Step(AddCore(c, false), lib.addCore(c, false))];
    TransactTrace(file.value, lib.insertCore(file.value, c), lib.isCoreAdded(c), steps);
    assert steps[..1] == steps;
  }

  /**
    After `configure_core_device` the file holds the loaded configuration with the new
    core when the task succeeded, and exactly the loaded configuration when adding failed.
   */
  lemma ConfigureCoreFile(args: Args, lib: CasLibrary, file: Option<Config>)
    ensures
      var r := ConfigureCoreDevice(args, lib, file);
      && (r.result.Err? && LiveActions(r.effects) != [] ==> FileAfter(file, r.effects) == file)
      && (r.result.Ok? ==>
            var insert := lib.insertCore(file.value, HandleCoreConfig(args).value);
            FileAfter(file, r.effects) == (if insert.Inserted? then Some(insert.updated) else file))
  {
    if HandleCoreConfig(args).Ok? && file.Some? {
      var c := HandleCoreConfig(args).value;
      var insert := lib.insertCore(file.value, c);
      var live := lib.isCoreAdded(c);
      var steps := [Step(AddCore(c, false), lib.addCore(c, false))];
      TransactFile(file.value, insert, live, steps);
      if !insert.InsertRaised? {
        TransactTrace(file.value, insert, live, steps);
      }
    }
  }

  /**
    How a failed `add_core` of `configure_core_device` is reported: a casadm error as an
    internal casadm error carrying its stderr, any other error as it was raised.
   */
  lemma ConfigureCoreFailure(args: Args, lib: CasLibrary, file: Option<Config>)
    requires HandleCoreConfig(args).Ok? && file.Some?
    requires !lib.insertCore(file.value, HandleCoreConfig(args).value).InsertRaised?
    requires lib.isCoreAdded(HandleCoreConfig(args).value) == Some(false)
    ensures
      var r := ConfigureCoreDevice(args, lib, file);
      var add := lib.addCore(HandleCoreConfig(args).value, false);
      && (add.CasadmError? ==> r.result == Err(CasadmFailed(add.stderr)))
      && (add.OtherError? ==> r.result == Err(Raised(add)))
  {
    ConfigureCoreTrace(args, lib, file);
  }

  /** `check_cache_config`: normalise the descriptor and let the library validate it; no effects. */
  function CheckCacheConfig(args: Args, lib: CasLibrary): (r: Run<bool>)
    ensures r.effects == []
    ensures r.result.Ok? ==> r.result.value == false
    ensures HandleCacheConfig(args).Err? ==> r.result == Err(MissingCacheParams)
    ensures r.result.Ok? <==>
      HandleCacheConfig(args).Ok?
      && lib.validateCache(HandleCacheConfig(args).value.cache, HandleCacheConfig(args).value.force) == Done
  {
    match HandleCacheConfig(args)
    case Err(e) => Run([], Err(e))
    case Ok(req) =>
      var verdict := lib.validateCache(req.cache, req.force);
      if verdict == Done then Run([], Ok(false)) else Run([], Err(Raised(verdict)))
  }

  /** `check_core_config`: normalise the descriptor and let the library validate it; no effects. */
  function CheckCoreConfig(args: Args, lib: CasLibrary): (r: Run<bool>)
    ensures r.effects == []
    ensures r.result.Ok? ==> r.result.value == false
    ensures HandleCoreConfig(args).Err? ==> r.result == Err(MissingCoreParams)
    ensures r.result.Ok? <==>
      HandleCoreConfig(args).Ok? && lib.validateCore(HandleCoreConfig(args).value) == Done
  {
    match HandleCoreConfig(args)
    case Err(e) => Run([], Err(e))
    case Ok(c) =>
      var verdict := lib.validateCore(c);
      if verdict == Done then Run([], Ok(false)) else Run([], Err(Raised(verdict)))
  }

  /**
    Checking and configuring a cache normalise the descriptor alike: the check rejects it
    for missing parameters exactly when configuring does, and then neither has any effect.
   */
  lemma CheckCacheAgreesWithConfigure(args: Args, lib: CasLibrary, file: Option<Config>)
    ensures CheckCacheConfig(args, lib).result == Err(MissingCacheParams)
        <==> ConfigureCacheDevice(args, lib, file).result == Err(MissingCacheParams)
    ensures CheckCacheConfig(args, lib).result == Err(MissingCacheParams) ==>
      CheckCacheConfig(args, lib).effects == [] && ConfigureCacheDevice(args, lib, file).effects == []
  {
    if HandleCacheConfig(args).Ok? && file.Some? {
      var req := HandleCacheConfig(args).value;
      var insert := lib.insertCache(file.value, req.cache);
      if !insert.InsertRaised? && lib.isCacheStarted(req.cache) == Some(false) {
        ConfigureCacheFailure(args, lib, file);
      }
    }
  }

  /**
    Checking and configuring a core normalise the descriptor alike: the check rejects it
    for missing parameters exactly when configuring does, and then neither has any effect.
   */
  lemma CheckCoreAgreesWithConfigure(args: Args, lib: CasLibrary, file: Option<Config>)
    ensures CheckCoreConfig(args, lib).result == Err(MissingCoreParams)
        <==> ConfigureCoreDevice(args, lib, file).result == Err(MissingCoreParams)
    ensures CheckCoreConfig(args, lib).result == Err(MissingCoreParams) ==>
      CheckCoreConfig(args, lib).effects == [] && ConfigureCoreDevice(args, lib, file).effects == []
  {
    if HandleCoreConfig(args).Ok? && file.Some? {
      var c := HandleCoreConfig(args).value;
      if !lib.insertCore(file.value, c).InsertRaised? && lib.isCoreAdded(c) == Some(false) {
        ConfigureCoreFailure(args, lib, file);
      }
    }
  }

  /**
    `zap`: replace a non-empty configuration by an empty one with the same version
    tag. An unreadable or empty configuration is left alone.
   */
  function Zap(file: Option<Config>): (r: Run<bool>)
    ensures r.result.Ok?
    ensures LiveActions(r.effects) == []
    ensures r.result.value <==> file.Some? && !IsEmpty(file.value)
    ensures !r.result.value ==> r.effects == []
    ensures r.result.value ==> Writes(r.effects) == [EmptyConfig(file.value.versionTag)]
    ensures r.result.value ==>
      var after := FileAfter(file, r.effects);
      after.Some? && IsEmpty(after.value) && after.value.versionTag == file.value.versionTag
    ensures !r.result.value ==> FileAfter(file, r.effects) == file
  {
    match file
    case None => Run([], Ok(false))
    case Some(config) =>
      if IsEmpty(config) then Run([], Ok(false))
      else Run([Write(EmptyConfig(config.versionTag))], Ok(true))
  }

  /**
    `stop`: stop every cache once if any is running. `before` and `after` are the
    number of live caches reported before and after stopping (`None` when listing raises).
   */
  function Stop(flush: Value, lib: CasLibrary, before: Option<nat>, after: Option<nat>)
    : (r: Run<bool>)
    ensures Writes(r.effects) == []
    // the stop action is invoked at most once, with the caller's flush value
    ensures r.effects == [] || r.effects == [StopAll(flush)]
    ensures r.effects == [StopAll(flush)] <==> before.Some? && before.value != 0
    ensures r.result == Ok(false) <==> before == Some(0)
    ensures r.result == Ok(true) <==>
      before.Some? && before.value != 0 && lib.stop(flush) == Done && after == Some(0)
    // any cache left running is fatal, whether or not some were stopped
    ensures before.Some? && before.value != 0 && lib.stop(flush) == Done && after.Some? && after.value != 0
      ==> r.result == Err(NotAllStopped)
  {
    match before
    case None => Run([], Err(QueryFailed))
    case Some(n) =>
      if n == 0 then Run([], Ok(false))
      else
        var effects := [StopAll(flush)];
        var outcome := lib.stop(flush);
        if outcome != Done then Run(effects, Err(Raised(outcome)))
        else match after
          case None => Run(effects, Err(QueryFailed))
          case Some(m) => if m != 0 then Run(effects, Err(NotAllStopped)) else Run(effects, Ok(true))
  }

  /** What `gather_facts` reports; an absent entry is a key the dictionary does not carry. */
  datatype Facts = Facts(
    installed: bool,
    installedVersion: Option<string>,
    configNonEmpty: Option<bool>,
    devicesStarted: Option<bool>)

  /**
    `gather_facts`: `present` is whether the opencas library could be imported and
    `liveCount` the number of running caches (`None` when listing them raises, which
    is not caught).
   */
  function GatherFacts(present: bool, lib: CasLibrary, file: Option<Config>, liveCount: Option<nat>)
    : (r: Result<Facts, Failure>)
    ensures !present || lib.version.None? ==> r == Ok(Facts(false, None, None, None))
    ensures r.Ok? && r.value.installed ==>
      && present && r.value.installedVersion == lib.version
      && r.value.configNonEmpty == Some(file.Some? && !IsEmpty(file.value))
      && liveCount.Some? && r.value.devicesStarted == Some(liveCount.value != 0)
    ensures r.Err? <==> present && lib.version.Some? && liveCount.None?
    ensures present && lib.version.Some? && liveCount.Some? ==> r.Ok? && r.value.installed
  {
    if !present || lib.version.None? then Ok(Facts(false, None, None, None))
    else
      var nonEmpty := file.Some? && !IsEmpty(file.value);
      match liveCount
      case None => Err(QueryFailed)
      case Some(n) => Ok(Facts(true, lib.version, Some(nonEmpty), Some(n != 0)))
  }

  /** After zapping, gathering facts reports the configuration as empty. */
  lemma FactsAfterZap(present: bool, lib: CasLibrary, file: Option<Config>, liveCount: Option<nat>)
    requires present && lib.version.Some? && liveCount.Some?
    ensures var facts := GatherFacts(present, lib, FileAfter(file, Zap(file).effects), liveCount);
      facts.Ok? && facts.value.installed && facts.value.configNonEmpty == Some(false)
  {
  }

  /**
    After a successful stop, gathering facts with the number of caches then running
    reports no device started.
   */
  lemma FactsAfterStop(flush: Value, lib: CasLibrary, before: Option<nat>, after: Option<nat>, file: Option<Config>)
    requires lib.version.Some?
    requires Stop(flush, lib, before, after).result.Ok?
    ensures var running := if Stop(flush, lib, before, after).result.value then after else before;
      var facts := GatherFacts(true, lib, file, running);
      facts.Ok? && facts.value.installed && facts.value.devicesStarted == Some(false)
  {
  }
}
