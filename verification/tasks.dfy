/**
  `run_task`: the module performs the first requested operation, in a fixed order of
  options, and ignores every later one. A failure is what `main` reports through
  `fail_json` as "<exception type>: <message>".
 */
module Tasks {
  import opened Outcomes
  import opened Values
  import opened Registry
  import opened Params
  import opened Reconcile

  /** The module's options; an option not given is falsy (`False`, or an empty dictionary). */
  datatype ModuleParams = ModuleParams(
    gatherFacts: bool,
    zap: bool,
    stop: Args,
    checkCacheConfig: Args,
    checkCoreConfig: Args,
    configureCacheDevice: Args,
    configureCoreDevice: Args)

  /** The operations, in the order `run_task` tries them. */
  datatype Task =
    | GatherFactsTask | ZapTask | StopTask | CheckCacheTask | CheckCoreTask
    | ConfigureCacheTask | ConfigureCoreTask | NoTask

  /** What the host looks like to one run of the module. */
  datatype Host = Host(
    present: bool,              // the opencas library could be imported
    lib: CasLibrary,
    file: Option<Config>,       // what from_file returns
    liveBefore: Option<nat>,    // the first get_caches_list() count
    liveAfter: Option<nat>)     // the count after stopping

  /** The module's reply: `changed` and the gathered facts (`None` for an empty dictionary). */
  datatype Reply = Reply(changed: bool, facts: Option<Facts>)

  const FlushKey := "flush"

  function Rank(t: Task): nat {
    match t
    case GatherFactsTask => 0
    case ZapTask => 1
    case StopTask => 2
    case CheckCacheTask => 3
    case CheckCoreTask => 4
    case ConfigureCacheTask => 5
    case ConfigureCoreTask => 6
    case NoTask => 7
  }

  /** Whether the option for `t` is truthy; doing nothing is always possible. */
  predicate Requested(p: ModuleParams, t: Task) {
    match t
    case GatherFactsTask => p.gatherFacts
    case ZapTask => p.zap
    case StopTask => p.stop != map[]
    case CheckCacheTask => p.checkCacheConfig != map[]
    case CheckCoreTask => p.checkCoreConfig != map[]
    case ConfigureCacheTask => p.configureCacheDevice != map[]
    case ConfigureCoreTask => p.configureCoreDevice != map[]
    case NoTask => true
  }

  /** The operation `run_task` performs: the requested one that comes first. */
  function SelectTask(p: ModuleParams): (t: Task)
    ensures Requested(p, t)
    ensures forall u :: Requested(p, u) ==> Rank(t) <= Rank(u)
  {
    if p.gatherFacts then GatherFactsTask
    else if p.zap then ZapTask
    else if p.stop != map[] then StopTask
    else if p.checkCacheConfig != map[] then CheckCacheTask
    else if p.checkCoreConfig != map[] then CheckCoreTask
    else if p.configureCacheDevice != map[] then ConfigureCacheTask
    else if p.configureCoreDevice != map[] then ConfigureCoreTask
    else NoTask
  }

  /**
    The module's reply `r` is the run of an operation: the same effects, the same failure,
    and on success the operation's `changed` flag with no facts.
   */
  predicate Carries(r: Run<Reply>, run: Run<bool>) {
    && r.effects == run.effects
    && (r.result.Ok? <==> run.result.Ok?)
    && (r.result.Ok? ==> r.result.value == Reply(run.result.value, None))
    && (r.result.Err? ==> r.result.error == run.result.error)
  }

  /** An operation's `changed` flag as the module's reply. */
  function Report(run: Run<bool>): (r: Run<Reply>)
    ensures Carries(r, run)
  {
    match run.result
    case Ok(changed) => Run(run.effects, Ok(Reply(changed, None)))
    case Err(e) => Run(run.effects, Err(e))
  }

  /** `run_task`. */
  function RunTask(p: ModuleParams, host: Host): (r: Run<Reply>)
    // the selected operation is the one run, on its own options
    ensures SelectTask(p) == GatherFactsTask ==>
      var facts := GatherFacts(host.present, host.lib, host.file, host.liveBefore);
      && r.effects == []
      && (r.result.Ok? <==> facts.Ok?)
      && (facts.Ok? ==> r.result.value == Reply(false, Some(facts.value)))
      && (facts.Err? ==> r.result.error == facts.error)
    ensures SelectTask(p) == ZapTask ==> Carries(r, Zap(host.file))
    ensures SelectTask(p) == StopTask && FlushKey in p.stop ==>
      Carries(r, Stop(p.stop[FlushKey], host.lib, host.liveBefore, host.liveAfter))
    ensures SelectTask(p) == CheckCacheTask ==> Carries(r, CheckCacheConfig(p.checkCacheConfig, host.lib))
    ensures SelectTask(p) == CheckCoreTask ==> Carries(r, CheckCoreConfig(p.checkCoreConfig, host.lib))
    ensures SelectTask(p) == ConfigureCacheTask ==>
      Carries(r, ConfigureCacheDevice(p.configureCacheDevice, host.lib, host.file))
    ensures SelectTask(p) == ConfigureCoreTask ==>
      Carries(r, ConfigureCoreDevice(p.configureCoreDevice, host.lib, host.file))
    ensures SelectTask(p) == NoTask ==> r == Run([], Ok(Reply(false, None)))
    // only zapping and configuring write the file; only stopping and configuring touch live devices
    ensures Writes(r.effects) != [] ==> SelectTask(p) in {ZapTask, ConfigureCacheTask, ConfigureCoreTask}
    ensures LiveActions(r.effects) != [] ==> SelectTask(p) in {StopTask, ConfigureCacheTask, ConfigureCoreTask}
    // facts are reported only by fact gathering, and checks never report a change
    ensures r.result.Ok? ==> (r.result.value.facts.Some? <==> SelectTask(p) == GatherFactsTask)
    ensures r.result.Ok? && r.result.value.changed ==>
      SelectTask(p) in {ZapTask, StopTask, ConfigureCacheTask, ConfigureCoreTask}
    // stopping needs a flush value and passes it through
    ensures SelectTask(p) == StopTask && FlushKey !in p.stop ==> r == Run([], Err(MissingFlush))
    ensures SelectTask(p) == StopTask && FlushKey in p.stop && LiveActions(r.effects) != [] ==>
      r.effects == [StopAll(p.stop[FlushKey])]
  {
    match SelectTask(p)
    case GatherFactsTask =>
      (match GatherFacts(host.present, host.lib, host.file, host.liveBefore)
       case Ok(facts) => Run([], Ok(Reply(false, Some(facts))))
       case Err(e) => Run([], Err(e)))
    case ZapTask => Report(Zap(host.file))
    case StopTask =>
      if FlushKey !in p.stop then Run([], Err(MissingFlush))
      else Report(Stop(p.stop[FlushKey], host.lib, host.liveBefore, host.liveAfter))
    case CheckCacheTask => Report(CheckCacheConfig(p.checkCacheConfig, host.lib))
    case CheckCoreTask => Report(CheckCoreConfig(p.checkCoreConfig, host.lib))
    case ConfigureCacheTask =>
      Report(ConfigureCacheDevice(p.configureCacheDevice, host.lib, host.file))
    case ConfigureCoreTask => Report(ConfigureCoreDevice(p.configureCoreDevice, host.lib, host.file))
    case NoTask => Run([], Ok(Reply(false, None)))
  }

  /** `p` and `q` give the same options up to and including the one for `t`. */
  predicate AgreeUpTo(p: ModuleParams, q: ModuleParams, t: Task) {
    && p.gatherFacts == q.gatherFacts
    && (Rank(t) >= 1 ==> p.zap == q.zap)
    && (Rank(t) >= 2 ==> p.stop == q.stop)
    && (Rank(t) >= 3 ==> p.checkCacheConfig == q.checkCacheConfig)
    && (Rank(t) >= 4 ==> p.checkCoreConfig == q.checkCoreConfig)
    && (Rank(t) >= 5 ==> p.configureCacheDevice == q.configureCacheDevice)
    && (Rank(t) >= 6 ==> p.configureCoreDevice == q.configureCoreDevice)
  }

  /** Options after the first requested one make no difference to the run. */
  lemma LaterOptionsIgnored(p: ModuleParams, q: ModuleParams, host: Host)
    requires AgreeUpTo(p, q, SelectTask(p))
    ensures SelectTask(q) == SelectTask(p)
    ensures RunTask(q, host) == RunTask(p, host)
  {
    assert Requested(q, SelectTask(p));
  }
}
