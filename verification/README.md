# Open CAS deployment module, modelled in Dafny

This project models the core of the Ansible collection that deploys Open CAS
(Open Cache Acceleration Software). It covers two parts:

- the `cas` module that runs on a managed host;
- the controller-side `cas` action that runs before it.

**The module.** It performs one operation per run: gather facts, zap the
configuration, stop all caches, check a cache or core descriptor, or configure a
cache or core device. Configuring follows the same pattern for caches and cores:

1. load `/etc/opencas/opencas.conf` through the opencas helper library;
2. insert the new entry;
3. write the file when the insertion took;
4. bring the live caching subsystem in line;
5. write the snapshot taken at load time back when a live action fails.

**The action.** Before the module ships, the action validates the I/O
classification CSV file named in a cache check. It then removes the file's name
from the module's options.

**Modelling choices.** The opencas helper library is not visible. The model
treats it as follows:

- Every call the module makes into it is a field of `Registry.CasLibrary`, a
  record of pure functions. The configuration as loaded is an `Option<Config>`,
  with `None` when loading raises. The number of running caches is an
  `Option<nat>`.
- Each operation returns a `Reconcile.Run`: the trace of its effects, in order,
  and its outcome. The effects are file writes, cache starts, cache configures,
  core adds and stops.
- `Registry.FileAfter` replays the writes of a trace over the file, so claims
  about what the file holds afterwards are stated on it.

Python's value semantics are modelled in `Values`:

- `Truthy` is the truthiness an `if value:` tests;
- `ToInt` is `int()`;
- `ToStr` is `str()`.

A CSV file reaches the validator already tokenised into records. `IoClass`
models how `csv.DictReader` turns records into rows:

- the first record is the header;
- blank records are skipped;
- a field takes the cell under the last column of that name;
- a field the row is too short to reach reads as `None`;
- a row longer than the header is flagged.

`IoClass.DictRow` builds the dictionary `csv.DictReader` yields for a row step by
step, and `IoClass.DictRowAgrees` shows that the field reading above agrees with it.

The validator's partner is a writer: `IoClass.RuleRecords` renders rules as
records under the usual header, and `IoClass.WrittenFileValidates` shows that
such a file validates back to exactly those rules.

Modules:

| module | contents |
|---|---|
| `Outcomes` | `Option`, `Result` |
| `Values` | Python values, truthiness, `int()` and `str()` with their round trip |
| `Registry` | configuration records, the library record, failures, effects and traces |
| `Params` | `handle_core_config`, `handle_cache_config` |
| `Reconcile` | the shared configure/rollback transaction, both configure operations, both checks, `zap`, `stop`, `gather_facts` |
| `Tasks` | `run_task`: choosing the operation and shaping the reply |
| `IoClass` | `validate_ioclass_file` |
| `Action` | the io-class check and strip step of the action's `run` |

**Behaviour of `library/cas.py` worth noting:**

- `gather_facts` can fail. The call to `get_caches_list` at
  `library/cas.py:215` is not inside any `try`, so an error listing caches
  fails the whole task.
- The rollback write in both configure operations happens whenever a live
  action fails. This includes the case where the entry was already configured
  and nothing had been written.
- When the live-state query (`is_cache_started` or `is_core_added`) raises
  after a successful insertion, the new file stays written and there is no
  rollback.

## Model

| member | source | states |
|---|---|---|
| Values.ParseInt | library/cas.py:253-254 | a string converts to an integer exactly when it is an optional sign followed by one or more decimal digits; a negative result comes from a leading minus |
| Values.ToInt | library/cas.py:253-254 | `int()` fails on `None`, maps booleans to 0/1 and integers to themselves, and converts a string exactly when it is a decimal literal once surrounding whitespace is removed |
| Values.ShowInt | library/cas.py:316-317 | rendering an integer gives a decimal literal with no plus sign and no leading zeros (a zero digit first is the whole of `0`), signed with a minus exactly when the integer is negative |
| Values.ParseShowInt | library/cas.py:253-254 | reading back the decimal rendering of any integer gives that integer |
| Values.ParseLiteral | library/cas.py:253-254 | a decimal literal with an optional sign and any number of leading zeros converts to its value, negated exactly when the sign is a minus |
| Values.ToIntLiteral | action_plugins/cas.py:44-45 | `int()` on a cell holding a signed, zero-padded literal with whitespace around it gives the literal's value |
| Values.IntStrRoundTrip | library/cas.py:253-254 | `int(str(i)) == i` for every integer value |
| Values.PaddedIntParses | action_plugins/cas.py:44-45 | a number written with spaces around it, as in a CSV cell after a comma, reads as that number |
| Registry.FileAfterLastWrite | library/cas.py:289-301 | after a trace the file holds the last configuration written, or what it held before when nothing was written |
| Params.HandleCoreConfig | library/cas.py:250-258 | a core descriptor is accepted exactly when the volume, the cache id and the core id are all present and both ids convert with `int()`; any other descriptor gives "Missing core config parameters"; the record carries exactly the given volume and converted ids |
| Params.CollectCacheParams | library/cas.py:314-329 | each optional cache setting is set exactly when its value is truthy: the line size as a string, the io-class file under `/etc/opencas/ansible/`, and the two policies as given |
| Params.HandleCacheConfig | library/cas.py:306-333 | a cache descriptor is accepted exactly when device, id and mode are present and the id converts; otherwise "Missing cache config parameters"; `force` is passed through, `None` when absent |
| Params.CoreDescriptorRoundTrip | library/cas.py:250-258 | normalising the descriptor written from a core record, with decimal ids, gives back that record |
| Params.CacheDescriptorRoundTrip | library/cas.py:306-333 | normalising a minimal cache descriptor gives a cache with no optional setting and no `force` |
| Params.FalsyOptionIgnored | library/cas.py:315-329 | adding an optional cache setting with a falsy value does not change the normalised cache |
| Reconcile.Perform | library/cas.py:372-374 | live actions in a `try` block stop at the first that fails: all are called exactly when all succeed, and the failure reported is the first one's |
| Reconcile.Persisted | library/cas.py:362-367 | the file is written, with the updated configuration, exactly when the insertion succeeded; an entry already configured, or an insertion that raises, writes nothing |
| Reconcile.Transact | library/cas.py:355-382 | an unexpected insertion error ends the task before any effect; a successful insertion is written first; an entry already live is reported changed exactly when it was newly inserted; otherwise the task succeeds exactly when every live action does |
| Reconcile.TransactTrace | library/cas.py:279-303 | the file is written with the new entry exactly when inserted, and once more with the loaded configuration exactly when a live action failed; nothing live is done unless the entry is known not to be live; then the actions are called in order up to and including the first failure, which is the error reported, and the snapshot write comes last |
| Reconcile.TransactFile | library/cas.py:355-382 | afterwards the file holds the loaded configuration with the new entry when the task succeeds or the live query raises, and exactly the loaded configuration when a live action failed |
| Reconcile.CacheSteps | library/cas.py:372-374 | configuring a cache live is exactly two actions, in order: start the cache without load and with the caller's `force`, then configure it; each step's outcome is the library's answer to that call |
| Reconcile.ConfigureCacheFailure | library/cas.py:372-380 | when starting or configuring a cache that was not running fails, a casadm error is reported as an internal casadm error with its stderr, and any other error propagates unchanged; configuring is tried only after a successful start |
| Reconcile.ConfigureCacheDevice | library/cas.py:345-382 | a bad descriptor or an unreadable file fails before any effect; an unexpected insertion error fails before any effect; a newly inserted cache is written first; a started cache is reported changed exactly when newly inserted; otherwise success is exactly a successful start followed by a successful configure |
| Reconcile.ConfigureCacheTrace | library/cas.py:345-382 | the file writes are the new cache when inserted plus the loaded configuration when a live action failed; `start_cache` is called once, only for a cache not started, and `configure_cache` only after a successful start; the error reported is the first failing action's |
| Reconcile.ConfigureCacheFile | library/cas.py:345-382 | after a failed live action the file holds what was loaded; after success it holds the configuration with the new cache when inserted and is unchanged otherwise |
| Reconcile.ConfigureCoreDevice | library/cas.py:269-303 | a bad descriptor or an unreadable file fails before any effect; an unexpected insertion error fails before any effect; a newly inserted core is written first; an added core is reported changed exactly when newly inserted; otherwise success is exactly a successful `add_core` |
| Reconcile.ConfigureCoreTrace | library/cas.py:269-303 | the file writes are the new core when inserted plus the loaded configuration when adding failed; `add_core` is called once, not in try-add mode, and only for a core not yet added |
| Reconcile.ConfigureCoreFailure | library/cas.py:294-301 | when adding a core that was not added fails, a casadm error is reported as an internal casadm error with its stderr, and any other error propagates unchanged |
| Reconcile.ConfigureCoreFile | library/cas.py:269-303 | after a failed `add_core` the file holds what was loaded; after success it holds the configuration with the new core when inserted and is unchanged otherwise |
| Reconcile.CheckCacheConfig | library/cas.py:336-342 | checking a cache descriptor has no effect and never reports a change; it succeeds exactly when the descriptor normalises and the library accepts the cache with the given `force` |
| Reconcile.CheckCacheAgreesWithConfigure | library/cas.py:336-346 | checking and configuring a cache reject the same descriptors as missing parameters, both before any effect |
| Reconcile.CheckCoreConfig | library/cas.py:261-266 | checking a core descriptor has no effect and never reports a change; it succeeds exactly when the descriptor normalises and the library accepts the core |
| Reconcile.CheckCoreAgreesWithConfigure | library/cas.py:261-270 | checking and configuring a core reject the same descriptors as missing parameters, both before any effect |
| Reconcile.Zap | library/cas.py:220-235 | zapping never fails and never touches live devices; it reports a change exactly when a readable, non-empty configuration exists; it then writes one empty configuration with the same version tag, and otherwise writes nothing |
| Reconcile.Stop | library/cas.py:238-247 | stop is invoked at most once, with the caller's flush value, and exactly when some cache is running; nothing running means no change; a change is reported exactly when the stop succeeded and no cache is left running, and a cache left running is an error |
| Reconcile.GatherFacts | library/cas.py:193-217 | without the library or its version only "not installed" is reported; otherwise the version, whether the configuration is readable and non-empty, and whether any cache runs; it fails exactly when listing the caches raises; with the library present, a version and a readable cache list, the facts succeed and report the library installed |
| Reconcile.FactsAfterZap | library/cas.py:206-213 | facts gathered from the file a zap leaves behind report the library installed and no non-empty configuration |
| Reconcile.FactsAfterStop | library/cas.py:215 | facts gathered after a successful stop, from the caches then running, report no cache started |
| Tasks.SelectTask | library/cas.py:402-444 | the operation performed is a requested one, and no requested operation comes before it in the fixed order |
| Tasks.RunTask | library/cas.py:402-444 | with nothing requested nothing happens; only zap and configure write the file; only stop and configure touch live devices; facts are reported exactly by fact gathering; checks and fact gathering never report a change; stop without a flush value fails before any effect and otherwise passes the flush value through; the operation selected runs with its own options (the flush value for stop, its descriptor for a check or configure), and its effects, change flag and failure become the reply |
| Tasks.LaterOptionsIgnored | library/cas.py:402-444 | options after the first requested one make no difference to the run |
| IoClass.NonBlankMembers | action_plugins/cas.py:38 | the rows iterated are exactly the non-blank records after the header: every one of them and nothing else |
| IoClass.NonBlankOne | action_plugins/cas.py:38 | a single record gives one row when it is not blank and none when it is |
| IoClass.NonBlankAppend | action_plugins/cas.py:38 | the rows of two stretches of records are the rows of each, in order, repeats included |
| IoClass.LastIndexOf | action_plugins/cas.py:27 | a field is read from the last column of that name in the header |
| IoClass.DictRowAgrees | action_plugins/cas.py:27-39 | against a step-by-step model of `csv.DictReader` (header zipped with the cells, `None` for the fields past the end of a short row, the rest key holding a long row's extra cells), every header field holds the cell `Field` reads or `None` exactly when `Field` finds none, and the rest key is present exactly when the row is longer than the header |
| IoClass.FirstInvalidChar | action_plugins/cas.py:84-90 | the first disallowed character of a name is found exactly when there is one, and every character before it is allowed |
| IoClass.CheckRow | action_plugins/cas.py:39-122 | a row is accepted exactly when it passes every check on its own and its id is not used by an earlier row; the accepted rule is the row's id, name, priority and allocation, all within bounds |
| IoClass.CheckRowOrder | action_plugins/cas.py:39-122 | each rejection of a row is reported exactly when every check before it in the fixed order passed: length, id, duplicate id, name length, name characters, priority format, priority range, allocation |
| IoClass.DistinctCons | action_plugins/cas.py:60-66 | a new id in front of distinct unseen ids keeps them distinct and unseen exactly when it was not seen |
| IoClass.CheckRowsAccepts | action_plugins/cas.py:37-122 | rows are accepted exactly when every row passes every check on its own and no id repeats, among the rows or with an id seen earlier |
| IoClass.CheckRowsRules | action_plugins/cas.py:37-122 | accepted rows give one rule per row, in order, each the row's own values |
| IoClass.CheckRowsFirstFailure | action_plugins/cas.py:37-122 | a rejection is the error of the first failing row, checked against the ids of the rows before it, all of which were accepted |
| IoClass.RulesWellFormed | action_plugins/cas.py:53-122 | the rules of accepted rows have distinct ids and stay within the id, name, priority and allocation bounds |
| IoClass.RequiredFieldsPresent | action_plugins/cas.py:29-35 | a header with exactly the required field names has each of them |
| IoClass.ValidateIoClassFile | action_plugins/cas.py:14-122 | no file name means nothing to check; a missing file, an empty file and a wrong header are each rejected whatever the rows hold; accepted rules are well formed and have distinct ids |
| IoClass.ValidateAllOrNothing | action_plugins/cas.py:26-122 | a named file is accepted exactly when its header is right, every row passes every check and no id repeats; an accepted file gives one rule per non-blank row |
| IoClass.ReadRuleRecord | action_plugins/cas.py:27-45 | a rule written as a record under the standard header reads back as its own id, name, priority and allocation |
| IoClass.ReadRuleRecords | action_plugins/cas.py:27-45 | records written from rules read back, in order, as the rows of those rules |
| IoClass.CheckRuleRow | action_plugins/cas.py:39-122 | a well-formed rule whose id has not been seen passes every row check as itself |
| IoClass.AcceptedAsRules | action_plugins/cas.py:37-122 | rows of well-formed rules whose ids are distinct and unseen are accepted as exactly those rules |
| IoClass.WrittenFileValidates | action_plugins/cas.py:14-122 | a file written under the standard header from well-formed rules with distinct ids validates, and gives back exactly those rules |
| Action.PrepareArgs | action_plugins/cas.py:126-135 | without a truthy io-class file in the cache check the options pass untouched; otherwise the module runs exactly when the file validates, the error is the validator's, and only `io_class` is removed from the cache check's options |
| Action.PrepareIdempotent | action_plugins/cas.py:126-135 | preparing the options a second time changes nothing |
| Action.MissingFileStopsTask | action_plugins/cas.py:18-24 | a task naming a file absent from the role's files is stopped with "file not found" |

## Left out

- The opencas helper library (`cas_config`, `casadm`) is not part of this model. This covers parsing and writing the configuration file, what `insert_cache`, `insert_core` and `validate_config` accept, and how caches are started or stopped. The library appears only through the `CasLibrary` record and the oracle answers passed in.
- Whether the library could be imported is checked only by `gather_facts`. For the other operations the library's absence shows up as the oracle calls failing, because every other operation calls straight into it.
- A write of the configuration file that raises is not modelled. Every `Write` effect is taken to succeed. This includes the snapshot written back during rollback.
- Ansible glue is left out: `setup_module_object`, argument-spec type coercion, `exit_json`, and the action's `_execute_module` and `merge_hash`. The `bool`/`dict` option types are taken as already coerced. `Tasks.RunTask` returns the reply or the failure; the "<type>: <message>" text of `fail_json` is not produced.
- Message texts are not modelled. Failures are datatype constructors. The text `validate_ioclass_file` raises for an unparsable priority quotes the row's id rather than its priority (`action_plugins/cas.py:97`); only the text differs, and the model records the failure as `InvalidPriority`.
- Values.ToInt: strings are read as decimal literals with an optional sign and surrounding ASCII whitespace. The underscores, non-ASCII digits and non-ASCII whitespace that Python's `int()` also accepts are rejected. Floats, which `int()` truncates, are not a value kind here.
- Values.ToStr: `str()` is modelled for `None`, booleans, integers and strings only.
- `csv` tokenisation (quoting, delimiters, line endings) is taken as done. The validator receives records, and file reading is a function from path to records.
- Action.PrepareArgs: a `check_cache_config` that is not a dictionary is passed through untouched. In the source, the `in` test on a string would be a substring test, and the indexing `["io_class"]` at `action_plugins/cas.py:130` would then raise a `TypeError` before the deletion is reached.
- Concurrency and the timing between the live-state query and the live actions are left out. Each call's answer is fixed per run.
