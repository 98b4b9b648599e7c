/**
  The controller-side step of the `cas` action: before the module is shipped to the
  managed host, an I/O classification file named in `check_cache_config` is validated
  on the controller and its name removed from the options, so the module's own
  cache check never compares it.
 */
module Action {
  import opened Outcomes
  import opened Values
  import opened IoClass

  /** A task option: a plain value or a dictionary of values. */
  datatype Arg = Scalar(value: Value) | Dict(fields: map<string, Value>)

  const CheckCacheKey := "check_cache_config"
  const IoClassKey := "io_class"

  /** The task asks to check a cache and names a (truthy) I/O classification file. */
  predicate WantsIoClassCheck(args: map<string, Arg>) {
    && CheckCacheKey in args
    && args[CheckCacheKey].Dict?
    && IoClassKey in args[CheckCacheKey].fields
    && Truthy(args[CheckCacheKey].fields[IoClassKey])
  }

  /** The file name the check validates. */
  function IoClassName(args: map<string, Arg>): Value
    requires WantsIoClassCheck(args)
  {
    args[CheckCacheKey].fields[IoClassKey]
  }

  /**
    The options the module receives, or the error the controller raises instead of
    running it.
   */
  function PrepareArgs(args: map<string, Arg>, files: string -> Option<seq<Record>>)
    : (r: Result<map<string, Arg>, PolicyError>)
    // nothing to check: the options go through untouched
    ensures !WantsIoClassCheck(args) ==> r == Ok(args)
    // the module runs only on a file the validator accepts
    ensures WantsIoClassCheck(args) ==>
      (r.Ok? <==> ValidateIoClassFile(IoClassName(args), files).Ok?)
    ensures WantsIoClassCheck(args) && r.Err? ==>
      r.error == ValidateIoClassFile(IoClassName(args), files).error
    // only the file name is removed, and only from the cache check's options
    ensures r.Ok? ==> r.value.Keys == args.Keys
    ensures r.Ok? ==> forall key :: key in args && key != CheckCacheKey ==> r.value[key] == args[key]
    ensures r.Ok? && WantsIoClassCheck(args) ==>
      && r.value[CheckCacheKey].Dict?
      && IoClassKey !in r.value[CheckCacheKey].fields
      && r.value[CheckCacheKey].fields.Keys == args[CheckCacheKey].fields.Keys - {IoClassKey}
      && forall key :: key in r.value[CheckCacheKey].fields ==>
           r.value[CheckCacheKey].fields[key] == args[CheckCacheKey].fields[key]
  {
    if !WantsIoClassCheck(args) then Ok(args)
    else
      match ValidateIoClassFile(IoClassName(args), files)
      case Err(e) => Err(e)
      case Ok(_) =>
        var check := args[CheckCacheKey].fields;
        Ok(args[CheckCacheKey := Dict(check - {IoClassKey})])
  }

  /** Preparing the options twice is preparing them once: the file name is gone the second time. */
  lemma PrepareIdempotent(args: map<string, Arg>, files: string -> Option<seq<Record>>)
    requires PrepareArgs(args, files).Ok?
    ensures PrepareArgs(PrepareArgs(args, files).value, files) == PrepareArgs(args, files)
  {
    var once := PrepareArgs(args, files).value;
    assert !WantsIoClassCheck(once);
  }

  /** A task naming a file missing from the controller's files never reaches the host. */
  lemma MissingFileStopsTask(args: map<string, Arg>, files: string -> Option<seq<Record>>)
    requires WantsIoClassCheck(args)
    requires files(FilesDir + ToStr(IoClassName(args))).None?
    ensures PrepareArgs(args, files) == Err(FileNotFound)
  {
  }
}
