/**
  Normalisation of the playbook's cache and core descriptors into the library's
  configuration records (`handle_cache_config` and `handle_core_config`).
  Mode and policy strings are passed through unchecked: validating them is the
  library's business.
 */
module Params {
  import opened Outcomes
  import opened Values
  import opened Registry

  /** A descriptor: the option dictionary of one task. */
  type Args = map<string, Value>

  const CachedVolumeKey := "cached_volume"
  const CacheIdKey := "cache_id"
  const IdKey := "id"
  const CacheDeviceKey := "cache_device"
  const CacheModeKey := "cache_mode"
  const LineSizeKey := "line_size"
  const IoClassKey := "io_class"
  const CleaningPolicyKey := "cleaning_policy"
  const PromotionPolicyKey := "promotion_policy"
  const ForceKey := "force"

  /** Where the deployed I/O classification files live on the managed host. */
  const IoClassDir := "/etc/opencas/ansible/"

  /** A normalised cache descriptor: the library record plus the `force` flag for starting it. */
  datatype CacheRequest = CacheRequest(cache: CacheConfig, force: Value)

  /** `args.get(key)`: the value, or `None` when the key is absent. */
  function Get(args: Args, key: string): (v: Value)
    ensures key !in args ==> v == VNone
    ensures key in args ==> v == args[key]
  {
    if key in args then args[key] else VNone
  }

  /** The value of an optional setting, kept only when it is truthy (`if value:`). */
  function TruthyOption(args: Args, key: string): (r: Option<Value>)
    ensures r.Some? <==> key in args && Truthy(args[key])
    ensures r.Some? ==> r.value == args[key]
  {
    var v := Get(args, key);
    if Truthy(v) then Some(v) else None
  }

  /** `handle_core_config`: the three required core settings, ids converted with `int()`. */
  function HandleCoreConfig(args: Args): (r: Result<CoreConfig, Failure>)
    ensures r.Ok? <==>
      && CachedVolumeKey in args && CacheIdKey in args && IdKey in args
      && ToInt(args[CacheIdKey]).Some? && ToInt(args[IdKey]).Some?
    ensures r.Err? ==> r.error == MissingCoreParams
    ensures r.Ok? ==>
      && r.value.device == args[CachedVolumeKey]
      && Some(r.value.cacheId) == ToInt(args[CacheIdKey])
      && Some(r.value.coreId) == ToInt(args[IdKey])
  {
    if CachedVolumeKey !in args || CacheIdKey !in args || IdKey !in args then
      Err(MissingCoreParams)
    else
      match (ToInt(args[CacheIdKey]), ToInt(args[IdKey]))
      case (Some(cacheId), Some(coreId)) => Ok(CoreConfig(cacheId, coreId, args[CachedVolumeKey]))
      case _ => Err(MissingCoreParams)
  }

  /** The optional cache settings as `handle_cache_config` collects them into `params`. */
  function CollectCacheParams(args: Args): (p: CacheParams)
    ensures p.lineSize.Some? <==> LineSizeKey in args && Truthy(args[LineSizeKey])
    ensures p.lineSize.Some? ==> p.lineSize.value == ToStr(args[LineSizeKey])
    ensures p.ioClassFile.Some? <==> IoClassKey in args && Truthy(args[IoClassKey])
    ensures p.ioClassFile.Some? ==> p.ioClassFile.value == IoClassDir + ToStr(args[IoClassKey])
    ensures p.cleaningPolicy == TruthyOption(args, CleaningPolicyKey)
    ensures p.promotionPolicy == TruthyOption(args, PromotionPolicyKey)
  {
    var lineSize := TruthyOption(args, LineSizeKey);
    var ioClass := TruthyOption(args, IoClassKey);
    CacheParams(
      if lineSize.Some? then Some(ToStr(lineSize.value)) else None,
      if ioClass.Some? then Some(IoClassDir + ToStr(ioClass.value)) else None,
      TruthyOption(args, CleaningPolicyKey),
      TruthyOption(args, PromotionPolicyKey))
  }

  /** `handle_cache_config`: device, id and mode are required; `cache_mode` has no default. */
  function HandleCacheConfig(args: Args): (r: Result<CacheRequest, Failure>)
    ensures r.Ok? <==>
      CacheDeviceKey in args && IdKey in args && CacheModeKey in args && ToInt(args[IdKey]).Some?
    ensures r.Err? ==> r.error == MissingCacheParams
    ensures r.Ok? ==>
      && r.value.cache.device == args[CacheDeviceKey]
      && Some(r.value.cache.cacheId) == ToInt(args[IdKey])
      && r.value.cache.mode == args[CacheModeKey]
      && r.value.cache.params == CollectCacheParams(args)
      && r.value.force == Get(args, ForceKey)
  {
    if CacheDeviceKey !in args || IdKey !in args || CacheModeKey !in args then
      Err(MissingCacheParams)
    else
      match ToInt(args[IdKey])
      case None => Err(MissingCacheParams)
      case Some(cacheId) =>
        Ok(CacheRequest(
             CacheConfig(cacheId, args[CacheDeviceKey], args[CacheModeKey], CollectCacheParams(args)),
             Get(args, ForceKey)))
  }

  /** The descriptor a playbook writes for a core, with the ids spelled in decimal. */
  function CoreDescriptor(c: CoreConfig): Args {
    map[CachedVolumeKey := c.device, CacheIdKey := VStr(ShowInt(c.cacheId)), IdKey := VStr(ShowInt(c.coreId))]
  }

  /** Normalising a core descriptor written from a core record gives that record back. */
  lemma CoreDescriptorRoundTrip(c: CoreConfig)
    ensures HandleCoreConfig(CoreDescriptor(c)) == Ok(c)
  {
    IntStrRoundTrip(VInt(c.cacheId));
    IntStrRoundTrip(VInt(c.coreId));
  }

  /** The smallest cache descriptor: device, decimal id and mode, nothing optional. */
  function CacheDescriptor(id: int, device: Value, mode: Value): Args {
    map[CacheDeviceKey := device, IdKey := VStr(ShowInt(id)), CacheModeKey := mode]
  }

  /** A minimal cache descriptor normalises to a cache with no optional settings and no `force`. */
  lemma CacheDescriptorRoundTrip(id: int, device: Value, mode: Value)
    ensures HandleCacheConfig(CacheDescriptor(id, device, mode))
         == Ok(CacheRequest(CacheConfig(id, device, mode, CacheParams(None, None, None, None)), VNone))
  {
    IntStrRoundTrip(VInt(id));
  }

  /** Adding an optional setting with a falsy value does not change the normalised cache. */
  lemma FalsyOptionIgnored(args: Args, key: string, v: Value)
    requires key in {LineSizeKey, IoClassKey, CleaningPolicyKey, PromotionPolicyKey}
    requires key !in args && !Truthy(v)
    ensures HandleCacheConfig(args[key := v]) == HandleCacheConfig(args)
  {
    var args' := args[key := v];
    assert CollectCacheParams(args') == CollectCacheParams(args);
  }
}
