/**
 * The cache manager of hosts.py: `is_cache_valid`, the fetch-or-reuse branch
 * and the output choice of `__init__`, and the two loaders that rebuild the
 * snapshot (`load_all_data_from_digital_ocean`, `load_droplets_from_digital_ocean`).
 * The provider's answers are parameters; the snapshot a loader returns is the
 * one it writes to the cache file.
 */
module Cache {
  import opened Wrappers
  import opened Sanitizer
  import opened IndexBuilder
  import opened Synthesizer

  /** The run state `self.data`, `self.index`, `self.inventory`, as written to the cache file. */
  datatype Snapshot = Snapshot(data: map<string, seq<Record>>, index: Indices, inventory: Inventory)

  /** The raw collections the provider client returns. */
  datatype RawCollections = RawCollections(
    droplets: seq<RawRecord>, regions: seq<RawRecord>, images: seq<RawRecord>,
    sizes: seq<RawRecord>, sshKeys: seq<RawRecord>, domains: seq<RawRecord>)

  /** The command-line switches the branch and the output choice read. */
  datatype Flags = Flags(
    forceCache: bool, refreshCache: bool, list: bool, host: Option<string>, all: bool,
    droplets: bool, regions: bool, images: bool, sizes: bool, sshKeys: bool, domains: bool)

  /** `self.args.host` is truthy: given and non-empty. */
  predicate HostRequested(flags: Flags) {
    flags.host.Some? && flags.host.value != ""
  }

  /** The host index `load_*` builds: sanitized address to droplet id, slugs ignored. */
  function HostIndex(droplets: seq<Record>): (index: map<string, string>)
    requires AllDroplets(droplets)
    ensures forall k :: k in index ==>
      exists i :: 0 <= i < |droplets| && droplets[i]["ip_address"] == k && index[k] == droplets[i]["id"]
  {
    assert AllIndexable(droplets, "ip_address", "id", false) by {
      forall i | 0 <= i < |droplets| ensures Indexable(droplets[i], "ip_address", "id", false) {
        assert IsDroplet(droplets[i]);
      }
    }
    IndexOf(droplets, "ip_address", "id", false)
  }

  /** The fields the loaders read from the sanitized collections are all present. */
  predicate Loadable(raw: RawCollections) {
    var regions := SanitizedAll(raw.regions);
    var images := SanitizedAll(raw.images);
    var sizes := SanitizedAll(raw.sizes);
    AllDroplets(SanitizedAll(raw.droplets))
    && AllIndexable(regions, "id", "name", true)
    && AllIndexable(sizes, "id", "name", true)
    && AllIndexable(images, "id", "name", true)
    && AllIndexable(images, "id", "distribution", true)
  }

  /**
   * A snapshot is consistent when its host index and its inventory are the
   * ones its droplets and its name indices give.
   */
  predicate Consistent(s: Snapshot) {
    "droplets" in s.data
    && AllDroplets(s.data["droplets"])
    && s.index.hostToDroplet == HostIndex(s.data["droplets"])
    && s.inventory == InventoryOf(s.data["droplets"], s.index)
  }

  /** The six collections of a full load, each sanitized record by record. */
  function SanitizedData(raw: RawCollections): (data: map<string, seq<Record>>)
    ensures data.Keys == {"droplets", "regions", "images", "sizes", "ssh_keys", "domains"}
    ensures data["droplets"] == SanitizedAll(raw.droplets)
    ensures data["regions"] == SanitizedAll(raw.regions)
    ensures data["images"] == SanitizedAll(raw.images)
    ensures data["sizes"] == SanitizedAll(raw.sizes)
    ensures data["ssh_keys"] == SanitizedAll(raw.sshKeys)
    ensures data["domains"] == SanitizedAll(raw.domains)
  {
    map["droplets" := SanitizedAll(raw.droplets), "regions" := SanitizedAll(raw.regions),
        "images" := SanitizedAll(raw.images), "sizes" := SanitizedAll(raw.sizes),
        "ssh_keys" := SanitizedAll(raw.sshKeys), "domains" := SanitizedAll(raw.domains)]
  }

  /** `load_all_data_from_digital_ocean`: sanitize every collection, rebuild every index and the inventory. */
  function Synthesize(raw: RawCollections): (s: Snapshot)
    requires Loadable(raw)
    ensures Consistent(s)
    ensures s.data == SanitizedData(raw)
    ensures s.index.regionToName == IndexOf(SanitizedAll(raw.regions), "id", "name", true)
    ensures s.index.sizeToName == IndexOf(SanitizedAll(raw.sizes), "id", "name", true)
    ensures s.index.imageToName == IndexOf(SanitizedAll(raw.images), "id", "name", true)
    ensures s.index.imageToDistro == IndexOf(SanitizedAll(raw.images), "id", "distribution", true)
  {
    var data := SanitizedData(raw);
    var droplets := SanitizedAll(raw.droplets);
    var images := SanitizedAll(raw.images);
    var index := Indices(
      IndexOf(SanitizedAll(raw.regions), "id", "name", true),
      IndexOf(SanitizedAll(raw.sizes), "id", "name", true),
      IndexOf(images, "id", "name", true),
      IndexOf(images, "id", "distribution", true),
      HostIndex(droplets));
    Snapshot(data, index, InventoryOf(droplets, index))
  }

  /**
   * `load_droplets_from_digital_ocean`: replace the droplets, rebuild the host
   * index and the inventory; the other collections and name indices stay.
   */
  function RefreshDroplets(s: Snapshot, rawDroplets: seq<RawRecord>): (r: Snapshot)
    requires AllDroplets(SanitizedAll(rawDroplets))
    ensures Consistent(r)
    ensures r.data == s.data["droplets" := SanitizedAll(rawDroplets)]
    ensures r.index == s.index.(hostToDroplet := r.index.hostToDroplet)
  {
    var droplets := SanitizedAll(rawDroplets);
    var index := s.index.(hostToDroplet := HostIndex(droplets));
    Snapshot(s.data["droplets" := droplets], index, InventoryOf(droplets, index))
  }

  /**
   * `image_to_distro` is built with the slug preferred, like the name indices:
   * an image that has a slug is indexed under its slug, not its distribution.
   */
  lemma DistroIndexTakesSlug()
    ensures IndexOf([map["id" := "7", "distribution" := "Ubuntu", "slug" := "ubuntu-14-04-x64"]],
                    "id", "distribution", true) == map["7" := "ubuntu-14-04-x64"]
  {
    var image := map["id" := "7", "distribution" := "Ubuntu", "slug" := "ubuntu-14-04-x64"];
    assert [image][..0] == [];
  }

  /** `is_cache_valid`: the snapshot exists and its modification time plus the maximum age is strictly later than now. */
  function IsCacheValid(mtime: Option<int>, maxAge: int, now: int): (valid: bool)
    ensures valid <==> mtime.Some? && mtime.value + maxAge > now
  {
    match mtime
    case None => false
    case Some(t) => t + maxAge > now
  }

  /** Written at time 0 with a maximum age of 60, the snapshot is fresh at 59 and stale at 60 and 61. */
  lemma FreshnessExample()
    ensures IsCacheValid(Some(0), 60, 59)
    ensures !IsCacheValid(Some(0), 60, 60)
    ensures !IsCacheValid(Some(0), 60, 61)
    ensures !IsCacheValid(None, 60, 0)
  {
  }

  /** A stale snapshot stays stale as time passes; a fresh one was fresh at every earlier time. */
  lemma StalenessIsPermanent(mtime: Option<int>, maxAge: int, now: int, later: int)
    requires now <= later
    ensures !IsCacheValid(mtime, maxAge, now) ==> !IsCacheValid(mtime, maxAge, later)
    ensures IsCacheValid(mtime, maxAge, later) ==> IsCacheValid(mtime, maxAge, now)
  {
  }

  /** What `__init__` does with the cache: fetch everything, or load the snapshot and then decide. */
  datatype Plan =
    | FullFetch
      /** Load the snapshot; if it is empty, stop (`fatalWhenEmpty`) or fetch everything;
          otherwise fetch the droplets again when `refreshDroplets`. */
    | FromCache(fatalWhenEmpty: bool, refreshDroplets: bool)

  /** The branch of `__init__` on the cache flags, as Python's precedence reads it. */
  function DecidePlan(flags: Flags, valid: bool): (p: Plan)
    ensures p.FullFetch? <==> (!flags.forceCache && flags.refreshCache) || !valid
    ensures p.FromCache? ==> (p.fatalWhenEmpty <==> flags.forceCache)
    ensures p.FromCache? ==>
      (p.refreshDroplets <==>
        !flags.forceCache && (flags.list || HostRequested(flags) || flags.all || flags.droplets))
  {
    if (!flags.forceCache && flags.refreshCache) || !valid then FullFetch
    else FromCache(flags.forceCache,
                   !flags.forceCache && (flags.list || HostRequested(flags) || flags.all || flags.droplets))
  }

  /** Why the run stops: the cache is empty and `--force-cache` forbids a fetch. */
  datatype CacheError = EmptyForcedCache

  /**
   * The state the run holds after the cache branch: the snapshot loaded or
   * rebuilt, or the fatal error. `cached` is the content of the cache file and
   * `live` what the provider would return.
   */
  function Prepare(flags: Flags, mtime: Option<int>, maxAge: int, now: int,
                   cached: Snapshot, live: RawCollections): (r: Result<Snapshot, CacheError>)
    requires Loadable(live)
    ensures r.Failure? <==>
      flags.forceCache && IsCacheValid(mtime, maxAge, now) && |cached.data| == 0
    ensures ((!flags.forceCache && flags.refreshCache) || !IsCacheValid(mtime, maxAge, now))
            ==> r == Success(Synthesize(live))
    ensures (!flags.forceCache && |cached.data| == 0) ==> r == Success(Synthesize(live))
  {
    match DecidePlan(flags, IsCacheValid(mtime, maxAge, now))
    case FullFetch => Success(Synthesize(live))
    case FromCache(fatalWhenEmpty, refreshDroplets) =>
      if |cached.data| == 0 then
        if fatalWhenEmpty then Failure(EmptyForcedCache) else Success(Synthesize(live))
      else if refreshDroplets then Success(RefreshDroplets(cached, live.droplets))
      else Success(cached)
  }

  /** A stale or missing snapshot is always rebuilt from the provider, even under `--force-cache`. */
  lemma StaleCacheIsRebuilt(flags: Flags, mtime: Option<int>, maxAge: int, now: int,
                            cached: Snapshot, live: RawCollections)
    requires Loadable(live)
    requires !IsCacheValid(mtime, maxAge, now)
    ensures Prepare(flags, mtime, maxAge, now, cached, live) == Success(Synthesize(live))
  {
  }

  /** With `--force-cache` and a fresh snapshot the provider is never asked: the snapshot is used as it is, or the run stops. */
  lemma ForcedFreshCacheIsUsedVerbatim(flags: Flags, mtime: Option<int>, maxAge: int, now: int,
                                       cached: Snapshot, live: RawCollections)
    requires Loadable(live)
    requires flags.forceCache && IsCacheValid(mtime, maxAge, now)
    ensures |cached.data| == 0 ==> Prepare(flags, mtime, maxAge, now, cached, live) == Failure(EmptyForcedCache)
    ensures |cached.data| != 0 ==> Prepare(flags, mtime, maxAge, now, cached, live) == Success(cached)
  {
  }

  /**
   * A fresh, non-empty snapshot without `--force-cache` or `--refresh-cache`
   * keeps its other collections and name indices; for list/host/all/droplets
   * only its droplets are fetched again.
   */
  lemma FreshCacheRefreshesOnlyDroplets(flags: Flags, mtime: Option<int>, maxAge: int, now: int,
                                        cached: Snapshot, live: RawCollections)
    requires Loadable(live)
    requires !flags.forceCache && !flags.refreshCache && IsCacheValid(mtime, maxAge, now)
    requires |cached.data| != 0
    ensures (flags.list || HostRequested(flags) || flags.all || flags.droplets) ==>
      Prepare(flags, mtime, maxAge, now, cached, live) == Success(RefreshDroplets(cached, live.droplets))
    ensures !(flags.list || HostRequested(flags) || flags.all || flags.droplets) ==>
      Prepare(flags, mtime, maxAge, now, cached, live) == Success(cached)
  {
  }

  /** Every snapshot the branch produces is consistent, provided a snapshot it reuses was. */
  lemma PrepareKeepsConsistent(flags: Flags, mtime: Option<int>, maxAge: int, now: int,
                               cached: Snapshot, live: RawCollections)
    requires Loadable(live)
    requires Consistent(cached)
    ensures Prepare(flags, mtime, maxAge, now, cached, live).Success?
            ==> Consistent(Prepare(flags, mtime, maxAge, now, cached, live).value)
  {
  }

  /**
   * The retry of `load_droplet_variables_for_host` is the full load: on a miss
   * in the current host index, and without `--force-cache`, the host is looked
   * up in the host index `Synthesize` builds from what the provider returns.
   */
  lemma HostRetryUsesFullLoad(requested: string, current: Snapshot, forceCache: bool,
                              live: RawCollections, showDroplet: string -> RawRecord)
    requires Loadable(live)
    requires ToSafe(requested) !in current.index.hostToDroplet && !forceCache
    ensures ToSafe(requested) !in HostIndex(SanitizedAll(live.droplets)) ==>
      HostVariables(requested, current.index, forceCache, Synthesize(live).index, showDroplet) == map[]
    ensures ToSafe(requested) in HostIndex(SanitizedAll(live.droplets)) ==>
      HostVariables(requested, current.index, forceCache, Synthesize(live).index, showDroplet)
        == Project(Sanitized(showDroplet(HostIndex(SanitizedAll(live.droplets))[ToSafe(requested)])),
                   Synthesize(live).index)
  {
  }

  /** What `__init__` prints. */
  datatype Output = Collection(name: string) | AllData | HostDetail | ListInventory

  /** The output chain of `__init__`: the first switch set wins; the inventory is the default. */
  function SelectOutput(flags: Flags): (out: Output)
    ensures out == ListInventory <==>
      !(flags.droplets || flags.regions || flags.images || flags.sizes || flags.sshKeys
        || flags.domains || flags.all || HostRequested(flags))
    ensures flags.droplets ==> out == Collection("droplets")
    ensures !flags.droplets && flags.regions ==> out == Collection("regions")
    ensures !(flags.droplets || flags.regions) && flags.images ==> out == Collection("images")
    ensures !(flags.droplets || flags.regions || flags.images) && flags.sizes ==> out == Collection("sizes")
    ensures !(flags.droplets || flags.regions || flags.images || flags.sizes) && flags.sshKeys
            ==> out == Collection("ssh_keys")
    ensures (!(flags.droplets || flags.regions || flags.images || flags.sizes || flags.sshKeys)
             && flags.domains) ==> out == Collection("domains")
    ensures out == AllData <==>
      flags.all && !(flags.droplets || flags.regions || flags.images || flags.sizes
        || flags.sshKeys || flags.domains)
    ensures out == HostDetail <==>
      HostRequested(flags) && !(flags.droplets || flags.regions || flags.images || flags.sizes
        || flags.sshKeys || flags.domains || flags.all)
  {
    if flags.droplets then Collection("droplets")
    else if flags.regions then Collection("regions")
    else if flags.images then Collection("images")
    else if flags.sizes then Collection("sizes")
    else if flags.sshKeys then Collection("ssh_keys")
    else if flags.domains then Collection("domains")
    else if flags.all then AllData
    else if HostRequested(flags) then HostDetail
    else ListInventory
  }
}
