/**
 * The inventory synthesizer of hosts.py: `push`, `build_inventory` and the
 * `do_` projection of `load_droplet_variables_for_host`.
 */
module Synthesizer {
  import opened Wrappers
  import opened Sanitizer

  /** The Ansible inventory: group key to the addresses in it, in insertion order. */
  type Inventory = map<string, seq<string>>

  /** The lookup maps of `self.index`. */
  datatype Indices = Indices(
    regionToName: map<string, string>,
    sizeToName: map<string, string>,
    imageToName: map<string, string>,
    imageToDistro: map<string, string>,
    hostToDroplet: map<string, string>)

  /** The fields `build_inventory` reads from a droplet with `droplet[...]`. */
  predicate IsDroplet(d: Record) {
    "ip_address" in d && "id" in d && "name" in d && "region_id" in d
    && "image_id" in d && "size_id" in d && "status" in d
  }

  /** `dict.get`: the value under `k`, or `None`. */
  function Lookup(m: map<string, string>, k: string): (r: Option<string>)
    ensures r.Some? <==> k in m
    ensures r.Some? ==> r.value == m[k]
  {
    if k in m then Some(m[k]) else None
  }

  /** Python truthiness of a looked-up name: present and non-empty. */
  predicate Truthy(o: Option<string>) {
    o.Some? && o.value != ""
  }

  /** The addresses under `k`, or none when `k` is not a key. */
  function Members(inv: Inventory, k: string): seq<string> {
    if k in inv then inv[k] else []
  }

  /** `e` repeated `n` times. */
  function Repeat(e: string, n: nat): (r: seq<string>)
    ensures |r| == n
    ensures forall i :: 0 <= i < n ==> r[i] == e
  {
    if n == 0 then [] else Repeat(e, n - 1) + [e]
  }

  /** The number of occurrences of `k` in `keys`. */
  function Count(keys: seq<string>, k: string): (n: nat)
    ensures n > 0 <==> k in keys
  {
    if keys == [] then 0
    else Count(keys[..|keys| - 1], k) + (if keys[|keys| - 1] == k then 1 else 0)
  }

  /** `push`: append `e` under `key`, creating the list when `key` is new. */
  function Pushed(inv: Inventory, key: string, e: string): (r: Inventory)
    ensures r.Keys == inv.Keys + {key}
    ensures key in inv ==> r[key] == inv[key] + [e]
    ensures key !in inv ==> r[key] == [e]
    ensures forall k :: k in inv && k != key ==> r[k] == inv[k]
  {
    if key in inv then inv[key := inv[key] + [e]] else inv[key := [e]]
  }

  /** Pushing `e` under each of `keys` in turn. */
  function PushAll(inv: Inventory, keys: seq<string>, e: string): (r: Inventory)
  {
    if keys == [] then inv
    else Pushed(PushAll(inv, keys[..|keys| - 1], e), keys[|keys| - 1], e)
  }

  /** Pushing under one more key is one more `Pushed`. */
  lemma PushAllSnoc(inv: Inventory, keys: seq<string>, k: string, e: string)
    ensures PushAll(inv, keys + [k], e) == Pushed(PushAll(inv, keys, e), k, e)
  {
    assert (keys + [k])[..|keys|] == keys;
  }

  /** One push, key by key. */
  lemma PushedAt(inv: Inventory, key: string, e: string, k: string)
    ensures k in Pushed(inv, key, e) <==> k in inv || k == key
    ensures Members(Pushed(inv, key, e), k) == Members(inv, k) + (if k == key then [e] else [])
  {
  }

  /** After pushing under `keys`, a key holds its old list followed by one `e` per occurrence. */
  lemma {:induction false} PushAllAt(inv: Inventory, keys: seq<string>, e: string, k: string)
    ensures k in PushAll(inv, keys, e) <==> k in inv || k in keys
    ensures Members(PushAll(inv, keys, e), k) == Members(inv, k) + Repeat(e, Count(keys, k))
  {
    if keys != [] {
      var p := keys[..|keys| - 1];
      var last := keys[|keys| - 1];
      var prev := PushAll(inv, p, e);
      PushAllAt(inv, p, e, k);
      assert PushAll(inv, keys, e) == Pushed(prev, last, e);
      PushedAt(prev, last, e, k);
      assert k in keys <==> k in p || k == last by {
        assert keys == p + [last];
      }
      var n := Count(p, k);
      if k == last {
        assert Count(keys, k) == n + 1;
        assert Repeat(e, n + 1) == Repeat(e, n) + [e];
        assert Members(PushAll(inv, keys, e), k) == Members(inv, k) + Repeat(e, n) + [e];
      } else {
        assert Count(keys, k) == n;
      }
    }
  }

  /** The droplet's id-keyed groups, which it always joins. */
  function FixedGroups(d: Record): seq<string>
    requires IsDroplet(d)
  {
    [d["name"], "region_" + d["region_id"], "image_" + d["image_id"],
     "size_" + d["size_id"], "status_" + d["status"]]
  }

  /** A name-keyed group, joined only when the index lookup gave a non-empty name. */
  function NameGroup(prefix: string, name: Option<string>): seq<string> {
    if Truthy(name) then [prefix + name.value] else []
  }

  /** The groups (besides its id) a droplet is pushed into, in the order of `build_inventory`. */
  function Groups(d: Record, idx: Indices): seq<string>
    requires IsDroplet(d)
  {
    FixedGroups(d)
    + NameGroup("region_", Lookup(idx.regionToName, d["region_id"]))
    + NameGroup("size_", Lookup(idx.sizeToName, d["size_id"]))
    + NameGroup("image_", Lookup(idx.imageToName, d["image_id"]))
    + NameGroup("distro_", Lookup(idx.imageToDistro, d["image_id"]))
  }

  /** One iteration of the droplet loop: assign the id group, then push into the others. */
  function AddDroplet(inv: Inventory, d: Record, idx: Indices): (r: Inventory)
    requires IsDroplet(d)
  {
    PushAll(inv[d["id"] := [d["ip_address"]]], Groups(d, idx), d["ip_address"])
  }

  /** Every droplet of `droplets` has the fields `build_inventory` reads. */
  predicate AllDroplets(droplets: seq<Record>) {
    forall i :: 0 <= i < |droplets| ==> IsDroplet(droplets[i])
  }

  /** The inventory `build_inventory` leaves: the droplet loop run from an empty inventory. */
  function InventoryOf(droplets: seq<Record>, idx: Indices): (inv: Inventory)
    requires AllDroplets(droplets)
  {
    if droplets == [] then map[]
    else AddDroplet(InventoryOf(droplets[..|droplets| - 1], idx), droplets[|droplets| - 1], idx)
  }

  /**
   * One droplet step, key by key: the id key is overwritten with `[ip]`, every
   * other key keeps its list, and each key then gets one `ip` per time it occurs
   * among the droplet's groups.
   */
  lemma AddDropletAt(inv: Inventory, d: Record, idx: Indices, k: string)
    requires IsDroplet(d)
    ensures k in AddDroplet(inv, d, idx) <==> k in inv || k == d["id"] || k in Groups(d, idx)
    ensures Members(AddDroplet(inv, d, idx), k) ==
      (if k == d["id"] then [d["ip_address"]] else Members(inv, k))
      + Repeat(d["ip_address"], Count(Groups(d, idx), k))
  {
    PushAllAt(inv[d["id"] := [d["ip_address"]]], Groups(d, idx), d["ip_address"], k);
  }

  /** The groups a droplet always joins, and the name groups it joins when the index names them. */
  lemma GroupsCover(d: Record, idx: Indices)
    requires IsDroplet(d)
    ensures d["name"] in Groups(d, idx)
    ensures "region_" + d["region_id"] in Groups(d, idx)
    ensures "image_" + d["image_id"] in Groups(d, idx)
    ensures "size_" + d["size_id"] in Groups(d, idx)
    ensures "status_" + d["status"] in Groups(d, idx)
    ensures Truthy(Lookup(idx.regionToName, d["region_id"])) ==>
      "region_" + idx.regionToName[d["region_id"]] in Groups(d, idx)
    ensures Truthy(Lookup(idx.sizeToName, d["size_id"])) ==>
      "size_" + idx.sizeToName[d["size_id"]] in Groups(d, idx)
    ensures Truthy(Lookup(idx.imageToName, d["image_id"])) ==>
      "image_" + idx.imageToName[d["image_id"]] in Groups(d, idx)
    ensures Truthy(Lookup(idx.imageToDistro, d["image_id"])) ==>
      "distro_" + idx.imageToDistro[d["image_id"]] in Groups(d, idx)
  {
  }

  /** A droplet step keeps every address under every key other than the droplet's id. */
  lemma AddDropletKeeps(inv: Inventory, d: Record, idx: Indices, k: string, x: string)
    requires IsDroplet(d)
    requires k != d["id"] && x in Members(inv, k)
    ensures x in Members(AddDroplet(inv, d, idx), k)
  {
    AddDropletAt(inv, d, idx, k);
    var m :| 0 <= m < |Members(inv, k)| && Members(inv, k)[m] == x;
    assert Members(AddDroplet(inv, d, idx), k)[m] == x;
  }

  /** A droplet step lists the droplet's address under its id and each of its groups. */
  lemma AddDropletJoins(inv: Inventory, d: Record, idx: Indices, k: string)
    requires IsDroplet(d)
    requires k == d["id"] || k in Groups(d, idx)
    ensures d["ip_address"] in Members(AddDroplet(inv, d, idx), k)
  {
    AddDropletAt(inv, d, idx, k);
    var after := Members(AddDroplet(inv, d, idx), k);
    if k == d["id"] {
      assert after[0] == d["ip_address"];
    } else {
      var before := Members(inv, k);
      assert Repeat(d["ip_address"], Count(Groups(d, idx), k))[0] == d["ip_address"];
      assert after[|before|] == d["ip_address"];
    }
  }

  /**
   * A droplet's address is listed under its id and each of its groups in the
   * final inventory, unless a later droplet's id overwrites that key.
   */
  lemma {:induction false} DropletListed(droplets: seq<Record>, idx: Indices, i: nat, k: string)
    requires AllDroplets(droplets)
    requires i < |droplets|
    requires k == droplets[i]["id"] || k in Groups(droplets[i], idx)
    requires forall j :: i < j < |droplets| ==> droplets[j]["id"] != k
    ensures k in InventoryOf(droplets, idx)
    ensures droplets[i]["ip_address"] in InventoryOf(droplets, idx)[k]
  {
    var n := |droplets|;
    var p := droplets[..n - 1];
    var d := droplets[n - 1];
    if i == n - 1 {
      AddDropletJoins(InventoryOf(p, idx), d, idx, k);
    } else {
      assert p[i] == droplets[i];
      forall j | i < j < |p| ensures p[j]["id"] != k {
        assert p[j] == droplets[j];
      }
      DropletListed(p, idx, i, k);
      AddDropletKeeps(InventoryOf(p, idx), d, idx, k, droplets[i]["ip_address"]);
    }
  }

  /**
   * Droplet 5 ("web1", 10.0.0.5) in region nyc1 with image 7 and size 3, whose
   * indices name the region, size, image and distribution, is listed under ten
   * groups.
   */
  lemma SingleDropletExample()
    ensures var d := map["id" := "5", "name" := "web1", "ip_address" := "10.0.0.5", "region_id" := "nyc1",
                         "image_id" := "7", "size_id" := "3", "status" := "active"];
            var idx := Indices(map["nyc1" := "New_York_1"], map["3" := "512mb"], map["7" := "ubuntu-14"],
                               map["7" := "ubuntu"], map[]);
            forall k :: k in {"5", "web1", "region_nyc1", "region_New_York_1", "image_7", "image_ubuntu-14",
                              "size_3", "size_512mb", "status_active", "distro_ubuntu"} ==>
              k in InventoryOf([d], idx) && "10.0.0.5" in InventoryOf([d], idx)[k]
  {
    var d := map["id" := "5", "name" := "web1", "ip_address" := "10.0.0.5", "region_id" := "nyc1",
                 "image_id" := "7", "size_id" := "3", "status" := "active"];
    var idx := Indices(map["nyc1" := "New_York_1"], map["3" := "512mb"], map["7" := "ubuntu-14"],
                       map["7" := "ubuntu"], map[]);
    assert IsDroplet(d);
    assert d["name"] == "web1" && d["region_id"] == "nyc1" && d["image_id"] == "7" && d["size_id"] == "3"
      && d["status"] == "active" && d["id"] == "5" && d["ip_address"] == "10.0.0.5";
    assert "region_" + d["region_id"] == "region_nyc1" && "image_" + d["image_id"] == "image_7"
      && "size_" + d["size_id"] == "size_3" && "status_" + d["status"] == "status_active";
    assert "region_" + "New_York_1" == "region_New_York_1" && "size_" + "512mb" == "size_512mb"
      && "image_" + "ubuntu-14" == "image_ubuntu-14" && "distro_" + "ubuntu" == "distro_ubuntu";
    assert FixedGroups(d) == ["web1", "region_nyc1", "image_7", "size_3", "status_active"];
    assert NameGroup("region_", Lookup(idx.regionToName, d["region_id"])) == ["region_New_York_1"];
    assert NameGroup("size_", Lookup(idx.sizeToName, d["size_id"])) == ["size_512mb"];
    assert NameGroup("image_", Lookup(idx.imageToName, d["image_id"])) == ["image_ubuntu-14"];
    assert NameGroup("distro_", Lookup(idx.imageToDistro, d["image_id"])) == ["distro_ubuntu"];
    assert Groups(d, idx) == ["web1", "region_nyc1", "image_7", "size_3", "status_active",
                              "region_New_York_1", "size_512mb", "image_ubuntu-14", "distro_ubuntu"];
    forall k | k in {"5", "web1", "region_nyc1", "region_New_York_1", "image_7", "image_ubuntu-14",
                     "size_3", "size_512mb", "status_active", "distro_ubuntu"}
      ensures k in InventoryOf([d], idx) && "10.0.0.5" in InventoryOf([d], idx)[k]
    {
      DropletListed([d], idx, 0, k);
    }
  }

  /** `build_inventory` starts from an empty inventory, so no droplets give no groups. */
  lemma NoDropletsNoGroups(idx: Indices)
    ensures InventoryOf([], idx) == map[]
  {
  }

  /** True when `key` lies in the `do_` namespace of host variables. */
  predicate InDoNamespace(key: string) {
    |key| >= 3 && key[..3] == "do_"
  }

  /** The `do_` keys of a droplet's own fields. */
  function PrefixedKeys(droplet: Record): set<string> {
    set k | k in droplet :: "do_" + k
  }

  /** The user-friendly keys, each added when its raw `*_id` field is present. */
  function DerivedKeys(droplet: Record): set<string> {
    (if "region_id" in droplet then {"do_region"} else {})
    + (if "size_id" in droplet then {"do_size"} else {})
    + (if "image_id" in droplet then {"do_image", "do_distro"} else {})
  }

  /**
   * The `do_` projection of `load_droplet_variables_for_host`: every field
   * under `do_<field>`, then the names the indices give for the region, size,
   * image and distribution, which may be `None` when the index has no entry.
   */
  function Project(droplet: Record, idx: Indices): (info: map<string, Option<string>>)
    ensures info.Keys == PrefixedKeys(droplet) + DerivedKeys(droplet)
    ensures forall key :: key in info ==> InDoNamespace(key)
    ensures forall k :: k in droplet && "do_" + k !in DerivedKeys(droplet) ==>
      info["do_" + k] == Some(droplet[k])
    ensures "region_id" in droplet ==> info["do_region"] == Lookup(idx.regionToName, droplet["region_id"])
    ensures "size_id" in droplet ==> info["do_size"] == Lookup(idx.sizeToName, droplet["size_id"])
    ensures "image_id" in droplet ==>
      info["do_image"] == Lookup(idx.imageToName, droplet["image_id"])
      && info["do_distro"] == Lookup(idx.imageToDistro, droplet["image_id"])
  {
    var fields := map key | key in PrefixedKeys(droplet) :: Some(droplet[key[3..]]);
    var withRegion := if "region_id" in droplet
      then fields["do_region" := Lookup(idx.regionToName, droplet["region_id"])] else fields;
    var withSize := if "size_id" in droplet
      then withRegion["do_size" := Lookup(idx.sizeToName, droplet["size_id"])] else withRegion;
    if "image_id" in droplet
    then withSize["do_image" := Lookup(idx.imageToName, droplet["image_id"])]
                 ["do_distro" := Lookup(idx.imageToDistro, droplet["image_id"])]
    else withSize
  }

  /**
   * `load_droplet_variables_for_host`. The requested host is sanitized and
   * looked up in `host_to_droplet`; on a miss, and unless the cache is forced,
   * the indices of a full refresh (`refreshed`) are consulted instead; a miss
   * there too gives no variables. On a hit the droplet is fetched by id
   * (`showDroplet`), sanitized and projected.
   */
  function HostVariables(requested: string, idx: Indices, forceCache: bool, refreshed: Indices,
                         showDroplet: string -> RawRecord): (info: map<string, Option<string>>)
    ensures forall key :: key in info ==> InDoNamespace(key)
    ensures (ToSafe(requested) !in idx.hostToDroplet
             && (forceCache || ToSafe(requested) !in refreshed.hostToDroplet)) ==> info == map[]
    ensures ToSafe(requested) in idx.hostToDroplet ==>
      info == Project(Sanitized(showDroplet(idx.hostToDroplet[ToSafe(requested)])), idx)
    ensures ToSafe(requested) !in idx.hostToDroplet && !forceCache && ToSafe(requested) in refreshed.hostToDroplet ==>
      info == Project(Sanitized(showDroplet(refreshed.hostToDroplet[ToSafe(requested)])), refreshed)
  {
    var host := ToSafe(requested);
    var current := if host in idx.hostToDroplet || forceCache then idx else refreshed;
    if host !in current.hostToDroplet then map[]
    else
      var droplet := Sanitized(showDroplet(current.hostToDroplet[host]));
      if droplet == map[] then map[] else Project(droplet, current)
  }

  /** Every field of the fetched droplet that no derived key shadows is reported under `do_`. */
  lemma HostVariablesReportFields(requested: string, idx: Indices, forceCache: bool, refreshed: Indices,
                                  showDroplet: string -> RawRecord, k: string)
    requires ToSafe(requested) in idx.hostToDroplet
    requires k in Sanitized(showDroplet(idx.hostToDroplet[ToSafe(requested)]))
    requires "do_" + k !in DerivedKeys(Sanitized(showDroplet(idx.hostToDroplet[ToSafe(requested)])))
    ensures "do_" + k in HostVariables(requested, idx, forceCache, refreshed, showDroplet)
    ensures HostVariables(requested, idx, forceCache, refreshed, showDroplet)["do_" + k]
      == Some(Sanitized(showDroplet(idx.hostToDroplet[ToSafe(requested)]))[k])
  {
  }

  /** The object's `inventory` dictionary, updated in place by `push` and `build_inventory`. */
  class InventoryBuilder {
    var inventory: Inventory

    constructor ()
      ensures inventory == map[]
    {
      inventory := map[];
    }

    /** `push(self.inventory, key, e)`. */
    method Push(key: string, e: string)
      modifies this
      ensures inventory == Pushed(old(inventory), key, e)
    {
      if key in inventory {
        inventory := inventory[key := inventory[key] + [e]];
      } else {
        inventory := inventory[key := [e]];
      }
    }

    /** Pushes under `prefix + name` when the looked-up `name` is truthy. */
    method PushNamed(prefix: string, name: Option<string>, dest: string, ghost base: Inventory, ghost pushed: seq<string>)
      requires inventory == PushAll(base, pushed, dest)
      modifies this
      ensures inventory == PushAll(base, pushed + NameGroup(prefix, name), dest)
    {
      if name.Some? && name.value != "" {
        Push(prefix + name.value, dest);
        PushAllSnoc(base, pushed, prefix + name.value, dest);
      } else {
        assert pushed + NameGroup(prefix, name) == pushed;
      }
    }

    /** The body of the droplet loop of `build_inventory`, for one droplet. */
    method AddDropletStep(droplet: Record, idx: Indices)
      requires IsDroplet(droplet)
      modifies this
      ensures inventory == AddDroplet(old(inventory), droplet, idx)
    {
      var dest := droplet["ip_address"];
      inventory := inventory[droplet["id"] := [dest]];
      ghost var base := inventory;
      var fixed := [droplet["name"], "region_" + droplet["region_id"], "image_" + droplet["image_id"],
                    "size_" + droplet["size_id"], "status_" + droplet["status"]];
      for j := 0 to 5
        invariant inventory == PushAll(base, fixed[..j], dest)
      {
        Push(fixed[j], dest);
        PushAllSnoc(base, fixed[..j], fixed[j], dest);
        assert fixed[..j + 1] == fixed[..j] + [fixed[j]];
      }
      assert fixed[..5] == FixedGroups(droplet);
      ghost var pushed := FixedGroups(droplet);

      var regionName := Lookup(idx.regionToName, droplet["region_id"]);
      PushNamed("region_", regionName, dest, base, pushed);
      pushed := pushed + NameGroup("region_", regionName);

      var sizeName := Lookup(idx.sizeToName, droplet["size_id"]);
      PushNamed("size_", sizeName, dest, base, pushed);
      pushed := pushed + NameGroup("size_", sizeName);

      var imageName := Lookup(idx.imageToName, droplet["image_id"]);
      PushNamed("image_", imageName, dest, base, pushed);
      pushed := pushed + NameGroup("image_", imageName);

      var distroName := Lookup(idx.imageToDistro, droplet["image_id"]);
      PushNamed("distro_", distroName, dest, base, pushed);
      pushed := pushed + NameGroup("distro_", distroName);
      assert pushed == Groups(droplet, idx);
    }

    /** `build_inventory` over the droplets and indices it reads from the object. */
    method BuildInventory(droplets: seq<Record>, idx: Indices)
      requires AllDroplets(droplets)
      modifies this
      ensures inventory == InventoryOf(droplets, idx)
    {
      inventory := map[];
      var i := 0;
      while i < |droplets|
        invariant 0 <= i <= |droplets|
        invariant inventory == InventoryOf(droplets[..i], idx)
      {
        assert droplets[..i + 1][..i] == droplets[..i];
        AddDropletStep(droplets[i], idx);
        i := i + 1;
      }
      assert droplets[..|droplets|] == droplets;
    }
  }
}
