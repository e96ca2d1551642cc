# ansible-dbinventory `hosts.py`, modelled in Dafny

`hosts.py` is an Ansible dynamic-inventory script. It keeps a small SQLite
ledger of hosts, tags and tag groups. A second part of the script (inherited
from a DigitalOcean inventory script) turns provider records (droplets,
regions, images, sizes) into Ansible groups, caches them in a snapshot file,
and answers `--host` queries with `do_` variables. This project models the
logic of both parts:

- `sanitizer.dfy`, module `Sanitizer`: `to_safe`, `sanitize_dict`,
  `sanitize_list`. A raw provider record is its list of (key, optional value)
  entries in iteration order. Keys and values are already their `str()` text.
- `index_builder.dfy`, module `IndexBuilder`: `build_index` with its slug
  preference. The `IndexOf` fold specifies it, and the `BuildIndex` loop is
  proved equal to it.
- `synthesizer.dfy`, module `Synthesizer`: `push`, `build_inventory` and the
  host-variable projection. The class `InventoryBuilder` owns the inventory
  dictionary that `push` and `build_inventory` update in place. `InventoryOf`
  is the fold that specifies the loop.
- `cache.dfy`, module `Cache`: `is_cache_valid`, the fetch-or-reuse branch of
  `__init__` (`DecidePlan`, `Prepare`), the output choice (`SelectOutput`), and
  the two loaders as functions from provider answers to the snapshot they write.
- `ledger.dfy`, module `Ledger`: the `host`, `tag`, `tag_group` and
  `host_tag_map` tables as the value `Tables`. The class `Store` holds the
  session's tables. Its methods `GetGroup`/`GetTag`/`GetHost`, `AddGroup`,
  `AddTag`, `AddHost` and `DatabaseImport` are proved against the pure
  functions `AddGroupTo`, `AddTagTo`, `AddHostTo` and `ImportInto`.
- `wrappers.dfy`, module `Wrappers`: `Option` and `Result`.

Points where the code is easy to misread, modelled as the code has them:

- Freshness is strict: `mtime + max_age > now` (hosts.py:507). A snapshot is
  stale at exactly `mtime + max_age`.
- `build_inventory` assigns `inventory[id] = [ip]` (hosts.py:419). If a later
  droplet's id equals an earlier group key, that group is overwritten, so
  membership is not accumulate-only. `DropletListed` carries that condition
  explicitly.
- `image_to_distro` is built with the slug preference on (hosts.py:385).
  Images with a slug therefore get a `distro_<slug>` group
  (`Cache.DistroIndexTakesSlug`).
- The branch reads `not force_cache and refresh_cache or not valid`
  (hosts.py:168). An invalid cache is re-fetched even under `--force-cache`.
- A missing tag group stops the process. `database_import` commits every add
  as it goes, so the groups and earlier tags stay written. Only the failing
  `add_tag` itself writes nothing.
- The branch and output code after `sys.exit(0)` (hosts.py:148) is
  unreachable. The parser (hosts.py:215-242) also defines none of
  `force_cache`, `refresh_cache`, `droplets`, `regions` and the rest. The model
  treats them as plain booleans.
- `filter_by(...).first()` is modelled as the first row in insertion order.
  Row ids are 1-based insertion positions, as SQLite assigns them when rows are
  only appended.

## Model

| member | source | states |
|---|---|---|
| `Sanitizer.ToSafe` | hosts.py:547-549 | same length; characters of `[A-Za-z0-9.-]` are kept, every other character becomes `_` |
| `Sanitizer.ToSafeIsGroupToken` | hosts.py:547-549 | every output lies in the alphabet `[A-Za-z0-9_.-]` |
| `Sanitizer.ToSafeFixesExactlyGroupTokens` | hosts.py:547-549 | `to_safe(w) == w` if and only if `w` is already in `[A-Za-z0-9_.-]*` |
| `Sanitizer.ToSafeIdempotent` | hosts.py:547-549 | sanitizing twice equals sanitizing once |
| `Sanitizer.Sanitized` | hosts.py:552-557 | the record `sanitize_dict` builds has at most one entry per input entry |
| `Sanitizer.SanitizedKeys` | hosts.py:552-557 | the keys of `sanitize_dict` are exactly the sanitized keys of the entries whose value is not `None` |
| `Sanitizer.SanitizedLastWins` | hosts.py:552-557 | under each sanitized key sits the sanitized value of the last non-`None` entry whose key sanitizes to it |
| `Sanitizer.SanitizedIsGroupTokens` | hosts.py:552-557 | every key and value of a sanitized record is in `[A-Za-z0-9_.-]*` |
| `Sanitizer.SanitizedAll` | hosts.py:560-564 | one sanitized record per input record, same order |
| `Sanitizer.SanitizeDict` | hosts.py:552-557 | the loop builds exactly the sanitized record |
| `Sanitizer.SanitizeList` | hosts.py:560-564 | the loop keeps length and order and sanitizes each record |
| `IndexBuilder.IndexOfDomain` | hosts.py:402-408 | the index's keys are exactly the `key_from` values of the records |
| `IndexBuilder.IndexOfLastWins` | hosts.py:402-408 | each key maps to the last record with that key: its slug when `use_slug` is set and the slug is present and non-empty, otherwise its `key_to` field |
| `IndexBuilder.IndexName` | hosts.py:405 | the value stored for a record is its slug when the slug is preferred, otherwise its `key_to` field |
| `IndexBuilder.IndexOf` | hosts.py:402-408 | every key of the index comes from some record's `key_from` field, and maps to that record's slug-or-target value |
| `IndexBuilder.BuildIndex` | hosts.py:402-408 | the loop returns exactly the last-write-wins index |
| `IndexBuilder.SlugPreferredExample` | hosts.py:405 | `{id: 1, name: NYC1, slug: nyc1}` indexes to `nyc1` with the slug preferred and to `NYC1` without |
| `Synthesizer.Pushed` | hosts.py:539-544 | `push` adds `key` to the keys; `d[key]` becomes the old list plus `e`, or `[e]` when new; every other key is unchanged |
| `Synthesizer.PushAllAt` | hosts.py:539-544 | after a series of pushes, each key holds its old list followed by one `e` per push under it |
| `Synthesizer.AddDropletAt` | hosts.py:416-440 | one droplet: its id key becomes `[ip]`, discarding what it held; every other key keeps its list; each key then gains one `ip` per occurrence among the droplet's groups |
| `Synthesizer.GroupsCover` | hosts.py:420-440 | a droplet always joins its name, `region_`, `image_`, `size_` and `status_` groups; it joins `region_`/`size_`/`image_`/`distro_<name>` when the index lookup gives a non-empty name |
| `Synthesizer.AddDropletKeeps` | hosts.py:420-440 | a droplet step removes no address from any key other than the droplet's id |
| `Synthesizer.AddDropletJoins` | hosts.py:419-440 | a droplet step lists the droplet's address under its id and each of its groups |
| `Synthesizer.DropletListed` | hosts.py:411-440 | each droplet's address is in the final inventory under its id and each of its groups, unless a later droplet's id is that key |
| `Synthesizer.SingleDropletExample` | hosts.py:416-440 | droplet 5 "web1" with named region, size, image and distribution is listed under ten groups |
| `Synthesizer.NoDropletsNoGroups` | hosts.py:413 | the inventory starts empty |
| `Synthesizer.Project` | hosts.py:470-484 | every droplet field appears under `do_<field>`; `do_region`/`do_size` are added when `region_id`/`size_id` are present and `do_image`/`do_distro` when `image_id` is, overriding a same-named field and carrying the index lookup, possibly `None`; the keys are exactly these |
| `Synthesizer.HostVariables` | hosts.py:443-484 | the requested host is sanitized first; a miss in the cached index is retried against a full refresh unless the cache is forced; a miss there gives `{}`; a hit gives the projection of the fetched, sanitized droplet; all keys are `do_` keys |
| `Synthesizer.HostVariablesReportFields` | hosts.py:470-473 | on a hit, every fetched field not shadowed by a derived key is reported under `do_` with its value |
| `Synthesizer.InventoryBuilder.Push` | hosts.py:539-544 | updates the inventory to `Pushed` of the old one |
| `Synthesizer.InventoryBuilder.constructor` | hosts.py:134 | the inventory starts empty |
| `Synthesizer.InventoryBuilder.PushNamed` | hosts.py:426-440 | pushes under `prefix + name` only when the looked-up name is truthy |
| `Synthesizer.InventoryBuilder.AddDropletStep` | hosts.py:416-440 | one loop iteration performs exactly the droplet step |
| `Synthesizer.InventoryBuilder.BuildInventory` | hosts.py:411-440 | the inventory becomes the fold of the droplet step over the droplets from an empty inventory |
| `Cache.Synthesize` | hosts.py:369-390 | a full load stores each of the six collections as its sanitized list; `region_to_name`, `size_to_name`, `image_to_name` index `id` to `name` and `image_to_distro` indexes `id` to `distribution`, all preferring slugs; the host index and inventory are consistent with the droplets |
| `Cache.SanitizedData` | hosts.py:375-380 | the data of a full load has exactly the six collection keys, each holding its sanitized list |
| `Cache.HostIndex` | hosts.py:386 | every address in the host index comes from a droplet's `ip_address` and maps to that droplet's `id`, slugs ignored |
| `Cache.RefreshDroplets` | hosts.py:393-399 | a droplet refresh replaces only the droplets, the host index and the inventory, and leaves a consistent snapshot |
| `Cache.DistroIndexTakesSlug` | hosts.py:385 | an image with a slug is indexed in `image_to_distro` under its slug |
| `Cache.IsCacheValid` | hosts.py:502-509 | valid if and only if the snapshot exists and `mtime + max_age > now` |
| `Cache.FreshnessExample` | hosts.py:502-509 | written at 0 with max age 60: fresh at 59, stale at 60 and 61; missing is stale |
| `Cache.StalenessIsPermanent` | hosts.py:502-509 | a stale snapshot stays stale as time passes |
| `Cache.DecidePlan` | hosts.py:168-182 | full fetch if and only if `(!force_cache && refresh_cache) || !valid`; otherwise an empty cache is fatal exactly under `force_cache`, and droplets are re-fetched exactly when not forced and list/host/all/droplets is asked |
| `Cache.Prepare` | hosts.py:168-182 | the branch stops with an error if and only if the cache is forced, fresh and empty; `--refresh-cache` without `--force-cache`, or a stale or missing snapshot, gives a full load; a fresh but empty cache without `--force-cache` also falls back to a full load |
| `Cache.StaleCacheIsRebuilt` | hosts.py:168-169 | a stale or missing snapshot is always rebuilt from the provider, even under `force_cache` |
| `Cache.ForcedFreshCacheIsUsedVerbatim` | hosts.py:168-182 | with `force_cache` and a fresh snapshot, the provider is never asked: the snapshot is used as is, or the run stops when it is empty |
| `Cache.FreshCacheRefreshesOnlyDroplets` | hosts.py:177-182 | a fresh non-empty snapshot, not forced or refreshed, only has its droplets re-fetched, and only for list/host/all/droplets |
| `Cache.PrepareKeepsConsistent` | hosts.py:168-182 | every snapshot the branch produces has its host index and inventory agreeing with its droplets, if a reused snapshot did |
| `Cache.HostRetryUsesFullLoad` | hosts.py:446-453 | on a miss without `--force-cache`, the host is looked up in the host index the full load builds from the provider's droplets; a second miss gives `{}` |
| `Cache.SelectOutput` | hosts.py:184-195 | first set switch wins in the order droplets, regions, images, sizes, ssh keys, domains, all, host: one clause per rung, the `all` and host rungs in both directions; the inventory is printed exactly when none is set |
| `Ledger.FirstWithKey` | hosts.py:359-366 | returns the first position whose key matches, or none when no row matches |
| `Ledger.GroupNamed` | hosts.py:359-360 | a group found has the name and is in the table; none is found exactly when no group has the name |
| `Ledger.TagNamed` | hosts.py:365-366 | a tag found has the name and is in the table; none is found exactly when no tag has the name |
| `Ledger.HostAt` | hosts.py:362-363 | a host found has the address and is in the table; none is found exactly when no host has it |
| `Ledger.AddGroupTo` | hosts.py:306-315 | the group returned has the requested name and is in the table; the groups table only grows, by at most one row; the other tables are unchanged |
| `Ledger.AddTagTo` | hosts.py:341-356 | fails exactly when no group has the requested name; on success the tag returned has the name and is in the table, the tags table only grows and nothing else changes |
| `Ledger.LinksFor` | hosts.py:331-337 | every link made starts at the host and ends at the id of an existing tag |
| `Ledger.AddHostTo` | hosts.py:317-339 | the host returned has the address and is in the table; hosts and links only grow; groups and tags are unchanged; every new link starts at that host |
| `Ledger.AddGroupsTo` | hosts.py:297-301 | the groups loop only appends groups and changes nothing else |
| `Ledger.AddTagsTo` | hosts.py:297-301 | the tags loop only appends tags and changes nothing else |
| `Ledger.AddHostsTo` | hosts.py:297-301 | the hosts loop only adds hosts and links; groups and tags are unchanged |
| `Ledger.ImportInto` | hosts.py:285-303 | an import never removes or rewrites a row of any table: each is an extension of the old one |
| `Ledger.LinksForSpec` | hosts.py:331-337 | a host gets a link exactly for each listed name that resolves to an existing tag; unknown names are skipped |
| `Ledger.LinkIdsExist` | hosts.py:331-337 | every link made points at the host and at an existing tag id |
| `Ledger.AddGroupIdempotent` | hosts.py:306-315 | a repeated `add_group` with the same name creates nothing and returns the group the first call returned, whatever type it asks for |
| `Ledger.AddGroupCreates` | hosts.py:306-315 | `add_group` returns the first group with the name unchanged, or appends `TagGroup(next id, name, requested type)` |
| `Ledger.AddTagNeedsGroup` | hosts.py:341-348 | `add_tag` fails if and only if its group is missing, even when the tag already exists |
| `Ledger.AddTagIdempotent` | hosts.py:341-356 | a repeated `add_tag` with the same name creates nothing and returns the first call's tag |
| `Ledger.AddTagCreates` | hosts.py:341-356 | with the group present, `add_tag` returns the first tag with the name unchanged, or appends `Tag(next id, id of the named group, name)` |
| `Ledger.AddHostKeepsExisting` | hosts.py:317-339 | `add_host` on a known address returns the existing record, changes none of its fields and only adds links |
| `Ledger.AddHostCreates` | hosts.py:317-329 | a new host is appended with the next id and the document's `host_name`/`ssh_user`/`ssh_port` |
| `Ledger.AddHostIdempotent` | hosts.py:317-339 | repeating `add_host` with the same document changes nothing more |
| `Ledger.AddGroupPreservesValid` | hosts.py:306-315 | `add_group` keeps ids positional, group names unique and references intact |
| `Ledger.AddTagPreservesValid` | hosts.py:341-356 | a new tag keeps tag names unique and refers to an existing group |
| `Ledger.AddHostPreservesValid` | hosts.py:317-339 | `add_host` keeps addresses unique and links pointing at existing hosts and tags |
| `Ledger.ImportPreservesValid` | hosts.py:285-303 | an import keeps the ledger invariant, also when a tag stops it |
| `Ledger.AddGroupsFindsNames` | hosts.py:297-301 | after the groups loop, every earlier group and every imported group name can be found |
| `Ledger.AddTagsSucceed` | hosts.py:297-301 | the tags loop leaves groups alone and cannot fail when every tag's group exists |
| `Ledger.GroupsBeforeTags` | hosts.py:297-301 | because groups come first, a document whose tags name only existing or imported groups imports without error |
| `Ledger.AddTagsStopsAtError` | hosts.py:341-347 | after a tag stops the process, the later tags change nothing |
| `Ledger.Store.constructor` | hosts.py:268-270 | a new database has four empty tables, which satisfy the invariant |
| `Ledger.Store.GetGroup` | hosts.py:359-360 | returns the first group with the name, or none when there is none |
| `Ledger.Store.GetHost` | hosts.py:362-363 | returns the first host with the address, or none when there is none |
| `Ledger.Store.GetTag` | hosts.py:365-366 | returns the first tag with the name, or none when there is none |
| `Ledger.Store.AddGroup` | hosts.py:306-315 | updates the tables and returns the group exactly as `AddGroupTo`, and keeps the ledger invariant |
| `Ledger.Store.AddTag` | hosts.py:341-356 | on a missing group returns the error and leaves the tables unchanged; otherwise acts as `AddTagTo`; keeps the ledger invariant |
| `Ledger.Store.AddHost` | hosts.py:317-339 | updates the tables and returns the host exactly as `AddHostTo`, and keeps the ledger invariant |
| `Ledger.Store.LinkTags` | hosts.py:331-337 | the tag loop of `add_host` adds exactly `LinksFor` of the listed names and changes nothing else |
| `Ledger.Store.ImportGroups` | hosts.py:297-301 | the groups loop applies `add_group` to each entry in order |
| `Ledger.Store.ImportTags` | hosts.py:297-301 | the tags loop applies `add_tag` in order and stops at the first missing group, returning its error |
| `Ledger.Store.ImportHosts` | hosts.py:297-301 | the hosts loop applies `add_host` to each entry in order |
| `Ledger.Store.DatabaseImport` | hosts.py:297-303 | groups, then tags (stopping at the first failure), then hosts, as `ImportInto`, keeping the ledger invariant |

## Left out

- Command-line parsing and environment variables (hosts.py:208-242): configuration plumbing. The switches the branch reads are parameters (`Cache.Flags`).
- The SQLAlchemy engine, session, table creation and commits (hosts.py:249-282): replaced by the in-memory `Ledger.Store`. The check of `selection_type` against its enumeration is the `SelectionType` datatype itself. Import values outside the three types are not modelled.
- Duplicate `host_tag_map` rows: links are a set, as the composite key makes them. The model does not say whether appending an existing link makes the commit fail.
- The import file lookup and `json.load` (hosts.py:285-295), and the cache read/write and `json.dumps` formatting (hosts.py:197-200, 512-531). The snapshot is a value passed in (`cached`) and out (the loader results). The printed document for each output choice is not modelled.
- The DigitalOcean client calls (hosts.py:371, 395, 463). Their answers are parameters: `RawCollections`, the droplet list of a refresh, and `showDroplet` for one droplet by id. A failing call, which aborts the run, is not modelled.
- The `cache_refreshed` branch (hosts.py:456-460): `cache_refreshed` is never set to true (hosts.py:166), so this branch is dead.
- `os.path.getmtime` and `time()`: integer parameters rather than floating-point clock readings.
- The credential check and `--env` output (hosts.py:152-162), and the unused AES import (hosts.py:116).
- `sys.exit` as process termination: an error value (`LedgerError`, `CacheError`).
- `str()` conversion of non-string keys and values, and the byte-level behaviour of `re.sub` on non-ASCII text: values arrive as their `str()` text, and each character outside the class becomes one `_`.
- Missing record fields (a `KeyError` in Python): preconditions (`IsDroplet`, `AllIndexable`, `Loadable`). The import document's fields are always present, because `GroupDoc`, `TagDoc` and `HostDoc` have them.
- `--db-export` is parsed but has no implementation in the script, so there is no export to model.
