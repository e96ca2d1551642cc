/**
 * The host/tag ledger of hosts.py: the `host`, `tag`, `tag_group` and
 * `host_tag_map` tables, the `get_*` queries, the idempotent `add_group`,
 * `add_tag`, `add_host`, and `database_import`.
 *
 * Row ids are the 1-based positions of the rows in their table: what SQLite
 * assigns to an integer primary key when rows are only ever appended.
 */
module Ledger {
  import opened Wrappers

  /** `tag_group.selection_type`, constrained to three values. */
  datatype SelectionType = Checkbox | Select | Multiselect

  datatype TagGroup = TagGroup(id: nat, name: string, selectionType: SelectionType)

  datatype Tag = Tag(id: nat, groupId: nat, name: string)

  datatype Host = Host(id: nat, address: string, hostName: Option<string>,
                       sshUser: Option<string>, sshPort: Option<int>)

  /** The four tables; a `host_tag_map` row is a (host id, tag id) pair, its composite key. */
  datatype Tables = Tables(groups: seq<TagGroup>, tags: seq<Tag>, hosts: seq<Host>, links: set<(nat, nat)>)

  /** An entry of the import document's `groups` list. */
  datatype GroupDoc = GroupDoc(name: string, selectionType: SelectionType)

  /** An entry of the import document's `tags` list: the tag and the name of its group. */
  datatype TagDoc = TagDoc(name: string, group: string)

  /** An entry of the import document's `hosts` list; absent and `null` fields are both `None`. */
  datatype HostDoc = HostDoc(address: string, hostName: Option<string>, sshUser: Option<string>,
                             sshPort: Option<int>, tags: seq<string>)

  /** The import document; an absent section is an empty list. */
  datatype ImportDoc = ImportDoc(groups: seq<GroupDoc>, tags: seq<TagDoc>, hosts: seq<HostDoc>)

  /** Why `add_tag` stops the process: the tag's group does not exist. */
  datatype LedgerError = GroupNotFound(tag: string, group: string)

  function GroupName(g: TagGroup): string { g.name }
  function TagName(t: Tag): string { t.name }
  function HostAddress(h: Host): string { h.address }

  /** The position of the first element of `s` whose `key` is `k` (`query(...).filter_by(...).first()`). */
  function FirstWithKey<T>(s: seq<T>, key: T -> string, k: string): (r: Option<nat>)
    ensures r.Some? ==> r.value < |s| && key(s[r.value]) == k
                        && forall j :: 0 <= j < r.value ==> key(s[j]) != k
    ensures r.None? ==> forall j :: 0 <= j < |s| ==> key(s[j]) != k
  {
    if s == [] then None
    else if key(s[0]) == k then Some(0)
    else match FirstWithKey(s[1..], key, k)
      case None => None
      case Some(i) => Some(i + 1)
  }

  /** Appending an element keeps an earlier first match, and is the first match otherwise. */
  lemma FirstWithKeyAppend<T>(s: seq<T>, x: T, key: T -> string, k: string)
    ensures FirstWithKey(s, key, k).Some? ==> FirstWithKey(s + [x], key, k) == FirstWithKey(s, key, k)
    ensures FirstWithKey(s, key, k).None? && key(x) == k ==> FirstWithKey(s + [x], key, k) == Some(|s|)
    ensures FirstWithKey(s, key, k).None? && key(x) != k ==> FirstWithKey(s + [x], key, k).None?
  {
    assert (s + [x])[|s|] == x;
    assert forall j :: 0 <= j < |s| ==> (s + [x])[j] == s[j];
  }

  /** `get_group(name=...)` over the `tag_group` table. */
  function GroupNamed(groups: seq<TagGroup>, name: string): (r: Option<TagGroup>)
    ensures r.Some? ==> r.value in groups && r.value.name == name
    ensures r.None? <==> forall g :: g in groups ==> g.name != name
  {
    match FirstWithKey(groups, GroupName, name)
    case None => None
    case Some(i) => Some(groups[i])
  }

  /** `get_tag(name=...)` over the `tag` table. */
  function TagNamed(tags: seq<Tag>, name: string): (r: Option<Tag>)
    ensures r.Some? ==> r.value in tags && r.value.name == name
    ensures r.None? <==> forall tag :: tag in tags ==> tag.name != name
  {
    match FirstWithKey(tags, TagName, name)
    case None => None
    case Some(i) => Some(tags[i])
  }

  /** `get_host(host=...)` over the `host` table. */
  function HostAt(hosts: seq<Host>, address: string): (r: Option<Host>)
    ensures r.Some? ==> r.value in hosts && r.value.address == address
    ensures r.None? <==> forall h :: h in hosts ==> h.address != address
  {
    match FirstWithKey(hosts, HostAddress, address)
    case None => None
    case Some(i) => Some(hosts[i])
  }

  /**
   * The ledger's invariant: ids are positions, names and addresses are unique,
   * every tag's group exists and every link joins an existing host and tag.
   */
  ghost predicate Valid(t: Tables) {
    (forall i :: 0 <= i < |t.groups| ==> t.groups[i].id == i + 1)
    && (forall i :: 0 <= i < |t.tags| ==> t.tags[i].id == i + 1)
    && (forall i :: 0 <= i < |t.hosts| ==> t.hosts[i].id == i + 1)
    && (forall i, j :: 0 <= i < j < |t.groups| ==> t.groups[i].name != t.groups[j].name)
    && (forall i, j :: 0 <= i < j < |t.tags| ==> t.tags[i].name != t.tags[j].name)
    && (forall i, j :: 0 <= i < j < |t.hosts| ==> t.hosts[i].address != t.hosts[j].address)
    && (forall i :: 0 <= i < |t.tags| ==> 1 <= t.tags[i].groupId <= |t.groups|)
    && (forall l :: l in t.links ==> 1 <= l.0 <= |t.hosts| && 1 <= l.1 <= |t.tags|)
  }

  /** `add_group`: the first group with the name, or a new group appended. */
  function AddGroupTo(t: Tables, doc: GroupDoc): (r: (Tables, TagGroup))
    ensures r.1 in r.0.groups && r.1.name == doc.name
    ensures t.groups <= r.0.groups && |r.0.groups| <= |t.groups| + 1
    ensures r.0 == t.(groups := r.0.groups)
  {
    match GroupNamed(t.groups, doc.name)
    case Some(g) => (t, g)
    case None =>
      var g := TagGroup(|t.groups| + 1, doc.name, doc.selectionType);
      (t.(groups := t.groups + [g]), g)
  }

  /** `add_tag`: fails when the group is missing; else the first tag with the name, or a new tag. */
  function AddTagTo(t: Tables, doc: TagDoc): (r: Result<(Tables, Tag), LedgerError>)
    ensures r.Failure? <==> forall g :: g in t.groups ==> g.name != doc.group
    ensures r.Success? ==> r.value.1 in r.value.0.tags && r.value.1.name == doc.name
    ensures r.Success? ==> t.tags <= r.value.0.tags && r.value.0 == t.(tags := r.value.0.tags)
  {
    var existing := TagNamed(t.tags, doc.name);
    match GroupNamed(t.groups, doc.group)
    case None => Failure(GroupNotFound(doc.name, doc.group))
    case Some(g) =>
      match existing
      case Some(tag) => Success((t, tag))
      case None =>
        var tag := Tag(|t.tags| + 1, g.id, doc.name);
        Success((t.(tags := t.tags + [tag]), tag))
  }

  /** The links `add_host` makes from a host to the named tags that exist; unknown names are skipped. */
  function LinksFor(tags: seq<Tag>, hostId: nat, names: seq<string>): (links: set<(nat, nat)>)
    ensures forall l :: l in links ==> l.0 == hostId && exists tag :: tag in tags && tag.id == l.1
  {
    if names == [] then {}
    else
      var prev := LinksFor(tags, hostId, names[..|names| - 1]);
      match TagNamed(tags, names[|names| - 1])
      case None => prev
      case Some(tag) => prev + {(hostId, tag.id)}
  }

  /** A link is made exactly for each listed name that names an existing tag. */
  lemma {:induction false} LinksForSpec(tags: seq<Tag>, hostId: nat, names: seq<string>, l: (nat, nat))
    ensures l in LinksFor(tags, hostId, names) <==>
      l.0 == hostId && exists n :: n in names && TagNamed(tags, n).Some? && TagNamed(tags, n).value.id == l.1
  {
    if names != [] {
      var p := names[..|names| - 1];
      LinksForSpec(tags, hostId, p, l);
      assert names == p + [names[|names| - 1]];
    }
  }

  /** `add_host`: the first host with the address, or a new one; then the links to its listed tags. */
  function AddHostTo(t: Tables, doc: HostDoc): (r: (Tables, Host))
    ensures r.1 in r.0.hosts && r.1.address == doc.address
    ensures t.hosts <= r.0.hosts && t.links <= r.0.links
    ensures r.0.groups == t.groups && r.0.tags == t.tags
    ensures forall l :: l in r.0.links && l !in t.links ==> l.0 == r.1.id
  {
    var (t1, h) := match HostAt(t.hosts, doc.address)
      case Some(h) => (t, h)
      case None =>
        var h := Host(|t.hosts| + 1, doc.address, doc.hostName, doc.sshUser, doc.sshPort);
        (t.(hosts := t.hosts + [h]), h);
    (t1.(links := t1.links + LinksFor(t1.tags, h.id, doc.tags)), h)
  }

  /** The `groups` loop of `database_import`. */
  function AddGroupsTo(t: Tables, docs: seq<GroupDoc>): (r: Tables)
    ensures t.groups <= r.groups && r == t.(groups := r.groups)
  {
    if docs == [] then t
    else AddGroupTo(AddGroupsTo(t, docs[..|docs| - 1]), docs[|docs| - 1]).0
  }

  /** The tables and, when the process stopped, why. */
  datatype ImportResult = ImportResult(tables: Tables, error: Option<LedgerError>)

  /** The `tags` loop of `database_import`: the first failing tag stops the process. */
  function AddTagsTo(t: Tables, docs: seq<TagDoc>): (r: ImportResult)
    ensures t.tags <= r.tables.tags && r.tables == t.(tags := r.tables.tags)
  {
    if docs == [] then ImportResult(t, None)
    else
      var prev := AddTagsTo(t, docs[..|docs| - 1]);
      if prev.error.Some? then prev
      else match AddTagTo(prev.tables, docs[|docs| - 1])
        case Failure(e) => ImportResult(prev.tables, Some(e))
        case Success((t1, _)) => ImportResult(t1, None)
  }

  /** The `hosts` loop of `database_import`. */
  function AddHostsTo(t: Tables, docs: seq<HostDoc>): (r: Tables)
    ensures t.hosts <= r.hosts && t.links <= r.links
    ensures r.groups == t.groups && r.tags == t.tags
  {
    if docs == [] then t
    else AddHostTo(AddHostsTo(t, docs[..|docs| - 1]), docs[|docs| - 1]).0
  }

  /**
   * `database_import`: groups, then tags, then hosts. Every add commits, so
   * when a tag stops the process the groups and earlier tags stay written.
   */
  function ImportInto(t: Tables, doc: ImportDoc): (r: ImportResult)
    ensures t.groups <= r.tables.groups && t.tags <= r.tables.tags
    ensures t.hosts <= r.tables.hosts && t.links <= r.tables.links
  {
    var afterTags := AddTagsTo(AddGroupsTo(t, doc.groups), doc.tags);
    if afterTags.error.Some? then afterTags
    else ImportResult(AddHostsTo(afterTags.tables, doc.hosts), None)
  }

  /** Appending a group keeps every group lookup that already succeeded. */
  lemma GroupNamedAppend(groups: seq<TagGroup>, g: TagGroup, name: string)
    ensures GroupNamed(groups, name).Some? ==> GroupNamed(groups + [g], name) == GroupNamed(groups, name)
    ensures GroupNamed(groups, name).None? && g.name == name ==> GroupNamed(groups + [g], name) == Some(g)
    ensures GroupNamed(groups, name).None? && g.name != name ==> GroupNamed(groups + [g], name).None?
  {
    FirstWithKeyAppend(groups, g, GroupName, name);
    assert (groups + [g])[|groups|] == g;
    if GroupNamed(groups, name).Some? {
      var i := FirstWithKey(groups, GroupName, name).value;
      assert (groups + [g])[i] == groups[i];
    }
  }

  /** Appending a tag keeps every tag lookup that already succeeded. */
  lemma TagNamedAppend(tags: seq<Tag>, tag: Tag, name: string)
    ensures TagNamed(tags, name).Some? ==> TagNamed(tags + [tag], name) == TagNamed(tags, name)
    ensures TagNamed(tags, name).None? && tag.name == name ==> TagNamed(tags + [tag], name) == Some(tag)
  {
    FirstWithKeyAppend(tags, tag, TagName, name);
    assert (tags + [tag])[|tags|] == tag;
    if TagNamed(tags, name).Some? {
      var i := FirstWithKey(tags, TagName, name).value;
      assert (tags + [tag])[i] == tags[i];
    }
  }

  /** Appending a host keeps every host lookup that already succeeded. */
  lemma HostAtAppend(hosts: seq<Host>, h: Host, address: string)
    ensures HostAt(hosts, address).Some? ==> HostAt(hosts + [h], address) == HostAt(hosts, address)
    ensures HostAt(hosts, address).None? && h.address == address ==> HostAt(hosts + [h], address) == Some(h)
  {
    FirstWithKeyAppend(hosts, h, HostAddress, address);
    assert (hosts + [h])[|hosts|] == h;
    if HostAt(hosts, address).Some? {
      var i := FirstWithKey(hosts, HostAddress, address).value;
      assert (hosts + [h])[i] == hosts[i];
    }
  }

  /**
   * A second `add_group` with the same name creates nothing and returns the
   * group the first call returned, whatever selection type it asks for.
   */
  lemma AddGroupIdempotent(t: Tables, doc: GroupDoc, again: GroupDoc)
    requires again.name == doc.name
    ensures AddGroupTo(AddGroupTo(t, doc).0, again) == AddGroupTo(t, doc)
  {
    var g := TagGroup(|t.groups| + 1, doc.name, doc.selectionType);
    GroupNamedAppend(t.groups, g, doc.name);
  }

  /** `add_tag` with a missing group fails whether or not the tag exists. */
  lemma AddTagNeedsGroup(t: Tables, doc: TagDoc)
    ensures AddTagTo(t, doc).Failure? <==> GroupNamed(t.groups, doc.group).None?
    ensures AddTagTo(t, doc).Failure? ==> AddTagTo(t, doc).error == GroupNotFound(doc.name, doc.group)
  {
  }

  /**
   * A second `add_tag` with the same name creates nothing and returns the tag
   * the first call returned, whatever group it names, provided that group exists.
   */
  lemma AddTagIdempotent(t: Tables, doc: TagDoc, again: TagDoc)
    requires AddTagTo(t, doc).Success?
    requires again.name == doc.name
    requires GroupNamed(AddTagTo(t, doc).value.0.groups, again.group).Some?
    ensures AddTagTo(AddTagTo(t, doc).value.0, again) == AddTagTo(t, doc)
  {
    var g := GroupNamed(t.groups, doc.group).value;
    var tag := Tag(|t.tags| + 1, g.id, doc.name);
    TagNamedAppend(t.tags, tag, doc.name);
  }

  /**
   * `add_host` on a known address creates no host and changes none of its
   * fields: it returns the existing record and only adds links to the listed
   * tags that exist.
   */
  lemma AddHostKeepsExisting(t: Tables, doc: HostDoc)
    requires HostAt(t.hosts, doc.address).Some?
    ensures AddHostTo(t, doc).1 == HostAt(t.hosts, doc.address).value
    ensures AddHostTo(t, doc).0 ==
      t.(links := t.links + LinksFor(t.tags, HostAt(t.hosts, doc.address).value.id, doc.tags))
  {
  }

  /** `add_group` returns the first group with the name, or appends one with the next id and the requested type. */
  lemma AddGroupCreates(t: Tables, doc: GroupDoc)
    ensures GroupNamed(t.groups, doc.name).Some? ==> AddGroupTo(t, doc) == (t, GroupNamed(t.groups, doc.name).value)
    ensures GroupNamed(t.groups, doc.name).None? ==>
      AddGroupTo(t, doc).1 == TagGroup(|t.groups| + 1, doc.name, doc.selectionType)
      && AddGroupTo(t, doc).0.groups == t.groups + [AddGroupTo(t, doc).1]
  {
  }

  /**
   * When the group exists, `add_tag` returns the first tag with the name, or
   * appends one with the next id filed under that group.
   */
  lemma AddTagCreates(t: Tables, doc: TagDoc)
    requires GroupNamed(t.groups, doc.group).Some?
    ensures TagNamed(t.tags, doc.name).Some? ==> AddTagTo(t, doc) == Success((t, TagNamed(t.tags, doc.name).value))
    ensures TagNamed(t.tags, doc.name).None? ==>
      AddTagTo(t, doc).value.1 == Tag(|t.tags| + 1, GroupNamed(t.groups, doc.group).value.id, doc.name)
      && AddTagTo(t, doc).value.0.tags == t.tags + [AddTagTo(t, doc).value.1]
  {
  }

  /** A new host carries the document's optional fields. */
  lemma AddHostCreates(t: Tables, doc: HostDoc)
    requires HostAt(t.hosts, doc.address).None?
    ensures AddHostTo(t, doc).0.hosts == t.hosts + [AddHostTo(t, doc).1]
    ensures AddHostTo(t, doc).1 == Host(|t.hosts| + 1, doc.address, doc.hostName, doc.sshUser, doc.sshPort)
  {
  }

  /** Repeating `add_host` with the same document changes nothing more. */
  lemma AddHostIdempotent(t: Tables, doc: HostDoc)
    ensures AddHostTo(AddHostTo(t, doc).0, doc) == AddHostTo(t, doc)
  {
    var (t1, h) := AddHostTo(t, doc);
    if HostAt(t.hosts, doc.address).None? {
      HostAtAppend(t.hosts, h, doc.address);
    }
    assert HostAt(t1.hosts, doc.address) == Some(h);
  }

  /** A link to a tag named in the list carries the id of the first tag with that name. */
  lemma LinkIdsExist(tags: seq<Tag>, hostId: nat, names: seq<string>)
    requires forall i :: 0 <= i < |tags| ==> tags[i].id == i + 1
    ensures forall l :: l in LinksFor(tags, hostId, names) ==> l.0 == hostId && 1 <= l.1 <= |tags|
  {
    forall l | l in LinksFor(tags, hostId, names) ensures l.0 == hostId && 1 <= l.1 <= |tags| {
      LinksForSpec(tags, hostId, names, l);
      var n :| n in names && TagNamed(tags, n).Some? && TagNamed(tags, n).value.id == l.1;
      var i := FirstWithKey(tags, TagName, n).value;
      assert tags[i].id == i + 1;
    }
  }

  /** `add_group` keeps the ledger invariant. */
  lemma AddGroupPreservesValid(t: Tables, doc: GroupDoc)
    requires Valid(t)
    ensures Valid(AddGroupTo(t, doc).0)
  {
  }

  /** A successful `add_tag` keeps the ledger invariant. */
  lemma AddTagPreservesValid(t: Tables, doc: TagDoc)
    requires Valid(t)
    requires AddTagTo(t, doc).Success?
    ensures Valid(AddTagTo(t, doc).value.0)
  {
    var g := GroupNamed(t.groups, doc.group).value;
    var i := FirstWithKey(t.groups, GroupName, doc.group).value;
    assert g.id == i + 1;
  }

  /** `add_host` keeps the ledger invariant. */
  lemma AddHostPreservesValid(t: Tables, doc: HostDoc)
    requires Valid(t)
    ensures Valid(AddHostTo(t, doc).0)
  {
    var (t1, h) := AddHostTo(t, doc);
    if HostAt(t.hosts, doc.address).Some? {
      var i := FirstWithKey(t.hosts, HostAddress, doc.address).value;
      assert h.id == i + 1;
    }
    LinkIdsExist(t.tags, h.id, doc.tags);
  }

  /** The groups loop keeps the ledger invariant. */
  lemma {:induction false} AddGroupsPreservesValid(t: Tables, docs: seq<GroupDoc>)
    requires Valid(t)
    ensures Valid(AddGroupsTo(t, docs))
  {
    if docs != [] {
      AddGroupsPreservesValid(t, docs[..|docs| - 1]);
      AddGroupPreservesValid(AddGroupsTo(t, docs[..|docs| - 1]), docs[|docs| - 1]);
    }
  }

  /** The tags loop keeps the ledger invariant, also when it stops. */
  lemma {:induction false} AddTagsPreservesValid(t: Tables, docs: seq<TagDoc>)
    requires Valid(t)
    ensures Valid(AddTagsTo(t, docs).tables)
  {
    if docs != [] {
      var prev := AddTagsTo(t, docs[..|docs| - 1]);
      AddTagsPreservesValid(t, docs[..|docs| - 1]);
      if prev.error.None? && AddTagTo(prev.tables, docs[|docs| - 1]).Success? {
        AddTagPreservesValid(prev.tables, docs[|docs| - 1]);
      }
    }
  }

  /** The hosts loop keeps the ledger invariant. */
  lemma {:induction false} AddHostsPreservesValid(t: Tables, docs: seq<HostDoc>)
    requires Valid(t)
    ensures Valid(AddHostsTo(t, docs))
  {
    if docs != [] {
      AddHostsPreservesValid(t, docs[..|docs| - 1]);
      AddHostPreservesValid(AddHostsTo(t, docs[..|docs| - 1]), docs[|docs| - 1]);
    }
  }

  /** Importing keeps names unique and references intact, also when a tag stops it. */
  lemma ImportPreservesValid(t: Tables, doc: ImportDoc)
    requires Valid(t)
    ensures Valid(ImportInto(t, doc).tables)
  {
    AddGroupsPreservesValid(t, doc.groups);
    var afterTags := AddTagsTo(AddGroupsTo(t, doc.groups), doc.tags);
    AddTagsPreservesValid(AddGroupsTo(t, doc.groups), doc.tags);
    if afterTags.error.None? {
      AddHostsPreservesValid(afterTags.tables, doc.hosts);
    }
  }

  /** After the groups loop, every group that existed and every imported group name can be found. */
  lemma {:induction false} AddGroupsFindsNames(t: Tables, docs: seq<GroupDoc>, name: string)
    requires GroupNamed(t.groups, name).Some? || exists i :: 0 <= i < |docs| && docs[i].name == name
    ensures GroupNamed(AddGroupsTo(t, docs).groups, name).Some?
  {
    if docs != [] {
      var p := docs[..|docs| - 1];
      var last := docs[|docs| - 1];
      var prev := AddGroupsTo(t, p);
      if GroupNamed(t.groups, name).Some? || exists i :: 0 <= i < |p| && p[i].name == name {
        if exists i :: 0 <= i < |p| && p[i].name == name {
          var i :| 0 <= i < |p| && p[i].name == name;
          assert docs[i] == p[i];
        }
        AddGroupsFindsNames(t, p, name);
      }
      if GroupNamed(prev.groups, last.name).None? {
        GroupNamedAppend(prev.groups, TagGroup(|prev.groups| + 1, last.name, last.selectionType), name);
      }
    }
  }

  /** The tags loop leaves the groups alone and succeeds when every tag's group exists. */
  lemma {:induction false} AddTagsSucceed(t: Tables, docs: seq<TagDoc>)
    requires forall i :: 0 <= i < |docs| ==> GroupNamed(t.groups, docs[i].group).Some?
    ensures AddTagsTo(t, docs).error.None?
    ensures AddTagsTo(t, docs).tables.groups == t.groups
  {
    if docs != [] {
      var p := docs[..|docs| - 1];
      forall i | 0 <= i < |p| ensures GroupNamed(t.groups, p[i].group).Some? {
        assert p[i] == docs[i];
      }
      AddTagsSucceed(t, p);
    }
  }

  /**
   * Because groups are imported before tags, a document whose every tag names
   * a group that exists or that the document itself defines imports without error.
   */
  lemma GroupsBeforeTags(t: Tables, doc: ImportDoc)
    requires forall i :: 0 <= i < |doc.tags| ==>
      GroupNamed(t.groups, doc.tags[i].group).Some?
      || exists j :: 0 <= j < |doc.groups| && doc.groups[j].name == doc.tags[i].group
    ensures ImportInto(t, doc).error.None?
  {
    var afterGroups := AddGroupsTo(t, doc.groups);
    forall i | 0 <= i < |doc.tags| ensures GroupNamed(afterGroups.groups, doc.tags[i].group).Some? {
      AddGroupsFindsNames(t, doc.groups, doc.tags[i].group);
    }
    AddTagsSucceed(afterGroups, doc.tags);
  }

  /** Once a tag has stopped the process, later tags change nothing. */
  lemma {:induction false} AddTagsStopsAtError(t: Tables, docs: seq<TagDoc>, k: nat)
    requires k <= |docs|
    requires AddTagsTo(t, docs[..k]).error.Some?
    ensures AddTagsTo(t, docs) == AddTagsTo(t, docs[..k])
  {
    if k < |docs| {
      var p := docs[..|docs| - 1];
      assert p[..k] == docs[..k];
      AddTagsStopsAtError(t, p, k);
    } else {
      assert docs[..k] == docs;
    }
  }

  /** The session's view of the four tables, appended to by the `add_*` methods. */
  class Store {
    var groups: seq<TagGroup>
    var tags: seq<Tag>
    var hosts: seq<Host>
    var links: set<(nat, nat)>

    /** The tables as a value. */
    function Contents(): Tables
      reads this
    {
      Tables(groups, tags, hosts, links)
    }

    /** A newly created database: four empty tables. */
    constructor ()
      ensures Contents() == Tables([], [], [], {})
      ensures Valid(Contents())
    {
      groups, tags, hosts, links := [], [], [], {};
    }

    /** `get_group(name=...)`: the first group with the name. */
    method GetGroup(name: string) returns (g: Option<TagGroup>)
      ensures g == GroupNamed(groups, name)
      ensures g.Some? ==> g.value in groups && g.value.name == name
      ensures g.None? <==> forall i :: 0 <= i < |groups| ==> groups[i].name != name
    {
      var i := 0;
      while i < |groups|
        invariant 0 <= i <= |groups|
        invariant forall j :: 0 <= j < i ==> groups[j].name != name
      {
        if groups[i].name == name {
          return Some(groups[i]);
        }
        i := i + 1;
      }
      return None;
    }

    /** `get_tag(name=...)`: the first tag with the name. */
    method GetTag(name: string) returns (tag: Option<Tag>)
      ensures tag == TagNamed(tags, name)
      ensures tag.Some? ==> tag.value in tags && tag.value.name == name
      ensures tag.None? <==> forall i :: 0 <= i < |tags| ==> tags[i].name != name
    {
      var i := 0;
      while i < |tags|
        invariant 0 <= i <= |tags|
        invariant forall j :: 0 <= j < i ==> tags[j].name != name
      {
        if tags[i].name == name {
          return Some(tags[i]);
        }
        i := i + 1;
      }
      return None;
    }

    /** `get_host(host=...)`: the first host with the address. */
    method GetHost(address: string) returns (h: Option<Host>)
      ensures h == HostAt(hosts, address)
      ensures h.Some? ==> h.value in hosts && h.value.address == address
      ensures h.None? <==> forall i :: 0 <= i < |hosts| ==> hosts[i].address != address
    {
      var i := 0;
      while i < |hosts|
        invariant 0 <= i <= |hosts|
        invariant forall j :: 0 <= j < i ==> hosts[j].address != address
      {
        if hosts[i].address == address {
          return Some(hosts[i]);
        }
        i := i + 1;
      }
      return None;
    }

    /** `add_group`. */
    method AddGroup(doc: GroupDoc) returns (g: TagGroup)
      modifies this
      ensures (Contents(), g) == AddGroupTo(old(Contents()), doc)
      ensures Valid(old(Contents())) ==> Valid(Contents())
    {
      var found := GetGroup(doc.name);
      if found.Some? {
        g := found.value;
      } else {
        g := TagGroup(|groups| + 1, doc.name, doc.selectionType);
        groups := groups + [g];
      }
      if Valid(old(Contents())) {
        AddGroupPreservesValid(old(Contents()), doc);
      }
    }

    /** `add_tag`; the `sys.exit` on a missing group is the `Failure`, with nothing written. */
    method AddTag(doc: TagDoc) returns (r: Result<Tag, LedgerError>)
      modifies this
      ensures AddTagTo(old(Contents()), doc).Failure? ==>
        r == Failure(AddTagTo(old(Contents()), doc).error) && Contents() == old(Contents())
      ensures AddTagTo(old(Contents()), doc).Success? ==>
        r == Success(AddTagTo(old(Contents()), doc).value.1) && Contents() == AddTagTo(old(Contents()), doc).value.0
      ensures Valid(old(Contents())) ==> Valid(Contents())
    {
      var existing := GetTag(doc.name);
      var group := GetGroup(doc.group);
      if group.None? {
        return Failure(GroupNotFound(doc.name, doc.group));
      }
      if existing.Some? {
        return Success(existing.value);
      }
      var tag := Tag(|tags| + 1, group.value.id, doc.name);
      tags := tags + [tag];
      if Valid(old(Contents())) {
        AddTagPreservesValid(old(Contents()), doc);
      }
      return Success(tag);
    }

    /** The tag loop of `add_host`: link `hostId` to each listed tag that exists. */
    method LinkTags(hostId: nat, names: seq<string>)
      modifies this
      ensures Contents() == old(Contents()).(links := old(links) + LinksFor(tags, hostId, names))
    {
      ghost var linked := links;
      var i := 0;
      while i < |names|
        invariant 0 <= i <= |names|
        invariant groups == old(groups) && tags == old(tags) && hosts == old(hosts)
        invariant links == linked + LinksFor(tags, hostId, names[..i])
      {
        assert names[..i + 1][..i] == names[..i];
        var tag := GetTag(names[i]);
        if tag.Some? {
          links := links + {(hostId, tag.value.id)};
        }
        i := i + 1;
      }
      assert names[..|names|] == names;
    }

    /** `add_host`: find or create the host, then link it to each listed tag that exists. */
    method AddHost(doc: HostDoc) returns (h: Host)
      modifies this
      ensures (Contents(), h) == AddHostTo(old(Contents()), doc)
      ensures Valid(old(Contents())) ==> Valid(Contents())
    {
      var found := GetHost(doc.address);
      if found.Some? {
        h := found.value;
      } else {
        h := Host(|hosts| + 1, doc.address, doc.hostName, doc.sshUser, doc.sshPort);
        hosts := hosts + [h];
      }
      LinkTags(h.id, doc.tags);
      if Valid(old(Contents())) {
        AddHostPreservesValid(old(Contents()), doc);
      }
    }

    /** The `groups` loop of `database_import`. */
    method ImportGroups(docs: seq<GroupDoc>)
      modifies this
      ensures Contents() == AddGroupsTo(old(Contents()), docs)
    {
      ghost var start := Contents();
      for i := 0 to |docs|
        invariant Contents() == AddGroupsTo(start, docs[..i])
      {
        assert docs[..i + 1][..i] == docs[..i];
        var _ := AddGroup(docs[i]);
      }
      assert docs[..|docs|] == docs;
    }

    /** The `tags` loop of `database_import`, which stops at the first missing group. */
    method ImportTags(docs: seq<TagDoc>) returns (err: Option<LedgerError>)
      modifies this
      ensures ImportResult(Contents(), err) == AddTagsTo(old(Contents()), docs)
    {
      ghost var start := Contents();
      var i := 0;
      while i < |docs|
        invariant 0 <= i <= |docs|
        invariant AddTagsTo(start, docs[..i]) == ImportResult(Contents(), None)
      {
        assert docs[..i + 1][..i] == docs[..i];
        var r := AddTag(docs[i]);
        if r.Failure? {
          AddTagsStopsAtError(start, docs, i + 1);
          return Some(r.error);
        }
        i := i + 1;
      }
      assert docs[..|docs|] == docs;
      return None;
    }

    /** The `hosts` loop of `database_import`. */
    method ImportHosts(docs: seq<HostDoc>)
      modifies this
      ensures Contents() == AddHostsTo(old(Contents()), docs)
    {
      ghost var start := Contents();
      for i := 0 to |docs|
        invariant Contents() == AddHostsTo(start, docs[..i])
      {
        assert docs[..i + 1][..i] == docs[..i];
        var _ := AddHost(docs[i]);
      }
      assert docs[..|docs|] == docs;
    }

    /** `database_import`: groups, then tags (stopping at the first failure), then hosts. */
    method DatabaseImport(doc: ImportDoc) returns (err: Option<LedgerError>)
      modifies this
      ensures ImportResult(Contents(), err) == ImportInto(old(Contents()), doc)
      ensures Valid(old(Contents())) ==> Valid(Contents())
    {
      ImportGroups(doc.groups);
      err := ImportTags(doc.tags);
      if err.None? {
        ImportHosts(doc.hosts);
      }
      if Valid(old(Contents())) {
        ImportPreservesValid(old(Contents()), doc);
      }
    }
  }
}
