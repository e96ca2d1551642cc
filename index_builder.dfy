/**
 * `build_index` of hosts.py: folds sanitized records into a lookup map from
 * one field to another, the last record with a given key winning.
 */
module IndexBuilder {
  import opened Sanitizer

  /**
   * The `(use_slug and item.has_key('slug')) and item['slug']` half of the
   * `and/or` idiom: the slug is taken only when it is present and non-empty.
   */
  predicate PrefersSlug(item: Record, useSlug: bool) {
    useSlug && "slug" in item && item["slug"] != ""
  }

  /** The fields `build_index` reads from `item`, which must be present. */
  predicate Indexable(item: Record, keyFrom: string, keyTo: string, useSlug: bool) {
    keyFrom in item && (PrefersSlug(item, useSlug) || keyTo in item)
  }

  /** Every record of `source` carries the fields `build_index` reads. */
  predicate AllIndexable(source: seq<Record>, keyFrom: string, keyTo: string, useSlug: bool) {
    forall i :: 0 <= i < |source| ==> Indexable(source[i], keyFrom, keyTo, useSlug)
  }

  /** The value stored for one record: its slug, or else its `keyTo` field. */
  function IndexName(item: Record, keyTo: string, useSlug: bool): (name: string)
    requires PrefersSlug(item, useSlug) || keyTo in item
    ensures PrefersSlug(item, useSlug) ==> name == item["slug"]
    ensures !PrefersSlug(item, useSlug) ==> name == item[keyTo]
  {
    if PrefersSlug(item, useSlug) then item["slug"] else item[keyTo]
  }

  /** The map `build_index` returns, as a fold over `source` in order. */
  function IndexOf(source: seq<Record>, keyFrom: string, keyTo: string, useSlug: bool): (index: map<string, string>)
    requires AllIndexable(source, keyFrom, keyTo, useSlug)
    ensures forall k :: k in index ==>
      exists i :: 0 <= i < |source| && source[i][keyFrom] == k && index[k] == IndexName(source[i], keyTo, useSlug)
  {
    if source == [] then map[]
    else
      var item := source[|source| - 1];
      IndexOf(source[..|source| - 1], keyFrom, keyTo, useSlug)[item[keyFrom] := IndexName(item, keyTo, useSlug)]
  }

  /** The domain of the index is exactly the set of `keyFrom` values. */
  lemma {:induction false} IndexOfDomain(source: seq<Record>, keyFrom: string, keyTo: string, useSlug: bool, key: string)
    requires AllIndexable(source, keyFrom, keyTo, useSlug)
    ensures key in IndexOf(source, keyFrom, keyTo, useSlug) <==>
      exists i :: 0 <= i < |source| && source[i][keyFrom] == key
  {
    if source != [] {
      var p := source[..|source| - 1];
      IndexOfDomain(p, keyFrom, keyTo, useSlug, key);
      if exists i :: 0 <= i < |source| && source[i][keyFrom] == key {
        var i :| 0 <= i < |source| && source[i][keyFrom] == key;
        if i < |p| {
          assert p[i] == source[i];
        }
      }
      if exists i :: 0 <= i < |p| && p[i][keyFrom] == key {
        var i :| 0 <= i < |p| && p[i][keyFrom] == key;
        assert source[i] == p[i];
      }
    }
  }

  /** A key maps to the slug-or-target value of the LAST record carrying it. */
  lemma {:induction false} IndexOfLastWins(source: seq<Record>, keyFrom: string, keyTo: string, useSlug: bool, i: nat)
    requires AllIndexable(source, keyFrom, keyTo, useSlug)
    requires i < |source|
    requires forall j :: i < j < |source| ==> source[j][keyFrom] != source[i][keyFrom]
    ensures source[i][keyFrom] in IndexOf(source, keyFrom, keyTo, useSlug)
    ensures IndexOf(source, keyFrom, keyTo, useSlug)[source[i][keyFrom]] == IndexName(source[i], keyTo, useSlug)
  {
    var p := source[..|source| - 1];
    if i < |source| - 1 {
      assert p[i] == source[i];
      IndexOfLastWins(p, keyFrom, keyTo, useSlug, i);
    }
  }

  /** `build_index`: one loop over the records, last write wins. */
  method BuildIndex(source: seq<Record>, keyFrom: string, keyTo: string, useSlug: bool) returns (index: map<string, string>)
    requires AllIndexable(source, keyFrom, keyTo, useSlug)
    ensures index == IndexOf(source, keyFrom, keyTo, useSlug)
  {
    index := map[];
    var i := 0;
    while i < |source|
      invariant 0 <= i <= |source|
      invariant index == IndexOf(source[..i], keyFrom, keyTo, useSlug)
    {
      assert source[..i + 1][..i] == source[..i];
      var item := source[i];
      var name := if PrefersSlug(item, useSlug) then item["slug"] else item[keyTo];
      index := index[item[keyFrom] := name];
      i := i + 1;
    }
    assert source[..|source|] == source;
  }

  /** With the slug preferred, a region `{id: 1, name: NYC1, slug: nyc1}` is indexed under its slug. */
  lemma SlugPreferredExample()
    ensures IndexOf([map["id" := "1", "name" := "NYC1", "slug" := "nyc1"]], "id", "name", true) == map["1" := "nyc1"]
    ensures IndexOf([map["id" := "1", "name" := "NYC1", "slug" := "nyc1"]], "id", "name", false) == map["1" := "NYC1"]
  {
    var item := map["id" := "1", "name" := "NYC1", "slug" := "nyc1"];
    assert [item][..0] == [];
  }
}
