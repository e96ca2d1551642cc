/**
 * The sanitizer of hosts.py: `to_safe`, `sanitize_dict` and `sanitize_list`.
 *
 * A raw record is a dictionary as the provider client returns it. It is given
 * here as its entries in iteration order; every key and every non-`None` value
 * is already its `str(...)` text.
 */
module Sanitizer {
  import opened Wrappers

  /** One raw dictionary, in iteration order; `None` values are kept as `None`. */
  type RawRecord = seq<(string, Option<string>)>

  /** A sanitized dictionary: every key and value has been through `ToSafe`. */
  type Record = map<string, string>

  /** The character class `[A-Za-z0-9\-\.]` that `to_safe` leaves alone. */
  predicate IsSafeChar(c: char) {
    ('A' <= c <= 'Z') || ('a' <= c <= 'z') || ('0' <= c <= '9') || c == '-' || c == '.'
  }

  /** The alphabet of group names: the safe class plus the replacement `_`. */
  predicate IsGroupChar(c: char) {
    IsSafeChar(c) || c == '_'
  }

  /** True when every character of `w` is in the group-name alphabet. */
  predicate IsGroupToken(w: string) {
    forall i :: 0 <= i < |w| ==> IsGroupChar(w[i])
  }

  /** `to_safe`: every character outside the safe class becomes `_`. */
  function ToSafe(word: string): (r: string)
    ensures |r| == |word|
    ensures forall i :: 0 <= i < |word| && IsSafeChar(word[i]) ==> r[i] == word[i]
    ensures forall i :: 0 <= i < |word| && !IsSafeChar(word[i]) ==> r[i] == '_'
  {
    if word == [] then []
    else [if IsSafeChar(word[0]) then word[0] else '_'] + ToSafe(word[1..])
  }

  /** Every output of `ToSafe` is a group token. */
  lemma ToSafeIsGroupToken(word: string)
    ensures IsGroupToken(ToSafe(word))
  {
  }

  /** `ToSafe` leaves a word unchanged exactly when it is already a group token. */
  lemma ToSafeFixesExactlyGroupTokens(word: string)
    ensures ToSafe(word) == word <==> IsGroupToken(word)
  {
    var r := ToSafe(word);
    if r == word {
      forall i | 0 <= i < |word| ensures IsGroupChar(word[i]) {
        assert r[i] == word[i];
      }
    }
    if IsGroupToken(word) {
      forall i | 0 <= i < |word| ensures r[i] == word[i] {
        assert IsGroupChar(word[i]);
      }
    }
  }

  /** Sanitizing twice is the same as sanitizing once. */
  lemma ToSafeIdempotent(word: string)
    ensures ToSafe(ToSafe(word)) == ToSafe(word)
  {
    ToSafeIsGroupToken(word);
    ToSafeFixesExactlyGroupTokens(ToSafe(word));
  }

  /**
   * What `sanitize_dict` builds: entries with a `None` value are dropped, the
   * others are stored under the sanitized key with the sanitized value; a later
   * entry overwrites an earlier one with the same sanitized key.
   */
  function Sanitized(d: RawRecord): (r: Record)
    ensures |r| <= |d|
  {
    if d == [] then map[]
    else
      var prev := Sanitized(d[..|d| - 1]);
      var entry := d[|d| - 1];
      match entry.1
      case None => prev
      case Some(v) => prev[ToSafe(entry.0) := ToSafe(v)]
  }

  /** The sanitized keys are exactly the sanitized keys of the entries with a value. */
  lemma {:induction false} SanitizedKeys(d: RawRecord, key: string)
    ensures key in Sanitized(d) <==>
      exists i :: 0 <= i < |d| && d[i].1.Some? && ToSafe(d[i].0) == key
  {
    if d != [] {
      var p := d[..|d| - 1];
      SanitizedKeys(p, key);
      if key in Sanitized(p) {
        var i :| 0 <= i < |p| && p[i].1.Some? && ToSafe(p[i].0) == key;
        assert d[i] == p[i];
      }
      if exists i :: 0 <= i < |d| && d[i].1.Some? && ToSafe(d[i].0) == key {
        var i :| 0 <= i < |d| && d[i].1.Some? && ToSafe(d[i].0) == key;
        if i < |p| {
          assert p[i] == d[i];
        }
      }
    }
  }

  /**
   * The value stored under a sanitized key is the sanitized value of the last
   * entry with a value whose key sanitizes to it.
   */
  lemma {:induction false} SanitizedLastWins(d: RawRecord, i: nat)
    requires i < |d| && d[i].1.Some?
    requires forall j :: i < j < |d| && d[j].1.Some? ==> ToSafe(d[j].0) != ToSafe(d[i].0)
    ensures ToSafe(d[i].0) in Sanitized(d)
    ensures Sanitized(d)[ToSafe(d[i].0)] == ToSafe(d[i].1.value)
  {
    var p := d[..|d| - 1];
    if i < |d| - 1 {
      assert p[i] == d[i];
      SanitizedLastWins(p, i);
    }
  }

  /** Every key and every value of a sanitized record is a group token. */
  lemma {:induction false} SanitizedIsGroupTokens(d: RawRecord)
    ensures forall k :: k in Sanitized(d) ==> IsGroupToken(k) && IsGroupToken(Sanitized(d)[k])
  {
    if d != [] {
      SanitizedIsGroupTokens(d[..|d| - 1]);
      var entry := d[|d| - 1];
      ToSafeIsGroupToken(entry.0);
      if entry.1.Some? {
        ToSafeIsGroupToken(entry.1.value);
      }
    }
  }

  /** What `sanitize_list` returns: every record sanitized, in order. */
  function SanitizedAll(s: seq<RawRecord>): (r: seq<Record>)
    ensures |r| == |s|
    ensures forall i :: 0 <= i < |s| ==> r[i] == Sanitized(s[i])
  {
    seq(|s|, i requires 0 <= i < |s| => Sanitized(s[i]))
  }

  /** `sanitize_dict`: builds the sanitized record entry by entry. */
  method SanitizeDict(d: RawRecord) returns (r: Record)
    ensures r == Sanitized(d)
  {
    r := map[];
    var i := 0;
    while i < |d|
      invariant 0 <= i <= |d|
      invariant r == Sanitized(d[..i])
    {
      assert d[..i + 1][..i] == d[..i];
      var (k, v) := d[i];
      if v.Some? {
        r := r[ToSafe(k) := ToSafe(v.value)];
      }
      i := i + 1;
    }
    assert d[..|d|] == d;
  }

  /** `sanitize_list`: sanitizes every record, keeping length and order. */
  method SanitizeList(s: seq<RawRecord>) returns (r: seq<Record>)
    ensures |r| == |s|
    ensures forall i :: 0 <= i < |s| ==> r[i] == Sanitized(s[i])
    ensures r == SanitizedAll(s)
  {
    r := [];
    var i := 0;
    while i < |s|
      invariant 0 <= i <= |s|
      invariant |r| == i
      invariant forall j :: 0 <= j < i ==> r[j] == Sanitized(s[j])
    {
      var d := SanitizeDict(s[i]);
      r := r + [d];
      i := i + 1;
    }
  }
}
