/** The index of one folder (internal/dedup/index.go), as the object the source builds. */
module DedupIndex {
  import opened MatchKeys
  import opened Retention

  class Index {
    var byKey: map<string, Entry>
    var entries: seq<Entry>
    var dups: nat

    /** The key table knows exactly the keys of the entries and points at their owners. */
    ghost predicate Valid()
      reads this
    {
      && byKey.Keys == AllKeys(entries)
      && (forall k :: k in byKey ==> byKey[k] in entries && k in byKey[k].keys)
    }

    constructor ()
      ensures Valid() && entries == [] && dups == 0
    {
      byKey, entries, dups := map[], [], 0;
    }

    method Len() returns (n: nat)
      ensures n == |entries|
    {
      n := |entries|;
    }

    /** Whether the index holds a message under any of the keys. */
    method Has(keys: seq<string>) returns (found: bool)
      requires Valid()
      ensures found <==> Covered(keys, AllKeys(entries))
    {
      for i := 0 to |keys|
        invariant forall j :: 0 <= j < i ==> keys[j] !in byKey
      {
        if keys[i] in byKey {
          return true;
        }
      }
      return false;
    }

    /** Registers a message none of whose keys is known yet. */
    method Add(e: Entry)
      requires Valid() && !Covered(e.keys, AllKeys(entries))
      modifies this
      ensures Valid() && entries == old(entries) + [e] && dups == old(dups)
    {
      entries := entries + [e];
      AllKeysSnoc(old(entries), e);
      for i := 0 to |e.keys|
        invariant entries == old(entries) + [e] && dups == old(dups)
        invariant byKey.Keys == old(byKey).Keys + KeySet(e.keys[..i])
        invariant forall k :: k in byKey ==> byKey[k] in entries && k in byKey[k].keys
      {
        byKey := byKey[e.keys[i] := e];
        assert e.keys[..i + 1] == e.keys[..i] + [e.keys[i]];
      }
      assert e.keys[..|e.keys|] == e.keys;
    }
  }

  /** Builds the index of parsed messages; it retains exactly the greedy choice and counts
      the rest as internal duplicates. */
  method BuildFrom(inputs: seq<Entry>) returns (idx: Index)
    ensures fresh(idx) && idx.Valid()
    ensures idx.entries == Retained(inputs)
    ensures idx.dups + |idx.entries| == |inputs|
  {
    idx := new Index();
    assert inputs[..0] == [];
    for i := 0 to |inputs|
      invariant fresh(idx) && idx.Valid()
      invariant idx.entries == Retained(inputs[..i])
      invariant idx.dups + |idx.entries| == i
    {
      assert inputs[..i + 1][..i] == inputs[..i];
      var known := idx.Has(inputs[i].keys);
      if known {
        idx.dups := idx.dups + 1;
      } else {
        idx.Add(inputs[i]);
      }
    }
    assert inputs[..|inputs|] == inputs;
  }

  /** The messages of `src` that `dst` does not hold under any key, in order. */
  method Missing(src: Index, dst: Index) returns (out: seq<Entry>)
    requires dst.Valid()
    ensures out == Lacking(src.entries, AllKeys(dst.entries))
  {
    out := [];
    assert src.entries[..0] == [];
    for i := 0 to |src.entries|
      invariant out == Lacking(src.entries[..i], AllKeys(dst.entries))
    {
      assert src.entries[..i + 1][..i] == src.entries[..i];
      var known := dst.Has(src.entries[i].keys);
      if !known {
        out := out + [src.entries[i]];
      }
    }
    assert src.entries[..|src.entries|] == src.entries;
  }

  /** Both deltas at once. */
  method Deltas(a: Index, b: Index) returns (missingOnB: seq<Entry>, missingOnA: seq<Entry>)
    requires a.Valid() && b.Valid()
    ensures missingOnB == Lacking(a.entries, AllKeys(b.entries))
    ensures missingOnA == Lacking(b.entries, AllKeys(a.entries))
  {
    missingOnB := Missing(a, b);
    missingOnA := Missing(b, a);
  }
}
