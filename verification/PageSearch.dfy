/** Binary searches over the sorted keys of one page (src/btree_page.rs, src/btree.rs). */
module PageSearch {
  import opened KeyOrder
  import opened PageLayout
  import opened TreeShape

  datatype Found = Hit(at: nat) | Miss(at: nat)

  lemma UpperUnique(keys: seq<Key>, key: Key, p: nat)
    requires p <= |keys|
    requires forall j :: 0 <= j < p ==> Rank(keys[j]) <= Rank(key)
    requires p < |keys| ==> Rank(key) < Rank(keys[p])
    ensures Upper(keys, key) == p
  {
    hide Rank;
  }

  lemma LowerUnique(keys: seq<Key>, key: Key, p: nat)
    requires p <= |keys|
    requires forall j :: 0 <= j < p ==> Rank(keys[j]) < Rank(key)
    requires p < |keys| ==> Rank(key) <= Rank(keys[p])
    ensures Lower(keys, key) == p
  {
    hide Rank;
  }

  /** The loop of `child_for`, `leaf_insert_position` and `internal_insert_position`. */
  method CountAtMost(keys: seq<Key>, key: Key) returns (lo: nat)
    requires Sorted(Loose, keys)
    ensures lo == Upper(keys, key)
  {
    hide Rank, Upper;
    lo := 0;
    var hi := |keys|;
    while lo < hi
      invariant lo <= hi <= |keys|
      invariant forall j :: 0 <= j < lo ==> Rank(keys[j]) <= Rank(key)
      invariant forall j :: hi <= j < |keys| ==> Rank(key) < Rank(keys[j])
    {
      var mid := lo + (hi - lo) / 2;
      if AtMost(keys[mid], key) {
        lo := mid + 1;
      } else {
        hi := mid;
      }
    }
    UpperUnique(keys, key, lo);
  }

  /** The loop of `child_for_lower_bound`. */
  method CountBelow(keys: seq<Key>, key: Key) returns (lo: nat)
    requires Sorted(Loose, keys)
    ensures lo == Lower(keys, key)
  {
    hide Rank, Lower;
    lo := 0;
    var hi := |keys|;
    while lo < hi
      invariant lo <= hi <= |keys|
      invariant forall j :: 0 <= j < lo ==> Rank(keys[j]) < Rank(key)
      invariant forall j :: hi <= j < |keys| ==> Rank(key) <= Rank(keys[j])
    {
      var mid := lo + (hi - lo) / 2;
      if Below(keys[mid], key) {
        lo := mid + 1;
      } else {
        hi := mid;
      }
    }
    LowerUnique(keys, key, lo);
  }

  /** `LeafPageRef::find`: some index of an equal key, or the place where it would go. */
  method Find(keys: seq<Key>, key: Key) returns (r: Found)
    requires Sorted(Loose, keys)
    ensures r.Hit? ==> r.at < |keys| && keys[r.at] == key
    ensures r.Miss? ==> key !in keys && r.at == Lower(keys, key) == Upper(keys, key)
  {
    hide Rank, Upper, Lower;
    var lo := 0;
    var hi := |keys|;
    while lo < hi
      invariant lo <= hi <= |keys|
      invariant forall j :: 0 <= j < lo ==> Rank(keys[j]) < Rank(key)
      invariant forall j :: hi <= j < |keys| ==> Rank(key) < Rank(keys[j])
    {
      var mid := lo + (hi - lo) / 2;
      if keys[mid] == key {
        return Hit(mid);
      } else if Below(keys[mid], key) {
        lo := mid + 1;
      } else {
        LessIsRank(keys[mid], key);
        hi := mid;
      }
    }
    UpperUnique(keys, key, lo);
    LowerUnique(keys, key, lo);
    assert key !in keys;
    r := Miss(lo);
  }
}
