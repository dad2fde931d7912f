/** Sizes of B+Tree pages, the insert limit on key length and the choice of split
    points by byte capacity (src/btree_page.rs). */
module PageLayout {
  import opened PageIds
  import opened KeyOrder

  const HEADER := 10
  const DIR_ENTRY := 4
  const RECORD_ID := 10
  const CHILD_ID := 8

  const NO_NEXT_LEAF: PageId := 0

  datatype Rid = Rid(page: nat, slot: nat) {
    predicate Before(other: Rid) {
      page < other.page || (page == other.page && slot < other.slot)
    }
  }

  /** Record ids are ordered by page, then by slot: as one number, with the 16 bits of the slot at the low end. */
  lemma RidOrder(a: Rid, b: Rid)
    requires a.slot < 0x1_0000 && b.slot < 0x1_0000
    ensures a.Before(b) <==> a.page * 0x1_0000 + a.slot < b.page * 0x1_0000 + b.slot
  {
  }

  datatype Entry = Entry(key: Key, rid: Rid)
  datatype Separator = Separator(key: Key, child: PageId)

  /** The decoded contents of a B+Tree page. */
  datatype Node =
    | Leaf(entries: seq<Entry>, next: PageId)
    | Internal(leftmost: PageId, seps: seq<Separator>)

  function EntryKeys(es: seq<Entry>): (ks: seq<Key>)
    ensures |ks| == |es| && forall i :: 0 <= i < |es| ==> ks[i] == es[i].key
  {
    seq(|es|, i requires 0 <= i < |es| => es[i].key)
  }

  function SepKeys(es: seq<Separator>): (ks: seq<Key>)
    ensures |ks| == |es| && forall i :: 0 <= i < |es| ==> ks[i] == es[i].key
  {
    seq(|es|, i requires 0 <= i < |es| => es[i].key)
  }

  /** Bytes taken by directory slots, keys and trailers. */
  function Need(keys: seq<Key>, trailer: nat): nat {
    if keys == [] then 0
    else Need(keys[..|keys|-1], trailer) + DIR_ENTRY + |keys[|keys|-1]| + trailer
  }

  predicate Fits(keys: seq<Key>, trailer: nat, capacity: nat) {
    HEADER + Need(keys, trailer) <= capacity
  }

  predicate LeafFits(es: seq<Entry>, capacity: nat) {
    Fits(EntryKeys(es), RECORD_ID, capacity)
  }

  predicate InternalFits(es: seq<Separator>, capacity: nat) {
    Fits(SepKeys(es), CHILD_ID, capacity)
  }

  /** The longest key of which an empty page of the given trailer size holds two. */
  function MaxKeyLenForTwo(trailer: nat, capacity: nat): nat {
    var overhead := HEADER + 2 * (DIR_ENTRY + trailer);
    if capacity < overhead then 0 else (capacity - overhead) / 2
  }

  /** The longest key that insert accepts. */
  function MaxKeyLen(capacity: nat): nat {
    var leaf := MaxKeyLenForTwo(RECORD_ID, capacity);
    var internal := MaxKeyLenForTwo(CHILD_ID, capacity);
    if leaf <= internal then leaf else internal
  }

  predicate Short(keys: seq<Key>, capacity: nat) {
    forall i :: 0 <= i < |keys| ==> |keys[i]| <= MaxKeyLen(capacity)
  }

  function InsertAt<T>(s: seq<T>, p: nat, x: T): (r: seq<T>)
    requires p <= |s|
    ensures |r| == |s| + 1 && r[p] == x
    ensures forall i :: 0 <= i < p ==> r[i] == s[i]
    ensures forall i :: p < i < |r| ==> r[i] == s[i-1]
  {
    s[..p] + [x] + s[p..]
  }

  function RemoveAt<T>(s: seq<T>, p: nat): (r: seq<T>)
    requires p < |s|
    ensures |r| == |s| - 1
    ensures forall i :: 0 <= i < p ==> r[i] == s[i]
    ensures forall i :: p <= i < |r| ==> r[i] == s[i+1]
  {
    s[..p] + s[p+1..]
  }

  lemma {:induction false} NeedConcat(a: seq<Key>, b: seq<Key>, trailer: nat)
    ensures Need(a + b, trailer) == Need(a, trailer) + Need(b, trailer)
  {
    if b == [] {
      assert a + b == a;
    } else {
      var b' := b[..|b|-1];
      assert (a + b)[..|a + b|-1] == a + b';
      NeedConcat(a, b', trailer);
    }
  }

  lemma NeedNone(trailer: nat)
    ensures Need([], trailer) == 0
  {
  }

  /** Splits the byte count of a key list around key `n`. */
  lemma NeedPrefix(keys: seq<Key>, n: nat, trailer: nat)
    requires n < |keys|
    ensures Need(keys[..n+1], trailer) == Need(keys[..n], trailer) + DIR_ENTRY + |keys[n]| + trailer
    ensures Need(keys, trailer) == Need(keys[..n], trailer) + Need(keys[n..], trailer)
    ensures Need(keys, trailer) == Need(keys[..n+1], trailer) + Need(keys[n+1..], trailer)
  {
    assert keys[..n+1][..n] == keys[..n];
    assert keys[..n] + keys[n..] == keys == keys[..n+1] + keys[n+1..];
    NeedConcat(keys[..n], keys[n..], trailer);
    NeedConcat(keys[..n+1], keys[n+1..], trailer);
  }

  lemma NeedInsert(keys: seq<Key>, p: nat, k: Key, trailer: nat)
    requires p <= |keys|
    ensures Need(InsertAt(keys, p, k), trailer) == Need(keys, trailer) + DIR_ENTRY + |k| + trailer
  {
    NeedConcat(keys[..p] + [k], keys[p..], trailer);
    NeedConcat(keys[..p], [k], trailer);
    NeedConcat(keys[..p], keys[p..], trailer);
    assert keys[..p] + keys[p..] == keys;
    assert Need([k], trailer) == DIR_ENTRY + |k| + trailer;
  }

  lemma NeedRemove(keys: seq<Key>, p: nat, trailer: nat)
    requires p < |keys|
    ensures Need(RemoveAt(keys, p), trailer) == Need(keys, trailer) - DIR_ENTRY - |keys[p]| - trailer
  {
    NeedInsert(RemoveAt(keys, p), p, keys[p], trailer);
    assert InsertAt(RemoveAt(keys, p), p, keys[p]) == keys;
  }

  /** The greedy split point reached from `n` keys already taken. */
  function SplitFrom(keys: seq<Key>, trailer: nat, capacity: nat, n: nat): (m: nat)
    requires n <= |keys|
    ensures n <= m <= |keys|
    ensures m > n ==> m == 1 || Fits(keys[..m], trailer, capacity)
    ensures m < |keys| ==> m > 0 && !Fits(keys[..m+1], trailer, capacity)
    decreases |keys| - n
  {
    if n == |keys| || (n > 0 && !Fits(keys[..n+1], trailer, capacity)) then n
    else SplitFrom(keys, trailer, capacity, n + 1)
  }

  function SplitPoint(keys: seq<Key>, trailer: nat, capacity: nat): nat {
    SplitFrom(keys, trailer, capacity, 0)
  }

  /** The loop that fills the left side until the next key would overflow it. */
  method CapacitySplitPoint(keys: seq<Key>, trailer: nat, capacity: nat) returns (count: nat)
    ensures count == SplitPoint(keys, trailer, capacity)
  {
    var cursor := HEADER;
    count := 0;
    while count < |keys|
      invariant count <= |keys|
      invariant cursor == HEADER + Need(keys[..count], trailer)
      invariant SplitPoint(keys, trailer, capacity) == SplitFrom(keys, trailer, capacity, count)
    {
      var needed := DIR_ENTRY + |keys[count]| + trailer;
      assert keys[..count+1][..count] == keys[..count];
      if count > 0 && cursor + needed > capacity {
        return;
      }
      cursor := cursor + needed;
      count := count + 1;
    }
  }

  /** A page that fitted and overflowed by one accepted key splits into two non-empty
      sides that both fit; dropping the pushed-up key leaves an internal page that fits. */
  lemma SplitFits(keys: seq<Key>, trailer: nat, capacity: nat, p: nat)
    requires trailer == RECORD_ID || trailer == CHILD_ID
    requires capacity >= HEADER + 2 * (DIR_ENTRY + RECORD_ID)
    requires p < |keys| && Short(keys, capacity)
    requires Fits(RemoveAt(keys, p), trailer, capacity) && !Fits(keys, trailer, capacity)
    ensures var mid := SplitPoint(keys, trailer, capacity);
      && 1 <= mid < |keys|
      && Fits(keys[..mid], trailer, capacity)
      && Fits(keys[mid..], trailer, capacity)
      && Fits(keys[mid+1..], trailer, capacity)
  {
    hide Need, SplitFrom, RemoveAt;
    var mid := SplitPoint(keys, trailer, capacity);
    NeedRemove(keys, p, trailer);
    NeedPrefix(keys, 0, trailer);
    NeedNone(trailer);
    assert keys[..|keys|] == keys && keys[..0] == [];
    assert mid < |keys|;
    NeedPrefix(keys, mid, trailer);
  }

  /** Two maximal keys fit on one page, and no longer pair does: the limit is exact. */
  lemma MaxKeyLenIsExact(trailer: nat, capacity: nat, a: Key, b: Key)
    requires capacity >= HEADER + 2 * (DIR_ENTRY + trailer)
    requires |a| == |b|
    ensures Fits([a, b], trailer, capacity) <==> |a| <= MaxKeyLenForTwo(trailer, capacity)
  {
    NeedPrefix([a, b], 1, trailer);
    NeedPrefix([a, b], 0, trailer);
    assert [a, b][..2] == [a, b] && [a, b][..0] == [];
  }

  /** An insert accepts a key exactly if an empty leaf and an empty internal page both hold two of its length; the empty
      key it accepts on pages of any size. */
  lemma AcceptedLength(capacity: nat, key: Key)
    ensures |key| <= MaxKeyLen(capacity) <==>
      key == [] || (Fits([key, key], RECORD_ID, capacity) && Fits([key, key], CHILD_ID, capacity))
    ensures capacity >= HEADER + 2 * (DIR_ENTRY + RECORD_ID) && key == [] ==>
      Fits([key, key], RECORD_ID, capacity) && Fits([key, key], CHILD_ID, capacity)
  {
    TwoNeed(key, RECORD_ID);
    TwoNeed(key, CHILD_ID);
  }

  lemma TwoNeed(key: Key, trailer: nat)
    ensures Need([key, key], trailer) == 2 * (DIR_ENTRY + |key| + trailer)
  {
    NeedPrefix([key, key], 1, trailer);
    NeedPrefix([key, key], 0, trailer);
    assert [key, key][..2] == [key, key] && [key, key][..0] == [];
  }
}
