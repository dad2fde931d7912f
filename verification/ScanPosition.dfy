/** Where a range scan stands within a leaf, as a value and not as an index (src/btree.rs). */
module ScanPosition {
  import opened Options
  import opened KeyOrder
  import opened KeyCodec
  import opened PageLayout
  import opened PageSearch
  import opened TreeShape

  /** `Start`: nothing returned from this leaf yet. `After`: the entry returned last. */
  datatype Position = Start(lower: Bound<Key>) | After(key: Key, rid: Rid)

  /** The bound under which a scan looks for its leaf again. */
  function SeekBound(p: Position): Bound<Key> {
    match p
    case Start(lower) => lower
    case After(key, _) => Included(key)
  }

  predicate BoundTyped(t: DataType, b: Bound<Value>) {
    b.Unbounded? || b.k.Type() == Some(t)
  }

  function BoundKey(t: DataType, b: Bound<Value>): Bound<Key>
    requires BoundTyped(t, b)
  {
    match b
    case Unbounded => Unbounded
    case Included(v) => Included(EncodeKey(v).value)
    case Excluded(v) => Excluded(EncodeKey(v).value)
  }

  ghost predicate AboveLower(lower: Bound<Key>, key: Key) {
    match lower
    case Unbounded => true
    case Included(k) => Rank(k) <= Rank(key)
    case Excluded(k) => Rank(k) < Rank(key)
  }

  ghost predicate BelowUpper(upper: Bound<Key>, key: Key) {
    match upper
    case Unbounded => true
    case Included(k) => Rank(key) <= Rank(k)
    case Excluded(k) => Rank(key) < Rank(k)
  }

  /** Key first, then record id: the order in which one leaf is read. */
  ghost predicate EntryBefore(a: Entry, b: Entry) {
    Rank(a.key) < Rank(b.key) || (a.key == b.key && a.rid.Before(b.rid))
  }

  /** The entries of the current leaf that are still to be returned. */
  ghost predicate Wanted(p: Position, e: Entry) {
    match p
    case Start(lower) => AboveLower(lower, e.key)
    case After(key, rid) => EntryBefore(Entry(key, rid), e)
  }

  /** `index` points to the first wanted entry in reading order, or past the end if there is none. */
  ghost predicate Located(es: seq<Entry>, p: Position, index: nat) {
    && index <= |es|
    && (index == |es| ==> forall x :: x in es ==> !Wanted(p, x))
    && (index < |es| ==> Wanted(p, es[index]) && forall x :: x in es && Wanted(p, x) ==>
          x == es[index] || EntryBefore(es[index], x))
  }

  ghost predicate PageSorted(es: seq<Entry>) {
    forall i, j :: 0 <= i < j < |es| ==> Rank(es[i].key) <= Rank(es[j].key)
  }

  /** `[lo, hi)` is exactly the run of entries with this key. */
  ghost predicate IsRun(es: seq<Entry>, key: Key, lo: nat, hi: nat) {
    && lo <= hi <= |es|
    && (forall i :: 0 <= i < lo ==> Rank(es[i].key) < Rank(key))
    && (forall i :: lo <= i < hi ==> es[i].key == key)
    && (forall i :: hi <= i < |es| ==> Rank(key) < Rank(es[i].key))
  }

  lemma RunFromHit(es: seq<Entry>, key: Key, lo: nat, hi: nat)
    requires PageSorted(es) && lo < hi <= |es|
    requires forall i :: lo <= i < hi ==> es[i].key == key
    requires lo > 0 ==> es[lo-1].key != key
    requires hi < |es| ==> es[hi].key != key
    ensures IsRun(es, key, lo, hi)
  {
    hide Rank;
    if lo > 0 { LessIsRank(es[lo-1].key, key); }
    if hi < |es| { LessIsRank(es[hi].key, key); }
    assert es[lo].key == key && es[hi-1].key == key;
  }

  /** `same_key_range` */
  method SameKeyRange(es: seq<Entry>, key: Key) returns (lo: nat, hi: nat)
    requires PageSorted(es)
    ensures IsRun(es, key, lo, hi)
  {
    hide Rank, Upper, Lower;
    var found := Find(EntryKeys(es), key);
    match found
    case Hit(at) =>
      lo := at;
      while lo > 0 && es[lo-1].key == key
        invariant lo <= at
        invariant forall i :: lo <= i <= at ==> es[i].key == key
      {
        lo := lo - 1;
      }
      hi := at + 1;
      while hi < |es| && es[hi].key == key
        invariant at < hi <= |es|
        invariant forall i :: lo <= i < hi ==> es[i].key == key
      {
        hi := hi + 1;
      }
      RunFromHit(es, key, lo, hi);
    case Miss(at) =>
      lo, hi := at, at;
      MissIsEmptyRun(es, key, at);
  }

  lemma MissIsEmptyRun(es: seq<Entry>, key: Key, at: nat)
    requires PageSorted(es) && key !in EntryKeys(es) && at == Lower(EntryKeys(es), key) == Upper(EntryKeys(es), key)
    ensures IsRun(es, key, at, at)
  {
    hide Rank;
    var keys := EntryKeys(es);
    assert forall i :: 0 <= i < |es| ==> es[i].key == keys[i];
    assert forall i :: at <= i < |es| ==> Rank(es[at].key) <= Rank(es[i].key);
  }

  predicate Later(after: Option<Rid>, rid: Rid) {
    after.Some? ==> after.value.Before(rid)
  }

  /** `min_rid_index_after` */
  method MinRidIndexAfter(es: seq<Entry>, lo: nat, hi: nat, after: Option<Rid>) returns (best: Option<nat>)
    requires lo <= hi <= |es|
    ensures best.None? ==> forall i :: lo <= i < hi ==> !Later(after, es[i].rid)
    ensures best.Some? ==>
      && lo <= best.value < hi && Later(after, es[best.value].rid)
      && forall i :: lo <= i < hi && Later(after, es[i].rid) ==> !es[i].rid.Before(es[best.value].rid)
  {
    best := None;
    var i := lo;
    while i < hi
      invariant lo <= i <= hi
      invariant best.None? ==> forall k :: lo <= k < i ==> !Later(after, es[k].rid)
      invariant best.Some? ==>
        && lo <= best.value < i && Later(after, es[best.value].rid)
        && forall k :: lo <= k < i && Later(after, es[k].rid) ==> !es[k].rid.Before(es[best.value].rid)
    {
      if Later(after, es[i].rid) && (best.None? || es[i].rid.Before(es[best.value].rid)) {
        best := Some(i);
      }
      i := i + 1;
    }
  }

  /** The place where the keys from `i` on are read: `i` starts a run, and `index` is its smallest record id. */
  ghost predicate FirstFrom(es: seq<Entry>, i: nat, index: nat) {
    && i <= index <= |es|
    && (index == |es| <==> i == |es|)
    && forall k :: i <= k < |es| ==> es[k] == es[index] || EntryBefore(es[index], es[k])
  }

  /** `start_of_run_containing`: the smallest record id of the run that `i` stands in. Where a run starts,
      this is where the entries from there on are read. */
  method StartOfRunContaining(es: seq<Entry>, i: nat) returns (index: nat)
    requires PageSorted(es)
    ensures i >= |es| ==> index == i
    ensures i < |es| ==> index < |es| && es[index].key == es[i].key
    ensures i < |es| ==> forall k :: 0 <= k < |es| && es[k].key == es[i].key ==> !es[k].rid.Before(es[index].rid)
    ensures i <= |es| && (0 < i < |es| ==> es[i-1].key != es[i].key) ==> FirstFrom(es, i, index)
  {
    hide Rank;
    if i >= |es| {
      return i;
    }
    var lo, hi := SameKeyRange(es, es[i].key);
    assert 0 < i && es[i-1].key != es[i].key ==> lo == i;
    assert i == 0 ==> lo == i;
    var best := MinRidIndexAfter(es, lo, hi, None);
    assert es[i].key == es[lo].key;
    index := best.value;
  }

  /** `physical_lower_bound_included` */
  method PhysicalLowerBoundIncluded(es: seq<Entry>, key: Key) returns (i: nat)
    requires PageSorted(es)
    ensures i <= |es|
    ensures forall k :: 0 <= k < i ==> Rank(es[k].key) < Rank(key)
    ensures forall k :: i <= k < |es| ==> Rank(key) <= Rank(es[k].key)
  {
    hide Rank, Upper, Lower;
    var found := Find(EntryKeys(es), key);
    match found
    case Hit(at) =>
      i := at;
      while i > 0 && es[i-1].key == key
        invariant i <= at && es[i].key == key
      {
        i := i - 1;
      }
      if i > 0 { LessIsRank(es[i-1].key, key); }
    case Miss(at) =>
      MissIsEmptyRun(es, key, at);
      i := at;
  }

  /** `physical_lower_bound_excluded` */
  method PhysicalLowerBoundExcluded(es: seq<Entry>, key: Key) returns (i: nat)
    requires PageSorted(es)
    ensures i <= |es|
    ensures forall k :: 0 <= k < i ==> Rank(es[k].key) <= Rank(key)
    ensures forall k :: i <= k < |es| ==> Rank(key) < Rank(es[k].key)
  {
    hide Rank, Upper, Lower;
    var found := Find(EntryKeys(es), key);
    match found
    case Hit(at) =>
      var hi := at;
      while hi + 1 < |es| && es[hi+1].key == key
        invariant at <= hi < |es| && es[hi].key == key
      {
        hi := hi + 1;
      }
      if hi + 1 < |es| { LessIsRank(es[hi+1].key, key); }
      i := hi + 1;
    case Miss(at) =>
      MissIsEmptyRun(es, key, at);
      i := at;
  }

  lemma FromLower(es: seq<Entry>, lower: Bound<Key>, i: nat, index: nat)
    requires FirstFrom(es, i, index)
    requires forall k :: 0 <= k < i ==> !AboveLower(lower, es[k].key)
    requires forall k :: i <= k < |es| ==> AboveLower(lower, es[k].key)
    ensures Located(es, Start(lower), index)
  {
    hide Rank;
    if index == |es| {
    } else {
      forall x | x in es && Wanted(Start(lower), x) ensures x == es[index] || EntryBefore(es[index], x) {
        var k :| 0 <= k < |es| && es[k] == x;
      }
    }
  }

  lemma FromRun(es: seq<Entry>, key: Key, rid: Rid, lo: nat, hi: nat, best: Option<nat>, index: nat)
    requires PageSorted(es) && IsRun(es, key, lo, hi)
    requires best.None? ==> (forall i :: lo <= i < hi ==> !Later(Some(rid), es[i].rid)) && FirstFrom(es, hi, index)
    requires best.Some? ==>
      && lo <= best.value < hi && index == best.value && Later(Some(rid), es[index].rid)
      && forall i :: lo <= i < hi && Later(Some(rid), es[i].rid) ==> !es[i].rid.Before(es[index].rid)
    ensures Located(es, After(key, rid), index)
  {
    hide Rank;
    forall x | x in es
      ensures Wanted(After(key, rid), x) ==> index < |es| && (x == es[index] || EntryBefore(es[index], x))
    {
      var k :| 0 <= k < |es| && es[k] == x;
    }
  }

  /** `locate_within_leaf` */
  method LocateWithinLeaf(es: seq<Entry>, p: Position) returns (index: nat)
    requires PageSorted(es)
    ensures Located(es, p, index) && index <= |es|
  {
    hide Rank;
    match p
    case Start(Unbounded) =>
      index := StartOfRunContaining(es, 0);
      FromLower(es, Unbounded, 0, index);
    case Start(Included(k)) =>
      var i := PhysicalLowerBoundIncluded(es, k);
      index := StartOfRunContaining(es, i);
      FromLower(es, Included(k), i, index);
    case Start(Excluded(k)) =>
      var i := PhysicalLowerBoundExcluded(es, k);
      index := StartOfRunContaining(es, i);
      FromLower(es, Excluded(k), i, index);
    case After(key, rid) =>
      var lo, hi := SameKeyRange(es, key);
      var best := MinRidIndexAfter(es, lo, hi, Some(rid));
      if best.Some? {
        index := best.value;
      } else {
        index := StartOfRunContaining(es, hi);
      }
      FromRun(es, key, rid, lo, hi, best, index);
  }

  /** The value an entry stands for; `Null` for bytes that are no key of this type. */
  function ValueOf(t: DataType, e: Entry): (v: Value)
    ensures DecodeKey(t, e.key) == Some(v) || (DecodeKey(t, e.key).None? && v == Null)
  {
    var v := DecodeKey(t, e.key);
    if v.Some? then v.value else Null
  }

  /** Bounds on encoded keys are bounds on values. */
  lemma BoundsMean(t: DataType, lower: Bound<Value>, upper: Bound<Value>, e: Entry)
    requires BoundTyped(t, lower) && BoundTyped(t, upper) && DecodeKey(t, e.key).Some?
    ensures AboveLower(BoundKey(t, lower), e.key) <==> NotBelow(lower, ValueOf(t, e))
    ensures BelowUpper(BoundKey(t, upper), e.key) <==> NotAbove(upper, ValueOf(t, e))
  {
    hide Rank, DecodeKey, EncodeKey, Less;
    EncodeDecode(t, e.key);
    var v := ValueOf(t, e);
    if !lower.Unbounded? { OneBound(v, lower.k, e.key); }
    if !upper.Unbounded? { OneBound(v, upper.k, e.key); }
  }

  lemma OneBound(v: Value, w: Value, key: Key)
    requires v.Type() == w.Type() && v != Null && EncodeKey(v) == Some(key)
    ensures w != Null && EncodeKey(w).Some?
    ensures ValueLess(v, w) <==> Rank(key) < Rank(EncodeKey(w).value)
    ensures ValueLess(w, v) <==> Rank(EncodeKey(w).value) < Rank(key)
  {
    hide Rank, Less, ValueLess;
    DecodeEncode(w);
    EncodeIsOrderEmbedding(v, w);
    EncodeIsOrderEmbedding(w, v);
    LessIsRank(key, EncodeKey(w).value);
    LessIsRank(EncodeKey(w).value, key);
  }
}
