/** Scans that are read while entries are being deleted (src/btree.rs). */
module ScanRuns {
  import opened Options
  import opened PageIds
  import opened KeyOrder
  import opened KeyCodec
  import opened PageLayout
  import opened EntryList
  import opened TreeShape
  import opened LeafChain
  import opened InsertRun
  import opened ScanPosition
  import opened TreeReads
  import opened BTreeIndex
  import opened ScanGrowth
  import opened InsertSpec

  datatype Step = Advance | Remove(value: Value, rid: Rid) | Add(value: Value, rid: Rid)

  /** The tree is in order and no pair is stored twice. */
  ghost predicate Orderly(t: BTree)
    reads t
  {
    t.Ordered() && AllDistinct(t.Entries())
  }

  /** A delete leaves an open scan where it stands. In an orderly tree it takes its entry off what the scan
      has left, and nothing else. */
  method DeleteDuring(scan: RangeScan, value: Value, rid: Rid) returns (r: Result<bool, Error>)
    requires scan.Ready() && scan.btree.Valid() && scan.btree.latched == {}
    modifies scan.btree`pages, scan.btree`latched
    ensures scan.Ready() && scan.btree.Valid() && scan.btree.latched == {}
    ensures forall e :: e in scan.btree.Entries() ==> e in old(scan.btree.Entries())
    ensures forall x :: x in old(scan.Remaining()) && (r == Ok(true) ==> x != KeyEntry(value, rid)) ==>
              x in scan.Remaining()
    ensures old(Due(scan)) - (if r == Ok(true) then {KeyEntry(value, rid)} else {}) <= Due(scan)
    ensures old(scan.btree.Ordered()) ==> scan.btree.Ordered()
    ensures old(Orderly(scan.btree)) ==> Orderly(scan.btree)
    ensures old(Orderly(scan.btree)) && r == Ok(true) ==>
      var e := KeyEntry(value, rid);
      && e in old(scan.btree.Entries()) && scan.btree.Entries() == RemoveFirst(old(scan.btree.Entries()), e)
      && scan.Remaining() == old(scan.Remaining()) - {e}
    ensures r != Ok(true) ==>
      scan.Remaining() == old(scan.Remaining()) && scan.btree.Entries() == old(scan.btree.Entries())
    ensures old(Orderly(scan.btree)) && r == Ok(false) ==> KeyEntry(value, rid) !in scan.btree.Entries()
    ensures r.Err? <==> value.Type() != Some(scan.btree.keyType)
  {
    hide Good, Contents, Rank, Chained, LeafIds, Ids, EncodeKey, DecodeKey, RemovedAt, RemoveFirst, ToReturn,
      AllDistinct, BelowUpper, Reach, IndexIn, Seen, FirstSeen, Under, BTree.Ordered, BTree.KeyError, KeyEntry, Wanted;
    ghost var pages0, entries0 := scan.btree.pages, scan.btree.Entries();
    ghost var j := if scan.current.Some? then scan.Place() else 0;
    KeyOfEntry(scan.btree, value, rid);
    r := scan.btree.Delete(value, rid);
    if r == Ok(true) {
      ghost var e := KeyEntry(value, rid);
      EntriesLost(entries0, scan.btree.Entries(), e);
      if scan.current.Some? {
        ghost var d: nat, pos: nat :| RemovedAt(pages0, scan.btree.pages, scan.btree.chain, d, pos, e);
        DeleteKeepsScan(scan, pages0, j, d, pos, e);
      }
    }
  }

  lemma KeyOfEntry(t: BTree, value: Value, rid: Rid)
    ensures t.KeyError(value).None? <==> value.Type() == Some(t.keyType)
    ensures t.KeyError(value).None? ==>
      EncodeKey(value).Some? && KeyEntry(value, rid) == Entry(EncodeKey(value).value, rid)
  {
  }

  lemma EntriesLost(es: seq<Entry>, es': seq<Entry>, e: Entry)
    requires multiset(es') == multiset(es) - multiset{e}
    ensures forall x :: x in es' ==> x in es
  {
    assert forall x :: x in es' ==> x in multiset(es');
    assert forall x :: x in multiset(es) ==> x in es;
  }

  /** What an open scan has still to return after a delete. */
  lemma DeleteKeepsScan(scan: RangeScan, pages0: Pages, j: nat, d: nat, pos: nat, e: Entry)
    requires scan.Ready() && scan.current.Some? && Chained(pages0, scan.btree.chain) && j < |scan.btree.chain|
    requires RemovedAt(pages0, scan.btree.pages, scan.btree.chain, d, pos, e)
    requires var p := scan.current.value;
      j == if p.0 in scan.btree.chain then IndexIn(scan.btree.chain, p.0)
           else IndexIn(scan.btree.chain, Reach(pages0, scan.btree.shape, SeekBound(p.1)))
    ensures var left := Under(ToReturn(pages0, scan.btree.chain, j, scan.current.value.1), scan.upper);
      && left - {e} <= scan.Remaining()
      && (AllDistinct(Contents(pages0, scan.btree.chain)) ==> scan.Remaining() == left - {e})
  {
    hide Good, Contents, Rank, Chained, LeafIds, Ids, RemovedAt, ToReturn, AllDistinct, BelowUpper, Reach, IndexIn,
      Under, BTree.Linked;
    var t, p := scan.btree, scan.current.value.1;
    SamePlace(pages0, t.pages, t.shape, t.chain, d, pos, e, SeekBound(p));
    RemovesUnder(pages0, t.pages, t.chain, j, p, d, pos, e, scan.upper);
    if AllDistinct(Contents(pages0, t.chain)) {
      TakenFromScan(pages0, t.pages, t.chain, j, p, d, pos, e, scan.upper);
    }
  }

  /** The entry a delete of this value looks for. */
  function KeyEntry(value: Value, rid: Rid): Entry {
    Entry(if EncodeKey(value).Some? then EncodeKey(value).value else [], rid)
  }

  /** A delete changes no separator, and so no descent. */
  lemma SamePlace(pages: Pages, pages': Pages, t: Tree, chain: seq<PageId>, d: nat, pos: nat, e: Entry,
                  lower: Bound<Key>)
    requires RemovedAt(pages, pages', chain, d, pos, e)
    ensures Reach(pages, t, lower) == Reach(pages', t, lower)
  {
    hide Reach;
    ReachFrame(pages, pages', t, lower);
  }

  lemma RemovesUnder(pages: Pages, pages': Pages, chain: seq<PageId>, j: nat, p: Position, d: nat, pos: nat, e: Entry,
                     upper: Bound<Key>)
    requires Chained(pages, chain) && j < |chain| && RemovedAt(pages, pages', chain, d, pos, e)
    ensures Chained(pages', chain)
    ensures forall x :: x in Under(ToReturn(pages, chain, j, p), upper) && x != e ==>
              x in Under(ToReturn(pages', chain, j, p), upper)
  {
    hide Chained, Contents, ToReturn, RemoveAt, BelowUpper;
    RemovesOne(pages, pages', chain, j, p, d, pos);
  }

  lemma TakenFromScan(pages: Pages, pages': Pages, chain: seq<PageId>, j: nat, p: Position, d: nat, pos: nat, e: Entry,
                      upper: Bound<Key>)
    requires Chained(pages, chain) && j < |chain| && AllDistinct(Contents(pages, chain))
    requires RemovedAt(pages, pages', chain, d, pos, e)
    ensures Chained(pages', chain)
    ensures Under(ToReturn(pages', chain, j, p), upper) == Under(ToReturn(pages, chain, j, p), upper) - {e}
  {
    hide Chained, Contents, AllDistinct, ToReturn, RemoveAt, BelowUpper;
    DeleteFromScan(pages, pages', chain, j, p, d, pos);
  }

  /** What is known after some of the steps: `es` were returned, `gone` deleted, `start` were to be returned. */
  ghost predicate SoFar(scan: RangeScan, start: set<Entry>, es: seq<Entry>, gone: set<Entry>, ever: set<Entry>)
    reads scan, scan.btree
  {
    && scan.Ready() && Orderly(scan.btree)
    && Collected(es, scan.Remaining(), ever) && ever <= start
    && (forall e :: e in start && e !in ever ==> e in gone)
  }

  /** One of the first `n` steps deletes this entry, with a value of the type of the tree. */
  ghost predicate Deletes(t: DataType, script: seq<Step>, n: nat, e: Entry) {
    exists i :: 0 <= i < n && i < |script| && DeletesThis(t, script[i], e)
  }

  ghost predicate DeletesThis(t: DataType, step: Step, e: Entry) {
    step.Remove? && step.value.Type() == Some(t) && e == KeyEntry(step.value, step.rid)
  }

  lemma DeletesNext(t: DataType, script: seq<Step>, n: nat)
    requires n < |script|
    ensures forall e :: Deletes(t, script, n + 1, e) <==> Deletes(t, script, n, e) || DeletesThis(t, script[n], e)
  {
    hide DeletesThis;
  }

  lemma ReadDeletesNothing(t: DataType, script: seq<Step>, n: nat)
    requires n < |script| && script[n].Advance?
    ensures forall e :: Deletes(t, script, n + 1, e) <==> Deletes(t, script, n, e)
  {
    hide Deletes;
    DeletesNext(t, script, n);
  }

  /** What is gone after one delete more. */
  lemma GoneNext(start: seq<Entry>, now: seq<Entry>, t: DataType, script: seq<Step>, n: nat, gone: set<Entry>,
                 took: bool)
    requires n < |script| && script[n].Remove? && forall e :: e in now <==> e in start && e !in gone
    requires forall e :: e in gone <==> e in start && Deletes(t, script, n, e)
    requires var d := KeyEntry(script[n].value, script[n].rid);
      if took then script[n].value.Type() == Some(t) && d in now
      else script[n].value.Type() == Some(t) ==> d !in now
    ensures forall e :: e in (if took then gone + {KeyEntry(script[n].value, script[n].rid)} else gone) <==>
      e in start && Deletes(t, script, n + 1, e)
  {
    hide Deletes, KeyEntry;
    DeletesNext(t, script, n);
  }

  lemma TwoAnswers(r: Result<bool, Error>)
    ensures r.Ok? ==> r == Ok(true) || r == Ok(false)
  {
    if r.Ok? {
      if r.value {
        assert r == Ok(true);
      } else {
        assert r == Ok(false);
      }
    }
  }

  lemma NoDeletes(t: DataType, script: seq<Step>)
    ensures forall e :: !Deletes(t, script, 0, e)
  {
  }

  /** A scan interrupted by deletes, then read to its end: every entry in range that is never deleted
      comes exactly once, nothing comes twice, and nothing comes that was not there. */
  method ScanWhileDeleting(scan: RangeScan, script: seq<Step>)
    returns (rows: seq<(Value, Rid)>, ghost es: seq<Entry>, ghost gone: set<Entry>)
    requires scan.Ready() && scan.btree.Valid() && scan.btree.latched == {} && Orderly(scan.btree)
    requires forall i :: 0 <= i < |script| ==> !script[i].Add?
    modifies scan, scan.btree`pages, scan.btree`latched
    ensures scan.Ready() && scan.btree.Valid()
    ensures |rows| == |es| && forall i :: 0 <= i < |rows| ==> rows[i] == (ValueOf(scan.btree.keyType, es[i]), es[i].rid)
    ensures AllDistinct(es) && KeySorted(es)
    ensures forall e :: e in es ==> e in old(scan.Remaining())
    ensures forall e :: e in old(scan.Remaining()) && e !in gone ==> e in es
    ensures forall e :: e in scan.btree.Entries() <==> e in old(scan.btree.Entries()) && e !in gone
    ensures forall e :: e in gone <==>
      e in old(scan.btree.Entries()) && Deletes(scan.btree.keyType, script, |script|, e)
  {
    hide Good, Contents, Rank, Chained, LeafIds, Ids, EncodeKey, DecodeKey, AllDistinct, RemoveFirst, KeyEntry,
      Collected, ValueOf, Reach, IndexIn, Comes, Over, Under, ToReturn, BelowUpper, Listed, Drained, KeySorted, Deletes;
    rows, es, gone := [], [], {};
    NoDeletes(scan.btree.keyType, script);
    ghost var start := scan.Remaining();
    ghost var ever := start;
    NothingCollected(start);
    var i := 0;
    while i < |script|
      invariant i <= |script| && scan.btree.Valid() && scan.btree.latched == {}
      invariant SoFar(scan, start, es, gone, ever)
      invariant |rows| == |es| && forall i :: 0 <= i < |rows| ==>
        rows[i] == (ValueOf(scan.btree.keyType, es[i]), es[i].rid)
      invariant forall e :: e in scan.btree.Entries() <==> e in old(scan.btree.Entries()) && e !in gone
      invariant forall e :: e in gone <==>
        e in old(scan.btree.Entries()) && Deletes(scan.btree.keyType, script, i, e)
    {
      match script[i] {
        case Advance =>
          ReadDeletesNothing(scan.btree.keyType, script, i);
          ghost var left := scan.Remaining();
          var row, e, k := scan.Next();
          if row.Some? {
            CollectOne(es, left, ever, e);
            rows, es := rows + [row.value.value], es + [e];
          }
        case Remove(value, rid) =>
          ghost var entries0, left := scan.btree.Entries(), scan.Remaining();
          ghost var gone0 := gone;
          var r := DeleteDuring(scan, value, rid);
          TwoAnswers(r);
          GoneNext(old(scan.btree.Entries()), entries0, scan.btree.keyType, script, i, gone0, r == Ok(true));
          if r == Ok(true) {
            RemovedFrom(entries0, KeyEntry(value, rid));
            CollectLess(es, left, ever, KeyEntry(value, rid));
            ever := if KeyEntry(value, rid) in left then ever - {KeyEntry(value, rid)} else ever;
            gone := gone + {KeyEntry(value, rid)};
          }
      }
      i := i + 1;
    }
    ghost var left := scan.Remaining();
    var rest, more, ks := scan.Collect();
    CollectRest(es, left, ever, more);
    rows, es := rows + rest, es + more;
  }

  /** What is left, without the entries that are not wanted where the leaf of the scan has become an internal root. */
  ghost function Due(scan: RangeScan): (due: set<Entry>)
    requires scan.Ready()
    reads scan, scan.btree
    ensures due <= scan.Remaining() && (scan.Seated() ==> due == scan.Remaining())
  {
    set x | x in scan.Remaining() && (scan.Seated() || (scan.current.Some? && Wanted(scan.current.value.1, x)))
  }

  /** A scan whose tree is changed in any way between its steps and that is then read to its end. Whatever the order of
      the tree, the scan stays usable, and what it returns is ascending, within its bounds and was stored when it was
      read. If the tree stayed in order, as a tree of distinct keys always does, every entry in range that was there at
      the start and is never deleted comes at least once. */
  method ScanWhileChanging(scan: RangeScan, script: seq<Step>)
    returns (rows: seq<(Value, Rid)>, ghost es: seq<Entry>, ghost gone: set<Entry>, ghost stayed: bool)
    requires scan.Ready() && scan.btree.Valid() && scan.btree.latched == {}
    modifies scan, scan.btree
    ensures scan.Ready() && scan.btree.Valid() && scan.btree.latched == {}
    ensures |rows| == |es| && forall i :: 0 <= i < |rows| ==> rows[i] == (ValueOf(scan.btree.keyType, es[i]), es[i].rid)
    ensures KeySorted(es) && forall e :: e in es ==> BelowUpper(scan.upper, e.key)
    ensures old(scan.current).None? ==> es == []
    ensures old(scan.current).Some? ==> forall e :: e in es ==> AboveLower(SeekBound(old(scan.current).value.1), e.key)
    ensures forall e :: e in es ==> Stored(e, old(scan.btree.Entries()), script, |script|)
    ensures stayed ==> forall x :: x in old(Due(scan)) && x !in gone ==> x in es
    ensures forall e :: e in gone ==>
      exists i :: 0 <= i < |script| && script[i].Remove? && e == KeyEntry(script[i].value, script[i].rid)
    ensures scan.btree.unique || (old(scan.btree.Ordered()) && forall i :: 0 <= i < |script| ==> !script[i].Add?) ==>
      stayed
  {
    hide Good, Contents, Rank, Chained, LeafIds, Ids, EncodeKey, DecodeKey, KeySorted, KeyEntry, ValueOf, BelowUpper,
      AboveLower, Reach, IndexIn, Comes, Over, Under, ToReturn, Stored, Orderly, Onward, Due, BTree.Ordered,
      BTree.Linked, Drained, Listed, AllDistinct, Deleted, RangeScan.Place, RangeScan.Remaining, SeekBound;
    ghost var entries0, p0 := scan.btree.Entries(), if scan.current.Some? then Some(scan.current.value.1) else None;
    ghost var owed := Due(scan);
    rows, es, gone, stayed := [], [], {}, scan.btree.Ordered();
    NothingRead(p0, scan.upper);
    StoredNow(entries0, script);
    var i := 0;
    while i < |script|
      invariant i <= |script| && scan.Ready() && scan.btree.Valid() && scan.btree.latched == {}
      invariant |rows| == |es| && forall i :: 0 <= i < |rows| ==>
        rows[i] == (ValueOf(scan.btree.keyType, es[i]), es[i].rid)
      invariant scan.current.Some? ==> p0.Some? && scan.current.value.1 == PositionAt(p0.value, es, |es|)
      invariant Onward(p0, scan.upper, es)
      invariant forall e :: e in scan.btree.Entries() ==> Stored(e, entries0, script, i)
      invariant forall e :: e in es ==> Stored(e, entries0, script, i)
      invariant stayed ==> scan.btree.Ordered() && owed <= Due(scan)
      invariant forall x :: x in old(Due(scan)) && x !in gone ==> x in owed || x in es
      invariant forall e :: e in gone ==> Deleted(e, script, i)
      invariant scan.btree.unique || (old(scan.btree.Ordered()) && forall k :: 0 <= k < i ==> !script[k].Add?) ==>
        stayed
    {
      StoredLater(entries0, script, i);
      DeletedLater(script, i);
      match script[i] {
        case Advance =>
          ghost var j, p := if scan.current.Some? then scan.Place() else 0, scan.current;
          var row, e, k := scan.Next();
          if row.Some? {
            ReturnedWithin(scan.btree, j, p.value.1, k, e);
            OnwardOne(p0, scan.upper, es, e);
            rows, es := rows + [row.value.value], es + [e];
            owed := owed - {e};
          }
        case Remove(value, rid) =>
          var r := DeleteDuring(scan, value, rid);
          if r == Ok(true) {
            DeletedNow(script, i);
            owed, gone := owed - {KeyEntry(value, rid)}, gone + {KeyEntry(value, rid)};
          }
        case Add(value, rid) =>
          var r := InsertDuring(scan, value, rid);
          StoredByNow(entries0, script, i);
          stayed := stayed && scan.btree.Ordered();
      }
      i := i + 1;
    }
    ghost var es0, p := es, scan.current;
    var rest, more, ks := scan.Collect();
    OnwardMore(p0, scan.upper, es0, more, p);
    AllListed(more);
    rows, es := rows + rest, es + more;
    OnwardMeans(p0, scan.upper, es);
    DeletedMeans(gone, script);
  }

  lemma ReturnedWithin(t: BTree, j: nat, p: Position, k: nat, e: Entry)
    requires t.Linked() && Comes(t.pages, t.chain, j, p, k, e)
    ensures e in t.Entries() && AboveLower(SeekBound(p), e.key)
  {
    hide Good, Rank, Contents, Comes, AboveLower;
    ComesWithin(t.pages, t.chain, j, p, k, e);
  }

  lemma AllListed(es: seq<Entry>)
    ensures forall x :: x in Listed(es) <==> x in es
  {
  }

  lemma DeletedMeans(gone: set<Entry>, script: seq<Step>)
    requires forall e :: e in gone ==> Deleted(e, script, |script|)
    ensures forall e :: e in gone ==>
      exists i :: 0 <= i < |script| && script[i].Remove? && e == KeyEntry(script[i].value, script[i].rid)
  {
    hide KeyEntry;
  }

  /** An insert leaves an open scan usable: its leaf is still on the chain, or it is the root and has become
      internal. It takes nothing off what the scan has still to return. */
  method InsertDuring(scan: RangeScan, value: Value, rid: Rid) returns (r: Result<(), Error>)
    requires scan.Ready() && scan.btree.Valid() && scan.btree.latched == {}
    modifies scan.btree
    ensures scan.Ready() && scan.btree.Valid() && scan.btree.latched == {}
    ensures forall e :: e in scan.btree.Entries() ==> e in old(scan.btree.Entries()) || e == KeyEntry(value, rid)
    ensures old(scan.Seated()) && (scan.Seated() || scan.btree.Ordered()) ==> old(scan.Remaining()) <= scan.Remaining()
    ensures scan.Seated() || scan.btree.Ordered() ==> old(Due(scan)) <= Due(scan)
  {
    hide Good, Contents, Rank, Chained, LeafIds, Ids, EncodeKey, DecodeKey, Reach, IndexIn, AllDistinct, InsertSorted,
      PutInto, TakesEntry, ToReturn, Under, Wanted, BTree.Ordered;
    ghost var entries0, pages0, chain0 := scan.btree.Entries(), scan.btree.pages, scan.btree.chain;
    ghost var seated, j := scan.Seated(), if scan.current.Some? then scan.Place() else 0;
    if scan.btree.root in chain0 {
      scan.btree.RootSingle();
    }
    r := scan.btree.Insert(value, rid);
    if r.Ok? {
      DecodeEncode(value);
      ghost var e := KeyEntry(value, rid);
      EntriesKept(entries0, scan.btree.Entries(), e);
      ghost var d: nat, pos: nat :|
        TakesEntry(pages0, chain0, scan.btree.pages, scan.btree.chain, scan.btree.root, d, pos, e);
      TakesStillOn(pages0, chain0, scan.btree.pages, scan.btree.chain, scan.btree.root, d, pos, e);
      if scan.current.Some? && (scan.Seated() || scan.btree.Ordered()) {
        InsertKeepsScan(scan, pages0, chain0, j, d, pos, e);
      }
    }
  }

  lemma EntriesKept(es: seq<Entry>, es': seq<Entry>, e: Entry)
    requires multiset(es') == multiset(es) + multiset{e}
    ensures forall x :: x in es' <==> x in es || x == e
  {
    assert forall x :: x in es' <==> x in multiset(es');
    assert forall x :: x in es <==> x in multiset(es);
  }

  /** What an open scan has still to return after an insert. */
  lemma InsertKeepsScan(scan: RangeScan, pages0: Pages, chain0: seq<PageId>, j: nat, d: nat, pos: nat, e: Entry)
    requires scan.Ready() && scan.current.Some? && j < |chain0|
    requires TakesEntry(pages0, chain0, scan.btree.pages, scan.btree.chain, scan.btree.root, d, pos, e)
    requires scan.btree.root in chain0 ==> chain0 == [scan.btree.root]
    requires scan.current.value.0 in chain0 ==> j == IndexIn(chain0, scan.current.value.0)
    requires scan.current.value.0 !in chain0 ==> scan.current.value.0 == scan.btree.root
    requires forall x :: x in Contents(pages0, chain0) ==> x in scan.btree.Entries()
    requires scan.Seated() || scan.btree.Ordered()
    ensures var left := Under(ToReturn(pages0, chain0, j, scan.current.value.1), scan.upper);
      && (scan.current.value.0 in chain0 ==> left <= scan.Remaining())
      && forall x :: x in left && (scan.current.value.0 in chain0 || Wanted(scan.current.value.1, x)) ==>
        x in Due(scan)
  {
    hide Good, Contents, Rank, Chained, LeafIds, Ids, DecodeKey, TakesEntry, ToReturn, Wanted, BTree.Ordered,
      BelowUpper, Reach, IndexIn, SeekBound;
    var t, leaf, p := scan.btree, scan.current.value.0, scan.current.value.1;
    BothChained(pages0, chain0, t.pages, t.chain, t.root, d, pos, e);
    if leaf in t.chain {
      SeatKept(t, pages0, chain0, leaf, j, d, pos, e);
      TakesNothing(pages0, chain0, t.pages, t.chain, t.root, d, pos, e, j, p);
    } else {
      forall x | x in ToReturn(pages0, chain0, j, p) && (leaf in chain0 || Wanted(p, x))
        ensures Wanted(p, x) && x in ToReturn(t.pages, t.chain, scan.Place(), p)
      {
        var i := WhereWanted(pages0, chain0, j, p, x);
        OnTheChain(pages0, chain0, i, x);
        t.FirstLeafStarts(SeekBound(p));
        FoundAgain(t.pages, t.chain, scan.Place(), p, x);
      }
    }
  }

  lemma OnTheChain(pages: Pages, chain: seq<PageId>, i: nat, x: Entry)
    requires Chained(pages, chain) && i < |chain| && chain[i] in pages && pages[chain[i]].Leaf?
    requires x in pages[chain[i]].entries
    ensures x in Contents(pages, chain)
  {
    hide Contents, Chained;
    ContentsAt(pages, chain, i);
  }

  /** A leaf that is still on the chain stands where the leaves before it have moved it. */
  lemma SeatKept(t: BTree, pages0: Pages, chain0: seq<PageId>, leaf: PageId, j: nat, d: nat, pos: nat, e: Entry)
    requires t.Linked() && leaf in t.chain && j < |chain0|
    requires TakesEntry(pages0, chain0, t.pages, t.chain, t.root, d, pos, e)
    requires t.root in chain0 ==> chain0 == [t.root]
    requires leaf in chain0 ==> j == IndexIn(chain0, leaf)
    requires leaf !in chain0 ==> leaf == t.root
    ensures leaf in chain0 && |chain0| <= |t.chain| && IndexIn(t.chain, leaf) == Shifted(j, d, |t.chain| - |chain0|)
  {
    hide Good, Contents, Rank, LeafIds, Ids, NextIn;
    if leaf == t.root {
      t.RootSingle();
      RootWas(t, pages0, chain0, d, pos, e);
    } else {
      var j' := Shifted(j, d, |t.chain| - |chain0|);
      assert t.chain[j'] == chain0[j];
      IndexOf(t.pages, t.chain, j');
    }
  }

  /** A root that is a leaf was one before. */
  lemma RootWas(t: BTree, pages0: Pages, chain0: seq<PageId>, d: nat, pos: nat, e: Entry)
    requires TakesEntry(pages0, chain0, t.pages, t.chain, t.root, d, pos, e) && t.chain == [t.root]
    ensures chain0 == [t.root]
  {
    hide NextIn, Chained;
  }

  /** The entry was deleted by one of the first `n` steps. */
  ghost predicate Deleted(e: Entry, script: seq<Step>, n: nat) {
    exists i :: 0 <= i < n && i < |script| && script[i].Remove? && e == KeyEntry(script[i].value, script[i].rid)
  }

  lemma DeletedLater(script: seq<Step>, n: nat)
    ensures forall e :: Deleted(e, script, n) ==> Deleted(e, script, n + 1)
  {
    hide KeyEntry;
  }

  lemma DeletedNow(script: seq<Step>, n: nat)
    requires n < |script| && script[n].Remove?
    ensures Deleted(KeyEntry(script[n].value, script[n].rid), script, n + 1)
  {
    hide KeyEntry;
  }

  /** The entry was there at the start, or one of the first `n` steps stored it. */
  ghost predicate Stored(e: Entry, entries: seq<Entry>, script: seq<Step>, n: nat) {
    e in entries || exists i ::
      0 <= i < n && i < |script| && script[i].Add? && e == KeyEntry(script[i].value, script[i].rid)
  }

  lemma StoredNow(entries: seq<Entry>, script: seq<Step>)
    ensures forall e :: e in entries ==> Stored(e, entries, script, 0)
  {
  }

  lemma StoredLater(entries: seq<Entry>, script: seq<Step>, n: nat)
    ensures forall e :: Stored(e, entries, script, n) ==> Stored(e, entries, script, n + 1)
  {
    hide KeyEntry;
  }

  lemma StoredByNow(entries: seq<Entry>, script: seq<Step>, n: nat)
    requires n < |script| && script[n].Add?
    ensures Stored(KeyEntry(script[n].value, script[n].rid), entries, script, n + 1)
  {
    hide KeyEntry;
  }

  /** The entries returned so far ascend and lie within the bounds. */
  ghost predicate Onward(p0: Option<Position>, upper: Bound<Key>, es: seq<Entry>) {
    && KeySorted(es) && (p0.None? ==> es == [])
    && (forall e :: e in es ==> BelowUpper(upper, e.key))
    && (p0.Some? ==> forall e :: e in es ==> AboveLower(SeekBound(p0.value), e.key))
  }

  lemma NothingRead(p0: Option<Position>, upper: Bound<Key>)
    ensures Onward(p0, upper, [])
    ensures p0.Some? ==> p0.value == PositionAt(p0.value, [], 0)
  {
  }

  lemma OnwardMeans(p0: Option<Position>, upper: Bound<Key>, es: seq<Entry>)
    requires Onward(p0, upper, es)
    ensures KeySorted(es) && (p0.None? ==> es == [])
    ensures forall e :: e in es ==> BelowUpper(upper, e.key)
    ensures p0.Some? ==> forall e :: e in es ==> AboveLower(SeekBound(p0.value), e.key)
  {
    hide KeySorted, BelowUpper, AboveLower;
  }

  lemma OnwardOne(p0: Option<Position>, upper: Bound<Key>, es: seq<Entry>, e: Entry)
    requires Onward(p0, upper, es) && p0.Some? && BelowUpper(upper, e.key)
    requires AboveLower(SeekBound(PositionAt(p0.value, es, |es|)), e.key)
    ensures Onward(p0, upper, es + [e])
    ensures PositionAt(p0.value, es + [e], |es| + 1) == After(e.key, e.rid)
  {
    hide Rank, BelowUpper, AboveLower, KeySorted;
    WithinOnward(p0.value, es, e);
    SortedWith(es, e);
    assert forall x :: x in es + [e] ==> x in es || x == e;
  }

  lemma OnwardMore(p0: Option<Position>, upper: Bound<Key>, es: seq<Entry>, more: seq<Entry>,
                   current: Option<(PageId, Position)>)
    requires Onward(p0, upper, es) && KeySorted(more) && (current.None? ==> more == [])
    requires forall e :: e in more ==> BelowUpper(upper, e.key)
    requires current.Some? ==> p0.Some? && current.value.1 == PositionAt(p0.value, es, |es|)
    requires current.Some? ==> forall e :: e in more ==> AboveLower(SeekBound(current.value.1), e.key)
    ensures Onward(p0, upper, es + more)
  {
    hide Rank, BelowUpper, AboveLower, KeySorted;
    if current.None? {
      assert es + more == es;
    } else {
      forall e | e in more
        ensures AboveLower(SeekBound(p0.value), e.key) && (es != [] ==> Rank(es[|es|-1].key) <= Rank(e.key))
      {
        WithinOnward(p0.value, es, e);
      }
      SortedBoth(es, more);
    }
  }

  lemma SortedBoth(es: seq<Entry>, more: seq<Entry>)
    requires KeySorted(es) && KeySorted(more)
    requires es != [] ==> forall e :: e in more ==> Rank(es[|es|-1].key) <= Rank(e.key)
    ensures KeySorted(es + more)
  {
    hide Rank;
    assert forall i :: 0 <= i < |more| ==> more[i] in more;
  }

  lemma SortedWith(es: seq<Entry>, e: Entry)
    requires KeySorted(es) && (es != [] ==> Rank(es[|es|-1].key) <= Rank(e.key))
    ensures KeySorted(es + [e])
  {
    hide Rank;
  }

  /** `es` was returned in order, `left` follows, and together they are `all`. */
  ghost predicate Collected(es: seq<Entry>, left: set<Entry>, all: set<Entry>) {
    && AllDistinct(es) && KeySorted(es)
    && (forall e :: e in es ==> e !in left)
    && Listed(es) + left == all
    && forall e, x :: e in es && x in left ==> Rank(e.key) <= Rank(x.key)
  }

  lemma NothingCollected(all: set<Entry>)
    ensures Collected([], all, all)
  {
  }

  lemma CollectOne(es: seq<Entry>, left: set<Entry>, all: set<Entry>, e: Entry)
    requires Collected(es, left, all) && e in left
    requires forall x :: x in left - {e} ==> Rank(e.key) <= Rank(x.key)
    ensures Collected(es + [e], left - {e}, all)
  {
    hide Rank;
    var es' := es + [e];
    assert forall i :: 0 <= i < |es| ==> es'[i] == es[i] && es[i] in es;
  }

  lemma CollectLess(es: seq<Entry>, left: set<Entry>, all: set<Entry>, e: Entry)
    requires Collected(es, left, all)
    ensures Collected(es, left - {e}, if e in left then all - {e} else all)
  {
    hide Rank;
  }

  lemma CollectRest(es: seq<Entry>, left: set<Entry>, all: set<Entry>, more: seq<Entry>)
    requires Collected(es, left, all) && AllDistinct(more) && KeySorted(more) && Listed(more) == left
    ensures AllDistinct(es + more) && KeySorted(es + more)
    ensures forall e :: e in es + more <==> e in all
  {
    hide Rank;
    assert forall e :: e in more <==> e in Listed(more);
    assert forall e :: e in es <==> e in (set x | x in es);
    assert forall i :: 0 <= i < |more| ==> more[i] in left;
    assert forall i :: 0 <= i < |es| ==> es[i] in es;
  }
}
