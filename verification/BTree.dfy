/** The B+Tree index over its pages (src/btree.rs). Pages are read and written through a
    flat page store; write latches are a set of page ids held by the running operation. */
module BTreeIndex {
  import opened Options
  import opened PageIds
  import opened KeyOrder
  import opened KeyCodec
  import opened PageLayout
  import opened PageSearch
  import opened EntryList
  import opened TreeShape
  import opened TreePath
  import opened TreeInsert
  import opened TreeAlign
  import opened LeafChain
  import opened TreeRun
  import opened InsertRun
  import opened InsertSpec
  import opened ScanPosition
  import opened TreeReads
  import opened TreeUnique

  class BTree {
    const capacity: nat
    const root: PageId
    const unique: bool
    const keyType: DataType
    var pages: Pages
    var pageCount: nat
    var latched: set<PageId>

    ghost var shape: Tree
    ghost var height: nat
    ghost var chain: seq<PageId>

    /** The order a tree of this kind starts with. */
    ghost function OrderKept(): Mode {
      if unique then Strict else Weak
    }

    /** What every insert and delete keeps, with or without equal keys: all leaves at one depth,
        pages that fit and are sorted, no page used twice, all leaves on one chain, and the root
        where it always was. */
    ghost predicate Linked()
      reads this`pages, this`pageCount, this`shape, this`height, this`chain
    {
      && HEADER + 2 * (DIR_ENTRY + RECORD_ID) <= capacity <= 0xFFFF
      && shape.id == root
      && Good(capacity, Loose, pages, shape, height, BOTTOM, TOP)
      && Bounded(Ids(shape), pageCount) && Bounded(pages.Keys, pageCount)
      && Chained(pages, chain)
      && multiset(chain) == multiset(LeafIds(shape))
    }

    /** The tree finds what the leaf chain holds: separators bound their subtrees, and the
        leaves come in chain order. */
    ghost predicate Ordered()
      reads this`pages, this`shape, this`height, this`chain
    {
      && Good(capacity, OrderKept(), pages, shape, height, BOTTOM, TOP)
      && chain == LeafIds(shape)
    }

    ghost function Entries(): seq<Entry>
      reads this`pages, this`chain
    {
      Contents(pages, chain)
    }

    ghost predicate Typed()
      reads this
    {
      forall e :: e in Entries() ==> DecodeKey(keyType, e.key).Some?
    }

    ghost predicate Valid()
      reads this
    {
      Linked() && Typed() && (unique ==> Ordered())
    }

    constructor (capacity: nat, keyType: DataType, unique: bool)
      requires HEADER + 2 * (DIR_ENTRY + RECORD_ID) <= capacity <= 0xFFFF
      ensures Valid() && Ordered() && Entries() == [] && latched == {}
      ensures this.capacity == capacity && this.keyType == keyType && this.unique == unique && root == 2
      ensures pages == map[2 := Leaf([], 0)] && pageCount == 3
    {
      this.capacity, this.keyType, this.unique := capacity, keyType, unique;
      root := 2;
      pages := map[2 := Leaf([], NO_NEXT_LEAF)];
      pageCount := 3;
      latched := {};
      shape, height, chain := LeafT(2), 0, [2];
      new;
      hide Rank, Need, Good, Chained, Contents, Ids, LeafIds;
      EmptyTree(capacity);
    }

    static lemma EmptyTree(capacity: nat)
      requires HEADER + 2 * (DIR_ENTRY + RECORD_ID) <= capacity
      ensures var pages := map[2 := Leaf([], NO_NEXT_LEAF)];
        && (forall m: Mode :: Good(capacity, m, pages, LeafT(2), 0, BOTTOM, TOP))
        && Chained(pages, [2]) && Contents(pages, [2]) == []
      ensures Ids(LeafT(2)) == {2} && LeafIds(LeafT(2)) == [2]
    {
      hide Rank, Need;
      assert EntryKeys([]) == [];
      NeedNone(RECORD_ID);
      assert [2][1..] == [];
    }

    // ---- Pages and latches

    method LatchWrite(id: PageId)
      requires id !in latched
      modifies this`latched
      ensures latched == old(latched) + {id}
    {
      latched := latched + {id};
    }

    method ReleaseAll(ids: seq<PageId>)
      modifies this`latched
      ensures latched == old(latched) - ToSet(ids)
    {
      latched := latched - ToSet(ids);
    }

    method Release(id: PageId)
      requires id in latched
      modifies this`latched
      ensures latched == old(latched) - {id}
    {
      latched := latched - {id};
    }

    /** A new page at the end of the file; its payload is all zero bytes. */
    method AllocatePage(leaf: bool) returns (id: PageId)
      modifies this`pages, this`pageCount
      ensures id == old(pageCount) && pageCount == old(pageCount) + 1
      ensures pages == old(pages)[id := if leaf then Leaf([], NO_NEXT_LEAF) else Internal(0, [])]
    {
      id := pageCount;
      pageCount := pageCount + 1;
      pages := pages[id := if leaf then Leaf([], NO_NEXT_LEAF) else Internal(0, [])];
    }

    /** Latches a page nobody of this operation holds, rewrites it and lets it go. */
    method WritePage(id: PageId, node: Node)
      requires id !in latched
      modifies this`pages, this`latched
      ensures latched == old(latched) && pages == old(pages)[id := node]
    {
      LatchWrite(id);
      pages := pages[id := node];
      Release(id);
    }

    /** Rewrites a page through a guard the operation already holds. */
    method WriteGuarded(guard: PageId, node: Node)
      requires guard in latched
      modifies this`pages
      ensures pages == old(pages)[guard := node]
    {
      pages := pages[guard := node];
    }

    // ---- Inserting into one page

    method InsertIntoLeaf(guard: PageId, key: Key, rid: Rid) returns (r: Result<Option<Split>, Error>)
      requires guard in latched && guard in pages && pages[guard].Leaf?
      requires Sorted(Loose, EntryKeys(pages[guard].entries))
      requires pageCount !in latched && pageCount !in pages
      modifies this`pages, this`pageCount, this`latched
      ensures latched == old(latched)
      ensures pageCount == old(pageCount) + if r.Ok? && r.value.Some? then 1 else 0
      ensures var es := old(pages[guard].entries);
        LeafWritten(capacity, old(pages), pages, guard, InsertAt(es, Upper(EntryKeys(es), key), Entry(key, rid)),
                    old(pageCount), r)
    {
      var page := pages[guard];
      var pos := CountAtMost(EntryKeys(page.entries), key);
      var entries := InsertAt(page.entries, pos, Entry(key, rid));
      if LeafFits(entries, capacity) {
        WriteGuarded(guard, Leaf(entries, page.next));
        return Ok(None);
      }
      r := SplitLeaf(entries, guard);
    }

    method SplitLeaf(entries: seq<Entry>, guard: PageId) returns (r: Result<Option<Split>, Error>)
      requires guard in latched && guard in pages && pages[guard].Leaf?
      requires pageCount !in latched && pageCount !in pages
      requires !LeafFits(entries, capacity)
      modifies this`pages, this`pageCount, this`latched
      ensures latched == old(latched)
      ensures pageCount == old(pageCount) + if r.Ok? then 1 else 0
      ensures LeafWritten(capacity, old(pages), pages, guard, entries, old(pageCount), r)
    {
      if |entries| < 2 {
        return Err(KeyTooLarge(if |entries| == 0 then 0 else |entries[0].key|));
      }
      var mid := CapacitySplitPoint(EntryKeys(entries), RECORD_ID, capacity);
      assert EntryKeys(entries)[..|entries|] == EntryKeys(entries);
      var left, right := entries[..mid], entries[mid..];
      var separator := right[0].key;
      if !LeafFits(left, capacity) || !LeafFits(right, capacity) {
        return Err(KeyTooLarge(|separator|));
      }
      var oldNext := pages[guard].next;
      var newId := AllocatePage(true);
      WriteGuarded(guard, Leaf(left, newId));
      WritePage(newId, Leaf(right, oldNext));
      r := Ok(Some(Split(separator, newId)));
    }

    method InsertIntoInternal(guard: PageId, separator: Key, newPage: PageId) returns (r: Result<Option<Split>, Error>)
      requires guard in latched && guard in pages && pages[guard].Internal?
      requires Sorted(Loose, SepKeys(pages[guard].seps))
      requires pageCount !in latched && pageCount !in pages
      modifies this`pages, this`pageCount, this`latched
      ensures latched == old(latched)
      ensures pageCount == old(pageCount) + if r.Ok? && r.value.Some? then 1 else 0
      ensures var seps := old(pages[guard].seps);
        InnerWritten(capacity, old(pages), pages, guard,
                     InsertAt(seps, Upper(SepKeys(seps), separator), Separator(separator, newPage)), old(pageCount), r)
    {
      var page := pages[guard];
      var pos := CountAtMost(SepKeys(page.seps), separator);
      var seps := InsertAt(page.seps, pos, Separator(separator, newPage));
      if InternalFits(seps, capacity) {
        WriteGuarded(guard, Internal(page.leftmost, seps));
        return Ok(None);
      }
      r := SplitInternal(seps, page.leftmost, guard);
    }

    method SplitInternal(seps: seq<Separator>, leftmost: PageId, guard: PageId)
      returns (r: Result<Option<Split>, Error>)
      requires guard in latched && guard in pages && pages[guard].Internal? && pages[guard].leftmost == leftmost
      requires pageCount !in latched && pageCount !in pages
      requires !InternalFits(seps, capacity)
      modifies this`pages, this`pageCount, this`latched
      ensures latched == old(latched)
      ensures pageCount == old(pageCount) + if r.Ok? then 1 else 0
      ensures InnerWritten(capacity, old(pages), pages, guard, seps, old(pageCount), r)
    {
      if |seps| < 2 {
        return Err(KeyTooLarge(if |seps| == 0 then 0 else |seps[0].key|));
      }
      var mid := CapacitySplitPoint(SepKeys(seps), CHILD_ID, capacity);
      assert SepKeys(seps)[..|seps|] == SepKeys(seps);
      var separator := seps[mid].key;
      var left, right := seps[..mid], seps[mid+1..];
      if !InternalFits(left, capacity) || !InternalFits(right, capacity) {
        return Err(KeyTooLarge(|separator|));
      }
      WriteGuarded(guard, Internal(leftmost, left));
      var newId := AllocatePage(false);
      WritePage(newId, Internal(seps[mid].child, right));
      r := Ok(Some(Split(separator, newId)));
    }

    /** The tree gains a level. The root keeps its page id: its old contents move to a new page. */
    method GrowNewRoot(guard: PageId, separator: Key, newPage: PageId) returns (r: Result<(), Error>)
      requires guard == root && guard in latched && guard in pages
      requires pageCount !in latched && pageCount !in pages
      modifies this`pages, this`pageCount, this`latched
      ensures latched == old(latched) && pageCount == old(pageCount) + 1
      ensures var seps := [Separator(separator, newPage)];
        if InternalFits(seps, capacity) then
          r == Ok(()) && pages ==
              old(pages)[old(pageCount) := old(pages[guard])][guard := Internal(old(pageCount), seps)]
        else
          r.Err? && pages == old(pages)[old(pageCount) := old(pages[guard])]
    {
      var oldRoot := pages[guard];
      var leftId := AllocatePage(oldRoot.Leaf?);
      WritePage(leftId, oldRoot);
      var seps := [Separator(separator, newPage)];
      if !InternalFits(seps, capacity) {
        return Err(KeyTooLarge(|separator|));
      }
      WriteGuarded(guard, Internal(leftId, seps));
      r := Ok(());
    }

    // ---- Insert

    /** Latches pages from the root down to the leaf of `key`, letting go of everything above a
        page that cannot split. `top` is the depth of the first page still held. */
    method DescendForInsert(key: Key, rid: Rid, ghost m: Mode)
      returns (ancestors: seq<PageId>, leaf: PageId, ghost s: Spot, ghost top: nat)
      requires Linked() && latched == {}
      requires m == Loose || (m == OrderKept() && Ordered())
      modifies this`latched
      ensures At(capacity, m, pages, root, s) && s.t.LeafT? && s.t.id == leaf && KeyHere(m, pages, s, key)
      ensures Followed(pages, s.path, s.t, key) && Plug(s.path, s.t) == shape
      ensures PathIds(s.path) + Ids(s.t) == Ids(shape)
      ensures Held(ancestors, s.path, top) && TopSafe(capacity, pages, s.path, top)
      ensures leaf !in ToSet(ancestors) && latched == ToSet(ancestors) + {leaf}
      ensures leaf in pages && pages[leaf].Leaf?
      ensures 0 < |s.path| ==>
        var es := pages[leaf].entries;
        (top == |s.path| <==> LeafFits(InsertAt(es, Upper(EntryKeys(es), key), Entry(key, rid)), capacity))
      ensures NoneSafeBelow(capacity, pages, s.path, top)
      ensures s.h + |s.path| == height
    {
      hide Good, Ids, PathOk, Plug, LeavesBefore, LeavesAfter, PathIds, Upper, Rank, Contents, Fills, LeafIds, At,
        KeyHere, Followed, Chained, InternalIsSafe, LeafFits, InsertAt, Held, TopSafe, NoneSafeBelow, ToSet;
      ancestors := [];
      leaf := root;
      top := 0;
      s := Spot([], shape, height, BOTTOM, TOP);
      StartAtRoot(m, key);
      while true
        invariant At(capacity, m, pages, root, s) && KeyHere(m, pages, s, key) && Followed(pages, s.path, s.t, key)
        invariant Plug(s.path, s.t) == shape && PathIds(s.path) + Ids(s.t) == Ids(shape) && s.t.id == leaf
        invariant Held(ancestors, s.path, top) && TopSafe(capacity, pages, s.path, top)
        invariant NoneSafeBelow(capacity, pages, s.path, top)
        invariant top < |s.path| || top == 0
        invariant latched == ToSet(ancestors) <= PathIds(s.path)
        invariant s.h + |s.path| == height
        decreases s.h
      {
        AtFacts(m, s);
        LatchWrite(leaf);
        var page := pages[leaf];
        if page.Leaf? {
          var pos := CountAtMost(EntryKeys(page.entries), key);
          if LeafIsSafe(capacity, page.entries, pos, Entry(key, rid)) {
            ReleaseAll(ancestors);
            HeldNone(s.path, ancestors);
            ancestors := [];
            top := |s.path|;
          }
          break;
        }
        var i := CountAtMost(SepKeys(page.seps), key);
        var next := if i == 0 then page.leftmost else page.seps[i-1].child;
        FollowDown(capacity, m, pages, root, s, key);
        GoDownFacts(m, s, i);
        ghost var f := Frame(s.t, i, s.h, s.lo, s.hi);
        HeldPush(ancestors, s.path, top, f);
        if InternalIsSafe(capacity, page.seps) {
          ReleaseAll(ancestors);
          HeldNone(s.path, ancestors);
          ancestors := [];
          top := |s.path|;
        }
        TopSafePush(capacity, pages, s.path, top, f);
        NoneSafePush(capacity, pages, s.path, top, f);
        assert [] + [leaf] == [leaf];
        ancestors := ancestors + [leaf];
        s := Down(pages, s, i);
        leaf := next;
      }
    }

    lemma StartAtRoot(m: Mode, key: Key)
      requires Linked() && (m == Loose || (m == OrderKept() && Ordered()))
      ensures var s := Spot([], shape, height, BOTTOM, TOP);
        && At(capacity, m, pages, root, s) && KeyHere(m, pages, s, key) && Followed(pages, s.path, s.t, key)
        && Plug(s.path, s.t) == shape && PathIds(s.path) == {} && Held([], s.path, 0) && ToSet([]) == {}
        && TopSafe(capacity, pages, s.path, 0) && NoneSafeBelow(capacity, pages, s.path, 0)
    {
    }

    lemma AtFacts(m: Mode, s: Spot)
      requires At(capacity, m, pages, root, s)
      ensures s.t.id in pages && s.t.id in Ids(s.t) && s.t.id !in PathIds(s.path)
      ensures s.t.LeafT? <==> pages[s.t.id].Leaf?
      ensures s.t.LeafT? ==> s.h == 0 && Sorted(Loose, EntryKeys(pages[s.t.id].entries))
      ensures s.t.NodeT? ==>
        && NodeKeys(pages, s.t.id) == SepKeys(pages[s.t.id].seps) && Sorted(Loose, NodeKeys(pages, s.t.id))
        && |NodeKeys(pages, s.t.id)| + 1 == |s.t.kids|
        && pages[s.t.id].leftmost == s.t.kids[0].id
        && forall i :: 0 < i < |s.t.kids| ==> pages[s.t.id].seps[i-1].child == s.t.kids[i].id
    {
      hide Good, Ids, PathOk, PathIds, Rank, Fills;
      NodeFacts(capacity, m, pages, s.t, s.h, s.lo, s.hi);
    }

    lemma GoDownFacts(m: Mode, s: Spot, i: nat)
      requires At(capacity, m, pages, root, s) && s.t.NodeT? && i < |s.t.kids|
      ensures s.h > 0 && |NodeKeys(pages, s.t.id)| + 1 == |s.t.kids|
      ensures var s' := Down(pages, s, i);
        && PathIds(s'.path) + Ids(s'.t) == PathIds(s.path) + Ids(s.t)
        && Plug(s'.path, s'.t) == Plug(s.path, s.t)
        && PathIds(s.path) <= PathIds(s'.path) && s.t.id in PathIds(s'.path)
    {
      hide Good, Ids, PathOk, Plug, LeavesBefore, LeavesAfter, FrameIds, Rank, Fills;
      GoDown(capacity, m, pages, root, s, i);
      var path' := Down(pages, s, i).path;
      assert path'[..|path'|-1] == s.path;
      assert s.t.id in FrameIds(path'[|path'|-1]) by { LastId(path'[|path'|-1]); }
    }

    lemma LastId(f: Frame)
      ensures f.node.id in FrameIds(f)
    {
    }

    lemma ReadyAtLeaf(m: Mode, s: Spot, e: Entry, ancestors: seq<PageId>, top: nat)
      requires Linked() && (m == Loose || (m == OrderKept() && Ordered()))
      requires At(capacity, m, pages, root, s) && s.t.LeafT? && KeyHere(m, pages, s, e.key)
      requires Followed(pages, s.path, s.t, e.key)
      requires Plug(s.path, s.t) == shape && PathIds(s.path) + Ids(s.t) == Ids(shape)
      requires |e.key| <= MaxKeyLen(capacity)
      requires m.Strict? ==> forall x :: x in Entries() ==> x.key != e.key
      requires Held(ancestors, s.path, top)
      ensures LeafReady(capacity, m, pages, pageCount, root, s, e, chain)
      ensures capacity >= HEADER + 2 * (DIR_ENTRY + RECORD_ID)
      ensures pageCount !in ToSet(ancestors) && pageCount != s.t.id && pageCount !in pages && pageCount > 0
      ensures s.t.id in pages && pages[s.t.id].Leaf? && Sorted(Loose, EntryKeys(pages[s.t.id].entries))
      ensures EntriesWith(pages, s.t.id, e) ==
        InsertAt(pages[s.t.id].entries, Upper(EntryKeys(pages[s.t.id].entries), e.key), e)
      ensures top <= |s.path| && s.h == 0
    {
      hide Good, Rank, PathOk, PathIds, LeavesBefore, LeavesAfter, Contents, Chained, Fills, Followed, KeyHere, Upper,
        InsertAt, MaxKeyLen, Ids, LeafPageOk, ToSet;
      LeafBefore(capacity, m, pages, root, s, e.key);
      PlugLeaves(s.path, s.t);
      HeldInPath(capacity, m, pages, s.path, root, ancestors, top);
      OneLeaf(s.t.id);
      assert s.t == LeafT(s.t.id);
    }

    /** The propagation has reached the root: the tree grows. */
    method FinishAtRoot(ghost run: Run, ghost l: Level, ghost left: Tree, separator: Key, newPage: PageId,
                        ghost right: Tree, ghost es: seq<Entry>, ghost pages0: Pages, ghost shape0: Tree,
                        current: PageId) returns (r: Result<(), Error>)
      requires run == Run(capacity, run.m, pages0, root, run.path, run.key, run.chain) && l.n == 0
      requires Running(run, pages, pageCount, l, Some(Split(separator, newPage)), left, right, es)
      requires left.id == current && Plug(run.path[..0], l.was) == shape0 && pageCount > 0
      requires latched == {current} && HEADER + 2 * (DIR_ENTRY + RECORD_ID) <= capacity <= 0xFFFF
      requires run.m == Loose || run.m == OrderKept()
      modifies this
      ensures r == Ok(()) && Linked() && latched == {} && Entries() == es
      ensures SameLeaves(old(pages), run.chain, pages, chain, root)
      ensures root in old(pages) && pageCount == old(pageCount) + 1
      ensures pages ==
        old(pages)[old(pageCount) := old(pages)[root]][root := Internal(old(pageCount),
                                                                        [Separator(separator, newPage)])]
      ensures !run.m.Loose? ==> (Ordered() <==> Clean(capacity, pages0, shape0, run.key))
    {
      hide Good, Ids, Rank, PathIds, Contents, Chained, Propagating, Clean, LeafIds, InternalFits, Running, Plug,
        SameLeaves;
      ghost var id := pageCount;
      RootReached(run, pages, pageCount, l, Split(separator, newPage), left, right, es);
      ghost var after := pages[id := pages[root]][root := Internal(id, [Separator(separator, right.id)])];
      ghost var shape', chain' := FinishGrown(run, pages, after, l, left, separator, right, id, shape0);
      r := GrowNewRoot(current, separator, newPage);
      Release(current);
      assert pages.Keys == after.Keys == old(pages).Keys + {id};
      shape, height, chain := shape', l.h + 1, chain';
    }

    /** The state of an insert between two page writes, guards included. */
    ghost predicate Between(run: Run, l: Level, pending: Option<Split>, left: Tree, right: Tree, es: seq<Entry>,
                            ancestors: seq<PageId>, current: PageId, top: nat)
      reads this`pages, this`pageCount, this`latched, this`shape, this`height
    {
      && run == Run(capacity, run.m, run.pages0, root, run.path, run.key, run.chain)
      && (run.m == Loose || run.m == OrderKept())
      && HEADER + 2 * (DIR_ENTRY + RECORD_ID) <= capacity <= 0xFFFF
      && Running(run, pages, pageCount, l, pending, left, right, es) && left.id == current
      && l.n <= |run.path| && Plug(run.path[..l.n], l.was) == shape && l.h + l.n == height
      && Held(ancestors, run.path[..l.n], top) && TopSafe(capacity, run.pages0, run.path, top)
      && (pending.Some? && l.n == top ==> top == 0)
      && latched == ToSet(ancestors) + {current} && current !in ToSet(ancestors)
      && pageCount > 0
    }

    /** Hands splits up from page to page until one has room, or the root has split. */
    method Propagate(start: Option<Split>, stack: seq<PageId>, leaf: PageId, ghost run: Run, ghost startLevel: Level,
                     ghost startLeft: Tree, ghost startRight: Tree, ghost es: seq<Entry>, ghost top: nat,
                     ghost e: Entry, ghost count0: nat) returns (r: Result<(), Error>)
      requires Between(run, startLevel, start, startLeft, startRight, es, stack, leaf, top)
      requires run.key == e.key && shape.id == root
      requires PutBelow(capacity, run.pages0, count0, startLevel.was, e) == Put(pages, pageCount, start)
      modifies this
      ensures r == Ok(()) && Linked() && latched == {} && Entries() == es
      ensures SameLeaves(old(pages), run.chain, pages, chain, root)
      ensures Put(pages, pageCount, None) == PutInto(capacity, run.pages0, count0, old(shape), e)
      ensures !run.m.Loose? ==> (Ordered() <==> Clean(capacity, run.pages0, old(shape), run.key))
    {
      hide Good, Ids, PathOk, PathIds, Upper, Rank, Contents, LeafIds, Chained, LeafFits, InsertAt, Held, TopSafe,
        ToSet, Running, Clean, InternalFits, NewSeps, Up, FrameOk, SepKeys, NodeKeys, Plug, SameLeaves, PutBelow,
        PutInto, InnerWritten;
      var pending, ancestors, current := start, stack, leaf;
      ghost var l, left, right := startLevel, startLeft, startRight;
      RunChained(run, pages, pageCount, l, start, left, right, es);
      SamePages(pages, run.chain, root);
      while pending.Some?
        invariant Between(run, l, pending, left, right, es, ancestors, current, top)
        invariant unchanged(`shape, `height, `chain)
        invariant PutBelow(capacity, run.pages0, count0, l.was, e) == Put(pages, pageCount, pending)
        invariant SameLeaves(old(pages), run.chain, pages, run.chain, root)
        decreases l.n
      {
        var Split(separator, newPage) := pending.value;
        if ancestors == [] {
          NothingHeld(run.path[..l.n], l.n, top);
          PlugNothing(run.path[..0], l.was);
          ghost var pages1, count1 := pages, pageCount;
          r := FinishAtRoot(run, l, left, separator, newPage, right, es, run.pages0, shape, current);
          SameLeavesOn(old(pages), pages1, pages, run.chain, chain, root);
          PutsRoot(capacity, run.pages0, count0, old(shape), e, Put(pages1, count1, pending), pages);
          return;
        }
        var parent := ancestors[|ancestors|-1];
        Release(current);
        ParentPage(run, l, pages, pageCount, separator, newPage, left, right, es, ancestors, top, run.pages0);
        ancestors := ancestors[..|ancestors|-1];
        ghost var pages1, count1, left1, right1 := pages, pageCount, left, right;
        var u := InsertIntoInternal(parent, separator, newPage);
        left, right := InternalStep(run, pages1, pages, count1, l, Split(separator, newPage), left, right, es, u);
        SameLeavesAfter(pages1, pages, run.chain, root);
        SameLeavesOn(old(pages), pages1, pages, run.chain, run.chain, root);
        PutsSeparator(run, pages1, pages, count0, count1, l, Split(separator, newPage), left1, right1, es, e, u);
        l := Up(run, pages1, l, separator);
        pending := u.value;
        current := parent;
      }
      Release(current);
      ReleaseAll(ancestors);
      RunFollowed(run, pages, pageCount, l, left, right, es);
      PutsNothingAbove(capacity, run.pages0, count0, run.path[..l.n], l.was, e);
      PutsNoRoot(capacity, run.pages0, count0, shape, e);
      ghost var shape' := FinishRun(run, l, left, right, es, pages, pageCount, shape);
      shape, height, chain := shape', l.h + l.n, run.chain;
      r := Ok(());
    }

    /** Inserts an accepted key. No page on the way refuses its part: the result is always Ok. */
    method InsertKey(key: Key, rid: Rid) returns (r: Result<(), Error>)
      requires Linked() && latched == {} && |key| <= MaxKeyLen(capacity)
      requires unique ==> Ordered() && forall e :: e in Entries() ==> e.key != key
      modifies this
      ensures r == Ok(()) && Linked() && latched == {}
      ensures multiset(Entries()) == multiset(old(Entries())) + multiset{Entry(key, rid)}
      ensures old(Ordered()) ==> Entries() == InsertSorted(old(Entries()), Entry(key, rid))
      ensures old(Ordered()) ==> (Ordered() <==> old(Clean(capacity, pages, shape, key)))
      ensures Put(pages, pageCount, None) == old(PutInto(capacity, pages, pageCount, shape, Entry(key, rid)))
      ensures exists d: nat, pos: nat :: TakesEntry(old(pages), old(chain), pages, chain, root, d, pos, Entry(key, rid))
    {
      hide TakesEntry, SameLeaves, ChainAfter, PutInto, PutBelow, Good, Ids, PathOk, LeavesBefore, LeavesAfter, PathIds,
        Upper, Rank, Contents, Fills, LeafIds, At, KeyHere, Followed, Chained, LeafFits, InsertAt, Held, TopSafe, ToSet,
        Running, LeafReady, LeafStepped, Clean, InsertSorted, MaxKeyLen, FrameOk, EntryKeys, EntriesWith, Plug;
      ghost var m := if Ordered() then OrderKept() else Loose;
      ghost var e := Entry(key, rid);
      ghost var pages0, count := pages, pageCount;
      var ancestors, current, s, top := DescendForInsert(key, rid, m);
      ReadyAtLeaf(m, s, e, ancestors, top);
      var w := InsertIntoLeaf(current, key, rid);
      ghost var run, l, right, es := LeafStep(capacity, m, pages0, pages, count, root, s, e, chain, w);
      StartRun(capacity, root, run, l, s, pages, pageCount, w, s.t, right, es, e, chain, pages0, count, m, top);
      PutsLeaf(capacity, pages0, pages, count, s.t.id, e, w);
      LeafTakesEntry(capacity, pages0, pages, chain, run.chain, root, s.t.id, count, e, w);
      ghost var d: nat, pos: nat :| TakesEntry(pages0, chain, pages, run.chain, root, d, pos, e);
      ghost var chain0, pages1 := chain, pages;
      r := Propagate(w.value, ancestors, current, run, l, s.t, right, es, top, e, count);
      TakesThrough(pages0, chain0, pages1, run.chain, pages, chain, root, d, pos, e);
    }

    // ---- Finding leaves

    /** Why a value is refused as a key of this tree, if it is. */
    function KeyError(value: Value): Option<Error> {
      if value.Type().None? then Some(NullKeyNotAllowed)
      else if value.Type().value != keyType then Some(KeyTypeMismatch(keyType, value.Type().value))
      else None
    }

    /** `check_key_type` */
    method CheckKeyType(value: Value) returns (r: Result<(), Error>)
      ensures r == match KeyError(value) case None => Ok(()) case Some(error) => Err(error)
      ensures r == if value == Null then Err(NullKeyNotAllowed)
                   else if value.Type() == Some(keyType) then Ok(())
                   else Err(KeyTypeMismatch(keyType, value.Type().value))
      ensures r.Ok? ==> EncodeKey(value).Some? && DecodeKey(keyType, EncodeKey(value).value) == Some(value)
    {
      if value.Type().None? {
        return Err(NullKeyNotAllowed);
      }
      if value.Type().value != keyType {
        return Err(KeyTypeMismatch(keyType, value.Type().value));
      }
      DecodeEncode(value);
      return Ok(());
    }

    /** What an insert of this value would be refused for, equal keys in a unique tree apart. */
    method CheckKeyFits(value: Value) returns (r: Result<(), Error>)
      ensures KeyError(value).Some? ==> r == Err(KeyError(value).value)
      ensures KeyError(value).None? ==>
        && EncodeKey(value).Some?
        && var key := EncodeKey(value).value;
           r == if key == [] || (Fits([key, key], RECORD_ID, capacity) && Fits([key, key], CHILD_ID, capacity))
               then Ok(())
                else Err(KeyTooLarge(|key|))
    {
      hide MaxKeyLen, Need;
      var checked := CheckKeyType(value);
      if checked.Err? {
        return checked;
      }
      var key := EncodeKey(value).value;
      AcceptedLength(capacity, key);
      r := if |key| <= MaxKeyLen(capacity) then Ok(()) else Err(KeyTooLarge(|key|));
    }

    /** `encode_bound` */
    method EncodeBound(bound: Bound<Value>) returns (r: Result<Bound<Key>, Error>)
      ensures bound.Unbounded? ==> r == Ok(Unbounded)
      ensures !bound.Unbounded? && KeyError(bound.k).Some? ==> r == Err(KeyError(bound.k).value)
      ensures r.Ok? <==> BoundTyped(keyType, bound)
      ensures r.Ok? ==> r.value == BoundKey(keyType, bound)
    {
      if bound.Unbounded? {
        return Ok(Unbounded);
      }
      var checked := CheckKeyType(bound.k);
      if checked.Err? {
        return Err(checked.error);
      }
      var key := EncodeKey(bound.k).value;
      r := Ok(if bound.Included? then Included(key) else Excluded(key));
    }

    /** Leaf `j` of the chain is where reading from `lower` on has to start. */
    ghost predicate StartsAt(j: nat, lower: Bound<Key>)
      reads this`pages, this`chain
    {
      && j < |chain|
      && forall e :: e in Contents(pages, chain[..j]) ==> !AboveLower(lower, e.key)
    }

    /** The search key lies between the bounds of the spot, and nothing left of it is above `lower`. */
    ghost predicate Reading(m: Mode, s: Spot, lower: Bound<Key>)
      reads this`pages
    {
      !m.Loose? ==>
        && s.lo <= s.hi
        && (match lower
            case Unbounded => LeavesBefore(s.path) == []
            case Included(k) => s.lo < Rank(k) <= s.hi
            case Excluded(k) => s.lo <= Rank(k) < s.hi)
        && forall e :: e in Contents(pages, LeavesBefore(s.path)) ==> !AboveLower(lower, e.key)
    }

    lemma ReadDown(m: Mode, s: Spot, lower: Bound<Key>)
      requires At(capacity, m, pages, root, s) && s.t.NodeT? && Reading(m, s, lower)
      ensures s.h > 0 && |NodeKeys(pages, s.t.id)| + 1 == |s.t.kids|
      ensures Reading(m, Down(pages, s, Branch(NodeKeys(pages, s.t.id), lower)), lower)
    {
      hide Good, Ids, PathOk, FrameIds, Plug, LeavesBefore, LeavesAfter, PathIds, Upper, Lower, Rank, Contents, Fills,
        LeafIds, ForestLeaves;
      NodeFacts(capacity, m, pages, s.t, s.h, s.lo, s.hi);
      var keys := NodeKeys(pages, s.t.id);
      var i := Branch(keys, lower);
      GoDown(capacity, m, pages, root, s, i);
      if !m.Loose? {
        NodeOrder(m, s);
        BoundsMeet(keys, m, s.lo, s.hi, i);
        SiblingBounds(capacity, m, pages, s.t, s.h, s.lo, s.hi, i);
        ContentsConcat(pages, LeavesBefore(s.path), ForestLeaves(s.t.kids[..i]));
        if i == 0 { assert s.t.kids[..i] == []; NothingSorted(pages); NoForest(); }
      }
    }

    lemma NoForest()
      ensures ForestLeaves([]) == []
    {
    }

    lemma NodeOrder(m: Mode, s: Spot)
      requires At(capacity, m, pages, root, s) && s.t.NodeT?
      ensures Sorted(m, NodeKeys(pages, s.t.id)) && AllWithin(m, s.lo, NodeKeys(pages, s.t.id), s.hi)
    {
      hide Rank, Sorted, AllWithin, PathOk, Fills, PathIds, Ids, Apart, KidsGood, Short, InternalFits;
    }

    /** `find_leaf`, `find_leaf_for_lower_bound` and `leftmost_leaf`: the leaf where reading starts. */
    method FindStart(lower: Bound<Key>) returns (leaf: PageId, ghost j: nat)
      requires Linked()
      ensures leaf == Reach(pages, shape, lower)
      ensures j < |chain| && chain[j] == leaf && j == FirstLeaf(lower)
      ensures Ordered() ==> StartsAt(j, lower)
    {
      hide Reach, Branch, Good, Ids, PathOk, Plug, LeavesBefore, LeavesAfter, PathIds, Upper, Lower, Rank, Contents,
        Fills, LeafIds, At, Chained, Reading;
      ghost var m := if Ordered() then OrderKept() else Loose;
      leaf := root;
      ghost var s := Spot([], shape, height, BOTTOM, TOP);
      StartReading(m, lower);
      while true
        invariant At(capacity, m, pages, root, s) && Reading(m, s, lower) && s.t.id == leaf
        invariant Plug(s.path, s.t) == shape && Reach(pages, s.t, lower) == Reach(pages, shape, lower)
        decreases s.h
      {
        AtFacts(m, s);
        ReachStep(s, lower);
        var page := pages[leaf];
        if page.Leaf? {
          break;
        }
        var i: nat;
        match lower {
          case Unbounded => i := 0;
          case Included(k) => i := CountBelow(SepKeys(page.seps), k);
          case Excluded(k) => i := CountAtMost(SepKeys(page.seps), k);
        }
        assert i == Branch(NodeKeys(pages, leaf), lower) by { BranchIs(NodeKeys(pages, leaf), lower); }
        ReadDown(m, s, lower);
        GoDown(capacity, m, pages, root, s, i);
        leaf := if i == 0 then page.leftmost else page.seps[i-1].child;
        s := Down(pages, s, i);
      }
      j := LeafIndex(m, s, lower);
      IndexOf(pages, chain, j);
    }

    /** The same without running the descent. */
    lemma FirstLeafStarts(lower: Bound<Key>)
      requires Linked() && Ordered()
      ensures FirstLeaf(lower) < |chain| && StartsAt(FirstLeaf(lower), lower)
    {
      hide Good, Rank, Chained, Ids, LeafIds, Reach, At, Reading, Contents;
      var s := Spot([], shape, height, BOTTOM, TOP);
      StartReading(OrderKept(), lower);
      StartsBelow(s, lower);
    }

    lemma {:induction false} StartsBelow(s: Spot, lower: Bound<Key>)
      requires Linked() && Ordered() && At(capacity, OrderKept(), pages, root, s)
      requires Reading(OrderKept(), s, lower) && Plug(s.path, s.t) == shape
      requires Reach(pages, s.t, lower) == Reach(pages, shape, lower)
      ensures FirstLeaf(lower) < |chain| && StartsAt(FirstLeaf(lower), lower)
      decreases s.h
    {
      hide Good, Rank, Chained, Ids, LeafIds, Reach, At, Reading, Contents, Plug, Branch, StartsAt, IndexIn, NodeKeys;
      var m := OrderKept();
      ReachStep(s, lower);
      if s.t.LeafT? {
        var j := LeafIndex(m, s, lower);
        IndexOf(pages, chain, j);
      } else {
        AtFacts(m, s);
        ReadDown(m, s, lower);
        var i := Branch(NodeKeys(pages, s.t.id), lower);
        GoDown(capacity, m, pages, root, s, i);
        StartsBelow(Down(pages, s, i), lower);
      }
    }

    lemma BranchIs(keys: seq<Key>, lower: Bound<Key>)
      ensures lower.Unbounded? ==> Branch(keys, lower) == 0
      ensures lower.Included? ==> Branch(keys, lower) == Lower(keys, lower.k)
      ensures lower.Excluded? ==> Branch(keys, lower) == Upper(keys, lower.k)
    {
    }

    lemma ReachStep(s: Spot, lower: Bound<Key>)
      ensures s.t.LeafT? ==> Reach(pages, s.t, lower) == s.t.id
      ensures s.t.NodeT? && Branch(NodeKeys(pages, s.t.id), lower) < |s.t.kids| ==>
                Reach(pages, s.t, lower) == Reach(pages, s.t.kids[Branch(NodeKeys(pages, s.t.id), lower)], lower)
    {
      hide NodeKeys, Branch;
    }

    /** Every descent ends at a leaf of the chain. */
    lemma ReachesChain(lower: Bound<Key>)
      requires Linked()
      ensures Reach(pages, shape, lower) in chain
    {
      hide Good, Rank, Chained, Ids, LeafIds, Reach;
      ReachesLeaf(capacity, Loose, pages, shape, height, BOTTOM, TOP, lower);
      assert Reach(pages, shape, lower) in multiset(chain);
    }

    lemma LeafIsSorted(leaf: PageId)
      requires Linked() && leaf in chain
      ensures leaf in pages && pages[leaf].Leaf? && PageSorted(pages[leaf].entries)
    {
      hide Good, Rank, Chained, Ids, LeafIds, PageSorted;
      LeavesSorted(capacity, Loose, pages, shape, height, BOTTOM, TOP);
      assert leaf in multiset(LeafIds(shape));
    }

    /** A root that is a leaf is the whole chain. */
    lemma RootLeaf()
      requires Linked()
      ensures root in pages && (pages[root].Leaf? <==> root in chain)
    {
      hide Rank, Ids, InnerPageOk, LeafPageOk, Apart, KidsGood, ForestLeaves;
      if shape.LeafT? {
        IsLeaf(capacity, Loose, pages[root], BOTTOM, TOP);
        assert root in LeafIds(shape);
        assert root in multiset(chain);
      } else {
        InnerLen(capacity, Loose, pages[root], shape.kids, BOTTOM, TOP);
        RootNotOnChain(pages, chain, root);
      }
    }

    lemma StartReading(m: Mode, lower: Bound<Key>)
      requires Linked() && (m == Loose || (m == OrderKept() && Ordered()))
      ensures var s := Spot([], shape, height, BOTTOM, TOP);
        At(capacity, m, pages, root, s) && Reading(m, s, lower) && Plug(s.path, s.t) == shape
    {
      assert LeavesBefore([]) == [];
    }

    lemma RootSingle()
      requires Linked() && root in chain
      ensures chain == [root]
    {
      hide Rank, Ids, LeafPageOk, InnerPageOk, Apart, KidsGood, ForestLeaves;
      RootLeaf();
      if shape.NodeT? {
        InnerLen(capacity, Loose, pages[root], shape.kids, BOTTOM, TOP);
      }
      assert LeafIds(shape) == [root];
      assert |multiset(chain)| == |multiset(LeafIds(shape))|;
    }

    lemma {:induction false} LeafIndex(m: Mode, s: Spot, lower: Bound<Key>) returns (j: nat)
      requires Linked() && At(capacity, m, pages, root, s) && Reading(m, s, lower) && s.t.LeafT?
      requires Plug(s.path, s.t) == shape
      requires m == Loose || (m == OrderKept() && Ordered())
      ensures j < |chain| && chain[j] == s.t.id
      ensures m != Loose ==> StartsAt(j, lower)
    {
      hide Good, PathOk, PathIds, LeavesBefore, LeavesAfter, Contents, Fills, Rank, Chained, Ids;
      PlugLeaves(s.path, s.t);
      OneLeaf(s.t.id);
      assert s.t == LeafT(s.t.id);
      var all := LeavesBefore(s.path) + [s.t.id] + LeavesAfter(s.path);
      if m == Loose {
        assert s.t.id in all;
        assert s.t.id in multiset(chain);
        j :| 0 <= j < |chain| && chain[j] == s.t.id;
      } else {
        j := |LeavesBefore(s.path)|;
        assert chain[..j] == LeavesBefore(s.path);
      }
    }

    lemma EntriesSorted()
      requires Linked() && Ordered()
      ensures KeySorted(Entries())
      ensures unique ==> forall i, j :: 0 <= i < j < |Entries()| ==> Entries()[i].key != Entries()[j].key
    {
      hide Good, Contents, Rank;
      SubtreeSorted(capacity, OrderKept(), pages, shape, height, BOTTOM, TOP);
    }

    /** Where on the chain the descent for `lower` ends. */
    ghost function FirstLeaf(lower: Bound<Key>): nat
      reads this`pages, this`shape, this`chain
    {
      IndexIn(chain, Reach(pages, shape, lower))
    }

    // ---- Delete

    method FirstPosition(es: seq<Entry>, e: Entry) returns (pos: Option<nat>)
      ensures pos.Some? ==> pos.value < |es| && es[pos.value] == e && e !in es[..pos.value]
      ensures pos.None? ==> e !in es
    {
      var i := 0;
      while i < |es|
        invariant i <= |es| && e !in es[..i]
      {
        if es[i] == e {
          return Some(i);
        }
        i := i + 1;
      }
      return None;
    }

    /** Rewriting leaf `j` without its entry `pos`. */
    method RemoveEntry(leaf: PageId, entries: seq<Entry>, pos: nat, ghost j: nat)
      requires Linked() && latched == {} && j < |chain| && chain[j] == leaf && leaf in pages && pages[leaf].Leaf?
      requires entries == pages[leaf].entries && pos < |entries|
      modifies this`pages, this`latched
      ensures Linked() && latched == {} && (old(Ordered()) ==> Ordered())
      ensures pages == old(pages)[leaf := Leaf(RemoveAt(entries, pos), old(pages[leaf].next))]
      ensures old(Entries()) == old(Contents(pages, chain[..j])) + entries + old(Contents(pages, chain[j+1..]))
      ensures Entries() == old(Contents(pages, chain[..j])) + RemoveAt(entries, pos) +
          old(Contents(pages, chain[j+1..]))
    {
      hide Good, Contents, Chained, RemoveAt, LeafIds, Ids;
      ContentsAt(pages, chain, j);
      GoodShrink(capacity, Loose, pages, pages[leaf := Leaf(RemoveAt(entries, pos), pages[leaf].next)], shape, height,
                 BOTTOM, TOP, leaf, pos);
      if Ordered() {
        GoodShrink(capacity, OrderKept(), pages, pages[leaf := Leaf(RemoveAt(entries, pos), pages[leaf].next)], shape,
                   height, BOTTOM, TOP, leaf, pos);
      }
      ChainRewrite(pages, pages[leaf := Leaf(RemoveAt(entries, pos), pages[leaf].next)], chain, j,
                   RemoveAt(entries, pos));
      WritePage(leaf, Leaf(RemoveAt(entries, pos), pages[leaf].next));
    }

    /** Removes the pair of key and record id, wherever among equal keys it stands. Pages never merge. */
    method DeleteKey(key: Key, rid: Rid) returns (removed: bool)
      requires Linked() && latched == {}
      modifies this`pages, this`latched
      ensures Linked() && latched == {} && (old(Ordered()) ==> Ordered())
      ensures old(Ordered()) ==> (removed <==> Entry(key, rid) in old(Entries()))
      ensures old(Ordered()) ==> Entries() == RemoveFirst(old(Entries()), Entry(key, rid))
      ensures !removed ==> pages == old(pages)
      ensures removed ==>
        Entry(key, rid) in old(Entries()) && multiset(Entries()) == multiset(old(Entries())) - multiset{Entry(key, rid)}
      ensures removed <==> old(Seen(pages, chain, FirstLeaf(Included(key)), Entry(key, rid)))
      ensures removed ==> exists d: nat, pos: nat ::
                old(FirstSeen(pages, chain, FirstLeaf(Included(key)), Entry(key, rid), d, pos)) &&
                RemovedAt(old(pages), pages, chain, d, pos, Entry(key, rid))
    {
      hide Good, Contents, Chained, RemoveAt, LeafIds, Ids, Rank, StartsAt, KeySorted, RemovedAt, RemoveFirst;
      hide Reach, ComesTo, GoesOn, Seen, FirstSeen, AbsentUpTo, IndexIn;
      var e := Entry(key, rid);
      var leaf, j := FindStart(Included(key));
      ghost var ordered, j0 := Ordered(), j;
      if ordered {
        EntriesSorted();
        NotBefore(j, key, rid);
      }
      ComesToStart(pages, chain, j, e);
      while true
        invariant Linked() && latched == {} && pages == old(pages) && ordered == Ordered() == old(Ordered())
        invariant j < |chain| && chain[j] == leaf && ComesTo(pages, chain, j0, key, j)
        invariant AbsentUpTo(pages, chain, j0, e, j)
        invariant ordered ==> e !in Contents(pages, chain[..j])
        decreases |chain| - j
      {
        OnChain(pages, chain, j);
        var page := pages[leaf];
        var entries := page.entries;
        var found := FirstPosition(entries, e);
        if found.Some? {
          SeenHere(pages, chain, j0, e, j, found.value);
          RemoveEntry(leaf, entries, found.value, j);
          IsRemoved(old(pages), chain, j, found.value, e);
          CountRemoved(old(Contents(pages, chain[..j])), entries, old(Contents(pages, chain[j+1..])), found.value);
          if ordered {
            FirstInEntries(old(Contents(pages, chain[..j])), entries, old(Contents(pages, chain[j+1..])), found.value,
                           e);
          }
          return true;
        }
        if ordered {
          NotInLeaf(j, e);
        }
        var mightContinue := entries == [] || AtMost(entries[|entries|-1].key, key);
        LastOnLeaf(entries, key, mightContinue);
        if !mightContinue || page.next == NO_NEXT_LEAF {
          NotSeen(pages, chain, j0, e, j);
          if ordered {
            NotAtAll(j, e);
            RemoveFirstAbsent(Entries(), e);
          }
          return false;
        }
        ComesToNext(pages, chain, j0, e, j);
        leaf := page.next;
        j := j + 1;
      }
    }

    lemma LastOnLeaf(es: seq<Entry>, key: Key, mightContinue: bool)
      requires mightContinue == (es == [] || AtMost(es[|es|-1].key, key))
      ensures mightContinue <==> GoesOn(es, key)
    {
      hide Rank;
    }

    lemma RemoveFirstAbsent(s: seq<Entry>, e: Entry)
      requires e !in s
      ensures RemoveFirst(s, e) == s
    {
    }

    lemma NotBefore(j: nat, key: Key, rid: Rid)
      requires StartsAt(j, Included(key))
      ensures Entry(key, rid) !in Contents(pages, chain[..j])
    {
      hide Rank, Contents;
    }

    lemma IsRemoved(pages0: Pages, chain0: seq<PageId>, j: nat, pos: nat, e: Entry)
      requires j < |chain0| && chain0[j] in pages0 && pages0[chain0[j]].Leaf? && pos < |pages0[chain0[j]].entries|
      requires pages0[chain0[j]].entries[pos] == e
      requires pages == pages0[chain0[j] := Leaf(RemoveAt(pages0[chain0[j]].entries, pos), pages0[chain0[j]].next)]
      ensures RemovedAt(pages0, pages, chain0, j, pos, e)
    {
    }

    lemma CountRemoved(a: seq<Entry>, es: seq<Entry>, z: seq<Entry>, pos: nat)
      requires pos < |es|
      ensures multiset(a + RemoveAt(es, pos) + z) == multiset(a + es + z) - multiset{es[pos]} && es[pos] in a + es + z
    {
      assert es == es[..pos] + [es[pos]] + es[pos+1..];
    }

    lemma FirstInEntries(a: seq<Entry>, es: seq<Entry>, z: seq<Entry>, pos: nat, e: Entry)
      requires pos < |es| && es[pos] == e && e !in es[..pos] && e !in a
      ensures a + RemoveAt(es, pos) + z == RemoveFirst(a + es + z, e) && e in a + es + z
    {
      hide RemoveFirst;
      var all := a + es + z;
      assert all[..|a|+pos] == a + es[..pos] && all[|a|+pos] == e;
      RemoveFirstAt(all, e, |a| + pos);
      assert a + RemoveAt(es, pos) + z == all[..|a|+pos] + all[|a|+pos+1..];
    }

    /** The entry is not in leaf `j`: it is not in the chain up to there either. */
    lemma NotInLeaf(j: nat, e: Entry)
      requires Linked() && j < |chain| && e !in Contents(pages, chain[..j])
      requires chain[j] in pages && pages[chain[j]].Leaf? && e !in pages[chain[j]].entries
      ensures e !in Contents(pages, chain[..j+1])
    {
      hide Good, Chained, LeafIds, Ids;
      assert chain[..j+1] == chain[..j] + [chain[j]];
      ContentsConcat(pages, chain[..j], [chain[j]]);
      assert Contents(pages, [chain[j]]) == pages[chain[j]].entries + Contents(pages, [chain[j]][1..]);
      assert [chain[j]][1..] == [];
    }

    /** A leaf that ends above the key, or the last one: the entry is nowhere. */
    lemma NotAtAll(j: nat, e: Entry)
      requires Linked() && KeySorted(Entries()) && j < |chain| && e !in Contents(pages, chain[..j+1])
      requires chain[j] in pages && pages[chain[j]].Leaf?
      requires var es := pages[chain[j]].entries;
        j + 1 == |chain| || (es != [] && Rank(e.key) < Rank(es[|es|-1].key))
      ensures e !in Entries()
    {
      hide Good, LeafIds, Ids, Contents, Rank, KeySorted, Chained;
      assert chain == chain[..j+1] + chain[j+1..];
      ContentsConcat(pages, chain[..j+1], chain[j+1..]);
      if j + 1 == |chain| {
        assert chain[..j+1] == chain;
      } else {
        LeafAndRest(pages, chain, j);
        var es := pages[chain[j]].entries;
        assert es[|es|-1] in es;
      }
    }

    // ---- Operations on values

    ghost predicate Holds(value: Value)
      reads this`pages, this`chain
    {
      EncodeKey(value).Some? && exists e :: e in Entries() && e.key == EncodeKey(value).value
    }

    /** Inserts a pair. Only a missing or mistyped key, an equal key in a unique tree, or a key that
        is too long is refused, in this order, and then nothing changes. */
    method Insert(value: Value, rid: Rid) returns (r: Result<(), Error>)
      requires Valid() && latched == {}
      modifies this
      ensures Valid() && latched == {}
      ensures r == if KeyError(value).Some? then Err(KeyError(value).value)
                   else if unique && old(Holds(value)) then Err(UniqueViolation)
                   else
                     var key := EncodeKey(value).value;
                     if Fits([key, key], RECORD_ID, capacity) && Fits([key, key], CHILD_ID, capacity) then Ok(())
                     else Err(KeyTooLarge(|key|))
      ensures r.Err? ==> unchanged(this)
      ensures r.Ok? ==>
        var e := Entry(EncodeKey(value).value, rid);
        && multiset(Entries()) == multiset(old(Entries())) + multiset{e}
        && (old(Ordered()) ==> Entries() == InsertSorted(old(Entries()), e))
        && (old(Ordered()) ==> (Ordered() <==> old(Clean(capacity, pages, shape, e.key))))
        && (old(AllDistinct(Entries())) && e !in old(Entries()) ==> AllDistinct(Entries()))
      ensures r.Ok? ==> Put(pages, pageCount, None) ==
                        old(PutInto(capacity, pages, pageCount, shape, Entry(EncodeKey(value).value, rid)))
      ensures r.Ok? ==> exists d: nat, pos: nat ::
                TakesEntry(old(pages), old(chain), pages, chain, root, d, pos, Entry(EncodeKey(value).value, rid))
    {
      hide PutInto, TakesEntry, Good, Contents, Rank, Chained, Clean, InsertSorted, LeafIds, Ids, KeySorted, MaxKeyLen,
        DecodeKey, EncodeKey, AllDistinct;
      hide Found, FirstLeaf, Ordered, Fits;
      var checked := CheckKeyType(value);
      if checked.Err? {
        return checked;
      }
      if unique {
        UniqueIsDistinct();
        var found := Lookup(value);
        if found.value != [] {
          HasKey(value, found.value[0]);
          return Err(UniqueViolation);
        }
        NoKey(value, found.value);
      }
      var key := EncodeKey(value).value;
      AcceptedLength(capacity, key);
      if |key| > MaxKeyLen(capacity) {
        return Err(KeyTooLarge(|key|));
      }
      if unique {
        AlwaysClean(key);
      }
      ghost var before := Entries();
      r := InsertKey(key, rid);
      StillTyped(before, Entry(key, rid));
      if AllDistinct(before) && Entry(key, rid) !in before {
        DistinctWith(before, Entries(), Entry(key, rid));
      }
    }

    /** Removes a pair; the answer tells whether it was there. */
    method Delete(value: Value, rid: Rid) returns (r: Result<bool, Error>)
      requires Valid() && latched == {}
      modifies this`pages, this`latched
      ensures Valid() && latched == {} && (old(Ordered()) ==> Ordered())
      ensures KeyError(value).Some? ==> r == Err(KeyError(value).value) && pages == old(pages)
      ensures KeyError(value).None? ==>
        var e := Entry(EncodeKey(value).value, rid);
        && r.Ok?
        && (old(Ordered()) ==> r.value == (e in old(Entries())) && Entries() == RemoveFirst(old(Entries()), e))
        && (old(Ordered()) && old(AllDistinct(Entries())) ==> AllDistinct(Entries()))
        && (!r.value ==> pages == old(pages))
        && (r.value <==> old(Seen(pages, chain, FirstLeaf(Included(EncodeKey(value).value)),
                                  Entry(EncodeKey(value).value, rid))))
        && (r.value ==> e in old(Entries()) && multiset(Entries()) == multiset(old(Entries())) - multiset{e})
        && (r.value ==> exists d: nat, pos: nat ::
              old(FirstSeen(pages, chain, FirstLeaf(Included(EncodeKey(value).value)),
                            Entry(EncodeKey(value).value, rid), d, pos)) &&
              RemovedAt(old(pages), pages, chain, d, pos, e))
    {
      hide Good, Contents, Rank, Chained, RemoveFirst, LeafIds, Ids, KeySorted, DecodeKey, EncodeKey, RemovedAt,
        AllDistinct;
      hide Seen, FirstSeen, FirstLeaf;
      var checked := CheckKeyType(value);
      if checked.Err? {
        return Err(checked.error);
      }
      ghost var before := Entries();
      var removed := DeleteKey(EncodeKey(value).value, rid);
      assert forall e :: e in Entries() ==> e in multiset(Entries());
      assert forall e :: e in multiset(Entries()) ==> e in before;
      if AllDistinct(before) {
        RemovedFrom(before, Entry(EncodeKey(value).value, rid));
      }
      r := Ok(removed);
    }

    /** `range`: a scan over all entries between two bounds. It starts where the descent for the lower bound ends;
        in an ordered tree this leaves out no entry. */
    method Range(lower: Bound<Value>, upper: Bound<Value>) returns (r: Result<RangeScan, Error>)
      requires Linked() && Typed()
      ensures r.Err? <==> !BoundTyped(keyType, lower) || !BoundTyped(keyType, upper)
      ensures r.Err? ==> r.error == KeyError(if BoundTyped(keyType, lower) then upper.k else lower.k).value
      ensures r.Ok? ==> fresh(r.value) && r.value.btree == this && r.value.Ready() && r.value.Seated()
      ensures r.Ok? ==>
        var from := BoundKey(keyType, lower);
        && r.value.upper == BoundKey(keyType, upper)
        && r.value.current == Some((Reach(pages, shape, from), Start(from))) && r.value.Place() == FirstLeaf(from)
      ensures r.Ok? && Ordered() ==> r.value.Remaining() == InRange(lower, upper)
    {
      hide Good, Contents, Rank, Chained, LeafIds, Ids, KeySorted, DecodeKey, EncodeKey, StartsAt, AllDistinct, Wanted;
      hide Reach, IndexIn, ToReturn, Under;
      var from := EncodeBound(lower);
      if from.Err? {
        return Err(from.error);
      }
      var to := EncodeBound(upper);
      if to.Err? {
        return Err(to.error);
      }
      var leaf, j := FindStart(from.value);
      OnChain(pages, chain, j);
      var scan := new RangeScan(this, to.value, leaf, from.value);
      if Ordered() {
        InRangeMeans(lower, upper, j);
      }
      r := Ok(scan);
    }

    ghost function InRange(lower: Bound<Value>, upper: Bound<Value>): set<Entry>
      reads this`pages, this`chain
    {
      set e | e in Entries() && NotBelow(lower, ValueOf(keyType, e)) && NotAbove(upper, ValueOf(keyType, e))
    }

    lemma InRangeMeans(lower: Bound<Value>, upper: Bound<Value>, j: nat)
      requires BoundTyped(keyType, lower) && BoundTyped(keyType, upper)
      requires Linked() && Typed() && StartsAt(j, BoundKey(keyType, lower))
      ensures Under(ToReturn(pages, chain, j, Start(BoundKey(keyType, lower))), BoundKey(keyType, upper)) ==
          InRange(lower, upper)
    {
      hide Good, Contents, Rank, Chained, LeafIds, Ids, DecodeKey, EncodeKey, AboveLower, BelowUpper, NotBelow,
        NotAbove;
      StartsWithAll(pages, chain, j, BoundKey(keyType, lower));
      forall e | e in Entries()
        ensures AboveLower(BoundKey(keyType, lower), e.key) <==> NotBelow(lower, ValueOf(keyType, e))
        ensures BelowUpper(BoundKey(keyType, upper), e.key) <==> NotAbove(upper, ValueOf(keyType, e))
      {
        BoundsMean(keyType, lower, upper, e);
      }
    }

    /** `lookup`: record ids stored under one key. In any tree it finds exactly those that a delete would come to: the
        ones on leaves reached from where the descent ends, over leaves that are empty or end at the key or below.
        In an ordered tree these are all. */
    method Lookup(value: Value) returns (r: Result<seq<Rid>, Error>)
      requires Linked() && Typed()
      ensures KeyError(value).Some? ==> r == Err(KeyError(value).value)
      ensures KeyError(value).None? ==> r.Ok? && EncodeKey(value).Some?
      ensures KeyError(value).None? ==> Found(EncodeKey(value).value, r.value)
      ensures KeyError(value).None? ==> forall rid :: rid in r.value ==> Entry(EncodeKey(value).value, rid) in Entries()
      ensures KeyError(value).None? ==>
        forall rid :: rid in r.value <==>
          Seen(pages, chain, FirstLeaf(Included(EncodeKey(value).value)), Entry(EncodeKey(value).value, rid))
      ensures KeyError(value).None? && Ordered() ==>
        forall rid :: rid in r.value <==> Entry(EncodeKey(value).value, rid) in Entries()
      ensures KeyError(value).None? && Ordered() && AllDistinct(Entries()) ==>
        forall i, k :: 0 <= i < k < |r.value| ==> r.value[i] != r.value[k]
      ensures KeyError(value).None? && Ordered() && unique ==> |r.value| <= 1
    {
      hide Good, Contents, Rank, Chained, LeafIds, Ids, KeySorted, DecodeKey, EncodeKey, AllDistinct, Drained, InRange,
        Found;
      hide FirstLeaf, Listed, AboveLower, BelowUpper, Seen;
      var made := Range(Included(value), Included(value));
      if made.Err? {
        return Err(made.error);
      }
      var scan := made.value;
      var rows, es, ks := scan.Collect();
      var rids := seq(|rows|, i requires 0 <= i < |rows| => rows[i].1);
      r := Ok(rids);
      DecodeEncode(value);
      OneKeyOnly(EncodeKey(value).value, es, rids);
      FoundExactly(EncodeKey(value).value, rids);
      if Ordered() {
        OneValue(value, es, rids);
        if unique {
          UniqueIsDistinct();
        }
        if AllDistinct(Entries()) {
          RidsDistinct(EncodeKey(value).value, es, rids);
        }
        if unique {
          AtMostOne(EncodeKey(value).value, rids);
        }
      }
    }

    /** `rids` are the record ids that a scan over this key alone returns. */
    ghost predicate Found(key: Key, rids: seq<Rid>)
      requires Linked()
      reads this
    {
      exists es: seq<Entry> ::
        && Drained(pages, chain, FirstLeaf(Included(key)), Start(Included(key)), Included(key), es)
        && |rids| == |es| && forall i :: 0 <= i < |es| ==> es[i] == Entry(key, rids[i])
    }

    /** On every linked tree a lookup finds exactly the record ids that a delete would come to. So it is complete
        exactly if every stored entry of the key is one of those. */
    lemma FoundExactly(key: Key, rids: seq<Rid>)
      requires Linked() && Found(key, rids)
      ensures forall rid :: rid in rids <==> Seen(pages, chain, FirstLeaf(Included(key)), Entry(key, rid))
      ensures (forall rid :: Entry(key, rid) in Entries() ==> rid in rids) <==>
              (forall e :: e in Entries() && e.key == key ==> Seen(pages, chain, FirstLeaf(Included(key)), e))
    {
      hide Good, Contents, Rank, Chained, LeafIds, Ids, Drained, Reach, IndexIn, Seen, LeavesInOrder;
      var j := FirstLeaf(Included(key));
      var es: seq<Entry> :|
        && Drained(pages, chain, j, Start(Included(key)), Included(key), es)
        && |rids| == |es| && forall i :: 0 <= i < |es| ==> es[i] == Entry(key, rids[i]);
      ReachesChain(Included(key));
      InOrderLeaves();
      forall rid ensures rid in rids <==> Seen(pages, chain, j, Entry(key, rid)) {
        FoundIffSeen(pages, chain, j, key, es, Entry(key, rid));
        assert rid in rids <==> Entry(key, rid) in es by { SameRids(key, es, rids, rid); }
      }
      assert forall e: Entry :: e.key == key ==> e == Entry(key, e.rid);
    }

    lemma SameRids(key: Key, es: seq<Entry>, rids: seq<Rid>, rid: Rid)
      requires |rids| == |es| && forall i :: 0 <= i < |es| ==> es[i] == Entry(key, rids[i])
      ensures rid in rids <==> Entry(key, rid) in es
    {
    }

    lemma InOrderLeaves()
      requires Linked()
      ensures LeavesInOrder(pages, chain)
    {
      hide Good, Rank, Ids, LeafIds, PageSorted;
      forall i | 0 <= i < |chain| ensures PageSorted(pages[chain[i]].entries) {
        LeafIsSorted(chain[i]);
      }
    }

    /** What a scan over one key returns has this key. */
    lemma OneKeyOnly(key: Key, es: seq<Entry>, rids: seq<Rid>)
      requires Linked() && Drained(pages, chain, FirstLeaf(Included(key)), Start(Included(key)), Included(key), es)
      requires forall e :: e in es ==>
        e in Entries() && AboveLower(Included(key), e.key) && BelowUpper(Included(key), e.key)
      requires |rids| == |es| && forall i :: 0 <= i < |es| ==> rids[i] == es[i].rid
      ensures Found(key, rids)
      ensures forall rid :: rid in rids ==> Entry(key, rid) in Entries()
      ensures forall i :: 0 <= i < |es| ==> es[i] == Entry(key, rids[i])
    {
      hide Good, Contents, Rank, Chained, LeafIds, Ids, Drained, FirstLeaf;
      forall i | 0 <= i < |es| ensures es[i] == Entry(key, rids[i]) && es[i] in Entries() {
        assert es[i] in es;
        LessIsRank(es[i].key, key);
      }
    }

    lemma RidsDistinct(key: Key, es: seq<Entry>, rids: seq<Rid>)
      requires AllDistinct(es) && |rids| == |es| && forall i :: 0 <= i < |es| ==> es[i] == Entry(key, rids[i])
      ensures forall i, k :: 0 <= i < k < |rids| ==> rids[i] != rids[k]
    {
    }

    /** A unique tree holds a key once. */
    lemma AtMostOne(key: Key, rids: seq<Rid>)
      requires unique && Linked() && Ordered()
      requires forall rid :: rid in rids ==> Entry(key, rid) in Entries()
      requires forall i, k :: 0 <= i < k < |rids| ==> rids[i] != rids[k]
      ensures |rids| <= 1
    {
      hide Good, Contents, Rank, Chained, LeafIds, Ids, KeySorted;
      EntriesSorted();
      assert |rids| >= 2 ==> rids[0] != rids[1];
      forall k | 0 <= k < |rids| ensures rids[k] == rids[0] {
        assert Entry(key, rids[0]) in Entries() && Entry(key, rids[k]) in Entries();
        var i :| 0 <= i < |Entries()| && Entries()[i] == Entry(key, rids[0]);
        var j :| 0 <= j < |Entries()| && Entries()[j] == Entry(key, rids[k]);
        assert i == j;
      }
    }

    lemma OneValue(value: Value, es: seq<Entry>, rids: seq<Rid>)
      requires Typed() && value.Type() == Some(keyType)
      requires Listed(es) == InRange(Included(value), Included(value))
      requires |rids| == |es| && forall i :: 0 <= i < |es| ==> rids[i] == es[i].rid
      ensures EncodeKey(value).Some?
      ensures forall rid :: rid in rids <==> Entry(EncodeKey(value).value, rid) in Entries()
    {
      hide Contents, Rank, DecodeKey, EncodeKey, NotBelow, NotAbove;
      DecodeEncode(value);
      var key := EncodeKey(value).value;
      forall e | e in Entries() ensures e in Listed(es) <==> e.key == key {
        SameKey(value, e);
        assert e in Listed(es) <==> e in InRange(Included(value), Included(value));
      }
      forall i | 0 <= i < |es| ensures es[i] == Entry(key, rids[i]) && es[i] in Entries() {
        assert es[i] in Listed(es);
        assert es[i] in InRange(Included(value), Included(value));
      }
      forall rid | Entry(key, rid) in Entries() ensures rid in rids {
        var e := Entry(key, rid);
        assert e in Listed(es);
        var i :| 0 <= i < |es| && es[i] == e;
        assert rids[i] == rid;
      }
    }

    lemma SameKey(value: Value, e: Entry)
      requires value.Type() == Some(keyType) && DecodeKey(keyType, e.key).Some?
      ensures EncodeKey(value).Some?
      ensures NotBelow(Included(value), ValueOf(keyType, e)) && NotAbove(Included(value), ValueOf(keyType, e))
        <==> e.key == EncodeKey(value).value
    {
      hide Rank, DecodeKey, EncodeKey, ValueLess;
      EncodeDecode(keyType, e.key);
      OneBound(ValueOf(keyType, e), value, e.key);
      LessIsRank(e.key, EncodeKey(value).value);
    }

    lemma UniqueIsDistinct()
      requires unique && Linked() && Ordered()
      ensures AllDistinct(Entries())
    {
      hide Good, Contents, Rank, Chained, LeafIds, Ids, KeySorted;
      EntriesSorted();
    }

    /** A unique tree stays ordered. */
    lemma AlwaysClean(key: Key)
      requires unique && Linked() && Ordered()
      ensures Clean(capacity, pages, shape, key)
    {
      hide Good, Contents, Chained, LeafIds, Ids, Clean;
      StrictIsClean(capacity, pages, shape, height, BOTTOM, TOP, key);
    }

    lemma HasKey(value: Value, rid: Rid)
      requires EncodeKey(value).Some? && Entry(EncodeKey(value).value, rid) in Entries()
      ensures Holds(value)
    {
      hide Contents, EncodeKey;
    }

    lemma NoKey(value: Value, rids: seq<Rid>)
      requires EncodeKey(value).Some? && rids == []
      requires forall rid :: rid in rids <==> Entry(EncodeKey(value).value, rid) in Entries()
      ensures !Holds(value) && forall e :: e in Entries() ==> e.key != EncodeKey(value).value
    {
      hide Contents, EncodeKey;
      forall e | e in Entries() ensures e.key != EncodeKey(value).value {
        assert e == Entry(e.key, e.rid);
      }
    }

    lemma StillTyped(before: seq<Entry>, e: Entry)
      requires forall x :: x in before ==> DecodeKey(keyType, x.key).Some?
      requires DecodeKey(keyType, e.key).Some?
      requires multiset(Entries()) == multiset(before) + multiset{e}
      ensures Typed()
    {
      hide Contents, DecodeKey;
      forall x | x in Entries() ensures DecodeKey(keyType, x.key).Some? {
        assert x in multiset(Entries());
      }
    }

    /** Number of levels, counted down the leftmost children. */
    method Height() returns (levels: nat)
      requires Linked()
      ensures levels == height + 1
    {
      hide Good, Ids, PathOk, Plug, LeavesBefore, LeavesAfter, PathIds, Rank, Contents, Fills, LeafIds, At, Chained;
      ghost var s := Spot([], shape, height, BOTTOM, TOP);
      StartReading(Loose, Unbounded);
      var current := root;
      levels := 1;
      while true
        invariant At(capacity, Loose, pages, root, s) && s.t.id == current && s.h + levels == height + 1
        decreases s.h
      {
        AtFacts(Loose, s);
        var page := pages[current];
        if page.Leaf? {
          return;
        }
        ReadDown(Loose, s, Unbounded);
        GoDown(capacity, Loose, pages, root, s, 0);
        current := page.leftmost;
        s := Down(pages, s, 0);
        levels := levels + 1;
      }
    }
  }

  class RangeScan {
    const btree: BTree
    const upper: Bound<Key>
    /** The leaf to read next and the place within it. */
    var current: Option<(PageId, Position)>

    /** The scan stands on a leaf of the chain, or on a root that has become internal since. */
    ghost predicate Standing()
      reads this, btree`chain
    {
      current.Some? ==> current.value.0 in btree.chain || current.value.0 == btree.root
    }

    /** The leaf the scan stands on is on the chain. */
    ghost predicate Seated()
      reads this, btree`chain
    {
      current.Some? ==> current.value.0 in btree.chain
    }

    ghost predicate Ready()
      reads this, btree
    {
      btree.Linked() && btree.Typed() && Standing()
    }

    /** The leaf of the chain from which reading goes on: where the scan stands, or where the descent
        from a root that has become internal ends. */
    ghost function Place(): (j: nat)
      requires Ready() && current.Some?
      reads this, btree
      ensures j < |btree.chain|
    {
      hide btree.Linked, Reach, Chained;
      btree.ReachesChain(SeekBound(current.value.1));
      if current.value.0 in btree.chain then IndexIn(btree.chain, current.value.0)
      else btree.FirstLeaf(SeekBound(current.value.1))
    }

    /** What is still to be returned, in a tree in order. */
    ghost function Remaining(): set<Entry>
      requires Ready()
      reads this, btree
    {
      if current.None? then {}
      else Under(ToReturn(btree.pages, btree.chain, Place(), current.value.1), upper)
    }

    constructor (btree: BTree, upper: Bound<Key>, leaf: PageId, lower: Bound<Key>)
      ensures this.btree == btree && this.upper == upper && current == Some((leaf, Start(lower)))
    {
      this.btree, this.upper := btree, upper;
      current := Some((leaf, Start(lower)));
    }

    /** `exceeds_upper` */
    predicate ExceedsUpper(key: Key)
      ensures ExceedsUpper(key) <==> !BelowUpper(upper, key)
    {
      match upper
      case Unbounded => false
      case Included(k) => Below(k, key)
      case Excluded(k) => AtMost(k, key)
    }

    /** The page the scan stands on: a leaf exactly if it is on the chain. */
    lemma OnLeaf()
      requires Ready() && current.Some?
      ensures var leaf := current.value.0;
        && leaf in btree.pages && (btree.pages[leaf].Leaf? <==> leaf in btree.chain)
        && (leaf in btree.chain ==> PageSorted(btree.pages[leaf].entries) && btree.chain[Place()] == leaf)
    {
      hide Good, Rank, Chained, Ids, LeafIds, PageSorted, Reach, Contents;
      btree.RootLeaf();
      if current.value.0 in btree.chain {
        btree.LeafIsSorted(current.value.0);
      }
    }

    /** Reads on until an entry is found that was not returned yet: the one that comes next on the leaf chain.
        In an ordered tree this is the least that is left. */
    method Next() returns (r: Option<Result<(Value, Rid), Error>>, ghost e: Entry, ghost k: nat)
      requires Ready()
      modifies this
      ensures Ready()
      ensures r.None? ==> current.None?
      ensures r.None? && old(current).Some? ==>
        Over(btree.pages, btree.chain, old(Place()), old(current).value.1, upper)
      ensures r.Some? ==>
        && old(current).Some? && Comes(btree.pages, btree.chain, old(Place()), old(current).value.1, k, e)
        && BelowUpper(upper, e.key)
        && r == Some(Ok((ValueOf(btree.keyType, e), e.rid))) && DecodeKey(btree.keyType, e.key).Some?
        && current == Some((btree.chain[k], After(e.key, e.rid))) && Place() == k
      ensures btree.Ordered() ==> (r.None? <==> old(Remaining()) == {})
      ensures btree.Ordered() && r.Some? ==>
        && old(Remaining()) == Remaining() + {e} && (AllDistinct(btree.Entries()) ==> e !in Remaining())
        && forall x :: x in Remaining() ==> Rank(e.key) <= Rank(x.key)
    {
      hide Good, Contents, Rank, Chained, LeafIds, Ids, KeySorted, DecodeKey, EncodeKey, AllDistinct, Wanted, ToReturn,
        Located, BelowUpper, BTree.StartsAt, NoneUpTo, Comes, Over, IndexIn, Reach, Under, PageSorted;
      e, k := Entry([], Rid(0, 0)), 0;
      if current.None? {
        return None, e, k;
      }
      ghost var j0, p0 := Place(), current.value.1;
      ghost var j := j0;
      NoneYet(btree.pages, btree.chain, j0, p0);
      while true
        invariant Ready() && current.Some? && Place() == j && j0 <= j < |btree.chain|
        invariant current.value.1 == Carried(j0, p0, j) && NoneUpTo(btree.pages, btree.chain, j0, p0, j)
        decreases |btree.chain| - j, if current.value.0 in btree.chain then 0 else 1
      {
        OnLeaf();
        var (leaf, position) := current.value;
        var page := btree.pages[leaf];
        if page.Internal? {
          var again, start := btree.FindStart(SeekBound(position));
          current := Some((again, position));
          continue;
        }
        var index := LocateWithinLeaf(page.entries, position);
        LocatedComes(btree.pages, btree.chain, j0, p0, j, index);
        if index < |page.entries| {
          var entry := page.entries[index];
          e, k := entry, j;
          if ExceedsUpper(entry.key) {
            current := None;
            IsOver(j0, p0, j, e);
            return None, e, k;
          }
          current := Some((leaf, After(entry.key, entry.rid)));
          IsNext(j0, p0, j, e);
          return Some(Ok((DecodeKey(btree.keyType, entry.key).value, entry.rid))), e, k;
        }
        OnChain(btree.pages, btree.chain, j);
        if page.next == NO_NEXT_LEAF {
          current := None;
          IsOver(j0, p0, j, e);
          return None, e, k;
        }
        OnChain(btree.pages, btree.chain, j + 1);
        IndexOf(btree.pages, btree.chain, j + 1);
        current, j := Some((page.next, Carry(position))), j + 1;
      }
    }

    /** What it means for the contents of a tree in order that an entry comes next. */
    lemma IsNext(j0: nat, p0: Position, j: nat, e: Entry)
      requires btree.Linked() && btree.Typed() && Comes(btree.pages, btree.chain, j0, p0, j, e)
      requires BelowUpper(upper, e.key)
      ensures DecodeKey(btree.keyType, e.key).Some? && j0 < |btree.chain| && j < |btree.chain|
      ensures btree.Ordered() ==>
        var left := Under(ToReturn(btree.pages, btree.chain, j0, p0), upper);
        var left' := Under(ToReturn(btree.pages, btree.chain, j, After(e.key, e.rid)), upper);
        && left == left' + {e} && (AllDistinct(btree.Entries()) ==> e !in left')
        && forall x :: x in left' ==> Rank(e.key) <= Rank(x.key)
    {
      hide Good, Contents, Rank, Chained, LeafIds, Ids, KeySorted, DecodeKey, AllDistinct, ToReturn, BelowUpper, Comes,
        Under;
      ComesWithin(btree.pages, btree.chain, j0, p0, j, e);
      Progress(btree.pages, btree.chain, j0, p0, j, e);
      if btree.Ordered() {
        btree.EntriesSorted();
        ComesUnder(btree.pages, btree.chain, j0, p0, j, e, upper);
      }
    }

    lemma IsOver(j0: nat, p0: Position, j: nat, e: Entry)
      requires btree.Linked() && j0 < |btree.chain|
      requires || (Comes(btree.pages, btree.chain, j0, p0, j, e) && !BelowUpper(upper, e.key))
               || NoneUpTo(btree.pages, btree.chain, j0, p0, |btree.chain|)
      ensures Over(btree.pages, btree.chain, j0, p0, upper)
      ensures btree.Ordered() ==> Under(ToReturn(btree.pages, btree.chain, j0, p0), upper) == {}
    {
      hide Good, Contents, Rank, Chained, LeafIds, Ids, KeySorted, ToReturn, BelowUpper, Comes, NoneUpTo, Under;
      if btree.Ordered() {
        btree.EntriesSorted();
        OverIsAll(btree.pages, btree.chain, j0, p0, upper);
      }
    }

    /** Reads everything that is left. In any tree what is returned is determined, ascending, stored and within
        the bounds; in an ordered tree it is everything that was to be returned. */
    method Collect() returns (rows: seq<(Value, Rid)>, ghost es: seq<Entry>, ghost ks: seq<nat>)
      requires Ready()
      modifies this
      ensures Ready() && current.None?
      ensures |rows| == |es| && forall i :: 0 <= i < |rows| ==> rows[i] == (ValueOf(btree.keyType, es[i]), es[i].rid)
      ensures old(current).None? ==> es == []
      ensures old(current).Some? ==>
        && Drained(btree.pages, btree.chain, old(Place()), old(current).value.1, upper, es)
        && forall e :: e in es ==> AboveLower(SeekBound(old(current).value.1), e.key)
      ensures KeySorted(es) && forall e :: e in es ==> e in btree.Entries() && BelowUpper(upper, e.key)
      ensures btree.Ordered() ==> Listed(es) == old(Remaining())
      ensures btree.Ordered() && AllDistinct(btree.Entries()) ==> AllDistinct(es)
    {
      hide Good, Contents, Rank, Chained, LeafIds, Ids, DecodeKey, EncodeKey, BelowUpper, KeySorted, AllDistinct,
        ToReturn, ValueOf, Steps, PlaceAt, PositionAt, Over, Comes, Drained, AboveLower, Reach, IndexIn, Under, Listed;
      rows, es, ks := [], [], [];
      if current.None? {
        NothingRead();
        return;
      }
      ghost var j0, p0 := Place(), current.value.1;
      NoSteps(btree.pages, btree.chain, j0, p0, upper);
      while true
        invariant Ready() && |rows| == |es| == |ks|
        invariant forall i :: 0 <= i < |rows| ==> rows[i] == (ValueOf(btree.keyType, es[i]), es[i].rid)
        invariant Steps(btree.pages, btree.chain, j0, p0, upper, ks, es)
        invariant current.Some? && Place() == PlaceAt(j0, ks, |ks|) && current.value.1 == PositionAt(p0, es, |es|)
        decreases |btree.chain| - Place(), LeftHere(btree.pages, btree.chain, Place(), current.value.1)
      {
        ghost var j, p := Place(), current.value.1;
        var row, e, k := Next();
        if row.None? {
          AllRead(j0, p0, ks, es);
          return;
        }
        Progress(btree.pages, btree.chain, j, p, k, e);
        NextStep(btree.pages, btree.chain, j0, p0, upper, ks, es, k, e);
        rows, es, ks := rows + [row.value.value], es + [e], ks + [k];
      }
    }

    lemma NothingRead()
      ensures KeySorted([]) && AllDistinct([]) && Listed([]) == {}
    {
    }

    /** What is known of the entries read when a scan is over. */
    lemma AllRead(j0: nat, p0: Position, ks: seq<nat>, es: seq<Entry>)
      requires btree.Linked() && j0 < |btree.chain| && |ks| == |es|
      requires Steps(btree.pages, btree.chain, j0, p0, upper, ks, es)
      requires Over(btree.pages, btree.chain, PlaceAt(j0, ks, |ks|), PositionAt(p0, es, |es|), upper)
      ensures Drained(btree.pages, btree.chain, j0, p0, upper, es)
      ensures KeySorted(es)
      ensures forall e :: e in es ==>
        e in btree.Entries() && BelowUpper(upper, e.key) && AboveLower(SeekBound(p0), e.key)
      ensures btree.Ordered() ==>
        && Listed(es) == Under(ToReturn(btree.pages, btree.chain, j0, p0), upper)
        && (AllDistinct(btree.Entries()) ==> AllDistinct(es))
    {
      hide Good, Contents, Rank, Chained, LeafIds, Ids, BelowUpper, KeySorted, AllDistinct, ToReturn, Steps, PlaceAt,
        PositionAt, Over, AboveLower, Under, Listed;
      StepsAscend(btree.pages, btree.chain, j0, p0, upper, ks, es);
      if btree.Ordered() {
        btree.EntriesSorted();
        StepsTake(btree.pages, btree.chain, j0, p0, upper, ks, es);
        OverIsAll(btree.pages, btree.chain, PlaceAt(j0, ks, |ks|), PositionAt(p0, es, |es|), upper);
      }
    }
  }

  /** Leaf `d` lost its entry `pos`, and nothing else changed. */
  ghost predicate RemovedAt(pages: Pages, pages': Pages, chain: seq<PageId>, d: nat, pos: nat, e: Entry) {
    && d < |chain| && chain[d] in pages && pages[chain[d]].Leaf? && pos < |pages[chain[d]].entries|
    && pages[chain[d]].entries[pos] == e
    && pages' == pages[chain[d] := Leaf(RemoveAt(pages[chain[d]].entries, pos), pages[chain[d]].next)]
  }
}
