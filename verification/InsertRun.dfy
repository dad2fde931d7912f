/** One insert, page by page: what each page write does and what is known between two of them. */
module InsertRun {
  import opened Options
  import opened PageIds
  import opened KeyOrder
  import opened KeyCodec
  import opened PageLayout
  import opened EntryList
  import opened TreeShape
  import opened TreePath
  import opened TreeInsert
  import opened TreeAlign
  import opened LeafChain
  import opened TreeRun

  datatype Error =
    | NullKeyNotAllowed
    | KeyTypeMismatch(expected: DataType, actual: DataType)
    | UniqueViolation
    | KeyTooLarge(len: nat)

  /** A separator and the page right of it, to be inserted into the parent. */
  datatype Split = Split(sep: Key, id: PageId)

  /** What inserting into a page of entries leaves behind. */
  ghost predicate LeafWritten(c: nat, pages: Pages, pages': Pages, guard: PageId, es: seq<Entry>, newId: PageId,
                              r: Result<Option<Split>, Error>)
    requires guard in pages && pages[guard].Leaf?
  {
    var next := pages[guard].next;
    var mid := SplitPoint(EntryKeys(es), RECORD_ID, c);
    if LeafFits(es, c) then
      r == Ok(None) && pages' == pages[guard := Leaf(es, next)]
    else if |es| >= 2 && mid < |es| && LeafFits(es[..mid], c) && LeafFits(es[mid..], c) then
      && r == Ok(Some(Split(es[mid].key, newId)))
      && pages' == pages[guard := Leaf(es[..mid], newId)][newId := Leaf(es[mid..], next)]
    else
      r.Err? && r.error.KeyTooLarge? && pages' == pages
  }

  ghost predicate InnerWritten(c: nat, pages: Pages, pages': Pages, guard: PageId, seps: seq<Separator>, newId: PageId,
                               r: Result<Option<Split>, Error>)
    requires guard in pages && pages[guard].Internal?
  {
    var leftmost := pages[guard].leftmost;
    var mid := SplitPoint(SepKeys(seps), CHILD_ID, c);
    if InternalFits(seps, c) then
      r == Ok(None) && pages' == pages[guard := Internal(leftmost, seps)]
    else if |seps| >= 2 && mid < |seps| && InternalFits(seps[..mid], c) && InternalFits(seps[mid+1..], c) then
      && r == Ok(Some(Split(seps[mid].key, newId)))
      && pages' == pages[guard := Internal(leftmost, seps[..mid])][newId := Internal(seps[mid].child, seps[mid+1..])]
    else
      r.Err? && r.error.KeyTooLarge? && pages' == pages
  }

  /** A node that takes any accepted separator without splitting. */
  predicate InternalIsSafe(c: nat, seps: seq<Separator>) {
    InternalFits(seps + [Separator(seq(MaxKeyLen(c), _ => 0), 0)], c)
  }

  predicate LeafIsSafe(c: nat, es: seq<Entry>, pos: nat, e: Entry)
    requires pos <= |es|
  {
    LeafFits(InsertAt(es, pos, e), c)
  }

  lemma SafeNodeFits(c: nat, seps: seq<Separator>, p: nat, sep: Key, child: PageId)
    requires InternalIsSafe(c, seps) && p <= |seps| && |sep| <= MaxKeyLen(c)
    ensures InternalFits(InsertAt(seps, p, Separator(sep, child)), c)
  {
    hide MaxKeyLen;
    var dummy: Key := seq(MaxKeyLen(c), _ => 0);
    var keys := SepKeys(seps);
    assert SepKeys(seps + [Separator(dummy, 0)]) == InsertAt(keys, |keys|, dummy);
    assert SepKeys(InsertAt(seps, p, Separator(sep, child))) == InsertAt(keys, p, sep);
    NeedInsert(keys, |keys|, dummy, CHILD_ID);
    NeedInsert(keys, p, sep, CHILD_ID);
  }

  /** A node is safe exactly if every accepted separator fits into it, wherever it goes. */
  lemma SafeIsExact(c: nat, seps: seq<Separator>)
    ensures InternalIsSafe(c, seps) <==>
      forall p: nat, sep: Separator :: p <= |seps| && |sep.key| <= MaxKeyLen(c) ==>
        InternalFits(InsertAt(seps, p, sep), c)
  {
    hide MaxKeyLen, InternalFits;
    if InternalIsSafe(c, seps) {
      forall p: nat, sep: Separator | p <= |seps| && |sep.key| <= MaxKeyLen(c)
        ensures InternalFits(InsertAt(seps, p, sep), c)
      {
        SafeNodeFits(c, seps, p, sep.key, sep.child);
      }
    }
    var longest := Separator(seq(MaxKeyLen(c), _ => 0), 0);
    assert InsertAt(seps, |seps|, longest) == seps + [longest];
  }

  // ---- Between two steps of an insert

  /** Everything known between two steps: the subtree on this level is settled, or a split of it
      waits; the leaf chain is complete; and every page lies below the end of the file. */
  ghost predicate Running(r: Run, pages: Pages, pageCount: nat, l: Level, pending: Option<Split>, left: Tree,
                          right: Tree, es: seq<Entry>) {
    && l.n <= |r.path|
    && (match pending
        case None => Settled(r, pages, l, left)
        case Some(split) => Propagating(r, pages, l, left, split.sep, right) && right.id == split.id)
    && Chained(pages, r.chain) && Contents(pages, r.chain) == es
    && Bounded(PathIds(r.path[..l.n]) + Ids(left), pageCount) && (pending.Some? ==> Bounded(Ids(right), pageCount))
    && Bounded(pages.Keys, pageCount)
    && (pending.Some? && l.h == 0 && l.n == 0 ==> left.LeafT? && right.LeafT? && r.chain == [left.id, right.id])
  }

  /** A split has reached the root. */
  lemma RootReached(r: Run, pages: Pages, count: nat, l: Level, split: Split, left: Tree, right: Tree, es: seq<Entry>)
    requires Running(r, pages, count, l, Some(split), left, right, es) && l.n == 0 && count > 0
    ensures Propagating(r, pages, l, left, split.sep, right) && right.id == split.id
    ensures left.id == r.root && r.root in pages && count !in pages && Plug(r.path[..0], l.was) == l.was
    ensures Chained(pages, r.chain) && Contents(pages, r.chain) == es
    ensures l.h == 0 ==> left.LeafT? && right.LeafT? && r.chain == [left.id, right.id]
    ensures Bounded(Ids(left) + Ids(right) + {count}, count + 1) && Bounded(pages.Keys + {count}, count + 1)
  {
    hide Propagating, Ids, PathIds, Contents, Chained, Settled;
    assert r.path[..0] == [];
    RootLevel(r, pages, l, left, split.sep, right);
    WaitingGood(r, pages, l, left, split.sep, right);
  }

  /** One step: whatever the parent page does, it is accepted, and the run goes on one level up. */
  lemma {:induction false} InternalStep(r: Run, pages: Pages, pages': Pages, pageCount: nat, l: Level, split: Split,
                                        left: Tree, right: Tree, es: seq<Entry>, u: Result<Option<Split>, Error>)
                                          returns (left': Tree, right': Tree)
    requires r.c >= HEADER + 2 * (DIR_ENTRY + RECORD_ID)
    requires Running(r, pages, pageCount, l, Some(split), left, right, es) && 0 < l.n <= |r.path| && pageCount > 0
    requires var f := r.path[l.n-1];
      && f.node.id in pages && pages[f.node.id].Internal?
      && InnerWritten(r.c, pages, pages', f.node.id, NewSeps(pages, f, split.sep, right), pageCount, u)
    ensures u.Ok?
    ensures var count' := pageCount + if u.value.Some? then 1 else 0;
      Running(r, pages', count', Up(r, pages, l, split.sep), u.value, left', right', es)
    ensures left'.id == r.path[l.n-1].node.id
    ensures forall x :: x in r.chain ==> x in pages && x in pages' && pages'[x] == pages[x]
    ensures u.value.Some? ==> !InternalFits(NewSeps(pages, r.path[l.n-1], split.sep, right), r.c)
  {
    hide Good, Ids, Rank, FrameOk, Upper, LeafIds, LeftLeaves, RightLeaves, FrameIds, PathOk, PathIds, NewKids,
      LeavesBefore, LeavesAfter, Followed, NodeKeys, NewSeps, InternalFits, OnLevel, Outcome, Fills, Settled,
      Propagating, SplitPoint, SepKeys, Contents, Clean;
    var f := r.path[l.n-1];
    ParentFrame(r, pages, l, left, split.sep, right);
    var seps := NewSeps(pages, f, split.sep, right);
    assert f.node.id !in r.chain by {
      assert forall i :: 0 <= i < |r.chain| ==> pages[r.chain[i]].Leaf?;
    }
    assert pageCount !in pages;
    if InternalFits(seps, r.c) {
      left' := StepDone(r, pages, pages', l, left, split.sep, right);
      right' := right;
    } else {
      PendingShort(r.c, Left(r, l), pages, f, left, split.sep, right);
      InnerSplitAccepted(r.c, r.m, pages, f, split.sep, right);
      left', right' := StepAgain(r, pages, pages', l, left, split.sep, right, pageCount);
    }
    ChainFrame(pages, pages', r.chain);
    UpFacts(r, pages, l, split.sep);
    assert r.path[..l.n-1] == r.path[..l.n][..l.n-1];
    PathIdsTop(r.path, l.n);
    FrameHeight(r.c, r.m, pages, f);
  }

  lemma UpFacts(r: Run, pages: Pages, l: Level, sep: Key)
    requires 0 < l.n <= |r.path|
    ensures Up(r, pages, l, sep).n == l.n - 1 && Up(r, pages, l, sep).h == r.path[l.n-1].h
  {
  }

  lemma PathIdsTop(path: seq<Frame>, n: nat)
    requires 0 < n <= |path|
    ensures PathIds(path[..n]) == PathIds(path[..n-1]) + FrameIds(path[n-1])
  {
    assert path[..n][..n-1] == path[..n-1];
  }

  lemma FrameHeight(c: nat, m: Mode, pages: Pages, f: Frame)
    requires FrameOk(c, m, pages, f)
    ensures f.h > 0
  {
  }

  /** Where the leaf stands on the chain, and what stands around it. */
  lemma {:induction false} LeafOnChain(m: Mode, pages: Pages, chain: seq<PageId>, s: Spot, key: Key) returns (j: nat)
    requires Chained(pages, chain) && s.t.LeafT? && KeyHere(m, pages, s, key)
    requires multiset(LeavesBefore(s.path) + [s.t.id] + LeavesAfter(s.path)) == multiset(chain)
    requires !m.Loose? ==> LeavesBefore(s.path) + [s.t.id] + LeavesAfter(s.path) == chain
    ensures j < |chain| && chain[j] == s.t.id
    ensures !m.Loose? ==> LeavesBefore(s.path) == chain[..j] && LeavesAfter(s.path) == chain[j+1..]
    ensures !m.Loose? ==>
      && (forall x :: x in Contents(pages, chain[..j]) ==> Rank(x.key) <= Rank(key))
      && (forall x :: x in Contents(pages, chain[j+1..]) ==> Rank(key) < Rank(x.key))
  {
    hide Rank, Contents, LeavesBefore, LeavesAfter, Chained;
    if m.Loose? {
      assert s.t.id in multiset(chain) by {
        assert s.t.id in LeavesBefore(s.path) + [s.t.id] + LeavesAfter(s.path);
      }
      j :| 0 <= j < |chain| && chain[j] == s.t.id;
    } else {
      j := |LeavesBefore(s.path)|;
      assert chain[..j] == LeavesBefore(s.path) && chain[j+1..] == LeavesAfter(s.path);
    }
  }

  /** The entries of the whole chain after one leaf took a new one. */
  lemma EntriesAfter(pages: Pages, chain: seq<PageId>, j: nat, e: Entry, sortedAround: bool)
    requires Chained(pages, chain) && j < |chain| && Sorted(Loose, EntryKeys(pages[chain[j]].entries))
    requires sortedAround ==>
      && (forall x :: x in Contents(pages, chain[..j]) ==> Rank(x.key) <= Rank(e.key))
      && (forall x :: x in Contents(pages, chain[j+1..]) ==> Rank(e.key) < Rank(x.key))
    ensures var es := pages[chain[j]].entries; var p := Upper(EntryKeys(es), e.key);
      var after := Contents(pages, chain[..j]) + InsertAt(es, p, e) + Contents(pages, chain[j+1..]);
      && multiset(after) == multiset(Contents(pages, chain)) + multiset{e}
      && (sortedAround ==> after == InsertSorted(Contents(pages, chain), e))
  {
    hide Rank, Contents, Upper, InsertSorted;
    ContentsAt(pages, chain, j);
    EntriesAround(Contents(pages, chain[..j]), pages[chain[j]].entries, Contents(pages, chain[j+1..]), e, sortedAround);
  }

  lemma EntriesAround(a: seq<Entry>, es: seq<Entry>, z: seq<Entry>, e: Entry, sortedAround: bool)
    requires sortedAround ==>
      && (forall x :: x in a ==> Rank(x.key) <= Rank(e.key))
      && (forall x :: x in z ==> Rank(e.key) < Rank(x.key))
    ensures var p := Upper(EntryKeys(es), e.key);
      && multiset(a + InsertAt(es, p, e) + z) == multiset(a + es + z) + multiset{e}
      && (sortedAround ==> a + InsertAt(es, p, e) + z == InsertSorted(a + es + z, e))
  {
    hide Rank, Upper, InsertSorted, EntryKeys;
    hide InsertAt;
    var p := Upper(EntryKeys(es), e.key);
    var l, r := a + es[..p], es[p..] + z;
    CutAt(a, es, z, e, p);
    assert multiset(l + [e] + r) == multiset(l + r) + multiset{e};
    if sortedAround {
      AroundOrder(a, es, z, e);
      SortedBetween(l, r, e);
    }
  }

  lemma SortedBetween(l: seq<Entry>, r: seq<Entry>, e: Entry)
    requires forall i :: 0 <= i < |l| ==> Rank(l[i].key) <= Rank(e.key)
    requires r != [] ==> Rank(e.key) < Rank(r[0].key)
    ensures l + [e] + r == InsertSorted(l + r, e)
  {
    hide Rank, InsertSorted;
    assert (l + r)[..|l|] == l && (l + r)[|l|..] == r;
    assert r != [] ==> (l + r)[|l|] == r[0];
    assert forall i :: 0 <= i < |l| ==> (l + r)[i] == l[i];
    InsertSortedAt(l + r, e, |l|);
  }

  lemma CutAt(a: seq<Entry>, es: seq<Entry>, z: seq<Entry>, e: Entry, p: nat)
    requires p <= |es|
    ensures a + InsertAt(es, p, e) + z == (a + es[..p]) + [e] + (es[p..] + z)
    ensures a + es + z == (a + es[..p]) + (es[p..] + z)
  {
  }

  lemma AroundOrder(a: seq<Entry>, es: seq<Entry>, z: seq<Entry>, e: Entry)
    requires forall x :: x in a ==> Rank(x.key) <= Rank(e.key)
    requires forall x :: x in z ==> Rank(e.key) < Rank(x.key)
    ensures var p := Upper(EntryKeys(es), e.key);
      && (forall i :: 0 <= i < |a + es[..p]| ==> Rank((a + es[..p])[i].key) <= Rank(e.key))
      && (es[p..] + z != [] ==> Rank(e.key) < Rank((es[p..] + z)[0].key))
  {
    hide Rank;
    var keys := EntryKeys(es);
    var p := Upper(keys, e.key);
    var l, r := a + es[..p], es[p..] + z;
    forall i | 0 <= i < |l| ensures Rank(l[i].key) <= Rank(e.key) {
      if i < |a| { assert l[i] in a; } else { assert l[i].key == keys[i-|a|]; }
    }
    if r != [] {
      if p < |es| { assert r[0].key == keys[p]; } else { assert r[0] == z[0] && z[0] in z; }
    }
  }

  /** What the leaf step of an insert starts from. */
  ghost predicate LeafReady(c: nat, m: Mode, pages: Pages, pageCount: nat, root: PageId, s: Spot, e: Entry,
                            chain: seq<PageId>) {
    && c >= HEADER + 2 * (DIR_ENTRY + RECORD_ID)
    && At(c, m, pages, root, s) && s.t.LeafT? && KeyHere(m, pages, s, e.key) && Followed(pages, s.path, s.t, e.key)
    && Chained(pages, chain) && multiset(LeavesBefore(s.path) + [s.t.id] + LeavesAfter(s.path)) == multiset(chain)
    && (!m.Loose? ==> LeavesBefore(s.path) + [s.t.id] + LeavesAfter(s.path) == chain)
    && Bounded(pages.Keys, pageCount) && pageCount > 0 && Bounded(PathIds(s.path) + Ids(s.t), pageCount)
    && |e.key| <= MaxKeyLen(c)
    && (m.Strict? ==> forall x :: x in Contents(pages, chain) ==> x.key != e.key)
    && s.t.id in pages && pages[s.t.id].Leaf?
  }

  ghost function EntriesWith(pages: Pages, id: PageId, e: Entry): seq<Entry>
    requires id in pages && pages[id].Leaf?
  {
    var es := pages[id].entries;
    InsertAt(es, Upper(EntryKeys(es), e.key), e)
  }

  /** The chain after a leaf was written: the same, or with the new leaf behind the old one. */
  ghost predicate ChainAfter(chain: seq<PageId>, leaf: PageId, id: PageId, split: bool, chain': seq<PageId>) {
    exists j :: 0 <= j < |chain| && chain[j] == leaf && chain' == if split then InsertBehind(chain, j, id) else chain
  }

  /** The leaf step, leaf by leaf. */
  lemma LeafTakesEntry(c: nat, pages: Pages, pages': Pages, chain: seq<PageId>, chain': seq<PageId>, root: PageId,
                       leaf: PageId, id: PageId, e: Entry, w: Result<Option<Split>, Error>)
    requires Chained(pages, chain) && Chained(pages', chain') && leaf in pages && pages[leaf].Leaf? && id !in pages
    requires LeafWritten(c, pages, pages', leaf, EntriesWith(pages, leaf, e), id, w) && w.Ok?
    requires ChainAfter(chain, leaf, id, w.value.Some?, chain')
    ensures exists d: nat, pos: nat :: TakesEntry(pages, chain, pages', chain', root, d, pos, e)
  {
    hide LeafFits, SplitPoint, Upper, NextIn, Chained, TakesEntry, InsertAt, InsertBehind;
    var d: nat :| d < |chain| && chain[d] == leaf && chain' == if w.value.Some? then InsertBehind(chain, d, id)
        else chain;
    var es := EntriesWith(pages, leaf, e);
    var mid := SplitPoint(EntryKeys(es), RECORD_ID, c);
    if w.value.Some? {
      SplitTakes(pages, pages', chain, root, d, id, e, mid);
    } else {
      FittingTakes(pages, pages', chain, root, d, e);
    }
  }

  lemma FittingTakes(pages: Pages, pages': Pages, chain: seq<PageId>, root: PageId, d: nat, e: Entry)
    requires Chained(pages, chain) && Chained(pages', chain) && d < |chain|
    requires pages' == pages[chain[d] := Leaf(EntriesWith(pages, chain[d], e), pages[chain[d]].next)]
    ensures TakesEntry(pages, chain, pages', chain, root, d, Upper(EntryKeys(pages[chain[d]].entries), e.key), e)
  {
    hide Upper, NextIn, InsertAt;
  }

  lemma SplitTakes(pages: Pages, pages': Pages, chain: seq<PageId>, root: PageId, d: nat, id: PageId, e: Entry,
                   mid: nat)
    requires Chained(pages, chain) && d < |chain| && id !in pages && mid <= |EntriesWith(pages, chain[d], e)|
    requires Chained(pages', InsertBehind(chain, d, id))
    requires var es := EntriesWith(pages, chain[d], e);
      pages' == pages[chain[d] := Leaf(es[..mid], id)][id := Leaf(es[mid..], pages[chain[d]].next)]
    ensures TakesEntry(pages, chain, pages', InsertBehind(chain, d, id), root, d,
                       Upper(EntryKeys(pages[chain[d]].entries), e.key), e)
  {
    hide Upper, NextIn;
    var es, chain' := EntriesWith(pages, chain[d], e), InsertBehind(chain, d, id);
    assert es[..mid] + es[mid..] == es;
    forall i | 0 <= i < |chain| ensures chain'[Shifted(i, d, 1)] == chain[i] && chain[i] in pages {
    }
  }

  /** What holds when the leaf is done. */
  ghost predicate LeafStepped(c: nat, m: Mode, pages0: Pages, pages: Pages, pageCount: nat, root: PageId, s: Spot,
                              e: Entry, chain: seq<PageId>, pending: Option<Split>, r: Run, l: Level, right: Tree,
                              es: seq<Entry>) {
    && r == Run(c, m, pages0, root, s.path, e.key, r.chain)
    && Running(r, pages, pageCount + if pending.Some? then 1 else 0, l, pending, s.t, right, es)
    && l.n == |s.path| && l.was == s.t && l.h == 0
    && multiset(es) == multiset(Contents(pages0, chain)) + multiset{e}
    && (!m.Loose? ==> es == InsertSorted(Contents(pages0, chain), e))
    && ChainAfter(chain, s.t.id, pageCount, pending.Some?, r.chain)
  }

  lemma {:induction false} LeafStepFits(c: nat, m: Mode, pages0: Pages, pages: Pages, pageCount: nat, root: PageId,
                                        s: Spot, e: Entry, chain: seq<PageId>)
    returns (r: Run, l: Level, es: seq<Entry>)
    requires LeafReady(c, m, pages0, pageCount, root, s, e, chain) && LeafFits(EntriesWith(pages0, s.t.id, e), c)
    requires pages == pages0[s.t.id := Leaf(EntriesWith(pages0, s.t.id, e), pages0[s.t.id].next)]
    ensures LeafStepped(c, m, pages0, pages, pageCount, root, s, e, chain, None, r, l, s.t, es)
  {
    hide Rank, Good, PathOk, PathIds, LeavesBefore, LeavesAfter, Contents, Chained, Fills, Followed, KeyHere, At, Upper,
      InsertAt, LeafFits, Settled;
    var leaf := s.t.id;
    LeafBefore(c, m, pages0, root, s, e.key);
    var j := LeafOnChain(m, pages0, chain, s, e.key);
    var es' := EntriesWith(pages0, leaf, e);
    LeafEntriesNew(m, pages0, chain, j, e);
    EntriesAfter(pages0, chain, j, e, !m.Loose?);
    assert s.path[..|s.path|] == s.path;
    es := Contents(pages0, chain[..j]) + es' + Contents(pages0, chain[j+1..]);
    r := Run(c, m, pages0, root, s.path, e.key, chain);
    l := Level(|s.path|, s.t, true, 0, s.lo, s.hi, [leaf]);
    ChainRewrite(pages0, pages, chain, j, es');
    LeafSettles(r, pages, s, e);
  }

  /** The chain and its entries after the leaf split. */
  lemma {:induction false} LeafSplitChain(c: nat, m: Mode, pages0: Pages, pages: Pages, pageCount: nat, root: PageId,
                                          s: Spot, e: Entry, chain: seq<PageId>, mid: nat)
    returns (chain': seq<PageId>)
    requires LeafReady(c, m, pages0, pageCount, root, s, e, chain) && mid <= |EntriesWith(pages0, s.t.id, e)|
    requires var es' := EntriesWith(pages0, s.t.id, e);
      pages == pages0[s.t.id := Leaf(es'[..mid], pageCount)][pageCount := Leaf(es'[mid..], pages0[s.t.id].next)]
    ensures Chained(pages, chain')
    ensures multiset(Contents(pages, chain')) == multiset(Contents(pages0, chain)) + multiset{e}
    ensures !m.Loose? ==> Contents(pages, chain') == InsertSorted(Contents(pages0, chain), e)
    ensures multiset(LeavesBefore(s.path) + [s.t.id, pageCount] + LeavesAfter(s.path)) == multiset(chain')
    ensures !m.Loose? ==> LeavesBefore(s.path) + [s.t.id, pageCount] + LeavesAfter(s.path) == chain'
    ensures s.path == [] ==> chain' == [s.t.id, pageCount]
    ensures ChainAfter(chain, s.t.id, pageCount, true, chain')
    ensures m.Strict? ==> forall x :: x in pages0[s.t.id].entries ==> x.key != e.key
  {
    hide Rank, Good, PathOk, PathIds, LeavesBefore, LeavesAfter, Contents, Chained, Fills, Followed, KeyHere, At, Upper,
      InsertAt, InsertBehind, EntryKeys, InsertSorted, LeafPageOk;
    LeafBefore(c, m, pages0, root, s, e.key);
    var j := LeafOnChain(m, pages0, chain, s, e.key);
    var es' := EntriesWith(pages0, s.t.id, e);
    LeafEntriesNew(m, pages0, chain, j, e);
    EntriesAfter(pages0, chain, j, e, !m.Loose?);
    chain' := InsertBehind(chain, j, pageCount);
    SplitBehind(pages0, pages, chain, j, pageCount, es'[..mid], es'[mid..]);
    assert es'[..mid] + es'[mid..] == es';
    ChainSplitOrder(m, chain, j, pageCount, LeavesBefore(s.path), LeavesAfter(s.path));
    OneLevel(s.path, chain, s.t.id, j, pageCount);
  }

  lemma LeafId(id: PageId)
    ensures Ids(LeafT(id)) == {id}
  {
  }

  lemma {:induction false} LeafStepSplits(c: nat, m: Mode, pages0: Pages, pages: Pages, pageCount: nat, root: PageId,
                                          s: Spot, e: Entry, chain: seq<PageId>)
    returns (r: Run, l: Level, right: Tree, es: seq<Entry>)
    requires LeafReady(c, m, pages0, pageCount, root, s, e, chain) && !LeafFits(EntriesWith(pages0, s.t.id, e), c)
    requires var es' := EntriesWith(pages0, s.t.id, e); var mid := SplitPoint(EntryKeys(es'), RECORD_ID, c);
      && 1 <= mid < |es'| && LeafFits(es'[..mid], c) && LeafFits(es'[mid..], c)
      && pages == pages0[s.t.id := Leaf(es'[..mid], pageCount)][pageCount := Leaf(es'[mid..], pages0[s.t.id].next)]
    ensures var es' := EntriesWith(pages0, s.t.id, e); var mid := SplitPoint(EntryKeys(es'), RECORD_ID, c);
      LeafStepped(c, m, pages0, pages, pageCount, root, s, e, chain, Some(Split(es'[mid].key, pageCount)), r, l, right,
                  es)
  {
    hide Rank, Good, PathOk, PathIds, LeavesBefore, LeavesAfter, Contents, Chained, Fills, Followed, KeyHere, At, Upper,
      InsertAt, LeafFits, Propagating, SplitPoint, EntryKeys, InsertSorted, LeafPageOk, MaxKeyLen, NextIn, Settled, Ids,
      ChainAfter, InternalFits, LeafParts, LeafStepped;
    LeafBefore(c, m, pages0, root, s, e.key);
    var es' := EntriesWith(pages0, s.t.id, e);
    var mid := SplitPoint(EntryKeys(es'), RECORD_ID, c);
    var chain' := LeafSplitChain(c, m, pages0, pages, pageCount, root, s, e, chain, mid);
    es := Contents(pages, chain');
    r := Run(c, m, pages0, root, s.path, e.key, chain');
    l := Level(|s.path|, s.t, true, 0, s.lo, s.hi, [s.t.id, pageCount]);
    right := LeafT(pageCount);
    LeafSplits(r, pages, s, e, pageCount);
    SplitRuns(c, m, pages0, pages, pageCount, root, s, e, chain, chain', es'[mid].key);
  }

  /** What holds when the leaf has split. */
  lemma SplitRuns(c: nat, m: Mode, pages0: Pages, pages: Pages, pageCount: nat, root: PageId, s: Spot, e: Entry,
                  chain: seq<PageId>, chain': seq<PageId>, sep: Key)
    requires s.t.LeafT? && Bounded(pages0.Keys, pageCount) && pageCount > 0
    requires Bounded(PathIds(s.path) + Ids(s.t), pageCount)
    requires pages.Keys == pages0.Keys + {pageCount} && Chained(pages, chain')
    requires ChainAfter(chain, s.t.id, pageCount, true, chain')
    requires s.path == [] ==> chain' == [s.t.id, pageCount]
    requires multiset(Contents(pages, chain')) == multiset(Contents(pages0, chain)) + multiset{e}
    requires !m.Loose? ==> Contents(pages, chain') == InsertSorted(Contents(pages0, chain), e)
    requires var l := Level(|s.path|, s.t, true, 0, s.lo, s.hi, [s.t.id, pageCount]);
      Propagating(Run(c, m, pages0, root, s.path, e.key, chain'), pages, l, s.t, sep, LeafT(pageCount))
    ensures var l := Level(|s.path|, s.t, true, 0, s.lo, s.hi, [s.t.id, pageCount]);
      LeafStepped(c, m, pages0, pages, pageCount, root, s, e, chain, Some(Split(sep, pageCount)),
                  Run(c, m, pages0, root, s.path, e.key, chain'), l, LeafT(pageCount), Contents(pages, chain'))
  {
    hide PathIds, Contents, Chained, Propagating, InsertSorted, Ids, ChainAfter;
    assert s.path[..|s.path|] == s.path;
    assert Ids(LeafT(pageCount)) == {pageCount} by { LeafId(pageCount); }
  }

  /** The leaf takes the entry: whatever its page does is accepted, and the run starts. */
  lemma {:induction false} LeafStep(c: nat, m: Mode, pages0: Pages, pages: Pages, pageCount: nat, root: PageId, s: Spot,
                                    e: Entry, chain: seq<PageId>, w: Result<Option<Split>, Error>)
    returns (r: Run, l: Level, right: Tree, es: seq<Entry>)
    requires LeafReady(c, m, pages0, pageCount, root, s, e, chain)
    requires LeafWritten(c, pages0, pages, s.t.id, EntriesWith(pages0, s.t.id, e), pageCount, w)
    ensures w.Ok? && LeafStepped(c, m, pages0, pages, pageCount, root, s, e, chain, w.value, r, l, right, es)
    ensures w.value.Some? ==> !LeafFits(EntriesWith(pages0, s.t.id, e), c)
  {
    hide Rank, Good, PathOk, PathIds, LeavesBefore, LeavesAfter, Contents, Chained, Fills, Followed, KeyHere, At, Upper,
      InsertAt, LeafFits, SplitPoint, LeafStepped;
    LeafBefore(c, m, pages0, root, s, e.key);
    if LeafFits(EntriesWith(pages0, s.t.id, e), c) {
      r, l, es := LeafStepFits(c, m, pages0, pages, pageCount, root, s, e, chain);
      right := s.t;
    } else {
      LeafSplitAccepted(c, m, pages0[s.t.id], e, s.lo, s.hi);
      r, l, right, es := LeafStepSplits(c, m, pages0, pages, pageCount, root, s, e, chain);
    }
  }

  ghost function InsertBehind(chain: seq<PageId>, j: nat, id: PageId): seq<PageId>
    requires j < |chain|
  {
    InsertAt(chain, j + 1, id)
  }

  lemma SplitBehind(pages: Pages, pages': Pages, chain: seq<PageId>, j: nat, id: PageId, a: seq<Entry>, b: seq<Entry>)
    requires Chained(pages, chain) && j < |chain| && id !in pages && id != 0
    requires pages' == pages[chain[j] := Leaf(a, id)][id := Leaf(b, pages[chain[j]].next)]
    ensures Chained(pages', InsertBehind(chain, j, id))
    ensures Contents(pages', InsertBehind(chain, j, id)) == Contents(pages, chain[..j]) + (a + b) +
        Contents(pages, chain[j+1..])
  {
    hide Contents, Chained;
    ChainSplit(pages, pages', chain, j, id, a, b);
  }

  lemma OneLevel(path: seq<Frame>, chain: seq<PageId>, leaf: PageId, j: nat, id: PageId)
    requires j < |chain| && chain[j] == leaf
    requires multiset(LeavesBefore(path) + [leaf] + LeavesAfter(path)) == multiset(chain)
    ensures path == [] ==> InsertBehind(chain, j, id) == [leaf, id]
  {
    if path == [] {
      assert LeavesBefore(path) + [leaf] + LeavesAfter(path) == [leaf];
      assert |multiset(chain)| == 1;
      assert chain == [leaf];
    }
  }

  lemma LeafEntriesNew(m: Mode, pages: Pages, chain: seq<PageId>, j: nat, e: Entry)
    requires Chained(pages, chain) && j < |chain|
    requires m.Strict? ==> forall x :: x in Contents(pages, chain) ==> x.key != e.key
    ensures m.Strict? ==> forall x :: x in pages[chain[j]].entries ==> x.key != e.key
  {
    hide Contents;
    ContentsAt(pages, chain, j);
  }

  lemma ChainSplitOrder(m: Mode, chain: seq<PageId>, j: nat, id: PageId, before: seq<PageId>, after: seq<PageId>)
    requires j < |chain| && multiset(before + [chain[j]] + after) == multiset(chain)
    requires !m.Loose? ==> before == chain[..j] && after == chain[j+1..]
    ensures multiset(before + [chain[j], id] + after) == multiset(InsertBehind(chain, j, id))
    ensures !m.Loose? ==> before + [chain[j], id] + after == InsertBehind(chain, j, id)
  {
    var leaf := chain[j];
    var a, z := chain[..j], chain[j+1..];
    assert chain == a + [leaf] + z;
    assert InsertBehind(chain, j, id) == a + [leaf, id] + z;
    AddOne(before, a, leaf, id, after, z);
  }

  lemma AddOne(b: seq<PageId>, a: seq<PageId>, x: PageId, y: PageId, c: seq<PageId>, z: seq<PageId>)
    requires multiset(b + [x] + c) == multiset(a + [x] + z)
    ensures multiset(b + [x, y] + c) == multiset(a + [x, y] + z)
  {
    assert multiset(b + [x, y] + c) == multiset(b + [x] + c) + multiset{y} by { OneMore(b, x, y, c); }
    assert multiset(a + [x, y] + z) == multiset(a + [x] + z) + multiset{y} by { OneMore(a, x, y, z); }
  }

  lemma OneMore(a: seq<PageId>, x: PageId, y: PageId, z: seq<PageId>)
    ensures multiset(a + [x, y] + z) == multiset(a + [x] + z) + multiset{y}
  {
    assert multiset([x, y]) == multiset{x} + multiset{y};
    calc {
      multiset(a + [x, y] + z);
      multiset(a) + multiset([x, y]) + multiset(z);
      (multiset(a) + multiset{x} + multiset(z)) + multiset{y};
      multiset(a + [x] + z) + multiset{y};
    }
  }

  function ToSet(ids: seq<PageId>): set<PageId> {
    set x | x in ids
  }

  /** The held pages are the nodes of the path from depth `top` on. */
  ghost predicate Held(ancestors: seq<PageId>, path: seq<Frame>, top: nat) {
    && top <= |path| && |ancestors| == |path| - top
    && forall d :: top <= d < |path| ==> ancestors[d-top] == path[d].node.id
  }

  lemma HeldPush(ancestors: seq<PageId>, path: seq<Frame>, top: nat, f: Frame)
    requires Held(ancestors, path, top)
    ensures Held(ancestors + [f.node.id], path + [f], top)
    ensures Held([f.node.id], path + [f], |path|)
    ensures ToSet(ancestors + [f.node.id]) == ToSet(ancestors) + {f.node.id}
  {
  }

  lemma HeldNone(path: seq<Frame>, ancestors: seq<PageId>)
    ensures Held([], path, |path|) && ToSet([]) == {} && ToSet([] + ancestors) == ToSet(ancestors)
    ensures forall c: nat, pages: Pages :: TopSafe(c, pages, path, |path|) && NoneSafeBelow(c, pages, path, |path|)
    ensures forall x: PageId :: ToSet([] + [x]) == {x}
  {
    assert [] + ancestors == ancestors;
  }

  /** The topmost held page is the root, or a page that cannot split. */
  ghost predicate TopSafe(c: nat, pages: Pages, path: seq<Frame>, top: nat) {
    0 < top < |path| ==>
      var id := path[top].node.id;
      id in pages && pages[id].Internal? && InternalIsSafe(c, pages[id].seps)
  }

  /** No page below the topmost one held is safe: nothing is held longer than need be. */
  ghost predicate NoneSafeBelow(c: nat, pages: Pages, path: seq<Frame>, top: nat) {
    forall d :: top < d < |path| ==> !SafePage(c, pages, path[d].node.id)
  }

  ghost predicate SafePage(c: nat, pages: Pages, id: PageId) {
    id in pages && pages[id].Internal? && InternalIsSafe(c, pages[id].seps)
  }

  lemma NoneSafePush(c: nat, pages: Pages, path: seq<Frame>, top: nat, f: Frame)
    requires NoneSafeBelow(c, pages, path, top) && top <= |path|
    requires top < |path| ==> !SafePage(c, pages, f.node.id)
    ensures NoneSafeBelow(c, pages, path + [f], top)
  {
    hide SafePage;
    assert forall d :: 0 <= d < |path| ==> (path + [f])[d] == path[d];
  }

  lemma TopSafePush(c: nat, pages: Pages, path: seq<Frame>, top: nat, f: Frame)
    requires top < |path| || top == 0 || (f.node.id in pages && pages[f.node.id].Internal? &&
                                          InternalIsSafe(c, pages[f.node.id].seps))
    requires TopSafe(c, pages, path, top) && top <= |path|
    ensures TopSafe(c, pages, path + [f], top)
  {
    hide InternalIsSafe;
    assert top < |path| ==> (path + [f])[top] == path[top];
    assert (path + [f])[|path|] == f;
  }

  // ---- Guards during the propagation

  lemma {:induction false} HeldInPath(c: nat, m: Mode, pages: Pages, path: seq<Frame>, root: PageId,
                                      ancestors: seq<PageId>, top: nat)
    requires PathOk(c, m, pages, path, root) && Held(ancestors, path, top)
    ensures ToSet(ancestors) <= PathIds(path)
  {
    hide FrameOk, Rank, Fills, PathIds, PathOk;
    forall x | x in ancestors ensures x in PathIds(path) {
      var i :| 0 <= i < |ancestors| && ancestors[i] == x;
      assert path[top + i].node.id == x;
      PathNode(c, m, pages, path, root, top + i);
    }
  }

  lemma NothingHeld(path: seq<Frame>, n: nat, top: nat)
    requires Held([], path, top) && |path| == n
    ensures n == top && ToSet([]) == {}
  {
  }

  /** The last page held is the parent of the split page; the ones above it are still held after it is popped. */
  lemma PopHeld(path: seq<Frame>, n: nat, ancestors: seq<PageId>, top: nat)
    requires n <= |path| && Held(ancestors, path[..n], top) && ancestors != []
    ensures 0 < n && top < n && ancestors[|ancestors|-1] == path[n-1].node.id
    ensures Held(ancestors[..|ancestors|-1], path[..n-1], top)
    ensures ToSet(ancestors) == ToSet(ancestors[..|ancestors|-1]) + {ancestors[|ancestors|-1]}
  {
    var init, last := ancestors[..|ancestors|-1], ancestors[|ancestors|-1];
    assert ancestors == init + [last];
    assert path[..n][n-1] == path[n-1] && path[..n-1] == path[..n][..n-1];
  }

  /** Popping the parent of a split page. If it was the topmost page held, and not the root, it has room. */
  lemma ParentPage(r: Run, l: Level, pages: Pages, pageCount: nat, sep: Key, newPage: PageId, left: Tree, right: Tree,
                   es: seq<Entry>, ancestors: seq<PageId>, top: nat, pages0: Pages)
    requires Running(r, pages, pageCount, l, Some(Split(sep, newPage)), left, right, es) && r.pages0 == pages0
    requires Held(ancestors, r.path[..l.n], top) && ancestors != [] && TopSafe(r.c, pages0, r.path, top)
    ensures 0 < l.n && top < l.n
    ensures var f := r.path[l.n-1]; var parent := ancestors[|ancestors|-1]; var rest := ancestors[..|ancestors|-1];
      && parent == f.node.id && parent in pages && pages[parent].Internal? && Sorted(Loose, SepKeys(pages[parent].seps))
      && NewSeps(pages, f, sep, right) ==
           InsertAt(pages[parent].seps, Upper(SepKeys(pages[parent].seps), sep), Separator(sep, newPage))
      && Held(rest, r.path[..l.n-1], top) && ToSet(ancestors) == ToSet(rest) + {parent} && parent !in ToSet(rest)
      && pageCount !in ToSet(ancestors) && pageCount !in pages
      && Plug(r.path[..l.n-1], f.node) == Plug(r.path[..l.n], l.was)
      && l.h + 1 == f.h
      && Up(r, pages, l, sep).n == l.n - 1 && Up(r, pages, l, sep).h == f.h && Up(r, pages, l, sep).was == f.node
      && (l.n - 1 == top && top > 0 ==> InternalFits(NewSeps(pages, f, sep, right), r.c))
  {
    hide Good, Ids, Rank, Upper, LeafIds, FrameIds, PathOk, PathIds, LeavesBefore, LeavesAfter, InsertAt, FrameOk,
      Propagating, Pending, Followed, NodeKeys, InternalFits, OnLevel, Outcome, Fills, Settled, SplitPoint, SepKeys,
      Contents, Chained, Held, ToSet, InternalIsSafe, NewSeps, Plug, LeftLeaves, RightLeaves, Clean;
    PopHeld(r.path, l.n, ancestors, top);
    var f := r.path[l.n-1];
    ParentFrame(r, pages, l, left, sep, right);
    FrameKeys(r.c, r.m, pages, f);
    HeldInPath(r.c, r.m, pages, r.path[..l.n-1], r.root, ancestors[..|ancestors|-1], top);
    SortedLoose(r.m, NodeKeys(pages, f.node.id));
    NewSepsAt(pages, f, sep, right);
    PlugUp(r.path[..l.n], l.was);
    assert r.path[..l.n][..l.n-1] == r.path[..l.n-1];
    if l.n - 1 == top && top > 0 {
      AgreesBelow(r, pages, l, left, sep, right);
      PendingShort(r.c, Left(r, l), pages, f, left, sep, right);
      SafeNodeFits(r.c, pages[f.node.id].seps, Upper(SepKeys(pages[f.node.id].seps), sep), sep, right.id);
    }
  }

  lemma AgreesBelow(r: Run, pages: Pages, l: Level, left: Tree, sep: Key, right: Tree)
    requires Propagating(r, pages, l, left, sep, right) && l.n > 0
    ensures var id := r.path[l.n-1].node.id; id in pages && id in r.pages0 && pages[id] == r.pages0[id]
  {
    hide Good, Ids, Rank, Waiting, FrameOk, Upper, Outcome, Clean, LeafIds, LeftLeaves, RightLeaves, FrameIds, PathOk,
      PathIds, Followed;
    ParentFrame(r, pages, l, left, sep, right);
  }

  lemma SortedLoose(m: Mode, keys: seq<Key>)
    requires Sorted(m, keys)
    ensures Sorted(Loose, keys)
  {
  }

  lemma NewSepsAt(pages: Pages, f: Frame, sep: Key, right: Tree)
    requires f.node.id in pages && pages[f.node.id].Internal?
    ensures NewSeps(pages, f, sep, right) ==
      InsertAt(pages[f.node.id].seps, Upper(SepKeys(pages[f.node.id].seps), sep), Separator(sep, right.id))
  {
  }

  lemma PlugUp(path: seq<Frame>, t: Tree)
    requires path != [] && var f := path[|path|-1]; f.node.kids[f.i] == t
    ensures Plug(path, t) == Plug(path[..|path|-1], path[|path|-1].node)
  {
    var f := path[|path|-1];
    assert f.node.kids[f.i := t] == f.node.kids;
  }

  /** The state in which the propagation starts. */
  lemma StartRun(c: nat, root: PageId, r: Run, l: Level, s: Spot, pages: Pages, pageCount: nat,
                 w: Result<Option<Split>, Error>, left: Tree, right: Tree, es: seq<Entry>, e: Entry, chain: seq<PageId>,
                 pages0: Pages, count: nat, m: Mode, top: nat)
    requires w.Ok? && LeafStepped(c, m, pages0, pages, count, root, s, e, chain, w.value, r, l, right, es)
    requires pageCount == count + if w.value.Some? then 1 else 0
    requires left == s.t && top <= |s.path|
    ensures s.path[..l.n] == s.path && l.n == |s.path| && l.was == s.t && l.h == 0
    ensures r == Run(c, m, pages0, root, s.path, e.key, r.chain)
    ensures Running(r, pages, pageCount, l, w.value, left, right, es)
    ensures multiset(es) == multiset(Contents(pages0, chain)) + multiset{e}
    ensures !m.Loose? ==> es == InsertSorted(Contents(pages0, chain), e)
    ensures ChainAfter(chain, s.t.id, count, w.value.Some?, r.chain) && Chained(pages, r.chain)
  {
    hide Contents, Rank, ChainAfter, Chained, Settled, Propagating;
  }

  /** The end of a run that settled below the root. */
  lemma {:induction false} FinishRun(r: Run, l: Level, left: Tree, right: Tree, es: seq<Entry>, pages: Pages,
                                     pageCount: nat, shape: Tree) returns (shape': Tree)
    requires Running(r, pages, pageCount, l, None, left, right, es)
    requires Plug(r.path[..l.n], l.was) == shape
    ensures shape'.id == r.root
    ensures Good(r.c, Loose, pages, shape', l.h + l.n, BOTTOM, TOP)
    ensures Bounded(Ids(shape'), pageCount) && Bounded(pages.Keys, pageCount)
    ensures Chained(pages, r.chain) && Contents(pages, r.chain) == es
    ensures multiset(LeafIds(shape')) == multiset(r.chain)
    ensures !r.m.Loose? ==>
      (Clean(r.c, r.pages0, shape, r.key) <==>
         Good(r.c, r.m, pages, shape', l.h + l.n, BOTTOM, TOP) && LeafIds(shape') == r.chain)
  {
    hide Good, Ids, Rank, PathIds, Contents, Chained, Settled, Clean, LeafIds, Plug;
    shape' := Finish(r, pages, l, left, shape);
  }
}
