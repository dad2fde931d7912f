/** A whole insert seen from the leaf up: the state between two steps of the propagation,
    and what the steps keep of it. */
module TreeRun {
  import opened Options
  import opened PageIds
  import opened KeyOrder
  import opened PageLayout
  import opened TreeShape
  import opened TreePath
  import opened TreeInsert
  import opened TreeAlign
  import opened LeafChain

  /** What does not change during one insert: the pages it started from, the path of its
      descent, and the leaf chain it leaves behind. */
  datatype Run = Run(c: nat, m: Mode, pages0: Pages, root: PageId, path: seq<Frame>, key: Key, chain: seq<PageId>)

  /** The subtree `was` below the first `n` frames. Its leaves should now read `want`;
      `ok` tells whether no separator went astray so far. */
  datatype Level = Level(n: nat, was: Tree, ok: bool, h: nat, lo: real, hi: real, want: seq<PageId>)

  ghost predicate OnLevel(r: Run, pages: Pages, l: Level) {
    && l.n <= |r.path|
    && PathOk(r.c, r.m, pages, r.path[..l.n], r.root)
    && Agree(r.pages0, pages, PathIds(r.path[..l.n]))
    && Followed(r.pages0, r.path[..l.n], l.was, r.key)
    && (!r.m.Loose? ==> (l.ok <==> Clean(r.c, r.pages0, l.was, r.key)))
    && multiset(LeavesBefore(r.path[..l.n]) + l.want + LeavesAfter(r.path[..l.n])) == multiset(r.chain)
    && (!r.m.Loose? ==> LeavesBefore(r.path[..l.n]) + l.want + LeavesAfter(r.path[..l.n]) == r.chain)
  }

  ghost function Left(r: Run, l: Level): Mode {
    if l.ok then r.m else Loose
  }

  /** The subtree has been split; `sep` and `right` wait to be inserted into its parent. */
  ghost predicate Propagating(r: Run, pages: Pages, l: Level, left: Tree, sep: Key, right: Tree) {
    && OnLevel(r, pages, l)
    && Fills(pages, r.path[..l.n], r.root, left.id, l.h, l.lo, l.hi)
    && Waiting(r.c, Left(r, l), pages, left, sep, right, l.h, l.lo, l.hi)
    && PathIds(r.path[..l.n]) !! Ids(left) && PathIds(r.path[..l.n]) !! Ids(right)
    && Outcome(r.c, r.pages0, l.was, r.key) == Some(sep)
    && multiset(LeafIds(left) + LeafIds(right)) == multiset(l.want)
    && (!r.m.Loose? ==>
          && Within(Weak, l.lo, Rank(sep), l.hi)
          && (l.ok <==> LeafIds(left) + LeafIds(right) == l.want))
  }

  /** The subtree has become `t` without splitting. */
  ghost predicate Settled(r: Run, pages: Pages, l: Level, t: Tree) {
    && OnLevel(r, pages, l)
    && Fills(pages, r.path[..l.n], r.root, t.id, l.h, l.lo, l.hi)
    && Good(r.c, Left(r, l), pages, t, l.h, l.lo, l.hi)
    && PathIds(r.path[..l.n]) !! Ids(t)
    && Outcome(r.c, r.pages0, l.was, r.key) == None
    && multiset(LeafIds(t)) == multiset(l.want)
    && (!r.m.Loose? ==> (l.ok <==> LeafIds(t) == l.want))
  }

  // ---- One step up

  ghost function Up(r: Run, pages: Pages, l: Level, sep: Key): Level
    requires 0 < l.n <= |r.path|
  {
    var f := r.path[l.n-1];
    Level(l.n - 1, f.node, l.ok && Upper(NodeKeys(pages, f.node.id), sep) == f.i, f.h, f.lo, f.hi,
          LeftLeaves(f) + l.want + RightLeaves(f))
  }

  /** The frame above and what it knows. */
  lemma ParentFrame(r: Run, pages: Pages, l: Level, left: Tree, sep: Key, right: Tree)
    requires Propagating(r, pages, l, left, sep, right) && l.n > 0
    ensures var f := r.path[l.n-1];
      && FrameOk(r.c, r.m, pages, f)
      && Pending(r.c, Left(r, l), pages, f, left, sep, right)
      && NodeKeys(pages, f.node.id) == NodeKeys(r.pages0, f.node.id)
      && f.i == Upper(NodeKeys(r.pages0, f.node.id), r.key) && f.node.kids[f.i] == l.was
      && l.h == f.h - 1
      && PathOk(r.c, r.m, pages, r.path[..l.n-1], r.root)
      && Fills(pages, r.path[..l.n-1], r.root, f.node.id, f.h, f.lo, f.hi)
      && FrameIds(f) !! PathIds(r.path[..l.n-1])
      && PathIds(r.path[..l.n]) == PathIds(r.path[..l.n-1]) + FrameIds(f)
      && f.node.id in FrameIds(f)
      && LeavesBefore(r.path[..l.n]) == LeavesBefore(r.path[..l.n-1]) + LeftLeaves(f)
      && LeavesAfter(r.path[..l.n]) == RightLeaves(f) + LeavesAfter(r.path[..l.n-1])
      && Followed(r.pages0, r.path[..l.n-1], f.node, r.key)
      && (!r.m.Loose? ==> Within(Weak, HoleLo(pages, f), Rank(sep), HoleHi(pages, f)))
  {
    hide Good, Ids, Rank, Waiting, FrameOk, Upper, Outcome, Clean, LeafIds, LeftLeaves, RightLeaves;
    var path := r.path[..l.n];
    var f := path[l.n-1];
    assert path[..l.n-1] == r.path[..l.n-1];
    assert f.node.id in FrameIds(f);
    FollowedPop(r.pages0, path, l.was, r.key);
  }

  lemma FollowedPop(pages: Pages, path: seq<Frame>, t: Tree, key: Key)
    requires Followed(pages, path, t, key) && path != []
    ensures Followed(pages, path[..|path|-1], path[|path|-1].node, key)
    ensures var f := path[|path|-1]; f.i == Upper(NodeKeys(pages, f.node.id), key) && f.node.kids[f.i] == t
  {
    hide Upper, NodeKeys, Rank;
  }

  /** What the step above does to the separator, to cleanness and to the wanted leaf order. */
  lemma StepOrder(r: Run, pages: Pages, l: Level, left: Tree, sep: Key, right: Tree)
    requires Propagating(r, pages, l, left, sep, right) && l.n > 0
    ensures var f := r.path[l.n-1]; var p := Upper(NodeKeys(pages, f.node.id), sep); var l' := Up(r, pages, l, sep);
      && p < |f.node.kids|
      && Outcome(r.c, r.pages0, l'.was, r.key) == PushUp(r.c, NodeKeys(pages, f.node.id), sep, CHILD_ID)
      && (!r.m.Loose? ==> (l'.ok <==> Clean(r.c, r.pages0, l'.was, r.key)))
      && StepMode(r.m, Left(r, l), pages, f, sep) == Left(r, l')
      && multiset(ForestLeaves(NewKids(f, p, left, right))) == multiset(l'.want)
      && (!r.m.Loose? ==> (l'.ok <==> ForestLeaves(NewKids(f, p, left, right)) == l'.want))
      && multiset(LeavesBefore(r.path[..l'.n]) + l'.want + LeavesAfter(r.path[..l'.n])) == multiset(r.chain)
      && (!r.m.Loose? ==> LeavesBefore(r.path[..l'.n]) + l'.want + LeavesAfter(r.path[..l'.n]) == r.chain)
  {
    hide Good, Ids, Rank, FrameOk, Upper, LeafIds, ForestLeaves, LeftLeaves, RightLeaves, FrameIds, PathOk, PathIds,
      PushUp, NewKids, LeavesBefore, LeavesAfter, Agree, Followed, Fills, Pending;
    var f := r.path[l.n-1];
    var p := Upper(NodeKeys(pages, f.node.id), sep);
    ParentFrame(r, pages, l, left, sep, right);
    FrameKeys(r.c, r.m, pages, f);
    NewKidsLeafCount(f, p, left, right);
    WantedShuffle(LeftLeaves(f), LeafIds(left), LeafIds(right), RightLeaves(f), l.want);
    Regroup(LeavesBefore(r.path[..l.n-1]), LeftLeaves(f), l.want, RightLeaves(f), LeavesAfter(r.path[..l.n-1]));
    if !r.m.Loose? {
      PlaceOf(r.m, NodeKeys(pages, f.node.id), f.i, f.lo, f.hi, sep);
      RightHasLeaf(r, pages, l, left, sep, right);
      WantedCounts(LeafIds(left), LeafIds(right), l.want);
      StepAlign(r.c, r.m, pages, f, p, left, right, l.want);
    }
  }

  lemma Regroup(a: seq<PageId>, b: seq<PageId>, x: seq<PageId>, c: seq<PageId>, z: seq<PageId>)
    ensures a + (b + x + c) + z == (a + b) + x + (c + z)
  {
  }

  lemma WantedCounts(a: seq<PageId>, b: seq<PageId>, want: seq<PageId>)
    requires multiset(a + b) == multiset(want)
    ensures |want| == |a| + |b|
  {
    assert |multiset(a + b)| == |a + b|;
  }

  lemma WantedShuffle(l: seq<PageId>, a: seq<PageId>, b: seq<PageId>, r: seq<PageId>, want: seq<PageId>)
    requires multiset(a + b) == multiset(want)
    ensures multiset(l) + multiset(a) + multiset(b) + multiset(r) == multiset(l + want + r)
  {
    calc {
      multiset(l + want + r);
      multiset(l) + multiset(want) + multiset(r);
      multiset(l) + (multiset(a) + multiset(b)) + multiset(r);
      multiset(l) + multiset(a) + multiset(b) + multiset(r);
    }
  }

  lemma RightHasLeaf(r: Run, pages: Pages, l: Level, left: Tree, sep: Key, right: Tree)
    requires Propagating(r, pages, l, left, sep, right)
    ensures LeafIds(right) != []
  {
    hide Good, Ids, Rank, LeafIds, OnLevel;
    HasLeaf(r.c, Left(r, l), pages, right, l.h, Rank(sep), l.hi);
  }

  /** The frames above stay as they were when only pages of the level below are rewritten. */
  lemma LevelUp(r: Run, pages: Pages, pages': Pages, l: Level, left: Tree, sep: Key, right: Tree)
    requires Propagating(r, pages, l, left, sep, right) && 0 < l.n <= |r.path|
    requires var f := r.path[l.n-1]; forall x :: x in pages && x != f.node.id ==> x in pages' && pages'[x] == pages[x]
    ensures var f := r.path[l.n-1]; var l' := Up(r, pages, l, sep);
      && OnLevel(r, pages', l')
      && Fills(pages', r.path[..l'.n], r.root, f.node.id, l'.h, l'.lo, l'.hi)
  {
    hide Good, Ids, Rank, Waiting, FrameOk, Upper, LeafIds, ForestLeaves, LeftLeaves, RightLeaves, FrameIds, PathOk,
      PathIds, PushUp, NewKids, LeavesBefore, LeavesAfter, Followed, Outcome, Clean, NodeKeys;
    ParentFrame(r, pages, l, left, sep, right);
    StepOrder(r, pages, l, left, sep, right);
    var f := r.path[l.n-1];
    var up := r.path[..l.n-1];
    assert Agree(pages, pages', PathIds(up)) by {
      assert forall x :: x in PathIds(up) ==> x in PathIds(r.path[..l.n]) && x != f.node.id;
    }
    PathFrame(r.c, r.m, pages, pages', up, r.root);
  }

  /** The parent had room: the insert is settled there. */
  lemma {:induction false} StepDone(r: Run, pages: Pages, pages': Pages, l: Level, left: Tree, sep: Key, right: Tree)
    returns (t: Tree)
    requires Propagating(r, pages, l, left, sep, right) && 0 < l.n <= |r.path|
    requires var f := r.path[l.n-1];
      && InternalFits(NewSeps(pages, f, sep, right), r.c)
      && f.node.id in pages && pages[f.node.id].Internal?
      && pages' == pages[f.node.id := Internal(pages[f.node.id].leftmost, NewSeps(pages, f, sep, right))]
    ensures Settled(r, pages', Up(r, pages, l, sep), t)
    ensures Ids(t) == FrameIds(r.path[l.n-1]) + Ids(left) + Ids(right) && t.id == r.path[l.n-1].node.id
  {
    hide Good, Ids, Rank, Waiting, FrameOk, Upper, LeafIds, LeftLeaves, RightLeaves, FrameIds, PathOk, PathIds, NewKids,
      LeavesBefore, LeavesAfter, Followed, NodeKeys, NewSeps, InternalFits, OnLevel, Outcome, Fills, StepMode;
    var f := r.path[l.n-1];
    ParentFrame(r, pages, l, left, sep, right);
    StepOrder(r, pages, l, left, sep, right);
    LevelUp(r, pages, pages', l, left, sep, right);
    StepFits(r.c, r.m, Left(r, l), pages, pages', f, left, sep, right);
    NewSepsKeys(r.c, pages, f, sep, right);
    t := NodeT(f.node.id, NewKids(f, Upper(NodeKeys(pages, f.node.id), sep), left, right));
    assert LeafIds(t) == ForestLeaves(t.kids) by { NodeLeaves(t.id, t.kids); }
    PrefixIds(r, pages, l, left, sep, right);
  }

  lemma PrefixIds(r: Run, pages: Pages, l: Level, left: Tree, sep: Key, right: Tree)
    requires Propagating(r, pages, l, left, sep, right) && l.n > 0
    ensures PathIds(r.path[..l.n-1]) !! FrameIds(r.path[l.n-1]) + Ids(left) + Ids(right)
  {
    hide Good, Ids, Rank, Waiting, FrameOk, Upper, LeafIds, LeftLeaves, RightLeaves, FrameIds, PathOk, PathIds,
      LeavesBefore, LeavesAfter, Followed, NodeKeys, OnLevel, Outcome, Fills;
    ParentFrame(r, pages, l, left, sep, right);
  }

  lemma NodeLeaves(id: PageId, kids: seq<Tree>)
    ensures LeafIds(NodeT(id, kids)) == ForestLeaves(kids)
  {
  }

  lemma NewSepsKeys(c: nat, pages: Pages, f: Frame, sep: Key, right: Tree)
    requires f.node.id in pages && pages[f.node.id].Internal?
    ensures var keys := NodeKeys(pages, f.node.id); var seps := NewSeps(pages, f, sep, right);
      && SepKeys(seps) == InsertAt(keys, Upper(keys, sep), sep)
      && (InternalFits(seps, c) ==> PushUp(c, keys, sep, CHILD_ID) == None)
      && var mid := SplitPoint(SepKeys(seps), CHILD_ID, c);
         !InternalFits(seps, c) && mid < |seps| ==> PushUp(c, keys, sep, CHILD_ID) == Some(seps[mid].key)
  {
    hide Rank, Upper, Need, SplitFrom;
    var seps := NewSeps(pages, f, sep, right);
    var keys := NodeKeys(pages, f.node.id);
    assert SepKeys(seps) == InsertAt(keys, Upper(keys, sep), sep);
  }

  /** The parent overflowed: the propagation goes on one level higher. */
  lemma {:induction false} StepAgain(r: Run, pages: Pages, pages': Pages, l: Level, left: Tree, sep: Key, right: Tree,
                                     id: PageId)
    returns (left': Tree, right': Tree)
    requires r.c >= HEADER + 2 * (DIR_ENTRY + RECORD_ID)
    requires Propagating(r, pages, l, left, sep, right) && 0 < l.n <= |r.path|
    requires var f := r.path[l.n-1];
      var seps := NewSeps(pages, f, sep, right);
      var mid := SplitPoint(SepKeys(seps), CHILD_ID, r.c);
      && !InternalFits(seps, r.c) && mid < |seps|
      && f.node.id in pages && pages[f.node.id].Internal?
      && pages' == pages[f.node.id := Internal(pages[f.node.id].leftmost, seps[..mid])]
                        [id := Internal(seps[mid].child, seps[mid+1..])]
    requires id !in pages && id !in PathIds(r.path[..l.n])
    ensures var seps := NewSeps(pages, r.path[l.n-1], sep, right); var mid := SplitPoint(SepKeys(seps), CHILD_ID, r.c);
      Propagating(r, pages', Up(r, pages, l, sep), left', seps[mid].key, right')
    ensures Ids(left') + Ids(right') == FrameIds(r.path[l.n-1]) + Ids(left) + Ids(right) + {id}
    ensures left'.id == r.path[l.n-1].node.id && right'.id == id
  {
    hide Good, Ids, Rank, Waiting, FrameOk, Upper, LeafIds, LeftLeaves, RightLeaves, FrameIds, PathOk, PathIds, NewKids,
      LeavesBefore, LeavesAfter, Followed, NodeKeys, NewSeps, InternalFits, OnLevel, Outcome, Fills, StepMode, PushUp,
      SplitPoint, SepKeys;
    var f := r.path[l.n-1];
    ParentFrame(r, pages, l, left, sep, right);
    StepOrder(r, pages, l, left, sep, right);
    LevelUp(r, pages, pages', l, left, sep, right);
    left', right' := StepSplit(r.c, r.m, Left(r, l), pages, pages', f, left, sep, right, id);
    NewSepsKeys(r.c, pages, f, sep, right);
    PrefixIds(r, pages, l, left, sep, right);
    assert id !in PathIds(r.path[..l.n-1]);
  }

  // ---- The end of the run

  /** With nothing handed up, cleanness at the leaf is cleanness of the whole tree. */
  lemma {:induction false} CleanToRoot(c: nat, pages: Pages, path: seq<Frame>, t: Tree, key: Key)
    requires Followed(pages, path, t, key) && Outcome(c, pages, t, key).None?
    ensures Clean(c, pages, Plug(path, t), key) <==> Clean(c, pages, t, key)
    decreases |path|
  {
    hide Rank, Upper, PushUp;
    if path != [] {
      var f := path[|path|-1];
      FollowedPop(pages, path, t, key);
      assert f.node.kids[f.i := t] == f.node.kids;
      assert Refill(f, t) == f.node;
      CleanToRoot(c, pages, path[..|path|-1], f.node, key);
    }
  }

  /** The tree after a settled insert. It is ordered again exactly if the insert was clean. */
  lemma {:induction false} Finish(r: Run, pages: Pages, l: Level, t: Tree, shape: Tree) returns (shape': Tree)
    requires Settled(r, pages, l, t)
    requires Plug(r.path[..l.n], l.was) == shape
    ensures shape'.id == r.root
    ensures Good(r.c, Loose, pages, shape', l.h + l.n, BOTTOM, TOP)
    ensures Ids(shape') == PathIds(r.path[..l.n]) + Ids(t)
    ensures multiset(LeafIds(shape')) == multiset(r.chain)
    ensures !r.m.Loose? ==>
      (Clean(r.c, r.pages0, shape, r.key) <==>
         Good(r.c, r.m, pages, shape', l.h + l.n, BOTTOM, TOP) && LeafIds(shape') == r.chain)
  {
    hide Good, Ids, Rank, FrameOk, Upper, LeafIds, FrameIds, PathIds, LeavesBefore, LeavesAfter, Followed, NodeKeys,
      Outcome, Fills, Clean, PathOk, Plug;
    var path := r.path[..l.n];
    shape' := Plug(path, t);
    if l.ok {
      PlugGood(r.c, r.m, pages, path, r.root, t, l.h, l.lo, l.hi);
      ToLoose(r.c, r.m, pages, shape', l.h + l.n, BOTTOM, TOP, BOTTOM, TOP);
    } else {
      PathToLoose(r.c, r.m, pages, path, r.root);
      PlugGood(r.c, Loose, pages, path, r.root, t, l.h, l.lo, l.hi);
    }
    PlugLeaves(path, t);
    PlugLeafCounts(LeavesBefore(path), LeafIds(t), LeavesAfter(path), l.want);
    if !r.m.Loose? {
      CleanToRoot(r.c, r.pages0, path, l.was, r.key);
      WantedCounts(LeafIds(t), [], l.want) by { assert LeafIds(t) + [] == LeafIds(t); }
      CancelBoth(LeavesBefore(path), LeafIds(t), l.want, LeavesAfter(path));
    }
  }

  lemma PlugLeafCounts(a: seq<PageId>, x: seq<PageId>, z: seq<PageId>, want: seq<PageId>)
    requires multiset(x) == multiset(want)
    ensures multiset(a + x + z) == multiset(a + want + z)
  {
  }

  // ---- The start of a run, at the leaf

  lemma LeafBefore(c: nat, m: Mode, pages: Pages, root: PageId, s: Spot, key: Key)
    requires At(c, m, pages, root, s) && s.t.LeafT? && KeyHere(m, pages, s, key)
    ensures s.t.id in pages && LeafPageOk(c, m, pages[s.t.id], s.lo, s.hi) && s.h == 0
    ensures pages[s.t.id].Leaf? && Sorted(Loose, EntryKeys(pages[s.t.id].entries))
    ensures Within(m, s.lo, Rank(key), s.hi) && (!m.Loose? ==> Within(Weak, s.lo, Rank(key), s.hi))
    ensures Ids(s.t) == {s.t.id} && s.t.id !in PathIds(s.path)
  {
    hide Rank, PathOk, PathIds, Fills, Contents, LeavesBefore, LeavesAfter;
  }

  /** Only the leaf reached has changed: the level of the leaf is as the descent found it. */
  lemma LeafLevel(r: Run, pages: Pages, s: Spot, want: seq<PageId>)
    requires At(r.c, r.m, r.pages0, r.root, s) && s.t.LeafT? && KeyHere(r.m, r.pages0, s, r.key)
    requires Followed(r.pages0, s.path, s.t, r.key) && r.path == s.path
    requires forall x :: x in r.pages0 && x != s.t.id ==> x in pages && pages[x] == r.pages0[x]
    requires multiset(LeavesBefore(s.path) + want + LeavesAfter(s.path)) == multiset(r.chain)
    requires !r.m.Loose? ==> LeavesBefore(s.path) + want + LeavesAfter(s.path) == r.chain
    ensures OnLevel(r, pages, Level(|s.path|, s.t, true, 0, s.lo, s.hi, want))
    ensures Fills(pages, s.path, r.root, s.t.id, 0, s.lo, s.hi) && PathIds(s.path) <= r.pages0.Keys
  {
    hide Rank, PathOk, PathIds, LeavesBefore, LeavesAfter, Followed, Sorted, AllWithin, Short;
    assert s.path[..|s.path|] == s.path;
    LeafBefore(r.c, r.m, r.pages0, r.root, s, r.key);
    PathKnown(r.c, r.m, r.pages0, s.path, r.root);
    PathFrame(r.c, r.m, r.pages0, pages, s.path, r.root);
  }

  /** The leaf took the entry. */
  lemma LeafSettles(r: Run, pages: Pages, s: Spot, e: Entry)
    requires At(r.c, r.m, r.pages0, r.root, s) && s.t.LeafT? && KeyHere(r.m, r.pages0, s, r.key)
    requires Followed(r.pages0, s.path, s.t, r.key) && r.path == s.path
    requires s.t.id in r.pages0 && r.pages0[s.t.id].Leaf?
    requires e.key == r.key && |e.key| <= MaxKeyLen(r.c)
    requires r.m.Strict? ==> forall x :: x in r.pages0[s.t.id].entries ==> x.key != e.key
    requires var es := r.pages0[s.t.id].entries; var es' := InsertAt(es, Upper(EntryKeys(es), e.key), e);
      LeafFits(es', r.c) && pages == r.pages0[s.t.id := Leaf(es', r.pages0[s.t.id].next)]
    requires multiset(LeavesBefore(s.path) + [s.t.id] + LeavesAfter(s.path)) == multiset(r.chain)
    requires !r.m.Loose? ==> LeavesBefore(s.path) + [s.t.id] + LeavesAfter(s.path) == r.chain
    ensures Settled(r, pages, Level(|s.path|, s.t, true, 0, s.lo, s.hi, [s.t.id]), s.t)
  {
    hide Rank, PathOk, PathIds, LeavesBefore, LeavesAfter, Upper, InsertAt, Need, Followed, OnLevel, Fills;
    assert s.path[..|s.path|] == s.path;
    LeafBefore(r.c, r.m, r.pages0, r.root, s, r.key);
    LeafLevel(r, pages, s, [s.t.id]);
    LeafInsertParts(r.c, r.m, r.pages0[s.t.id].entries, e, s.lo, s.hi);
  }

  lemma {:induction false} PathKnown(c: nat, m: Mode, pages: Pages, path: seq<Frame>, root: PageId)
    requires PathOk(c, m, pages, path, root)
    ensures PathIds(path) <= pages.Keys
    decreases |path|
  {
    hide Rank, Fills, Sorted, AllWithin, Short, InternalFits;
    if path != [] {
      var f := path[|path|-1];
      PathKnown(c, m, pages, path[..|path|-1], root);
      FrameKnown(c, m, pages, f);
    }
  }

  lemma FrameKnown(c: nat, m: Mode, pages: Pages, f: Frame)
    requires FrameOk(c, m, pages, f)
    ensures FrameIds(f) <= pages.Keys
  {
    hide Rank, Sorted, AllWithin, Short, InternalFits;
    var keys := NodeKeys(pages, f.node.id);
    forall j | 0 <= j < |f.node.kids| && j != f.i ensures Ids(f.node.kids[j]) <= pages.Keys {
      GoodIds(c, m, pages, f.node.kids[j], f.h - 1, KidLo(keys, j, f.lo), KidHi(keys, j, f.hi));
    }
  }

  /** The leaf overflowed: the split is accepted and its separator goes up. */
  lemma LeafSplits(r: Run, pages: Pages, s: Spot, e: Entry, id: PageId)
    requires r.c >= HEADER + 2 * (DIR_ENTRY + RECORD_ID)
    requires At(r.c, r.m, r.pages0, r.root, s) && s.t.LeafT? && KeyHere(r.m, r.pages0, s, r.key)
    requires Followed(r.pages0, s.path, s.t, r.key) && r.path == s.path
    requires s.t.id in r.pages0 && r.pages0[s.t.id].Leaf? && id !in r.pages0
    requires e.key == r.key && |e.key| <= MaxKeyLen(r.c)
    requires r.m.Strict? ==> forall x :: x in r.pages0[s.t.id].entries ==> x.key != e.key
    requires var es := r.pages0[s.t.id].entries; var es' := InsertAt(es, Upper(EntryKeys(es), e.key), e);
      var mid := SplitPoint(EntryKeys(es'), RECORD_ID, r.c);
      && !LeafFits(es', r.c) && 1 <= mid < |es'| && LeafFits(es'[..mid], r.c) && LeafFits(es'[mid..], r.c)
      && pages == r.pages0[s.t.id := Leaf(es'[..mid], id)][id := Leaf(es'[mid..], r.pages0[s.t.id].next)]
    requires multiset(LeavesBefore(s.path) + [s.t.id, id] + LeavesAfter(s.path)) == multiset(r.chain)
    requires !r.m.Loose? ==> LeavesBefore(s.path) + [s.t.id, id] + LeavesAfter(s.path) == r.chain
    ensures var es := r.pages0[s.t.id].entries; var es' := InsertAt(es, Upper(EntryKeys(es), e.key), e);
      var mid := SplitPoint(EntryKeys(es'), RECORD_ID, r.c);
      Propagating(r, pages, Level(|s.path|, s.t, true, 0, s.lo, s.hi, [s.t.id, id]), s.t, es'[mid].key, LeafT(id))
  {
    hide Rank, PathOk, PathIds, LeavesBefore, LeavesAfter, Upper, InsertAt, Need, Followed, SplitPoint, Short, Sorted,
      MaxKeyLen, Waiting, OnLevel, Fills, At, KeyHere, AllWithin, Outcome, LeafFits, EntryKeys, Fits;
    assert s.path[..|s.path|] == s.path;
    LeafBefore(r.c, r.m, r.pages0, r.root, s, r.key);
    LeafLevel(r, pages, s, [s.t.id, id]);
    var es := r.pages0[s.t.id].entries;
    var es' := InsertAt(es, Upper(EntryKeys(es), e.key), e);
    LeafInsertParts(r.c, r.m, es, e, s.lo, s.hi);
    LeafSplitWaits(r.c, r.m, r.pages0, pages, s.t.id, es', id, s.lo, s.hi, r.key, es, e);
    assert LeafIds(s.t) + LeafIds(LeafT(id)) == [s.t.id, id];
    if !r.m.Loose? {
      SepFromKeys(r.c, r.m, es, e, s.lo, s.hi, SplitPoint(EntryKeys(es'), RECORD_ID, r.c));
    }
  }

  lemma SepFromKeys(c: nat, m: Mode, es: seq<Entry>, e: Entry, lo: real, hi: real, mid: nat)
    requires LeafParts(c, m, InsertAt(es, Upper(EntryKeys(es), e.key), e), lo, hi) && !m.Loose?
    requires mid <= |es|
    ensures Within(Weak, lo, Rank(InsertAt(es, Upper(EntryKeys(es), e.key), e)[mid].key), hi)
  {
    hide Rank, Upper, InsertAt, Sorted, Short;
    var es' := InsertAt(es, Upper(EntryKeys(es), e.key), e);
    assert EntryKeys(es')[mid] == es'[mid].key;
    assert Within(m, lo, Rank(EntryKeys(es')[mid]), hi);
  }

  lemma LeafSplitWaits(c: nat, m: Mode, pages0: Pages, pages: Pages, leaf: PageId, es': seq<Entry>, id: PageId,
                       lo: real, hi: real, key: Key, es: seq<Entry>, e: Entry)
    requires LeafParts(c, m, es', lo, hi) && leaf in pages0 && pages0[leaf].Leaf? && pages0[leaf].entries == es
    requires id !in pages0
    requires e.key == key && es' == InsertAt(es, Upper(EntryKeys(es), key), e)
    requires EntryKeys(es') == InsertAt(EntryKeys(es), Upper(EntryKeys(es), key), key)
    requires var mid := SplitPoint(EntryKeys(es'), RECORD_ID, c);
      && !LeafFits(es', c) && 1 <= mid < |es'| && LeafFits(es'[..mid], c) && LeafFits(es'[mid..], c)
      && pages == pages0[leaf := Leaf(es'[..mid], id)][id := Leaf(es'[mid..], pages0[leaf].next)]
    ensures var mid := SplitPoint(EntryKeys(es'), RECORD_ID, c);
      && Waiting(c, m, pages, LeafT(leaf), es'[mid].key, LeafT(id), 0, lo, hi)
      && Outcome(c, pages0, LeafT(leaf), key) == Some(es'[mid].key)
  {
    hide Rank, Upper, InsertAt, Need, SplitPoint, Sorted, AllWithin, MaxKeyLen;
    var mid := SplitPoint(EntryKeys(es'), RECORD_ID, c);
    LeafSplitParts(c, m, es', mid, lo, hi);
    assert EntryKeys(es')[mid] == es'[mid].key;
  }

  /** An entry too many for a leaf that fitted: the split of the leaf is accepted. */
  lemma LeafSplitAccepted(c: nat, m: Mode, page: Node, e: Entry, lo: real, hi: real)
    requires c >= HEADER + 2 * (DIR_ENTRY + RECORD_ID)
    requires LeafPageOk(c, m, page, lo, hi) && |e.key| <= MaxKeyLen(c)
    requires !LeafFits(InsertAt(page.entries, Upper(EntryKeys(page.entries), e.key), e), c)
    ensures var es' := InsertAt(page.entries, Upper(EntryKeys(page.entries), e.key), e);
      var mid := SplitPoint(EntryKeys(es'), RECORD_ID, c);
      1 <= mid < |es'| && LeafFits(es'[..mid], c) && LeafFits(es'[mid..], c)
  {
    hide Rank, Upper, Need, SplitFrom, Sorted, AllWithin, MaxKeyLen;
    var keys := EntryKeys(page.entries);
    var p := Upper(keys, e.key);
    var es' := InsertAt(page.entries, p, e);
    assert EntryKeys(es') == InsertAt(keys, p, e.key);
    SplitInserted(keys, p, e.key, RECORD_ID, c);
    var mid := SplitPoint(EntryKeys(es'), RECORD_ID, c);
    assert EntryKeys(es'[..mid]) == EntryKeys(es')[..mid];
    assert EntryKeys(es'[mid..]) == EntryKeys(es')[mid..];
  }

  /** A separator too many for a node that fitted: the split of the node is accepted. */
  lemma InnerSplitAccepted(c: nat, m: Mode, pages: Pages, f: Frame, sep: Key, right: Tree)
    requires c >= HEADER + 2 * (DIR_ENTRY + RECORD_ID)
    requires FrameOk(c, m, pages, f) && |sep| <= MaxKeyLen(c)
    requires !InternalFits(NewSeps(pages, f, sep, right), c)
    ensures var seps := NewSeps(pages, f, sep, right); var mid := SplitPoint(SepKeys(seps), CHILD_ID, c);
      1 <= mid < |seps| && InternalFits(seps[..mid], c) && InternalFits(seps[mid+1..], c)
  {
    hide Rank, Good, Need, SplitFrom, Sorted, AllWithin, MaxKeyLen, NewSeps, InternalFits, FrameOk, SplitPoint, Upper,
      SepKeys, NodeKeys, InsertAt;
    FrameKeys(c, m, pages, f);
    NewSepsKeys(c, pages, f, sep, right);
    StepSplitPoint(c, NodeKeys(pages, f.node.id), sep, NewSeps(pages, f, sep, right));
  }

  /** The tree after the root itself has split: one level higher, in the old order exactly if the
      insert was clean. A root that was a leaf has moved to page `id`, and the chain with it. */
  lemma {:induction false} FinishGrown(r: Run, pages: Pages, pages': Pages, l: Level, left: Tree, sep: Key, right: Tree,
                                       id: PageId, shape: Tree)
    returns (shape': Tree, chain': seq<PageId>)
    requires r.c >= HEADER + 2 * (DIR_ENTRY + RECORD_ID)
    requires Propagating(r, pages, l, left, sep, right) && l.n == 0 && l.was == shape && id !in pages && id != 0
    requires pages' == pages[id := pages[r.root]][r.root := Internal(id, [Separator(sep, right.id)])]
    requires Chained(pages, r.chain) && (l.h == 0 ==> left.LeafT? && right.LeafT? && r.chain == [left.id, right.id])
    ensures InternalFits([Separator(sep, right.id)], r.c) && shape'.id == r.root
    ensures Good(r.c, Loose, pages', shape', l.h + 1, BOTTOM, TOP)
    ensures Ids(shape') == Ids(left) + Ids(right) + {id}
    ensures Chained(pages', chain') && Contents(pages', chain') == Contents(pages, r.chain)
    ensures SameLeaves(pages, r.chain, pages', chain', r.root)
    ensures multiset(LeafIds(shape')) == multiset(chain')
    ensures !r.m.Loose? ==>
      (Clean(r.c, r.pages0, shape, r.key) <==>
         Good(r.c, r.m, pages', shape', l.h + 1, BOTTOM, TOP) && LeafIds(shape') == chain')
  {
    hide Good, Rank, Clean, Contents, InternalFits, Chained, Propagating, LeafIds, Ids;
    RootLevel(r, pages, l, left, sep, right);
    WaitingGood(r, pages, l, left, sep, right);
    shape' := GrowGood(r.c, Left(r, l), pages, pages', left, sep, right, l.h, id);
    if l.ok { ToLoose(r.c, r.m, pages', shape', l.h + 1, BOTTOM, TOP, BOTTOM, TOP); }
    chain' := GrownLeaves(pages, pages', r.chain, left, right, id, Internal(id, [Separator(sep, right.id)]));
  }

  lemma {:induction false} GrownLeaves(pages: Pages, pages': Pages, chain: seq<PageId>, left: Tree, right: Tree,
                                       id: PageId, node: Node) returns (chain': seq<PageId>)
    requires Chained(pages, chain) && id !in pages && id != 0 && left.id in pages
    requires pages' == pages[id := pages[left.id]][left.id := node]
    requires left.NodeT? ==> pages[left.id].Internal?
    requires left.LeafT? ==> right.LeafT? && chain == [left.id, right.id]
    requires multiset(LeafIds(left) + LeafIds(right)) == multiset(chain)
    ensures Chained(pages', chain') && Contents(pages', chain') == Contents(pages, chain)
    ensures SameLeaves(pages, chain, pages', chain', left.id)
    ensures multiset(LeafIds(Renamed(left, id)) + LeafIds(right)) == multiset(chain')
    ensures LeafIds(Renamed(left, id)) + LeafIds(right) == chain' <==> LeafIds(left) + LeafIds(right) == chain
  {
    hide Contents, LeafIds, Chained;
    if left.LeafT? {
      chain' := [id, right.id];
      GrownChain(pages, pages', left.id, right.id, id, node);
      TwoApart(pages, left.id, right.id);
      OneLeaf(left.id);
      OneLeaf(right.id);
      OneLeaf(id);
    } else {
      chain' := chain;
      RootNotOnChain(pages, chain, left.id);
      ChainAvoids(pages, chain, id);
      ChainFrame(pages, pages', chain);
      assert forall i :: 0 <= i < |chain| ==> chain[i] in chain;
      NodeLeaves(left.id, left.kids);
      NodeLeaves(id, left.kids);
    }
  }

  lemma TwoApart(pages: Pages, left: PageId, right: PageId)
    requires Chained(pages, [left, right])
    ensures left in pages && right in pages && left != right
  {
    var chain := [left, right];
    assert chain[0] != chain[1] && chain[1] in pages;
  }

  lemma OneLeaf(id: PageId)
    ensures LeafIds(LeafT(id)) == [id]
  {
  }

  lemma RootLevel(r: Run, pages: Pages, l: Level, left: Tree, sep: Key, right: Tree)
    requires Propagating(r, pages, l, left, sep, right) && l.n == 0
    ensures left.id == r.root && l.lo == BOTTOM && l.hi == TOP
    ensures Waiting(r.c, Left(r, l), pages, left, sep, right, l.h, BOTTOM, TOP)
    ensures multiset(LeafIds(left) + LeafIds(right)) == multiset(r.chain)
    ensures !r.m.Loose? ==>
      (Clean(r.c, r.pages0, l.was, r.key) <==> l.ok) && (l.ok <==> LeafIds(left) + LeafIds(right) == r.chain)
  {
    hide Waiting, Rank, PathOk, PathIds, LeafIds, Clean, Outcome, Agree, Followed;
    assert r.path[..0] == [];
    assert LeavesBefore([]) == [] && LeavesAfter([]) == [];
    assert [] + l.want + [] == l.want;
  }

  lemma WaitingGood(r: Run, pages: Pages, l: Level, left: Tree, sep: Key, right: Tree)
    requires Propagating(r, pages, l, left, sep, right)
    ensures Good(r.c, Left(r, l), pages, left, l.h, l.lo, Rank(sep))
    ensures left.NodeT? <==> l.h > 0
    ensures left.NodeT? ==> pages[left.id].Internal?
    ensures left.id in pages
  {
    hide Rank, OnLevel, Fills;
  }

  lemma RootNotOnChain(pages: Pages, chain: seq<PageId>, root: PageId)
    requires Chained(pages, chain) && root in pages && pages[root].Internal?
    ensures root !in chain
  {
  }

  lemma ChainAvoids(pages: Pages, chain: seq<PageId>, id: PageId)
    requires Chained(pages, chain) && id !in pages
    ensures id !in chain && forall x :: x in chain ==> x in pages
  {
  }

  lemma TwoLeaves(pages: Pages, a: PageId, b: PageId)
    requires a in pages && b in pages && pages[a].Leaf? && pages[b].Leaf?
    ensures Contents(pages, [a, b]) == pages[a].entries + pages[b].entries
  {
    assert [a, b][1..] == [b] && [b][1..] == [];
    assert Contents(pages, [b]) == pages[b].entries + Contents(pages, [b][1..]);
  }

  lemma GrownChain(pages: Pages, pages': Pages, root: PageId, right: PageId, id: PageId, node: Node)
    requires Chained(pages, [root, right]) && id !in pages && id != 0 && root in pages
    requires pages' == pages[id := pages[root]][root := node]
    ensures Chained(pages', [id, right]) && Contents(pages', [id, right]) == Contents(pages, [root, right])
  {
    hide Contents;
    var chain := [root, right];
    assert chain[0] != chain[1] && chain[1] in pages;
    assert pages[chain[0]].next == right && pages[chain[1]].next == 0;
    TwoLeaves(pages, root, right);
    TwoLeaves(pages', id, right);
  }
}
