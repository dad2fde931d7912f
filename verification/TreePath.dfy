/** Taking a tree apart along the path of a descent, and putting it back together
    around a replaced subtree. */
module TreePath {
  import opened PageIds
  import opened KeyOrder
  import opened PageLayout
  import opened TreeShape

  /** One internal node on a path: its height and bounds, and the child the path takes. */
  datatype AnyFrame = Frame(node: Tree, i: nat, h: nat, lo: real, hi: real)

  type Frame = f: AnyFrame | f.node.NodeT? && f.i < |f.node.kids|
    witness Frame(NodeT(0, [LeafT(0)]), 0, 0, 0.0, 0.0)

  ghost function OtherIds(id: PageId, kids: seq<Tree>, i: nat): set<PageId> {
    {id} + set j, x | 0 <= j < |kids| && j != i && x in Ids(kids[j]) :: x
  }

  ghost predicate OthersApart(id: PageId, kids: seq<Tree>, i: nat) {
    && (forall j :: 0 <= j < |kids| && j != i ==> id !in Ids(kids[j]))
    && (forall j, k :: 0 <= j < k < |kids| && j != i && k != i ==> Ids(kids[j]) !! Ids(kids[k]))
  }

  /** The pages of a node and of all its children but the one on the path. */
  ghost function FrameIds(f: Frame): set<PageId> {
    OtherIds(f.node.id, f.node.kids, f.i)
  }

  ghost function NodeKeys(pages: Pages, id: PageId): seq<Key> {
    if id in pages && pages[id].Internal? then SepKeys(pages[id].seps) else []
  }

  ghost predicate OthersGood(c: nat, m: Mode, pages: Pages, keys: seq<Key>, kids: seq<Tree>, i: nat, h: nat, lo: real,
                             hi: real)
    requires |kids| == |keys| + 1
  {
    forall j :: 0 <= j < |kids| && j != i ==> Good(c, m, pages, kids[j], h, KidLo(keys, j, lo), KidHi(keys, j, hi))
  }

  /** Everything a node keeps except for the child the path goes through. */
  ghost predicate FrameOk(c: nat, m: Mode, pages: Pages, f: Frame) {
    && f.h > 0 && f.node.id in pages
    && InnerPageOk(c, m, pages[f.node.id], f.node.kids, f.lo, f.hi)
    && OthersApart(f.node.id, f.node.kids, f.i)
    && OthersGood(c, m, pages, NodeKeys(pages, f.node.id), f.node.kids, f.i, f.h - 1, f.lo, f.hi)
  }

  ghost function HoleLo(pages: Pages, f: Frame): real
    requires f.i <= |NodeKeys(pages, f.node.id)|
  {
    KidLo(NodeKeys(pages, f.node.id), f.i, f.lo)
  }

  ghost function HoleHi(pages: Pages, f: Frame): real
    requires f.i <= |NodeKeys(pages, f.node.id)|
  {
    KidHi(NodeKeys(pages, f.node.id), f.i, f.hi)
  }

  const BOTTOM := -1.0
  const TOP := 2.0

  /** Where a subtree of this id, height and bounds may stand: below the last frame, or at the root. */
  ghost predicate Fills(pages: Pages, path: seq<Frame>, root: PageId, id: PageId, h: nat, lo: real, hi: real) {
    if path == [] then id == root && lo == BOTTOM && hi == TOP
    else
      var f := path[|path|-1];
      && f.i <= |NodeKeys(pages, f.node.id)|
      && h == f.h - 1 && id == f.node.kids[f.i].id && lo == HoleLo(pages, f) && hi == HoleHi(pages, f)
  }

  /** The frames of a path are nested one below the other and have no page in common. */
  ghost predicate PathOk(c: nat, m: Mode, pages: Pages, path: seq<Frame>, root: PageId) {
    path != [] ==>
      var n := |path| - 1;
      var f := path[n];
      && PathOk(c, m, pages, path[..n], root)
      && FrameOk(c, m, pages, f)
      && Fills(pages, path[..n], root, f.node.id, f.h, f.lo, f.hi)
      && FrameIds(f) !! PathIds(path[..n])
  }

  ghost function PathIds(path: seq<Frame>): set<PageId> {
    if path == [] then {} else PathIds(path[..|path|-1]) + FrameIds(path[|path|-1])
  }

  /** The node of the last frame with `t` as the child on the path. */
  ghost function Refill(f: Frame, t: Tree): Tree {
    NodeT(f.node.id, f.node.kids[f.i := t])
  }

  /** The tree obtained by putting `t` at the end of the path. */
  ghost function Plug(path: seq<Frame>, t: Tree): Tree {
    if path == [] then t else Plug(path[..|path|-1], Refill(path[|path|-1], t))
  }

  /** Leaves left of the child on the path. */
  ghost function LeftLeaves(f: Frame): seq<PageId> {
    ForestLeaves(f.node.kids[..f.i])
  }

  /** Leaves right of the child on the path. */
  ghost function RightLeaves(f: Frame): seq<PageId> {
    ForestLeaves(f.node.kids[f.i+1..])
  }

  /** Leaves left of the end of the path. */
  ghost function LeavesBefore(path: seq<Frame>): seq<PageId> {
    if path == [] then [] else LeavesBefore(path[..|path|-1]) + LeftLeaves(path[|path|-1])
  }

  /** Leaves right of the end of the path. */
  ghost function LeavesAfter(path: seq<Frame>): seq<PageId> {
    if path == [] then [] else RightLeaves(path[|path|-1]) + LeavesAfter(path[..|path|-1])
  }

  lemma SplitIds(id: PageId, kids: seq<Tree>, i: nat)
    requires Apart(id, kids) && i < |kids|
    ensures OthersApart(id, kids, i)
    ensures OtherIds(id, kids, i) !! Ids(kids[i])
    ensures OtherIds(id, kids, i) + Ids(kids[i]) == Ids(NodeT(id, kids))
  {
  }

  lemma SpliceIds(id: PageId, kids: seq<Tree>, i: nat, t: Tree)
    requires OthersApart(id, kids, i) && i < |kids|
    requires OtherIds(id, kids, i) !! Ids(t)
    ensures Apart(id, kids[i := t])
    ensures Ids(NodeT(id, kids[i := t])) == OtherIds(id, kids, i) + Ids(t)
  {
    var kids' := kids[i := t];
    assert forall j :: 0 <= j < |kids| && j != i ==> kids'[j] == kids[j] && Ids(kids[j]) <= OtherIds(id, kids, i);
    assert kids'[i] == t;
    assert OtherIds(id, kids', i) == OtherIds(id, kids, i);
    assert Apart(id, kids');
    SplitIds(id, kids', i);
  }

  /** A good internal node is a frame around its good child. */
  lemma {:induction false} Unzip(c: nat, m: Mode, pages: Pages, t: Tree, h: nat, lo: real, hi: real, i: nat)
    returns (f: Frame)
    requires Good(c, m, pages, t, h, lo, hi) && t.NodeT? && i < |t.kids|
    ensures f == Frame(t, i, h, lo, hi) && FrameOk(c, m, pages, f)
    ensures Good(c, m, pages, t.kids[i], h - 1, HoleLo(pages, f), HoleHi(pages, f))
    ensures FrameIds(f) !! Ids(t.kids[i]) && FrameIds(f) + Ids(t.kids[i]) == Ids(t)
    ensures Refill(f, t.kids[i]) == t
  {
    hide Rank, InnerPageOk, Apart, KidLo, KidHi;
    InnerLen(c, m, pages[t.id], t.kids, lo, hi);
    f := Frame(t, i, h, lo, hi);
    SplitIds(t.id, t.kids, i);
  }

  /** A good subtree completes the frame above it. */
  lemma Zip(c: nat, m: Mode, pages: Pages, f: Frame, t: Tree)
    requires FrameOk(c, m, pages, f)
    requires Good(c, m, pages, t, f.h - 1, HoleLo(pages, f), HoleHi(pages, f))
    requires t.id == f.node.kids[f.i].id && Ids(t) !! FrameIds(f)
    ensures Good(c, m, pages, Refill(f, t), f.h, f.lo, f.hi)
    ensures Ids(Refill(f, t)) == FrameIds(f) + Ids(t)
  {
    hide Rank, Apart, OthersApart, Ids, InnerPageOk, Good;
    var kids := f.node.kids[f.i := t];
    InnerLen(c, m, pages[f.node.id], f.node.kids, f.lo, f.hi);
    SpliceIds(f.node.id, f.node.kids, f.i, t);
    RefillPage(c, m, pages[f.node.id], f.node.kids, f.i, t, f.lo, f.hi);
    assert KidsGood(c, m, pages, NodeKeys(pages, f.node.id), kids, f.h - 1, f.lo, f.hi);
    GoodNode(c, m, pages, NodeT(f.node.id, kids), f.h, f.lo, f.hi);
  }

  lemma RefillPage(c: nat, m: Mode, page: Node, kids: seq<Tree>, i: nat, t: Tree, lo: real, hi: real)
    requires InnerPageOk(c, m, page, kids, lo, hi) && i < |kids| && t.id == kids[i].id
    ensures InnerPageOk(c, m, page, kids[i := t], lo, hi)
  {
    hide Rank, Sorted, AllWithin, Short, InternalFits;
  }

  /** Going down one level of the tree. */
  lemma {:induction false} Descend(c: nat, m: Mode, pages: Pages, path: seq<Frame>, root: PageId, t: Tree, h: nat,
                                   lo: real, hi: real, i: nat)
    returns (f: Frame)
    requires PathOk(c, m, pages, path, root)
    requires Good(c, m, pages, t, h, lo, hi) && t.NodeT? && i < |t.kids|
    requires Fills(pages, path, root, t.id, h, lo, hi)
    requires PathIds(path) !! Ids(t)
    ensures f == Frame(t, i, h, lo, hi)
    ensures PathOk(c, m, pages, path + [f], root)
    ensures f.i <= |NodeKeys(pages, t.id)|
    ensures Fills(pages, path + [f], root, t.kids[i].id, h - 1, HoleLo(pages, f), HoleHi(pages, f))
    ensures Good(c, m, pages, t.kids[i], h - 1, HoleLo(pages, f), HoleHi(pages, f))
    ensures PathIds(path + [f]) !! Ids(t.kids[i])
    ensures PathIds(path + [f]) + Ids(t.kids[i]) == PathIds(path) + Ids(t)
    ensures Plug(path + [f], t.kids[i]) == Plug(path, t)
    ensures LeavesBefore(path + [f]) == LeavesBefore(path) + LeftLeaves(f)
    ensures LeavesAfter(path + [f]) == RightLeaves(f) + LeavesAfter(path)
  {
    hide Rank, Good, Ids, FrameIds, FrameOk, Refill;
    f := Unzip(c, m, pages, t, h, lo, hi, i);
    assert (path + [f])[..|path|] == path;
    FrameNode(c, m, pages, f);
  }

  /** A frame does not depend on pages outside it. */
  lemma FrameFrame(c: nat, m: Mode, pages: Pages, pages': Pages, f: Frame)
    requires FrameOk(c, m, pages, f)
    requires Agree(pages, pages', FrameIds(f))
    ensures FrameOk(c, m, pages', f)
    ensures NodeKeys(pages', f.node.id) == NodeKeys(pages, f.node.id)
  {
    hide Rank, InnerPageOk, OthersApart, KidLo, KidHi, Good, Ids;
    assert f.node.id in FrameIds(f);
    InnerLen(c, m, pages[f.node.id], f.node.kids, f.lo, f.hi);
    var keys := NodeKeys(pages, f.node.id);
    forall j | 0 <= j < |f.node.kids| && j != f.i
      ensures Good(c, m, pages', f.node.kids[j], f.h - 1, KidLo(keys, j, f.lo), KidHi(keys, j, f.hi))
    {
      assert Ids(f.node.kids[j]) <= FrameIds(f);
      GoodFrame(c, m, pages, pages', f.node.kids[j], f.h - 1, KidLo(keys, j, f.lo), KidHi(keys, j, f.hi));
    }
  }

  /** A path does not depend on pages outside it. */
  lemma {:induction false} PathFrame(c: nat, m: Mode, pages: Pages, pages': Pages, path: seq<Frame>, root: PageId)
    requires PathOk(c, m, pages, path, root)
    requires Agree(pages, pages', PathIds(path))
    ensures PathOk(c, m, pages', path, root)
    ensures path != [] ==> NodeKeys(pages', path[|path|-1].node.id) == NodeKeys(pages, path[|path|-1].node.id)
    decreases |path|
  {
    hide FrameOk, FrameIds, Rank, NodeKeys;
    if path != [] {
      var n := |path| - 1;
      PathFrame(c, m, pages, pages', path[..n], root);
      FrameFrame(c, m, pages, pages', path[n]);
    }
  }

  lemma FrameNode(c: nat, m: Mode, pages: Pages, f: Frame)
    requires FrameOk(c, m, pages, f)
    ensures |NodeKeys(pages, f.node.id)| == |f.node.kids| - 1
  {
  }

  /** Putting a good subtree with the old id at the end of a path gives a good tree. */
  lemma {:induction false} PlugGood(c: nat, m: Mode, pages: Pages, path: seq<Frame>, root: PageId,
                                    t: Tree, h: nat, lo: real, hi: real)
    requires PathOk(c, m, pages, path, root)
    requires Fills(pages, path, root, t.id, h, lo, hi)
    requires Good(c, m, pages, t, h, lo, hi)
    requires PathIds(path) !! Ids(t)
    ensures Good(c, m, pages, Plug(path, t), h + |path|, BOTTOM, TOP)
    ensures Plug(path, t).id == root
    ensures Ids(Plug(path, t)) == PathIds(path) + Ids(t)
    decreases |path|
  {
    hide FrameOk, FrameIds, Good, Ids, Rank;
    if path != [] {
      var n := |path| - 1;
      var f := path[n];
      Zip(c, m, pages, f, t);
      PlugGood(c, m, pages, path[..n], root, Refill(f, t), f.h, f.lo, f.hi);
    }
  }

  lemma {:induction false} PlugLeaves(path: seq<Frame>, t: Tree)
    ensures LeafIds(Plug(path, t)) == LeavesBefore(path) + LeafIds(t) + LeavesAfter(path)
    decreases |path|
  {
    if path != [] {
      var n := |path| - 1;
      var f := path[n];
      hide LeafIds, ForestLeaves, LeftLeaves, RightLeaves, Refill;
      PlugLeaves(path[..n], Refill(f, t));
      RefillLeaves(f, t);
    }
  }

  lemma RefillLeaves(f: Frame, t: Tree)
    ensures LeafIds(Refill(f, t)) == LeftLeaves(f) + LeafIds(t) + RightLeaves(f)
  {
    var kids := f.node.kids[f.i := t];
    assert LeafIds(Refill(f, t)) == ForestLeaves(kids);
    hide ForestLeaves, LeafIds;
    ForestLeavesAt(kids, f.i);
    assert kids[..f.i] == f.node.kids[..f.i] && kids[f.i+1..] == f.node.kids[f.i+1..];
  }

  // ---- A place in the tree

  /** A subtree together with the path that leads to it. */
  datatype Spot = Spot(path: seq<Frame>, t: Tree, h: nat, lo: real, hi: real)

  ghost predicate At(c: nat, m: Mode, pages: Pages, root: PageId, s: Spot) {
    && Good(c, m, pages, s.t, s.h, s.lo, s.hi)
    && PathOk(c, m, pages, s.path, root)
    && Fills(pages, s.path, root, s.t.id, s.h, s.lo, s.hi)
    && PathIds(s.path) !! Ids(s.t)
  }

  /** Child `i` of the subtree, one level down. */
  ghost function Down(pages: Pages, s: Spot, i: nat): Spot
    requires s.t.NodeT? && i < |s.t.kids| && i <= |NodeKeys(pages, s.t.id)| && s.h > 0
  {
    var f := Frame(s.t, i, s.h, s.lo, s.hi);
    Spot(s.path + [f], s.t.kids[i], s.h - 1, HoleLo(pages, f), HoleHi(pages, f))
  }

  lemma GoDown(c: nat, m: Mode, pages: Pages, root: PageId, s: Spot, i: nat)
    requires At(c, m, pages, root, s) && s.t.NodeT? && i < |s.t.kids|
    ensures s.h > 0 && |NodeKeys(pages, s.t.id)| + 1 == |s.t.kids|
    ensures var s' := Down(pages, s, i);
      && At(c, m, pages, root, s')
      && PathIds(s'.path) + Ids(s'.t) == PathIds(s.path) + Ids(s.t)
      && Plug(s'.path, s'.t) == Plug(s.path, s.t)
      && LeavesBefore(s'.path) == LeavesBefore(s.path) + ForestLeaves(s.t.kids[..i])
      && LeavesAfter(s'.path) == ForestLeaves(s.t.kids[i+1..]) + LeavesAfter(s.path)
  {
    hide Good, Rank, Ids, PathOk, FrameIds, Plug, LeavesBefore, LeavesAfter, PathIds;
    NodeFacts(c, m, pages, s.t, s.h, s.lo, s.hi);
    var f := Descend(c, m, pages, s.path, root, s.t, s.h, s.lo, s.hi, i);
  }

  lemma NodeFacts(c: nat, m: Mode, pages: Pages, t: Tree, h: nat, lo: real, hi: real)
    requires Good(c, m, pages, t, h, lo, hi)
    ensures t.id in pages && t.id in Ids(t)
    ensures t.LeafT? ==> h == 0 && pages[t.id].Leaf? && Sorted(Loose, EntryKeys(pages[t.id].entries))
    ensures t.NodeT? ==>
      && h > 0 && pages[t.id].Internal? && NodeKeys(pages, t.id) == SepKeys(pages[t.id].seps)
      && |NodeKeys(pages, t.id)| + 1 == |t.kids| && Sorted(Loose, NodeKeys(pages, t.id))
      && pages[t.id].leftmost == t.kids[0].id
      && forall i :: 0 < i < |t.kids| ==> pages[t.id].seps[i-1].child == t.kids[i].id
  {
    hide Rank;
  }

  lemma {:induction false} PathNode(c: nat, m: Mode, pages: Pages, path: seq<Frame>, root: PageId, d: nat)
    requires PathOk(c, m, pages, path, root) && d < |path|
    ensures path[d].node.id in PathIds(path)
    ensures PathOk(c, m, pages, path[..d], root) && FrameOk(c, m, pages, path[d])
    ensures path[d].node.id !in PathIds(path[..d]) && PathIds(path[..d]) <= PathIds(path)
    ensures Fills(pages, path[..d], root, path[d].node.id, path[d].h, path[d].lo, path[d].hi)
    decreases |path|
  {
    hide FrameOk, Rank, Fills;
    var n := |path| - 1;
    if d < n {
      PathNode(c, m, pages, path[..n], root, d);
      assert path[..n][..d] == path[..d] && path[..n][d] == path[d];
    }
  }

  lemma FrameToLoose(c: nat, m: Mode, pages: Pages, f: Frame)
    requires FrameOk(c, m, pages, f)
    ensures FrameOk(c, Loose, pages, f)
  {
    hide Rank, InnerPageOk, KidLo, KidHi, OthersApart, Good;
    InnerLen(c, m, pages[f.node.id], f.node.kids, f.lo, f.hi);
    InnerToLoose(c, m, pages[f.node.id], f.node.kids, f.lo, f.hi, f.lo, f.hi);
    var keys := NodeKeys(pages, f.node.id);
    forall j | 0 <= j < |f.node.kids| && j != f.i
      ensures Good(c, Loose, pages, f.node.kids[j], f.h - 1, KidLo(keys, j, f.lo), KidHi(keys, j, f.hi))
    {
      ToLoose(c, m, pages, f.node.kids[j], f.h - 1, KidLo(keys, j, f.lo), KidHi(keys, j, f.hi), KidLo(keys, j, f.lo),
              KidHi(keys, j, f.hi));
    }
  }

  /** Without key bounds a path is still a path. */
  lemma {:induction false} PathToLoose(c: nat, m: Mode, pages: Pages, path: seq<Frame>, root: PageId)
    requires PathOk(c, m, pages, path, root)
    ensures PathOk(c, Loose, pages, path, root)
    decreases |path|
  {
    hide FrameOk, FrameIds, Rank, Fills;
    if path != [] {
      var n := |path| - 1;
      PathToLoose(c, m, pages, path[..n], root);
      FrameToLoose(c, m, pages, path[n]);
    }
  }
}
