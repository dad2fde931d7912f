/** When a split keeps the leaves of the tree in the order of the leaf chain. */
module TreeAlign {
  import opened Options
  import opened PageIds
  import opened KeyOrder
  import opened PageLayout
  import opened TreeShape
  import opened TreePath
  import opened TreeInsert

  /** The key that inserting `key` into a page of these keys pushes up, if the page overflows. */
  ghost function PushUp(c: nat, keys: seq<Key>, key: Key, trailer: nat): Option<Key> {
    var keys' := InsertAt(keys, Upper(keys, key), key);
    if Fits(keys', trailer, c) then None
    else
      var mid := SplitPoint(keys', trailer, c);
      if mid < |keys'| then Some(keys'[mid]) else None
  }

  /** The separator that inserting `key` below `t` hands to the parent of `t`, if any. */
  ghost function Outcome(c: nat, pages: Pages, t: Tree, key: Key): Option<Key> {
    match t
    case LeafT(id) =>
      if id in pages && pages[id].Leaf? then PushUp(c, EntryKeys(pages[id].entries), key, RECORD_ID) else None
    case NodeT(id, kids) =>
      var keys := NodeKeys(pages, id);
      var i := Upper(keys, key);
      if i >= |kids| then None
      else
        match Outcome(c, pages, kids[i], key)
        case None => None
        case Some(sep) => PushUp(c, keys, sep, CHILD_ID)
  }

  /** No separator handed up on the way equals the separator right of the child it comes from. */
  ghost predicate Clean(c: nat, pages: Pages, t: Tree, key: Key) {
    match t
    case LeafT(_) => true
    case NodeT(id, kids) =>
      var keys := NodeKeys(pages, id);
      var i := Upper(keys, key);
      i < |kids| ==>
        && Clean(c, pages, kids[i], key)
        && match Outcome(c, pages, kids[i], key)
           case None => true
           case Some(sep) => i == |keys| || Rank(sep) != Rank(keys[i])
  }

  // ---- The descent of an insert

  /** The spot was reached by following `key`, from the root or from an earlier spot. */
  ghost predicate Followed(pages: Pages, path: seq<Frame>, t: Tree, key: Key) {
    && (forall d :: 0 <= d < |path| ==> path[d].i == Upper(NodeKeys(pages, path[d].node.id), key))
    && (forall d, e :: 0 <= d < e < |path| && e == d + 1 ==> path[d].node.kids[path[d].i] == path[e].node)
    && (path != [] ==> var f := path[|path|-1]; f.node.kids[f.i] == t)
  }

  /** The key belongs between the bounds of the spot, and everything outside is on its own side. */
  ghost predicate KeyHere(m: Mode, pages: Pages, s: Spot, key: Key) {
    !m.Loose? ==>
      && s.lo <= Rank(key) < s.hi
      && (forall e :: e in Contents(pages, LeavesBefore(s.path)) ==> Rank(e.key) <= Rank(key))
      && (forall e :: e in Contents(pages, LeavesAfter(s.path)) ==> Rank(key) < Rank(e.key))
  }

  lemma FollowedPush(pages: Pages, path: seq<Frame>, f: Frame, t: Tree, key: Key)
    requires Followed(pages, path, f.node, key) && f.i == Upper(NodeKeys(pages, f.node.id), key)
    requires t == f.node.kids[f.i]
    ensures Followed(pages, path + [f], t, key)
  {
    hide Upper, NodeKeys, Rank;
    var path' := path + [f];
    forall d | 0 <= d < |path'| ensures path'[d].i == Upper(NodeKeys(pages, path'[d].node.id), key) {
      if d < |path| { assert path'[d] == path[d]; }
    }
    forall d, e | 0 <= d < e < |path'| && e == d + 1 ensures path'[d].node.kids[path'[d].i] == path'[e].node {
      assert path'[d] == path[d];
      if e < |path| { assert path'[e] == path[e]; }
    }
  }

  lemma FollowDown(c: nat, m: Mode, pages: Pages, root: PageId, s: Spot, key: Key)
    requires At(c, m, pages, root, s) && s.t.NodeT? && KeyHere(m, pages, s, key) && Followed(pages, s.path, s.t, key)
    ensures s.h > 0 && |NodeKeys(pages, s.t.id)| + 1 == |s.t.kids|
    ensures var s' := Down(pages, s, Upper(NodeKeys(pages, s.t.id), key));
      At(c, m, pages, root, s') && KeyHere(m, pages, s', key) && Followed(pages, s'.path, s'.t, key)
  {
    hide Good, Ids, PathOk, FrameIds, Plug, LeavesBefore, LeavesAfter, PathIds, Upper, Rank, Contents, Fills, LeafIds,
      ForestLeaves, Followed;
    NodeFacts(c, m, pages, s.t, s.h, s.lo, s.hi);
    var i := Upper(NodeKeys(pages, s.t.id), key);
    GoDown(c, m, pages, root, s, i);
    FollowedPush(pages, s.path, Frame(s.t, i, s.h, s.lo, s.hi), s.t.kids[i], key);
    if !m.Loose? {
      SiblingBounds(c, m, pages, s.t, s.h, s.lo, s.hi, i);
      ContentsConcat(pages, LeavesBefore(s.path), ForestLeaves(s.t.kids[..i]));
      ContentsConcat(pages, ForestLeaves(s.t.kids[i+1..]), LeavesAfter(s.path));
      if i == 0 { assert s.t.kids[..i] == []; NoLeaves(pages); }
    }
  }

  lemma NoLeaves(pages: Pages)
    ensures Contents(pages, ForestLeaves([])) == []
  {
  }

  /** The leaves between the split child and place `p`. */
  ghost function MidLeaves(f: Frame, p: nat): seq<PageId>
    requires f.i <= p < |f.node.kids|
  {
    ForestLeaves(f.node.kids[f.i+1..p+1])
  }

  ghost function EndLeaves(f: Frame, p: nat): seq<PageId>
    requires p < |f.node.kids|
  {
    ForestLeaves(f.node.kids[p+1..])
  }

  lemma RightLeavesCut(f: Frame, p: nat)
    requires f.i <= p < |f.node.kids|
    ensures RightLeaves(f) == MidLeaves(f, p) + EndLeaves(f, p)
  {
    hide ForestLeaves, LeafIds;
    var rest := f.node.kids[f.i+1..];
    ForestLeavesCut(rest, p - f.i);
    assert rest[..p-f.i] == f.node.kids[f.i+1..p+1] && rest[p-f.i..] == f.node.kids[p+1..];
  }

  lemma NewKidsLeaves(f: Frame, p: nat, left: Tree, right: Tree)
    requires f.i <= p < |f.node.kids|
    ensures ForestLeaves(NewKids(f, p, left, right)) ==
      LeftLeaves(f) + LeafIds(left) + MidLeaves(f, p) + LeafIds(right) + EndLeaves(f, p)
  {
    hide ForestLeaves, LeafIds;
    var old1 := f.node.kids[f.i := left];
    var kids := NewKids(f, p, left, right);
    ForestLeavesAt(kids, p + 1);
    assert kids[p+2..] == f.node.kids[p+1..];
    var a := kids[..p+1];
    assert a == old1[..p+1];
    ForestLeavesAt(a, f.i);
    assert a[..f.i] == f.node.kids[..f.i] && a[f.i+1..] == f.node.kids[f.i+1..p+1] && a[f.i] == left;
  }

  lemma NewKidsLeafCount(f: Frame, p: nat, left: Tree, right: Tree)
    requires p < |f.node.kids|
    ensures multiset(ForestLeaves(NewKids(f, p, left, right))) ==
      multiset(LeftLeaves(f)) + multiset(LeafIds(left)) + multiset(LeafIds(right)) + multiset(RightLeaves(f))
  {
    hide ForestLeaves, LeafIds;
    var old1 := f.node.kids[f.i := left];
    var kids := NewKids(f, p, left, right);
    ForestLeavesAt(kids, p + 1);
    assert kids[..p+1] == old1[..p+1] && kids[p+2..] == old1[p+1..];
    ForestLeavesCut(old1, p + 1);
    ForestLeavesAt(old1, f.i);
    assert old1[..f.i] == f.node.kids[..f.i] && old1[f.i+1..] == f.node.kids[f.i+1..];
    CountSplice(ForestLeaves(old1[..p+1]), ForestLeaves(old1[p+1..]), LeftLeaves(f), LeafIds(left), RightLeaves(f),
                LeafIds(right));
  }

  lemma CountSplice(a: seq<PageId>, b: seq<PageId>, l: seq<PageId>, x: seq<PageId>, r: seq<PageId>, y: seq<PageId>)
    requires a + b == l + x + r
    ensures multiset(a + y + b) == multiset(l) + multiset(x) + multiset(y) + multiset(r)
  {
    calc {
      multiset(a + y + b);
      (multiset(a) + multiset(b)) + multiset(y);
      { assert multiset(a) + multiset(b) == multiset(a + b); }
      multiset(l + x + r) + multiset(y);
      (multiset(l) + multiset(x) + multiset(r)) + multiset(y);
      multiset(l) + multiset(x) + multiset(y) + multiset(r);
    }
  }

  /** After one step the leaves are in the wanted order exactly if they were before
      and the separator landed directly after the split child. */
  lemma StepAlign(c: nat, m: Mode, pages: Pages, f: Frame, p: nat, left: Tree, right: Tree, want: seq<PageId>)
    requires FrameOk(c, m, pages, f) && f.i <= p < |f.node.kids|
    requires FrameIds(f) !! Ids(right) && LeafIds(right) != []
    requires |want| == |LeafIds(left)| + |LeafIds(right)|
    ensures ForestLeaves(NewKids(f, p, left, right)) == LeftLeaves(f) + want + RightLeaves(f)
      <==> p == f.i && LeafIds(left) + LeafIds(right) == want
  {
    hide Good, Rank, ForestLeaves, LeafIds, NewKids, LeftLeaves, RightLeaves, EndLeaves, FrameIds, Ids, FrameOk,
      MidLeaves;
    NewKidsLeaves(f, p, left, right);
    RightLeavesCut(f, p);
    LeavesAreIds(right);
    if p == f.i {
      NoMiddle(f);
    } else {
      MiddleLeaf(c, m, pages, f, p);
    }
    PlaceInList(LeftLeaves(f), LeafIds(left), MidLeaves(f, p), LeafIds(right), EndLeaves(f, p), want);
  }

  lemma NoMiddle(f: Frame)
    ensures MidLeaves(f, f.i) == []
  {
    assert f.node.kids[f.i+1..f.i+1] == [];
  }

  /** Moving a non-empty block past another one with other elements changes a list. */
  lemma PlaceInList(a: seq<PageId>, l: seq<PageId>, mid: seq<PageId>, r: seq<PageId>, z: seq<PageId>, want: seq<PageId>)
    requires r != [] && |want| == |l| + |r|
    requires forall x :: x in mid ==> x !in r
    ensures a + l + mid + r + z == a + want + (mid + z) <==> mid == [] && l + r == want
  {
    assert a + l + mid + r + z == a + (l + mid + r) + z;
    assert a + want + (mid + z) == a + (want + mid) + z;
    CancelBoth(a, l + mid + r, want + mid, z);
    if mid == [] {
      assert l + mid + r == l + r && want + mid == want;
    } else {
      assert (l + mid + r)[|l + mid + r| - 1] == r[|r|-1];
      assert (want + mid)[|want + mid| - 1] == mid[|mid|-1];
      assert mid[|mid|-1] in mid;
    }
  }

  lemma CancelBoth(a: seq<PageId>, x: seq<PageId>, y: seq<PageId>, z: seq<PageId>)
    requires |x| == |y|
    ensures a + x + z == a + y + z <==> x == y
  {
    assert (a + x + z)[|a|..|a|+|x|] == x;
    assert (a + y + z)[|a|..|a|+|y|] == y;
  }

  /** The children between the split child and a later place hold a leaf, all within the frame. */
  lemma MiddleLeaf(c: nat, m: Mode, pages: Pages, f: Frame, p: nat)
    requires FrameOk(c, m, pages, f) && f.i < p < |f.node.kids|
    ensures MidLeaves(f, p) != [] && forall x :: x in MidLeaves(f, p) ==> x in FrameIds(f)
  {
    hide Rank, KidLo, KidHi, Ids, LeafIds, Good, InnerPageOk, OthersApart;
    var ts := f.node.kids[f.i+1..p+1];
    assert ts[0] == f.node.kids[f.i+1];
    FrameNode(c, m, pages, f);
    HasLeaf(c, m, pages, ts[0], f.h - 1, KidLo(NodeKeys(pages, f.node.id), f.i + 1, f.lo),
            KidHi(NodeKeys(pages, f.node.id), f.i + 1, f.hi));
    ForestLeavesAreIds(ts);
    forall x | x in ForestIds(ts) ensures x in FrameIds(f) {
      var j :| 0 <= j < |ts| && x in Ids(ts[j]);
      assert ts[j] == f.node.kids[j + f.i + 1];
    }
  }

  // ---- Growing a new root

  /** The same subtree under another id of its top page. */
  ghost function Renamed(t: Tree, id: PageId): Tree {
    match t
    case LeafT(_) => LeafT(id)
    case NodeT(_, kids) => NodeT(id, kids)
  }

  lemma RenameGood(c: nat, m: Mode, pages: Pages, pages': Pages, t: Tree, h: nat, lo: real, hi: real, id: PageId)
    requires Good(c, m, pages, t, h, lo, hi) && id !in pages
    requires id in pages' && pages'[id] == pages[t.id]
    requires forall x :: x in pages && x != t.id ==> x in pages' && pages'[x] == pages[x]
    ensures Good(c, m, pages', Renamed(t, id), h, lo, hi)
    ensures Ids(Renamed(t, id)) == Ids(t) - {t.id} + {id}
  {
    hide Rank, InnerPageOk, LeafPageOk, KidsGood, ForestIds;
    GoodIds(c, m, pages, t, h, lo, hi);
    if t.NodeT? {
      InnerLen(c, m, pages[t.id], t.kids, lo, hi);
      RenameApart(t.id, id, t.kids, pages.Keys);
      KidsFrame(c, m, pages, pages', SepKeys(pages[t.id].seps), t.kids, h - 1, lo, hi);
    }
  }

  lemma RenameApart(id: PageId, id': PageId, kids: seq<Tree>, known: set<PageId>)
    requires Apart(id, kids) && ForestIds(kids) <= known && id' !in known
    ensures Apart(id', kids) && id !in ForestIds(kids)
  {
    hide Ids;
    forall i | 0 <= i < |kids| ensures id' !in Ids(kids[i]) {
      assert Ids(kids[i]) <= ForestIds(kids);
    }
  }

  /** The new root over the two halves of the old one. */
  lemma {:induction false} GrowGood(c: nat, m: Mode, pages: Pages, pages': Pages, left: Tree, sep: Key, right: Tree,
                                    h: nat, id: PageId)
    returns (t: Tree)
    requires c >= HEADER + 2 * (DIR_ENTRY + RECORD_ID)
    requires Waiting(c, m, pages, left, sep, right, h, BOTTOM, TOP)
    requires id !in pages
    requires pages' == pages[id := pages[left.id]][left.id := Internal(id, [Separator(sep, right.id)])]
    ensures InternalFits([Separator(sep, right.id)], c)
    ensures t == NodeT(left.id, [Renamed(left, id), right])
    ensures Good(c, m, pages', t, h + 1, BOTTOM, TOP)
    ensures Ids(t) == Ids(left) + Ids(right) + {id}
    ensures LeafIds(t) == LeafIds(Renamed(left, id)) + LeafIds(right)
  {
    hide Rank, Good, InternalFits, MaxKeyLen;
    t := NodeT(left.id, [Renamed(left, id), right]);
    assert left.id in Ids(left);
    GoodIds(c, m, pages, left, h, BOTTOM, Rank(sep));
    GoodIds(c, m, pages, right, h, Rank(sep), TOP);
    RenameGood(c, m, pages, pages', left, h, BOTTOM, Rank(sep), id);
    GoodFrame(c, m, pages, pages', right, h, Rank(sep), TOP);
    OneSeparator(c, sep, right.id);
    GrowBuilt(c, m, pages', id, left.id, Renamed(left, id), sep, right, h);
    TwoKids(left.id, Renamed(left, id), right);
  }

  lemma TwoKids(id: PageId, a: Tree, b: Tree)
    ensures LeafIds(NodeT(id, [a, b])) == LeafIds(a) + LeafIds(b)
    ensures Ids(NodeT(id, [a, b])) == {id} + Ids(a) + Ids(b)
  {
    hide Ids, LeafIds;
    var kids := [a, b];
    NodeLeafIds(id, kids);
    ForestLeavesAt(kids, 0);
    assert kids[1..] == [b] && kids[0] == a && kids[1] == b;
    ForestLeavesAt([b], 0);
    NodeIds(id, kids);
  }

  lemma NodeLeafIds(id: PageId, kids: seq<Tree>)
    ensures LeafIds(NodeT(id, kids)) == ForestLeaves(kids)
  {
  }

  lemma OneSeparator(c: nat, sep: Key, child: PageId)
    requires c >= HEADER + 2 * (DIR_ENTRY + RECORD_ID) && |sep| <= MaxKeyLen(c)
    ensures InternalFits([Separator(sep, child)], c)
  {
    var keys := SepKeys([Separator(sep, child)]);
    assert keys == [sep];
    NeedPrefix([sep], 0, CHILD_ID);
    assert [sep][..1] == [sep] && [sep][..0] == [];
  }

  lemma GrowBuilt(c: nat, m: Mode, pages: Pages, id: PageId, root: PageId, left: Tree, sep: Key, right: Tree, h: nat)
    requires Good(c, m, pages, left, h, BOTTOM, Rank(sep)) && Good(c, m, pages, right, h, Rank(sep), TOP)
    requires Within(m, BOTTOM, Rank(sep), TOP) && |sep| <= MaxKeyLen(c)
    requires Ids(left) !! Ids(right) && left.id == id && root !in Ids(left) && root !in Ids(right)
    requires root in pages && pages[root] == Internal(id, [Separator(sep, right.id)])
    requires InternalFits([Separator(sep, right.id)], c)
    ensures Good(c, m, pages, NodeT(root, [left, right]), h + 1, BOTTOM, TOP)
  {
    hide Rank, Need, Good, Ids, InternalFits, MaxKeyLen;
    var kids := [left, right];
    var seps := [Separator(sep, right.id)];
    assert SepKeys(seps) == [sep];
    assert KidsGood(c, m, pages, SepKeys(seps), kids, h, BOTTOM, TOP);
    assert Apart(root, kids);
    GoodNode(c, m, pages, NodeT(root, kids), h + 1, BOTTOM, TOP);
  }
}
