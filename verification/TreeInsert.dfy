/** What inserting into one page does to the tree around it: entries stay in order,
    a split leaves two good halves, and a pushed-up separator lands in its parent. */
module TreeInsert {
  import opened PageIds
  import opened KeyOrder
  import opened PageLayout
  import opened TreeShape
  import opened TreePath

  // ---- Leaves

  lemma LeafInsertParts(c: nat, m: Mode, es: seq<Entry>, e: Entry, lo: real, hi: real)
    requires LeafParts(c, m, es, lo, hi)
    requires Within(m, lo, Rank(e.key), hi) && |e.key| <= MaxKeyLen(c)
    requires m.Strict? ==> forall i :: 0 <= i < |es| ==> es[i].key != e.key
    ensures var p := Upper(EntryKeys(es), e.key);
      && LeafParts(c, m, InsertAt(es, p, e), lo, hi)
      && EntryKeys(InsertAt(es, p, e)) == InsertAt(EntryKeys(es), p, e.key)
  {
    hide Rank, Upper, Sorted, AllWithin, Short;
    var keys := EntryKeys(es);
    var p := Upper(keys, e.key);
    assert EntryKeys(InsertAt(es, p, e)) == InsertAt(keys, p, e.key);
    if m.Strict? {
      forall i | 0 <= i < |keys| ensures Rank(keys[i]) != Rank(e.key) {
        LessIsRank(keys[i], e.key);
      }
    }
    SortedInsert(m, keys, e.key);
    InsertKeepsAll(c, m, keys, p, e.key, lo, hi);
  }

  lemma InsertKeepsAll(c: nat, m: Mode, keys: seq<Key>, p: nat, key: Key, lo: real, hi: real)
    requires AllWithin(m, lo, keys, hi) && Short(keys, c) && p <= |keys|
    requires Within(m, lo, Rank(key), hi) && |key| <= MaxKeyLen(c)
    ensures AllWithin(m, lo, InsertAt(keys, p, key), hi) && Short(InsertAt(keys, p, key), c)
  {
    hide Rank, MaxKeyLen;
    var keys' := InsertAt(keys, p, key);
    forall i | 0 <= i < |keys'| ensures Within(m, lo, Rank(keys'[i]), hi) && |keys'[i]| <= MaxKeyLen(c) {
      var i0 := if i < p then i else i - 1;
      assert i != p ==> keys'[i] == keys[i0];
    }
  }

  lemma SortedInsert(m: Mode, keys: seq<Key>, key: Key)
    requires Sorted(m, keys)
    requires m.Strict? ==> forall i :: 0 <= i < |keys| ==> Rank(keys[i]) != Rank(key)
    ensures Sorted(m, InsertAt(keys, Upper(keys, key), key))
  {
    hide Rank, Upper, InsertAt;
    var p := Upper(keys, key);
    forall i, j | 0 <= i < j < |keys| + 1
      ensures |InsertAt(keys, p, key)| == |keys| + 1
      ensures var keys' := InsertAt(keys, p, key);
        Rank(keys'[i]) <= Rank(keys'[j]) && (m.Strict? ==> Rank(keys'[i]) < Rank(keys'[j]))
    {
      InsertedAt(keys, p, key, i);
      InsertedAt(keys, p, key, j);
      AroundUpper(m, keys, key, if i < p then i else i - 1);
      AroundUpper(m, keys, key, if j < p then j else j - 1);
    }
    InsertedAt(keys, p, key, p);
  }

  lemma InsertedAt(keys: seq<Key>, p: nat, key: Key, i: nat)
    requires p <= |keys| && i <= |keys|
    ensures |InsertAt(keys, p, key)| == |keys| + 1
    ensures InsertAt(keys, p, key)[i] == if i == p then key else keys[if i < p then i else i - 1]
  {
  }

  lemma AroundUpper(m: Mode, keys: seq<Key>, key: Key, i: int)
    requires Sorted(m, keys)
    ensures 0 <= i < Upper(keys, key) ==> Rank(keys[i]) <= Rank(key)
    ensures Upper(keys, key) <= i < |keys| ==> Rank(key) < Rank(keys[i])
  {
    hide Rank;
    var p := Upper(keys, key);
    assert p < i < |keys| ==> Rank(keys[p]) <= Rank(keys[i]);
  }

  lemma LeafSplitParts(c: nat, m: Mode, es: seq<Entry>, mid: nat, lo: real, hi: real)
    requires LeafParts(c, m, es, lo, hi) && 1 <= mid < |es|
    ensures var sep := Rank(es[mid].key);
      && LeafParts(c, m, es[..mid], lo, sep)
      && LeafParts(c, m, es[mid..], sep, hi)
      && Within(m, lo, sep, hi)
      && (m.Strict? ==> lo < sep)
    ensures EntryKeys(es[..mid]) == EntryKeys(es)[..mid]
    ensures EntryKeys(es[mid..]) == EntryKeys(es)[mid..]
  {
    hide Rank, Sorted, AllWithin, Short;
    var keys := EntryKeys(es);
    assert EntryKeys(es[..mid]) == keys[..mid];
    assert EntryKeys(es[mid..]) == keys[mid..];
    SplitKeys(c, m, keys, mid, lo, hi);
  }

  // ---- Internal nodes

  ghost predicate KidsApart(kids: seq<Tree>) {
    forall i, j :: 0 <= i < j < |kids| ==> Ids(kids[i]) !! Ids(kids[j])
  }

  /** Separators and children from which a good node of height `h + 1` can be made. */
  ghost predicate Built(c: nat, m: Mode, pages: Pages, leftmost: PageId, seps: seq<Separator>, kids: seq<Tree>,
                        h: nat, lo: real, hi: real) {
    && Parts(c, m, leftmost, seps, kids, lo, hi)
    && KidsGood(c, m, pages, SepKeys(seps), kids, h, lo, hi)
    && KidsApart(kids)
  }

  /** Two halves of a split subtree of height `h`, with the separator between them. */
  ghost predicate Waiting(c: nat, m: Mode, pages: Pages, left: Tree, sep: Key, right: Tree, h: nat, lo: real,
                          hi: real) {
    && Good(c, m, pages, left, h, lo, Rank(sep))
    && Good(c, m, pages, right, h, Rank(sep), hi)
    && Within(m, lo, Rank(sep), hi)
    && (m.Strict? ==> lo < Rank(sep))
    && |sep| <= MaxKeyLen(c)
    && Ids(left) !! Ids(right)
  }

  /** The two halves of a split child, waiting to replace the child of frame `f`. */
  ghost predicate Pending(c: nat, m: Mode, pages: Pages, f: Frame, left: Tree, sep: Key, right: Tree) {
    && f.h > 0 && f.i <= |NodeKeys(pages, f.node.id)|
    && Waiting(c, m, pages, left, sep, right, f.h - 1, HoleLo(pages, f), HoleHi(pages, f))
    && left.id == f.node.kids[f.i].id
    && FrameIds(f) !! Ids(left) && FrameIds(f) !! Ids(right)
  }

  ghost function NewKids(f: Frame, p: nat, left: Tree, right: Tree): seq<Tree>
    requires p < |f.node.kids|
  {
    InsertAt(f.node.kids[f.i := left], p + 1, right)
  }

  lemma NewKidsApart(f: Frame, p: nat, left: Tree, right: Tree)
    requires p < |f.node.kids|
    requires OthersApart(f.node.id, f.node.kids, f.i)
    requires Ids(left) !! Ids(right) && FrameIds(f) !! Ids(left) && FrameIds(f) !! Ids(right)
    ensures KidsApart(NewKids(f, p, left, right))
    ensures ForestIds(NewKids(f, p, left, right)) + {f.node.id} == FrameIds(f) + Ids(left) + Ids(right)
    ensures f.node.id !in ForestIds(NewKids(f, p, left, right))
  {
    hide Ids, ForestIds, InsertAt, FrameIds;
    FrameIdsAre(f);
    SpliceIds(f.node.id, f.node.kids, f.i, left);
    var kids := f.node.kids[f.i := left];
    ApartKids(f.node.id, kids);
    NodeIds(f.node.id, kids);
    SpliceForest(kids, p + 1, right);
    forall j | 0 <= j < |kids| ensures Ids(kids[j]) <= FrameIds(f) + Ids(left) {
      AmongForest(kids, j);
    }
    SpliceApart(kids, p + 1, right);
  }

  lemma FrameIdsAre(f: Frame)
    ensures FrameIds(f) == OtherIds(f.node.id, f.node.kids, f.i) && f.node.id in FrameIds(f)
  {
    hide Ids;
  }

  lemma ApartKids(id: PageId, kids: seq<Tree>)
    requires Apart(id, kids)
    ensures KidsApart(kids) && id !in ForestIds(kids)
  {
    hide Ids;
  }

  lemma AmongForest(kids: seq<Tree>, j: nat)
    requires j < |kids|
    ensures Ids(kids[j]) <= ForestIds(kids)
  {
    hide Ids;
  }

  lemma SpliceApart(kids: seq<Tree>, p: nat, t: Tree)
    requires p <= |kids| && KidsApart(kids) && forall j :: 0 <= j < |kids| ==> Ids(kids[j]) !! Ids(t)
    ensures KidsApart(InsertAt(kids, p, t))
  {
    hide Ids;
    var kids' := InsertAt(kids, p, t);
    forall i, j | 0 <= i < j < |kids'| ensures Ids(kids'[i]) !! Ids(kids'[j]) {
      assert i != p ==> kids'[i] == kids[if i < p then i else i - 1];
      assert j != p ==> kids'[j] == kids[if j < p then j else j - 1];
    }
  }

  lemma NodeIds(id: PageId, kids: seq<Tree>)
    ensures Ids(NodeT(id, kids)) == {id} + ForestIds(kids)
  {
  }

  lemma InForest(ts: seq<Tree>, j: nat, x: PageId)
    requires j < |ts| && x in Ids(ts[j])
    ensures x in ForestIds(ts)
  {
    hide Ids;
  }

  lemma SpliceForestAt(ts: seq<Tree>, p: nat, t: Tree, x: PageId)
    requires p <= |ts|
    ensures x in ForestIds(InsertAt(ts, p, t)) <==> x in ForestIds(ts) || x in Ids(t)
  {
    hide Ids, ForestIds;
    var ts' := InsertAt(ts, p, t);
    if x in ForestIds(ts) {
      var j := WhereIn(ts, x);
      InForest(ts', if j < p then j else j + 1, x);
    }
    if x in Ids(t) {
      InForest(ts', p, x);
    }
    if x in ForestIds(ts') {
      var j := WhereIn(ts', x);
      if j != p {
        InForest(ts, if j < p then j else j - 1, x);
      }
    }
  }

  lemma {:induction false} WhereIn(ts: seq<Tree>, x: PageId) returns (j: nat)
    requires x in ForestIds(ts)
    ensures j < |ts| && x in Ids(ts[j])
  {
    hide Ids;
    j :| 0 <= j < |ts| && x in Ids(ts[j]);
  }

  lemma SpliceForest(ts: seq<Tree>, p: nat, t: Tree)
    requires p <= |ts|
    ensures ForestIds(InsertAt(ts, p, t)) == ForestIds(ts) + Ids(t)
  {
    hide Ids, ForestIds, InsertAt;
    forall x ensures x in ForestIds(InsertAt(ts, p, t)) <==> x in ForestIds(ts) + Ids(t) {
      SpliceForestAt(ts, p, t, x);
    }
  }

  /** In a node whose order counts, a pushed-up separator belongs directly after child `i`
      unless it equals the separator that follows that child. */
  lemma PlaceOf(m: Mode, keys: seq<Key>, i: nat, lo: real, hi: real, sep: Key)
    requires !m.Loose? && Sorted(m, keys) && i <= |keys|
    requires Within(Weak, KidLo(keys, i, lo), Rank(sep), KidHi(keys, i, hi))
    ensures var p := Upper(keys, sep);
      p >= i && (p == i <==> i == |keys| || Rank(sep) < Rank(keys[i]))
  {
    hide Rank;
    assert forall j :: 0 <= j < i ==> Rank(keys[j]) <= Rank(keys[i-1]);
  }

  /** Inserting a pushed-up separator directly after the split child keeps the node good;
      anywhere else only page-by-page order is left. */
  lemma InnerInsert(c: nat, m: Mode, m': Mode, pages: Pages, f: Frame, left: Tree, sep: Key, right: Tree)
    requires FrameOk(c, m, pages, f) && Pending(c, m', pages, f, left, sep, right)
    requires m' == Loose || m' == m
    requires m' == m && m != Loose ==> Upper(NodeKeys(pages, f.node.id), sep) == f.i
    ensures var page := pages[f.node.id]; var p := Upper(SepKeys(page.seps), sep);
      && p < |f.node.kids|
      && Built(c, m', pages, page.leftmost, InsertAt(page.seps, p, Separator(sep, right.id)),
               NewKids(f, p, left, right), f.h - 1, f.lo, f.hi)
      && SepKeys(InsertAt(page.seps, p, Separator(sep, right.id))) == InsertAt(SepKeys(page.seps), p, sep)
      && f.node.id !in ForestIds(NewKids(f, p, left, right))
      && ForestIds(NewKids(f, p, left, right)) + {f.node.id} == FrameIds(f) + Ids(left) + Ids(right)
  {
    hide Rank, Ids, FrameIds, KidsApart, InternalFits, FrameOk, Pending, NodeKeys, Upper, NewKids, InsertAt, Sorted,
      AllWithin, Short, KidsGood, Built, KidLo, KidHi, Within, ForestIds, OthersApart;
    FramePage(c, m, pages, f);
    PendingFacts(c, m', pages, f, left, sep, right);
    var page := pages[f.node.id];
    var keys := SepKeys(page.seps);
    var p := Upper(keys, sep);
    SepKeysWith(page.seps, p, sep, right.id);
    NewKidsApart(f, p, left, right);
    InnerInsertKeys(c, m, m', keys, f.i, sep, f.lo, f.hi);
    InnerInsertLinks(page, f, p, left, sep, right);
    InnerInsertKids(c, m, m', pages, f, left, sep, right);
    IsBuilt(c, m', pages, page.leftmost, InsertAt(page.seps, p, Separator(sep, right.id)), NewKids(f, p, left, right),
            f.h - 1, f.lo, f.hi);
  }

  lemma SepKeysWith(seps: seq<Separator>, p: nat, sep: Key, child: PageId)
    requires p <= |seps|
    ensures SepKeys(InsertAt(seps, p, Separator(sep, child))) == InsertAt(SepKeys(seps), p, sep)
  {
  }

  lemma IsBuilt(c: nat, m: Mode, pages: Pages, leftmost: PageId, seps: seq<Separator>, kids: seq<Tree>, h: nat,
                lo: real, hi: real)
    requires |kids| == |seps| + 1 && leftmost == kids[0].id
    requires forall i :: 0 <= i < |seps| ==> seps[i].child == kids[i+1].id
    requires Sorted(m, SepKeys(seps)) && AllWithin(m, lo, SepKeys(seps), hi) && Short(SepKeys(seps), c)
    requires KidsGood(c, m, pages, SepKeys(seps), kids, h, lo, hi) && KidsApart(kids)
    ensures Built(c, m, pages, leftmost, seps, kids, h, lo, hi)
  {
    hide Sorted, AllWithin, Short, KidsGood, KidsApart;
  }

  lemma InnerInsertKeys(c: nat, m: Mode, m': Mode, keys: seq<Key>, i: nat, sep: Key, lo: real, hi: real)
    requires i <= |keys| && Sorted(m, keys) && AllWithin(m, lo, keys, hi) && Short(keys, c) && |sep| <= MaxKeyLen(c)
    requires m' == Loose || (m' == m && Upper(keys, sep) == i)
    requires Within(m', KidLo(keys, i, lo), Rank(sep), KidHi(keys, i, hi))
    requires m'.Strict? ==> KidLo(keys, i, lo) < Rank(sep)
    ensures var keys' := InsertAt(keys, Upper(keys, sep), sep);
      Sorted(m', keys') && AllWithin(m', lo, keys', hi) && Short(keys', c)
  {
    hide Rank, Upper, InsertAt, MaxKeyLen;
    assert Sorted(m', keys);
    if m'.Strict? {
      forall j | 0 <= j < |keys| ensures Rank(keys[j]) != Rank(sep) {
        if j < i {
          assert j < i - 1 ==> Rank(keys[j]) < Rank(keys[i-1]);
        } else {
          assert j > i ==> Rank(keys[i]) < Rank(keys[j]);
        }
      }
    }
    SortedInsert(m', keys, sep);
    if i > 0 { assert Within(m, lo, Rank(keys[i-1]), hi); }
    if i < |keys| { assert Within(m, lo, Rank(keys[i]), hi); }
    InsertKeepsAll(c, m', keys, Upper(keys, sep), sep, lo, hi);
  }

  lemma InnerInsertLinks(page: Node, f: Frame, p: nat, left: Tree, sep: Key, right: Tree)
    requires page.Internal? && |f.node.kids| == |page.seps| + 1 && page.leftmost == f.node.kids[0].id
    requires forall j :: 0 <= j < |page.seps| ==> page.seps[j].child == f.node.kids[j+1].id
    requires left.id == f.node.kids[f.i].id && p <= |page.seps|
    ensures var seps' := InsertAt(page.seps, p, Separator(sep, right.id)); var kids' := NewKids(f, p, left, right);
      && |kids'| == |seps'| + 1 && page.leftmost == kids'[0].id
      && forall j :: 0 <= j < |seps'| ==> seps'[j].child == kids'[j+1].id
  {
  }

  lemma InnerInsertKids(c: nat, m: Mode, m': Mode, pages: Pages, f: Frame, left: Tree, sep: Key, right: Tree)
    requires FrameOk(c, m, pages, f) && Pending(c, m', pages, f, left, sep, right)
    requires m' == Loose || m' == m
    requires m' == m && m != Loose ==> Upper(NodeKeys(pages, f.node.id), sep) == f.i
    ensures var keys := NodeKeys(pages, f.node.id); var p := Upper(keys, sep);
      && p < |f.node.kids| && |NewKids(f, p, left, right)| == |InsertAt(keys, p, sep)| + 1
      && KidsGood(c, m', pages, InsertAt(keys, p, sep), NewKids(f, p, left, right), f.h - 1, f.lo, f.hi)
  {
    hide Rank, Ids, FrameIds, KidsApart, InternalFits, Sorted, AllWithin, Short, Good, KidLo, KidHi, FrameOk, Pending,
      NodeKeys, Upper, NewKids, InsertAt;
    var keys := NodeKeys(pages, f.node.id);
    var p := Upper(keys, sep);
    FrameNode(c, m, pages, f);
    FramePage(c, m, pages, f);
    NewKidsLen(f, p, left, right, keys, sep);
    forall j | 0 <= j < |NewKids(f, p, left, right)|
      ensures Good(c, m', pages, NewKids(f, p, left, right)[j], f.h - 1, KidLo(InsertAt(keys, p, sep), j, f.lo),
                   KidHi(InsertAt(keys, p, sep), j, f.hi))
    {
      if j == p + 1 {
        NewKidGood(c, m, m', pages, f, left, sep, right, p);
      } else {
        OldKidGood(c, m, m', pages, f, left, sep, right, p, if j <= p then j else j - 1);
      }
    }
  }

  lemma NewKidsLen(f: Frame, p: nat, left: Tree, right: Tree, keys: seq<Key>, sep: Key)
    requires p <= |keys| && |f.node.kids| == |keys| + 1
    ensures |NewKids(f, p, left, right)| == |InsertAt(keys, p, sep)| + 1
  {
  }

  /** The right half of the split child, as child `p + 1` of the new node. */
  lemma NewKidGood(c: nat, m: Mode, m': Mode, pages: Pages, f: Frame, left: Tree, sep: Key, right: Tree, p: nat)
    requires FrameOk(c, m, pages, f) && Pending(c, m', pages, f, left, sep, right)
    requires |f.node.kids| == |NodeKeys(pages, f.node.id)| + 1 && p == Upper(NodeKeys(pages, f.node.id), sep)
    requires m' == Loose || (m' == m && p == f.i)
    ensures var keys' := InsertAt(NodeKeys(pages, f.node.id), p, sep);
      && p + 1 < |NewKids(f, p, left, right)| && p + 1 <= |keys'| && f.h > 0
      && Good(c, m', pages, NewKids(f, p, left, right)[p+1], f.h - 1, KidLo(keys', p + 1, f.lo),
              KidHi(keys', p + 1, f.hi))
  {
    hide Rank, Ids, FrameIds, Good, FrameOk, Upper, NodeKeys;
    var keys' := InsertAt(NodeKeys(pages, f.node.id), p, sep);
    if m' == Loose {
      ToLoose(c, m', pages, right, f.h - 1, Rank(sep), HoleHi(pages, f), KidLo(keys', p + 1, f.lo),
              KidHi(keys', p + 1, f.hi));
    }
  }

  /** Where child `j0` stands behind the split child or before it. */
  ghost function Moved(j0: nat, p: nat): nat {
    if j0 <= p then j0 else j0 + 1
  }

  lemma MovedKid(f: Frame, p: nat, left: Tree, right: Tree, keys: seq<Key>, sep: Key, j0: nat,
                 lo: real, hi: real)
    requires p <= |keys| && |f.node.kids| == |keys| + 1 && j0 < |f.node.kids|
    ensures Moved(j0, p) < |NewKids(f, p, left, right)| == |InsertAt(keys, p, sep)| + 1
    ensures NewKids(f, p, left, right)[Moved(j0, p)] == if j0 == f.i then left else f.node.kids[j0]
    ensures p == f.i && j0 != p ==>
      && KidLo(InsertAt(keys, p, sep), Moved(j0, p), lo) == KidLo(keys, j0, lo)
      && KidHi(InsertAt(keys, p, sep), Moved(j0, p), hi) == KidHi(keys, j0, hi)
    ensures p == f.i && j0 == p ==>
      && KidLo(InsertAt(keys, p, sep), Moved(j0, p), lo) == KidLo(keys, j0, lo)
      && KidHi(InsertAt(keys, p, sep), Moved(j0, p), hi) == Rank(sep)
  {
    hide Rank;
  }

  /** Child `j0` of the old node, or the left half of the split child. */
  lemma OldKidGood(c: nat, m: Mode, m': Mode, pages: Pages, f: Frame, left: Tree, sep: Key, right: Tree, p: nat,
                   j0: nat)
    requires FrameOk(c, m, pages, f) && Pending(c, m', pages, f, left, sep, right)
    requires |f.node.kids| == |NodeKeys(pages, f.node.id)| + 1 && p == Upper(NodeKeys(pages, f.node.id), sep)
    requires m' == Loose || (m' == m && p == f.i)
    requires j0 < |f.node.kids|
    ensures var keys' := InsertAt(NodeKeys(pages, f.node.id), p, sep); var j := Moved(j0, p);
      && j < |NewKids(f, p, left, right)| && j <= |keys'| && f.h > 0
      && Good(c, m', pages, NewKids(f, p, left, right)[j], f.h - 1, KidLo(keys', j, f.lo), KidHi(keys', j, f.hi))
  {
    hide Rank, Ids, FrameIds, Good, Upper, FrameOk, Pending, InsertAt, NewKids, KidLo, KidHi, Moved, HoleLo, HoleHi;
    var keys := NodeKeys(pages, f.node.id);
    var keys' := InsertAt(keys, p, sep);
    var j := Moved(j0, p);
    FramePage(c, m, pages, f);
    MovedKid(f, p, left, right, keys, sep, j0, f.lo, f.hi);
    OldKid(c, m, m', pages, f, left, sep, right, j0);
    HoleBounds(pages, f);
    if m' == Loose {
      if j0 == f.i {
        ToLoose(c, m', pages, left, f.h - 1, HoleLo(pages, f), Rank(sep), KidLo(keys', j, f.lo), KidHi(keys', j, f.hi));
      } else {
        ToLoose(c, m, pages, f.node.kids[j0], f.h - 1, KidLo(keys, j0, f.lo), KidHi(keys, j0, f.hi),
                KidLo(keys', j, f.lo), KidHi(keys', j, f.hi));
      }
    }
  }

  lemma HoleBounds(pages: Pages, f: Frame)
    requires f.i <= |NodeKeys(pages, f.node.id)|
    ensures HoleLo(pages, f) == KidLo(NodeKeys(pages, f.node.id), f.i, f.lo)
    ensures HoleHi(pages, f) == KidHi(NodeKeys(pages, f.node.id), f.i, f.hi)
  {
  }

  lemma OldKid(c: nat, m: Mode, m': Mode, pages: Pages, f: Frame, left: Tree, sep: Key, right: Tree, j0: nat)
    requires FrameOk(c, m, pages, f) && Pending(c, m', pages, f, left, sep, right) && j0 < |f.node.kids|
    ensures f.h > 0 && |f.node.kids| == |NodeKeys(pages, f.node.id)| + 1
    ensures j0 == f.i ==> Good(c, m', pages, left, f.h - 1, HoleLo(pages, f), Rank(sep))
    ensures var keys := NodeKeys(pages, f.node.id);
      j0 != f.i ==> Good(c, m, pages, f.node.kids[j0], f.h - 1, KidLo(keys, j0, f.lo), KidHi(keys, j0, f.hi))
  {
    hide Rank, Ids, FrameIds, Good, InnerPageOk, KidLo, KidHi, HoleLo, HoleHi;
    FrameNode(c, m, pages, f);
  }

  /** The page of a frame, without its children. */
  lemma FramePage(c: nat, m: Mode, pages: Pages, f: Frame)
    requires FrameOk(c, m, pages, f)
    ensures f.h > 0 && f.node.id in pages && pages[f.node.id].Internal?
    ensures var page := pages[f.node.id]; var keys := SepKeys(page.seps);
      && keys == NodeKeys(pages, f.node.id) && |f.node.kids| == |page.seps| + 1
      && page.leftmost == f.node.kids[0].id
      && (forall j :: 0 <= j < |page.seps| ==> page.seps[j].child == f.node.kids[j+1].id)
      && Sorted(m, keys) && AllWithin(m, f.lo, keys, f.hi) && Short(keys, c)
    ensures OthersApart(f.node.id, f.node.kids, f.i)
  {
    hide Rank, Ids, Good, Sorted, AllWithin, Short, OthersApart, OthersGood;
  }

  /** What waits below a frame, without the pages of the two halves. */
  lemma PendingFacts(c: nat, m: Mode, pages: Pages, f: Frame, left: Tree, sep: Key, right: Tree)
    requires Pending(c, m, pages, f, left, sep, right)
    ensures f.i <= |NodeKeys(pages, f.node.id)| && left.id == f.node.kids[f.i].id && |sep| <= MaxKeyLen(c)
    ensures var keys := NodeKeys(pages, f.node.id);
      && Within(m, KidLo(keys, f.i, f.lo), Rank(sep), KidHi(keys, f.i, f.hi))
      && (m.Strict? ==> KidLo(keys, f.i, f.lo) < Rank(sep))
    ensures Ids(left) !! Ids(right) && FrameIds(f) !! Ids(left) && FrameIds(f) !! Ids(right)
  {
    hide Rank, Ids, FrameIds, Good, MaxKeyLen, KidLo, KidHi;
  }

  lemma SplitKeys(c: nat, m: Mode, keys: seq<Key>, mid: nat, lo: real, hi: real)
    requires Sorted(m, keys) && AllWithin(m, lo, keys, hi) && Short(keys, c) && 1 <= mid < |keys|
    ensures var sep := Rank(keys[mid]);
      && Sorted(m, keys[..mid]) && AllWithin(m, lo, keys[..mid], sep) && Short(keys[..mid], c)
      && Sorted(m, keys[mid..]) && AllWithin(m, sep, keys[mid..], hi) && Short(keys[mid..], c)
      && Sorted(m, keys[mid+1..]) && AllWithin(m, sep, keys[mid+1..], hi) && Short(keys[mid+1..], c)
      && Within(m, lo, sep, hi) && (m.Strict? ==> lo < sep)
  {
    hide Rank, Sorted, AllWithin, Short;
    SplitsAround(m, keys, mid, lo, hi);
    CutKeys(c, m, keys, 0, mid, lo, Rank(keys[mid]));
    CutKeys(c, m, keys, mid, |keys|, Rank(keys[mid]), hi);
    CutKeys(c, m, keys, mid + 1, |keys|, Rank(keys[mid]), hi);
    assert keys[0..mid] == keys[..mid] && keys[mid..|keys|] == keys[mid..] && keys[mid+1..|keys|] == keys[mid+1..];
  }

  lemma SplitsAround(m: Mode, keys: seq<Key>, mid: nat, lo: real, hi: real)
    requires Sorted(m, keys) && AllWithin(m, lo, keys, hi) && 1 <= mid < |keys|
    ensures forall i :: 0 <= i < mid ==> Within(m, lo, Rank(keys[i]), Rank(keys[mid]))
    ensures forall i :: mid <= i < |keys| ==> Within(m, Rank(keys[mid]), Rank(keys[i]), hi)
    ensures Within(m, lo, Rank(keys[mid]), hi) && (m.Strict? ==> lo < Rank(keys[mid]))
  {
    hide Rank;
    assert Within(m, lo, Rank(keys[mid]), hi) && Within(m, lo, Rank(keys[0]), hi);
    assert Rank(keys[0]) <= Rank(keys[mid]);
  }

  /** Part of a list of keys, with narrower bounds. */
  lemma CutKeys(c: nat, m: Mode, keys: seq<Key>, a: nat, b: nat, lo: real, hi: real)
    requires Sorted(m, keys) && Short(keys, c) && a <= b <= |keys|
    requires forall i :: a <= i < b ==> Within(m, lo, Rank(keys[i]), hi)
    ensures Sorted(m, keys[a..b]) && AllWithin(m, lo, keys[a..b], hi) && Short(keys[a..b], c)
  {
    hide Rank, MaxKeyLen;
    assert forall i :: 0 <= i < b - a ==> keys[a..b][i] == keys[a+i];
  }

  /** Splitting an overfull node around separator `mid`: both halves can be made good nodes. */
  lemma BuiltSplit(c: nat, m: Mode, pages: Pages, leftmost: PageId, seps: seq<Separator>, kids: seq<Tree>,
                   h: nat, lo: real, hi: real, mid: nat)
    requires Built(c, m, pages, leftmost, seps, kids, h, lo, hi) && 1 <= mid < |seps|
    ensures var sep := Rank(seps[mid].key);
      && Built(c, m, pages, leftmost, seps[..mid], kids[..mid+1], h, lo, sep)
      && Built(c, m, pages, seps[mid].child, seps[mid+1..], kids[mid+1..], h, sep, hi)
      && Within(m, lo, sep, hi) && (m.Strict? ==> lo < sep)
    ensures SepKeys(seps[..mid]) == SepKeys(seps)[..mid] && SepKeys(seps[mid+1..]) == SepKeys(seps)[mid+1..]
    ensures ForestIds(kids[..mid+1]) !! ForestIds(kids[mid+1..])
    ensures ForestIds(kids[..mid+1]) + ForestIds(kids[mid+1..]) == ForestIds(kids)
  {
    hide Rank, ForestIds, KidsApart, Good, Sorted, AllWithin, Short, KidsGood;
    var keys := SepKeys(seps);
    assert SepKeys(seps[..mid]) == keys[..mid];
    assert SepKeys(seps[mid+1..]) == keys[mid+1..];
    SplitKeys(c, m, keys, mid, lo, hi);
    SplitForest(kids, mid + 1);
    BuiltSplitKids(c, m, pages, keys, kids, h, lo, hi, mid);
  }

  lemma SplitForest(kids: seq<Tree>, n: nat)
    requires n <= |kids| && KidsApart(kids)
    ensures ForestIds(kids[..n]) !! ForestIds(kids[n..])
    ensures ForestIds(kids[..n]) + ForestIds(kids[n..]) == ForestIds(kids)
    ensures KidsApart(kids[..n]) && KidsApart(kids[n..])
  {
    hide Ids;
    var a, b := kids[..n], kids[n..];
    forall x | x in ForestIds(kids) ensures x in ForestIds(a) || x in ForestIds(b) {
      var j :| 0 <= j < |kids| && x in Ids(kids[j]);
      if j < n { assert a[j] == kids[j]; } else { assert b[j-n] == kids[j]; }
    }
  }

  lemma BuiltSplitKids(c: nat, m: Mode, pages: Pages, keys: seq<Key>, kids: seq<Tree>, h: nat, lo: real, hi: real,
                       mid: nat)
    requires |kids| == |keys| + 1 && mid < |keys|
    requires KidsGood(c, m, pages, keys, kids, h, lo, hi)
    ensures KidsGood(c, m, pages, keys[..mid], kids[..mid+1], h, lo, Rank(keys[mid]))
    ensures KidsGood(c, m, pages, keys[mid+1..], kids[mid+1..], h, Rank(keys[mid]), hi)
  {
    hide Rank, Good;
    var keysL, kidsL, keysR, kidsR := keys[..mid], kids[..mid+1], keys[mid+1..], kids[mid+1..];
    forall i | 0 <= i < |kidsL|
      ensures Good(c, m, pages, kidsL[i], h, KidLo(keysL, i, lo), KidHi(keysL, i, Rank(keys[mid])))
    {
      assert kidsL[i] == kids[i];
    }
    forall i | 0 <= i < |kidsR|
      ensures Good(c, m, pages, kidsR[i], h, KidLo(keysR, i, Rank(keys[mid])), KidHi(keysR, i, hi))
    {
      assert kidsR[i] == kids[i + mid + 1];
    }
  }

  /** Writing separators that fit into a page makes the node good. */
  lemma MakeNode(c: nat, m: Mode, pages: Pages, pages': Pages, id: PageId, leftmost: PageId, seps: seq<Separator>,
                 kids: seq<Tree>, h: nat, lo: real, hi: real)
    requires Built(c, m, pages, leftmost, seps, kids, h, lo, hi)
    requires InternalFits(seps, c)
    requires id !in ForestIds(kids) && Agree(pages, pages', ForestIds(kids))
    requires id in pages' && pages'[id] == Internal(leftmost, seps)
    ensures Good(c, m, pages', NodeT(id, kids), h + 1, lo, hi)
    ensures Ids(NodeT(id, kids)) == {id} + ForestIds(kids)
  {
    hide Rank, Ids, Sorted, AllWithin, Short, InternalFits;
    var keys := SepKeys(seps);
    forall i | 0 <= i < |kids|
      ensures Good(c, m, pages', kids[i], h, KidLo(keys, i, lo), KidHi(keys, i, hi))
    {
      assert Good(c, m, pages, kids[i], h, KidLo(keys, i, lo), KidHi(keys, i, hi));
      assert Ids(kids[i]) <= ForestIds(kids);
      GoodFrame(c, m, pages, pages', kids[i], h, KidLo(keys, i, lo), KidHi(keys, i, hi));
    }
    assert Apart(id, kids);
    NodeIds(id, kids);
  }

  lemma WaitingLoose(c: nat, m: Mode, pages: Pages, left: Tree, sep: Key, right: Tree, h: nat, lo: real, hi: real)
    requires Waiting(c, m, pages, left, sep, right, h, lo, hi)
    ensures Waiting(c, Loose, pages, left, sep, right, h, lo, hi)
  {
    hide Good, Rank, Ids;
    ToLoose(c, m, pages, left, h, lo, Rank(sep), lo, Rank(sep));
    ToLoose(c, m, pages, right, h, Rank(sep), hi, Rank(sep), hi);
  }

  // ---- One step of the propagation

  /** The separators of the frame's node with the pushed-up one inserted. */
  ghost function NewSeps(pages: Pages, f: Frame, sep: Key, right: Tree): seq<Separator> {
    if f.node.id in pages && pages[f.node.id].Internal? then
      var seps := pages[f.node.id].seps;
      InsertAt(seps, Upper(SepKeys(seps), sep), Separator(sep, right.id))
    else []
  }

  /** The order left after the separator lands: all of it if it lands next to the split child. */
  ghost function StepMode(m: Mode, m2: Mode, pages: Pages, f: Frame, sep: Key): Mode {
    if m2 == m && Upper(NodeKeys(pages, f.node.id), sep) == f.i then m else Loose
  }

  lemma StepBuilt(c: nat, m: Mode, m2: Mode, pages: Pages, f: Frame, left: Tree, sep: Key, right: Tree)
    requires FrameOk(c, m, pages, f) && Pending(c, m2, pages, f, left, sep, right)
    requires m2 == Loose || m2 == m
    ensures var seps := NewSeps(pages, f, sep, right); var p := Upper(NodeKeys(pages, f.node.id), sep);
      && p < |f.node.kids|
      && Built(c, StepMode(m, m2, pages, f, sep), pages, pages[f.node.id].leftmost, seps, NewKids(f, p, left, right),
               f.h - 1, f.lo, f.hi)
      && SepKeys(seps) == InsertAt(NodeKeys(pages, f.node.id), p, sep)
      && f.node.id !in ForestIds(NewKids(f, p, left, right))
      && ForestIds(NewKids(f, p, left, right)) + {f.node.id} == FrameIds(f) + Ids(left) + Ids(right)
  {
    hide Rank, Good, Ids, FrameIds, Built, Upper, Waiting;
    var m' := StepMode(m, m2, pages, f, sep);
    if m' != m2 {
      WaitingLoose(c, m2, pages, left, sep, right, f.h - 1, HoleLo(pages, f), HoleHi(pages, f));
    }
    InnerInsert(c, m, m', pages, f, left, sep, right);
  }

  /** The parent had room: its node is good again. */
  lemma StepFits(c: nat, m: Mode, m2: Mode, pages: Pages, pages': Pages, f: Frame, left: Tree, sep: Key, right: Tree)
    requires FrameOk(c, m, pages, f) && Pending(c, m2, pages, f, left, sep, right)
    requires m2 == Loose || m2 == m
    requires InternalFits(NewSeps(pages, f, sep, right), c)
    requires pages' == pages[f.node.id := Internal(pages[f.node.id].leftmost, NewSeps(pages, f, sep, right))]
    ensures var p := Upper(NodeKeys(pages, f.node.id), sep);
      && p < |f.node.kids|
      && Good(c, StepMode(m, m2, pages, f, sep), pages', NodeT(f.node.id, NewKids(f, p, left, right)), f.h, f.lo, f.hi)
      && Ids(NodeT(f.node.id, NewKids(f, p, left, right))) == FrameIds(f) + Ids(left) + Ids(right)
  {
    hide Rank, Good, Ids, FrameIds, Built, InternalFits, NewSeps, NewKids, StepMode, FrameOk, Pending, Upper, NodeKeys,
      ForestIds, Agree;
    FramePage(c, m, pages, f);
    StepBuilt(c, m, m2, pages, f, left, sep, right);
    var m' := StepMode(m, m2, pages, f, sep);
    var seps, kids := NewSeps(pages, f, sep, right), NewKids(f, Upper(NodeKeys(pages, f.node.id), sep), left, right);
    BuiltIds(c, m', pages, pages[f.node.id].leftmost, seps, kids, f.h - 1, f.lo, f.hi);
    AgreeElsewhere(pages, f.node.id, Internal(pages[f.node.id].leftmost, seps), ForestIds(kids));
    MakeNode(c, m', pages, pages', f.node.id, pages[f.node.id].leftmost, seps, kids, f.h - 1, f.lo, f.hi);
  }

  lemma AgreeElsewhere(pages: Pages, id: PageId, node: Node, ids: set<PageId>)
    requires ids <= pages.Keys && id !in ids
    ensures Agree(pages, pages[id := node], ids)
  {
  }

  lemma BuiltIds(c: nat, m: Mode, pages: Pages, leftmost: PageId, seps: seq<Separator>, kids: seq<Tree>, h: nat,
                 lo: real, hi: real)
    requires Built(c, m, pages, leftmost, seps, kids, h, lo, hi)
    ensures ForestIds(kids) <= pages.Keys
  {
    hide Rank, Good, Ids, Sorted, AllWithin, Short;
    var keys := SepKeys(seps);
    forall i | 0 <= i < |kids| ensures Ids(kids[i]) <= pages.Keys {
      assert Good(c, m, pages, kids[i], h, KidLo(keys, i, lo), KidHi(keys, i, hi));
      GoodIds(c, m, pages, kids[i], h, KidLo(keys, i, lo), KidHi(keys, i, hi));
    }
  }

  /** The parent overflowed: it splits again into two halves with a separator of its own. */
  lemma {:induction false} StepSplit(c: nat, m: Mode, m2: Mode, pages: Pages, pages': Pages, f: Frame, left: Tree,
                                     sep: Key, right: Tree, id: PageId)
    returns (left': Tree, right': Tree)
    requires c >= HEADER + 2 * (DIR_ENTRY + RECORD_ID)
    requires FrameOk(c, m, pages, f) && Pending(c, m2, pages, f, left, sep, right)
    requires m2 == Loose || m2 == m
    requires var seps := NewSeps(pages, f, sep, right); var mid := SplitPoint(SepKeys(seps), CHILD_ID, c);
      && !InternalFits(seps, c) && mid < |seps|
      && pages' == pages[f.node.id := Internal(pages[f.node.id].leftmost, seps[..mid])]
                        [id := Internal(seps[mid].child, seps[mid+1..])]
    requires id !in pages
    ensures var seps := NewSeps(pages, f, sep, right); var mid := SplitPoint(SepKeys(seps), CHILD_ID, c);
      var kids := NewKids(f, Upper(NodeKeys(pages, f.node.id), sep), left, right);
      && Upper(NodeKeys(pages, f.node.id), sep) < |f.node.kids|
      && Waiting(c, StepMode(m, m2, pages, f, sep), pages', left', seps[mid].key, right', f.h, f.lo, f.hi)
      && left'.id == f.node.id && right'.id == id
      && Ids(left') + Ids(right') == FrameIds(f) + Ids(left) + Ids(right) + {id}
      && LeafIds(left') + LeafIds(right') == ForestLeaves(kids)
      && (!m.Loose? && Within(Weak, HoleLo(pages, f), Rank(sep), HoleHi(pages, f)) ==>
            Within(Weak, f.lo, Rank(seps[mid].key), f.hi))
  {
    hide Rank, Good, Ids, FrameIds, Built, InternalFits, NewSeps, NewKids, StepMode, Waiting, FrameOk, SepKeys,
      SplitPoint, Upper, Pending, ForestIds, InsertAt, NodeKeys;
    FrameKeys(c, m, pages, f);
    PendingShort(c, m2, pages, f, left, sep, right);
    StepBuilt(c, m, m2, pages, f, left, sep, right);
    var m' := StepMode(m, m2, pages, f, sep);
    var leftmost := pages[f.node.id].leftmost;
    var seps := NewSeps(pages, f, sep, right);
    var mid := SplitPoint(SepKeys(seps), CHILD_ID, c);
    var p := Upper(NodeKeys(pages, f.node.id), sep);
    var kids := NewKids(f, p, left, right);
    StepSplitPoint(c, NodeKeys(pages, f.node.id), sep, seps);
    BuiltSplit(c, m', pages, leftmost, seps, kids, f.h - 1, f.lo, f.hi, mid);
    BuiltIds(c, m', pages, leftmost, seps, kids, f.h - 1, f.lo, f.hi);
    BuiltShort(c, m', pages, leftmost, seps, kids, f.h - 1, f.lo, f.hi, mid);
    var hiL := Rank(seps[mid].key);
    MakeNode(c, m', pages, pages', f.node.id, leftmost, seps[..mid], kids[..mid+1], f.h - 1, f.lo, hiL);
    MakeNode(c, m', pages, pages', id, seps[mid].child, seps[mid+1..], kids[mid+1..], f.h - 1, hiL, f.hi);
    left', right' := NodeT(f.node.id, kids[..mid+1]), NodeT(id, kids[mid+1..]);
    ForestLeavesCut(kids, mid + 1);
    WaitingIntro(c, m', pages', left', seps[mid].key, right', f.h, f.lo, f.hi);
    if !m.Loose? && Within(Weak, HoleLo(pages, f), Rank(sep), HoleHi(pages, f)) {
      SepInBounds(c, m, pages, f, sep, mid);
    }
  }

  lemma PendingShort(c: nat, m: Mode, pages: Pages, f: Frame, left: Tree, sep: Key, right: Tree)
    requires Pending(c, m, pages, f, left, sep, right)
    ensures |sep| <= MaxKeyLen(c)
  {
    hide Rank, Good, Ids;
  }

  lemma WaitingIntro(c: nat, m: Mode, pages: Pages, left: Tree, sep: Key, right: Tree, h: nat, lo: real, hi: real)
    requires Good(c, m, pages, left, h, lo, Rank(sep)) && Good(c, m, pages, right, h, Rank(sep), hi)
    requires Within(m, lo, Rank(sep), hi) && (m.Strict? ==> lo < Rank(sep))
    requires |sep| <= MaxKeyLen(c) && Ids(left) !! Ids(right)
    ensures Waiting(c, m, pages, left, sep, right, h, lo, hi)
  {
  }

  lemma BuiltShort(c: nat, m: Mode, pages: Pages, leftmost: PageId, seps: seq<Separator>, kids: seq<Tree>,
                   h: nat, lo: real, hi: real, mid: nat)
    requires Built(c, m, pages, leftmost, seps, kids, h, lo, hi) && mid < |seps|
    ensures |seps[mid].key| <= MaxKeyLen(c) && |kids| == |seps| + 1
  {
    hide Rank, Good, Sorted, AllWithin, KidsGood;
    assert SepKeys(seps)[mid] == seps[mid].key;
  }

  lemma StepSplitPoint(c: nat, keys: seq<Key>, sep: Key, seps: seq<Separator>)
    requires c >= HEADER + 2 * (DIR_ENTRY + RECORD_ID)
    requires Short(keys, c) && Fits(keys, CHILD_ID, c) && |sep| <= MaxKeyLen(c)
    requires SepKeys(seps) == InsertAt(keys, Upper(keys, sep), sep)
    requires !InternalFits(seps, c)
    ensures var mid := SplitPoint(SepKeys(seps), CHILD_ID, c);
      1 <= mid < |seps| && InternalFits(seps[..mid], c) && InternalFits(seps[mid+1..], c)
  {
    hide Rank, Need, Upper, MaxKeyLen, SplitFrom, Short, Fits, InsertAt, SepKeys, SplitPoint;
    SplitInserted(keys, Upper(keys, sep), sep, CHILD_ID, c);
    SepSlices(seps, SplitPoint(SepKeys(seps), CHILD_ID, c));
  }

  lemma SepSlices(seps: seq<Separator>, mid: nat)
    requires mid < |seps|
    ensures SepKeys(seps[..mid]) == SepKeys(seps)[..mid]
    ensures SepKeys(seps[mid+1..]) == SepKeys(seps)[mid+1..]
  {
  }

  lemma FrameKeys(c: nat, m: Mode, pages: Pages, f: Frame)
    requires FrameOk(c, m, pages, f)
    ensures var keys := NodeKeys(pages, f.node.id);
      && f.h > 0 && f.node.id in pages && pages[f.node.id].Internal? && keys == SepKeys(pages[f.node.id].seps)
      && f.i <= |keys| && |f.node.kids| == |keys| + 1
      && Sorted(m, keys) && AllWithin(m, f.lo, keys, f.hi) && Short(keys, c) && Fits(keys, CHILD_ID, c)
  {
    hide Rank, Sorted, AllWithin, Short, Good, Need;
  }

  /** One accepted key too many: both sides of the split fit. */
  lemma SplitInserted(keys: seq<Key>, p: nat, key: Key, trailer: nat, c: nat)
    requires trailer == RECORD_ID || trailer == CHILD_ID
    requires c >= HEADER + 2 * (DIR_ENTRY + RECORD_ID)
    requires p <= |keys| && Short(keys, c) && |key| <= MaxKeyLen(c)
    requires Fits(keys, trailer, c) && !Fits(InsertAt(keys, p, key), trailer, c)
    ensures var keys' := InsertAt(keys, p, key); var mid := SplitPoint(keys', trailer, c);
      && 1 <= mid < |keys'|
      && Fits(keys'[..mid], trailer, c) && Fits(keys'[mid..], trailer, c) && Fits(keys'[mid+1..], trailer, c)
  {
    hide Need, MaxKeyLen, SplitFrom;
    var keys' := InsertAt(keys, p, key);
    assert RemoveAt(keys', p) == keys;
    forall i | 0 <= i < |keys'| ensures |keys'[i]| <= MaxKeyLen(c) {
      assert i != p ==> keys'[i] == keys[if i < p then i else i - 1];
    }
    SplitFits(keys', trailer, c, p);
  }

  lemma SepInBounds(c: nat, m: Mode, pages: Pages, f: Frame, sep: Key, mid: nat)
    requires FrameOk(c, m, pages, f) && !m.Loose? && mid <= |NodeKeys(pages, f.node.id)|
    requires Within(Weak, HoleLo(pages, f), Rank(sep), HoleHi(pages, f))
    ensures var keys := InsertAt(NodeKeys(pages, f.node.id), Upper(NodeKeys(pages, f.node.id), sep), sep);
      Within(Weak, f.lo, Rank(keys[mid]), f.hi)
  {
    hide Rank, Upper, Good, Sorted, Short, InternalFits;
    var keys := NodeKeys(pages, f.node.id);
    var p := Upper(keys, sep);
    if f.i > 0 { assert Within(m, f.lo, Rank(keys[f.i-1]), f.hi); }
    if f.i < |keys| { assert Within(m, f.lo, Rank(keys[f.i]), f.hi); }
    if mid != p {
      var mid0 := if mid < p then mid else mid - 1;
      assert InsertAt(keys, p, sep)[mid] == keys[mid0];
      assert Within(m, f.lo, Rank(keys[mid0]), f.hi);
    }
  }
}
