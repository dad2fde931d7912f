/** The shape of a B+Tree over its pages: which page ids form a tree, what every
    subtree keeps, and how a tree is taken apart along a root-to-leaf path. */
module TreeShape {
  import opened PageIds
  import opened KeyOrder
  import opened PageLayout

  datatype Tree = LeafT(id: PageId) | NodeT(id: PageId, kids: seq<Tree>)
  type Pages = map<PageId, Node>

  /** How much order a tree keeps. Trees with distinct keys are `Strict`; `Weak` trees may
      hold equal keys on both sides of a separator; a `Loose` tree is only sorted page by page. */
  datatype Mode = Strict | Weak | Loose

  /** Key bounds of a subtree: [lo, hi) in a strict tree, [lo, hi] in a weak one. */
  predicate Within(m: Mode, lo: real, x: real, hi: real) {
    m.Loose? || (lo <= x && (x < hi || (m.Weak? && x == hi)))
  }

  ghost predicate Sorted(m: Mode, keys: seq<Key>) {
    forall i, j :: 0 <= i < j < |keys| ==>
      Rank(keys[i]) <= Rank(keys[j]) && (m.Strict? ==> Rank(keys[i]) < Rank(keys[j]))
  }

  ghost predicate AllWithin(m: Mode, lo: real, keys: seq<Key>, hi: real) {
    forall i :: 0 <= i < |keys| ==> Within(m, lo, Rank(keys[i]), hi)
  }

  /** Number of leading keys that are at most `key`. */
  ghost function Upper(keys: seq<Key>, key: Key): (i: nat)
    ensures i <= |keys|
    ensures forall j :: 0 <= j < i ==> Rank(keys[j]) <= Rank(key)
    ensures i < |keys| ==> Rank(key) < Rank(keys[i])
  {
    if keys == [] || Rank(key) < Rank(keys[0]) then 0 else 1 + Upper(keys[1..], key)
  }

  /** Number of leading keys that are below `key`. */
  ghost function Lower(keys: seq<Key>, key: Key): (i: nat)
    ensures i <= |keys|
    ensures forall j :: 0 <= j < i ==> Rank(keys[j]) < Rank(key)
    ensures i < |keys| ==> Rank(key) <= Rank(keys[i])
  {
    if keys == [] || Rank(key) <= Rank(keys[0]) then 0 else 1 + Lower(keys[1..], key)
  }

  ghost function Ids(t: Tree): set<PageId> {
    match t
    case LeafT(id) => {id}
    case NodeT(id, kids) => {id} + ForestIds(kids)
  }

  ghost function ForestIds(ts: seq<Tree>): set<PageId> {
    set i, x | 0 <= i < |ts| && x in Ids(ts[i]) :: x
  }

  ghost predicate Apart(id: PageId, kids: seq<Tree>) {
    && (forall i :: 0 <= i < |kids| ==> id !in Ids(kids[i]))
    && (forall i, j :: 0 <= i < j < |kids| ==> Ids(kids[i]) !! Ids(kids[j]))
  }

  ghost function KidLo(keys: seq<Key>, i: nat, lo: real): real
    requires i <= |keys|
  {
    if i == 0 then lo else Rank(keys[i-1])
  }

  ghost function KidHi(keys: seq<Key>, i: nat, hi: real): real
    requires i <= |keys|
  {
    if i == |keys| then hi else Rank(keys[i])
  }

  /** A list of separators with its children: linked, sorted, in bounds, with accepted keys. */
  ghost predicate Parts(c: nat, m: Mode, leftmost: PageId, seps: seq<Separator>, kids: seq<Tree>, lo: real, hi: real) {
    var keys := SepKeys(seps);
    && |kids| == |seps| + 1
    && leftmost == kids[0].id
    && (forall i :: 0 <= i < |seps| ==> seps[i].child == kids[i+1].id)
    && Sorted(m, keys) && AllWithin(m, lo, keys, hi) && Short(keys, c)
  }

  ghost predicate LeafParts(c: nat, m: Mode, es: seq<Entry>, lo: real, hi: real) {
    var keys := EntryKeys(es);
    Sorted(m, keys) && AllWithin(m, lo, keys, hi) && Short(keys, c)
  }

  ghost predicate InnerPageOk(c: nat, m: Mode, page: Node, kids: seq<Tree>, lo: real, hi: real) {
    page.Internal? && Parts(c, m, page.leftmost, page.seps, kids, lo, hi) && InternalFits(page.seps, c)
  }

  ghost predicate LeafPageOk(c: nat, m: Mode, page: Node, lo: real, hi: real) {
    page.Leaf? && LeafParts(c, m, page.entries, lo, hi) && LeafFits(page.entries, c)
  }

  ghost predicate KidsGood(c: nat, m: Mode, pages: Pages, keys: seq<Key>, kids: seq<Tree>, h: nat, lo: real, hi: real)
    requires |kids| == |keys| + 1
    decreases kids, 0
  {
    forall i :: 0 <= i < |kids| ==> Good(c, m, pages, kids[i], h, KidLo(keys, i, lo), KidHi(keys, i, hi))
  }

  /** The subtree `t` of height `h` is laid out in `pages` with all keys between `lo` and `hi`. */
  ghost predicate Good(c: nat, m: Mode, pages: Pages, t: Tree, h: nat, lo: real, hi: real)
    decreases t, 1
  {
    && t.id in pages
    && match t
       case LeafT(id) => h == 0 && LeafPageOk(c, m, pages[id], lo, hi)
       case NodeT(id, kids) =>
         && h > 0
         && InnerPageOk(c, m, pages[id], kids, lo, hi)
         && Apart(id, kids)
         && KidsGood(c, m, pages, SepKeys(pages[id].seps), kids, h - 1, lo, hi)
  }

  /** The pages decide the tree: above leaves only, it has exactly the children its page names. */
  lemma TwoLevels(c: nat, m: Mode, pages: Pages, t: Tree, h: nat, lo: real, hi: real, kids: seq<Tree>)
    requires Good(c, m, pages, t, h, lo, hi) && pages[t.id].Internal? && |kids| == |pages[t.id].seps| + 1
    requires kids[0].id == pages[t.id].leftmost
    requires forall i :: 0 <= i < |pages[t.id].seps| ==> kids[i+1].id == pages[t.id].seps[i].child
    requires forall i :: 0 <= i < |kids| ==> kids[i].LeafT? && kids[i].id in pages && pages[kids[i].id].Leaf?
    ensures t == NodeT(t.id, kids)
  {
    hide Rank, Apart, Sorted, AllWithin, Short, InternalFits, KidLo, KidHi;
    if t.LeafT? {
      IsLeaf(c, m, pages[t.id], lo, hi);
    } else {
      forall i | 0 <= i < |t.kids| ensures t.kids[i] == kids[i] {
        if i > 0 {
          assert pages[t.id].seps[i-1].child == t.kids[i-1+1].id == kids[i-1+1].id;
        }
        var keys := SepKeys(pages[t.id].seps);
        assert Good(c, m, pages, t.kids[i], h - 1, KidLo(keys, i, lo), KidHi(keys, i, hi));
      }
    }
  }

  ghost predicate Agree(pages: Pages, pages': Pages, ids: set<PageId>) {
    forall x :: x in ids ==> x in pages && x in pages' && pages[x] == pages'[x]
  }

  lemma InnerLen(c: nat, m: Mode, page: Node, kids: seq<Tree>, lo: real, hi: real)
    requires InnerPageOk(c, m, page, kids, lo, hi)
    ensures page.Internal? && |kids| == |SepKeys(page.seps)| + 1 == |page.seps| + 1
  {
    hide Rank, Sorted, AllWithin, Short, InternalFits;
  }

  lemma GoodNode(c: nat, m: Mode, pages: Pages, t: Tree, h: nat, lo: real, hi: real)
    requires t.NodeT? && h > 0 && t.id in pages && InnerPageOk(c, m, pages[t.id], t.kids, lo, hi) && Apart(t.id, t.kids)
    requires |t.kids| == |SepKeys(pages[t.id].seps)| + 1
    requires KidsGood(c, m, pages, SepKeys(pages[t.id].seps), t.kids, h - 1, lo, hi)
    ensures Good(c, m, pages, t, h, lo, hi)
  {
    hide Rank, InnerPageOk, Apart, KidsGood;
  }

  lemma {:induction false} GoodIds(c: nat, m: Mode, pages: Pages, t: Tree, h: nat, lo: real, hi: real)
    requires Good(c, m, pages, t, h, lo, hi)
    ensures Ids(t) <= pages.Keys
    decreases t
  {
    hide Rank, InnerPageOk, LeafPageOk, Apart, KidLo, KidHi;
    if t.NodeT? {
      InnerLen(c, m, pages[t.id], t.kids, lo, hi);
      var keys := SepKeys(pages[t.id].seps);
      forall i | 0 <= i < |t.kids| ensures Ids(t.kids[i]) <= pages.Keys {
        GoodIds(c, m, pages, t.kids[i], h - 1, KidLo(keys, i, lo), KidHi(keys, i, hi));
      }
    }
  }

  /** A subtree only depends on its own pages. */
  lemma {:induction false} GoodFrame(c: nat, m: Mode, pages: Pages, pages': Pages, t: Tree, h: nat, lo: real, hi: real)
    requires Good(c, m, pages, t, h, lo, hi)
    requires Agree(pages, pages', Ids(t))
    ensures Good(c, m, pages', t, h, lo, hi)
    decreases t, 1
  {
    hide Rank, InnerPageOk, LeafPageOk, Apart, KidsGood, ForestIds;
    if t.NodeT? {
      InnerLen(c, m, pages[t.id], t.kids, lo, hi);
      KidsFrame(c, m, pages, pages', SepKeys(pages[t.id].seps), t.kids, h - 1, lo, hi);
    }
  }

  lemma {:induction false} KidsFrame(c: nat, m: Mode, pages: Pages, pages': Pages, keys: seq<Key>, kids: seq<Tree>,
                                     h: nat, lo: real, hi: real)
    requires |kids| == |keys| + 1 && KidsGood(c, m, pages, keys, kids, h, lo, hi)
    requires Agree(pages, pages', ForestIds(kids))
    ensures KidsGood(c, m, pages', keys, kids, h, lo, hi)
    decreases kids, 0
  {
    hide Rank, KidLo, KidHi, Good, Ids;
    forall i | 0 <= i < |kids|
      ensures Good(c, m, pages', kids[i], h, KidLo(keys, i, lo), KidHi(keys, i, hi))
    {
      assert Ids(kids[i]) <= ForestIds(kids);
      GoodFrame(c, m, pages, pages', kids[i], h, KidLo(keys, i, lo), KidHi(keys, i, hi));
    }
  }

  /** Rewriting one leaf with fewer entries keeps the tree. */
  lemma {:induction false} GoodShrink(c: nat, m: Mode, pages: Pages, pages': Pages, t: Tree, h: nat, lo: real, hi: real,
                                      leaf: PageId, p: nat)
    requires Good(c, m, pages, t, h, lo, hi)
    requires leaf in pages && pages[leaf].Leaf? && p < |pages[leaf].entries|
    requires pages' == pages[leaf := Leaf(RemoveAt(pages[leaf].entries, p), pages[leaf].next)]
    ensures Good(c, m, pages', t, h, lo, hi)
    decreases t
  {
    hide Rank, Apart, LeafPageOk, InnerPageOk, RemoveAt, KidLo, KidHi;
    if t.LeafT? {
      if t.id == leaf {
        LeafShrink(c, m, pages[leaf], p, lo, hi);
        IsLeaf(c, m, pages[leaf], lo, hi);
      }
    } else {
      InnerLen(c, m, pages[t.id], t.kids, lo, hi);
      var keys := SepKeys(pages[t.id].seps);
      forall i | 0 <= i < |t.kids|
        ensures Good(c, m, pages', t.kids[i], h - 1, KidLo(keys, i, lo), KidHi(keys, i, hi))
      {
        GoodShrink(c, m, pages, pages', t.kids[i], h - 1, KidLo(keys, i, lo), KidHi(keys, i, hi), leaf, p);
      }
    }
  }

  lemma IsLeaf(c: nat, m: Mode, page: Node, lo: real, hi: real)
    requires LeafPageOk(c, m, page, lo, hi)
    ensures page.Leaf?
  {
  }

  lemma LeafShrink(c: nat, m: Mode, page: Node, p: nat, lo: real, hi: real)
    requires LeafPageOk(c, m, page, lo, hi) && p < |page.entries|
    ensures LeafPageOk(c, m, Leaf(RemoveAt(page.entries, p), page.next), lo, hi)
  {
    hide Rank, Need;
    var es := page.entries;
    NeedRemove(EntryKeys(es), p, RECORD_ID);
    assert EntryKeys(RemoveAt(es, p)) == RemoveAt(EntryKeys(es), p);
  }

  /** Without its key bounds every subtree is still sorted page by page. */
  lemma {:induction false} ToLoose(c: nat, m: Mode, pages: Pages, t: Tree, h: nat, lo: real, hi: real, lo': real,
                                   hi': real)
    requires Good(c, m, pages, t, h, lo, hi)
    ensures Good(c, Loose, pages, t, h, lo', hi')
    decreases t
  {
    hide Rank, InnerPageOk, LeafPageOk, Apart, KidLo, KidHi;
    if t.NodeT? {
      InnerLen(c, m, pages[t.id], t.kids, lo, hi);
      InnerToLoose(c, m, pages[t.id], t.kids, lo, hi, lo', hi');
      var keys := SepKeys(pages[t.id].seps);
      forall i | 0 <= i < |t.kids|
        ensures Good(c, Loose, pages, t.kids[i], h - 1, KidLo(keys, i, lo'), KidHi(keys, i, hi'))
      {
        ToLoose(c, m, pages, t.kids[i], h - 1, KidLo(keys, i, lo), KidHi(keys, i, hi), KidLo(keys, i, lo'),
                KidHi(keys, i, hi'));
      }
    } else {
      LeafToLoose(c, m, pages[t.id], lo, hi, lo', hi');
    }
  }

  lemma InnerToLoose(c: nat, m: Mode, page: Node, kids: seq<Tree>, lo: real, hi: real, lo': real, hi': real)
    requires InnerPageOk(c, m, page, kids, lo, hi)
    ensures InnerPageOk(c, Loose, page, kids, lo', hi')
  {
    hide Rank, Short, InternalFits;
  }

  lemma LeafToLoose(c: nat, m: Mode, page: Node, lo: real, hi: real, lo': real, hi': real)
    requires LeafPageOk(c, m, page, lo, hi)
    ensures LeafPageOk(c, Loose, page, lo', hi')
  {
    hide Rank, Short, LeafFits;
  }

  // ---- Leaves in tree order

  ghost function LeafIds(t: Tree): seq<PageId>
    decreases t, 1
  {
    match t
    case LeafT(id) => [id]
    case NodeT(_, kids) => ForestLeaves(kids)
  }

  ghost function ForestLeaves(ts: seq<Tree>): seq<PageId>
    decreases ts, 0
  {
    if ts == [] then [] else LeafIds(ts[0]) + ForestLeaves(ts[1..])
  }

  lemma {:induction false} ForestLeavesConcat(a: seq<Tree>, b: seq<Tree>)
    ensures ForestLeaves(a + b) == ForestLeaves(a) + ForestLeaves(b)
  {
    if a == [] {
      assert a + b == b;
    } else {
      ForestLeavesConcat(a[1..], b);
      assert (a + b)[1..] == a[1..] + b && (a + b)[0] == a[0];
    }
  }

  lemma ForestLeavesCut(ts: seq<Tree>, n: nat)
    requires n <= |ts|
    ensures ForestLeaves(ts[..n]) + ForestLeaves(ts[n..]) == ForestLeaves(ts)
  {
    assert ts == ts[..n] + ts[n..];
    ForestLeavesConcat(ts[..n], ts[n..]);
  }

  /** Splits the leaves of a forest around tree `i`. */
  lemma ForestLeavesAt(ts: seq<Tree>, i: nat)
    requires i < |ts|
    ensures ForestLeaves(ts) == ForestLeaves(ts[..i]) + LeafIds(ts[i]) + ForestLeaves(ts[i+1..])
  {
    assert ts == ts[..i] + ts[i..];
    ForestLeavesConcat(ts[..i], ts[i..]);
    assert ts[i..][1..] == ts[i+1..];
  }

  lemma {:induction false} LeavesAreIds(t: Tree)
    ensures forall x :: x in LeafIds(t) ==> x in Ids(t)
    decreases t, 1
  {
    if t.NodeT? {
      ForestLeavesAreIds(t.kids);
    }
  }

  lemma {:induction false} ForestLeavesAreIds(ts: seq<Tree>)
    ensures forall x :: x in ForestLeaves(ts) ==> x in ForestIds(ts)
    decreases ts, 0
  {
    if ts != [] {
      LeavesAreIds(ts[0]);
      ForestLeavesAreIds(ts[1..]);
      forall x | x in ForestIds(ts[1..]) ensures x in ForestIds(ts) {
        var i :| 0 <= i < |ts[1..]| && x in Ids(ts[1..][i]);
        assert ts[1..][i] == ts[i+1];
      }
    }
  }

  /** A well-formed subtree has at least one leaf. */
  lemma {:induction false} HasLeaf(c: nat, m: Mode, pages: Pages, t: Tree, h: nat, lo: real, hi: real)
    requires Good(c, m, pages, t, h, lo, hi)
    ensures LeafIds(t) != []
    decreases t
  {
    hide Rank, InnerPageOk, LeafPageOk, Apart, KidLo, KidHi, Ids;
    if t.NodeT? {
      InnerLen(c, m, pages[t.id], t.kids, lo, hi);
      var keys := SepKeys(pages[t.id].seps);
      HasLeaf(c, m, pages, t.kids[0], h - 1, KidLo(keys, 0, lo), KidHi(keys, 0, hi));
    }
  }

  // ---- Entries stored along a list of leaves

  ghost function Contents(pages: Pages, ids: seq<PageId>): seq<Entry> {
    if ids == [] then []
    else (if ids[0] in pages && pages[ids[0]].Leaf? then pages[ids[0]].entries else []) + Contents(pages, ids[1..])
  }

  lemma {:induction false} ContentsConcat(pages: Pages, a: seq<PageId>, b: seq<PageId>)
    ensures Contents(pages, a + b) == Contents(pages, a) + Contents(pages, b)
  {
    if a == [] {
      assert a + b == b;
    } else {
      ContentsConcat(pages, a[1..], b);
      assert (a + b)[1..] == a[1..] + b && (a + b)[0] == a[0];
    }
  }

  lemma {:induction false} ContentsFrame(pages: Pages, pages': Pages, ids: seq<PageId>)
    requires forall x :: x in ids ==> x in pages && x in pages' && (pages[x].Leaf? <==> pages'[x].Leaf?)
    requires forall x :: x in ids && pages[x].Leaf? ==> pages[x].entries == pages'[x].entries
    ensures Contents(pages', ids) == Contents(pages, ids)
  {
    if ids != [] {
      assert ids[0] in ids && forall x :: x in ids[1..] ==> x in ids;
      ContentsFrame(pages, pages', ids[1..]);
    }
  }

  ghost predicate AllBetween(m: Mode, lo: real, es: seq<Entry>, hi: real) {
    forall i :: 0 <= i < |es| ==> Within(m, lo, Rank(es[i].key), hi)
  }

  /** Every entry below a subtree lies within its bounds. */
  lemma {:induction false} SubtreeBounds(c: nat, m: Mode, pages: Pages, t: Tree, h: nat, lo: real, hi: real)
    requires Good(c, m, pages, t, h, lo, hi)
    ensures AllBetween(m, lo, Contents(pages, LeafIds(t)), hi)
    decreases t, 1
  {
    hide Rank, InnerPageOk, LeafPageOk, Apart, KidLo, KidHi, Ids, AllBetween, Contents;
    if t.LeafT? {
      LeafBounds(c, m, pages, t.id, lo, hi);
    } else {
      InnerLen(c, m, pages[t.id], t.kids, lo, hi);
      var keys := SepKeys(pages[t.id].seps);
      forall i | 0 <= i < |t.kids| ensures AllBetween(m, lo, Contents(pages, LeafIds(t.kids[i])), hi) {
        SubtreeBounds(c, m, pages, t.kids[i], h - 1, KidLo(keys, i, lo), KidHi(keys, i, hi));
        Widen(c, m, pages[t.id], t.kids, lo, hi, i, Contents(pages, LeafIds(t.kids[i])));
      }
      ForestBounds(pages, m, t.kids, lo, hi);
    }
  }

  lemma LeafBounds(c: nat, m: Mode, pages: Pages, id: PageId, lo: real, hi: real)
    requires id in pages && LeafPageOk(c, m, pages[id], lo, hi)
    ensures AllBetween(m, lo, Contents(pages, [id]), hi)
  {
    hide Rank, Sorted, Short, LeafFits;
    var es := pages[id].entries;
    assert [id][1..] == [];
    assert Contents(pages, [id]) == es;
    forall i | 0 <= i < |es| ensures Within(m, lo, Rank(es[i].key), hi) {
      assert EntryKeys(es)[i] == es[i].key;
    }
  }

  lemma Widen(c: nat, m: Mode, page: Node, kids: seq<Tree>, lo: real, hi: real, i: nat, es: seq<Entry>)
    requires InnerPageOk(c, m, page, kids, lo, hi) && i < |kids|
    requires AllBetween(m, KidLo(SepKeys(page.seps), i, lo), es, KidHi(SepKeys(page.seps), i, hi))
    ensures AllBetween(m, lo, es, hi)
  {
    hide Rank, Sorted, Short, InternalFits;
    var keys := SepKeys(page.seps);
    if i > 0 { assert Within(m, lo, Rank(keys[i-1]), hi); }
    if i < |keys| { assert Within(m, lo, Rank(keys[i]), hi); }
  }

  lemma {:induction false} ForestBounds(pages: Pages, m: Mode, ts: seq<Tree>, lo: real, hi: real)
    requires forall i :: 0 <= i < |ts| ==> AllBetween(m, lo, Contents(pages, LeafIds(ts[i])), hi)
    ensures AllBetween(m, lo, Contents(pages, ForestLeaves(ts)), hi)
    decreases ts, 0
  {
    if ts != [] {
      ForestBounds(pages, m, ts[1..], lo, hi);
      ContentsConcat(pages, LeafIds(ts[0]), ForestLeaves(ts[1..]));
    }
  }

  lemma SiblingKeys(keys: seq<Key>, m: Mode, lo: real, hi: real, i: nat, j: nat)
    requires !m.Loose? && lo <= hi && Sorted(m, keys) && AllWithin(m, lo, keys, hi)
    requires i <= |keys| && j <= |keys|
    ensures lo <= KidLo(keys, j, lo) && KidHi(keys, j, hi) <= hi
    ensures j < i ==> KidHi(keys, j, hi) <= KidLo(keys, i, lo)
    ensures j > i ==> KidHi(keys, i, hi) <= KidLo(keys, j, lo)
  {
    hide Rank;
    if j > 0 { assert Within(m, lo, Rank(keys[j-1]), hi); }
    if j < |keys| { assert Within(m, lo, Rank(keys[j]), hi); }
  }

  /** Children of a node left of index `i` hold keys up to separator `i - 1`, and right of it from separator `i`. */
  lemma SiblingBounds(c: nat, m: Mode, pages: Pages, t: Tree, h: nat, lo: real, hi: real, i: nat)
    requires !m.Loose? && lo <= hi && t.NodeT? && Good(c, m, pages, t, h, lo, hi) && i < |t.kids|
    ensures var keys := SepKeys(pages[t.id].seps);
      && AllBetween(m, lo, Contents(pages, ForestLeaves(t.kids[..i])), KidLo(keys, i, lo))
      && AllBetween(m, KidHi(keys, i, hi), Contents(pages, ForestLeaves(t.kids[i+1..])), hi)
  {
    hide Rank, Sorted, AllWithin, Apart, Short, InternalFits, KidLo, KidHi;
    var keys := SepKeys(pages[t.id].seps);
    forall j | 0 <= j < |t.kids|
      ensures j < i ==> AllBetween(m, lo, Contents(pages, LeafIds(t.kids[j])), KidLo(keys, i, lo))
      ensures j > i ==> AllBetween(m, KidHi(keys, i, hi), Contents(pages, LeafIds(t.kids[j])), hi)
    {
      assert Good(c, m, pages, t.kids[j], h - 1, KidLo(keys, j, lo), KidHi(keys, j, hi));
      SubtreeBounds(c, m, pages, t.kids[j], h - 1, KidLo(keys, j, lo), KidHi(keys, j, hi));
      SiblingKeys(keys, m, lo, hi, i, j);
    }
    ForestBounds(pages, m, t.kids[..i], lo, KidLo(keys, i, lo));
    ForestBounds(pages, m, t.kids[i+1..], KidHi(keys, i, hi), hi);
  }
}
