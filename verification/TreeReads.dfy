/** What reading along the leaf chain sees: order, and the entries a scan has still to return. */
module TreeReads {
  import opened PageIds
  import opened KeyOrder
  import opened KeyCodec
  import opened PageLayout
  import opened EntryList
  import opened TreeShape
  import opened TreePath
  import opened LeafChain
  import opened ScanPosition

  /** Key order, and in a tree of distinct keys strict key order. */
  ghost predicate InOrder(m: Mode, es: seq<Entry>) {
    KeySorted(es) && (m.Strict? ==> forall i, j :: 0 <= i < j < |es| ==> Rank(es[i].key) < Rank(es[j].key))
  }

  /** The entries below a well-bounded subtree come in key order. */
  lemma {:induction false} SubtreeSorted(c: nat, m: Mode, pages: Pages, t: Tree, h: nat, lo: real, hi: real)
    requires Good(c, m, pages, t, h, lo, hi) && !m.Loose? && lo <= hi
    ensures InOrder(m, Contents(pages, LeafIds(t)))
    decreases t, 1, 0
  {
    hide Rank, InnerPageOk, LeafPageOk, Apart, Ids, InOrder, Contents, KidsGood;
    if t.LeafT? {
      LeafSorted(c, m, pages, t.id, lo, hi);
    } else {
      InnerLen(c, m, pages[t.id], t.kids, lo, hi);
      assert t.kids[0..] == t.kids;
      KidsSorted(c, m, pages, t, h, lo, hi, 0);
    }
  }

  lemma LeafSorted(c: nat, m: Mode, pages: Pages, id: PageId, lo: real, hi: real)
    requires id in pages && LeafPageOk(c, m, pages[id], lo, hi)
    ensures InOrder(m, Contents(pages, [id])) && Contents(pages, [id]) == pages[id].entries
  {
    hide Rank;
    assert [id][1..] == [];
    var es := pages[id].entries;
    assert Contents(pages, [id]) == es;
    assert forall i :: 0 <= i < |es| ==> es[i].key == EntryKeys(es)[i];
  }

  lemma {:induction false} KidsSorted(c: nat, m: Mode, pages: Pages, t: Tree, h: nat, lo: real, hi: real, i: nat)
    requires t.NodeT? && Good(c, m, pages, t, h, lo, hi) && !m.Loose? && lo <= hi && i <= |t.kids|
    ensures InOrder(m, Contents(pages, ForestLeaves(t.kids[i..])))
    ensures i < |t.kids| && |t.kids| == |SepKeys(pages[t.id].seps)| + 1 ==>
      AllBetween(m, KidLo(SepKeys(pages[t.id].seps), i, lo), Contents(pages, ForestLeaves(t.kids[i..])), hi)
    decreases t, 0, |t.kids| - i
  {
    hide Rank, InnerPageOk, LeafPageOk, Apart, Ids, InOrder, Contents, KidLo, KidHi, LeafIds, AllBetween;
    InnerLen(c, m, pages[t.id], t.kids, lo, hi);
    var keys := SepKeys(pages[t.id].seps);
    if i == |t.kids| {
      assert t.kids[i..] == [];
      NothingSorted(pages);
    } else {
      var rest := t.kids[i+1..];
      assert t.kids[i..][0] == t.kids[i] && t.kids[i..][1..] == rest;
      KidsSorted(c, m, pages, t, h, lo, hi, i + 1);
      assert Good(c, m, pages, t.kids[i], h - 1, KidLo(keys, i, lo), KidHi(keys, i, hi));
      NodeSeps(c, m, pages[t.id], t.kids, lo, hi);
      BoundsMeet(keys, m, lo, hi, i);
      SubtreeSorted(c, m, pages, t.kids[i], h - 1, KidLo(keys, i, lo), KidHi(keys, i, hi));
      SubtreeBounds(c, m, pages, t.kids[i], h - 1, KidLo(keys, i, lo), KidHi(keys, i, hi));
      ContentsConcat(pages, LeafIds(t.kids[i]), ForestLeaves(rest));
      if i + 1 < |t.kids| {
        Joined(m, KidLo(keys, i, lo), KidHi(keys, i, hi), KidLo(keys, i + 1, lo), hi,
               Contents(pages, LeafIds(t.kids[i])), Contents(pages, ForestLeaves(rest)));
      } else {
        assert rest == [];
        NothingSorted(pages);
        Joined(m, KidLo(keys, i, lo), KidHi(keys, i, hi), hi, hi, Contents(pages, LeafIds(t.kids[i])), []);
      }
    }
  }

  lemma NothingSorted(pages: Pages)
    ensures Contents(pages, ForestLeaves([])) == [] && (forall m: Mode :: InOrder(m, []))
    ensures forall m: Mode, lo: real, hi: real :: AllBetween(m, lo, [], hi)
  {
  }

  lemma NodeSeps(c: nat, m: Mode, page: Node, kids: seq<Tree>, lo: real, hi: real)
    requires InnerPageOk(c, m, page, kids, lo, hi)
    ensures Sorted(m, SepKeys(page.seps)) && AllWithin(m, lo, SepKeys(page.seps), hi)
  {
    hide Rank, Sorted, AllWithin, Short, InternalFits;
  }

  lemma BoundsMeet(keys: seq<Key>, m: Mode, lo: real, hi: real, i: nat)
    requires i <= |keys| && !m.Loose? && lo <= hi && Sorted(m, keys) && AllWithin(m, lo, keys, hi)
    ensures lo <= KidLo(keys, i, lo) <= KidHi(keys, i, hi) <= hi
    ensures i < |keys| ==> KidHi(keys, i, hi) == KidLo(keys, i + 1, lo)
    ensures i == |keys| ==> KidHi(keys, i, hi) == hi
  {
    hide Rank;
    if i > 0 { assert Within(m, lo, Rank(keys[i-1]), hi); }
    if i < |keys| { assert Within(m, lo, Rank(keys[i]), hi); }
  }

  lemma Joined(m: Mode, lo: real, mid: real, mid': real, hi: real, a: seq<Entry>, b: seq<Entry>)
    requires !m.Loose? && lo <= mid <= mid' <= hi && InOrder(m, a) && InOrder(m, b)
    requires AllBetween(m, lo, a, mid) && AllBetween(m, mid', b, hi)
    ensures InOrder(m, a + b) && AllBetween(m, lo, a + b, hi)
  {
    hide Rank;
  }

  // ---- Scans

  /** The condition a scan takes along to the next leaf. */
  function Carry(p: Position): Position {
    match p
    case Start(_) => p
    case After(key, _) => Start(Included(key))
  }

  ghost predicate AllDistinct(es: seq<Entry>) {
    forall i, j :: 0 <= i < j < |es| ==> es[i] != es[j]
  }

  ghost function WantedIn(es: seq<Entry>, p: Position): set<Entry> {
    set e | e in es && Wanted(p, e)
  }

  /** What a scan at position `p` of leaf `j` has still to return. */
  ghost function ToReturn(pages: Pages, chain: seq<PageId>, j: nat, p: Position): set<Entry>
    requires Chained(pages, chain) && j < |chain|
  {
    WantedIn(pages[chain[j]].entries, p) + WantedIn(Contents(pages, chain[j+1..]), Carry(p))
  }

  /** How the entries of leaf `j` and of the leaves after it lie to each other. */
  lemma LeafAndRest(pages: Pages, chain: seq<PageId>, j: nat)
    requires Chained(pages, chain) && j < |chain|
    ensures var es, rest := pages[chain[j]].entries, Contents(pages, chain[j+1..]);
      && (KeySorted(Contents(pages, chain)) ==>
            PageSorted(es) && forall x, y :: x in es && y in rest ==> Rank(x.key) <= Rank(y.key))
      && (AllDistinct(Contents(pages, chain)) ==> AllDistinct(es) && forall x :: x in es ==> x !in rest)
  {
    hide Rank, Contents, Chained;
    assert chain[j] in pages && pages[chain[j]].Leaf? by { OnChain(pages, chain, j); }
    ContentsAt(pages, chain, j);
    Around(Contents(pages, chain[..j]), pages[chain[j]].entries, Contents(pages, chain[j+1..]));
  }

  lemma OnChain(pages: Pages, chain: seq<PageId>, j: nat)
    requires Chained(pages, chain) && j < |chain|
    ensures chain[j] in pages && pages[chain[j]].Leaf? && pages[chain[j]].next == NextIn(chain, j)
    ensures pages[chain[j]].next == NO_NEXT_LEAF <==> j + 1 == |chain|
  {
  }

  lemma Around(a: seq<Entry>, es: seq<Entry>, z: seq<Entry>)
    ensures KeySorted(a + es + z) ==> PageSorted(es) && forall x, y :: x in es && y in z ==> Rank(x.key) <= Rank(y.key)
    ensures AllDistinct(a + es + z) ==> AllDistinct(es) && forall x :: x in es ==> x !in z
  {
    hide Rank, KeySorted, AllDistinct, PageSorted;
    assert a + es + z == a + (es + z);
    SortedEnd(a, es + z);
    SortedParts(es, z);
    DistinctEnd(a, es + z);
    DistinctParts(es, z);
  }

  lemma SortedEnd(a: seq<Entry>, b: seq<Entry>)
    ensures KeySorted(a + b) ==> KeySorted(b)
  {
    hide Rank;
    assert forall i :: 0 <= i < |b| ==> (a + b)[|a|+i] == b[i];
  }

  lemma SortedParts(es: seq<Entry>, z: seq<Entry>)
    ensures KeySorted(es + z) ==> PageSorted(es) && forall x, y :: x in es && y in z ==> Rank(x.key) <= Rank(y.key)
  {
    hide Rank;
    var all := es + z;
    assert forall i :: 0 <= i < |es| ==> all[i] == es[i];
    assert forall i :: 0 <= i < |z| ==> all[|es|+i] == z[i];
  }

  lemma DistinctEnd(a: seq<Entry>, b: seq<Entry>)
    ensures AllDistinct(a + b) ==> AllDistinct(b)
  {
    assert forall i :: 0 <= i < |b| ==> (a + b)[|a|+i] == b[i];
  }

  lemma DistinctParts(es: seq<Entry>, z: seq<Entry>)
    ensures AllDistinct(es + z) ==> AllDistinct(es) && forall x :: x in es ==> x !in z
  {
    var all := es + z;
    assert forall i :: 0 <= i < |es| ==> all[i] == es[i];
    assert forall i :: 0 <= i < |z| ==> all[|es|+i] == z[i];
  }

  /** `e` is the first entry of a leaf, in reading order, that the scan wants. */
  ghost predicate FirstWanted(es: seq<Entry>, p: Position, e: Entry) {
    e in es && Wanted(p, e) && forall x :: x in es && Wanted(p, x) ==> x == e || EntryBefore(e, x)
  }

  /** Returning the first wanted entry takes exactly that entry off what is left, and nothing smaller is left.
      Only a second copy on a later leaf stays. */
  lemma ReturnsOne(pages: Pages, chain: seq<PageId>, j: nat, p: Position, e: Entry)
    requires Chained(pages, chain) && j < |chain|
    requires KeySorted(Contents(pages, chain)) && FirstWanted(pages[chain[j]].entries, p, e)
    ensures var left, left' := ToReturn(pages, chain, j, p), ToReturn(pages, chain, j, After(e.key, e.rid));
      && left == left' + {e}
      && (AllDistinct(Contents(pages, chain)) ==> e !in left')
      && forall x :: x in left ==> Rank(e.key) <= Rank(x.key)
  {
    hide Rank, Contents, Chained, KeySorted, AllDistinct;
    LeafAndRest(pages, chain, j);
    assert chain[j] in pages && pages[chain[j]].Leaf? by { OnChain(pages, chain, j); }
    var es, rest := pages[chain[j]].entries, Contents(pages, chain[j+1..]);
    WantedAfter(es, p, e);
    assert WantedIn(rest, Carry(p)) == WantedIn(rest, Carry(After(e.key, e.rid))) by {
      forall x | x in rest ensures Wanted(Carry(p), x) && Wanted(Carry(After(e.key, e.rid)), x) {
        assert Rank(e.key) <= Rank(x.key);
      }
    }
  }

  lemma WantedAfter(es: seq<Entry>, p: Position, e: Entry)
    requires FirstWanted(es, p, e)
    ensures WantedIn(es, After(e.key, e.rid)) == WantedIn(es, p) - {e}
    ensures forall x :: x in es && Wanted(p, x) ==> Rank(e.key) <= Rank(x.key)
  {
    hide Rank;
    forall x | x in es
      ensures Wanted(After(e.key, e.rid), x) <==> Wanted(p, x) && x != e
      ensures Wanted(p, x) ==> Rank(e.key) <= Rank(x.key)
    {
    }
  }

  /** Moving on from a leaf with nothing wanted loses nothing. */
  lemma SkipsLeaf(pages: Pages, chain: seq<PageId>, j: nat, p: Position)
    requires Chained(pages, chain) && j < |chain|
    requires forall x :: x in pages[chain[j]].entries ==> !Wanted(p, x)
    ensures j + 1 < |chain| ==> ToReturn(pages, chain, j, p) == ToReturn(pages, chain, j + 1, Carry(p))
    ensures j + 1 == |chain| ==> ToReturn(pages, chain, j, p) == {}
  {
    hide Rank, Wanted, Chained;
    if j + 1 < |chain| {
      var rest := chain[j+1..];
      assert rest[0] == chain[j+1] && rest[1..] == chain[j+2..];
      OnChain(pages, chain, j + 1);
      assert Contents(pages, rest) == pages[chain[j+1]].entries + Contents(pages, chain[j+2..]);
    } else {
      assert chain[j+1..] == [];
    }
  }

  // ---- What a scan reads, in order or not

  /** One level down the descent for `lower`. */
  ghost function Branch(keys: seq<Key>, lower: Bound<Key>): (i: nat)
    ensures i <= |keys|
  {
    match lower
    case Unbounded => 0
    case Included(k) => Lower(keys, k)
    case Excluded(k) => Upper(keys, k)
  }

  /** The leaf where the descent for `lower` ends. */
  ghost function Reach(pages: Pages, t: Tree, lower: Bound<Key>): PageId
    decreases t
  {
    match t
    case LeafT(id) => id
    case NodeT(id, kids) =>
      var i := Branch(NodeKeys(pages, id), lower);
      if i < |kids| then Reach(pages, kids[i], lower) else id
  }

  ghost function IndexIn(chain: seq<PageId>, id: PageId): (j: nat)
    ensures j <= |chain|
    ensures id in chain ==> j < |chain| && chain[j] == id
  {
    if chain == [] || chain[0] == id then 0 else 1 + IndexIn(chain[1..], id)
  }

  lemma IndexOf(pages: Pages, chain: seq<PageId>, j: nat)
    requires Chained(pages, chain) && j < |chain|
    ensures IndexIn(chain, chain[j]) == j
  {
    assert chain[j] in chain;
  }

  /** The descent ends at a leaf of the tree. */
  lemma {:induction false} ReachesLeaf(c: nat, m: Mode, pages: Pages, t: Tree, h: nat, lo: real, hi: real,
                                       lower: Bound<Key>)
    requires Good(c, m, pages, t, h, lo, hi)
    ensures Reach(pages, t, lower) in LeafIds(t)
    decreases t
  {
    hide Rank, InnerPageOk, LeafPageOk, Apart, KidLo, KidHi, Ids, Branch;
    if t.NodeT? {
      InnerLen(c, m, pages[t.id], t.kids, lo, hi);
      var keys := SepKeys(pages[t.id].seps);
      assert NodeKeys(pages, t.id) == keys;
      var i := Branch(keys, lower);
      ReachesLeaf(c, m, pages, t.kids[i], h - 1, KidLo(keys, i, lo), KidHi(keys, i, hi), lower);
      ForestLeavesAt(t.kids, i);
    }
  }

  /** The descent depends on the separators only. */
  lemma {:induction false} ReachFrame(pages: Pages, pages': Pages, t: Tree, lower: Bound<Key>)
    requires forall id :: NodeKeys(pages, id) == NodeKeys(pages', id)
    ensures Reach(pages, t, lower) == Reach(pages', t, lower)
    decreases t
  {
    if t.NodeT? {
      var i := Branch(NodeKeys(pages, t.id), lower);
      if i < |t.kids| {
        ReachFrame(pages, pages', t.kids[i], lower);
      }
    }
  }

  /** Every leaf of a tree is sorted, whatever its order as a whole. */
  lemma {:induction false} LeavesSorted(c: nat, m: Mode, pages: Pages, t: Tree, h: nat, lo: real, hi: real)
    requires Good(c, m, pages, t, h, lo, hi)
    ensures forall x :: x in LeafIds(t) ==> x in pages && pages[x].Leaf? && PageSorted(pages[x].entries)
    decreases t, 1, 0
  {
    hide Rank, InnerPageOk, LeafPageOk, Apart, KidLo, KidHi, Ids, PageSorted;
    if t.LeafT? {
      SortedLeaf(c, m, pages[t.id], lo, hi);
    } else {
      InnerLen(c, m, pages[t.id], t.kids, lo, hi);
      ForestSorted(c, m, pages, t, h, lo, hi, 0);
      assert t.kids[0..] == t.kids;
    }
  }

  lemma {:induction false} ForestSorted(c: nat, m: Mode, pages: Pages, t: Tree, h: nat, lo: real, hi: real, i: nat)
    requires t.NodeT? && Good(c, m, pages, t, h, lo, hi) && i <= |t.kids|
    ensures forall x :: x in ForestLeaves(t.kids[i..]) ==> x in pages && pages[x].Leaf? && PageSorted(pages[x].entries)
    decreases t, 0, |t.kids| - i
  {
    hide Rank, InnerPageOk, LeafPageOk, Apart, KidLo, KidHi, Ids, PageSorted, LeafIds;
    if i < |t.kids| {
      InnerLen(c, m, pages[t.id], t.kids, lo, hi);
      var keys := SepKeys(pages[t.id].seps);
      LeavesSorted(c, m, pages, t.kids[i], h - 1, KidLo(keys, i, lo), KidHi(keys, i, hi));
      ForestSorted(c, m, pages, t, h, lo, hi, i + 1);
      assert t.kids[i..][0] == t.kids[i] && t.kids[i..][1..] == t.kids[i+1..];
    }
  }

  lemma SortedLeaf(c: nat, m: Mode, page: Node, lo: real, hi: real)
    requires LeafPageOk(c, m, page, lo, hi)
    ensures page.Leaf? && PageSorted(page.entries)
  {
    hide Rank, Short, LeafFits, AllWithin;
    var es := page.entries;
    assert forall i :: 0 <= i < |es| ==> es[i].key == EntryKeys(es)[i];
  }

  /** The condition that a scan at position `p` of leaf `j` has when it comes to leaf `i`. */
  ghost function Carried(j: nat, p: Position, i: nat): Position {
    if i == j then p else Carry(p)
  }

  ghost predicate NoneUpTo(pages: Pages, chain: seq<PageId>, j: nat, p: Position, n: nat)
    requires Chained(pages, chain) && n <= |chain|
  {
    forall i, x :: j <= i < n && x in pages[chain[i]].entries ==> !Wanted(Carried(j, p, i), x)
  }

  /** Reading on from position `p` of leaf `j`, the next entry is `e`, on leaf `k`. */
  ghost predicate Comes(pages: Pages, chain: seq<PageId>, j: nat, p: Position, k: nat, e: Entry)
    requires Chained(pages, chain)
  {
    && j <= k < |chain| && NoneUpTo(pages, chain, j, p, k)
    && FirstWanted(pages[chain[k]].entries, Carried(j, p, k), e)
  }

  /** Reading on from position `p` of leaf `j`, there is nothing more up to the bound. */
  ghost predicate Over(pages: Pages, chain: seq<PageId>, j: nat, p: Position, upper: Bound<Key>)
    requires Chained(pages, chain)
  {
    || NoneUpTo(pages, chain, j, p, |chain|)
    || exists k, e :: Comes(pages, chain, j, p, k, e) && !BelowUpper(upper, e.key)
  }

  /** The entries of a set that do not exceed an upper bound. */
  ghost function Under(s: set<Entry>, upper: Bound<Key>): set<Entry> {
    set e | e in s && BelowUpper(upper, e.key)
  }

  ghost function Listed(es: seq<Entry>): set<Entry> {
    set e | e in es
  }

  /** The located entry of leaf `j`, if it is within the bound, is the one that comes. */
  lemma LocatedComes(pages: Pages, chain: seq<PageId>, j0: nat, p0: Position, j: nat, index: nat)
    requires Chained(pages, chain) && j0 <= j < |chain| && NoneUpTo(pages, chain, j0, p0, j)
    requires Located(pages[chain[j]].entries, Carried(j0, p0, j), index)
    ensures index < |pages[chain[j]].entries| ==> Comes(pages, chain, j0, p0, j, pages[chain[j]].entries[index])
    ensures index == |pages[chain[j]].entries| ==> NoneUpTo(pages, chain, j0, p0, j + 1)
  {
    hide Rank, Wanted, Chained;
  }

  lemma NoneYet(pages: Pages, chain: seq<PageId>, j: nat, p: Position)
    requires Chained(pages, chain) && j <= |chain|
    ensures NoneUpTo(pages, chain, j, p, j) && Carried(j, p, j) == p
  {
    hide Chained;
  }

  lemma {:induction false} SkipTo(pages: Pages, chain: seq<PageId>, j: nat, p: Position, k: nat)
    requires Chained(pages, chain) && j <= k < |chain| && NoneUpTo(pages, chain, j, p, k)
    ensures ToReturn(pages, chain, j, p) == ToReturn(pages, chain, k, Carried(j, p, k))
  {
    hide Rank, Wanted, ToReturn, Chained;
    if j < k {
      SkipTo(pages, chain, j, p, k - 1);
      SkipsLeaf(pages, chain, k - 1, Carried(j, p, k - 1));
    }
  }

  /** In a tree in key order the entry that comes is the least that is left, and it is taken off. */
  lemma ComesTakes(pages: Pages, chain: seq<PageId>, j: nat, p: Position, k: nat, e: Entry)
    requires Chained(pages, chain) && KeySorted(Contents(pages, chain)) && Comes(pages, chain, j, p, k, e)
    ensures var left, left' := ToReturn(pages, chain, j, p), ToReturn(pages, chain, k, After(e.key, e.rid));
      && left == left' + {e}
      && (AllDistinct(Contents(pages, chain)) ==> e !in left')
      && forall x :: x in left ==> Rank(e.key) <= Rank(x.key)
  {
    hide Rank, Wanted, ToReturn, Chained, Contents, KeySorted, AllDistinct, FirstWanted, NoneUpTo;
    SkipTo(pages, chain, j, p, k);
    ReturnsOne(pages, chain, k, Carried(j, p, k), e);
  }

  /** In a tree in key order nothing is left when a scan is over. */
  lemma OverIsAll(pages: Pages, chain: seq<PageId>, j: nat, p: Position, upper: Bound<Key>)
    requires Chained(pages, chain) && j < |chain| && KeySorted(Contents(pages, chain))
    requires Over(pages, chain, j, p, upper)
    ensures Under(ToReturn(pages, chain, j, p), upper) == {}
  {
    hide Rank, Wanted, ToReturn, Chained, Contents, KeySorted, FirstWanted, Comes;
    if NoneUpTo(pages, chain, j, p, |chain|) {
      var last := |chain| - 1;
      SkipTo(pages, chain, j, p, last);
      SkipsLeaf(pages, chain, last, Carried(j, p, last));
    } else {
      var k, e :| Comes(pages, chain, j, p, k, e) && !BelowUpper(upper, e.key);
      ComesTakes(pages, chain, j, p, k, e);
      NothingBelow(ToReturn(pages, chain, j, p), upper, e);
    }
  }

  lemma NothingBelow(s: set<Entry>, upper: Bound<Key>, e: Entry)
    requires !BelowUpper(upper, e.key) && forall x :: x in s ==> Rank(e.key) <= Rank(x.key)
    ensures Under(s, upper) == {}
  {
    hide Rank;
  }

  /** What comes next is determined, in any tree. */
  lemma ComesOnce(pages: Pages, chain: seq<PageId>, j: nat, p: Position, k: nat, e: Entry, k': nat, e': Entry)
    requires Chained(pages, chain) && Comes(pages, chain, j, p, k, e) && Comes(pages, chain, j, p, k', e')
    ensures k == k' && e == e'
  {
    hide Rank, Wanted, Chained;
  }

  lemma ComesOrOver(pages: Pages, chain: seq<PageId>, j: nat, p: Position, upper: Bound<Key>, k: nat, e: Entry)
    requires Chained(pages, chain) && Comes(pages, chain, j, p, k, e) && BelowUpper(upper, e.key)
    ensures !Over(pages, chain, j, p, upper)
  {
    hide Rank, Wanted, Chained;
    if Over(pages, chain, j, p, upper) && !NoneUpTo(pages, chain, j, p, |chain|) {
      var k', e' :| Comes(pages, chain, j, p, k', e') && !BelowUpper(upper, e'.key);
      ComesOnce(pages, chain, j, p, k, e, k', e');
    }
  }

  /** The same for what is left up to a bound. */
  lemma ComesUnder(pages: Pages, chain: seq<PageId>, j: nat, p: Position, k: nat, e: Entry, upper: Bound<Key>)
    requires Chained(pages, chain) && KeySorted(Contents(pages, chain)) && Comes(pages, chain, j, p, k, e)
    requires BelowUpper(upper, e.key)
    ensures j < |chain| && k < |chain|
    ensures var left := Under(ToReturn(pages, chain, j, p), upper);
      var left' := Under(ToReturn(pages, chain, k, After(e.key, e.rid)), upper);
      && left == left' + {e}
      && (AllDistinct(Contents(pages, chain)) ==> e !in left')
      && forall x :: x in left' ==> Rank(e.key) <= Rank(x.key)
  {
    hide Rank, Wanted, ToReturn, Chained, Contents, KeySorted, AllDistinct, FirstWanted, NoneUpTo, BelowUpper;
    ComesTakes(pages, chain, j, p, k, e);
  }

  /** How many entries of its leaf a scan has still to return. */
  ghost function LeftHere(pages: Pages, chain: seq<PageId>, j: nat, p: Position): nat
    requires Chained(pages, chain) && j < |chain|
  {
    |WantedIn(pages[chain[j]].entries, p)|
  }

  /** Between two entries a scan moves to a later leaf, or has less of its leaf to read. */
  lemma Progress(pages: Pages, chain: seq<PageId>, j: nat, p: Position, k: nat, e: Entry)
    requires Chained(pages, chain) && Comes(pages, chain, j, p, k, e)
    ensures j < |chain| && j <= k < |chain|
    ensures k == j ==> LeftHere(pages, chain, j, After(e.key, e.rid)) < LeftHere(pages, chain, j, p)
  {
    hide Rank, Wanted, Chained, FirstWanted;
    OnChain(pages, chain, j);
    if k == j {
      WantedAfter(pages[chain[j]].entries, p, e);
      IsWanted(pages[chain[j]].entries, p, e);
    }
  }

  lemma IsWanted(es: seq<Entry>, p: Position, e: Entry)
    requires FirstWanted(es, p, e)
    ensures e in WantedIn(es, p)
  {
  }

  ghost function PlaceAt(j: nat, ks: seq<nat>, i: nat): nat
    requires i <= |ks|
  {
    if i == 0 then j else ks[i-1]
  }

  ghost function PositionAt(p: Position, es: seq<Entry>, i: nat): Position
    requires i <= |es|
  {
    if i == 0 then p else After(es[i-1].key, es[i-1].rid)
  }

  /** One after the other the entries `es` come, from the leaves `ks`, and none exceeds the bound. */
  ghost predicate Steps(pages: Pages, chain: seq<PageId>, j: nat, p: Position, upper: Bound<Key>, ks: seq<nat>,
                        es: seq<Entry>)
    requires Chained(pages, chain)
  {
    && |ks| == |es|
    && forall i :: 0 <= i < |es| ==>
         Comes(pages, chain, PlaceAt(j, ks, i), PositionAt(p, es, i), ks[i], es[i]) && BelowUpper(upper, es[i].key)
  }

  /** A scan at position `p` of leaf `j` that is read to its end returns exactly `es`. */
  ghost predicate Drained(pages: Pages, chain: seq<PageId>, j: nat, p: Position, upper: Bound<Key>, es: seq<Entry>)
    requires Chained(pages, chain)
  {
    exists ks :: Steps(pages, chain, j, p, upper, ks, es) &&
                 Over(pages, chain, PlaceAt(j, ks, |ks|), PositionAt(p, es, |es|), upper)
  }

  lemma StepsAgree(pages: Pages, chain: seq<PageId>, j: nat, p: Position, upper: Bound<Key>,
                   ks: seq<nat>, es: seq<Entry>, ks': seq<nat>, es': seq<Entry>, n: nat)
    requires Chained(pages, chain) && Steps(pages, chain, j, p, upper, ks, es)
    requires Steps(pages, chain, j, p, upper, ks', es')
    requires n <= |es| && n <= |es'|
    ensures forall i :: 0 <= i < n ==> ks[i] == ks'[i] && es[i] == es'[i]
  {
    hide Chained, Comes;
    if n > 0 {
      StepsAgree(pages, chain, j, p, upper, ks, es, ks', es', n - 1);
      ComesOnce(pages, chain, PlaceAt(j, ks, n - 1), PositionAt(p, es, n - 1), ks[n-1], es[n-1], ks'[n-1], es'[n-1]);
    }
  }

  lemma NotLonger(pages: Pages, chain: seq<PageId>, j: nat, p: Position, upper: Bound<Key>,
                  ks: seq<nat>, es: seq<Entry>, ks': seq<nat>, es': seq<Entry>)
    requires Chained(pages, chain) && Steps(pages, chain, j, p, upper, ks, es)
    requires Steps(pages, chain, j, p, upper, ks', es')
    requires Over(pages, chain, PlaceAt(j, ks, |ks|), PositionAt(p, es, |es|), upper)
    ensures |es'| <= |es|
  {
    hide Chained, Comes, Over;
    if |es'| > |es| {
      var n := |es|;
      StepsAgree(pages, chain, j, p, upper, ks, es, ks', es', n);
      ComesOrOver(pages, chain, PlaceAt(j, ks, n), PositionAt(p, es, n), upper, ks'[n], es'[n]);
    }
  }

  /** What a scan returns is determined, in any tree. */
  lemma DrainedOnce(pages: Pages, chain: seq<PageId>, j: nat, p: Position, upper: Bound<Key>, es: seq<Entry>,
                    es': seq<Entry>)
    requires Chained(pages, chain) && Drained(pages, chain, j, p, upper, es) && Drained(pages, chain, j, p, upper, es')
    ensures es == es'
  {
    hide Chained, Over, Steps;
    var ks :| Steps(pages, chain, j, p, upper, ks, es) && Over(pages, chain, PlaceAt(j, ks, |ks|),
                                                               PositionAt(p, es, |es|), upper);
    var ks' :| Steps(pages, chain, j, p, upper, ks', es') && Over(pages, chain, PlaceAt(j, ks', |ks'|),
                                                                  PositionAt(p, es', |es'|), upper);
    NotLonger(pages, chain, j, p, upper, ks, es, ks', es');
    NotLonger(pages, chain, j, p, upper, ks', es', ks, es);
    StepsAgree(pages, chain, j, p, upper, ks, es, ks', es', |es|);
  }

  /** An entry that comes is stored, and lies within the lower bound under which the scan reads. */
  lemma ComesWithin(pages: Pages, chain: seq<PageId>, j: nat, p: Position, k: nat, e: Entry)
    requires Chained(pages, chain) && Comes(pages, chain, j, p, k, e)
    ensures e in Contents(pages, chain) && AboveLower(SeekBound(p), e.key)
    ensures j == k && p.After? ==> EntryBefore(Entry(p.key, p.rid), e)
  {
    hide Rank, Chained, Contents;
    OnChain(pages, chain, k);
    ContentsAt(pages, chain, k);
  }

  /** One more step. */
  lemma NextStep(pages: Pages, chain: seq<PageId>, j: nat, p: Position, upper: Bound<Key>, ks: seq<nat>, es: seq<Entry>,
                 k: nat, e: Entry)
    requires Chained(pages, chain) && Steps(pages, chain, j, p, upper, ks, es) && BelowUpper(upper, e.key)
    requires |ks| == |es| && Comes(pages, chain, PlaceAt(j, ks, |ks|), PositionAt(p, es, |es|), k, e)
    ensures Steps(pages, chain, j, p, upper, ks + [k], es + [e])
    ensures PlaceAt(j, ks + [k], |ks| + 1) == k && PositionAt(p, es + [e], |es| + 1) == After(e.key, e.rid)
  {
    hide Chained, Comes, BelowUpper, PlaceAt, PositionAt;
    var ks', es' := ks + [k], es + [e];
    forall i | 0 <= i < |es'|
      ensures Comes(pages, chain, PlaceAt(j, ks', i), PositionAt(p, es', i), ks'[i], es'[i])
      ensures BelowUpper(upper, es'[i].key)
    {
      PlaceBefore(j, p, ks, es, k, e, i);
    }
    PlaceNow(j, p, ks, es, k, e);
  }

  lemma PlaceBefore(j: nat, p: Position, ks: seq<nat>, es: seq<Entry>, k: nat, e: Entry, i: nat)
    requires i <= |ks| == |es|
    ensures PlaceAt(j, ks + [k], i) == PlaceAt(j, ks, i) && PositionAt(p, es + [e], i) == PositionAt(p, es, i)
  {
  }

  lemma PlaceNow(j: nat, p: Position, ks: seq<nat>, es: seq<Entry>, k: nat, e: Entry)
    requires |ks| == |es|
    ensures PlaceAt(j, ks + [k], |ks| + 1) == k && PositionAt(p, es + [e], |es| + 1) == After(e.key, e.rid)
  {
  }

  lemma NoSteps(pages: Pages, chain: seq<PageId>, j: nat, p: Position, upper: Bound<Key>)
    requires Chained(pages, chain)
    ensures Steps(pages, chain, j, p, upper, [], []) && PlaceAt(j, [], 0) == j && PositionAt(p, [], 0) == p
  {
    hide Chained;
  }

  /** All steps but the last, and the last. */
  lemma LastStep(pages: Pages, chain: seq<PageId>, j: nat, p: Position, upper: Bound<Key>, ks: seq<nat>, es: seq<Entry>)
    requires Chained(pages, chain) && Steps(pages, chain, j, p, upper, ks, es) && es != []
    ensures |ks| == |es|
    ensures var n := |es| - 1;
      && Steps(pages, chain, j, p, upper, ks[..n], es[..n])
      && Comes(pages, chain, PlaceAt(j, ks[..n], n), PositionAt(p, es[..n], n), ks[n], es[n]) &&
          BelowUpper(upper, es[n].key)
  {
    hide Chained, Comes, BelowUpper;
    var n := |es| - 1;
    assert forall i :: 0 <= i <= n ==> PlaceAt(j, ks[..n], i) == PlaceAt(j, ks, i);
    assert forall i :: 0 <= i <= n ==> PositionAt(p, es[..n], i) == PositionAt(p, es, i);
  }

  /** Whatever tree it reads, a scan returns stored entries within its bounds and in ascending order, goes through
      the leaves from left to right, and returns no pair twice from the same leaf. */
  lemma {:induction false} StepsAscend(pages: Pages, chain: seq<PageId>, j: nat, p: Position, upper: Bound<Key>,
                                       ks: seq<nat>, es: seq<Entry>)
    requires Chained(pages, chain) && Steps(pages, chain, j, p, upper, ks, es)
    ensures KeySorted(es)
    ensures forall e :: e in es ==>
      e in Contents(pages, chain) && AboveLower(SeekBound(p), e.key) && BelowUpper(upper, e.key)
    ensures forall a, b :: 0 <= a < b < |es| ==> ks[a] <= ks[b] && (ks[a] == ks[b] ==> EntryBefore(es[a], es[b]))
  {
    hide Rank, Chained, Comes, Contents, BelowUpper, Steps, AboveLower, KeySorted;
    if es == [] {
      assert KeySorted(es) by { NothingTwice(); }
      assert |ks| == 0 by { SameLength(pages, chain, j, p, upper, ks, es); }
    } else {
      var n := |es| - 1;
      LastStep(pages, chain, j, p, upper, ks, es);
      StepsAscend(pages, chain, j, p, upper, ks[..n], es[..n]);
      ComesWithin(pages, chain, PlaceAt(j, ks[..n], n), PositionAt(p, es[..n], n), ks[n], es[n]);
      ComesForward(pages, chain, PlaceAt(j, ks[..n], n), PositionAt(p, es[..n], n), ks[n], es[n]);
      WithinOnward(p, es[..n], es[n]);
      AscendOne(es, ks, n);
      assert forall e :: e in es ==> e in es[..n] || e == es[n];
    }
  }

  lemma SameLength(pages: Pages, chain: seq<PageId>, j: nat, p: Position, upper: Bound<Key>, ks: seq<nat>,
                   es: seq<Entry>)
    requires Chained(pages, chain) && Steps(pages, chain, j, p, upper, ks, es)
    ensures |ks| == |es|
  {
  }

  /** What comes after entries within a lower bound is within it, too. */
  lemma WithinOnward(p: Position, es: seq<Entry>, e: Entry)
    requires forall x :: x in es ==> AboveLower(SeekBound(p), x.key)
    requires AboveLower(SeekBound(PositionAt(p, es, |es|)), e.key)
    ensures AboveLower(SeekBound(p), e.key)
    ensures es != [] ==> Rank(es[|es|-1].key) <= Rank(e.key)
  {
    hide Rank;
    if es != [] {
      assert es[|es|-1] in es;
    }
  }

  lemma ComesForward(pages: Pages, chain: seq<PageId>, j: nat, p: Position, k: nat, e: Entry)
    requires Chained(pages, chain) && Comes(pages, chain, j, p, k, e)
    ensures j <= k
  {
    hide Chained;
  }

  lemma AscendOne(es: seq<Entry>, ks: seq<nat>, n: nat)
    requires |ks| == |es| == n + 1 && KeySorted(es[..n])
    requires n > 0 ==> Rank(es[n-1].key) <= Rank(es[n].key) && ks[n-1] <= ks[n]
    requires n > 0 && ks[n-1] == ks[n] ==> EntryBefore(es[n-1], es[n])
    requires forall a, b :: 0 <= a < b < n ==>
               ks[..n][a] <= ks[..n][b] && (ks[..n][a] == ks[..n][b] ==> EntryBefore(es[..n][a], es[..n][b]))
    ensures KeySorted(es)
    ensures forall a, b :: 0 <= a < b < |es| ==> ks[a] <= ks[b] && (ks[a] == ks[b] ==> EntryBefore(es[a], es[b]))
  {
    hide Rank;
    assert forall a :: 0 <= a < n ==> es[a] == es[..n][a] && ks[a] == ks[..n][a];
    forall a | 0 <= a < n
      ensures Rank(es[a].key) <= Rank(es[n].key)
      ensures ks[a] <= ks[n] && (ks[a] == ks[n] ==> EntryBefore(es[a], es[n]))
    {
      if a < n - 1 {
        assert ks[a] <= ks[n-1];
      }
    }
  }

  /** In a tree in key order a scan returns exactly what was to be returned, copies on different leaves once each. */
  lemma {:induction false} StepsTake(pages: Pages, chain: seq<PageId>, j: nat, p: Position, upper: Bound<Key>,
                                     ks: seq<nat>, es: seq<Entry>)
    requires Chained(pages, chain) && KeySorted(Contents(pages, chain)) && j < |chain|
    requires Steps(pages, chain, j, p, upper, ks, es)
    ensures PlaceAt(j, ks, |ks|) < |chain|
    ensures var left := Under(ToReturn(pages, chain, PlaceAt(j, ks, |ks|), PositionAt(p, es, |es|)), upper);
      && Under(ToReturn(pages, chain, j, p), upper) == Listed(es) + left
      && (AllDistinct(Contents(pages, chain)) ==> AllDistinct(es) && forall e :: e in es ==> e !in left)
  {
    hide Rank, Chained, Comes, Contents, KeySorted, AllDistinct, BelowUpper, ToReturn, Steps, Under;
    SameLength(pages, chain, j, p, upper, ks, es);
    if es == [] {
      assert AllDistinct(es) by { NothingTwice(); }
    } else {
      var n := |es| - 1;
      LastStep(pages, chain, j, p, upper, ks, es);
      StepsTake(pages, chain, j, p, upper, ks[..n], es[..n]);
      var k0, p0 := PlaceAt(j, ks[..n], n), PositionAt(p, es[..n], n);
      ComesTakes(pages, chain, k0, p0, ks[n], es[n]);
      ComesOnto(pages, chain, k0, p0, ks[n], es[n]);
      TakeOne(es, upper, ToReturn(pages, chain, j, p), ToReturn(pages, chain, k0, p0),
              ToReturn(pages, chain, ks[n], After(es[n].key, es[n].rid)), AllDistinct(Contents(pages, chain)));
    }
  }

  lemma NothingTwice()
    ensures AllDistinct([]) && KeySorted([])
  {
  }

  lemma ComesOnto(pages: Pages, chain: seq<PageId>, j: nat, p: Position, k: nat, e: Entry)
    requires Chained(pages, chain) && Comes(pages, chain, j, p, k, e)
    ensures k < |chain|
  {
    hide Chained;
  }

  lemma TakeOne(es: seq<Entry>, upper: Bound<Key>, all: set<Entry>, left: set<Entry>, left': set<Entry>, distinct: bool)
    requires es != [] && BelowUpper(upper, es[|es|-1].key)
    requires Under(all, upper) == Listed(es[..|es|-1]) + Under(left, upper) && left == left' + {es[|es|-1]}
    requires distinct ==>
               && AllDistinct(es[..|es|-1]) && (forall e :: e in es[..|es|-1] ==> e !in Under(left, upper))
               && es[|es|-1] !in left'
    ensures Under(all, upper) == Listed(es) + Under(left', upper)
    ensures distinct ==> AllDistinct(es) && forall e :: e in es ==> e !in Under(left', upper)
  {
    hide Rank, BelowUpper;
    var n := |es| - 1;
    assert es == es[..n] + [es[n]];
    assert es[n] in Under(left, upper);
    assert forall i :: 0 <= i < n ==> es[i] in es[..n];
  }

  // ---- What a delete looks at

  /** A delete of this key goes on to the next leaf: the entries may continue there. */
  ghost predicate GoesOn(es: seq<Entry>, key: Key) {
    es == [] || Rank(es[|es|-1].key) <= Rank(key)
  }

  /** A delete of this key that starts at leaf `j` comes to leaf `k`, if nothing is found before. */
  ghost predicate ComesTo(pages: Pages, chain: seq<PageId>, j: nat, key: Key, k: nat)
    requires Chained(pages, chain)
  {
    j <= k < |chain| && forall i :: j <= i < k ==> GoesOn(pages[chain[i]].entries, key)
  }

  ghost predicate AbsentUpTo(pages: Pages, chain: seq<PageId>, j: nat, e: Entry, k: nat)
    requires Chained(pages, chain) && k <= |chain|
  {
    forall i :: j <= i < k ==> e !in pages[chain[i]].entries
  }

  /** The first copy of the entry on the way of a delete is entry `pos` of leaf `k`. */
  ghost predicate FirstSeen(pages: Pages, chain: seq<PageId>, j: nat, e: Entry, k: nat, pos: nat)
    requires Chained(pages, chain)
  {
    && ComesTo(pages, chain, j, e.key, k) && AbsentUpTo(pages, chain, j, e, k)
    && pos < |pages[chain[k]].entries| && pages[chain[k]].entries[pos] == e && e !in pages[chain[k]].entries[..pos]
  }

  /** A delete that starts at leaf `j` comes to a copy of the entry. */
  ghost predicate Seen(pages: Pages, chain: seq<PageId>, j: nat, e: Entry)
    requires Chained(pages, chain)
  {
    exists k: nat :: ComesTo(pages, chain, j, e.key, k) && e in pages[chain[k]].entries
  }

  lemma ComesToStart(pages: Pages, chain: seq<PageId>, j: nat, e: Entry)
    requires Chained(pages, chain) && j < |chain|
    ensures ComesTo(pages, chain, j, e.key, j) && AbsentUpTo(pages, chain, j, e, j)
  {
  }

  lemma ComesToNext(pages: Pages, chain: seq<PageId>, j: nat, e: Entry, k: nat)
    requires Chained(pages, chain) && ComesTo(pages, chain, j, e.key, k) && AbsentUpTo(pages, chain, j, e, k)
    requires GoesOn(pages[chain[k]].entries, e.key) && e !in pages[chain[k]].entries && k + 1 < |chain|
    ensures ComesTo(pages, chain, j, e.key, k + 1) && AbsentUpTo(pages, chain, j, e, k + 1)
  {
    hide Chained, GoesOn;
  }

  lemma SeenHere(pages: Pages, chain: seq<PageId>, j: nat, e: Entry, k: nat, pos: nat)
    requires Chained(pages, chain) && ComesTo(pages, chain, j, e.key, k) && AbsentUpTo(pages, chain, j, e, k)
    requires pos < |pages[chain[k]].entries| && pages[chain[k]].entries[pos] == e
    requires e !in pages[chain[k]].entries[..pos]
    ensures Seen(pages, chain, j, e) && FirstSeen(pages, chain, j, e, k, pos)
  {
    hide Rank, Chained;
    OnChain(pages, chain, k);
    assert e in pages[chain[k]].entries;
  }

  lemma NotSeen(pages: Pages, chain: seq<PageId>, j: nat, e: Entry, k: nat)
    requires Chained(pages, chain) && ComesTo(pages, chain, j, e.key, k) && AbsentUpTo(pages, chain, j, e, k)
    requires e !in pages[chain[k]].entries
    requires k + 1 == |chain| || !GoesOn(pages[chain[k]].entries, e.key)
    ensures !Seen(pages, chain, j, e)
  {
    hide Rank, Chained, GoesOn;
  }

  // ---- What a lookup finds

  ghost predicate LeavesInOrder(pages: Pages, chain: seq<PageId>)
    requires Chained(pages, chain)
  {
    forall i :: 0 <= i < |chain| ==> PageSorted(pages[chain[i]].entries)
  }

  /** A position of a scan over one key. */
  ghost predicate OfKey(q: Position, key: Key) {
    q == Start(Included(key)) || (q.After? && q.key == key)
  }

  /** The entry on leaf `m` is still before a scan at position `q` of leaf `k`. */
  ghost predicate Ahead(pages: Pages, chain: seq<PageId>, m: nat, e: Entry, k: nat, q: Position)
    requires Chained(pages, chain)
  {
    k <= m < |chain| && e in pages[chain[m]].entries && (m == k ==> Wanted(q, e))
  }

  lemma StillWanted(m: nat, e: Entry, k: nat, q: Position)
    requires OfKey(q, e.key) && (m == k ==> Wanted(q, e))
    ensures Wanted(Carried(k, q, m), e)
  {
    hide Rank;
  }

  /** An entry of the key stays before the scan until it is returned. */
  lemma AheadUntilReturned(pages: Pages, chain: seq<PageId>, m: nat, e: Entry, k: nat, q: Position, k': nat, e': Entry)
    requires Chained(pages, chain) && Ahead(pages, chain, m, e, k, q) && OfKey(q, e.key)
    requires Comes(pages, chain, k, q, k', e') && e != e'
    ensures Ahead(pages, chain, m, e, k', After(e'.key, e'.rid))
  {
    hide Rank, Chained;
    StillWanted(m, e, k, q);
    assert k' <= m;
  }

  /** A scan does not end before it has returned what is before it, if no leaf on the way ends above the key. */
  lemma NotOverYet(pages: Pages, chain: seq<PageId>, m: nat, e: Entry, k: nat, q: Position)
    requires Chained(pages, chain) && LeavesInOrder(pages, chain)
    requires Ahead(pages, chain, m, e, k, q) && OfKey(q, e.key)
    requires forall l :: k <= l < m ==> GoesOn(pages[chain[l]].entries, e.key)
    ensures !Over(pages, chain, k, q, Included(e.key))
  {
    hide Rank, Chained, LeavesInOrder, FirstWanted, Wanted;
    StillWanted(m, e, k, q);
    forall k': nat, e' | Comes(pages, chain, k, q, k', e') ensures Rank(e'.key) <= Rank(e.key) {
      assert k' <= m;
      OnChain(pages, chain, k');
      LeafInOrder(pages, chain, k');
      if k' < m {
        FirstIsStored(pages[chain[k']].entries, Carried(k, q, k'), e');
        EndsBelow(pages[chain[k']].entries, e.key, e');
      } else {
        NotAfter(pages[chain[k']].entries, Carried(k, q, k'), e', e);
      }
    }
  }

  lemma LeafInOrder(pages: Pages, chain: seq<PageId>, k: nat)
    requires Chained(pages, chain) && LeavesInOrder(pages, chain) && k < |chain|
    ensures PageSorted(pages[chain[k]].entries)
  {
    hide Rank;
  }

  lemma FirstIsStored(es: seq<Entry>, p: Position, e: Entry)
    requires FirstWanted(es, p, e)
    ensures e in es
  {
  }

  lemma EndsBelow(es: seq<Entry>, key: Key, e: Entry)
    requires PageSorted(es) && GoesOn(es, key) && e in es
    ensures Rank(e.key) <= Rank(key)
  {
    hide Rank;
    var i :| 0 <= i < |es| && es[i] == e;
  }

  lemma NotAfter(es: seq<Entry>, p: Position, e: Entry, x: Entry)
    requires FirstWanted(es, p, e) && x in es && Wanted(p, x)
    ensures Rank(e.key) <= Rank(x.key)
  {
    hide Rank;
  }

  /** The leaves a scan over one key leaves behind do not end above the key. */
  lemma PassesBelow(pages: Pages, chain: seq<PageId>, k: nat, q: Position, k': nat, e': Entry, key: Key, l: nat)
    requires Chained(pages, chain) && OfKey(q, key) && Comes(pages, chain, k, q, k', e') && k <= l < k'
    ensures GoesOn(pages[chain[l]].entries, key)
  {
    hide Rank, Chained;
    OnChain(pages, chain, l);
    var es := pages[chain[l]].entries;
    assert forall x :: x in es ==> !Wanted(Carried(k, q, l), x);
    assert es != [] ==> es[|es|-1] in es;
  }

  ghost predicate AllOfKey(es: seq<Entry>, key: Key) {
    forall i :: 0 <= i < |es| ==> es[i].key == key
  }

  /** Whatever a scan over one key returns, a delete of this key would come to. */
  lemma {:induction false} FoundIsSeen(pages: Pages, chain: seq<PageId>, j: nat, key: Key, upper: Bound<Key>,
                                       ks: seq<nat>, es: seq<Entry>, i: nat)
    requires Chained(pages, chain) && j < |chain| && Steps(pages, chain, j, Start(Included(key)), upper, ks, es)
    requires AllOfKey(es, key) && i <= |es| == |ks|
    ensures ComesTo(pages, chain, j, key, PlaceAt(j, ks, i))
    ensures 0 < i ==> es[i-1] in pages[chain[ks[i-1]]].entries
  {
    hide Rank, Chained, Comes, GoesOn;
    if i > 0 {
      var k, q, k' := PlaceAt(j, ks, i - 1), PositionAt(Start(Included(key)), es, i - 1), ks[i-1];
      FoundIsSeen(pages, chain, j, key, upper, ks, es, i - 1);
      ComesForward(pages, chain, k, q, k', es[i-1]);
      ComesOnto(pages, chain, k, q, k', es[i-1]);
      forall l: nat | k <= l < k'
        ensures chain[l] in pages && pages[chain[l]].Leaf? && GoesOn(pages[chain[l]].entries, key)
      {
        OnChain(pages, chain, l);
        PassesBelow(pages, chain, k, q, k', es[i-1], key, l);
      }
      ComesStored(pages, chain, k, q, k', es[i-1]);
    }
  }

  lemma ComesStored(pages: Pages, chain: seq<PageId>, j: nat, p: Position, k: nat, e: Entry)
    requires Chained(pages, chain) && Comes(pages, chain, j, p, k, e)
    ensures k < |chain| && e in pages[chain[k]].entries
  {
    hide Chained, Rank;
  }

  lemma {:induction false} AheadThrough(pages: Pages, chain: seq<PageId>, j: nat, upper: Bound<Key>,
                                        ks: seq<nat>, es: seq<Entry>, m: nat, e: Entry, i: nat)
    requires Chained(pages, chain) && Steps(pages, chain, j, Start(Included(e.key)), upper, ks, es)
    requires AllOfKey(es, e.key) && i <= |es| == |ks| && e !in es
    requires j <= m < |chain| && e in pages[chain[m]].entries
    ensures Ahead(pages, chain, m, e, PlaceAt(j, ks, i), PositionAt(Start(Included(e.key)), es, i))
    ensures OfKey(PositionAt(Start(Included(e.key)), es, i), e.key)
  {
    hide Rank, Chained, Comes;
    if i > 0 {
      var p := Start(Included(e.key));
      AheadThrough(pages, chain, j, upper, ks, es, m, e, i - 1);
      AheadUntilReturned(pages, chain, m, e, PlaceAt(j, ks, i - 1), PositionAt(p, es, i - 1), ks[i-1], es[i-1]);
    }
  }

  /** On any tree whose leaves are sorted, a scan over one key that starts at leaf `j` returns an entry of this key
      exactly if a delete of it that starts there would come to it. */
  lemma FoundIffSeen(pages: Pages, chain: seq<PageId>, j: nat, key: Key, es: seq<Entry>, e: Entry)
    requires Chained(pages, chain) && LeavesInOrder(pages, chain) && j < |chain| && e.key == key
    requires Drained(pages, chain, j, Start(Included(key)), Included(key), es)
    ensures e in es <==> Seen(pages, chain, j, e)
  {
    hide Rank, Chained, LeavesInOrder, Steps, Over, Ahead, ComesTo;
    var p, upper := Start(Included(key)), Included(key);
    var ks :| Steps(pages, chain, j, p, upper, ks, es) &&
              Over(pages, chain, PlaceAt(j, ks, |ks|), PositionAt(p, es, |es|), upper);
    SameLength(pages, chain, j, p, upper, ks, es);
    OneKey(pages, chain, j, key, ks, es);
    if e in es {
      var i :| 0 <= i < |es| && es[i] == e;
      FoundIsSeen(pages, chain, j, key, upper, ks, es, i + 1);
    }
    if Seen(pages, chain, j, e) && e !in es {
      var m := SeenWhere(pages, chain, j, e);
      AheadThrough(pages, chain, j, upper, ks, es, m, e, |es|);
      FoundIsSeen(pages, chain, j, key, upper, ks, es, |es|);
      OnTheWay(pages, chain, j, key, PlaceAt(j, ks, |es|));
      NotOverYet(pages, chain, m, e, PlaceAt(j, ks, |es|), PositionAt(p, es, |es|));
      assert false;
    }
  }

  lemma {:induction false} SeenWhere(pages: Pages, chain: seq<PageId>, j: nat, e: Entry) returns (m: nat)
    requires Chained(pages, chain) && Seen(pages, chain, j, e)
    ensures j <= m < |chain| && e in pages[chain[m]].entries && ComesTo(pages, chain, j, e.key, m)
    ensures forall l :: j <= l < m ==> GoesOn(pages[chain[l]].entries, e.key)
  {
    hide GoesOn, Distinct;
    m :| ComesTo(pages, chain, j, e.key, m) && e in pages[chain[m]].entries;
  }

  lemma OnTheWay(pages: Pages, chain: seq<PageId>, j: nat, key: Key, m: nat)
    requires Chained(pages, chain) && ComesTo(pages, chain, j, key, m)
    ensures j <= m < |chain| && forall l :: j <= l < m ==> GoesOn(pages[chain[l]].entries, key)
  {
    hide Chained, GoesOn;
  }

  lemma OneKey(pages: Pages, chain: seq<PageId>, j: nat, key: Key, ks: seq<nat>, es: seq<Entry>)
    requires Chained(pages, chain) && Steps(pages, chain, j, Start(Included(key)), Included(key), ks, es)
    ensures AllOfKey(es, key)
  {
    hide Rank, Chained, Steps;
    StepsAscend(pages, chain, j, Start(Included(key)), Included(key), ks, es);
    forall i | 0 <= i < |es| ensures es[i].key == key {
      assert es[i] in es;
      LessIsRank(es[i].key, key);
    }
  }

  /** Deleting an entry takes it off what a scan has left, and nothing else. */
  lemma DeleteFromScan(pages: Pages, pages': Pages, chain: seq<PageId>, j: nat, p: Position, d: nat, pos: nat)
    requires Chained(pages, chain) && j < |chain| && d < |chain|
    requires AllDistinct(Contents(pages, chain)) && pos < |pages[chain[d]].entries|
    requires pages' == pages[chain[d] := Leaf(RemoveAt(pages[chain[d]].entries, pos), pages[chain[d]].next)]
    ensures Chained(pages', chain)
    ensures ToReturn(pages', chain, j, p) == ToReturn(pages, chain, j, p) - {pages[chain[d]].entries[pos]}
  {
    hide Rank, Contents, Wanted, AllDistinct, RemoveAt, WantedIn;
    ChainRewrite(pages, pages', chain, d, RemoveAt(pages[chain[d]].entries, pos));
    if d == j {
      DeleteHere(pages, pages', chain, j, p, pos);
    } else if d < j {
      DeleteBehind(pages, pages', chain, j, p, d, pos);
    } else {
      DeleteAhead(pages, pages', chain, j, p, d, pos);
    }
  }

  lemma DeleteHere(pages: Pages, pages': Pages, chain: seq<PageId>, j: nat, p: Position, pos: nat)
    requires Chained(pages, chain) && Chained(pages', chain) && j < |chain|
    requires AllDistinct(Contents(pages, chain)) && pos < |pages[chain[j]].entries|
    requires pages' == pages[chain[j] := Leaf(RemoveAt(pages[chain[j]].entries, pos), pages[chain[j]].next)]
    ensures ToReturn(pages', chain, j, p) == ToReturn(pages, chain, j, p) - {pages[chain[j]].entries[pos]}
  {
    hide Rank, Contents, Wanted, AllDistinct, RemoveAt;
    var es := pages[chain[j]].entries;
    assert es[pos] in es;
    LeafAndRest(pages, chain, j);
    RemovedIn(es, pos, p);
    ContentsFrame(pages, pages', chain[j+1..]);
  }

  lemma DeleteBehind(pages: Pages, pages': Pages, chain: seq<PageId>, j: nat, p: Position, d: nat, pos: nat)
    requires Chained(pages, chain) && Chained(pages', chain) && d < j < |chain|
    requires AllDistinct(Contents(pages, chain)) && pos < |pages[chain[d]].entries|
    requires pages' == pages[chain[d] := Leaf(RemoveAt(pages[chain[d]].entries, pos), pages[chain[d]].next)]
    ensures ToReturn(pages', chain, j, p) == ToReturn(pages, chain, j, p) - {pages[chain[d]].entries[pos]}
  {
    hide Rank, Contents, Wanted, AllDistinct, RemoveAt;
    ContentsFrame(pages, pages', chain[j+1..]);
    DistinctApart(pages, chain, d, j);
    assert pages[chain[d]].entries[pos] in pages[chain[d]].entries;
  }

  lemma DeleteAhead(pages: Pages, pages': Pages, chain: seq<PageId>, j: nat, p: Position, d: nat, pos: nat)
    requires Chained(pages, chain) && Chained(pages', chain) && j < d < |chain|
    requires AllDistinct(Contents(pages, chain)) && pos < |pages[chain[d]].entries|
    requires pages' == pages[chain[d] := Leaf(RemoveAt(pages[chain[d]].entries, pos), pages[chain[d]].next)]
    ensures ToReturn(pages', chain, j, p) == ToReturn(pages, chain, j, p) - {pages[chain[d]].entries[pos]}
  {
    hide Rank, Contents, Wanted, AllDistinct, RemoveAt;
    DistinctApart(pages, chain, j, d);
    RestRewritten(pages, pages', chain, j, d, pos);
    DeleteWanted(pages, pages', chain, j, d, pos, Carry(p));
    var e := pages[chain[d]].entries[pos];
    assert e in pages[chain[d]].entries;
    assert e !in pages[chain[j]].entries;
  }

  lemma RemovedIn(es: seq<Entry>, pos: nat, p: Position)
    requires pos < |es| && AllDistinct(es)
    ensures WantedIn(RemoveAt(es, pos), p) == WantedIn(es, p) - {es[pos]}
  {
    hide Rank, Wanted;
    var es' := RemoveAt(es, pos);
    forall x ensures x in es' <==> x in es && x != es[pos] {
      if x in es && x != es[pos] {
        var i :| 0 <= i < |es| && es[i] == x;
        assert es'[if i < pos then i else i - 1] == x;
      }
      if x in es' {
        var i :| 0 <= i < |es'| && es'[i] == x;
        assert x == es[if i < pos then i else i + 1];
      }
    }
  }

  /** Entries of leaf `i` do not occur in a later leaf `j`, nor after it. */
  lemma DistinctApart(pages: Pages, chain: seq<PageId>, i: nat, j: nat)
    requires Chained(pages, chain) && i < j < |chain| && AllDistinct(Contents(pages, chain))
    ensures forall x :: x in pages[chain[i]].entries ==>
      x !in pages[chain[j]].entries && x !in Contents(pages, chain[j+1..])
  {
    hide Rank, Contents, Chained;
    OnChain(pages, chain, i);
    OnChain(pages, chain, j);
    LeafAndRest(pages, chain, i);
    RestAt(pages, chain, i, j);
  }

  /** The entries after leaf `i`, around a later leaf `j`. */
  lemma RestAt(pages: Pages, chain: seq<PageId>, i: nat, j: nat)
    requires Chained(pages, chain) && i < j < |chain|
    ensures Contents(pages, chain[i+1..]) ==
      Contents(pages, chain[i+1..j]) + pages[chain[j]].entries + Contents(pages, chain[j+1..])
  {
    hide Contents;
    var rest := chain[i+1..];
    assert rest == chain[i+1..j] + chain[j..];
    ContentsConcat(pages, chain[i+1..j], chain[j..]);
    ContentsHead(pages, chain[j..]);
    assert chain[j..][1..] == chain[j+1..];
  }

  lemma RestRewritten(pages: Pages, pages': Pages, chain: seq<PageId>, i: nat, j: nat, pos: nat)
    requires Chained(pages, chain) && Chained(pages', chain) && i < j < |chain| && pos < |pages[chain[j]].entries|
    requires pages' == pages[chain[j] := Leaf(RemoveAt(pages[chain[j]].entries, pos), pages[chain[j]].next)]
    ensures Contents(pages', chain[i+1..]) ==
      Contents(pages, chain[i+1..j]) + RemoveAt(pages[chain[j]].entries, pos) + Contents(pages, chain[j+1..])
  {
    hide Contents, RemoveAt;
    RestAt(pages', chain, i, j);
    ContentsFrame(pages, pages', chain[i+1..j]);
    ContentsFrame(pages, pages', chain[j+1..]);
  }

  lemma DeleteWanted(pages: Pages, pages': Pages, chain: seq<PageId>, i: nat, j: nat, pos: nat, p: Position)
    requires Chained(pages, chain) && i < j < |chain| && pos < |pages[chain[j]].entries|
    requires AllDistinct(Contents(pages, chain))
    requires Contents(pages', chain[i+1..]) ==
      Contents(pages, chain[i+1..j]) + RemoveAt(pages[chain[j]].entries, pos) + Contents(pages, chain[j+1..])
    ensures WantedIn(Contents(pages', chain[i+1..]), p) == WantedIn(Contents(pages, chain[i+1..]),
                                                                    p) - {pages[chain[j]].entries[pos]}
  {
    hide Rank, Contents, Wanted, Chained, RemoveAt;
    OnChain(pages, chain, i);
    OnChain(pages, chain, j);
    var a, es, z := Contents(pages, chain[i+1..j]), pages[chain[j]].entries, Contents(pages, chain[j+1..]);
    RestAt(pages, chain, i, j);
    ContentsAt(pages, chain, i);
    Around(Contents(pages, chain[..i]) + pages[chain[i]].entries, a + es + z, []);
    assert Contents(pages, chain) == (Contents(pages, chain[..i]) + pages[chain[i]].entries) + (a + es + z) + [];
    CutRemoved(a, es, z, pos);
    RemovedIn(a + es + z, |a| + pos, p);
  }

  lemma CutRemoved(a: seq<Entry>, es: seq<Entry>, z: seq<Entry>, pos: nat)
    requires pos < |es|
    ensures a + RemoveAt(es, pos) + z == RemoveAt(a + es + z, |a| + pos)
    ensures (a + es + z)[|a| + pos] == es[pos]
  {
  }

  /** Starting at a leaf before which nothing is above the bound, everything above it is still to be returned. */
  lemma StartsWithAll(pages: Pages, chain: seq<PageId>, j: nat, lower: Bound<Key>)
    requires Chained(pages, chain) && j < |chain|
    requires forall e :: e in Contents(pages, chain[..j]) ==> !AboveLower(lower, e.key)
    ensures ToReturn(pages, chain, j, Start(lower)) == WantedIn(Contents(pages, chain), Start(lower))
  {
    hide Contents, Chained, AboveLower;
    OnChain(pages, chain, j);
    ContentsAt(pages, chain, j);
  }

  /** One more entry keeps the entries distinct if it is new. */
  lemma DistinctWith(s: seq<Entry>, t: seq<Entry>, e: Entry)
    requires AllDistinct(s) && e !in s && multiset(t) == multiset(s) + multiset{e}
    ensures AllDistinct(t)
  {
    forall i, j | 0 <= i < j < |t| ensures t[i] != t[j] {
      if t[i] == t[j] {
        Twice(t, i, j);
        OnceOnly(s, t[i]);
        assert false;
      }
    }
  }

  lemma Twice(t: seq<Entry>, i: nat, j: nat)
    requires i < j < |t| && t[i] == t[j]
    ensures multiset(t)[t[i]] >= 2
  {
    assert t == t[..j] + [t[j]] + t[j+1..];
    assert t[..j][i] == t[i];
    assert t[i] in multiset(t[..j]);
  }

  lemma OnceOnly(s: seq<Entry>, x: Entry)
    requires AllDistinct(s)
    ensures multiset(s)[x] <= 1
  {
    if x in s {
      var i :| 0 <= i < |s| && s[i] == x;
      assert s == s[..i] + [x] + s[i+1..];
      assert x !in s[..i] && x !in s[i+1..];
    }
  }

  /** Without its first copy of an entry a list of distinct entries holds all the others. */
  lemma {:induction false} RemovedFrom(s: seq<Entry>, e: Entry)
    requires AllDistinct(s)
    ensures AllDistinct(RemoveFirst(s, e))
    ensures forall x :: x in RemoveFirst(s, e) <==> x in s && x != e
  {
    if s != [] && s[0] != e {
      RemovedFrom(s[1..], e);
      var r := RemoveFirst(s[1..], e);
      assert forall i :: 0 < i < |s| ==> s[i] in s[1..];
      assert s[0] !in s[1..];
    } else if s != [] {
      assert e !in s[1..];
    }
  }
}
