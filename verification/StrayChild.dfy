/** With equal keys an insert can put a child on the wrong side of its neighbour (src/btree.rs). The failing input:
    with TEXT keys of 1000 bytes, of which a page holds four, 5, 5, 5, 5, 5, 7, 8, 3, 9. After that a lookup misses
    the 7, until the 9 is deleted. */
module StrayChild {
  import opened Options
  import opened PageIds
  import opened KeyOrder
  import opened PageLayout
  import opened PageSearch
  import opened EntryList
  import opened TreeShape
  import opened TreePath
  import opened TreeAlign
  import opened LeafChain
  import opened InsertRun
  import opened KeyCodec
  import opened TreeReads
  import opened BTreeIndex
  import opened InsertSpec
  import BufferPools

  /** The payload of a page. */
  const CAPACITY := BufferPools.PAYLOAD_SIZE

  const LENGTH := 1000

  /** A text of 1000 letters but for its first byte. */
  function One(b: byte): (key: Key)
    ensures |key| == LENGTH && key[0] == b
  {
    [b] + Padding()
  }

  function Padding(): (key: Key)
    ensures |key| == LENGTH - 1 && forall i :: 0 <= i < |key| ==> key[i] < 0x80
  {
    seq(LENGTH - 1, _ => 0x41)
  }

  function Fives(): seq<Entry> {
    [Entry(One(5), Rid(1, 0)), Entry(One(5), Rid(1, 1)), Entry(One(5), Rid(1, 2)), Entry(One(5), Rid(1, 3))]
  }

  function Rest(): seq<Entry> {
    [Entry(One(5), Rid(1, 4)), Entry(One(7), Rid(1, 5)), Entry(One(8), Rid(1, 6))]
  }

  /** The tree after 5, 5, 5, 5, 5, 7, 8 were inserted. */
  function FivesPages(): Pages {
    map[2 := Internal(4, [Separator(One(5), 3)]), 4 := Leaf(Fives(), 3), 3 := Leaf(Rest(), NO_NEXT_LEAF)]
  }

  function FivesShape(): Tree {
    NodeT(2, [LeafT(4), LeafT(3)])
  }

  lemma OneByte(a: byte, b: byte)
    ensures Rank(One(a)) < Rank(One(b)) <==> a < b
    ensures BOTTOM <= Rank(One(a)) < TOP
  {
    LessIsRank(One(a), One(b));
    LessIsRank(Padding(), Padding());
    assert One(a)[1..] == Padding() == One(b)[1..];
  }

  lemma FivesFit()
    ensures EntryKeys(Fives()) == [One(5), One(5), One(5), One(5)]
    ensures EntryKeys(Rest()) == [One(5), One(7), One(8)]
    ensures SepKeys([Separator(One(5), 3)]) == [One(5)]
    ensures MaxKeyLen(CAPACITY) >= LENGTH
    ensures LeafFits(Fives(), CAPACITY) && LeafFits(Rest(), CAPACITY) && InternalFits([Separator(One(5), 3)], CAPACITY)
  {
    Counted(EntryKeys(Fives()), RECORD_ID);
    Counted(EntryKeys(Rest()), RECORD_ID);
    Counted(SepKeys([Separator(One(5), 3)]), CHILD_ID);
  }

  lemma {:induction false} Counted(keys: seq<Key>, trailer: nat)
    requires forall i :: 0 <= i < |keys| ==> |keys[i]| == LENGTH
    ensures Need(keys, trailer) == |keys| * (DIR_ENTRY + LENGTH + trailer)
  {
    if keys != [] {
      Counted(keys[..|keys|-1], trailer);
    }
  }

  /** The tree is in order, and inserting 3 into it is not clean: the split hands up a second 5,
      whose child lands right of the leaf that follows it in the chain. */
  lemma SecondFiveGoesAstray()
    ensures Good(CAPACITY, Weak, FivesPages(), FivesShape(), 1, BOTTOM, TOP)
    ensures Chained(FivesPages(), [4, 3]) && LeafIds(FivesShape()) == [4, 3]
    ensures !Clean(CAPACITY, FivesPages(), FivesShape(), One(3))
  {
    hide Rank, Need, MaxKeyLen, LeafFits, InternalFits, PushUp, Upper, Fives, Rest;
    FivesGood();
    FivesChain();
    ThreeSplits();
    var pages := FivesPages();
    assert NodeKeys(pages, 2) == [One(5)] by { FivesFit(); }
    OneByte(3, 5);
    UpperUnique([One(5)], One(3), 0);
  }

  lemma FivesChain()
    ensures Chained(FivesPages(), [4, 3]) && LeafIds(FivesShape()) == [4, 3]
  {
    hide Fives, Rest;
    var kids := [LeafT(4), LeafT(3)];
    assert kids[1..] == [LeafT(3)] && kids[1..][1..] == [];
    assert ForestLeaves(kids[1..]) == [3];
  }

  lemma FivesGood()
    ensures Good(CAPACITY, Weak, FivesPages(), FivesShape(), 1, BOTTOM, TOP)
  {
    hide Rank, LeafPageOk, InnerPageOk, Fives, Rest;
    FivesPagesOk();
    var kids := FivesShape().kids;
    assert Apart(2, kids);
    assert SepKeys([Separator(One(5), 3)]) == [One(5)];
    GoodNode(CAPACITY, Weak, FivesPages(), FivesShape(), 1, BOTTOM, TOP);
  }

  lemma FivesPagesOk()
    ensures LeafPageOk(CAPACITY, Weak, FivesPages()[4], BOTTOM, Rank(One(5)))
    ensures LeafPageOk(CAPACITY, Weak, FivesPages()[3], Rank(One(5)), TOP)
    ensures InnerPageOk(CAPACITY, Weak, FivesPages()[2], FivesShape().kids, BOTTOM, TOP)
  {
    hide Rank, MaxKeyLen, LeafFits, InternalFits, Fives, Rest;
    FivesFit();
    OneByte(5, 5);
    OneByte(5, 7);
    OneByte(7, 8);
    OneByte(5, 8);
    OneByte(8, 5);
  }

  /** Five keys overflow the leaf; four go left, and the last 5 is handed up. */
  lemma ThreeSplits()
    ensures Outcome(CAPACITY, FivesPages(), LeafT(4), One(3)) == Some(One(5))
  {
    hide Rank, Need, Upper;
    FivesFit();
    var keys := EntryKeys(Fives());
    OneByte(3, 5);
    UpperUnique(keys, One(3), 0);
    var keys' := InsertAt(keys, 0, One(3));
    assert keys' == [One(3), One(5), One(5), One(5), One(5)];
    forall n | 0 <= n <= 5 ensures Need(keys'[..n], RECORD_ID) == 1014 * n {
      Counted(keys'[..n], RECORD_ID);
    }
    assert keys'[..5] == keys';
    assert SplitFrom(keys', RECORD_ID, CAPACITY, 4) == 4;
    assert SplitFrom(keys', RECORD_ID, CAPACITY, 3) == 4;
    assert SplitFrom(keys', RECORD_ID, CAPACITY, 2) == 4;
    assert SplitFrom(keys', RECORD_ID, CAPACITY, 1) == 4;
    assert SplitFrom(keys', RECORD_ID, CAPACITY, 0) == 4;
  }

  // ---- What the stray child costs

  /** Leaf `leaf` takes the entry, splitting if need be. */
  ghost predicate Takes(pages: Pages, pages': Pages, leaf: PageId, e: Entry, newId: PageId,
                        r: Result<Option<Split>, Error>) {
    && leaf in pages && pages[leaf].Leaf?
    && var es := pages[leaf].entries;
       LeafWritten(CAPACITY, pages, pages', leaf, InsertAt(es, Upper(EntryKeys(es), e.key), e), newId, r)
  }

  /** The root is internal, and an insert of this key goes down to `child`. */
  ghost predicate Leads(pages: Pages, key: Key, child: PageId) {
    && 2 in pages && pages[2].Internal?
    && var i := Upper(SepKeys(pages[2].seps), key);
       child == if 0 < i <= |pages[2].seps| then pages[2].seps[i-1].child else pages[2].leftmost
  }

  function Three(): Entry { Entry(One(3), Rid(1, 7)) }

  function Seven(): Entry { Entry(One(7), Rid(1, 5)) }

  function Nine(): Entry { Entry(One(9), Rid(1, 8)) }

  function LastFive(): Entry { Entry(One(5), Rid(1, 3)) }

  /** The leaf of 3 has split: page 5 follows page 4 in the chain. */
  function AfterSplit(): Pages {
    FivesPages()[4 := Leaf([Three()] + Fives()[..3], 5)][5 := Leaf([LastFive()], 3)]
  }

  /** The parent has taken the second 5, right of the first one. */
  function AfterThree(): Pages {
    AfterSplit()[2 := Internal(4, [Separator(One(5), 3), Separator(One(5), 5)])]
  }

  function AfterNine(): Pages {
    AfterThree()[5 := Leaf([LastFive(), Nine()], 3)]
  }

  /** Where the descents for 3 and 9 end, and the page writes of inserting them. */
  lemma ThreeAndNine()
    ensures Leads(FivesPages(), One(3), 4)
    ensures Takes(FivesPages(), AfterSplit(), 4, Three(), 5, Ok(Some(Split(One(5), 5))))
    ensures InnerWritten(CAPACITY, AfterSplit(), AfterThree(), 2,
                         InsertAt([Separator(One(5), 3)], Upper([One(5)], One(5)), Separator(One(5), 5)), 6, Ok(None))
    ensures Leads(AfterThree(), One(9), 5)
    ensures Takes(AfterThree(), AfterNine(), 5, Nine(), 6, Ok(None))
  {
    hide Takes, InnerWritten, Fives, Upper, InsertAt, Rank;
    SplitForThree();
    ParentTakesFive();
    NineGoesStray();
    OneByte(3, 5);
    OneByte(5, 9);
    assert SepKeys(FivesPages()[2].seps) == [One(5)] && SepKeys(AfterThree()[2].seps) == [One(5), One(5)];
    UpperUnique([One(5)], One(3), 0);
    UpperUnique([One(5), One(5)], One(9), 2);
  }

  /** Up to four keys fit on a leaf. */
  lemma FourFit(pages: Pages, leaf: PageId, es: seq<Entry>, newId: PageId)
    requires leaf in pages && pages[leaf].Leaf? && |es| <= 4 && forall i :: 0 <= i < |es| ==> |es[i].key| == LENGTH
    ensures LeafWritten(CAPACITY, pages, pages[leaf := Leaf(es, pages[leaf].next)], leaf, es, newId, Ok(None))
  {
    hide Need, SplitPoint;
    Counted(EntryKeys(es), RECORD_ID);
  }

  /** Five are split four to one. */
  lemma FiveSplit(pages: Pages, leaf: PageId, es: seq<Entry>, newId: PageId)
    requires leaf in pages && pages[leaf].Leaf? && |es| == 5 && forall i :: 0 <= i < |es| ==> |es[i].key| == LENGTH
    ensures LeafWritten(CAPACITY, pages, pages[leaf := Leaf(es[..4], newId)][newId := Leaf(es[4..], pages[leaf].next)],
                        leaf, es, newId,
                        Ok(Some(Split(es[4].key, newId))))
  {
    hide Need, SplitPoint;
    forall n | 0 <= n <= 5 ensures Need(EntryKeys(es)[..n], RECORD_ID) == 1014 * n {
      Counted(EntryKeys(es)[..n], RECORD_ID);
    }
    assert EntryKeys(es)[..5] == EntryKeys(es);
    SplitsAtFour(EntryKeys(es));
    Counted(EntryKeys(es[..4]), RECORD_ID);
    Counted(EntryKeys(es[4..]), RECORD_ID);
  }

  lemma SplitForThree()
    ensures Takes(FivesPages(), AfterSplit(), 4, Three(), 5, Ok(Some(Split(One(5), 5))))
  {
    hide Rank, Upper, LeafWritten;
    FivesFit();
    OneByte(3, 5);
    UpperUnique(EntryKeys(Fives()), One(3), 0);
    var es := InsertAt(Fives(), 0, Three());
    FiveSplit(FivesPages(), 4, es, 5);
    assert es[..4] == [Three()] + Fives()[..3] && es[4..] == [LastFive()];
  }

  lemma ParentTakesFive()
    ensures InnerWritten(CAPACITY, AfterSplit(), AfterThree(), 2,
                         InsertAt([Separator(One(5), 3)], Upper([One(5)], One(5)), Separator(One(5), 5)), 6, Ok(None))
  {
    hide Rank, Need, Upper, Fives, Rest;
    OneByte(5, 5);
    UpperUnique([One(5)], One(5), 1);
    var seps := InsertAt([Separator(One(5), 3)], 1, Separator(One(5), 5));
    assert seps == [Separator(One(5), 3), Separator(One(5), 5)];
    Counted(SepKeys(seps), CHILD_ID);
  }

  lemma NineGoesStray()
    ensures Takes(AfterThree(), AfterNine(), 5, Nine(), 6, Ok(None))
  {
    hide Rank, Upper, Fives, Rest, LeafWritten;
    OneByte(5, 9);
    assert EntryKeys([LastFive()]) == [One(5)];
    UpperUnique([One(5)], One(9), 1);
    assert InsertAt([LastFive()], 1, Nine()) == [LastFive(), Nine()];
    FourFit(AfterThree(), 5, [LastFive(), Nine()], 6);
  }

  lemma SplitsAtFour(keys: seq<Key>)
    requires |keys| == 5 && forall n :: 0 <= n <= 5 ==> Need(keys[..n], RECORD_ID) == 1014 * n
    ensures SplitPoint(keys, RECORD_ID, CAPACITY) == 4
  {
    hide Need;
    assert SplitFrom(keys, RECORD_ID, CAPACITY, 4) == 4;
    assert SplitFrom(keys, RECORD_ID, CAPACITY, 3) == 4;
    assert SplitFrom(keys, RECORD_ID, CAPACITY, 2) == 4;
    assert SplitFrom(keys, RECORD_ID, CAPACITY, 1) == 4;
  }

  // ---- How the tree comes about

  /** The root is still a leaf. */
  function Filled(n: nat): Pages
    requires n <= 4
  {
    map[2 := Leaf(Fives()[..n], NO_NEXT_LEAF)]
  }

  /** The fifth 5 has split the root leaf; its right half is page 3. */
  function RootSplit(): Pages {
    map[2 := Leaf(Fives(), 3), 3 := Leaf(Rest()[..1], NO_NEXT_LEAF)]
  }

  /** The left half has moved to page 4, and the root is internal. */
  function Grown(): Pages {
    RootSplit()[4 := RootSplit()[2]][2 := Internal(4, [Separator(One(5), 3)])]
  }

  function WithSeven(): Pages {
    Grown()[3 := Leaf(Rest()[..2], NO_NEXT_LEAF)]
  }

  /** The page writes from an empty tree to these pages: four times 5 into the root, a fifth that splits it,
      the new root, and 7 and 8 into the right leaf. */
  lemma FromEmpty()
    ensures Filled(0) == map[2 := Leaf([], NO_NEXT_LEAF)]
    ensures forall n :: 0 <= n < 4 ==> Takes(Filled(n), Filled(n + 1), 2, Fives()[n], 3, Ok(None))
    ensures Takes(Filled(4), RootSplit(), 2, Rest()[0], 3, Ok(Some(Split(One(5), 3))))
    ensures InternalFits([Separator(One(5), 3)], CAPACITY)
    ensures Grown() == RootSplit()[4 := RootSplit()[2]][2 := Internal(4, [Separator(One(5), 3)])]
    ensures Leads(Grown(), One(7), 3) && Takes(Grown(), WithSeven(), 3, Rest()[1], 5, Ok(None))
    ensures Leads(WithSeven(), One(8), 3) && Takes(WithSeven(), FivesPages(), 3, Rest()[2], 5, Ok(None))
  {
    hide Takes, Upper, Rank, Need, InternalFits;
    forall n | 0 <= n < 4 ensures Takes(Filled(n), Filled(n + 1), 2, Fives()[n], 3, Ok(None)) {
      TakesFive(n);
    }
    FifthSplits();
    FivesFit();
    SevenAndEight();
    OneByte(7, 5);
    OneByte(8, 5);
    assert SepKeys(Grown()[2].seps) == [One(5)] && SepKeys(WithSeven()[2].seps) == [One(5)];
    UpperUnique([One(5)], One(7), 1);
    UpperUnique([One(5)], One(8), 1);
  }

  lemma TakesFive(n: nat)
    requires n < 4
    ensures Takes(Filled(n), Filled(n + 1), 2, Fives()[n], 3, Ok(None))
  {
    hide Rank, Upper, LeafWritten;
    var es := Fives()[..n];
    assert forall i :: 0 <= i < n ==> EntryKeys(es)[i] == One(5);
    UpperUnique(EntryKeys(es), One(5), n);
    assert InsertAt(es, n, Fives()[n]) == Fives()[..n+1];
    FourFit(Filled(n), 2, Fives()[..n+1], 3);
    assert Filled(n)[2 := Leaf(Fives()[..n+1], NO_NEXT_LEAF)] == Filled(n + 1);
  }

  lemma FifthSplits()
    ensures Takes(Filled(4), RootSplit(), 2, Rest()[0], 3, Ok(Some(Split(One(5), 3))))
  {
    hide Rank, Upper, LeafWritten;
    FivesFit();
    assert Fives()[..4] == Fives();
    var es := Fives() + [Rest()[0]];
    UpperUnique(EntryKeys(Fives()), One(5), 4);
    assert InsertAt(Fives(), 4, Rest()[0]) == es;
    FiveSplit(Filled(4), 2, es, 3);
    assert es[..4] == Fives() && es[4..] == Rest()[..1];
    assert Filled(4)[2 := Leaf(Fives(), 3)][3 := Leaf(Rest()[..1], NO_NEXT_LEAF)] == RootSplit();
  }

  lemma SevenAndEight()
    ensures Takes(Grown(), WithSeven(), 3, Rest()[1], 5, Ok(None))
    ensures Takes(WithSeven(), FivesPages(), 3, Rest()[2], 5, Ok(None))
  {
    hide Rank, Upper, Fives, LeafWritten;
    OneByte(7, 5);
    OneByte(8, 7);
    OneByte(8, 5);
    assert EntryKeys(Rest()[..1]) == [One(5)] && EntryKeys(Rest()[..2]) == [One(5), One(7)];
    UpperUnique([One(5)], One(7), 1);
    UpperUnique([One(5), One(7)], One(8), 2);
    assert InsertAt(Rest()[..1], 1, Rest()[1]) == Rest()[..2] && InsertAt(Rest()[..2], 2, Rest()[2]) == Rest();
    FourFit(Grown(), 3, Rest()[..2], 5);
    FourFit(WithSeven(), 3, Rest(), 5);
    assert WithSeven()[3 := Leaf(Rest(), NO_NEXT_LEAF)] == FivesPages();
  }

  // ---- What the lookup finds then

  function AfterShape(): Tree {
    NodeT(2, [LeafT(4), LeafT(3), LeafT(5)])
  }

  lemma AfterChain()
    ensures Chained(AfterNine(), [4, 5, 3])
    ensures multiset([4, 5, 3]) == multiset(LeafIds(AfterShape()))
    ensures Contents(AfterNine(), [4, 5, 3]) == [Three()] + Fives()[..3] + [LastFive(), Nine()] + Rest()
  {
    hide Fives, Rest, Contents, LeafIds, ForestLeaves;
    AfterLeaves();
    AfterContents();
  }

  lemma AfterLeaves()
    ensures LeafIds(AfterShape()) == [4, 3, 5]
  {
    var kids := AfterShape().kids;
    assert kids[1..] == [LeafT(3), LeafT(5)];
    assert [LeafT(5)][1..] == [] && [LeafT(3), LeafT(5)][1..] == [LeafT(5)];
    assert ForestLeaves([LeafT(5)]) == [5];
    assert ForestLeaves([LeafT(3), LeafT(5)]) == [3, 5];
  }

  lemma AfterContents()
    ensures Contents(AfterNine(), [4, 5, 3]) == [Three()] + Fives()[..3] + [LastFive(), Nine()] + Rest()
  {
    hide Fives, Rest;
    var pages := AfterNine();
    assert [4, 5, 3][1..] == [5, 3] && [5, 3][1..] == [3] && [3][1..] == [];
    assert Contents(pages, [3]) == Rest();
    assert Contents(pages, [5, 3]) == [LastFive(), Nine()] + Rest();
  }

  // ---- The same with the operations of the tree

  /** An index on TEXT with equal keys, on pages of the real size. */
  ghost predicate Plain(t: BTree)
    reads t
  {
    t.capacity == CAPACITY && t.keyType == TextType && !t.unique && t.root == 2 && t.Valid() && t.latched == {}
  }

  lemma {:induction false} AsciiIsUtf8(s: seq<byte>)
    requires forall i :: 0 <= i < |s| ==> s[i] < 0x80
    ensures IsUtf8(s)
  {
    if s != [] {
      AsciiIsUtf8(s[1..]);
    }
  }

  lemma OneIsText(b: byte)
    requires b < 0x80
    ensures IsUtf8(One(b)) && EncodeKey(Text(One(b))) == Some(One(b))
  {
    AsciiIsUtf8(One(b));
  }

  method Add(t: BTree, b: byte, rid: Rid)
    requires Plain(t) && b < 0x80
    modifies t
    ensures Plain(t)
    ensures Put(t.pages, t.pageCount, None) ==
            old(PutInto(CAPACITY, t.pages, t.pageCount, t.shape, Entry(One(b), rid)))
  {
    hide PutInto, TakesEntry, BTree.Linked, BTree.Ordered, BTree.Entries, BTree.Holds, Clean, IsUtf8, One, Fits;
    OneIsText(b);
    LongEnough(b);
    var r := t.Insert(Text(One(b)), rid);
  }

  /** Two keys of this length fit on an empty page. */
  lemma LongEnough(b: byte)
    ensures Fits([One(b), One(b)], RECORD_ID, CAPACITY) && Fits([One(b), One(b)], CHILD_ID, CAPACITY)
  {
    TwoNeed(One(b), RECORD_ID);
    TwoNeed(One(b), CHILD_ID);
  }

  /** While the root is a leaf it is the whole tree. */
  lemma RootAlone(t: BTree)
    requires t.Linked() && t.pages[t.root].Leaf?
    ensures t.shape == LeafT(t.root)
  {
    hide Rank, LeafPageOk, Apart, KidsGood, Chained, Ids, LeafIds;
    if t.shape.NodeT? {
      InnerLen(t.capacity, Loose, t.pages[t.root], t.shape.kids, BOTTOM, TOP);
    }
  }

  lemma PutOnRootLeaf(pages: Pages, pages': Pages, e: Entry, count: nat)
    requires Takes(pages, pages', 2, e, count, Ok(None))
    ensures PutInto(CAPACITY, pages, count, LeafT(2), e) == Put(pages', count, None)
  {
    hide LeafWritten, PutBelow, PutInto;
    PutsLeaf(CAPACITY, pages, pages', count, 2, e, Ok(None));
    PutsNoRoot(CAPACITY, pages, count, LeafT(2), e);
  }

  /** The root leaf splits, and the tree grows. */
  lemma PutGrows(pages: Pages, pages': Pages, e: Entry, count: nat, split: Split)
    requires Takes(pages, pages', 2, e, count, Ok(Some(split))) && 2 in pages'
    ensures PutInto(CAPACITY, pages, count, LeafT(2), e) ==
            Put(pages'[count + 1 := pages'[2]][2 := Internal(count + 1, [Separator(split.sep, split.id)])], count + 2,
                None)
  {
    hide LeafWritten, PutBelow, PutInto;
    PutsLeaf(CAPACITY, pages, pages', count, 2, e, Ok(Some(split)));
    var grown := pages'[count + 1 := pages'[2]][2 := Internal(count + 1, [Separator(split.sep, split.id)])];
    PutsRoot(CAPACITY, pages, count, LeafT(2), e, Put(pages', count + 1, Some(split)), grown);
  }

  /** The children of the root, all of them leaves. */
  ghost predicate RootOver(pages: Pages, kids: seq<Tree>) {
    && 2 in pages && pages[2].Internal? && |kids| == |pages[2].seps| + 1 && kids[0].id == pages[2].leftmost
    && (forall i :: 0 <= i < |pages[2].seps| ==> kids[i+1].id == pages[2].seps[i].child)
    && forall i :: 0 <= i < |kids| ==> kids[i].LeafT? && kids[i].id in pages && pages[kids[i].id].Leaf?
  }

  lemma PutOnChild(pages: Pages, pages': Pages, kids: seq<Tree>, child: PageId, e: Entry, count: nat,
                   split: Option<Split>)
    requires RootOver(pages, kids) && Leads(pages, e.key, child)
    requires Takes(pages, pages', child, e, count, Ok(split))
    ensures PutBelow(CAPACITY, pages, count, NodeT(2, kids), e) ==
            var below := Put(pages', count + if split.Some? then 1 else 0, split);
            if split.Some? then PutSeparator(CAPACITY, below.pages, below.count, 2, split.value) else below
  {
    hide LeafWritten, Upper, PutLeaf, PutSeparator, Rank;
    PutsLeaf(CAPACITY, pages, pages', count, child, e, Ok(split));
    var i := Upper(SepKeys(pages[2].seps), e.key);
    assert kids[i] == LeafT(child);
  }

  /** A child takes the entry without splitting. */
  lemma PutFits(pages: Pages, pages': Pages, kids: seq<Tree>, child: PageId, e: Entry, count: nat)
    requires RootOver(pages, kids) && Leads(pages, e.key, child) && Takes(pages, pages', child, e, count, Ok(None))
    ensures PutInto(CAPACITY, pages, count, NodeT(2, kids), e) == Put(pages', count, None)
  {
    hide PutBelow, PutInto, RootOver, Leads, Takes;
    PutOnChild(pages, pages', kids, child, e, count, None);
    PutsNoRoot(CAPACITY, pages, count, NodeT(2, kids), e);
  }

  /** Where inserting 3 leads: page 4 splits, and the root takes the second 5. */
  lemma PutThree()
    ensures PutInto(CAPACITY, FivesPages(), 5, FivesShape(), Three()) == Put(AfterThree(), 6, None)
  {
    hide PutBelow, PutInto, Leads, Takes, Fives, Rest, Upper, Rank, SplitPoint;
    ThreeAndNine();
    PutOnChild(FivesPages(), AfterSplit(), FivesShape().kids, 4, Three(), 5, Some(Split(One(5), 5)));
    assert SepKeys(AfterSplit()[2].seps) == [One(5)];
    PutsNoRoot(CAPACITY, FivesPages(), 5, FivesShape(), Three());
  }

  lemma ShapeOver(t: BTree, kids: seq<Tree>)
    requires t.Linked() && t.root == 2 && RootOver(t.pages, kids)
    ensures t.shape == NodeT(2, kids)
  {
    hide Good, Rank, Chained, Ids, LeafIds;
    TwoLevels(t.capacity, Loose, t.pages, t.shape, t.height, BOTTOM, TOP, kids);
  }

  lemma NothingFilled()
    ensures Filled(0) == map[2 := Leaf([], NO_NEXT_LEAF)]
  {
  }

  /** What inserting a 5 makes of the pages, four times. */
  lemma PutFive(i: nat)
    requires i < 4
    ensures 2 in Filled(i) && Filled(i)[2].Leaf?
    ensures PutInto(CAPACITY, Filled(i), 3, LeafT(2), Entry(One(5), Rid(1, i))) == Put(Filled(i + 1), 3, None)
  {
    hide PutInto, One, Takes, LeafWritten, Upper, Need;
    TakesFive(i);
    PutOnRootLeaf(Filled(i), Filled(i + 1), Fives()[i], 3);
  }

  /** The fifth time, and the tree grows. */
  lemma PutFifth()
    ensures 2 in Filled(4) && Filled(4)[2].Leaf?
    ensures PutInto(CAPACITY, Filled(4), 3, LeafT(2), Entry(One(5), Rid(1, 4))) == Put(Grown(), 5, None)
  {
    hide PutInto, One, Takes, LeafWritten, Fives;
    FifthSplits();
    PutGrows(Filled(4), RootSplit(), Rest()[0], 3, Split(One(5), 3));
  }

  lemma PutSevenAndEight()
    ensures RootOver(Grown(), FivesShape().kids) && RootOver(WithSeven(), FivesShape().kids)
    ensures PutInto(CAPACITY, Grown(), 5, FivesShape(), Entry(One(7), Rid(1, 5))) == Put(WithSeven(), 5, None)
    ensures PutInto(CAPACITY, WithSeven(), 5, FivesShape(), Entry(One(8), Rid(1, 6))) == Put(FivesPages(), 5, None)
  {
    hide PutInto, One, Takes, Leads, LeafWritten, Fives;
    FromEmpty();
    PutFits(Grown(), WithSeven(), FivesShape().kids, 3, Rest()[1], 5);
    PutFits(WithSeven(), FivesPages(), FivesShape().kids, 3, Rest()[2], 5);
  }

  lemma FivesOver()
    ensures RootOver(FivesPages(), FivesShape().kids)
    ensures RootOver(AfterThree(), AfterShape().kids) && RootOver(AfterNine(), AfterShape().kids)
    ensures AfterShape() == NodeT(2, AfterShape().kids)
  {
    hide One, Fives, Rest;
  }

  lemma PutNine()
    ensures PutInto(CAPACITY, AfterThree(), 6, AfterShape(), Nine()) == Put(AfterNine(), 6, None)
  {
    hide PutInto, One, Takes, Leads, LeafWritten, Fives, AfterThree, AfterNine, RootOver, InnerWritten;
    ThreeAndNine();
    FivesOver();
    PutFits(AfterThree(), AfterNine(), AfterShape().kids, 5, Nine(), 6);
  }

  /** Five times the same key into a new index. */
  method FiveFives() returns (t: BTree)
    ensures fresh(t) && Plain(t) && t.pages == Grown() && t.pageCount == 5
  {
    hide PutInto, BTree.Linked, One, Fives, Rest, LeafIds, Contents, IsUtf8, Filled, Grown;
    t := new BTree(CAPACITY, TextType, false);
    NothingFilled();
    var i := 0;
    while i < 4
      invariant i <= 4 && fresh(t) && Plain(t) && t.pages == Filled(i) && t.pageCount == 3
    {
      PutFive(i);
      RootAlone(t);
      Add(t, 5, Rid(1, i));
      i := i + 1;
    }
    PutFifth();
    RootAlone(t);
    Add(t, 5, Rid(1, 4));
  }

  /** Eight inserts into a new index: the tree has lost its order. */
  method EightInserts() returns (t: BTree)
    ensures fresh(t) && Plain(t) && t.pages == AfterThree() && t.pageCount == 6
  {
    hide PutInto, BTree.Linked, One, Fives, Rest, LeafIds, Contents, IsUtf8, Grown, WithSeven, FivesPages, AfterThree,
      RootOver;
    t := FiveFives();
    PutSevenAndEight();
    FivesOver();
    ShapeOver(t, FivesShape().kids);
    Add(t, 7, Rid(1, 5));
    ShapeOver(t, FivesShape().kids);
    Add(t, 8, Rid(1, 6));
    ShapeOver(t, FivesShape().kids);
    PutThree();
    Add(t, 3, Rid(1, 7));
  }

  // ---- Lost and found

  /** The tree and the chain of the last two states. */
  lemma StrayTree(t: BTree)
    requires t.Linked() && t.root == 2 && (t.pages == AfterThree() || t.pages == AfterNine())
    ensures t.shape == AfterShape() && t.chain == [4, 5, 3] && !t.Ordered()
  {
    hide BTree.Linked, One, AfterThree, AfterNine, AfterShape, RootOver, LeafIds, Chained, Good;
    FivesOver();
    ShapeOver(t, AfterShape().kids);
    AfterLeaves();
    ThreeChain();
    AfterChain();
    ChainIs(t, [4, 5, 3]);
  }

  lemma ChainIs(t: BTree, chain: seq<PageId>)
    requires t.Linked() && Chained(t.pages, chain) && multiset(chain) == multiset(LeafIds(t.shape))
    ensures t.chain == chain
  {
    hide Good, Rank, Ids, LeafIds, Contents, Chained;
    SameChain(t.pages, t.chain, chain, |t.chain|);
  }

  lemma ThreeChain()
    ensures Chained(AfterThree(), [4, 5, 3])
  {
    hide One, Fives, Rest;
  }

  /** A search for 7 or for 9 starts at page 5, the second leaf of the chain, before the 9 was stored and after. */
  lemma StartsAtStray(pages: Pages, b: byte)
    requires (pages == AfterThree() || pages == AfterNine()) && b > 5
    ensures IndexIn([4, 5, 3], Reach(pages, AfterShape(), Included(One(b)))) == 1
  {
    hide Rank, Lower, Branch, NodeKeys, Fives, Rest, One;
    StrayBranch(pages, b);
    assert Reach(pages, AfterShape().kids[2], Included(One(b))) == 5;
    ThreeChain();
    IndexOf(AfterThree(), [4, 5, 3], 1);
  }

  lemma StrayBranch(pages: Pages, b: byte)
    requires (pages == AfterThree() || pages == AfterNine()) && b > 5
    ensures Branch(NodeKeys(pages, 2), Included(One(b))) == 2
  {
    hide Rank, Lower, Fives, Rest, One;
    OneByte(5, b);
    assert NodeKeys(pages, 2) == [One(5), One(5)];
    LowerUnique([One(5), One(5)], One(b), 2);
  }

  /** There the 9 hides the next leaf: no 7 is seen. */
  lemma SevenUnseen(rid: Rid)
    ensures Chained(AfterNine(), [4, 5, 3]) && !Seen(AfterNine(), [4, 5, 3], 1, Entry(One(7), rid))
  {
    hide Rank, Chained, Fives, Rest;
    AfterChain();
    OneByte(7, 9);
    var e := Entry(One(7), rid);
    assert AfterNine()[5].entries == [LastFive(), Nine()];
    ComesToStart(AfterNine(), [4, 5, 3], 1, e);
    OneByte(5, 7);
    NotSeen(AfterNine(), [4, 5, 3], 1, e, 1);
  }

  /** Without the 9 the search goes on to the leaf with the 7. */
  lemma SevenSeen(rid: Rid)
    ensures Chained(AfterThree(), [4, 5, 3])
    ensures Seen(AfterThree(), [4, 5, 3], 1, Entry(One(7), rid)) <==> rid == Rid(1, 5)
  {
    hide Rank, Chained, Fives;
    ThreeChain();
    OneByte(5, 7);
    OneByte(7, 8);
    var e, chain := Entry(One(7), rid), [4, 5, 3];
    assert AfterThree()[5].entries == [LastFive()] && AfterThree()[3].entries == Rest();
    assert Rest()[1] == Seven();
    ComesToStart(AfterThree(), chain, 1, e);
    ComesToNext(AfterThree(), chain, 1, e, 1);
    if rid == Rid(1, 5) {
      assert ComesTo(AfterThree(), chain, 1, One(7), 2) && e in AfterThree()[chain[2]].entries;
    } else {
      NotSeen(AfterThree(), chain, 1, e, 2);
    }
  }

  /** The first 9 that a delete comes to is the last entry of page 5. */
  lemma NineSeen(d: nat, pos: nat)
    ensures Chained(AfterNine(), [4, 5, 3]) && Seen(AfterNine(), [4, 5, 3], 1, Nine())
    ensures FirstSeen(AfterNine(), [4, 5, 3], 1, Nine(), d, pos) ==> d == 1 && pos == 1
  {
    hide Rank, Chained, Fives, Rest;
    AfterChain();
    OneByte(5, 9);
    assert AfterNine()[5].entries == [LastFive(), Nine()] && [LastFive(), Nine()][1] == Nine();
    ComesToStart(AfterNine(), [4, 5, 3], 1, Nine());
    assert Seen(AfterNine(), [4, 5, 3], 1, Nine());
  }

  /** The pages without the 9 are those before it. */
  lemma NineGone()
    ensures AfterNine()[5].Leaf? && |AfterNine()[5].entries| == 2
    ensures AfterNine()[5 := Leaf(RemoveAt(AfterNine()[5].entries, 1), AfterNine()[5].next)] == AfterThree()
  {
    hide One, Fives, Rest;
    assert RemoveAt([LastFive(), Nine()], 1) == [LastFive()];
  }

  /** After eight inserts the tree has lost its order, and the lookup still finds the 7. */
  method SevenIsFound() returns (t: BTree, r: Result<seq<Rid>, Error>)
    ensures fresh(t) && Plain(t) && !t.Ordered()
    ensures r.Ok? && forall rid :: rid in r.value <==> rid == Rid(1, 5)
  {
    hide BTree.Linked, BTree.Ordered, BTree.Found, One, Seen, Chained, Contents, IsUtf8, AfterThree, AllDistinct, Reach,
      IndexIn;
    t := EightInserts();
    StrayTree(t);
    StartsAtStray(t.pages, 7);
    OneIsText(7);
    r := t.Lookup(Text(One(7)));
    forall rid ensures rid in r.value <==> rid == Rid(1, 5) {
      SevenSeen(rid);
    }
  }

  method NineInserts() returns (t: BTree)
    ensures fresh(t) && Plain(t) && t.pages == AfterNine() && t.pageCount == 6 && t.chain == [4, 5, 3]
    ensures t.shape == AfterShape() && Seven() in t.Entries()
  {
    hide PutInto, BTree.Linked, One, Contents, IsUtf8, AfterThree, AfterNine, AfterShape, BTree.Ordered, Seven;
    t := EightInserts();
    StrayTree(t);
    PutNine();
    Add(t, 9, Rid(1, 8));
    StrayTree(t);
    StillStored();
  }

  lemma StillStored()
    ensures Seven() in Contents(AfterNine(), [4, 5, 3])
  {
    hide One, Fives;
    AfterContents();
    assert Rest()[1] == Seven();
  }

  /** The ninth insert makes the tree lose it: the 7 is stored, and its lookup returns nothing. */
  method SevenIsLost() returns (t: BTree, r: Result<seq<Rid>, Error>)
    ensures fresh(t) && Plain(t) && Seven() in t.Entries() && EncodeKey(Text(One(7))) == Some(Seven().key)
    ensures r == Ok([])
  {
    hide BTree.Linked, BTree.Ordered, BTree.Found, One, Seen, Chained, Contents, IsUtf8, AfterNine, AfterShape,
      AllDistinct, Reach, IndexIn;
    t := NineInserts();
    StartsAtStray(t.pages, 7);
    OneIsText(7);
    r := t.Lookup(Text(One(7)));
    forall rid ensures rid !in r.value {
      SevenUnseen(rid);
    }
    if r.value != [] {
      SomeIn(r.value);
    }
  }

  lemma SomeIn(rids: seq<Rid>)
    requires rids != []
    ensures exists rid :: rid in rids
  {
    assert rids[0] in rids;
  }

  /** Deleting the 9 brings the 7 back. */
  method SevenIsBack() returns (t: BTree, deleted: Result<bool, Error>, r: Result<seq<Rid>, Error>)
    ensures fresh(t) && Plain(t) && deleted == Ok(true)
    ensures r.Ok? && forall rid :: rid in r.value <==> rid == Rid(1, 5)
  {
    hide BTree.Linked, BTree.Ordered, BTree.Found, BTree.Entries, One, Seen, FirstSeen, Chained, Contents, IsUtf8,
      AfterNine, AfterThree, AfterShape, AllDistinct, Reach, IndexIn, RemoveFirst;
    t := NineInserts();
    StartsAtStray(t.pages, 9);
    NineSeen(0, 0);
    OneIsText(9);
    deleted := t.Delete(Text(One(9)), Rid(1, 8));
    ghost var d: nat, pos: nat :| FirstSeen(AfterNine(), t.chain, 1, Nine(), d, pos) &&
                                  RemovedAt(AfterNine(), t.pages, t.chain, d, pos, Nine());
    NineSeen(d, pos);
    NineGone();
    StrayTree(t);
    StartsAtStray(t.pages, 7);
    OneIsText(7);
    r := t.Lookup(Text(One(7)));
    forall rid ensures rid in r.value <==> rid == Rid(1, 5) {
      SevenSeen(rid);
    }
  }
}
