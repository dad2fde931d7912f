/** The pages of a tree as bytes: every page that an operation of the tree can leave behind can be stored. */
module TreePages {
  import opened Options
  import opened PageIds
  import opened KeyOrder
  import opened KeyCodec
  import opened PageLayout
  import opened TreeShape
  import opened TreePath
  import opened BTreeIndex
  import opened PageCodec

  /** Record ids and page ids fit the fields they are stored in. */
  predicate FieldsFit(node: Node) {
    match node
    case Leaf(es, next) => next < Pow256(8) && Storable(es)
    case Internal(leftmost, seps) => leftmost < Pow256(8) && StorableSeps(seps)
  }

  /** The page is within its capacity and in key order. */
  ghost predicate Writable(c: nat, node: Node) {
    match node
    case Leaf(es, _) => LeafFits(es, c) && InKeyOrder(LeafRecs(es))
    case Internal(_, seps) => InternalFits(seps, c) && InKeyOrder(InternalRecs(seps))
  }

  /** Every page of a tree is writable, whatever the order of the tree as a whole. */
  lemma {:induction false} PagesWritable(c: nat, m: Mode, pages: Pages, t: Tree, h: nat, lo: real, hi: real)
    requires Good(c, m, pages, t, h, lo, hi)
    ensures forall id :: id in Ids(t) ==> id in pages && Writable(c, pages[id])
    decreases t
  {
    hide Rank, InnerPageOk, LeafPageOk, Apart, KidLo, KidHi, Writable;
    if t.LeafT? {
      LeafWritable(c, m, pages[t.id], lo, hi);
    } else {
      InnerLen(c, m, pages[t.id], t.kids, lo, hi);
      InnerWritable(c, m, pages[t.id], t.kids, lo, hi);
      var keys := SepKeys(pages[t.id].seps);
      forall i | 0 <= i < |t.kids| ensures forall id :: id in Ids(t.kids[i]) ==> id in pages && Writable(c, pages[id]) {
        PagesWritable(c, m, pages, t.kids[i], h - 1, KidLo(keys, i, lo), KidHi(keys, i, hi));
      }
    }
  }

  lemma LeafWritable(c: nat, m: Mode, page: Node, lo: real, hi: real)
    requires LeafPageOk(c, m, page, lo, hi)
    ensures Writable(c, page)
  {
    hide Rank, Short, LeafFits, AllWithin;
    var es := page.entries;
    assert forall i :: 0 <= i < |es| ==> LeafRecs(es)[i].key == EntryKeys(es)[i];
  }

  lemma InnerWritable(c: nat, m: Mode, page: Node, kids: seq<Tree>, lo: real, hi: real)
    requires InnerPageOk(c, m, page, kids, lo, hi)
    ensures Writable(c, page)
  {
    hide Rank, Short, InternalFits, AllWithin;
    var seps := page.seps;
    assert forall i :: 0 <= i < |seps| ==> InternalRecs(seps)[i].key == SepKeys(seps)[i];
  }

  /** Any page of any linked tree can be written over any old bytes, and reads back as the same node. */
  method StorePage(t: BTree, id: PageId, payload: array<byte>) returns (r: Option<Node>)
    requires t.Linked() && id in Ids(t.shape) && id in t.pages && FieldsFit(t.pages[id])
    requires payload.Length == t.capacity
    modifies payload
    ensures HoldsNode(payload[..], t.pages[id]) && r == Some(t.pages[id])
  {
    hide Good, Rank, Ids, HoldsNode, Storable, StorableSeps, InKeyOrder, LeafFits, InternalFits, Pow256, FromLe, Need;
    PagesWritable(t.capacity, Loose, t.pages, t.shape, t.height, BOTTOM, TOP);
    match t.pages[id] {
      case Leaf(es, next) =>
        var ok := WriteLeaf(payload, es);
        SetNextLeaf(payload, next);
        r := ReadLeaf(payload);
        ghost var back := if r.Some? then r.value else Leaf(es, next);
        LeafBytes(payload[..], payload[..], es, next, back.entries, back.next);
      case Internal(leftmost, seps) =>
        r := InternalRoundTrip(payload, leftmost, seps);
    }
  }
}
