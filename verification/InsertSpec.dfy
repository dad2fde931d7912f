/** An insert as a plain recursion over the tree: what the loops over latched pages compute (src/btree.rs). */
module InsertSpec {
  import opened Options
  import opened PageIds
  import opened KeyOrder
  import opened PageLayout
  import opened TreeShape
  import opened TreePath
  import opened TreeInsert
  import opened TreeAlign
  import opened LeafChain
  import opened TreeRun
  import opened InsertRun

  /** The pages, the number of pages, and the split that is still to be taken by the parent. */
  datatype Put = Put(pages: Pages, count: nat, split: Option<Split>)

  ghost function PutLeaf(c: nat, pages: Pages, count: nat, id: PageId, e: Entry): Put {
    if id !in pages || !pages[id].Leaf? then Put(pages, count, None)
    else
      var es, next := EntriesWith(pages, id, e), pages[id].next;
      var mid := SplitPoint(EntryKeys(es), RECORD_ID, c);
      if LeafFits(es, c) || mid >= |es| then Put(pages[id := Leaf(es, next)], count, None)
      else
        Put(pages[id := Leaf(es[..mid], count)][count := Leaf(es[mid..], next)], count + 1,
            Some(Split(es[mid].key, count)))
  }

  ghost function PutSeparator(c: nat, pages: Pages, count: nat, id: PageId, split: Split): Put {
    if id !in pages || !pages[id].Internal? then Put(pages, count, None)
    else
      var before, leftmost := pages[id].seps, pages[id].leftmost;
      var seps := InsertAt(before, Upper(SepKeys(before), split.sep), Separator(split.sep, split.id));
      var mid := SplitPoint(SepKeys(seps), CHILD_ID, c);
      if InternalFits(seps, c) || mid >= |seps| then Put(pages[id := Internal(leftmost, seps)], count, None)
      else
        Put(pages[id := Internal(leftmost, seps[..mid])][count := Internal(seps[mid].child, seps[mid+1..])], count + 1,
            Some(Split(seps[mid].key, count)))
  }

  /** Inserts into a subtree. The page of a node changes only if its child has split. */
  ghost function PutBelow(c: nat, pages: Pages, count: nat, t: Tree, e: Entry): Put
    decreases t
  {
    match t
    case LeafT(id) => PutLeaf(c, pages, count, id, e)
    case NodeT(id, kids) =>
      var i := Upper(NodeKeys(pages, id), e.key);
      if i >= |kids| then Put(pages, count, None)
      else
        var below := PutBelow(c, pages, count, kids[i], e);
        match below.split
        case None => below
        case Some(split) => PutSeparator(c, below.pages, below.count, id, split)
  }

  /** Inserts into a tree: a root that has split moves its left half to a new page. */
  ghost function PutInto(c: nat, pages: Pages, count: nat, t: Tree, e: Entry): Put {
    var put := PutBelow(c, pages, count, t, e);
    match put.split
    case None => put
    case Some(split) =>
      if t.id !in put.pages then put
      else
        Put(put.pages[put.count := put.pages[t.id]][t.id := Internal(put.count, [Separator(split.sep, split.id)])],
            put.count + 1, None)
  }

  /** The leaf step of the loop. */
  lemma PutsLeaf(c: nat, pages: Pages, pages': Pages, count: nat, id: PageId, e: Entry,
                 w: Result<Option<Split>, Error>)
    requires id in pages && pages[id].Leaf? && w.Ok?
    requires LeafWritten(c, pages, pages', id, EntriesWith(pages, id, e), count, w)
    ensures PutBelow(c, pages, count, LeafT(id), e) == Put(pages', count + if w.value.Some? then 1 else 0, w.value)
  {
    hide LeafFits, SplitPoint, EntriesWith, EntryKeys, Rank;
  }

  /** What the write of a parent page leaves is what the recursion puts there. */
  lemma WrittenIsPut(c: nat, pages: Pages, pages': Pages, count: nat, id: PageId, split: Split,
                     u: Result<Option<Split>, Error>)
    requires id in pages && pages[id].Internal? && u.Ok?
    requires InnerWritten(c, pages, pages', id,
                          InsertAt(pages[id].seps, Upper(SepKeys(pages[id].seps), split.sep),
                                   Separator(split.sep, split.id)),
                          count, u)
    ensures PutSeparator(c, pages, count, id, split) == Put(pages', count + if u.value.Some? then 1 else 0, u.value)
  {
    hide InternalFits, SplitPoint, SepKeys, Rank, Upper, InsertAt;
  }

  /** One step up: the parent takes the separator. */
  lemma PutsSeparator(r: Run, pages: Pages, pages': Pages, count0: nat, count: nat, l: Level, split: Split, left: Tree,
                      right: Tree, es: seq<Entry>, e: Entry, u: Result<Option<Split>, Error>)
    requires Running(r, pages, count, l, Some(split), left, right, es) && l.n > 0 && r.key == e.key && u.Ok?
    requires PutBelow(r.c, r.pages0, count0, l.was, e) == Put(pages, count, Some(split))
    requires var id := r.path[l.n-1].node.id;
      && id in pages && pages[id].Internal?
      && InnerWritten(r.c, pages, pages', id,
                      InsertAt(pages[id].seps, Upper(SepKeys(pages[id].seps), split.sep),
                               Separator(split.sep, split.id)),
                      count, u)
    ensures PutBelow(r.c, r.pages0, count0, Up(r, pages, l, split.sep).was, e) ==
            Put(pages', count + if u.value.Some? then 1 else 0, u.value)
  {
    hide InternalFits, SplitPoint, SepKeys, Rank, Propagating, FrameOk, Pending, NodeKeys, Upper, InsertAt, Contents,
      Chained, PathIds, Ids, PutSeparator, InnerWritten, Fills, PathOk, Within;
    var f := r.path[l.n-1];
    WrittenIsPut(r.c, pages, pages', count, f.node.id, split, u);
    ParentFrame(r, pages, l, left, split.sep, right);
    assert Up(r, pages, l, split.sep).was == f.node;
  }

  /** The last step: the root grows. */
  lemma PutsRoot(c: nat, pages0: Pages, count0: nat, t: Tree, e: Entry, put: Put, pages: Pages)
    requires PutBelow(c, pages0, count0, t, e) == put && put.split.Some? && t.id in put.pages
    requires var split := put.split.value;
      pages == put.pages[put.count := put.pages[t.id]][t.id := Internal(put.count, [Separator(split.sep, split.id)])]
    ensures PutInto(c, pages0, count0, t, e) == Put(pages, put.count + 1, None)
  {
    hide PutBelow;
  }

  lemma PutsNoRoot(c: nat, pages0: Pages, count0: nat, t: Tree, e: Entry)
    requires PutBelow(c, pages0, count0, t, e).split.None?
    ensures PutInto(c, pages0, count0, t, e) == PutBelow(c, pages0, count0, t, e)
  {
    hide PutBelow;
  }

  lemma PlugNothing(path: seq<Frame>, t: Tree)
    requires path == []
    ensures Plug(path, t) == t
  {
  }

  /** Above a node that has taken the split nothing changes. */
  lemma {:induction false} PutsNothingAbove(c: nat, pages: Pages, count: nat, path: seq<Frame>, t: Tree, e: Entry)
    requires Followed(pages, path, t, e.key) && PutBelow(c, pages, count, t, e).split.None?
    ensures PutBelow(c, pages, count, Plug(path, t), e) == PutBelow(c, pages, count, t, e)
    decreases |path|
  {
    hide NodeKeys, Upper, Rank, PutSeparator, PutLeaf;
    if path != [] {
      var f := path[|path|-1];
      PlugUp(path, t);
      FollowedUp(pages, path, t, e.key);
      assert PutBelow(c, pages, count, f.node, e) == PutBelow(c, pages, count, t, e);
      PutsNothingAbove(c, pages, count, path[..|path|-1], f.node, e);
    }
  }

  lemma FollowedUp(pages: Pages, path: seq<Frame>, t: Tree, key: Key)
    requires Followed(pages, path, t, key) && path != []
    ensures Followed(pages, path[..|path|-1], path[|path|-1].node, key)
    ensures var f := path[|path|-1]; f.i == Upper(NodeKeys(pages, f.node.id), key) && f.node.kids[f.i] == t
  {
    hide NodeKeys, Upper;
  }

  lemma RunChained(r: Run, pages: Pages, pageCount: nat, l: Level, pending: Option<Split>, left: Tree, right: Tree,
                   es: seq<Entry>)
    requires Running(r, pages, pageCount, l, pending, left, right, es)
    ensures Chained(pages, r.chain)
  {
    hide Settled, Propagating, Contents, Chained;
  }

  lemma RunFollowed(r: Run, pages: Pages, pageCount: nat, l: Level, left: Tree, right: Tree, es: seq<Entry>)
    requires Running(r, pages, pageCount, l, None, left, right, es)
    ensures l.n <= |r.path| && Followed(r.pages0, r.path[..l.n], l.was, r.key)
  {
    hide Followed, PathOk, Good, Rank, Clean, Contents, Chained;
  }
}
