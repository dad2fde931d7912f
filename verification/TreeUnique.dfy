/** In a tree of distinct keys no separator goes astray. */
module TreeUnique {
  import opened KeyOrder
  import opened PageLayout
  import opened TreeShape
  import opened TreePath
  import opened TreeAlign

  /** Whatever a page pushes up is one of its keys or the key inserted. */
  lemma PushUpWithin(c: nat, keys: seq<Key>, key: Key, trailer: nat, lo: real, hi: real)
    requires AllWithin(Strict, lo, keys, hi) && lo <= Rank(key) < hi
    ensures var up := PushUp(c, keys, key, trailer);
      up.Some? ==> lo <= Rank(up.value) < hi
  {
    hide Rank, Fits, SplitPoint;
    var keys' := InsertAt(keys, Upper(keys, key), key);
    assert forall i :: 0 <= i < |keys'| ==> keys'[i] == key || keys'[i] in keys;
  }

  /** Inserting into a tree of distinct keys is clean, and what it pushes up stays within the bounds. */
  lemma {:induction false} StrictIsClean(c: nat, pages: Pages, t: Tree, h: nat, lo: real, hi: real, key: Key)
    requires Good(c, Strict, pages, t, h, lo, hi) && lo <= Rank(key) < hi
    ensures Clean(c, pages, t, key)
    ensures var up := Outcome(c, pages, t, key); up.Some? ==> lo <= Rank(up.value) < hi
    decreases t
  {
    hide Rank, InnerPageOk, LeafPageOk, Apart, Upper, PushUp, AllWithin, Ids;
    if t.LeafT? {
      LeafKeys(c, pages[t.id], lo, hi);
      PushUpWithin(c, EntryKeys(pages[t.id].entries), key, RECORD_ID, lo, hi);
    } else {
      InnerLen(c, Strict, pages[t.id], t.kids, lo, hi);
      var keys := NodeKeys(pages, t.id);
      var i := Upper(keys, key);
      InnerKeys(c, pages[t.id], t.kids, lo, hi, i);
      var kid := t.kids[i];
      assert Good(c, Strict, pages, kid, h - 1, KidLo(keys, i, lo), KidHi(keys, i, hi));
      StrictIsClean(c, pages, kid, h - 1, KidLo(keys, i, lo), KidHi(keys, i, hi), key);
      var up := Outcome(c, pages, kid, key);
      if up.Some? {
        PushUpWithin(c, keys, up.value, CHILD_ID, lo, hi);
      }
    }
  }

  lemma LeafKeys(c: nat, page: Node, lo: real, hi: real)
    requires LeafPageOk(c, Strict, page, lo, hi)
    ensures page.Leaf? && AllWithin(Strict, lo, EntryKeys(page.entries), hi)
  {
    hide Rank, LeafFits, Short, Sorted, AllWithin;
  }

  lemma InnerKeys(c: nat, page: Node, kids: seq<Tree>, lo: real, hi: real, i: nat)
    requires InnerPageOk(c, Strict, page, kids, lo, hi) && i <= |SepKeys(page.seps)|
    ensures AllWithin(Strict, lo, SepKeys(page.seps), hi)
    ensures lo <= KidLo(SepKeys(page.seps), i, lo) && KidHi(SepKeys(page.seps), i, hi) <= hi
  {
    hide Rank, InternalFits, Short, Sorted;
    var keys := SepKeys(page.seps);
    if i > 0 { assert Within(Strict, lo, Rank(keys[i-1]), hi); }
    if i < |keys| { assert Within(Strict, lo, Rank(keys[i]), hi); }
  }
}
