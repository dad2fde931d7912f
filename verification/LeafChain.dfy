/** The chain of leaves linked by their next pointers, and what is stored along it. */
module LeafChain {
  import opened PageIds
  import opened PageLayout
  import opened TreeShape

  ghost function NextIn(chain: seq<PageId>, i: nat): PageId {
    if i + 1 < |chain| then chain[i+1] else NO_NEXT_LEAF
  }

  /** The leaves of the chain point to each other in order, and the last one to nothing. */
  ghost predicate Chained(pages: Pages, chain: seq<PageId>) {
    && (forall i :: 0 <= i < |chain| ==>
          chain[i] != 0 && chain[i] in pages && pages[chain[i]].Leaf? && pages[chain[i]].next == NextIn(chain, i))
    && Distinct(chain)
  }

  /** No leaf leaves the chain, except a root that becomes internal. */
  ghost predicate StillOn(chain: seq<PageId>, chain': seq<PageId>, root: PageId) {
    forall x :: x in chain ==> x in chain' || x == root
  }

  /** Leaf by leaf the pages are the same; only a root may have moved to another page. */
  ghost predicate SameLeaves(pages: Pages, chain: seq<PageId>, pages': Pages, chain': seq<PageId>, root: PageId) {
    && |chain'| == |chain|
    && forall i :: 0 <= i < |chain| ==>
         && chain[i] in pages && chain'[i] in pages' && pages'[chain'[i]] == pages[chain[i]]
         && (chain'[i] == chain[i] || chain[i] == root)
  }

  lemma SamePages(pages: Pages, chain: seq<PageId>, root: PageId)
    requires Chained(pages, chain)
    ensures SameLeaves(pages, chain, pages, chain, root)
  {
  }

  lemma SameLeavesAfter(pages: Pages, pages': Pages, chain: seq<PageId>, root: PageId)
    requires forall x :: x in chain ==> x in pages && x in pages' && pages'[x] == pages[x]
    ensures SameLeaves(pages, chain, pages', chain, root)
  {
    assert forall i :: 0 <= i < |chain| ==> chain[i] in chain;
  }

  lemma SameLeavesOn(pages: Pages, pages1: Pages, pages': Pages, chain: seq<PageId>, chain': seq<PageId>, root: PageId)
    requires SameLeaves(pages, chain, pages1, chain, root) && SameLeaves(pages1, chain, pages', chain', root)
    ensures SameLeaves(pages, chain, pages', chain', root)
  {
  }

  /** Where leaf `i` stands after leaf `d` took an entry and gave part of its entries to `n` new leaves behind it. */
  function Shifted(i: nat, d: nat, n: nat): nat {
    if i <= d then i else i + n
  }

  /** Leaf `d` took the entry at place `pos`, and may have split; all other leaves hold what they held. Every leaf but
      a root keeps its page. */
  ghost predicate TakesEntry(pages: Pages, chain: seq<PageId>, pages': Pages, chain': seq<PageId>, root: PageId,
                             d: nat, pos: nat, e: Entry) {
    && Chained(pages, chain) && Chained(pages', chain') && d < |chain| && pos <= |pages[chain[d]].entries|
    && |chain| <= |chain'| <= |chain| + 1
    && (forall i :: 0 <= i < |chain| ==>
          var i' := Shifted(i, d, |chain'| - |chain|);
          && (chain'[i'] == chain[i] || chain[i] == root)
          && (i != d ==> pages'[chain'[i']].entries == pages[chain[i]].entries))
    && pages'[chain'[d]].entries + (if |chain'| == |chain| then [] else pages'[chain'[d+1]].entries) ==
       InsertAt(pages[chain[d]].entries, pos, e)
  }

  lemma TakesStillOn(pages: Pages, chain: seq<PageId>, pages': Pages, chain': seq<PageId>, root: PageId,
                     d: nat, pos: nat, e: Entry)
    requires TakesEntry(pages, chain, pages', chain', root, d, pos, e)
    ensures StillOn(chain, chain', root)
  {
    hide Chained;
    forall x | x in chain ensures x in chain' || x == root {
      var i :| 0 <= i < |chain| && chain[i] == x;
      assert chain'[Shifted(i, d, |chain'| - |chain|)] == x || x == root;
    }
  }

  lemma TakesThrough(pages: Pages, chain: seq<PageId>, pages1: Pages, chain1: seq<PageId>, pages': Pages,
                     chain': seq<PageId>, root: PageId, d: nat, pos: nat, e: Entry)
    requires TakesEntry(pages, chain, pages1, chain1, root, d, pos, e)
    requires SameLeaves(pages1, chain1, pages', chain', root) && Chained(pages', chain')
    ensures TakesEntry(pages, chain, pages', chain', root, d, pos, e)
  {
    hide Chained;
    assert Chained(pages1, chain1);
    forall i | 0 <= i < |chain|
      ensures var i' := Shifted(i, d, |chain'| - |chain|);
        i' < |chain'| && chain'[i'] in pages' && pages'[chain'[i']] == pages1[chain1[i']] &&
        (chain'[i'] == chain[i] || chain[i] == root)
    {
      var i' := Shifted(i, d, |chain1| - |chain|);
      assert i' < |chain1|;
    }
  }

  ghost predicate Bounded(ids: set<PageId>, n: nat) {
    forall x :: x in ids ==> 0 < x < n
  }

  /** The pages decide the order of their leaves. */
  lemma {:induction false} SameChain(pages: Pages, a: seq<PageId>, b: seq<PageId>, n: nat)
    requires Chained(pages, a) && Chained(pages, b) && multiset(a) == multiset(b) && n <= |a|
    ensures |a| == |b| && forall i :: |a| - n <= i < |a| ==> a[i] == b[i]
  {
    hide Chained;
    assert |multiset(a)| == |multiset(b)|;
    if n > 0 {
      SameChain(pages, a, b, n - 1);
      var i := |a| - n;
      assert b[i] in multiset(a);
      var k :| 0 <= k < |a| && a[k] == b[i];
      SameLink(pages, a, b, k, i);
    }
  }

  lemma SameLink(pages: Pages, a: seq<PageId>, b: seq<PageId>, k: nat, i: nat)
    requires Chained(pages, a) && Chained(pages, b) && k < |a| == |b| && i < |b| && a[k] == b[i]
    requires i + 1 < |a| ==> a[i+1] == b[i+1]
    ensures k == i
  {
    assert pages[a[k]].next == NextIn(a, k) && pages[b[i]].next == NextIn(b, i);
    assert NextIn(a, k) == NextIn(a, i);
  }

  lemma ChainFrame(pages: Pages, pages': Pages, chain: seq<PageId>)
    requires Chained(pages, chain)
    requires forall x :: x in chain ==> x in pages' && pages'[x] == pages[x]
    ensures Chained(pages', chain) && Contents(pages', chain) == Contents(pages, chain)
  {
    assert forall i :: 0 <= i < |chain| ==> chain[i] in chain;
    ContentsFrame(pages, pages', chain);
  }

  /** The entries around one leaf of the chain. */
  lemma ContentsAt(pages: Pages, chain: seq<PageId>, j: nat)
    requires Chained(pages, chain) && j < |chain|
    ensures Contents(pages, chain) ==
      Contents(pages, chain[..j]) + pages[chain[j]].entries + Contents(pages, chain[j+1..])
  {
    hide NextIn, Contents;
    var a, b := chain[..j], chain[j..];
    assert chain == a + b;
    ContentsConcat(pages, a, b);
    ContentsHead(pages, b);
    assert b[1..] == chain[j+1..] && b[0] == chain[j];
  }

  lemma ContentsHead(pages: Pages, ids: seq<PageId>)
    requires ids != [] && ids[0] in pages && pages[ids[0]].Leaf?
    ensures Contents(pages, ids) == pages[ids[0]].entries + Contents(pages, ids[1..])
  {
  }

  /** Rewriting the entries of leaf `j` only. */
  lemma ChainRewrite(pages: Pages, pages': Pages, chain: seq<PageId>, j: nat, es: seq<Entry>)
    requires Chained(pages, chain) && j < |chain|
    requires pages' == pages[chain[j] := Leaf(es, pages[chain[j]].next)]
    ensures Chained(pages', chain)
    ensures Contents(pages', chain) == Contents(pages, chain[..j]) + es + Contents(pages, chain[j+1..])
  {
    hide Contents;
    ContentsAt(pages', chain, j);
    ContentsFrame(pages, pages', chain[..j]);
    ContentsFrame(pages, pages', chain[j+1..]);
  }

  ghost predicate Distinct(chain: seq<PageId>) {
    forall i, j :: 0 <= i < j < |chain| ==> chain[i] != chain[j]
  }

  lemma DistinctInsert(chain: seq<PageId>, p: nat, id: PageId)
    requires Distinct(chain) && p <= |chain| && id !in chain
    ensures Distinct(InsertAt(chain, p, id))
  {
    var chain' := InsertAt(chain, p, id);
    forall i, k | 0 <= i < k < |chain'| ensures chain'[i] != chain'[k] {
      if i != p { assert chain'[i] == chain[if i < p then i else i - 1] && chain'[i] in chain; }
      if k != p { assert chain'[k] == chain[if k < p then k else k - 1] && chain'[k] in chain; }
    }
  }

  lemma ChainSplitLinks(pages: Pages, pages': Pages, chain: seq<PageId>, j: nat, id: PageId, a: seq<Entry>,
                        b: seq<Entry>)
    requires Chained(pages, chain) && j < |chain| && id !in pages && id != 0
    requires pages' == pages[chain[j] := Leaf(a, id)][id := Leaf(b, pages[chain[j]].next)]
    ensures Chained(pages', InsertAt(chain, j + 1, id))
  {
    var chain' := InsertAt(chain, j + 1, id);
    assert id !in chain;
    DistinctInsert(chain, j + 1, id);
    forall i | 0 <= i < |chain'|
      ensures chain'[i] != 0 && chain'[i] in pages' && pages'[chain'[i]].Leaf?
      ensures pages'[chain'[i]].next == NextIn(chain', i)
    {
      SplitLink(pages, pages', chain, chain', j, id, a, b, i);
    }
  }

  lemma SplitLink(pages: Pages, pages': Pages, chain: seq<PageId>, chain': seq<PageId>, j: nat, id: PageId,
                  a: seq<Entry>, b: seq<Entry>, i: nat)
    requires Chained(pages, chain) && j < |chain| && id !in pages && id != 0 && i <= |chain| && id !in chain
    requires pages' == pages[chain[j] := Leaf(a, id)][id := Leaf(b, pages[chain[j]].next)]
    requires chain' == InsertAt(chain, j + 1, id)
    ensures chain'[i] != 0 && chain'[i] in pages' && pages'[chain'[i]].Leaf?
    ensures pages'[chain'[i]].next == NextIn(chain', i)
  {
    if i < j {
      assert chain'[i] == chain[i] && chain'[i+1] == chain[i+1] && chain[i] != chain[j];
    } else if i > j + 1 {
      assert chain'[i] == chain[i-1] && chain[j] != chain[i-1];
      assert i < |chain| ==> chain'[i+1] == chain[i];
    } else {
      assert j + 1 < |chain| ==> chain'[j+2] == chain[j+1];
    }
  }

  /** Splitting leaf `j`: the new leaf follows it. */
  lemma ChainSplit(pages: Pages, pages': Pages, chain: seq<PageId>, j: nat, id: PageId, a: seq<Entry>, b: seq<Entry>)
    requires Chained(pages, chain) && j < |chain| && id !in pages && id != 0
    requires pages' == pages[chain[j] := Leaf(a, id)][id := Leaf(b, pages[chain[j]].next)]
    ensures Chained(pages', InsertAt(chain, j + 1, id))
    ensures Contents(pages', InsertAt(chain, j + 1, id)) == Contents(pages, chain[..j]) + (a + b) +
        Contents(pages, chain[j+1..])
  {
    hide Contents, InsertAt, NextIn;
    var chain' := InsertAt(chain, j + 1, id);
    ChainSplitLinks(pages, pages', chain, j, id, a, b);
    ContentsAt(pages', chain', j);
    ContentsAt2(pages', chain', j);
    assert chain'[..j] == chain[..j] && chain'[j+2..] == chain[j+1..];
    ContentsFrame(pages, pages', chain[..j]);
    ContentsFrame(pages, pages', chain[j+1..]);
  }

  lemma ContentsAt2(pages: Pages, chain: seq<PageId>, j: nat)
    requires Chained(pages, chain) && j + 1 < |chain|
    ensures Contents(pages, chain[j+1..]) == pages[chain[j+1]].entries + Contents(pages, chain[j+2..])
  {
    assert chain[j+1..][1..] == chain[j+2..];
  }
}
