/** What an insert leaves of the entries a scan has still to return (src/btree.rs). */
module ScanGrowth {
  import opened PageIds
  import opened KeyOrder
  import opened PageLayout
  import opened TreeShape
  import opened LeafChain
  import opened ScanPosition
  import opened TreeReads

  /** An entry of the rest of the chain is on one of its leaves. */
  lemma {:induction false} InRest(pages: Pages, chain: seq<PageId>, k: nat, x: Entry)
    requires Chained(pages, chain) && k <= |chain|
    ensures x in Contents(pages, chain[k..]) <==> exists i :: k <= i < |chain| && x in pages[chain[i]].entries
    decreases |chain| - k
  {
    hide Contents;
    if k == |chain| {
      assert chain[k..] == [];
      NoContents(pages);
    } else {
      InRest(pages, chain, k + 1, x);
      ContentsHead(pages, chain[k..]);
      assert chain[k..][1..] == chain[k+1..];
    }
  }

  lemma NoContents(pages: Pages)
    ensures Contents(pages, []) == []
  {
  }

  lemma WantedLater(p: Position, x: Entry)
    ensures Wanted(p, x) ==> Wanted(Carry(p), x) && AboveLower(SeekBound(p), x.key)
  {
    hide Rank;
  }

  /** What a scan at position `p` of leaf `j` has still to return, leaf by leaf. */
  lemma ToReturnAt(pages: Pages, chain: seq<PageId>, j: nat, p: Position, x: Entry)
    requires Chained(pages, chain) && j < |chain|
    ensures x in ToReturn(pages, chain, j, p) <==>
            (exists i :: j <= i < |chain| && x in pages[chain[i]].entries && Wanted(Carried(j, p, i), x))
  {
    hide Contents, Wanted, Carry;
    OnChain(pages, chain, j);
    InRest(pages, chain, j + 1, x);
    if x in ToReturn(pages, chain, j, p) {
      if x in WantedIn(pages[chain[j]].entries, p) {
        assert Wanted(Carried(j, p, j), x);
      } else {
        var i :| j + 1 <= i < |chain| && x in pages[chain[i]].entries;
        assert Wanted(Carried(j, p, i), x);
      }
    }
  }

  lemma {:induction false} WhereWanted(pages: Pages, chain: seq<PageId>, j: nat, p: Position, x: Entry)
    returns (i: nat)
    requires Chained(pages, chain) && j < |chain| && x in ToReturn(pages, chain, j, p)
    ensures j <= i < |chain| && chain[i] in pages && pages[chain[i]].Leaf? && x in pages[chain[i]].entries
    ensures Wanted(Carried(j, p, i), x)
  {
    hide Contents, Wanted, Carry, ToReturn, Carried, Distinct, NextIn;
    ToReturnAt(pages, chain, j, p, x);
    i :| j <= i < |chain| && x in pages[chain[i]].entries && Wanted(Carried(j, p, i), x);
  }

  /** Wherever a scan stands, an insert takes nothing off what it has still to return: the entries of a leaf that
      splits go to the next leaf at most, and what is wanted on a leaf is wanted on the next. */
  lemma TakesNothing(pages: Pages, chain: seq<PageId>, pages': Pages, chain': seq<PageId>, root: PageId, d: nat,
                     pos: nat, e: Entry, j: nat, p: Position)
    requires TakesEntry(pages, chain, pages', chain', root, d, pos, e) && j < |chain|
    ensures Shifted(j, d, |chain'| - |chain|) < |chain'|
    ensures ToReturn(pages, chain, j, p) <= ToReturn(pages', chain', Shifted(j, d, |chain'| - |chain|), p)
  {
    hide Contents, Wanted, Carry, Chained, ToReturn, TakesEntry, Shifted;
    NewPlace(pages, chain, pages', chain', root, d, pos, e, j);
    assert Chained(pages, chain) && Chained(pages', chain') by { BothChained(pages, chain, pages', chain', root, d, pos,
        e); }
    var j' := Shifted(j, d, |chain'| - |chain|);
    forall x | x in ToReturn(pages, chain, j, p) ensures x in ToReturn(pages', chain', j', p) {
      var i := WhereWanted(pages, chain, j, p, x);
      ToReturnAt(pages', chain', j', p, x);
      var i' := StillThere(pages, chain, pages', chain', root, d, pos, e, j, i, x);
      WantedLater(p, x);
    }
  }

  lemma BothChained(pages: Pages, chain: seq<PageId>, pages': Pages, chain': seq<PageId>, root: PageId, d: nat,
                    pos: nat, e: Entry)
    requires TakesEntry(pages, chain, pages', chain', root, d, pos, e)
    ensures Chained(pages, chain) && Chained(pages', chain') && |chain| <= |chain'|
  {
    hide Chained;
  }

  lemma NewPlace(pages: Pages, chain: seq<PageId>, pages': Pages, chain': seq<PageId>, root: PageId, d: nat,
                 pos: nat, e: Entry, j: nat)
    requires TakesEntry(pages, chain, pages', chain', root, d, pos, e) && j < |chain|
    ensures |chain| <= |chain'| && Shifted(j, d, |chain'| - |chain|) < |chain'|
  {
    hide Chained;
  }

  /** An entry of leaf `i` stays where leaf `i` is, or goes to the leaf behind it. */
  lemma {:induction false} StillThere(pages: Pages, chain: seq<PageId>, pages': Pages, chain': seq<PageId>,
                                      root: PageId, d: nat, pos: nat, e: Entry, j: nat, i: nat, x: Entry)
    returns (i': nat)
    requires TakesEntry(pages, chain, pages', chain', root, d, pos, e) && j <= i < |chain|
    requires chain[i] in pages && pages[chain[i]].Leaf? && x in pages[chain[i]].entries
    ensures |chain| <= |chain'|
    ensures var j' := Shifted(j, d, |chain'| - |chain|);
      && j' <= i' < |chain'| && chain'[i'] in pages' && pages'[chain'[i']].Leaf? && x in pages'[chain'[i']].entries
      && (i' == j' ==> i == j)
  {
    hide Distinct, NextIn;
    i' := Shifted(i, d, |chain'| - |chain|);
    if i == d {
      var es := pages[chain[d]].entries;
      var k :| 0 <= k < |es| && es[k] == x;
      assert InsertAt(es, pos, e)[if k < pos then k else k + 1] == x;
      if x !in pages'[chain'[d]].entries {
        i' := d + 1;
      }
    }
  }

  /** After a new descent everything still wanted lies before the scan. */
  lemma FoundAgain(pages: Pages, chain: seq<PageId>, j: nat, p: Position, x: Entry)
    requires Chained(pages, chain) && j < |chain| && x in Contents(pages, chain) && Wanted(p, x)
    requires forall e :: e in Contents(pages, chain[..j]) ==> !AboveLower(SeekBound(p), e.key)
    ensures x in ToReturn(pages, chain, j, p)
  {
    hide Contents, Wanted, Carry, Chained, AboveLower, SeekBound;
    OnChain(pages, chain, j);
    ContentsAt(pages, chain, j);
    WantedLater(p, x);
  }

  /** A delete takes at most its own entry off. */
  lemma RemovesOne(pages: Pages, pages': Pages, chain: seq<PageId>, j: nat, p: Position, d: nat, pos: nat)
    requires Chained(pages, chain) && j < |chain| && d < |chain| && pos < |pages[chain[d]].entries|
    requires pages' == pages[chain[d] := Leaf(RemoveAt(pages[chain[d]].entries, pos), pages[chain[d]].next)]
    ensures Chained(pages', chain)
    ensures forall x :: x in ToReturn(pages, chain, j, p) && x != pages[chain[d]].entries[pos] ==>
              x in ToReturn(pages', chain, j, p)
  {
    hide Contents, Wanted, ToReturn, RemoveAt, Carried;
    ChainRewrite(pages, pages', chain, d, RemoveAt(pages[chain[d]].entries, pos));
    forall x | x in ToReturn(pages, chain, j, p) && x != pages[chain[d]].entries[pos]
      ensures x in ToReturn(pages', chain, j, p)
    {
      ToReturnAt(pages, chain, j, p, x);
      ToReturnAt(pages', chain, j, p, x);
      var i :| j <= i < |chain| && x in pages[chain[i]].entries && Wanted(Carried(j, p, i), x);
      KeepsOthers(pages[chain[d]].entries, pos, x);
    }
  }

  lemma KeepsOthers(es: seq<Entry>, pos: nat, x: Entry)
    requires pos < |es| && x != es[pos]
    ensures x in es ==> x in RemoveAt(es, pos)
  {
    if x in es {
      var i :| 0 <= i < |es| && es[i] == x;
      assert RemoveAt(es, pos)[if i < pos then i else i - 1] == x;
    }
  }
}
