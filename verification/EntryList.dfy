/** The abstract value of an index: its entries as one list in key order. */
module EntryList {
  import opened KeyOrder
  import opened PageLayout

  /** Inserts after every entry whose key is at most the new one. */
  ghost function InsertSorted(s: seq<Entry>, e: Entry): seq<Entry> {
    if s == [] || Rank(e.key) < Rank(s[0].key) then [e] + s else [s[0]] + InsertSorted(s[1..], e)
  }

  ghost function RemoveFirst(s: seq<Entry>, e: Entry): seq<Entry> {
    if s == [] then []
    else if s[0] == e then s[1..]
    else [s[0]] + RemoveFirst(s[1..], e)
  }

  ghost predicate KeySorted(s: seq<Entry>) {
    forall i, j :: 0 <= i < j < |s| ==> Rank(s[i].key) <= Rank(s[j].key)
  }

  lemma {:induction false} InsertSortedAt(s: seq<Entry>, e: Entry, p: nat)
    requires p <= |s|
    requires forall i :: 0 <= i < p ==> Rank(s[i].key) <= Rank(e.key)
    requires p < |s| ==> Rank(e.key) < Rank(s[p].key)
    ensures InsertSorted(s, e) == s[..p] + [e] + s[p..]
  {
    hide Rank;
    if p > 0 {
      InsertSortedAt(s[1..], e, p - 1);
      assert s[..p] == [s[0]] + s[1..][..p-1] && s[1..][p-1..] == s[p..];
    }
  }

  lemma {:induction false} RemoveFirstAt(s: seq<Entry>, e: Entry, p: nat)
    requires p < |s| && s[p] == e && e !in s[..p]
    ensures RemoveFirst(s, e) == s[..p] + s[p+1..]
  {
    if p > 0 {
      assert s[0] in s[..p] && s[1..][..p-1] == s[..p][1..];
      RemoveFirstAt(s[1..], e, p - 1);
      assert s[..p] == [s[0]] + s[1..][..p-1] && s[1..][p..] == s[p+1..];
    }
  }

  /** Inserting adds exactly one entry. */
  lemma {:induction false} InsertSortedCounts(s: seq<Entry>, e: Entry)
    ensures multiset(InsertSorted(s, e)) == multiset(s) + multiset{e}
  {
    hide Rank;
    if s != [] && Rank(e.key) >= Rank(s[0].key) {
      InsertSortedCounts(s[1..], e);
      assert s == [s[0]] + s[1..];
    }
  }

  /** Inserting keeps the order. */
  lemma {:induction false} InsertSortedKeeps(s: seq<Entry>, e: Entry)
    requires KeySorted(s)
    ensures KeySorted(InsertSorted(s, e))
  {
    hide Rank;
    if s != [] && Rank(e.key) >= Rank(s[0].key) {
      InsertSortedKeeps(s[1..], e);
      InsertSortedCounts(s[1..], e);
      var r := InsertSorted(s[1..], e);
      forall i | 0 <= i < |r| ensures Rank(s[0].key) <= Rank(r[i].key) {
        assert r[i] in multiset(r);
        assert r[i] == e || r[i] in s[1..];
      }
    }
  }

  /** Removing takes away at most the one entry. */
  lemma {:induction false} RemoveFirstCounts(s: seq<Entry>, e: Entry)
    ensures multiset(RemoveFirst(s, e)) == multiset(s) - multiset{e}
  {
    if s != [] {
      assert s == [s[0]] + s[1..];
      RemoveFirstCounts(s[1..], e);
    }
  }

  lemma {:induction false} RemoveFirstSorted(s: seq<Entry>, e: Entry)
    requires KeySorted(s)
    ensures KeySorted(RemoveFirst(s, e))
  {
    hide Rank;
    if s != [] && s[0] != e {
      RemoveFirstSorted(s[1..], e);
      RemoveFirstCounts(s[1..], e);
      var r := RemoveFirst(s[1..], e);
      forall i | 0 <= i < |r| ensures Rank(s[0].key) <= Rank(r[i].key) {
        assert r[i] in multiset(r);
        assert r[i] in s[1..];
      }
    }
  }

  /** Deleting a freshly inserted entry gives the old entries back. */
  lemma {:induction false} RemoveUndoesInsert(s: seq<Entry>, e: Entry)
    requires e !in s
    ensures RemoveFirst(InsertSorted(s, e), e) == s
  {
    hide Rank;
    if s == [] || Rank(e.key) < Rank(s[0].key) {
      assert ([e] + s)[1..] == s;
    } else {
      RemoveUndoesInsert(s[1..], e);
      var r := [s[0]] + InsertSorted(s[1..], e);
      assert r[1..] == InsertSorted(s[1..], e);
    }
  }
}
