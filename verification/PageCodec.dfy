/** The bytes of a B+Tree page (src/btree_page.rs): a count, a link, a directory of offsets and key lengths,
    then every key followed by its fixed-size trailer. Leaf and internal pages differ in the trailer only. */
module PageCodec {
  import opened Options
  import opened PageIds
  import opened KeyOrder
  import opened KeyCodec
  import opened PageLayout

  type Bytes = seq<byte>

  // ---- Little-endian numbers

  function ToLe(u: nat, k: nat): (s: Bytes)
    ensures |s| == k
  {
    if k == 0 then [] else [(u % 256) as byte] + ToLe(u / 256, k - 1)
  }

  function FromLe(s: Bytes): (u: nat)
    ensures u < Pow256(|s|)
  {
    if s == [] then 0 else s[0] as nat + 256 * FromLe(s[1..])
  }

  lemma {:induction false} FromToLe(u: nat, k: nat)
    requires u < Pow256(k)
    ensures FromLe(ToLe(u, k)) == u
  {
    if k > 0 {
      FromToLe(u / 256, k - 1);
      assert ToLe(u, k)[1..] == ToLe(u / 256, k - 1);
    }
  }

  lemma {:induction false} ToFromLe(s: Bytes)
    ensures ToLe(FromLe(s), |s|) == s
  {
    if s != [] {
      ToFromLe(s[1..]);
      assert s == [s[0]] + s[1..];
    }
  }

  function ReadLe(p: Bytes, at: nat, k: nat): nat
    requires at + k <= |p|
  {
    FromLe(p[at..at+k])
  }

  // ---- The bytes of numbers

  /** The number at `at` is `u`: `k` bytes, each the digit of its power of 256, the least significant first. */
  ghost predicate NumberAt(p: Bytes, at: nat, k: nat, u: nat) {
    && at + k <= |p| && u < Pow256(k)
    && forall i :: 0 <= i < k ==> p[at+i] as int == ByteOf(u, i)
  }

  lemma {:induction false} ToLeDigits(u: nat, k: nat, i: nat)
    requires i < k
    ensures ToLe(u, k)[i] as int == ByteOf(u, i)
  {
    if i > 0 {
      ToLeDigits(u / 256, k - 1, i - 1);
      DigitsShift(u, i - 1);
    }
  }

  lemma {:induction false} FromLeDigits(s: Bytes, i: nat)
    requires i < |s|
    ensures s[i] as int == ByteOf(FromLe(s), i)
  {
    ToFromLe(s);
    ToLeDigits(FromLe(s), |s|, i);
  }

  /** The digits determine the number. */
  lemma {:induction false} SameDigits(s: Bytes, u: nat)
    requires u < Pow256(|s|)
    requires forall i :: 0 <= i < |s| ==> s[i] as int == ByteOf(u, i)
    ensures FromLe(s) == u
  {
    assert ToLe(u, |s|) == s by {
      forall i | 0 <= i < |s| ensures ToLe(u, |s|)[i] == s[i] {
        ToLeDigits(u, |s|, i);
      }
    }
    FromToLe(u, |s|);
  }

  /** Reading a number gives the one that stands there. */
  lemma ReadsNumber(p: Bytes, at: nat, k: nat, u: nat)
    requires at + k <= |p|
    ensures NumberAt(p, at, k, u) <==> ReadLe(p, at, k) == u
  {
    hide FromLe, Pow256;
    var s := p[at..at+k];
    assert forall i :: 0 <= i < k ==> s[i] == p[at+i];
    forall i | 0 <= i < k ensures s[i] as int == ByteOf(FromLe(s), i) {
      FromLeDigits(s, i);
    }
    if NumberAt(p, at, k, u) {
      SameDigits(s, u);
    }
  }

  // ---- Layout

  datatype Rec = Rec(key: Key, trailer: Bytes)

  function DataLen(recs: seq<Rec>): nat {
    if recs == [] then 0
    else DataLen(recs[..|recs|-1]) + |recs[|recs|-1].key| + |recs[|recs|-1].trailer|
  }

  /** Where entry `k` of these records begins. Offset `|recs|` is the end of the used bytes. */
  function Offset(recs: seq<Rec>, k: nat): nat
    requires k <= |recs|
  {
    HEADER + DIR_ENTRY * |recs| + DataLen(recs[..k])
  }

  lemma OffsetNext(recs: seq<Rec>, k: nat)
    requires k < |recs|
    ensures Offset(recs, k + 1) == Offset(recs, k) + |recs[k].key| + |recs[k].trailer|
    ensures Offset(recs, 0) == HEADER + DIR_ENTRY * |recs|
  {
    assert recs[..k+1][..k] == recs[..k];
  }

  lemma {:induction false} OffsetGrows(recs: seq<Rec>, j: nat, k: nat)
    requires j <= k <= |recs|
    ensures HEADER + DIR_ENTRY * |recs| <= Offset(recs, j) <= Offset(recs, k)
    decreases k - j
  {
    if j < k {
      OffsetNext(recs, j);
      OffsetGrows(recs, j + 1, k);
    }
  }

  /** Entry `k` stands where the directory says, and nowhere else. */
  ghost predicate EntryLaid(p: Bytes, recs: seq<Rec>, k: nat)
    requires k < |recs|
  {
    var at, key, trailer := Offset(recs, k), recs[k].key, recs[k].trailer;
    && at + |key| + |trailer| <= |p| && HEADER + DIR_ENTRY * (k + 1) <= |p|
    && ReadLe(p, HEADER + DIR_ENTRY * k, 2) == at
    && ReadLe(p, HEADER + DIR_ENTRY * k + 2, 2) == |key|
    && p[at..at+|key|] == key
    && p[at+|key|..at+|key|+|trailer|] == trailer
  }

  ghost predicate HeaderLaid(p: Bytes, count: nat, link: nat) {
    |p| >= HEADER && ReadLe(p, 0, 2) == count && ReadLe(p, 2, 8) == link
  }

  /** The bytes hold exactly these records and this link. */
  ghost predicate Lays(p: Bytes, link: nat, recs: seq<Rec>) {
    && HeaderLaid(p, |recs|, link)
    && Offset(recs, |recs|) <= |p|
    && forall k :: 0 <= k < |recs| ==> EntryLaid(p, recs, k)
  }

  /** The same by single bytes: the number of records, the link, a directory of offsets and key lengths, and behind it
      every key with its trailer. */
  ghost predicate InBytes(p: Bytes, link: nat, recs: seq<Rec>) {
    && NumberAt(p, 0, 2, |recs|) && NumberAt(p, 2, 8, link) && 10 + 4 * |recs| + DataLen(recs) <= |p|
    && forall k :: 0 <= k < |recs| ==> RecInBytes(p, recs, k)
  }

  ghost predicate RecInBytes(p: Bytes, recs: seq<Rec>, k: nat)
    requires k < |recs|
  {
    var at, key, trailer := 10 + 4 * |recs| + DataLen(recs[..k]), recs[k].key, recs[k].trailer;
    && NumberAt(p, 10 + 4 * k, 2, at) && NumberAt(p, 12 + 4 * k, 2, |key|)
    && at + |key| + |trailer| <= |p|
    && p[at..at+|key|] == key
    && p[at+|key|..at+|key|+|trailer|] == trailer
  }

  lemma LaidInBytes(p: Bytes, recs: seq<Rec>, k: nat)
    requires k < |recs|
    ensures EntryLaid(p, recs, k) <==> RecInBytes(p, recs, k)
  {
    hide FromLe, DataLen, NumberAt;
    var at, key, trailer := Offset(recs, k), recs[k].key, recs[k].trailer;
    if at + |key| + |trailer| <= |p| && 14 + 4 * k <= |p| {
      ReadsNumber(p, 10 + 4 * k, 2, at);
      ReadsNumber(p, 12 + 4 * k, 2, |key|);
    } else {
      NumberWithin(p, 12 + 4 * k, 2, |key|);
    }
  }

  lemma NumberWithin(p: Bytes, at: nat, k: nat, u: nat)
    ensures NumberAt(p, at, k, u) ==> at + k <= |p|
  {
  }

  /** The layout is the one described by its bytes. */
  lemma LaysInBytes(p: Bytes, link: nat, recs: seq<Rec>)
    ensures Lays(p, link, recs) <==> InBytes(p, link, recs)
  {
    hide FromLe, DataLen, NumberAt, EntryLaid, RecInBytes;
    NumberWithin(p, 2, 8, link);
    if |p| >= 10 {
      ReadsNumber(p, 0, 2, |recs|);
      ReadsNumber(p, 2, 8, link);
    }
    assert recs[..|recs|] == recs;
    forall k | 0 <= k < |recs| ensures EntryLaid(p, recs, k) <==> RecInBytes(p, recs, k) {
      LaidInBytes(p, recs, k);
    }
  }

  ghost predicate Trailers(recs: seq<Rec>, trailer: nat) {
    forall k :: 0 <= k < |recs| ==> |recs[k].trailer| == trailer
  }

  ghost predicate InKeyOrder(recs: seq<Rec>) {
    forall i, j :: 0 <= i < j < |recs| ==> Rank(recs[i].key) <= Rank(recs[j].key)
  }

  // ---- One layout per content, one content per layout

  lemma SameNumber(p: Bytes, q: Bytes, at: nat, k: nat)
    requires at + k <= |p| && at + k <= |q| && ReadLe(p, at, k) == ReadLe(q, at, k)
    ensures p[at..at+k] == q[at..at+k]
  {
    ToFromLe(p[at..at+k]);
    ToFromLe(q[at..at+k]);
  }

  lemma PrefixGrows(p: Bytes, q: Bytes, a: nat, b: nat)
    requires a <= b <= |p| && b <= |q| && p[..a] == q[..a] && p[a..b] == q[a..b]
    ensures p[..b] == q[..b]
  {
    assert p[..b] == p[..a] + p[a..b] && q[..b] == q[..a] + q[a..b];
  }

  lemma {:induction false} SameDirectory(p: Bytes, q: Bytes, link: nat, recs: seq<Rec>, k: nat)
    requires Lays(p, link, recs) && Lays(q, link, recs) && k <= |recs|
    ensures HEADER + DIR_ENTRY * k <= |p| && HEADER + DIR_ENTRY * k <= |q|
    ensures p[..HEADER + DIR_ENTRY * k] == q[..HEADER + DIR_ENTRY * k]
    decreases k
  {
    hide FromLe, Offset;
    if k == 0 {
      SameNumber(p, q, 0, 2);
      SameNumber(p, q, 2, 8);
      PrefixGrows(p, q, 0, 2);
      PrefixGrows(p, q, 2, 10);
    } else {
      SameDirectory(p, q, link, recs, k - 1);
      var at := HEADER + DIR_ENTRY * (k - 1);
      assert EntryLaid(p, recs, k - 1) && EntryLaid(q, recs, k - 1);
      SameNumber(p, q, at, 2);
      SameNumber(p, q, at + 2, 2);
      PrefixGrows(p, q, at, at + 2);
      PrefixGrows(p, q, at + 2, at + 4);
    }
  }

  lemma {:induction false} SameData(p: Bytes, q: Bytes, link: nat, recs: seq<Rec>, k: nat)
    requires Lays(p, link, recs) && Lays(q, link, recs) && k <= |recs|
    ensures Offset(recs, k) <= |p| && Offset(recs, k) <= |q| && p[..Offset(recs, k)] == q[..Offset(recs, k)]
    decreases k
  {
    hide FromLe, Offset;
    OffsetGrows(recs, k, |recs|);
    if k == 0 {
      SameDirectory(p, q, link, recs, |recs|);
      FirstOffset(recs);
    } else {
      SameData(p, q, link, recs, k - 1);
      OffsetNext(recs, k - 1);
      var at, n := Offset(recs, k - 1), |recs[k-1].key|;
      assert EntryLaid(p, recs, k - 1) && EntryLaid(q, recs, k - 1);
      PrefixGrows(p, q, at, at + n);
      PrefixGrows(p, q, at + n, Offset(recs, k));
    }
  }

  lemma FirstOffset(recs: seq<Rec>)
    ensures Offset(recs, 0) == HEADER + DIR_ENTRY * |recs|
  {
  }

  /** There is one way to lay out given records: the used bytes agree byte for byte. */
  lemma Canonical(p: Bytes, q: Bytes, link: nat, recs: seq<Rec>)
    requires Lays(p, link, recs) && Lays(q, link, recs)
    ensures p[..Offset(recs, |recs|)] == q[..Offset(recs, |recs|)]
  {
    hide Lays, Offset;
    SameData(p, q, link, recs, |recs|);
  }

  /** Bytes hold at most one list of records. */
  lemma {:induction false} DecodesOneWay(p: Bytes, link: nat, link': nat, a: seq<Rec>, b: seq<Rec>, trailer: nat,
                                         k: nat)
    requires Lays(p, link, a) && Lays(p, link', b) && Trailers(a, trailer) && Trailers(b, trailer) && k <= |a|
    ensures link == link' && |a| == |b| && a[..k] == b[..k] && (k == |a| ==> a == b)
    decreases k
  {
    hide FromLe, Offset;
    if k > 0 {
      DecodesOneWay(p, link, link', a, b, trailer, k - 1);
      assert EntryLaid(p, a, k - 1) && EntryLaid(p, b, k - 1);
      assert a[k-1] == b[k-1];
      assert a[..k] == a[..k-1] + [a[k-1]] && b[..k] == b[..k-1] + [b[k-1]];
    }
    assert a[..|a|] == a && b[..|b|] == b;
  }

  // ---- Writing

  function Overwrite(p: Bytes, at: nat, bytes: Bytes): (q: Bytes)
    requires at + |bytes| <= |p|
    ensures |q| == |p|
  {
    p[..at] + bytes + p[at+|bytes|..]
  }

  lemma OverwriteAt(p: Bytes, at: nat, bytes: Bytes)
    requires at + |bytes| <= |p|
    ensures Overwrite(p, at, bytes)[at..at+|bytes|] == bytes
    ensures forall a, b :: 0 <= a <= b <= |p| && (b <= at || at + |bytes| <= a) ==>
      Overwrite(p, at, bytes)[a..b] == p[a..b]
  {
  }

  /** `copy_from_slice` into part of a buffer. */
  method CopyInto(payload: array<byte>, at: nat, bytes: Bytes)
    requires at + |bytes| <= payload.Length
    modifies payload
    ensures payload[..] == Overwrite(old(payload[..]), at, bytes)
  {
    var i := 0;
    while i < |bytes|
      invariant i <= |bytes|
      invariant payload[..] == Overwrite(old(payload[..]), at, bytes[..i])
    {
      payload[at+i] := bytes[i];
      i := i + 1;
    }
    assert bytes[..|bytes|] == bytes;
  }

  method Fill(payload: array<byte>)
    modifies payload
    ensures forall i :: 0 <= i < payload.Length ==> payload[i] == 0
  {
    var i := 0;
    while i < payload.Length
      invariant i <= payload.Length && forall k :: 0 <= k < i ==> payload[k] == 0
    {
      payload[i] := 0;
      i := i + 1;
    }
  }

  /** `required_len` */
  method RequiredLen(recs: seq<Rec>) returns (total: nat)
    ensures total == Offset(recs, |recs|)
  {
    total := HEADER;
    var i := 0;
    while i < |recs|
      invariant i <= |recs| && total == HEADER + DIR_ENTRY * i + DataLen(recs[..i])
    {
      assert recs[..i+1][..i] == recs[..i];
      total := total + DIR_ENTRY + |recs[i].key| + |recs[i].trailer|;
      i := i + 1;
    }
    assert recs[..|recs|] == recs;
  }

  /** `q` differs from `p` at most where entry `i` goes. */
  ghost predicate OnlyEntry(p: Bytes, q: Bytes, recs: seq<Rec>, i: nat)
    requires i < |recs|
  {
    && |q| == |p| && Offset(recs, i + 1) <= |p|
    && forall a, b ::
         && 0 <= a <= b <= |p|
         && (|| b <= HEADER + DIR_ENTRY * i
             || (HEADER + DIR_ENTRY * (i + 1) <= a && b <= Offset(recs, i))
             || Offset(recs, i + 1) <= a) ==>
         q[a..b] == p[a..b]
  }

  lemma OtherEntryKept(p: Bytes, q: Bytes, recs: seq<Rec>, k: nat, i: nat)
    requires k < i < |recs| && OnlyEntry(p, q, recs, i) && EntryLaid(p, recs, k)
    ensures EntryLaid(q, recs, k)
  {
    hide FromLe, Offset;
    OffsetGrows(recs, 0, k);
    OffsetNext(recs, k);
    OffsetGrows(recs, k + 1, i);
    FirstOffset(recs);
  }

  lemma HeaderKept(p: Bytes, q: Bytes, recs: seq<Rec>, i: nat, count: nat, link: nat)
    requires i < |recs| && OnlyEntry(p, q, recs, i) && HeaderLaid(p, count, link)
    ensures HeaderLaid(q, count, link)
  {
    hide FromLe, Offset;
  }

  ghost function EntryWritten(p: Bytes, recs: seq<Rec>, i: nat): Bytes
    requires i < |recs| && Offset(recs, i + 1) <= |p| && HEADER + DIR_ENTRY * |recs| <= |p|
  {
    OffsetNext(recs, i);
    var at, base := Offset(recs, i), HEADER + DIR_ENTRY * i;
    var p1 := Overwrite(p, base, ToLe(at, 2));
    var p2 := Overwrite(p1, base + 2, ToLe(|recs[i].key|, 2));
    var p3 := Overwrite(p2, at, recs[i].key);
    Overwrite(p3, at + |recs[i].key|, recs[i].trailer)
  }

  lemma EntryIsLaid(p: Bytes, recs: seq<Rec>, i: nat)
    requires i < |recs| && Offset(recs, i + 1) <= |p| <= 0xFFFF && HEADER + DIR_ENTRY * |recs| <= |p|
    ensures EntryLaid(EntryWritten(p, recs, i), recs, i) && OnlyEntry(p, EntryWritten(p, recs, i), recs, i)
  {
    hide FromLe, ToLe, Offset, Overwrite;
    OffsetNext(recs, i);
    OffsetGrows(recs, 0, i);
    FirstOffset(recs);
    var at, base, n := Offset(recs, i), HEADER + DIR_ENTRY * i, |recs[i].key|;
    TwoBytes();
    FromToLe(at, 2);
    FromToLe(n, 2);
    var p1 := Overwrite(p, base, ToLe(at, 2));
    var p2 := Overwrite(p1, base + 2, ToLe(n, 2));
    var p3 := Overwrite(p2, at, recs[i].key);
    OverwriteAt(p, base, ToLe(at, 2));
    OverwriteAt(p1, base + 2, ToLe(n, 2));
    OverwriteAt(p2, at, recs[i].key);
    OverwriteAt(p3, at + n, recs[i].trailer);
  }

  lemma TwoBytes()
    ensures Pow256(2) == 0x1_0000
  {
    assert Pow256(1) == 256;
  }

  /** `write_entries`: replaces the whole contents in place, or changes nothing if they do not fit. */
  method WriteEntries(payload: array<byte>, link: nat, recs: seq<Rec>) returns (ok: bool)
    requires payload.Length <= 0xFFFF && link < Pow256(8)
    modifies payload
    ensures ok <==> Offset(recs, |recs|) <= payload.Length
    ensures !ok ==> payload[..] == old(payload[..])
    ensures ok ==> InBytes(payload[..], link, recs) && Lays(payload[..], link, recs)
    ensures ok ==> forall b :: Offset(recs, |recs|) <= b < payload.Length ==> payload[b] == 0
  {
    hide FromLe, ToLe, Offset, Overwrite, EntryLaid, HeaderLaid, OnlyEntry, InBytes;
    var needed := RequiredLen(recs);
    if needed > payload.Length {
      return false;
    }
    FirstOffset(recs);
    OffsetGrows(recs, 0, |recs|);
    Fill(payload);
    WriteHeader(payload, |recs|, link);
    var cursor := HEADER + DIR_ENTRY * |recs|;
    var i := 0;
    while i < |recs|
      invariant i <= |recs| && cursor == Offset(recs, i)
      invariant HeaderLaid(payload[..], |recs|, link)
      invariant forall k :: 0 <= k < i ==> EntryLaid(payload[..], recs, k)
      invariant forall b :: Offset(recs, |recs|) <= b < payload.Length ==> payload[b] == 0
    {
      ghost var p := payload[..];
      var dirBase := HEADER + DIR_ENTRY * i;
      OffsetNext(recs, i);
      OffsetGrows(recs, 0, i);
      OffsetGrows(recs, i + 1, |recs|);
      CopyInto(payload, dirBase, ToLe(cursor, 2));
      CopyInto(payload, dirBase + 2, ToLe(|recs[i].key|, 2));
      CopyInto(payload, cursor, recs[i].key);
      cursor := cursor + |recs[i].key|;
      CopyInto(payload, cursor, recs[i].trailer);
      cursor := cursor + |recs[i].trailer|;
      EntryIsLaid(p, recs, i);
      Written(p, payload[..], recs, i, |recs|, link);
      i := i + 1;
    }
    LaysInBytes(payload[..], link, recs);
    ok := true;
  }

  method WriteHeader(payload: array<byte>, count: nat, link: nat)
    requires payload.Length >= HEADER && count <= 0xFFFF && link < Pow256(8)
    modifies payload
    ensures HeaderLaid(payload[..], count, link)
    ensures forall b :: HEADER <= b < payload.Length ==> payload[b] == old(payload[b])
  {
    hide FromLe, ToLe;
    CopyInto(payload, 0, ToLe(count, 2));
    ghost var p := payload[..];
    CopyInto(payload, 2, ToLe(link, 8));
    TwoBytes();
    FromToLe(count, 2);
    FromToLe(link, 8);
    OverwriteAt(p, 2, ToLe(link, 8));
  }

  /** What one turn of the loop keeps. */
  lemma Written(p: Bytes, q: Bytes, recs: seq<Rec>, i: nat, count: nat, link: nat)
    requires i < |recs| && Offset(recs, |recs|) <= |p| <= 0xFFFF && Offset(recs, i + 1) <= |p|
    requires HEADER + DIR_ENTRY * |recs| <= |p|
    requires q == EntryWritten(p, recs, i) && EntryLaid(q, recs, i) && OnlyEntry(p, q, recs, i)
    requires HeaderLaid(p, count, link) && forall k :: 0 <= k < i ==> EntryLaid(p, recs, k)
    requires forall b :: Offset(recs, |recs|) <= b < |p| ==> p[b] == 0
    ensures |q| == |p| && HeaderLaid(q, count, link) && forall k :: 0 <= k <= i ==> EntryLaid(q, recs, k)
    ensures forall b :: Offset(recs, |recs|) <= b < |q| ==> q[b] == 0
  {
    hide FromLe, ToLe, Offset, Overwrite, EntryLaid, HeaderLaid, EntryWritten;
    HeaderKept(p, q, recs, i, count, link);
    forall k | 0 <= k < i ensures EntryLaid(q, recs, k) {
      OtherEntryKept(p, q, recs, k, i);
    }
    OffsetGrows(recs, i + 1, |recs|);
    forall b | Offset(recs, |recs|) <= b < |q| ensures q[b] == 0 {
      assert q[b] == q[b..b+1][0] && p[b] == p[b..b+1][0];
    }
  }

  // ---- Reading

  /** What the bytes must be to be accepted: some records in key order, laid out the one way there is. */
  ghost predicate Accepted(p: Bytes, trailer: nat, link: nat, recs: seq<Rec>) {
    Lays(p, link, recs) && Trailers(recs, trailer) && InKeyOrder(recs)
  }

  /** Entry `k` read through its directory slot. */
  function RecAt(p: Bytes, trailer: nat, k: nat): Rec
    requires HEADER + DIR_ENTRY * (k + 1) <= |p|
    requires ReadLe(p, HEADER + DIR_ENTRY * k, 2) + ReadLe(p, HEADER + DIR_ENTRY * k + 2, 2) + trailer <= |p|
  {
    var at, n := ReadLe(p, HEADER + DIR_ENTRY * k, 2), ReadLe(p, HEADER + DIR_ENTRY * k + 2, 2);
    Rec(p[at..at+n], p[at+n..at+n+trailer])
  }

  /** The first `|recs|` entries of a page that claims `n`, checked one after the other. */
  ghost predicate CheckedSoFar(p: Bytes, trailer: nat, n: nat, recs: seq<Rec>, cursor: nat) {
    && |recs| <= n && HEADER + DIR_ENTRY * n <= |p| && Trailers(recs, trailer) && InKeyOrder(recs)
    && cursor == HEADER + DIR_ENTRY * n + DataLen(recs) <= |p|
    && forall k :: 0 <= k < |recs| ==> EntryChecked(p, trailer, n, recs, k)
  }

  ghost predicate EntryChecked(p: Bytes, trailer: nat, n: nat, recs: seq<Rec>, k: nat)
    requires k < |recs|
  {
    && HEADER + DIR_ENTRY * (k + 1) <= |p|
    && ReadLe(p, HEADER + DIR_ENTRY * k, 2) == HEADER + DIR_ENTRY * n + DataLen(recs[..k])
    && ReadLe(p, HEADER + DIR_ENTRY * k, 2) + ReadLe(p, HEADER + DIR_ENTRY * k + 2, 2) + trailer <= |p|
    && recs[k] == RecAt(p, trailer, k)
  }

  /** An accepted page passes every check on the way. */
  lemma AcceptedChecks(p: Bytes, trailer: nat, link: nat, all: seq<Rec>, k: nat)
    requires Accepted(p, trailer, link, all) && k < |all|
    ensures HEADER + DIR_ENTRY * (k + 1) <= |p|
    ensures ReadLe(p, HEADER + DIR_ENTRY * k, 2) == Offset(all, k)
    ensures ReadLe(p, HEADER + DIR_ENTRY * k + 2, 2) == |all[k].key| && |all[k].trailer| == trailer
    ensures Offset(all, k) + |all[k].key| + trailer <= |p| && all[k] == RecAt(p, trailer, k)
  {
    hide FromLe, Offset, InKeyOrder;
    assert EntryLaid(p, all, k);
  }

  lemma OneMore(p: Bytes, trailer: nat, n: nat, recs: seq<Rec>, cursor: nat)
    requires CheckedSoFar(p, trailer, n, recs, cursor) && |recs| < n
    requires ReadLe(p, HEADER + DIR_ENTRY * |recs|, 2) == cursor
    requires cursor + ReadLe(p, HEADER + DIR_ENTRY * |recs| + 2, 2) + trailer <= |p|
    requires recs != [] ==> Rank(recs[|recs|-1].key) <= Rank(RecAt(p, trailer, |recs|).key)
    ensures CheckedSoFar(p, trailer, n, recs + [RecAt(p, trailer, |recs|)],
                         cursor + ReadLe(p, HEADER + DIR_ENTRY * |recs| + 2, 2) + trailer)
  {
    hide FromLe, Rank, EntryChecked;
    var r := RecAt(p, trailer, |recs|);
    var recs' := recs + [r];
    assert recs'[..|recs'|-1] == recs;
    forall k | 0 <= k < |recs'| ensures EntryChecked(p, trailer, n, recs', k) {
      if k < |recs| {
        assert EntryChecked(p, trailer, n, recs, k);
        StillChecked(p, trailer, n, recs, r, k);
      } else {
        LastChecked(p, trailer, n, recs, cursor);
      }
    }
  }

  lemma StillChecked(p: Bytes, trailer: nat, n: nat, recs: seq<Rec>, r: Rec, k: nat)
    requires k < |recs| && EntryChecked(p, trailer, n, recs, k)
    ensures EntryChecked(p, trailer, n, recs + [r], k)
  {
    hide FromLe;
    assert (recs + [r])[..k] == recs[..k];
  }

  lemma LastChecked(p: Bytes, trailer: nat, n: nat, recs: seq<Rec>, cursor: nat)
    requires CheckedSoFar(p, trailer, n, recs, cursor) && |recs| < n
    requires ReadLe(p, HEADER + DIR_ENTRY * |recs|, 2) == cursor
    requires cursor + ReadLe(p, HEADER + DIR_ENTRY * |recs| + 2, 2) + trailer <= |p|
    ensures EntryChecked(p, trailer, n, recs + [RecAt(p, trailer, |recs|)], |recs|)
  {
    hide FromLe, Rank;
    var recs' := recs + [RecAt(p, trailer, |recs|)];
    assert recs'[..|recs|] == recs;
  }

  /** Everything checked: the page is laid out. */
  lemma AllChecked(p: Bytes, trailer: nat, n: nat, recs: seq<Rec>, cursor: nat)
    requires CheckedSoFar(p, trailer, n, recs, cursor) && |recs| == n == ReadLe(p, 0, 2)
    ensures Accepted(p, trailer, ReadLe(p, 2, 8), recs)
  {
    hide FromLe, Rank;
    assert recs[..|recs|] == recs;
    forall k | 0 <= k < |recs| ensures EntryLaid(p, recs, k) {
      assert EntryChecked(p, trailer, n, recs, k);
    }
  }

  /** The records already checked are those of any reading the page has. */
  lemma {:induction false} PrefixOf(p: Bytes, trailer: nat, n: nat, recs: seq<Rec>, cursor: nat, link: nat,
                                    all: seq<Rec>)
    requires CheckedSoFar(p, trailer, n, recs, cursor) && Accepted(p, trailer, link, all) && |all| == n
    ensures recs == all[..|recs|] && cursor == Offset(all, |recs|)
  {
    hide FromLe, Rank, Offset;
    forall k | 0 <= k < |recs| ensures recs[k] == all[k] {
      assert EntryChecked(p, trailer, n, recs, k);
      AcceptedChecks(p, trailer, link, all, k);
    }
    assert recs == all[..|recs|];
    OffsetOfPrefix(all, |recs|);
  }

  lemma OffsetOfPrefix(all: seq<Rec>, k: nat)
    requires k <= |all|
    ensures Offset(all, k) == HEADER + DIR_ENTRY * |all| + DataLen(all[..k])
  {
  }

  /** `validate`, together with the entries it passes over: succeeds exactly on the bytes that hold
      records in key order, and returns these records. */
  method Validate(payload: array<byte>, trailer: nat) returns (r: Option<seq<Rec>>)
    ensures r.Some? ==> payload.Length >= HEADER && Accepted(payload[..], trailer, ReadLe(payload[..], 2, 8), r.value)
    ensures r.None? ==> forall link, recs :: !Accepted(payload[..], trailer, link, recs)
    ensures forall link, recs :: Accepted(payload[..], trailer, link, recs) <==>
      InBytes(payload[..], link, recs) && Trailers(recs, trailer) && InKeyOrder(recs)
  {
    hide FromLe, Rank, Accepted, CheckedSoFar, Less, RecAt, InBytes, Trailers, InKeyOrder;
    ghost var p := payload[..];
    AcceptedBytes(p, trailer);
    if payload.Length < HEADER {
      TooShort(p, trailer);
      return None;
    }
    var entryCount := ReadNumber(payload, 0, 2);
    var dirEnd := HEADER + entryCount * DIR_ENTRY;
    if dirEnd > payload.Length {
      DirectoryTooLong(p, trailer);
      return None;
    }
    var cursor: nat := dirEnd;
    var recs: seq<Rec> := [];
    NothingChecked(p, trailer, entryCount);
    var i := 0;
    while i < entryCount
      invariant i == |recs| <= entryCount && CheckedSoFar(p, trailer, entryCount, recs, cursor)
    {
      Bounds(p, trailer, entryCount, recs, cursor);
      var keyOffset := ReadNumber(payload, HEADER + i * DIR_ENTRY, 2);
      var keyLen := ReadNumber(payload, HEADER + i * DIR_ENTRY + 2, 2);
      if keyOffset != cursor || keyOffset + keyLen > payload.Length || keyOffset + keyLen + trailer > payload.Length {
        Refuse(p, trailer, entryCount, recs, cursor);
        return None;
      }
      var rec := Rec(payload[keyOffset..keyOffset+keyLen], payload[keyOffset+keyLen..keyOffset+keyLen+trailer]);
      RecIs(p, trailer, i, keyOffset, keyLen);
      assert payload[keyOffset..keyOffset+keyLen] == p[keyOffset..keyOffset+keyLen];
      if recs != [] && Below(rec.key, recs[|recs|-1].key) {
        RefuseOrder(p, trailer, entryCount, recs, cursor, rec);
        return None;
      }
      OneMore(p, trailer, entryCount, recs, cursor);
      recs := recs + [rec];
      cursor := keyOffset + keyLen + trailer;
      i := i + 1;
    }
    AllChecked(p, trailer, entryCount, recs, cursor);
    r := Some(recs);
  }

  /** What is accepted, by single bytes. */
  lemma AcceptedBytes(p: Bytes, trailer: nat)
    ensures forall link, recs :: Accepted(p, trailer, link, recs) <==>
      InBytes(p, link, recs) && Trailers(recs, trailer) && InKeyOrder(recs)
  {
    hide InBytes, Lays, InKeyOrder;
    forall link, recs ensures Lays(p, link, recs) <==> InBytes(p, link, recs) {
      LaysInBytes(p, link, recs);
    }
  }

  lemma RecIs(p: Bytes, trailer: nat, k: nat, at: nat, n: nat)
    requires HEADER + DIR_ENTRY * (k + 1) <= |p| && at + n + trailer <= |p|
    requires ReadLe(p, HEADER + DIR_ENTRY * k, 2) == at && ReadLe(p, HEADER + DIR_ENTRY * k + 2, 2) == n
    ensures RecAt(p, trailer, k) == Rec(p[at..at+n], p[at+n..at+n+trailer])
  {
  }

  method ReadNumber(payload: array<byte>, at: nat, k: nat) returns (u: nat)
    requires at + k <= payload.Length
    ensures u == ReadLe(payload[..], at, k)
  {
    assert payload[..][at..at+k] == payload[at..at+k];
    u := FromLe(payload[at..at+k]);
  }

  lemma TooShort(p: Bytes, trailer: nat)
    requires |p| < HEADER
    ensures forall link, recs :: !Accepted(p, trailer, link, recs)
  {
    hide FromLe, Rank;
  }

  lemma DirectoryTooLong(p: Bytes, trailer: nat)
    requires |p| >= HEADER && HEADER + ReadLe(p, 0, 2) * DIR_ENTRY > |p|
    ensures forall link, recs :: !Accepted(p, trailer, link, recs)
  {
    hide FromLe, Rank, Offset;
    forall link, recs ensures !Accepted(p, trailer, link, recs) {
      if Accepted(p, trailer, link, recs) {
        OffsetGrows(recs, 0, |recs|);
        assert false;
      }
    }
  }

  lemma NothingChecked(p: Bytes, trailer: nat, n: nat)
    requires HEADER + DIR_ENTRY * n <= |p|
    ensures CheckedSoFar(p, trailer, n, [], HEADER + DIR_ENTRY * n)
  {
  }

  lemma Bounds(p: Bytes, trailer: nat, n: nat, recs: seq<Rec>, cursor: nat)
    requires CheckedSoFar(p, trailer, n, recs, cursor)
    ensures |recs| <= n && HEADER + DIR_ENTRY * n <= |p| && cursor <= |p|
  {
  }

  lemma Refuse(p: Bytes, trailer: nat, n: nat, recs: seq<Rec>, cursor: nat)
    requires CheckedSoFar(p, trailer, n, recs, cursor) && |recs| < n == ReadLe(p, 0, 2)
    requires var at := ReadLe(p, HEADER + DIR_ENTRY * |recs|, 2);
      at != cursor || at + ReadLe(p, HEADER + DIR_ENTRY * |recs| + 2, 2) + trailer > |p|
    ensures forall link, all :: !Accepted(p, trailer, link, all)
  {
    hide FromLe, Rank, Offset, CheckedSoFar;
    forall link, all ensures !Accepted(p, trailer, link, all) {
      if Accepted(p, trailer, link, all) {
        PrefixOf(p, trailer, n, recs, cursor, link, all);
        AcceptedChecks(p, trailer, link, all, |recs|);
        assert false;
      }
    }
  }

  lemma NextInOrder(p: Bytes, trailer: nat, n: nat, recs: seq<Rec>, cursor: nat, link: nat, all: seq<Rec>)
    requires CheckedSoFar(p, trailer, n, recs, cursor) && 0 < |recs| < n == |all|
    requires ReadLe(p, HEADER + DIR_ENTRY * |recs|, 2) + ReadLe(p, HEADER + DIR_ENTRY * |recs| + 2, 2) + trailer <= |p|
    requires Accepted(p, trailer, link, all)
    ensures Rank(recs[|recs|-1].key) <= Rank(RecAt(p, trailer, |recs|).key)
  {
    hide FromLe, Rank, Offset, CheckedSoFar;
    PrefixOf(p, trailer, n, recs, cursor, link, all);
    AcceptedChecks(p, trailer, link, all, |recs|);
    assert recs[|recs|-1] == all[|recs|-1];
  }

  lemma RefuseOrder(p: Bytes, trailer: nat, n: nat, recs: seq<Rec>, cursor: nat, rec: Rec)
    requires CheckedSoFar(p, trailer, n, recs, cursor) && 0 < |recs| < n == ReadLe(p, 0, 2)
    requires ReadLe(p, HEADER + DIR_ENTRY * |recs|, 2) + ReadLe(p, HEADER + DIR_ENTRY * |recs| + 2, 2) + trailer <= |p|
    requires rec == RecAt(p, trailer, |recs|) && Rank(rec.key) < Rank(recs[|recs|-1].key)
    ensures forall link, all :: !Accepted(p, trailer, link, all)
  {
    hide FromLe, Rank, Offset, CheckedSoFar, RecAt;
    forall link, all ensures !Accepted(p, trailer, link, all) {
      if Accepted(p, trailer, link, all) {
        NextInOrder(p, trailer, n, recs, cursor, link, all);
        assert false;
      }
    }
  }

  // ---- Leaf and internal pages

  /** Numbers that fit the fields they are stored in. */
  predicate Storable(es: seq<Entry>) {
    forall i :: 0 <= i < |es| ==> es[i].rid.page < Pow256(8) && es[i].rid.slot < Pow256(2)
  }

  predicate StorableSeps(seps: seq<Separator>) {
    forall i :: 0 <= i < |seps| ==> seps[i].child < Pow256(8)
  }

  function LeafRec(e: Entry): Rec {
    Rec(e.key, ToLe(e.rid.page, 8) + ToLe(e.rid.slot, 2))
  }

  function InternalRec(s: Separator): Rec {
    Rec(s.key, ToLe(s.child, 8))
  }

  function LeafRecs(es: seq<Entry>): (recs: seq<Rec>)
    ensures |recs| == |es| && forall i :: 0 <= i < |es| ==> recs[i] == LeafRec(es[i])
  {
    seq(|es|, i requires 0 <= i < |es| => LeafRec(es[i]))
  }

  function InternalRecs(seps: seq<Separator>): (recs: seq<Rec>)
    ensures |recs| == |seps| && forall i :: 0 <= i < |seps| ==> recs[i] == InternalRec(seps[i])
  {
    seq(|seps|, i requires 0 <= i < |seps| => InternalRec(seps[i]))
  }

  /** The node that the bytes hold: its keys are in order, and every number and every key byte is in its place. */
  ghost predicate HoldsNode(p: Bytes, node: Node) {
    match node
    case Leaf(es, next) =>
      && NumberAt(p, 0, 2, |es|) && NumberAt(p, 2, 8, next) && LeafFits(es, |p|)
      && (forall k :: 0 <= k < |es| ==> HoldsEntry(p, es, k))
      && forall i, j :: 0 <= i < j < |es| ==> Rank(es[i].key) <= Rank(es[j].key)
    case Internal(leftmost, seps) =>
      && NumberAt(p, 0, 2, |seps|) && NumberAt(p, 2, 8, leftmost) && InternalFits(seps, |p|)
      && (forall k :: 0 <= k < |seps| ==> HoldsSeparator(p, seps, k))
      && forall i, j :: 0 <= i < j < |seps| ==> Rank(seps[i].key) <= Rank(seps[j].key)
  }

  /** Key `k` of a page: its offset and its length in the directory, and its bytes. */
  ghost predicate HoldsKey(p: Bytes, keys: seq<Key>, k: nat, trailer: nat)
    requires k < |keys|
  {
    var at := 10 + 4 * (|keys| - k) + Need(keys[..k], trailer);
    && NumberAt(p, 10 + 4 * k, 2, at) && NumberAt(p, 12 + 4 * k, 2, |keys[k]|)
    && at + |keys[k]| + trailer <= |p| && p[at..at+|keys[k]|] == keys[k]
  }

  /** Where the trailer of key `k` begins. */
  function TrailerAt(keys: seq<Key>, k: nat, trailer: nat): nat
    requires k < |keys|
  {
    10 + 4 * (|keys| - k) + Need(keys[..k], trailer) + |keys[k]|
  }

  ghost predicate HoldsEntry(p: Bytes, es: seq<Entry>, k: nat)
    requires k < |es|
  {
    var keys := EntryKeys(es);
    && HoldsKey(p, keys, k, 10)
    && NumberAt(p, TrailerAt(keys, k, 10), 8, es[k].rid.page)
    && NumberAt(p, TrailerAt(keys, k, 10) + 8, 2, es[k].rid.slot)
  }

  ghost predicate HoldsSeparator(p: Bytes, seps: seq<Separator>, k: nat)
    requires k < |seps|
  {
    HoldsKey(p, SepKeys(seps), k, 8) && NumberAt(p, TrailerAt(SepKeys(seps), k, 8), 8, seps[k].child)
  }

  /** The same in terms of records. */
  ghost predicate HoldsRecs(p: Bytes, node: Node) {
    match node
    case Leaf(es, next) => next < Pow256(8) && Storable(es) && Accepted(p, RECORD_ID, next, LeafRecs(es))
    case Internal(leftmost, seps) =>
      leftmost < Pow256(8) && StorableSeps(seps) && Accepted(p, CHILD_ID, leftmost, InternalRecs(seps))
  }

  /** Where record `k` begins, by the sizes that the split code adds up. */
  lemma StartOfRec(recs: seq<Rec>, keys: seq<Key>, trailer: nat, k: nat)
    requires |keys| == |recs| && Trailers(recs, trailer) && forall i :: 0 <= i < |recs| ==> keys[i] == recs[i].key
    requires k <= |recs|
    ensures DataLen(recs[..k]) + 4 * k == Need(keys[..k], trailer)
  {
    hide Need, DataLen;
    SizeIsOffset(recs[..k], keys[..k], trailer);
    assert recs[..k][..k] == recs[..k];
  }

  lemma RecHoldsKey(p: Bytes, recs: seq<Rec>, keys: seq<Key>, trailer: nat, k: nat)
    requires |keys| == |recs| && Trailers(recs, trailer) && forall i :: 0 <= i < |recs| ==> keys[i] == recs[i].key
    requires k < |recs|
    ensures RecInBytes(p, recs, k) <==>
      var at := TrailerAt(keys, k, trailer);
      HoldsKey(p, keys, k, trailer) && p[at..at+trailer] == recs[k].trailer
  {
    hide Need, DataLen, NumberAt;
    StartOfRec(recs, keys, trailer, k);
  }

  /** The bytes of a record id or of a page id as numbers. */
  lemma NumberBytes(p: Bytes, at: nat, k: nat, u: nat)
    requires at + k <= |p|
    ensures NumberAt(p, at, k, u) <==> u < Pow256(k) && p[at..at+k] == ToLe(u, k)
  {
    hide FromLe, ToLe, NumberAt, Pow256;
    ReadsNumber(p, at, k, u);
    ToFromLe(p[at..at+k]);
    if u < Pow256(k) {
      FromToLe(u, k);
    }
  }

  lemma RidBytes(p: Bytes, at: nat, rid: Rid)
    requires at + 10 <= |p|
    ensures NumberAt(p, at, 8, rid.page) && NumberAt(p, at + 8, 2, rid.slot) <==>
      && rid.page < Pow256(8) && rid.slot < Pow256(2)
      && p[at..at+10] == ToLe(rid.page, 8) + ToLe(rid.slot, 2)
  {
    hide ToLe, Pow256, NumberAt;
    NumberBytes(p, at, 8, rid.page);
    NumberBytes(p, at + 8, 2, rid.slot);
    var all, a, b := p[at..at+10], ToLe(rid.page, 8), ToLe(rid.slot, 2);
    assert all[..8] == p[at..at+8] && all[8..] == p[at+8..at+8+2];
    assert (a + b)[..8] == a && (a + b)[8..] == b;
  }

  /** Both ways to say what a page holds are the same. */
  lemma HoldsBoth(p: Bytes, node: Node)
    ensures HoldsNode(p, node) <==> HoldsRecs(p, node)
  {
    hide FromLe, ToLe, DataLen, NumberAt, Pow256, Need, Rank, RecInBytes, HoldsKey, Lays, Offset;
    match node
    case Leaf(es, next) =>
      var recs, keys := LeafRecs(es), EntryKeys(es);
      LaysInBytes(p, next, recs);
      NumberBelow(p, 2, 8, next);
      SizeIsOffset(recs, keys, RECORD_ID);
      StartOfRec(recs, keys, RECORD_ID, |recs|);
      assert recs[..|recs|] == recs && keys[..|keys|] == keys;
      forall k | 0 <= k < |es|
        ensures HoldsEntry(p, es, k) <==>
          RecInBytes(p, recs, k) && es[k].rid.page < Pow256(8) && es[k].rid.slot < Pow256(2)
      {
        EntryBytes(p, es, k);
      }
    case Internal(leftmost, seps) =>
      var recs, keys := InternalRecs(seps), SepKeys(seps);
      LaysInBytes(p, leftmost, recs);
      NumberBelow(p, 2, 8, leftmost);
      SizeIsOffset(recs, keys, CHILD_ID);
      StartOfRec(recs, keys, CHILD_ID, |recs|);
      assert recs[..|recs|] == recs && keys[..|keys|] == keys;
      forall k | 0 <= k < |seps|
        ensures HoldsSeparator(p, seps, k) <==> RecInBytes(p, recs, k) && seps[k].child < Pow256(8)
      {
        SeparatorBytes(p, seps, k);
      }
  }

  lemma NumberBelow(p: Bytes, at: nat, k: nat, u: nat)
    ensures NumberAt(p, at, k, u) ==> u < Pow256(k)
  {
  }

  lemma EntryBytes(p: Bytes, es: seq<Entry>, k: nat)
    requires k < |es|
    ensures HoldsEntry(p, es, k) <==>
      RecInBytes(p, LeafRecs(es), k) && es[k].rid.page < Pow256(8) && es[k].rid.slot < Pow256(2)
  {
    hide ToLe, DataLen, NumberAt, Pow256, Need, RecInBytes;
    var keys := EntryKeys(es);
    RecHoldsKey(p, LeafRecs(es), keys, RECORD_ID, k);
    if HoldsKey(p, keys, k, 10) {
      RidBytes(p, TrailerAt(keys, k, 10), es[k].rid);
    }
  }

  lemma SeparatorBytes(p: Bytes, seps: seq<Separator>, k: nat)
    requires k < |seps|
    ensures HoldsSeparator(p, seps, k) <==> RecInBytes(p, InternalRecs(seps), k) && seps[k].child < Pow256(8)
  {
    hide ToLe, DataLen, NumberAt, Pow256, Need, RecInBytes;
    var keys := SepKeys(seps);
    RecHoldsKey(p, InternalRecs(seps), keys, CHILD_ID, k);
    if HoldsKey(p, keys, k, 8) {
      NumberBytes(p, TrailerAt(keys, k, 8), 8, seps[k].child);
    }
  }

  /** Reads a trailer back. */
  function EntryOf(r: Rec): Entry
    requires |r.trailer| == RECORD_ID
  {
    Entry(r.key, Rid(FromLe(r.trailer[..8]), FromLe(r.trailer[8..])))
  }

  function SeparatorOf(r: Rec): Separator {
    Separator(r.key, FromLe(r.trailer))
  }

  lemma LeafRecBack(e: Entry)
    requires e.rid.page < Pow256(8) && e.rid.slot < Pow256(2)
    ensures EntryOf(LeafRec(e)) == e
  {
    hide FromLe, ToLe;
    FromToLe(e.rid.page, 8);
    FromToLe(e.rid.slot, 2);
    assert LeafRec(e).trailer[..8] == ToLe(e.rid.page, 8) && LeafRec(e).trailer[8..] == ToLe(e.rid.slot, 2);
  }

  lemma EntryBack(r: Rec)
    requires |r.trailer| == RECORD_ID
    ensures LeafRec(EntryOf(r)) == r && EntryOf(r).rid.page < Pow256(8) && EntryOf(r).rid.slot < Pow256(2)
  {
    hide FromLe, ToLe;
    ToFromLe(r.trailer[..8]);
    ToFromLe(r.trailer[8..]);
    assert r.trailer == r.trailer[..8] + r.trailer[8..];
  }

  /** The size test of the split code is the end of the laid out bytes. */
  lemma {:induction false} SizeIsOffset(recs: seq<Rec>, keys: seq<Key>, trailer: nat)
    requires |keys| == |recs| && Trailers(recs, trailer) && forall i :: 0 <= i < |recs| ==> keys[i] == recs[i].key
    ensures HEADER + Need(keys, trailer) == Offset(recs, |recs|)
    decreases |recs|
  {
    assert recs[..|recs|] == recs;
    if recs != [] {
      var init := recs[..|recs|-1];
      assert init[..|init|] == init;
      SizeIsOffset(init, keys[..|keys|-1], trailer);
    }
  }

  /** `LeafPage::write_entries` keeps the link and stores the entries, or changes nothing. */
  method WriteLeaf(payload: array<byte>, es: seq<Entry>) returns (ok: bool)
    requires HEADER <= payload.Length <= 0xFFFF && Storable(es)
    modifies payload
    ensures ok <==> LeafFits(es, payload.Length)
    ensures !ok ==> payload[..] == old(payload[..])
    ensures ok && InKeyOrder(LeafRecs(es)) ==> HoldsNode(payload[..], Leaf(es, old(ReadLe(payload[..], 2, 8))))
  {
    hide FromLe, ToLe, Offset, Lays, InBytes, InKeyOrder, HoldsNode, Need, Pow256;
    var recs := LeafRecs(es);
    SizeIsOffset(recs, EntryKeys(es), RECORD_ID);
    var link := ReadNumber(payload, 2, 8);
    ok := WriteEntries(payload, link, recs);
    HoldsBoth(payload[..], Leaf(es, link));
  }

  /** `InternalPage::write_entries` */
  method WriteInternal(payload: array<byte>, leftmost: PageId, seps: seq<Separator>) returns (ok: bool)
    requires payload.Length <= 0xFFFF && StorableSeps(seps) && leftmost < Pow256(8)
    modifies payload
    ensures ok <==> InternalFits(seps, payload.Length)
    ensures !ok ==> payload[..] == old(payload[..])
    ensures ok && InKeyOrder(InternalRecs(seps)) ==> HoldsNode(payload[..], Internal(leftmost, seps))
  {
    hide FromLe, ToLe, Offset, Lays, InBytes, InKeyOrder, HoldsNode, Need, Pow256;
    var recs := InternalRecs(seps);
    SizeIsOffset(recs, SepKeys(seps), CHILD_ID);
    ok := WriteEntries(payload, leftmost, recs);
    HoldsBoth(payload[..], Internal(leftmost, seps));
  }

  lemma AllLeaves(p: Bytes)
    ensures forall es, next :: HoldsNode(p, Leaf(es, next)) <==> HoldsRecs(p, Leaf(es, next))
  {
    forall es, next ensures HoldsNode(p, Leaf(es, next)) <==> HoldsRecs(p, Leaf(es, next)) {
      HoldsBoth(p, Leaf(es, next));
    }
  }

  lemma AllInternal(p: Bytes)
    ensures forall seps, leftmost :: HoldsNode(p, Internal(leftmost, seps)) <==> HoldsRecs(p, Internal(leftmost, seps))
  {
    forall seps, leftmost ensures HoldsNode(p, Internal(leftmost, seps)) <==> HoldsRecs(p, Internal(leftmost, seps)) {
      HoldsBoth(p, Internal(leftmost, seps));
    }
  }

  /** `LeafPageRef::open`, `entries` and `next_leaf`: the node the bytes hold, if they hold a leaf at all. */
  method ReadLeaf(payload: array<byte>) returns (r: Option<Node>)
    ensures r.Some? ==> r.value.Leaf? && HoldsNode(payload[..], r.value)
    ensures r.None? ==> forall es, next :: !HoldsNode(payload[..], Leaf(es, next))
  {
    hide FromLe, ToLe, Offset, Lays, InBytes, InKeyOrder, HoldsNode, Need, Pow256;
    AllLeaves(payload[..]);
    var recs := Validate(payload, RECORD_ID);
    if recs.None? {
      return None;
    }
    var es := seq(|recs.value|, i requires 0 <= i < |recs.value| => EntryOf(recs.value[i]));
    forall i | 0 <= i < |es| ensures LeafRec(es[i]) == recs.value[i] && es[i].rid.page < Pow256(8) &&
        es[i].rid.slot < Pow256(2) {
      EntryBack(recs.value[i]);
    }
    assert LeafRecs(es) == recs.value;
    var next := ReadNumber(payload, 2, 8);
    r := Some(Leaf(es, next));
  }

  /** `InternalPageRef::open`, `entries` and `leftmost_child`. */
  method ReadInternal(payload: array<byte>) returns (r: Option<Node>)
    ensures r.Some? ==> r.value.Internal? && HoldsNode(payload[..], r.value)
    ensures r.None? ==> forall seps, leftmost :: !HoldsNode(payload[..], Internal(leftmost, seps))
  {
    hide FromLe, ToLe, Offset, Lays, InBytes, InKeyOrder, HoldsNode, Need, Pow256;
    AllInternal(payload[..]);
    var recs := Validate(payload, CHILD_ID);
    if recs.None? {
      return None;
    }
    var seps := seq(|recs.value|, i requires 0 <= i < |recs.value| => SeparatorOf(recs.value[i]));
    forall i | 0 <= i < |seps| ensures InternalRec(seps[i]) == recs.value[i] && seps[i].child < Pow256(8) {
      ToFromLe(recs.value[i].trailer);
    }
    assert InternalRecs(seps) == recs.value;
    var leftmost := ReadNumber(payload, 2, 8);
    r := Some(Internal(leftmost, seps));
  }

  /** Bytes hold at most one leaf, and all pages that hold it agree on every used byte:
      decoding and encoding are inverse to each other. */
  lemma LeafBytes(p: Bytes, q: Bytes, es: seq<Entry>, next: PageId, es': seq<Entry>, next': PageId)
    requires HoldsNode(p, Leaf(es, next))
    ensures HoldsNode(p, Leaf(es', next')) ==> es' == es && next' == next
    ensures HoldsNode(q, Leaf(es, next)) ==>
      var used := HEADER + Need(EntryKeys(es), RECORD_ID); used <= |p| && used <= |q| && p[..used] == q[..used]
  {
    hide FromLe, ToLe, Offset, Lays, InBytes, InKeyOrder, HoldsNode, Need, Pow256;
    AllLeaves(p);
    AllLeaves(q);
    SizeIsOffset(LeafRecs(es), EntryKeys(es), RECORD_ID);
    UsedFits(p, next, LeafRecs(es));
    if HoldsNode(q, Leaf(es, next)) {
      Canonical(p, q, next, LeafRecs(es));
      UsedFits(q, next, LeafRecs(es));
    }
    if HoldsNode(p, Leaf(es', next')) {
      DecodesOneWay(p, next, next', LeafRecs(es), LeafRecs(es'), RECORD_ID, |es|);
      forall i | 0 <= i < |es| ensures es[i] == es'[i] {
        LeafRecBack(es[i]);
        LeafRecBack(es'[i]);
        assert LeafRecs(es)[i] == LeafRecs(es')[i];
      }
    }
  }

  lemma InternalBytes(p: Bytes, q: Bytes, seps: seq<Separator>, leftmost: PageId, seps': seq<Separator>,
                      leftmost': PageId)
    requires HoldsNode(p, Internal(leftmost, seps))
    ensures HoldsNode(p, Internal(leftmost', seps')) ==> seps' == seps && leftmost' == leftmost
    ensures HoldsNode(q, Internal(leftmost, seps)) ==>
      var used := HEADER + Need(SepKeys(seps), CHILD_ID); used <= |p| && used <= |q| && p[..used] == q[..used]
  {
    hide FromLe, ToLe, Offset, Lays, InBytes, InKeyOrder, HoldsNode, Need, Pow256;
    AllInternal(p);
    AllInternal(q);
    SizeIsOffset(InternalRecs(seps), SepKeys(seps), CHILD_ID);
    UsedFits(p, leftmost, InternalRecs(seps));
    if HoldsNode(q, Internal(leftmost, seps)) {
      Canonical(p, q, leftmost, InternalRecs(seps));
      UsedFits(q, leftmost, InternalRecs(seps));
    }
    if HoldsNode(p, Internal(leftmost', seps')) {
      DecodesOneWay(p, leftmost, leftmost', InternalRecs(seps), InternalRecs(seps'), CHILD_ID, |seps|);
      forall i | 0 <= i < |seps| ensures seps[i] == seps'[i] {
        FromToLe(seps[i].child, 8);
        FromToLe(seps'[i].child, 8);
        assert InternalRecs(seps)[i] == InternalRecs(seps')[i];
      }
    }
  }

  lemma UsedFits(p: Bytes, link: nat, recs: seq<Rec>)
    requires Lays(p, link, recs)
    ensures Offset(recs, |recs|) <= |p|
  {
    hide Offset;
  }

  /** Writing a leaf and reading it back gives the same entries and link. */
  method LeafRoundTrip(payload: array<byte>, es: seq<Entry>) returns (r: Option<Node>)
    requires HEADER <= payload.Length <= 0xFFFF && Storable(es) && InKeyOrder(LeafRecs(es))
    requires LeafFits(es, payload.Length)
    modifies payload
    ensures r == Some(Leaf(es, old(ReadLe(payload[..], 2, 8))))
  {
    hide FromLe, ToLe, Offset, Lays, InKeyOrder, Pow256, Need, HoldsNode;
    ghost var next := ReadLe(payload[..], 2, 8);
    var ok := WriteLeaf(payload, es);
    r := ReadLeaf(payload);
    ghost var back := if r.Some? then r.value else Leaf(es, next);
    LeafBytes(payload[..], payload[..], es, next, back.entries, back.next);
  }

  /** Rewriting what was read from an accepted page reproduces its used bytes. */
  method LeafRewrite(payload: array<byte>) returns (r: Option<Node>)
    requires HEADER <= payload.Length <= 0xFFFF
    modifies payload
    ensures r.Some? ==> r.value.Leaf? && HoldsNode(old(payload[..]), r.value) && HoldsNode(payload[..], r.value)
    ensures r.Some? ==> var used := HEADER + Need(EntryKeys(r.value.entries), RECORD_ID);
      used <= payload.Length && payload[..][..used] == old(payload[..])[..used]
    ensures r.None? ==> payload[..] == old(payload[..])
  {
    hide FromLe, ToLe, Offset, Lays, InBytes, InKeyOrder, HoldsNode, Need, Pow256;
    r := ReadLeaf(payload);
    if r.Some? {
      var es := r.value.entries;
      LeafBytes(payload[..], payload[..], es, r.value.next, es, r.value.next);
      ghost var p := payload[..];
      HoldsBoth(p, r.value);
      LinkOf(p, r.value.next, LeafRecs(es));
      var ok := WriteLeaf(payload, es);
      LeafBytes(p, payload[..], es, r.value.next, es, r.value.next);
    }
  }

  /** Writing an internal page and reading it back gives the same children and separators. */
  method InternalRoundTrip(payload: array<byte>, leftmost: PageId, seps: seq<Separator>) returns (r: Option<Node>)
    requires payload.Length <= 0xFFFF && leftmost < Pow256(8) && StorableSeps(seps)
    requires InKeyOrder(InternalRecs(seps)) && InternalFits(seps, payload.Length)
    modifies payload
    ensures r == Some(Internal(leftmost, seps)) && HoldsNode(payload[..], Internal(leftmost, seps))
  {
    hide FromLe, ToLe, Offset, Lays, InKeyOrder, Pow256, Need, HoldsNode;
    var ok := WriteInternal(payload, leftmost, seps);
    r := ReadInternal(payload);
    ghost var back := if r.Some? then r.value else Internal(leftmost, seps);
    InternalBytes(payload[..], payload[..], seps, leftmost, back.seps, back.leftmost);
  }

  /** Rewriting what was read from an accepted internal page reproduces its used bytes. */
  method InternalRewrite(payload: array<byte>) returns (r: Option<Node>)
    requires payload.Length <= 0xFFFF
    modifies payload
    ensures r.Some? ==> r.value.Internal? && HoldsNode(old(payload[..]), r.value) && HoldsNode(payload[..], r.value)
    ensures r.Some? ==> var used := HEADER + Need(SepKeys(r.value.seps), CHILD_ID);
      used <= payload.Length && payload[..][..used] == old(payload[..])[..used]
    ensures r.None? ==> payload[..] == old(payload[..])
  {
    hide FromLe, ToLe, Offset, Lays, InBytes, InKeyOrder, HoldsNode, Need, Pow256;
    r := ReadInternal(payload);
    if r.Some? {
      var seps := r.value.seps;
      InternalBytes(payload[..], payload[..], seps, r.value.leftmost, seps, r.value.leftmost);
      ghost var p := payload[..];
      HoldsBoth(p, r.value);
      var ok := WriteInternal(payload, r.value.leftmost, seps);
      InternalBytes(p, payload[..], seps, r.value.leftmost, seps, r.value.leftmost);
    }
  }

  /** `set_next_leaf` changes the link and keeps the entries. */
  method SetNextLeaf(payload: array<byte>, next: PageId)
    requires payload.Length >= HEADER && next < Pow256(8)
    modifies payload
    ensures forall es, oldNext :: HoldsNode(old(payload[..]), Leaf(es, oldNext)) ==>
      HoldsNode(payload[..], Leaf(es, next))
  {
    hide FromLe, ToLe, Offset, Lays, InKeyOrder, Pow256, Overwrite;
    ghost var p := payload[..];
    CopyInto(payload, 2, ToLe(next, 8));
    AllLeaves(p);
    AllLeaves(payload[..]);
    forall es, oldNext | HoldsNode(p, Leaf(es, oldNext)) ensures HoldsNode(payload[..], Leaf(es, next)) {
      Relinked(p, payload[..], oldNext, next, LeafRecs(es));
    }
  }

  /** Only the link differs. */
  lemma Relinked(p: Bytes, q: Bytes, link: nat, link': nat, recs: seq<Rec>)
    requires Lays(p, link, recs) && link' < Pow256(8)
    requires |p| >= HEADER && q == Overwrite(p, 2, ToLe(link', 8))
    ensures Lays(q, link', recs)
  {
    hide FromLe, ToLe, Offset, Overwrite, Pow256;
    OverwriteAt(p, 2, ToLe(link', 8));
    FromToLe(link', 8);
    forall k | 0 <= k < |recs| ensures EntryLaid(q, recs, k) {
      assert EntryLaid(p, recs, k);
      OffsetGrows(recs, 0, k);
      FirstOffset(recs);
    }
  }

  lemma LinkOf(p: Bytes, link: nat, recs: seq<Rec>)
    requires Lays(p, link, recs)
    ensures |p| >= HEADER && ReadLe(p, 2, 8) == link
  {
    hide Offset, FromLe;
  }
}
