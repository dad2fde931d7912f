/** The page cache over the disk (src/buffer_pool.rs), run by one thread: Clock eviction, pins,
    dirty bits and page LSNs. What it caches must never show. */
module BufferPools {
  import opened Options
  import opened PageIds
  import opened KeyOrder

  const PAYLOAD_SIZE := 4096 - 24

  datatype PageType = Meta | Data | Catalog | BTreeLeaf | BTreeInternal

  type Payload = p: seq<byte> | |p| == PAYLOAD_SIZE witness seq(PAYLOAD_SIZE, _ => 0)

  datatype Page = Page(id: PageId, kind: PageType, lsn: nat, payload: Payload)

  /** What a caller can see of a page. */
  datatype Content = Content(kind: PageType, payload: Payload)

  function ContentOf(p: Page): Content {
    Content(p.kind, p.payload)
  }

  datatype FrameMeta = FrameMeta(occupant: Option<PageId>, pins: nat, dirty: bool, referenced: bool, lsn: nat)

  datatype PoolError = BufferPoolFull | PageOutOfRange(id: PageId)

  /** An open page guard: the frame it pins, the page it was opened for, and its kind. */
  datatype Guard = Guard(frame: nat, page: PageId, write: bool)

  /** A write of a cached page to disk: the page LSN of its frame and how far the log was durable. */
  datatype DiskWrite = DiskWrite(page: Page, frameLsn: nat, walAttached: bool, durable: nat)

  function FreshPage(id: PageId, kind: PageType): Page {
    Page(id, kind, 0, seq(PAYLOAD_SIZE, _ => 0))
  }

  // ---- The hand of the clock

  /** Frame number `k` steps after `start` on a clock of `n` frames, within two turns. */
  function Around(start: nat, k: nat, n: nat): (i: nat)
    requires start < n && k <= 2 * n
    ensures i < n
  {
    if start + k < n then start + k else if start + k < 2 * n then start + k - n else start + k - 2 * n
  }

  /** `saturating_sub(1)` */
  function SaturatingDec(n: nat): nat {
    if n == 0 then 0 else n - 1
  }

  predicate Evictable(m: FrameMeta) {
    m.occupant.Some? && m.pins == 0
  }

  /** The frame the clock chooses `k` steps after `start`: the first one without the reference bit,
      or, if all frames that may be evicted carry it, the first of these. */
  ghost predicate ClockChoice(meta: seq<FrameMeta>, start: nat, k: nat)
    requires start < |meta|
  {
    var n := |meta|;
    && k < n
    && Evictable(meta[Around(start, k, n)])
    && if meta[Around(start, k, n)].referenced then
         && (forall j :: 0 <= j < n && Evictable(meta[Around(start, j, n)]) ==> meta[Around(start, j, n)].referenced)
         && (forall j :: 0 <= j < k ==> !Evictable(meta[Around(start, j, n)]))
       else
         forall j :: 0 <= j < k && Evictable(meta[Around(start, j, n)]) ==> meta[Around(start, j, n)].referenced
  }

  /** The choice, and what the hand left behind: a reference bit is cleared exactly on the frames that may be evicted
      and that the hand passed, which are all of them if it needed a second turn. */
  ghost predicate SecondChance(meta: seq<FrameMeta>, start: nat, meta': seq<FrameMeta>, k: nat)
    requires start < |meta| == |meta'|
  {
    var n := |meta|;
    && ClockChoice(meta, start, k)
    && forall j :: 0 <= j < n ==>
         var i := Around(start, j, n);
         meta'[i].referenced ==
           (meta[i].referenced && !(Evictable(meta[i]) && (j < k || meta[Around(start, k, n)].referenced)))
  }

  lemma AroundNext(start: nat, k: nat, n: nat)
    requires start < n && k < 2 * n
    ensures (Around(start, k, n) + 1) % n == Around(start, k + 1, n)
  {
    var i := Around(start, k, n);
    if i + 1 == n {
      assert (i + 1) % n == 0;
    } else {
      assert (i + 1) % n == i + 1;
    }
  }

  /** One turn of the clock meets every frame. */
  lemma {:induction false} AroundMeets(start: nat, i: nat, n: nat) returns (k: nat)
    requires start < n && i < n
    ensures k < n && Around(start, k, n) == i
  {
    k := if i >= start then i - start else i + n - start;
  }

  // ---- What the fields of a pool mean together

  type Disk = d: seq<Page> | forall i :: 0 <= i < |d| ==> d[i].id == i witness []

  /** `page_table` and `occupant` are inverse to each other. */
  ghost predicate TableOk(table: map<PageId, nat>, meta: seq<FrameMeta>) {
    && (forall id :: id in table ==> table[id] < |meta| && meta[table[id]].occupant == Some(id))
    && (forall i :: 0 <= i < |meta| && meta[i].occupant.Some? ==>
          meta[i].occupant.value in table && table[meta[i].occupant.value] == i)
  }

  /** An occupied frame holds its occupant, and an empty one nothing. */
  ghost predicate FramesOk(frames: seq<Option<Page>>, meta: seq<FrameMeta>, disk: Disk) {
    && |frames| == |meta|
    && forall i :: 0 <= i < |frames| ==>
         match frames[i]
         case None => meta[i].occupant == None
         case Some(p) => meta[i].occupant == Some(p.id) && p.id < |disk|
  }

  /** Pins are open guards, only occupied frames are pinned, and a write guard is alone. */
  ghost predicate PinsOk(meta: seq<FrameMeta>, readers: seq<nat>, writer: seq<bool>) {
    && |meta| == |readers| == |writer|
    && (forall i :: 0 <= i < |meta| ==> meta[i].pins == readers[i] + if writer[i] then 1 else 0)
    && (forall i :: 0 <= i < |meta| ==> meta[i].pins > 0 ==> meta[i].occupant.Some?)
    && (forall i :: 0 <= i < |meta| ==> writer[i] ==> readers[i] == 0)
  }

  /** A clean frame nobody is writing shows what is on disk. Page 0, the file header, is rewritten
      behind the cache and is left out. */
  ghost predicate CleanOk(frames: seq<Option<Page>>, meta: seq<FrameMeta>, writer: seq<bool>, disk: Disk)
    requires |frames| == |meta| == |writer|
  {
    forall i :: 0 <= i < |frames| ==>
      match frames[i]
      case None => true
      case Some(p) =>
        && p.id < |disk|
        && (p.id == 0 || meta[i].dirty || writer[i] || ContentOf(p) == ContentOf(disk[p.id]))
  }

  /** Every write of a cached page came after the log records it depends on, and stored its page LSN. */
  ghost predicate WalFirst(writes: seq<DiskWrite>, durable: nat) {
    forall w :: w in writes ==>
      w.page.lsn == w.frameLsn && w.durable <= durable && (w.walAttached ==> w.frameLsn <= w.durable)
  }

  /** The writes added are those of dirty frames, each with the page LSN its frame had. */
  ghost predicate NewWrites(meta: seq<FrameMeta>, walAttached: bool, before: seq<DiskWrite>, after: seq<DiskWrite>) {
    && before <= after
    && forall k :: |before| <= k < |after| ==>
      after[k].walAttached == walAttached && DirtyFrame(meta, after[k].page.id, after[k].frameLsn)
  }

  ghost predicate DirtyFrame(meta: seq<FrameMeta>, id: PageId, lsn: nat) {
    exists i :: 0 <= i < |meta| && meta[i].occupant == Some(id) && meta[i].lsn == lsn && meta[i].dirty
  }

  /** What reads see: the cached copy of a page if there is one, else the copy on disk. */
  ghost function Shown(disk: Disk, frames: seq<Option<Page>>, table: map<PageId, nat>, id: PageId): Content
    requires id < |disk|
  {
    if id in table && table[id] < |frames| && frames[table[id]].Some? then ContentOf(frames[table[id]].value)
    else ContentOf(disk[id])
  }

  ghost function ViewOf(disk: Disk, frames: seq<Option<Page>>, table: map<PageId, nat>): (v: seq<Content>)
    ensures |v| == |disk| && forall id :: 0 <= id < |disk| ==> v[id] == Shown(disk, frames, table, id)
  {
    seq(|disk|, id requires 0 <= id < |disk| => Shown(disk, frames, table, id))
  }

  /** The two stores agree on all data pages. */
  ghost predicate SameData(v: seq<Content>, w: seq<Content>) {
    |v| == |w| && forall id :: 0 < id < |v| ==> v[id] == w[id]
  }

  ghost predicate SameButBits(a: seq<FrameMeta>, b: seq<FrameMeta>) {
    |a| == |b| && forall i :: 0 <= i < |a| ==> b[i] == a[i].(referenced := b[i].referenced)
  }

  class BufferPool {
    const capacity: nat
    var disk: Disk
    var frames: seq<Option<Page>>
    var meta: seq<FrameMeta>
    var pageTable: map<PageId, nat>
    var clockHand: nat
    var walAttached: bool
    /** How far the log is known to be on disk. */
    var durable: nat

    /** Open guards by frame, and every write of a cached page so far. */
    ghost var readers: seq<nat>
    ghost var writer: seq<bool>
    ghost var writes: seq<DiskWrite>

    ghost predicate Valid()
      reads this
    {
      && capacity > 0 && |frames| == |meta| == |readers| == |writer| == capacity && clockHand < capacity
      && TableOk(pageTable, meta)
      && FramesOk(frames, meta, disk)
      && PinsOk(meta, readers, writer)
      && CleanOk(frames, meta, writer, disk)
      && WalFirst(writes, durable)
    }

    /** The flat page store that callers see. */
    ghost function View(): seq<Content>
      reads this`disk, this`frames, this`pageTable
    {
      ViewOf(disk, frames, pageTable)
    }

    /** The guard is open. */
    ghost predicate Live(g: Guard)
      reads this`meta, this`readers, this`writer
    {
      && g.frame < |meta| && g.frame < |readers| && g.frame < |writer|
      && meta[g.frame].occupant == Some(g.page)
      && if g.write then writer[g.frame] else readers[g.frame] > 0
    }

    constructor (capacity: nat, disk: Disk)
      requires capacity > 0
      ensures Valid() && this.capacity == capacity && this.disk == disk && writes == [] && !walAttached
      ensures readers == seq(capacity, _ => 0) && writer == seq(capacity, _ => false) && pageTable == map[]
      ensures View() == seq(|disk|, id requires 0 <= id < |disk| => ContentOf(disk[id]))
    {
      this.capacity, this.disk := capacity, disk;
      frames := seq(capacity, _ => None);
      meta := seq(capacity, _ => FrameMeta(None, 0, false, false, 0));
      pageTable, clockHand, walAttached, durable := map[], 0, false, 0;
      readers, writer, writes := seq(capacity, _ => 0), seq(capacity, _ => false), [];
    }

    // ---- The log

    method AttachWal()
      requires Valid()
      modifies this`walAttached
      ensures Valid() && walAttached
    {
      walAttached := true;
    }

    /** `WalWriter::sync_up_to`: syncs all that was appended, unless this much is durable already. */
    method SyncUpTo(lsn: nat)
      modifies this`durable
      ensures old(durable) <= durable && lsn <= durable
      ensures lsn <= old(durable) ==> durable == old(durable)
    {
      if lsn <= durable {
        return;
      }
      var appended: nat :| lsn <= appended;
      durable := appended;
    }

    /** Raises the page LSN of a cached page. */
    method BumpPageLsn(id: PageId, lsn: nat)
      requires Valid()
      modifies this`meta
      ensures Valid() && SameButLsn(old(meta), meta)
      ensures forall i :: 0 <= i < |meta| ==>
        meta[i].lsn == if old(meta[i].occupant) == Some(id) && lsn > old(meta[i].lsn) then lsn else old(meta[i].lsn)
    {
      hide TableOk;
      KnownPage(id);
      if id in pageTable {
        var frame := pageTable[id];
        if lsn > meta[frame].lsn {
          meta := meta[frame := meta[frame].(lsn := lsn)];
          BumpKeeps(old(meta), meta, frame, pageTable);
        }
      }
    }

    lemma KnownPage(id: PageId)
      requires Valid()
      ensures id in pageTable ==>
        pageTable[id] < capacity && frames[pageTable[id]].Some? && meta[pageTable[id]].occupant == Some(id)
      ensures forall i :: 0 <= i < |meta| ==> (meta[i].occupant == Some(id) <==> id in pageTable && pageTable[id] == i)
    {
    }

    // ---- Disk

    method DiskRead(id: PageId) returns (r: Result<Page, PoolError>)
      ensures r == if id < |disk| then Ok(disk[id]) else Err(PageOutOfRange(id))
    {
      if id >= |disk| {
        return Err(PageOutOfRange(id));
      }
      r := Ok(disk[id]);
    }

    /** A new page at the end of the file. The file header on page 0 is rewritten behind the cache. */
    method AllocatePage(kind: PageType, header: Payload) returns (id: PageId)
      requires Valid() && |disk| > 0
      modifies this`disk
      ensures id == old(|disk|) && |View()| == old(|disk|) + 1
      ensures View()[id].kind == kind && forall i :: 0 <= i < PAYLOAD_SIZE ==> View()[id].payload[i] == 0
      ensures disk[id].id == id && disk[id].lsn == 0 && ContentOf(disk[id]) == View()[id]
      ensures forall i :: 0 < i < id ==> View()[i] == old(View()[i])
      ensures Valid()
    {
      id := |disk|;
      disk := disk[0 := Page(0, Meta, 0, header)] + [FreshPage(id, kind)];
    }

    // ---- Writing back and evicting

    /** Nobody holds a guard on the frame. */
    ghost predicate Unpinned(i: nat)
      reads this`meta
    {
      i < |meta| && meta[i].pins == 0
    }

    /** Syncs the log up to the page LSN, stores this LSN in the page and writes the page to disk. */
    method WriteBack(i: nat)
      requires Valid() && Unpinned(i) && frames[i].Some?
      modifies this`disk, this`frames, this`durable, this`writes
      ensures Valid() && |disk| == old(|disk|) && View() == old(View())
      ensures NewWrites(meta, walAttached, old(writes), writes) || !meta[i].dirty
      ensures ContentOf(disk[frames[i].value.id]) == ContentOf(frames[i].value)
      ensures frames == old(frames)[i := Some(old(frames[i].value).(lsn := meta[i].lsn))]
      ensures disk == old(disk)[frames[i].value.id := frames[i].value]
      ensures writes == old(writes) + [DiskWrite(frames[i].value, meta[i].lsn, walAttached, durable)]
      ensures old(durable) <= durable
    {
      hide TableOk, PinsOk;
      if walAttached {
        SyncUpTo(meta[i].lsn);
      }
      var page := frames[i].value.(lsn := meta[i].lsn);
      frames := frames[i := Some(page)];
      disk := disk[page.id := page];
      writes := writes + [DiskWrite(page, meta[i].lsn, walAttached, durable)];
      WrittenBack(old(frames), frames, old(disk), disk, meta, writer, pageTable, i, page);
    }

    /** The loop of `evict`: moves the hand on, clearing reference bits, until it meets an unpinned frame without
        one. */
    method ChooseVictim() returns (victim: Option<nat>)
      requires Valid() && forall i :: 0 <= i < |meta| ==> meta[i].occupant.Some?
      modifies this`meta, this`clockHand
      ensures Valid() && SameButBits(old(meta), meta)
      ensures victim.None? <==> forall i :: 0 <= i < |meta| ==> old(meta[i].pins) > 0
      ensures victim.Some? ==> victim.value < capacity && Evictable(meta[victim.value])
      ensures victim.Some? ==>
        exists k: nat ::
          && k < capacity && victim.value == Around(old(clockHand), k, capacity)
          && SecondChance(old(meta), old(clockHand), meta, k)
      ensures victim.Some? ==> clockHand == (victim.value + 1) % capacity
    {
      hide TableOk, FramesOk, PinsOk, CleanOk, WalFirst, Around, SecondChance, Turned, SameButBits;
      ghost var start, meta0, n := clockHand, meta, capacity;
      var steps := 0;
      victim := None;
      StartOfTurn(start, n);
      while steps < 2 * capacity
        invariant steps <= 2 * n && clockHand < n && clockHand == Around(start, steps, n)
        invariant Turned(meta0, meta, start, steps)
        invariant victim.None?
      {
        var i := clockHand;
        TurnBits(meta0, meta, start, steps);
        AroundNext(start, steps, n);
        clockHand := (clockHand + 1) % capacity;
        if meta[i].occupant.None? || meta[i].pins > 0 {
          TurnPast(meta0, meta, start, steps);
          steps := steps + 1;
          continue;
        }
        if meta[i].referenced {
          TurnClear(meta0, meta, start, steps);
          meta := meta[i := meta[i].(referenced := false)];
          steps := steps + 1;
          continue;
        }
        victim := Some(i);
        ghost var k := TurnFound(meta0, meta, start, steps);
        BitsKeep(meta0, meta, frames, disk, pageTable, readers, writer);
        return;
      }
      TurnBits(meta0, meta, start, steps);
      NoneFound(meta0, meta, start);
      BitsKeep(meta0, meta, frames, disk, pageTable, readers, writer);
    }

    /** Empties the frame the clock chooses, writing its page back if it is dirty. Called when all frames are
        occupied. */
    method Evict() returns (r: Result<nat, PoolError>)
      requires Valid() && forall i :: 0 <= i < |meta| ==> meta[i].occupant.Some?
      modifies this`disk, this`frames, this`meta, this`pageTable, this`clockHand, this`durable, this`writes
      ensures Valid() && SameData(View(), old(View()))
      ensures r.Err? <==> forall i :: 0 <= i < |meta| ==> old(meta[i].pins) > 0
      ensures r.Err? ==>
        r.error == BufferPoolFull && Untouched(old(meta), meta, None) && disk == old(disk) && writes == old(writes)
      ensures r.Ok? ==>
        r.value < capacity && old(meta[r.value].pins) == 0 && meta[r.value].pins == 0 && meta[r.value].occupant.None?
      ensures r.Ok? ==> Untouched(old(meta), meta, Some(r.value))
      ensures r.Ok? ==> exists k: nat ::
        && k < capacity && r.value == Around(old(clockHand), k, capacity)
        && SecondChance(old(meta), old(clockHand), meta, k)
      ensures r.Ok? ==> clockHand == (r.value + 1) % capacity
      ensures NewWrites(old(meta), walAttached, old(writes), writes) && |writes| <= old(|writes|) + 1
      ensures forall id :: id in pageTable ==> id in old(pageTable) && pageTable[id] == old(pageTable[id])
      ensures |disk| == old(|disk|) && old(durable) <= durable
    {
      hide TableOk, FramesOk, PinsOk, CleanOk, WalFirst, Around, SecondChance, ViewOf;
      var victim := ChooseVictim();
      if victim.None? {
        SameView(View());
        return Err(BufferPoolFull);
      }
      var i := victim.value;
      VictimPage(i);
      var id := meta[i].occupant.value;
      if meta[i].dirty {
        WriteBack(i);
      }
      ghost var view, frames0, meta0, table0 := View(), frames, meta, pageTable;
      meta := meta[i := meta[i].(occupant := None)];
      frames := frames[i := None];
      pageTable := pageTable - {id};
      Emptied(frames0, frames, meta0, meta, table0, pageTable, disk, readers, writer, i, id);
      Emptying(old(meta), old(clockHand), meta0, meta, i);
      r := Ok(i);
    }

    lemma VictimPage(i: nat)
      requires Valid() && i < capacity && Evictable(meta[i])
      ensures frames[i].Some? && meta[i].occupant == Some(frames[i].value.id) && !writer[i]
    {
    }

    // ---- Finding and pinning pages

    method FirstEmpty() returns (i: Option<nat>)
      requires Valid()
      ensures i.None? <==> forall k :: 0 <= k < |meta| ==> meta[k].occupant.Some?
      ensures i.Some? ==> i.value < capacity && meta[i.value].occupant.None?
    {
      hide TableOk, FramesOk, PinsOk, CleanOk, WalFirst;
      var k := 0;
      while k < |meta|
        invariant k <= |meta| && forall j :: 0 <= j < k ==> meta[j].occupant.Some?
      {
        if meta[k].occupant.None? {
          return Some(k);
        }
        k := k + 1;
      }
      i := None;
    }

    /** An empty frame, by eviction if there is none. */
    method TakeFrame() returns (r: Result<nat, PoolError>)
      requires Valid()
      modifies this`disk, this`frames, this`meta, this`pageTable, this`clockHand, this`durable, this`writes
      ensures Valid() && SameData(View(), old(View())) && PinnedKept(old(meta), meta)
      ensures r.Err? <==> AllPinned(old(meta))
      ensures r.Err? ==> r.error == BufferPoolFull
      ensures r.Ok? ==> r.value < capacity && meta[r.value].occupant.None?
      ensures forall id :: id in pageTable ==> id in old(pageTable)
      ensures |disk| == old(|disk|) && NewWrites(old(meta), walAttached, old(writes), writes) && old(durable) <= durable
    {
      hide TableOk, FramesOk, PinsOk, CleanOk, WalFirst, ViewOf, ClockChoice, Around, SameData, PinnedKept, AllPinned,
        NewWrites, Untouched;
      SameView(View());
      NothingWritten(meta, walAttached, writes);
      KeptAlone(meta);
      var empty := FirstEmpty();
      if empty.Some? {
        NotPinned(empty.value);
        return Ok(empty.value);
      }
      AllArePinned(meta);
      r := Evict();
      UntouchedKept(old(meta), meta, if r.Ok? then Some(r.value) else None);
    }

    /** The frame of a page, loading it if it is not cached. */
    method LocateOrLoad(id: PageId) returns (r: Result<nat, PoolError>)
      requires Valid()
      modifies this`disk, this`frames, this`meta, this`pageTable, this`clockHand, this`durable, this`writes
      ensures Valid() && SameData(View(), old(View())) && PinnedKept(old(meta), meta)
      ensures r.Err? <==> id !in old(pageTable) && (AllPinned(old(meta)) || id >= |disk|)
      ensures r.Err? ==> r.error == if AllPinned(old(meta)) then BufferPoolFull else PageOutOfRange(id)
      ensures r.Ok? ==> r.value < capacity && meta[r.value].occupant == Some(id) && id < |disk|
      ensures r.Ok? && id !in old(pageTable) ==>
        old(meta[r.value].pins) == 0 && meta[r.value] == FrameMeta(Some(id), 0, false, false, disk[id].lsn)
      ensures id in old(pageTable) ==>
        r == Ok(old(pageTable[id])) && meta == old(meta) && disk == old(disk) && writes == old(writes)
      ensures |disk| == old(|disk|) && NewWrites(old(meta), walAttached, old(writes), writes) && old(durable) <= durable
    {
      hide TableOk, FramesOk, PinsOk, CleanOk, WalFirst, ViewOf, SameData, PinnedKept, AllPinned, NewWrites;
      if id in pageTable {
        KnownPage(id);
        SameView(View());
        NothingWritten(meta, walAttached, writes);
        KeptAlone(meta);
        CachedOnDisk(pageTable[id]);
        return Ok(pageTable[id]);
      }
      var taken := TakeFrame();
      if taken.Err? {
        return Err(taken.error);
      }
      var frame := taken.value;
      var page := DiskRead(id);
      if page.Err? {
        return Err(page.error);
      }
      NotPinned(frame);
      ghost var frames0, meta0, table0 := frames, meta, pageTable;
      frames := frames[frame := Some(page.value)];
      meta := meta[frame := FrameMeta(Some(id), 0, false, false, page.value.lsn)];
      pageTable := pageTable[id := frame];
      Loaded(frames0, frames, meta0, meta, table0, pageTable, disk, readers, writer, frame, id);
      LoadKept(old(meta), meta0, meta, frame);
      r := Ok(frame);
    }

    lemma CachedOnDisk(i: nat)
      requires Valid() && i < capacity && meta[i].occupant.Some?
      ensures meta[i].occupant.value < |disk|
    {
    }

    lemma NotPinned(i: nat)
      requires Valid() && i < capacity && meta[i].occupant.None?
      ensures meta[i].pins == 0 && !AllPinned(meta) && frames[i].None?
    {
    }

    /** Nobody holds a guard on the page that excludes one of this kind. */
    ghost predicate Free(id: PageId, write: bool)
      requires Valid()
      reads this
    {
      id in pageTable ==> !writer[pageTable[id]] && (write ==> readers[pageTable[id]] == 0)
    }

    /** Pins the page and latches its frame. */
    method LocateAndPin(id: PageId, write: bool) returns (r: Result<Guard, PoolError>)
      requires Valid() && Free(id, write)
      modifies this`disk, this`frames, this`meta, this`pageTable, this`clockHand, this`durable, this`writes,
        this`readers, this`writer
      ensures Valid() && SameData(View(), old(View()))
      ensures r.Err? <==> id !in old(pageTable) && (AllPinned(old(meta)) || id >= |disk|)
      ensures r.Err? ==> r.error == if AllPinned(old(meta)) then BufferPoolFull else PageOutOfRange(id)
      ensures r.Err? ==> readers == old(readers) && writer == old(writer)
      ensures r.Ok? ==>
        Live(r.value) && r.value.page == id && r.value.write == write && id < |disk| && meta[r.value.frame].referenced
      ensures id in old(pageTable) ==> disk == old(disk) && writes == old(writes)
      ensures r.Ok? ==> var f := r.value.frame;
        && f < capacity
        && readers == old(readers)[f := if write then old(readers[f]) else old(readers[f]) + 1]
        && writer == old(writer)[f := write]
        && (write ==> old(readers[f]) == 0) && !old(writer[f])
      ensures forall g :: old(Live(g)) ==> Live(g)
      ensures |disk| == old(|disk|) && NewWrites(old(meta), walAttached, old(writes), writes) && old(durable) <= durable
    {
      hide TableOk, FramesOk, CleanOk, WalFirst, ViewOf, PinsOk, AllPinned, PinnedKept, SameData, NewWrites;
      var located := LocateOrLoad(id);
      StillLive(old(meta), meta, readers, writer);
      if located.Err? {
        return Err(located.error);
      }
      var f := located.value;
      NobodyElse(old(pageTable), old(meta), meta, readers, writer, id, write, f);
      Pin(f, write);
      r := Ok(Guard(f, id, write));
    }

    method Pin(f: nat, write: bool)
      requires Valid() && f < capacity && meta[f].occupant.Some? && !writer[f] && (write ==> readers[f] == 0)
      modifies this`meta, this`readers, this`writer
      ensures Valid()
      ensures meta == old(meta)[f := old(meta[f]).(pins := old(meta[f].pins) + 1, referenced := true)]
      ensures readers == old(readers)[f := if write then old(readers[f]) else old(readers[f]) + 1]
      ensures writer == old(writer)[f := write]
    {
      hide TableOk, FramesOk, CleanOk, WalFirst, PinsOk;
      meta := meta[f := meta[f].(pins := meta[f].pins + 1, referenced := true)];
      if write {
        writer := writer[f := true];
      } else {
        readers := readers[f := readers[f] + 1];
      }
      PinKeeps(old(meta), meta, frames, disk, pageTable, old(writer), writer, f);
      PinCounts(old(meta), meta, old(readers), readers, old(writer), writer, f, write);
    }

    method ReadPage(id: PageId) returns (r: Result<Guard, PoolError>)
      requires Valid() && Free(id, false)
      modifies this`disk, this`frames, this`meta, this`pageTable, this`clockHand, this`durable, this`writes,
        this`readers, this`writer
      ensures Valid() && SameData(View(), old(View()))
      ensures r.Err? <==> id !in old(pageTable) && (AllPinned(old(meta)) || id >= |disk|)
      ensures r.Err? ==> r.error == if AllPinned(old(meta)) then BufferPoolFull else PageOutOfRange(id)
      ensures r.Err? ==> readers == old(readers) && writer == old(writer)
      ensures r.Ok? ==>
        Live(r.value) && r.value.page == id && !r.value.write && id < |disk| && meta[r.value.frame].referenced
      ensures id in old(pageTable) ==> disk == old(disk) && writes == old(writes)
      ensures r.Ok? ==> var f := r.value.frame;
        f < capacity && readers == old(readers)[f := old(readers[f]) + 1] && writer == old(writer) && !old(writer[f])
      ensures forall g :: old(Live(g)) ==> Live(g)
      ensures |disk| == old(|disk|) && NewWrites(old(meta), walAttached, old(writes), writes) && old(durable) <= durable
    {
      hide TableOk, FramesOk, CleanOk, WalFirst, ViewOf, PinsOk;
      r := LocateAndPin(id, false);
      assert r.Ok? ==> writer == old(writer);
    }

    method WritePage(id: PageId) returns (r: Result<Guard, PoolError>)
      requires Valid() && Free(id, true)
      modifies this`disk, this`frames, this`meta, this`pageTable, this`clockHand, this`durable, this`writes,
        this`readers, this`writer
      ensures Valid() && SameData(View(), old(View()))
      ensures r.Err? <==> id !in old(pageTable) && (AllPinned(old(meta)) || id >= |disk|)
      ensures r.Err? ==> r.error == if AllPinned(old(meta)) then BufferPoolFull else PageOutOfRange(id)
      ensures r.Err? ==> readers == old(readers) && writer == old(writer)
      ensures r.Ok? ==>
        Live(r.value) && r.value.page == id && r.value.write && id < |disk| && meta[r.value.frame].referenced
      ensures id in old(pageTable) ==> disk == old(disk) && writes == old(writes)
      ensures r.Ok? ==> var f := r.value.frame;
        f < capacity && readers == old(readers) && writer == old(writer)[f := true] && !old(writer[f]) &&
            old(readers[f]) == 0
      ensures forall g :: old(Live(g)) ==> Live(g)
      ensures |disk| == old(|disk|) && NewWrites(old(meta), walAttached, old(writes), writes) && old(durable) <= durable
    {
      hide TableOk, FramesOk, CleanOk, WalFirst, ViewOf, PinsOk;
      r := LocateAndPin(id, true);
    }

    // ---- Through a guard

    /** A pinned frame holds the page its guard was opened for. */
    method PageOf(g: Guard) returns (c: Content)
      requires Valid() && Live(g)
      ensures g.page < |disk| && c == View()[g.page]
    {
      c := ContentOf(frames[g.frame].value);
    }

    /** `data_mut` and `set_page_type` of a write guard. */
    method SetPage(g: Guard, c: Content)
      requires Valid() && Live(g) && g.write
      modifies this`frames
      ensures Valid() && g.page < |disk| && View() == old(View())[g.page := c]
      ensures forall h :: old(Live(h)) ==> Live(h)
    {
      hide PinsOk;
      ghost var frames0 := frames;
      var page := frames[g.frame].value;
      frames := frames[g.frame := Some(page.(kind := c.kind, payload := c.payload))];
      Rewritten(frames0, frames, meta, writer, pageTable, disk, g.frame, c);
    }

    /** Dropping a guard: the frame latch goes first, then the pin; a write guard marks the frame dirty. */
    method Close(g: Guard)
      requires Valid() && Live(g)
      modifies this`meta, this`readers, this`writer
      ensures Valid() && View() == old(View())
      ensures readers == old(readers)[g.frame := if g.write then old(readers[g.frame]) else old(readers[g.frame]) - 1]
      ensures writer == old(writer)[g.frame := false]
      ensures meta == old(meta)[g.frame := old(meta[g.frame]).(pins := old(meta[g.frame].pins) - 1,
                                                               dirty := old(meta[g.frame].dirty) || g.write)]
      ensures forall h :: old(Live(h)) && h.frame != g.frame ==> Live(h)
    {
      hide TableOk, FramesOk, CleanOk, WalFirst;
      ghost var meta0 := meta;
      if g.write {
        writer := writer[g.frame := false];
      } else {
        readers := readers[g.frame := readers[g.frame] - 1];
      }
      var m := meta[g.frame];
      meta := meta[g.frame := m.(pins := SaturatingDec(m.pins), dirty := m.dirty || g.write)];
      CloseKeeps(meta0, meta, frames, disk, pageTable, old(writer), writer, g);
    }

    // ---- Flushing

    /** Writes a dirty frame back. The caller holds no guard on it. */
    method FlushFrame(i: nat)
      requires Valid() && i < capacity && Unpinned(i) && meta[i].dirty
      modifies this`disk, this`frames, this`meta, this`durable, this`writes
      ensures Valid() && View() == old(View()) && |disk| == old(|disk|)
      ensures meta == old(meta)[i := old(meta[i]).(dirty := false)]
      ensures NewWrites(old(meta), walAttached, old(writes), writes) && old(durable) <= durable
      ensures frames[i].Some? ==> ContentOf(disk[frames[i].value.id]) == ContentOf(frames[i].value)
    {
      hide TableOk, PinsOk, ViewOf, NewWrites;
      NothingWritten(meta, walAttached, writes);
      if frames[i].Some? {
        WriteBack(i);
      } else if walAttached {
        SyncUpTo(meta[i].lsn);
      }
      ghost var meta0 := meta;
      meta := meta[i := meta[i].(dirty := false)];
      CleanKeeps(meta0, meta, frames, disk, pageTable, readers, writer, i);
    }

    method FlushPage(id: PageId)
      requires Valid() && (id in pageTable && meta[pageTable[id]].dirty ==> Unpinned(pageTable[id]))
      modifies this`disk, this`frames, this`meta, this`durable, this`writes
      ensures Valid() && View() == old(View()) && |disk| == old(|disk|)
      ensures 0 < id < |disk| && (id in pageTable ==> !writer[pageTable[id]]) ==> ContentOf(disk[id]) == View()[id]
      ensures SameButDirty(old(meta), meta)
      ensures NewWrites(old(meta), walAttached, old(writes), writes) && old(durable) <= durable
    {
      hide PinsOk, WalFirst;
      if id !in pageTable || !meta[pageTable[id]].dirty {
        return;
      }
      FlushFrame(pageTable[id]);
    }

    method DirtyFrames() returns (dirtyFrames: seq<nat>)
      ensures forall j :: 0 <= j < |dirtyFrames| ==> dirtyFrames[j] < |meta| && meta[dirtyFrames[j]].dirty
      ensures forall j, k :: 0 <= j < k < |dirtyFrames| ==> dirtyFrames[j] < dirtyFrames[k]
      ensures forall k :: 0 <= k < |meta| && meta[k].dirty ==> k in dirtyFrames
    {
      dirtyFrames := [];
      var i := 0;
      while i < |meta|
        invariant i <= |meta| && forall j :: 0 <= j < |dirtyFrames| ==> dirtyFrames[j] < i && meta[dirtyFrames[j]].dirty
        invariant forall j, k :: 0 <= j < k < |dirtyFrames| ==> dirtyFrames[j] < dirtyFrames[k]
        invariant forall k :: 0 <= k < i && meta[k].dirty ==> k in dirtyFrames
      {
        if meta[i].dirty {
          dirtyFrames := dirtyFrames + [i];
        }
        i := i + 1;
      }
    }

    /** Writes back all frames that are dirty at the time of the call. */
    method FlushAll()
      requires Valid() && forall i :: 0 <= i < |meta| && meta[i].dirty ==> Unpinned(i)
      modifies this`disk, this`frames, this`meta, this`durable, this`writes
      ensures Valid() && View() == old(View()) && |disk| == old(|disk|)
      ensures forall i :: 0 <= i < |meta| ==> !meta[i].dirty
      ensures SameButDirty(old(meta), meta)
      ensures (forall i :: 0 <= i < |meta| ==> !writer[i]) ==> forall id :: 0 < id < |disk| ==>
        ContentOf(disk[id]) == View()[id]
      ensures NewWrites(old(meta), walAttached, old(writes), writes) && old(durable) <= durable
    {
      hide TableOk, PinsOk, WalFirst, FramesOk, CleanOk, ViewOf, NewWrites;
      NothingWritten(meta, walAttached, writes);
      ghost var meta0 := meta;
      var dirtyFrames := DirtyFrames();
      var i := 0;
      while i < |dirtyFrames|
        invariant i <= |dirtyFrames| && Valid() && View() == old(View()) && |disk| == old(|disk|)
        invariant |meta| == |meta0| && forall k :: 0 <= k < |meta| ==> meta[k] == meta0[k].(dirty := meta[k].dirty)
        invariant forall k :: 0 <= k < |meta| && meta[k].dirty ==> k in dirtyFrames[i..] && meta0[k].dirty
        invariant forall j :: i <= j < |dirtyFrames| ==> dirtyFrames[j] < |meta| && meta[dirtyFrames[j]].dirty
        invariant NewWrites(meta0, walAttached, old(writes), writes) && old(durable) <= durable
      {
        ghost var meta1, writes1 := meta, writes;
        FlushFrame(dirtyFrames[i]);
        WritesAdd(meta0, meta1, walAttached, old(writes), writes1, writes);
        i := i + 1;
      }
      AllClean(frames, meta, writer, pageTable, disk);
    }
  }

  ghost predicate SameButDirty(a: seq<FrameMeta>, b: seq<FrameMeta>) {
    |a| == |b| && forall i :: 0 <= i < |a| ==> b[i] == a[i].(dirty := b[i].dirty)
  }

  ghost predicate SameButLsn(a: seq<FrameMeta>, b: seq<FrameMeta>) {
    |a| == |b| && forall i :: 0 <= i < |a| ==> b[i] == a[i].(lsn := b[i].lsn)
  }

  lemma BumpKeeps(a: seq<FrameMeta>, b: seq<FrameMeta>, i: nat, table: map<PageId, nat>)
    requires i < |a| && |b| == |a| && b == a[i := a[i].(lsn := b[i].lsn)] && TableOk(table, a)
    ensures TableOk(table, b)
  {
  }

  /** A frame written back shows the same page, now also on disk. */
  lemma WrittenBack(frames: seq<Option<Page>>, frames': seq<Option<Page>>, disk: Disk, disk': Disk,
                    meta: seq<FrameMeta>, writer: seq<bool>, table: map<PageId, nat>, i: nat, page: Page)
    requires |frames| == |meta| == |writer| && i < |frames| && frames[i].Some? && FramesOk(frames, meta, disk)
    requires CleanOk(frames, meta, writer, disk)
    requires page == frames[i].value.(lsn := page.lsn) && frames' == frames[i := Some(page)]
    requires disk' == disk[page.id := page]
    requires TableOk(table, meta)
    ensures FramesOk(frames', meta, disk') && CleanOk(frames', meta, writer, disk')
    ensures ViewOf(disk', frames', table) == ViewOf(disk, frames, table)
  {
    assert page.id in table && table[page.id] == i;
    forall k | 0 <= k < |frames| && k != i && frames[k].Some? ensures frames[k].value.id != page.id {
      assert meta[k].occupant.value in table && table[meta[k].occupant.value] == k;
    }
    forall id | 0 <= id < |disk| ensures Shown(disk', frames', table, id) == Shown(disk, frames, table, id) {
      if id in table && id != page.id {
        assert meta[table[id]].occupant == Some(id) && table[id] != i;
      }
    }
  }

  // ---- Two turns of the clock

  /** After some steps: bits already passed are clear, the others untouched, and in the second turn
      everything passed could not be evicted. */
  ghost predicate Turned(meta0: seq<FrameMeta>, meta: seq<FrameMeta>, start: nat, steps: nat) {
    var n := |meta0|;
    && start < n && steps <= 2 * n
    && SameButBits(meta0, meta)
    && (forall j :: 0 <= j < n && j < steps ==>
          Evictable(meta0[Around(start, j, n)]) ==>
            meta0[Around(start, j, n)].referenced && !meta[Around(start, j, n)].referenced)
    && (forall j :: steps <= j < n ==> meta[Around(start, j, n)] == meta0[Around(start, j, n)])
    && (forall j :: 0 <= j < n && !Evictable(meta0[Around(start, j, n)]) ==>
          meta[Around(start, j, n)] == meta0[Around(start, j, n)])
    && (forall j :: 0 <= j < steps - n ==> !Evictable(meta0[Around(start, j, n)]))
  }

  lemma StartOfTurn(start: nat, n: nat)
    requires start < n
    ensures Around(start, 0, n) == start
    ensures forall meta: seq<FrameMeta> :: |meta| == n ==> Turned(meta, meta, start, 0)
  {
  }

  lemma TurnBits(meta0: seq<FrameMeta>, meta: seq<FrameMeta>, start: nat, steps: nat)
    requires Turned(meta0, meta, start, steps)
    ensures SameButBits(meta0, meta) && |meta| == |meta0|
    ensures forall i :: 0 <= i < |meta0| ==> meta[i].pins == meta0[i].pins && meta[i].occupant == meta0[i].occupant
  {
  }

  lemma TurnPast(meta0: seq<FrameMeta>, meta: seq<FrameMeta>, start: nat, steps: nat)
    requires Turned(meta0, meta, start, steps) && steps < 2 * |meta0|
    requires !Evictable(meta[Around(start, steps, |meta0|)])
    ensures Turned(meta0, meta, start, steps + 1)
  {
  }

  lemma TurnClear(meta0: seq<FrameMeta>, meta: seq<FrameMeta>, start: nat, steps: nat)
    requires Turned(meta0, meta, start, steps) && steps < 2 * |meta0|
    requires Evictable(meta[Around(start, steps, |meta0|)]) && meta[Around(start, steps, |meta0|)].referenced
    ensures var i := Around(start, steps, |meta0|);
      Turned(meta0, meta[i := meta[i].(referenced := false)], start, steps + 1)
  {
  }

  lemma {:induction false} TurnFound(meta0: seq<FrameMeta>, meta: seq<FrameMeta>, start: nat, steps: nat)
    returns (k: nat)
    requires Turned(meta0, meta, start, steps) && steps < 2 * |meta0|
    requires Evictable(meta[Around(start, steps, |meta0|)]) && !meta[Around(start, steps, |meta0|)].referenced
    ensures k < |meta0| && Around(start, steps, |meta0|) == Around(start, k, |meta0|)
    ensures |meta| == |meta0| && SecondChance(meta0, start, meta, k)
    ensures exists i :: 0 <= i < |meta0| && meta0[i].pins == 0
  {
    var n := |meta0|;
    k := if steps < n then steps else steps - n;
    assert meta0[Around(start, k, n)].pins == 0;
  }

  lemma NoneFound(meta0: seq<FrameMeta>, meta: seq<FrameMeta>, start: nat)
    requires Turned(meta0, meta, start, 2 * |meta0|) && forall i :: 0 <= i < |meta0| ==> meta0[i].occupant.Some?
    ensures forall i :: 0 <= i < |meta0| ==> meta0[i].pins > 0
  {
    var n := |meta0|;
    forall i | 0 <= i < n ensures meta0[i].pins > 0 {
      var k := AroundMeets(start, i, n);
      assert !Evictable(meta0[Around(start, k, n)]);
    }
  }

  /** Reference bits mean nothing to the rest. */
  lemma BitsKeep(a: seq<FrameMeta>, b: seq<FrameMeta>, frames: seq<Option<Page>>, disk: Disk, table: map<PageId, nat>,
                 readers: seq<nat>, writer: seq<bool>)
    requires SameButBits(a, b) && TableOk(table, a) && FramesOk(frames, a, disk) && PinsOk(a, readers, writer)
    requires CleanOk(frames, a, writer, disk)
    ensures TableOk(table, b) && FramesOk(frames, b, disk) && PinsOk(b, readers, writer)
    ensures CleanOk(frames, b, writer, disk)
  {
  }

  /** Emptying the victim leaves its reference bit alone. */
  lemma Emptying(a: seq<FrameMeta>, start: nat, b: seq<FrameMeta>, c: seq<FrameMeta>, i: nat)
    requires start < |a| == |b| && i < |b| && c == b[i := b[i].(occupant := None)]
    ensures forall k :: 0 <= k < |a| && SecondChance(a, start, b, k) ==> SecondChance(a, start, c, k)
  {
    hide ClockChoice, Around;
  }

  lemma SameView(v: seq<Content>)
    ensures SameData(v, v)
  {
  }

  /** Pins, occupants and page LSNs of all frames but one are as before. */
  ghost predicate Untouched(a: seq<FrameMeta>, b: seq<FrameMeta>, but: Option<nat>) {
    |a| == |b| && forall i :: 0 <= i < |a| && but != Some(i) ==> b[i] == a[i].(referenced := b[i].referenced)
  }

  /** Emptying a clean or written back frame that nobody pins changes nothing that shows. */
  lemma Emptied(frames: seq<Option<Page>>, frames': seq<Option<Page>>, meta: seq<FrameMeta>, meta': seq<FrameMeta>,
                table: map<PageId, nat>, table': map<PageId, nat>, disk: Disk, readers: seq<nat>, writer: seq<bool>,
                i: nat, id: PageId)
    requires TableOk(table, meta) && FramesOk(frames, meta, disk) && PinsOk(meta, readers, writer)
    requires CleanOk(frames, meta, writer, disk)
    requires i < |meta| && meta[i].occupant == Some(id) && meta[i].pins == 0
    requires frames[i].Some? && (meta[i].dirty ==> ContentOf(frames[i].value) == ContentOf(disk[id]))
    requires frames' == frames[i := None] && meta' == meta[i := meta[i].(occupant := None)] && table' == table - {id}
    ensures TableOk(table', meta') && FramesOk(frames', meta', disk) && PinsOk(meta', readers, writer)
    ensures CleanOk(frames', meta', writer, disk)
    ensures SameData(ViewOf(disk, frames', table'), ViewOf(disk, frames, table))
  {
    hide PinsOk;
    EmptiedTable(meta, meta', table, table', i, id);
    EmptiedFrames(frames, frames', meta, meta', disk, readers, writer, i);
    forall x | 0 < x < |disk| ensures Shown(disk, frames', table', x) == Shown(disk, frames, table, x) {
      if x in table && x != id {
        assert meta[table[x]].occupant == Some(x) && table[x] != i;
      }
    }
  }

  lemma EmptiedTable(meta: seq<FrameMeta>, meta': seq<FrameMeta>, table: map<PageId, nat>, table': map<PageId, nat>,
                     i: nat, id: PageId)
    requires TableOk(table, meta) && i < |meta| && meta[i].occupant == Some(id)
    requires meta' == meta[i := meta[i].(occupant := None)] && table' == table - {id}
    ensures TableOk(table', meta')
  {
    forall k | 0 <= k < |meta'| && meta'[k].occupant.Some?
      ensures meta'[k].occupant.value in table' && table'[meta'[k].occupant.value] == k
    {
      assert meta[k].occupant.value in table && table[meta[k].occupant.value] == k;
    }
  }

  lemma EmptiedFrames(frames: seq<Option<Page>>, frames': seq<Option<Page>>, meta: seq<FrameMeta>,
                      meta': seq<FrameMeta>, disk: Disk, readers: seq<nat>, writer: seq<bool>, i: nat)
    requires FramesOk(frames, meta, disk) && PinsOk(meta, readers, writer) && CleanOk(frames, meta, writer, disk)
    requires i < |meta| && meta[i].pins == 0
    requires frames' == frames[i := None] && meta' == meta[i := meta[i].(occupant := None)]
    ensures FramesOk(frames', meta', disk) && PinsOk(meta', readers, writer) && CleanOk(frames', meta', writer, disk)
  {
  }

  ghost predicate AllPinned(meta: seq<FrameMeta>) {
    forall i :: 0 <= i < |meta| ==> meta[i].pins > 0
  }

  /** No pin changes, and a pinned frame keeps its page. */
  ghost predicate PinnedKept(a: seq<FrameMeta>, b: seq<FrameMeta>) {
    |a| == |b| && forall i :: 0 <= i < |a| ==>
      b[i].pins == a[i].pins && (a[i].pins > 0 ==> b[i].occupant == a[i].occupant)
  }

  lemma UntouchedKept(a: seq<FrameMeta>, b: seq<FrameMeta>, but: Option<nat>)
    requires Untouched(a, b, but)
    requires but.Some? ==> but.value < |a| && a[but.value].pins == 0 && b[but.value].pins == 0
    ensures PinnedKept(a, b)
  {
  }

  /** Loading a page into an empty frame shows the page as it was. */
  lemma Loaded(frames: seq<Option<Page>>, frames': seq<Option<Page>>, meta: seq<FrameMeta>, meta': seq<FrameMeta>,
               table: map<PageId, nat>, table': map<PageId, nat>, disk: Disk, readers: seq<nat>, writer: seq<bool>,
               i: nat, id: PageId)
    requires TableOk(table, meta) && FramesOk(frames, meta, disk) && PinsOk(meta, readers, writer)
    requires CleanOk(frames, meta, writer, disk)
    requires i < |meta| && meta[i].occupant == None && meta[i].pins == 0 && id !in table && id < |disk|
    requires frames' == frames[i := Some(disk[id])] && table' == table[id := i]
    requires meta' == meta[i := FrameMeta(Some(id), 0, false, false, disk[id].lsn)]
    ensures TableOk(table', meta') && FramesOk(frames', meta', disk) && PinsOk(meta', readers, writer)
    ensures CleanOk(frames', meta', writer, disk)
    ensures ViewOf(disk, frames', table') == ViewOf(disk, frames, table)
  {
    assert TableOk(table', meta') by {
      forall k | 0 <= k < |meta'| && meta'[k].occupant.Some?
        ensures meta'[k].occupant.value in table' && table'[meta'[k].occupant.value] == k
      {
        if k != i { assert meta[k].occupant.value in table && table[meta[k].occupant.value] == k; }
      }
    }
    forall x | 0 <= x < |disk| ensures Shown(disk, frames', table', x) == Shown(disk, frames, table, x) {
      if x in table {
        assert meta[table[x]].occupant == Some(x) && table[x] != i;
      }
    }
  }

  lemma PinKeeps(meta: seq<FrameMeta>, meta': seq<FrameMeta>, frames: seq<Option<Page>>, disk: Disk,
                 table: map<PageId, nat>, writer: seq<bool>, writer': seq<bool>, i: nat)
    requires TableOk(table, meta) && FramesOk(frames, meta, disk) && |meta| == |writer| == |writer'|
    requires CleanOk(frames, meta, writer, disk)
    requires i < |meta| == |meta'| && meta' == meta[i := meta[i].(pins := meta'[i].pins, referenced := true)]
    requires forall k :: 0 <= k < |writer| && writer[k] ==> writer'[k]
    ensures TableOk(table, meta') && FramesOk(frames, meta', disk) && CleanOk(frames, meta', writer', disk)
  {
  }

  lemma CloseKeeps(meta: seq<FrameMeta>, meta': seq<FrameMeta>, frames: seq<Option<Page>>, disk: Disk,
                   table: map<PageId, nat>, writer: seq<bool>, writer': seq<bool>, g: Guard)
    requires TableOk(table, meta) && FramesOk(frames, meta, disk) && |meta| == |writer|
    requires CleanOk(frames, meta, writer, disk)
    requires g.frame < |meta| == |meta'| && writer' == writer[g.frame := false] && (writer[g.frame] ==> g.write)
    requires meta' == meta[g.frame := meta[g.frame].(pins := meta'[g.frame].pins,
                                                     dirty := meta[g.frame].dirty || g.write)]
    ensures TableOk(table, meta') && FramesOk(frames, meta', disk) && CleanOk(frames, meta', writer', disk)
  {
  }

  lemma CleanKeeps(meta: seq<FrameMeta>, meta': seq<FrameMeta>, frames: seq<Option<Page>>, disk: Disk,
                   table: map<PageId, nat>, readers: seq<nat>, writer: seq<bool>, i: nat)
    requires TableOk(table, meta) && FramesOk(frames, meta, disk) && PinsOk(meta, readers, writer)
    requires CleanOk(frames, meta, writer, disk)
    requires i < |meta| && meta' == meta[i := meta[i].(dirty := false)]
    requires frames[i].Some? ==> ContentOf(disk[frames[i].value.id]) == ContentOf(frames[i].value)
    ensures TableOk(table, meta') && FramesOk(frames, meta', disk) && PinsOk(meta', readers, writer)
    ensures CleanOk(frames, meta', writer, disk)
  {
  }

  /** Rewriting the page of a write-latched frame changes this page and no other. */
  lemma Rewritten(frames: seq<Option<Page>>, frames': seq<Option<Page>>, meta: seq<FrameMeta>, writer: seq<bool>,
                  table: map<PageId, nat>, disk: Disk, i: nat, c: Content)
    requires TableOk(table, meta) && FramesOk(frames, meta, disk) && |writer| == |meta|
    requires CleanOk(frames, meta, writer, disk)
    requires i < |frames| && frames[i].Some? && writer[i]
    requires frames' == frames[i := Some(frames[i].value.(kind := c.kind, payload := c.payload))]
    ensures FramesOk(frames', meta, disk) && CleanOk(frames', meta, writer, disk)
    ensures ViewOf(disk, frames', table) == ViewOf(disk, frames, table)[frames[i].value.id := c]
  {
    var id := frames[i].value.id;
    assert id in table && table[id] == i;
    forall x | 0 <= x < |disk| && x != id ensures Shown(disk, frames', table, x) == Shown(disk, frames, table, x) {
      if x in table {
        assert meta[table[x]].occupant == Some(x) && table[x] != i;
      }
    }
  }

  /** With no dirty frame and no open write guard the disk shows everything. */
  lemma AllClean(frames: seq<Option<Page>>, meta: seq<FrameMeta>, writer: seq<bool>, table: map<PageId, nat>,
                 disk: Disk)
    requires TableOk(table, meta) && FramesOk(frames, meta, disk) && |writer| == |meta|
    requires CleanOk(frames, meta, writer, disk)
    requires forall i :: 0 <= i < |meta| ==> !meta[i].dirty
    ensures (forall i :: 0 <= i < |meta| ==> !writer[i]) ==>
      forall id :: 0 < id < |disk| ==> ContentOf(disk[id]) == ViewOf(disk, frames, table)[id]
  {
  }

  /** Frames pinned before still hold the pages of their guards. */
  lemma StillLive(a: seq<FrameMeta>, b: seq<FrameMeta>, readers: seq<nat>, writer: seq<bool>)
    requires PinnedKept(a, b) && PinsOk(a, readers, writer)
    ensures forall i :: 0 <= i < |a| && (readers[i] > 0 || writer[i]) ==> b[i].occupant == a[i].occupant
    ensures |a| == |b| == |readers| == |writer|
  {
  }

  lemma NobodyElse(table: map<PageId, nat>, a: seq<FrameMeta>, b: seq<FrameMeta>, readers: seq<nat>, writer: seq<bool>,
                   id: PageId, write: bool, f: nat)
    requires PinnedKept(a, b) && PinsOk(a, readers, writer) && f < |b|
    requires if id in table then table[id] == f && !writer[f] && (write ==> readers[f] == 0) else a[f].pins == 0
    ensures !writer[f] && (write ==> readers[f] == 0)
  {
  }

  lemma PinCounts(meta: seq<FrameMeta>, meta': seq<FrameMeta>, readers: seq<nat>, readers': seq<nat>, writer: seq<bool>,
                  writer': seq<bool>, f: nat, write: bool)
    requires PinsOk(meta, readers, writer) && f < |meta| && meta[f].occupant.Some? && !writer[f]
    requires (write ==> readers[f] == 0)
    requires meta' == meta[f := meta[f].(pins := meta[f].pins + 1, referenced := true)]
    requires readers' == (if write then readers else readers[f := readers[f] + 1])
    requires writer' == (if write then writer[f := true] else writer)
    ensures PinsOk(meta', readers', writer')
  {
  }

  lemma WritesAdd(a: seq<FrameMeta>, b: seq<FrameMeta>, walAttached: bool, w0: seq<DiskWrite>, w1: seq<DiskWrite>,
                  w2: seq<DiskWrite>)
    requires NewWrites(a, walAttached, w0, w1) && NewWrites(b, walAttached, w1, w2) && |a| == |b|
    requires forall k :: 0 <= k < |a| ==> b[k] == a[k].(dirty := b[k].dirty) && (b[k].dirty ==> a[k].dirty)
    ensures NewWrites(a, walAttached, w0, w2)
  {
    forall k | |w0| <= k < |w2| ensures w2[k].walAttached == walAttached &&
        DirtyFrame(a, w2[k].page.id, w2[k].frameLsn) {
      if k < |w1| {
        assert w2[k] == w1[k];
      } else {
        var i :| 0 <= i < |b| && b[i].occupant == Some(w2[k].page.id) && b[i].lsn == w2[k].frameLsn && b[i].dirty;
        assert a[i].dirty && a[i].lsn == w2[k].frameLsn;
      }
    }
  }

  lemma NothingWritten(meta: seq<FrameMeta>, walAttached: bool, writes: seq<DiskWrite>)
    ensures NewWrites(meta, walAttached, writes, writes)
  {
  }

  lemma KeptAlone(meta: seq<FrameMeta>)
    ensures PinnedKept(meta, meta)
  {
  }

  lemma AllArePinned(meta: seq<FrameMeta>)
    ensures AllPinned(meta) <==> forall i :: 0 <= i < |meta| ==> meta[i].pins > 0
  {
  }

  lemma LoadKept(a: seq<FrameMeta>, b: seq<FrameMeta>, c: seq<FrameMeta>, i: nat)
    requires PinnedKept(a, b) && i < |b| == |c| && b[i].pins == 0
    requires c == b[i := FrameMeta(c[i].occupant, 0, false, false, c[i].lsn)]
    ensures PinnedKept(a, c) && a[i].pins == 0
  {
  }
}
