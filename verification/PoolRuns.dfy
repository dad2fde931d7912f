/** Whole runs of a buffer pool against the flat page store it stands for (src/buffer_pool.rs). Guards stay open
    from one operation to the next, so evictions meet pinned frames and the pool can be full. */
module PoolRuns {
  import opened Options
  import opened PageIds
  import opened BufferPools

  type DataPage = id: PageId | id > 0 witness 1

  /** What a caller can do. Open guards are numbered in the order in which they were opened. */
  datatype Op =
    | Open(id: DataPage, write: bool)
    | See(guard: nat)
    | Set(guard: nat, content: Content)
    | Drop(guard: nat)
    | Allocate(kind: PageType, header: Payload)
    | Bump(id: DataPage, lsn: nat)
    | Flush(id: DataPage)
    | FlushEverything

  datatype Answer = Done | Opened | Seen(content: Content) | Allocated(id: PageId) | OutOfRange(id: PageId) | Full

  datatype Held = Held(id: PageId, write: bool)

  /** A store without a cache, which lends out at most `limit` pages at a time. */
  datatype Flat = Flat(store: seq<Content>, held: seq<Held>, limit: nat)

  function Pages(held: seq<Held>): set<PageId> {
    set k | 0 <= k < |held| :: held[k].id
  }

  function Without<T>(s: seq<T>, k: nat): seq<T>
    requires k < |s|
  {
    s[..k] + s[k+1..]
  }

  /** What a thread may do without blocking itself: a page is not opened for writing and otherwise, nor flushed,
      while it is open. */
  predicate Allowed(flat: Flat, op: Op) {
    match op
    case Open(id, write) => forall k :: 0 <= k < |flat.held| && flat.held[k].id == id ==> !write && !flat.held[k].write
    case See(k) => k < |flat.held|
    case Set(k, _) => k < |flat.held| && flat.held[k].write
    case Drop(k) => k < |flat.held|
    case Flush(id) => forall k :: 0 <= k < |flat.held| ==> flat.held[k].id != id
    case FlushEverything => flat.held == []
    case _ => true
  }

  /** One operation on the flat store. A page that is not open is refused while all pages that can be lent out are. */
  function FlatStep(flat: Flat, op: Op): (r: (Flat, Answer))
    requires Allowed(flat, op)
    ensures op.Allocate? ==>
      var id := |flat.store|;
      && r.1 == Allocated(id) && r.0.held == flat.held && |r.0.store| == id + 1 && r.0.store[..id] == flat.store
      && r.0.store[id].kind == op.kind && forall i :: 0 <= i < PAYLOAD_SIZE ==> r.0.store[id].payload[i] == 0
  {
    match op
    case Open(id, write) =>
      if id !in Pages(flat.held) && |Pages(flat.held)| == flat.limit then (flat, Full)
      else if id >= |flat.store| then (flat, OutOfRange(id))
      else (flat.(held := flat.held + [Held(id, write)]), Opened)
    case See(k) =>
      var id := flat.held[k].id;
      (flat, if id < |flat.store| then Seen(flat.store[id]) else OutOfRange(id))
    case Set(k, content) =>
      if flat.held[k].id < |flat.store| then (flat.(store := flat.store[flat.held[k].id := content]), Done)
      else (flat, OutOfRange(flat.held[k].id))
    case Drop(k) => (flat.(held := Without(flat.held, k)), Done)
    case Allocate(kind, _) =>
      (flat.(store := flat.store + [Content(kind, seq(PAYLOAD_SIZE, _ => 0))]), Allocated(|flat.store|))
    case _ => (flat, Done)
  }

  /** Every operation of the script is allowed when its turn comes. */
  predicate AllAllowed(flat: Flat, script: seq<Op>)
    decreases |script|, 0
  {
    script == [] ||
    (AllAllowed(flat, script[..|script|-1]) && Allowed(FlatRun(flat, script[..|script|-1]).0, script[|script|-1]))
  }

  function FlatRun(flat: Flat, script: seq<Op>): (Flat, seq<Answer>)
    requires AllAllowed(flat, script)
    decreases |script|, 1
  {
    if script == [] then (flat, [])
    else
      var (flat', answers) := FlatRun(flat, script[..|script|-1]);
      var (flat'', answer) := FlatStep(flat', script[|script|-1]);
      (flat'', answers + [answer])
  }

  // ---- Open guards and the counts the pool keeps of them

  function ReadersOn(guards: seq<Guard>, f: nat): nat {
    if guards == [] then 0
    else
      ReadersOn(guards[..|guards|-1], f) +
      if guards[|guards|-1].frame == f && !guards[|guards|-1].write then 1 else 0
  }

  ghost predicate WrittenOn(guards: seq<Guard>, f: nat) {
    exists k :: 0 <= k < |guards| && guards[k].frame == f && guards[k].write
  }

  /** The pool counts exactly these guards. */
  ghost predicate Counts(readers: seq<nat>, writer: seq<bool>, guards: seq<Guard>) {
    && |readers| == |writer|
    && (forall f :: 0 <= f < |readers| ==> readers[f] == ReadersOn(guards, f))
    && (forall f :: 0 <= f < |writer| ==> (writer[f] <==> WrittenOn(guards, f)))
    && (forall j, k :: 0 <= j < k < |guards| && guards[j].frame == guards[k].frame ==>
          !guards[j].write && !guards[k].write)
  }

  ghost predicate AllLive(pool: BufferPool, guards: seq<Guard>)
    reads pool
  {
    forall k :: 0 <= k < |guards| ==> pool.Live(guards[k])
  }

  ghost predicate SameHeld(guards: seq<Guard>, held: seq<Held>) {
    |guards| == |held| && forall k :: 0 <= k < |held| ==> held[k] == Held(guards[k].page, guards[k].write)
  }

  /** The pool stands for the flat store, with these guards open. */
  ghost predicate Tracks(pool: BufferPool, guards: seq<Guard>, flat: Flat)
    reads pool
  {
    && pool.Valid() && |pool.disk| > 0 && flat.limit == pool.capacity && SameData(flat.store, pool.View())
    && Counts(pool.readers, pool.writer, guards) && AllLive(pool, guards) && SameHeld(guards, flat.held)
    && forall k :: 0 <= k < |flat.held| ==> flat.held[k].id > 0
  }

  lemma {:induction false} SomeReader(guards: seq<Guard>, f: nat)
    ensures ReadersOn(guards, f) > 0 <==> exists k :: 0 <= k < |guards| && guards[k].frame == f && !guards[k].write
  {
    if guards != [] {
      var n := |guards| - 1;
      SomeReader(guards[..n], f);
      assert forall k :: 0 <= k < n ==> guards[..n][k] == guards[k];
    }
  }

  ghost predicate Changed(readers: seq<nat>, writer: seq<bool>, readers': seq<nat>, writer': seq<bool>, f: nat) {
    && |readers'| == |readers| == |writer| == |writer'| && f < |readers|
    && forall i :: 0 <= i < |readers| && i != f ==> readers'[i] == readers[i] && writer'[i] == writer[i]
  }

  /** A guard more. */
  lemma CountsMore(readers: seq<nat>, writer: seq<bool>, readers': seq<nat>, writer': seq<bool>, guards: seq<Guard>,
                   g: Guard)
    requires Counts(readers, writer, guards) && Changed(readers, writer, readers', writer', g.frame)
    requires !writer[g.frame] && (g.write ==> readers[g.frame] == 0)
    requires readers'[g.frame] == readers[g.frame] + (if g.write then 0 else 1) && writer'[g.frame] == g.write
    ensures Counts(readers', writer', guards + [g])
  {
    var all := guards + [g];
    assert all[..|guards|] == guards;
    SomeReader(guards, g.frame);
    forall f | 0 <= f < |writer| ensures writer'[f] <==> WrittenOn(all, f) {
      if WrittenOn(guards, f) {
        var k :| 0 <= k < |guards| && guards[k].frame == f && guards[k].write;
        assert all[k] == guards[k];
      }
      if g.frame == f && g.write {
        assert all[|guards|] == g;
      }
    }
    forall j, k | 0 <= j < k < |all| && all[j].frame == all[k].frame ensures !all[j].write && !all[k].write {
      if k == |guards| {
        assert all[j] == guards[j];
      }
    }
  }

  lemma {:induction false} ReadersWithout(guards: seq<Guard>, k: nat, f: nat)
    requires k < |guards|
    ensures ReadersOn(Without(guards, k), f) ==
            ReadersOn(guards, f) - if guards[k].frame == f && !guards[k].write then 1 else 0
  {
    var n := |guards| - 1;
    if k == n {
      assert Without(guards, k) == guards[..n];
    } else {
      ReadersWithout(guards[..n], k, f);
      assert Without(guards, k)[..n-1] == Without(guards[..n], k);
    }
  }

  /** A guard less. */
  lemma CountsLess(readers: seq<nat>, writer: seq<bool>, readers': seq<nat>, writer': seq<bool>, guards: seq<Guard>,
                   k: nat)
    requires Counts(readers, writer, guards) && k < |guards|
    requires Changed(readers, writer, readers', writer', guards[k].frame)
    requires var g := guards[k];
      readers[g.frame] == readers'[g.frame] + (if g.write then 0 else 1) && !writer'[g.frame]
    ensures Counts(readers', writer', Without(guards, k))
  {
    var g, rest := guards[k], Without(guards, k);
    assert forall i :: 0 <= i < |rest| ==> rest[i] == guards[if i < k then i else i + 1];
    forall f | 0 <= f < |readers| ensures readers'[f] == ReadersOn(rest, f) {
      ReadersWithout(guards, k, f);
    }
    forall i | 0 <= i < |rest| && rest[i].frame == g.frame ensures !rest[i].write {
      assert rest[i] == guards[if i < k then i else i + 1];
    }
    forall f | 0 <= f < |writer| ensures writer'[f] <==> WrittenOn(rest, f) {
      if f != g.frame && WrittenOn(guards, f) {
        var i :| 0 <= i < |guards| && guards[i].frame == f && guards[i].write;
        assert rest[if i < k then i else i - 1] == guards[i];
      }
    }
  }

  // ---- Full pools

  lemma {:induction false} ImageSize(table: map<PageId, nat>, ids: set<PageId>)
    requires ids <= table.Keys && forall a, b :: a in ids && b in ids && table[a] == table[b] ==> a == b
    ensures |FramesOf(table, ids)| == |ids|
  {
    if ids != {} {
      var x :| x in ids;
      ImageSize(table, ids - {x});
      assert FramesOf(table, ids) == FramesOf(table, ids - {x}) + {table[x]};
    }
  }

  lemma {:induction false} SizeBelow(s: set<nat>, n: nat)
    requires forall x :: x in s ==> x < n
    ensures |s| <= n && (|s| == n <==> forall x: nat :: x < n ==> x in s)
  {
    if n == 0 {
      assert s == {};
    } else if n - 1 in s {
      SizeBelow(s - {n - 1}, n - 1);
    } else {
      SizeBelow(s, n - 1);
    }
  }

  /** Every open guard is on the frame its page is cached in. */
  lemma GuardsCached(pool: BufferPool, guards: seq<Guard>)
    requires pool.Valid() && AllLive(pool, guards)
    ensures forall k :: 0 <= k < |guards| ==>
      guards[k].page in pool.pageTable && pool.pageTable[guards[k].page] == guards[k].frame < pool.capacity
  {
    hide FramesOk, CleanOk, WalFirst, PinsOk;
  }

  /** The frames of the open pages. */
  ghost function FramesOf(table: map<PageId, nat>, ids: set<PageId>): set<nat>
    requires ids <= table.Keys
  {
    set id | id in ids :: table[id]
  }

  lemma InFrames(guards: seq<Guard>, held: seq<Held>, table: map<PageId, nat>, f: nat)
    requires SameHeld(guards, held)
    requires forall k :: 0 <= k < |guards| ==> guards[k].page in table && table[guards[k].page] == guards[k].frame
    ensures Pages(held) <= table.Keys
    ensures f in FramesOf(table, Pages(held)) <==> exists k :: 0 <= k < |guards| && guards[k].frame == f
  {
    if k :| 0 <= k < |guards| && guards[k].frame == f {
      assert held[k].id in Pages(held);
    }
    forall id | id in Pages(held) ensures exists k :: 0 <= k < |guards| && guards[k].page == id && id in table {
      var k :| 0 <= k < |held| && held[k].id == id;
      assert guards[k].page == id;
    }
  }

  /** All frames are pinned exactly if as many different pages are open as there are frames. */
  lemma FullIffPinned(pool: BufferPool, guards: seq<Guard>, flat: Flat)
    requires Tracks(pool, guards, flat)
    ensures AllPinned(pool.meta) <==> |Pages(flat.held)| == flat.limit
  {
    hide FramesOk, CleanOk, WalFirst, SameData, ViewOf, Counts, AllLive, SameHeld, Pages, FramesOf, PinsOk;
    var ids, table := Pages(flat.held), pool.pageTable;
    GuardsCached(pool, guards);
    InFrames(guards, flat.held, table, 0);
    forall f: nat | f < pool.capacity ensures f in FramesOf(table, ids) <==> pool.meta[f].pins > 0 {
      PinnedIffOpen(pool.meta, pool.readers, pool.writer, guards, f);
      InFrames(guards, flat.held, table, f);
    }
    FramesBelow(table, ids, pool.meta);
    FramesSize(table, ids, pool.meta);
    SizeBelow(FramesOf(table, ids), pool.capacity);
  }

  lemma FramesBelow(table: map<PageId, nat>, ids: set<PageId>, meta: seq<FrameMeta>)
    requires TableOk(table, meta) && ids <= table.Keys
    ensures forall f :: f in FramesOf(table, ids) ==> f < |meta|
  {
  }

  lemma FramesSize(table: map<PageId, nat>, ids: set<PageId>, meta: seq<FrameMeta>)
    requires TableOk(table, meta) && ids <= table.Keys
    ensures |FramesOf(table, ids)| == |ids|
  {
    ImageSize(table, ids);
  }

  lemma PinnedIffOpen(meta: seq<FrameMeta>, readers: seq<nat>, writer: seq<bool>, guards: seq<Guard>, f: nat)
    requires PinsOk(meta, readers, writer) && Counts(readers, writer, guards) && f < |meta|
    ensures meta[f].pins > 0 <==> exists k :: 0 <= k < |guards| && guards[k].frame == f
  {
    SomeReader(guards, f);
  }

  /** A page that the flat store lends out may be opened. */
  lemma MayOpen(pool: BufferPool, guards: seq<Guard>, flat: Flat, id: DataPage, write: bool)
    requires Tracks(pool, guards, flat) && Allowed(flat, Open(id, write))
    ensures pool.Free(id, write)
    ensures id in Pages(flat.held) ==> id in pool.pageTable
    ensures id !in Pages(flat.held) && id in pool.pageTable ==> !AllPinned(pool.meta)
    ensures id in pool.pageTable ==> id < |pool.disk|
  {
    hide CleanOk, WalFirst, SameData, ViewOf;
    FullIffPinned(pool, guards, flat);
    if id in pool.pageTable {
      var f := pool.pageTable[id];
      SomeReader(guards, f);
      PinnedIffOpen(pool.meta, pool.readers, pool.writer, guards, f);
      if k :| 0 <= k < |guards| && guards[k].frame == f {
        assert flat.held[k].id == id && id in Pages(flat.held);
      }
    }
    if id in Pages(flat.held) {
      var k :| 0 <= k < |flat.held| && flat.held[k].id == id;
      assert guards[k].page == id;
    }
  }

  lemma MayFlush(pool: BufferPool, guards: seq<Guard>, flat: Flat, id: PageId)
    requires Tracks(pool, guards, flat) && forall k :: 0 <= k < |flat.held| ==> flat.held[k].id != id
    ensures id in pool.pageTable ==> pool.Unpinned(pool.pageTable[id])
  {
    hide CleanOk, WalFirst, SameData, ViewOf, FramesOk;
    FullIffPinned(pool, guards, flat);
    if id in pool.pageTable {
      PinnedIffOpen(pool.meta, pool.readers, pool.writer, guards, pool.pageTable[id]);
    }
  }

  lemma MayFlushAll(pool: BufferPool, guards: seq<Guard>, flat: Flat)
    requires Tracks(pool, guards, flat) && flat.held == []
    ensures forall i :: 0 <= i < |pool.meta| ==> pool.Unpinned(i)
  {
    hide CleanOk, WalFirst, SameData, ViewOf, FramesOk, TableOk;
    forall i | 0 <= i < |pool.meta| ensures pool.Unpinned(i) {
      PinnedIffOpen(pool.meta, pool.readers, pool.writer, guards, i);
    }
  }

  /** A frame that is not pinned is not being written. */
  lemma NotWritten(pool: BufferPool)
    requires pool.Valid()
    ensures forall i :: 0 <= i < |pool.meta| && pool.Unpinned(i) ==> !pool.writer[i]
  {
    hide CleanOk, WalFirst, ViewOf, FramesOk, TableOk;
  }

  /** The page LSN of a cached page is raised to `lsn`, and no other. */
  ghost predicate Bumped(before: seq<FrameMeta>, after: seq<FrameMeta>, id: PageId, lsn: nat) {
    && |after| == |before|
    && forall i :: 0 <= i < |after| ==>
         after[i].lsn == if before[i].occupant == Some(id) && lsn > before[i].lsn then lsn else before[i].lsn
  }

  // ---- Runs

  /** Opening a guard on the pool answers as the flat store does. */
  method OpenStep(pool: BufferPool, id: DataPage, write: bool, guards: seq<Guard>, ghost flat: Flat)
    returns (answer: Answer, guards': seq<Guard>)
    requires Tracks(pool, guards, flat) && Allowed(flat, Open(id, write))
    modifies pool
    ensures Tracks(pool, guards', FlatStep(flat, Open(id, write)).0) && answer == FlatStep(flat, Open(id, write)).1
    ensures pool.walAttached == old(pool.walAttached)
    ensures NewWrites(old(pool.meta), pool.walAttached, old(pool.writes), pool.writes)
    ensures old(pool.durable) <= pool.durable
  {
    hide TableOk, FramesOk, PinsOk, CleanOk, WalFirst, ViewOf, NewWrites, AllPinned, Counts, Pages;
    MayOpen(pool, guards, flat, id, write);
    FullIffPinned(pool, guards, flat);
    ghost var readers, writer := pool.readers, pool.writer;
    var r;
    if write {
      r := pool.WritePage(id);
    } else {
      r := pool.ReadPage(id);
    }
    guards' := guards;
    if r.Err? {
      return if r.error.BufferPoolFull? then Full else OutOfRange(id), guards;
    }
    CountsMore(readers, writer, pool.readers, pool.writer, guards, r.value);
    guards' := guards + [r.value];
    answer := Opened;
  }

  /** Dropping a guard. */
  method DropStep(pool: BufferPool, k: nat, guards: seq<Guard>, ghost flat: Flat) returns (guards': seq<Guard>)
    requires Tracks(pool, guards, flat) && k < |guards|
    modifies pool
    ensures Tracks(pool, guards', flat.(held := Without(flat.held, k)))
    ensures pool.walAttached == old(pool.walAttached) && pool.writes == old(pool.writes)
    ensures pool.durable == old(pool.durable)
  {
    hide TableOk, FramesOk, PinsOk, CleanOk, WalFirst, ViewOf, Counts;
    ghost var readers, writer := pool.readers, pool.writer;
    pool.Close(guards[k]);
    CountsLess(readers, writer, pool.readers, pool.writer, guards, k);
    guards' := Without(guards, k);
    OthersLive(pool, guards, k);
  }

  /** Flushing one page or all of them. */
  method FlushStep(pool: BufferPool, op: Op, guards: seq<Guard>, ghost flat: Flat)
    requires Tracks(pool, guards, flat) && Allowed(flat, op) && (op.Flush? || op.FlushEverything?)
    modifies pool
    ensures Tracks(pool, guards, flat) && pool.walAttached == old(pool.walAttached)
    ensures NewWrites(old(pool.meta), pool.walAttached, old(pool.writes), pool.writes)
    ensures old(pool.durable) <= pool.durable
    ensures op.Flush? && op.id < |pool.disk| ==> ContentOf(pool.disk[op.id]) == pool.View()[op.id]
    ensures op.FlushEverything? ==> forall id :: 0 < id < |pool.disk| ==> ContentOf(pool.disk[id]) == pool.View()[id]
  {
    hide TableOk, FramesOk, PinsOk, CleanOk, WalFirst, ViewOf, NewWrites, Counts, Pages;
    NotWritten(pool);
    if op.Flush? {
      MayFlush(pool, guards, flat, op.id);
      pool.KnownPage(op.id);
      pool.FlushPage(op.id);
    } else {
      MayFlushAll(pool, guards, flat);
      pool.FlushAll();
    }
  }

  /** One operation on the pool answers as it does on the flat store. */
  method Step(pool: BufferPool, op: Op, guards: seq<Guard>, ghost flat: Flat)
    returns (answer: Answer, guards': seq<Guard>)
    requires Tracks(pool, guards, flat) && Allowed(flat, op)
    modifies pool
    ensures Tracks(pool, guards', FlatStep(flat, op).0) && answer == FlatStep(flat, op).1
    ensures pool.walAttached == old(pool.walAttached)
    ensures NewWrites(old(pool.meta), pool.walAttached, old(pool.writes), pool.writes)
    ensures old(pool.durable) <= pool.durable
    ensures op.Bump? ==> Bumped(old(pool.meta), pool.meta, op.id, op.lsn)
    ensures op.Flush? && op.id < |pool.disk| ==> ContentOf(pool.disk[op.id]) == pool.View()[op.id]
    ensures op.FlushEverything? ==> forall id :: 0 < id < |pool.disk| ==> ContentOf(pool.disk[id]) == pool.View()[id]
  {
    hide TableOk, FramesOk, PinsOk, CleanOk, WalFirst, ViewOf, NewWrites, AllPinned, Counts, Pages;
    NothingWritten(pool.meta, pool.walAttached, pool.writes);
    guards' := guards;
    match op
    case Open(id, write) =>
      answer, guards' := OpenStep(pool, id, write, guards, flat);
    case See(k) =>
      var content := pool.PageOf(guards[k]);
      answer := Seen(content);
    case Set(k, content) =>
      pool.SetPage(guards[k], content);
      answer := Done;
    case Drop(k) =>
      guards' := DropStep(pool, k, guards, flat);
      answer := Done;
    case Allocate(kind, header) =>
      var id := pool.AllocatePage(kind, header);
      answer := Allocated(id);
    case Bump(id, lsn) =>
      pool.BumpPageLsn(id, lsn);
      answer := Done;
    case _ =>
      FlushStep(pool, op, guards, flat);
      answer := Done;
  }

  /** Over any run the cache never shows, whatever guards are held meanwhile: every answer is that of the flat store,
      a full pool included. With a log attached, every write of the run came after its log records were durable. */
  method Run(pool: BufferPool, script: seq<Op>, guards: seq<Guard>, ghost flat: Flat)
    returns (answers: seq<Answer>, guards': seq<Guard>)
    requires Tracks(pool, guards, flat) && AllAllowed(flat, script)
    modifies pool
    ensures Tracks(pool, guards', FlatRun(flat, script).0) && answers == FlatRun(flat, script).1
    ensures pool.walAttached == old(pool.walAttached) && old(pool.writes) <= pool.writes
    ensures old(pool.walAttached) ==> forall k :: |old(pool.writes)| <= k < |pool.writes| ==>
      pool.writes[k].page.lsn == pool.writes[k].frameLsn <= pool.writes[k].durable <= pool.durable
  {
    hide TableOk, FramesOk, PinsOk, CleanOk, ViewOf, Counts, AllLive, SameHeld, SameData, Allowed;
    answers, guards' := [], guards;
    ghost var now := flat;
    var i := 0;
    assert script[..0] == [];
    while i < |script|
      invariant i <= |script| && AllAllowed(flat, script[..i]) && FlatRun(flat, script[..i]) == (now, answers)
      invariant Tracks(pool, guards', now)
      invariant old(pool.writes) <= pool.writes && pool.walAttached == old(pool.walAttached)
      invariant pool.walAttached ==> forall k :: |old(pool.writes)| <= k < |pool.writes| ==> pool.writes[k].walAttached
    {
      assert script[..i+1][..i] == script[..i];
      AllowedNow(flat, script, i);
      var answer;
      answer, guards' := Step(pool, script[i], guards', now);
      now := FlatStep(now, script[i]).0;
      answers := answers + [answer];
      i := i + 1;
    }
    assert script[..|script|] == script;
  }

  /** The first operations of an allowed script are allowed, and so is the next. */
  lemma {:induction false} AllowedNow(flat: Flat, script: seq<Op>, i: nat)
    requires AllAllowed(flat, script) && i < |script|
    ensures AllAllowed(flat, script[..i+1])
    ensures AllAllowed(flat, script[..i]) && Allowed(FlatRun(flat, script[..i]).0, script[i])
    decreases |script|
  {
    hide Allowed, FlatStep;
    if i + 1 == |script| {
      assert script[..i+1] == script;
    } else {
      AllowedNow(flat, script[..|script|-1], i);
      assert script[..|script|-1][..i] == script[..i] && script[..|script|-1][..i+1] == script[..i+1];
    }
  }

  /** A pool on which nothing is open. */
  lemma NothingOpen(pool: BufferPool)
    requires pool.Valid() && |pool.disk| > 0
    requires forall i :: 0 <= i < pool.capacity ==> pool.readers[i] == 0 && !pool.writer[i]
    ensures Tracks(pool, [], Flat(pool.View(), [], pool.capacity))
  {
    hide TableOk, FramesOk, PinsOk, CleanOk, WalFirst, ViewOf;
  }

  function StoreOf(disk: Disk): seq<Content> {
    seq(|disk|, id requires 0 <= id < |disk| => ContentOf(disk[id]))
  }

  /** A pool with a log attached runs a script over a file, closes with a flush, and a new pool opens the file it
      leaves: the new pool shows what the flat store holds, so nothing written was lost with the cache. */
  method RunAndReopen(capacity: nat, disk: Disk, script: seq<Op>, capacity': nat)
    returns (answers: seq<Answer>, pool: BufferPool, reopened: BufferPool)
    requires capacity > 0 && capacity' > 0 && |disk| > 0
    requires AllAllowed(Flat(StoreOf(disk), [], capacity), script)
    requires FlatRun(Flat(StoreOf(disk), [], capacity), script).0.held == []
    ensures var (flat, expected) := FlatRun(Flat(StoreOf(disk), [], capacity), script);
      && answers == expected
      && Tracks(reopened, [], Flat(flat.store, [], capacity')) && reopened.pageTable == map[]
    ensures forall k :: 0 <= k < |pool.writes| ==>
      pool.writes[k].page.lsn == pool.writes[k].frameLsn <= pool.writes[k].durable <= pool.durable
  {
    hide TableOk, FramesOk, PinsOk, CleanOk, ViewOf, Counts, AllLive, SameHeld, Allowed, FlatRun, AllAllowed,
      DirtyFrame;
    pool := new BufferPool(capacity, disk);
    assert pool.View() == StoreOf(disk);
    pool.AttachWal();
    NothingOpen(pool);
    var guards;
    answers, guards := Run(pool, script, [], Flat(StoreOf(disk), [], capacity));
    ghost var flat := FlatRun(Flat(StoreOf(disk), [], capacity), script).0;
    MayFlushAll(pool, guards, flat);
    AllUnwritten(pool, guards, flat);
    pool.FlushAll();
    reopened := new BufferPool(capacity', pool.disk);
    NothingOpen(reopened);
  }

  /** With nothing open no frame is being written. */
  lemma AllUnwritten(pool: BufferPool, guards: seq<Guard>, flat: Flat)
    requires Tracks(pool, guards, flat) && flat.held == []
    ensures forall i :: 0 <= i < |pool.meta| ==> !pool.writer[i]
  {
    hide TableOk, FramesOk, CleanOk, WalFirst, ViewOf;
  }

  lemma OthersLive(pool: BufferPool, guards: seq<Guard>, k: nat)
    requires |pool.readers| == |pool.writer| == |pool.meta|
    requires k < |guards| && Counts(pool.readers, pool.writer, Without(guards, k))
    requires forall i :: 0 <= i < |guards| ==>
      guards[i].frame < |pool.meta| && pool.meta[guards[i].frame].occupant == Some(guards[i].page)
    ensures AllLive(pool, Without(guards, k))
  {
    var rest := Without(guards, k);
    forall i | 0 <= i < |rest| ensures pool.Live(rest[i]) {
      assert rest[i] == guards[if i < k then i else i + 1];
      SomeReader(rest, rest[i].frame);
    }
  }
}
