/** The locks of the buffer pool under many threads (src/buffer_pool.rs): the mutex `Inner` over the page table and
    pins, one latch per frame, and the mutexes of the log and of the disk, which are taken last of all. A step is
    what one thread does between two waits. */
module LatchProtocol {
  import opened Options
  import opened PageIds

  type Thread = nat
  type FrameNo = nat
  type GuardId = nat

  /** `Pinned`: waits for its latch. `Latched`: in use. `Released`: the latch is gone, the pin not yet. */
  datatype Phase = Pinned | Latched | Released

  /** What a page is pinned for. `Peeking` reads its page LSN and takes no latch. */
  datatype Use = Reading | Writing | Peeking

  datatype Guard = Guard(owner: Thread, page: PageId, frame: FrameNo, use: Use, phase: Phase)

  /** The mutexes of the log writer and of the disk manager. */
  datatype Lock = Log | Disk

  /** A thread that waits for such a mutex, or holds it. Meanwhile it does nothing else. */
  datatype LockUse = LockUse(lock: Lock, held: bool)

  /** Where a thread stands. It holds `Inner` exactly in `Locating`, `Evicting`, `EvictWrites` and `Loading`. */
  datatype Control =
    | Idle
    | WantsInner(page: PageId, use: Use)
    | Locating(page: PageId, use: Use)
    | Evicting(page: PageId, use: Use, frame: FrameNo, victim: PageId)
    | EvictWrites(page: PageId, use: Use, frame: FrameNo, victim: PageId)
    | Loading(page: PageId, use: Use, frame: FrameNo)
    | WantsLatch(guard: GuardId)
    | Unpinning(guard: GuardId)
    | FlushWaits(frame: FrameNo)
    | FlushWrites(frame: FrameNo)
    | FlushEnds(frame: FrameNo)

  datatype State = State(
    inner: Option<Thread>,
    table: map<PageId, FrameNo>,
    occupant: seq<Option<PageId>>,
    pins: seq<nat>,
    body: seq<Option<PageId>>,
    guards: map<GuardId, Guard>,
    threads: map<Thread, Control>,
    using: map<Thread, LockUse>)

  datatype Step =
    | Call(t: Thread, page: PageId, use: Use)
    | TakeInner(t: Thread)
    | Hit(t: Thread, g: GuardId)
    | MissEmpty(t: Thread, f: FrameNo)
    | MissEvict(t: Thread, f: FrameNo)
    | Full(t: Thread)
    | EvictLatch(t: Thread)
    | EvictWritten(t: Thread)
    | EvictBody(t: Thread)
    | LoadFails(t: Thread)
    | LoadBody(t: Thread, g: GuardId)
    | TakeLatch(t: Thread)
    | PeekLsn(t: Thread)
    | DropLatch(t: Thread, g: GuardId)
    | Unpin(t: Thread)
    | FlushStart(t: Thread, f: FrameNo)
    | FlushLatch(t: Thread)
    | FlushWrite(t: Thread)
    | FlushClean(t: Thread)
    | WantLock(t: Thread, lock: Lock)
    | TakeLock(t: Thread)
    | DropLock(t: Thread)

  function At(s: State, t: Thread): Control {
    if t in s.threads then s.threads[t] else Idle
  }

  /** A guard that holds the latch of frame `f`. */
  predicate HoldsByGuard(s: State, g: GuardId, f: FrameNo) {
    g in s.guards && s.guards[g].frame == f && s.guards[g].phase == Latched
  }

  /** The frame whose latch a thread holds to write its page to disk. */
  function WritesOut(c: Control): Option<FrameNo> {
    match c
    case FlushWrites(f) => Some(f)
    case EvictWrites(_, _, f, _) => Some(f)
    case _ => None
  }

  /** Thread `u` holds the latch of frame `f`, through a guard or while it writes the page out. */
  ghost predicate HoldsLatch(s: State, u: Thread, f: FrameNo) {
    WritesOut(At(s, u)) == Some(f) || exists g :: HoldsByGuard(s, g, f) && s.guards[g].owner == u
  }

  ghost predicate LatchFree(s: State, f: FrameNo) {
    && (forall u :: u in s.threads ==> WritesOut(s.threads[u]) != Some(f))
    && forall g :: g in s.guards ==> !HoldsByGuard(s, g, f)
  }

  /** No writer holds the latch of `f`. */
  ghost predicate LatchReadable(s: State, f: FrameNo) {
    && (forall u :: u in s.threads ==> WritesOut(s.threads[u]) != Some(f))
    && forall g :: g in s.guards && HoldsByGuard(s, g, f) ==> !s.guards[g].use.Writing?
  }

  /** Where in the pool the mutexes of the log and the disk are needed. Outside, a thread can need them at any time. */
  predicate MayNeed(c: Control, lock: Lock) {
    match lock
    case Log => c.Idle? || c.Evicting? || c.FlushWaits?
    case Disk => c.Idle? || c.EvictWrites? || c.Loading? || c.FlushWrites?
  }

  ghost predicate LockFree(s: State, lock: Lock) {
    forall u :: u in s.using ==> s.using[u] != LockUse(lock, true)
  }

  predicate OnLock(step: Step) {
    step.WantLock? || step.TakeLock? || step.DropLock?
  }

  ghost predicate Enabled(s: State, step: Step) {
    if OnLock(step) then LockEnabled(s, step) else step.t !in s.using && PoolEnabled(s, step)
  }

  ghost predicate LockEnabled(s: State, step: Step)
    requires OnLock(step)
  {
    if step.WantLock? then step.t !in s.using && MayNeed(At(s, step.t), step.lock)
    else if step.TakeLock? then step.t in s.using && !s.using[step.t].held && LockFree(s, s.using[step.t].lock)
    else step.t in s.using && s.using[step.t].held
  }

  /** A step of a thread that neither waits for the log or the disk nor holds them. */
  ghost predicate PoolEnabled(s: State, step: Step)
    requires !OnLock(step)
  {
    var n := |s.occupant|;
    match step
    case Call(t, page, use) => At(s, t) == Idle
    case TakeInner(t) => At(s, t).WantsInner? && s.inner.None?
    case Hit(t, g) => At(s, t).Locating? && At(s, t).page in s.table && s.table[At(s, t).page] < n && g !in s.guards
    case MissEmpty(t, f) => At(s, t).Locating? && At(s, t).page !in s.table && f < n && s.occupant[f].None?
    case MissEvict(t, f) =>
      && At(s, t).Locating? && At(s, t).page !in s.table && (forall i :: 0 <= i < n ==> s.occupant[i].Some?)
      && f < n && f < |s.pins| && s.pins[f] == 0
    case Full(t) =>
      && At(s, t).Locating? && At(s, t).page !in s.table
      && forall i :: 0 <= i < |s.pins| ==> s.pins[i] > 0
    case EvictLatch(t) => At(s, t).Evicting? && LatchFree(s, At(s, t).frame)
    case EvictWritten(t) => At(s, t).EvictWrites?
    case EvictBody(t) => At(s, t).Evicting? && At(s, t).frame < |s.body| && LatchFree(s, At(s, t).frame)
    case LoadFails(t) => At(s, t).Loading?
    case LoadBody(t, g) =>
      && At(s, t).Loading? && At(s, t).frame < |s.body| && At(s, t).frame < n && At(s, t).frame < |s.pins|
      && LatchFree(s, At(s, t).frame) && g !in s.guards
    case TakeLatch(t) =>
      && At(s, t).WantsLatch? && At(s, t).guard in s.guards
      && var guard := s.guards[At(s, t).guard];
         !guard.use.Peeking? && if guard.use.Writing? then LatchFree(s, guard.frame) else LatchReadable(s, guard.frame)
    case PeekLsn(t) =>
      At(s, t).WantsLatch? && At(s, t).guard in s.guards && s.guards[At(s, t).guard].use.Peeking? && s.inner.None?
    case DropLatch(t, g) => At(s, t) == Idle && g in s.guards && s.guards[g].owner == t && s.guards[g].phase == Latched
    case Unpin(t) => At(s, t).Unpinning? && s.inner.None? && At(s, t).guard in s.guards &&
        s.guards[At(s, t).guard].frame < |s.pins|
    case FlushStart(t, f) => At(s, t) == Idle && s.inner.None? && f < n
    case FlushLatch(t) => At(s, t).FlushWaits? && LatchFree(s, At(s, t).frame)
    case FlushWrite(t) => At(s, t).FlushWrites?
    case FlushClean(t) => At(s, t).FlushEnds? && s.inner.None?
  }

  function Dec(n: nat): nat {
    if n == 0 then 0 else n - 1
  }

  /** Pins frame `f` for a new guard, lets go of `Inner` and goes for the latch. */
  function Pinning(s: State, t: Thread, g: GuardId, page: PageId, f: FrameNo, use: Use): State
    requires f < |s.pins|
  {
    s.(inner := None, pins := s.pins[f := s.pins[f] + 1], guards := s.guards[g := Guard(t, page, f, use, Pinned)],
       threads := s.threads[t := WantsLatch(g)])
  }

  function Apply(s: State, step: Step): State
    requires Enabled(s, step) && |s.pins| == |s.occupant| == |s.body|
  {
    match step
    case Call(t, page, use) => s.(threads := s.threads[t := WantsInner(page, use)])
    case TakeInner(t) => s.(inner := Some(t), threads := s.threads[t := Locating(s.threads[t].page, s.threads[t].use)])
    case Hit(t, g) =>
      var c := s.threads[t];
      Pinning(s, t, g, c.page, s.table[c.page], c.use)
    case MissEmpty(t, f) => s.(threads := s.threads[t := Loading(s.threads[t].page, s.threads[t].use, f)])
    case MissEvict(t, f) =>
      var c := s.threads[t];
      s.(occupant := s.occupant[f := None], threads := s.threads[t := Evicting(c.page, c.use, f, s.occupant[f].value)])
    case Full(t) => s.(inner := None, threads := s.threads[t := Idle])
    case EvictLatch(t) =>
      var c := s.threads[t];
      s.(threads := s.threads[t := EvictWrites(c.page, c.use, c.frame, c.victim)])
    case EvictWritten(t) =>
      var c := s.threads[t];
      s.(threads := s.threads[t := Evicting(c.page, c.use, c.frame, c.victim)])
    case EvictBody(t) =>
      var c := s.threads[t];
      s.(body := s.body[c.frame := None], table := s.table - {c.victim},
         threads := s.threads[t := Loading(c.page, c.use, c.frame)])
    case LoadFails(t) => s.(inner := None, threads := s.threads[t := Idle])
    case LoadBody(t, g) =>
      var c := s.threads[t];
      var s' := s.(body := s.body[c.frame := Some(c.page)], occupant := s.occupant[c.frame := Some(c.page)],
                   table := s.table[c.page := c.frame], pins := s.pins[c.frame := 0]);
      Pinning(s', t, g, c.page, c.frame, c.use)
    case TakeLatch(t) =>
      var g := s.threads[t].guard;
      s.(guards := s.guards[g := s.guards[g].(phase := Latched)], threads := s.threads[t := Idle])
    case PeekLsn(t) =>
      var g := s.threads[t].guard;
      s.(guards := s.guards[g := s.guards[g].(phase := Released)], threads := s.threads[t := Unpinning(g)])
    case DropLatch(t, g) =>
      s.(guards := s.guards[g := s.guards[g].(phase := Released)], threads := s.threads[t := Unpinning(g)])
    case Unpin(t) =>
      var g := s.threads[t].guard;
      var f := s.guards[g].frame;
      s.(pins := s.pins[f := Dec(s.pins[f])], guards := s.guards - {g}, threads := s.threads[t := Idle])
    case FlushStart(t, f) => s.(threads := s.threads[t := FlushWaits(f)])
    case FlushLatch(t) => s.(threads := s.threads[t := FlushWrites(s.threads[t].frame)])
    case FlushWrite(t) => s.(threads := s.threads[t := FlushEnds(s.threads[t].frame)])
    case FlushClean(t) => s.(threads := s.threads[t := Idle])
    case WantLock(t, lock) => s.(using := s.using[t := LockUse(lock, false)])
    case TakeLock(t) => s.(using := s.using[t := s.using[t].(held := true)])
    case DropLock(t) => s.(using := s.using - {t})
  }

  predicate Start(s: State) {
    && s.inner.None? && s.table == map[] && s.guards == map[] && s.threads == map[] && s.using == map[]
    && |s.occupant| == |s.pins| == |s.body|
    && forall i :: 0 <= i < |s.occupant| ==> s.occupant[i].None? && s.pins[i] == 0 && s.body[i].None?
  }

  // ---- The invariant

  /** A victim is on its way out. */
  predicate Leaving(c: Control) {
    c.Evicting? || c.EvictWrites?
  }

  predicate OwnsInner(c: Control) {
    c.Locating? || Leaving(c) || c.Loading?
  }

  function GuardsOn(guards: map<GuardId, Guard>, f: FrameNo): set<GuardId> {
    set g | g in guards && guards[g].frame == f
  }

  /** `Inner` has exactly the holder it names. */
  ghost predicate InnerOk(s: State) {
    forall t :: t in s.threads ==> (OwnsInner(s.threads[t]) <==> s.inner == Some(t))
  }

  ghost predicate InnerHolderKnown(s: State) {
    s.inner.Some? ==> s.inner.value in s.threads
  }

  /** Frame `f` is known to hold page `p`, and does. */
  predicate Holds(s: State, f: FrameNo, p: PageId) {
    f < |s.occupant| && f < |s.body| && s.occupant[f] == Some(p) && s.body[f] == Some(p)
  }

  /** Every guard's page is in its frame. */
  ghost predicate GuardsHold(s: State) {
    forall g :: g in s.guards ==> Holds(s, s.guards[g].frame, s.guards[g].page)
  }

  /** A frame is pinned once per guard. */
  ghost predicate PinsCount(s: State) {
    forall f :: 0 <= f < |s.pins| ==> s.pins[f] == |GuardsOn(s.guards, f)|
  }

  ghost predicate GuardsOk(s: State) {
    GuardsHold(s) && PinsCount(s)
  }

  /** Guards in transit belong to the thread that moves them. */
  ghost predicate GuardsInTransit(s: State) {
    && (forall g :: g in s.guards && s.guards[g].phase == Pinned ==> At(s, s.guards[g].owner) == WantsLatch(g))
    && (forall g :: g in s.guards && s.guards[g].phase == Released ==> At(s, s.guards[g].owner) == Unpinning(g))
  }

  ghost predicate Movers(s: State) {
    && (forall t :: t in s.threads && s.threads[t].WantsLatch? ==> Moving(s, s.threads[t].guard, t, Pinned))
    && (forall t :: t in s.threads && s.threads[t].Unpinning? ==> Moving(s, s.threads[t].guard, t, Released))
  }

  predicate Moving(s: State, g: GuardId, t: Thread, phase: Phase) {
    g in s.guards && s.guards[g].owner == t && s.guards[g].phase == phase
  }

  /** A page in the table is in its frame, except for a victim on its way out. */
  ghost predicate TableHolds(s: State) {
    forall p :: p in s.table ==> Holds(s, s.table[p], p) || LeavingAs(s, s.table[p], p)
  }

  /** An occupant is in the table. */
  ghost predicate OccupantsListed(s: State) {
    forall f :: 0 <= f < |s.occupant| && s.occupant[f].Some? ==>
      s.occupant[f].value in s.table && s.table[s.occupant[f].value] == f
  }

  ghost predicate TableOk(s: State) {
    TableHolds(s) && OccupantsListed(s)
  }

  predicate LeavingAs(s: State, f: FrameNo, p: PageId) {
    s.inner.Some? && var c := At(s, s.inner.value); Leaving(c) && c.frame == f && c.victim == p
  }

  /** A frame being refilled is empty and has no pin. */
  ghost predicate FillOk(s: State) {
    forall t :: t in s.threads && (Leaving(s.threads[t]) || s.threads[t].Loading?) ==>
      && s.threads[t].frame < |s.occupant| && s.occupant[s.threads[t].frame].None?
      && s.threads[t].page !in s.table
      && (Leaving(s.threads[t]) ==>
            s.threads[t].victim in s.table && s.table[s.threads[t].victim] == s.threads[t].frame)
  }

  ghost predicate Inv(s: State) {
    && |s.occupant| == |s.pins| == |s.body|
    && InnerOk(s) && InnerHolderKnown(s) && GuardsOk(s) && GuardsInTransit(s) && Movers(s) && TableOk(s) && FillOk(s)
  }

  lemma StartInv(s: State)
    requires Start(s)
    ensures Inv(s)
  {
    forall f | 0 <= f < |s.pins| ensures s.pins[f] == |GuardsOn(s.guards, f)| {
      assert GuardsOn(s.guards, f) == {};
    }
  }

  /** A new guard counts on its own frame only. */
  lemma GuardAdded(guards: map<GuardId, Guard>, g: GuardId, guard: Guard)
    requires g !in guards
    ensures forall f :: |GuardsOn(guards[g := guard], f)| == |GuardsOn(guards, f)| + if f == guard.frame then 1 else 0
  {
    forall f ensures |GuardsOn(guards[g := guard], f)| == |GuardsOn(guards, f)| + if f == guard.frame then 1 else 0 {
      assert GuardsOn(guards[g := guard], f) == GuardsOn(guards, f) + if f == guard.frame then {g} else {};
    }
  }

  lemma GuardRemoved(guards: map<GuardId, Guard>, g: GuardId)
    requires g in guards
    ensures forall f :: |GuardsOn(guards, f)| == |GuardsOn(guards - {g}, f)| + if f == guards[g].frame then 1 else 0
  {
    forall f ensures |GuardsOn(guards, f)| == |GuardsOn(guards - {g}, f)| + if f == guards[g].frame then 1 else 0 {
      assert GuardsOn(guards, f) == GuardsOn(guards - {g}, f) + if f == guards[g].frame then {g} else {};
      assert g !in GuardsOn(guards - {g}, f);
    }
  }

  lemma GuardMoved(guards: map<GuardId, Guard>, g: GuardId, phase: Phase)
    requires g in guards
    ensures forall f :: GuardsOn(guards[g := guards[g].(phase := phase)], f) == GuardsOn(guards, f)
  {
  }

  /** No guard is on an empty frame. */
  lemma EmptyUnpinned(s: State, f: FrameNo)
    requires Inv(s) && f < |s.occupant| && s.occupant[f].None?
    ensures GuardsOn(s.guards, f) == {} && s.pins[f] == 0
  {
    forall g | g in s.guards ensures s.guards[g].frame != f {
      assert Holds(s, s.guards[g].frame, s.guards[g].page);
    }
  }

  /** An unpinned frame has no guard. */
  lemma NoGuardOn(s: State, f: FrameNo)
    requires GuardsOk(s) && f < |s.pins| && s.pins[f] == 0
    ensures forall g :: g in s.guards ==> s.guards[g].frame != f
  {
    forall g | g in s.guards ensures s.guards[g].frame != f {
      assert s.guards[g].frame == f ==> g in GuardsOn(s.guards, f);
    }
  }

  /** A page found in the table is in its frame. */
  lemma HitHolds(s: State, t: Thread)
    requires Inv(s) && At(s, t).Locating? && At(s, t).page in s.table
    ensures Holds(s, s.table[At(s, t).page], At(s, t).page) && s.inner == Some(t)
  {
    hide GuardsOk, GuardsInTransit, Movers, FillOk;
  }

  // ---- What the steps change

  /** Steps that change neither guards nor frames. */
  predicate Quiet(step: Step) {
    match step
    case Hit(_, _) => false
    case MissEvict(_, _) => false
    case EvictBody(_) => false
    case LoadBody(_, _) => false
    case TakeLatch(_) => false
    case PeekLsn(_) => false
    case DropLatch(_, _) => false
    case Unpin(_) => false
    case _ => true
  }

  lemma QuietFrame(s: State, step: Step)
    requires Enabled(s, step) && Quiet(step) && |s.pins| == |s.occupant| == |s.body|
    ensures var s' := Apply(s, step);
      && s'.table == s.table && s'.occupant == s.occupant && s'.pins == s.pins && s'.body == s.body
      && s'.guards == s.guards
  {
    hide LatchFree, LatchReadable;
  }

  predicate InTransit(c: Control) {
    c.WantsLatch? || c.Unpinning?
  }

  /** Steps that change no guard. */
  predicate Still(step: Step) {
    Quiet(step) || step.MissEvict? || step.EvictBody?
  }

  lemma StillGuards(s: State, step: Step)
    requires Enabled(s, step) && Still(step) && |s.pins| == |s.occupant| == |s.body|
    ensures Apply(s, step).guards == s.guards
  {
    hide LatchFree, LatchReadable;
  }

  /** They move no thread to or from a guard. */
  lemma StillControl(s: State, step: Step)
    requires Enabled(s, step) && Still(step) && |s.pins| == |s.occupant| == |s.body|
    ensures var s' := Apply(s, step);
      && (forall u :: u != step.t ==> (u in s'.threads <==> u in s.threads) && At(s', u) == At(s, u))
      && (s'.threads == s.threads || (!InTransit(At(s, step.t)) && !InTransit(At(s', step.t))))
  {
    hide Enabled, Apply, InTransit;
    OthersStay(s, step);
    StillTransit(s, step);
  }

  lemma OthersStay(s: State, step: Step)
    requires Enabled(s, step) && Still(step) && |s.pins| == |s.occupant| == |s.body|
    ensures var s' := Apply(s, step);
      forall u :: u != step.t ==> (u in s'.threads <==> u in s.threads) && At(s', u) == At(s, u)
  {
    hide LatchFree, LatchReadable;
  }

  lemma StillTransit(s: State, step: Step)
    requires Enabled(s, step) && Still(step) && |s.pins| == |s.occupant| == |s.body|
    ensures var s' := Apply(s, step);
      s'.threads == s.threads || (!InTransit(At(s, step.t)) && !InTransit(At(s', step.t)))
  {
    hide LatchFree, LatchReadable;
  }

  /** Only these steps take a latch. */
  predicate Latching(step: Step) {
    step.TakeLatch? || step.EvictLatch? || step.FlushLatch?
  }

  /** All other steps leave the latches as they are, or let go of one. */
  lemma NoNewLatch(s: State, step: Step)
    requires Enabled(s, step) && !Latching(step) && |s.pins| == |s.occupant| == |s.body|
    ensures var s' := Apply(s, step);
      && (forall u :: WritesOut(At(s', u)).Some? ==> WritesOut(At(s', u)) == WritesOut(At(s, u)))
      && forall g :: Using(s', g) ==> Using(s, g) && s'.guards[g] == s.guards[g]
  {
    hide Enabled, Apply, Using;
    NothingWrittenOut(s, step);
    NoGuardLatched(s, step);
  }

  lemma NothingWrittenOut(s: State, step: Step)
    requires Enabled(s, step) && !Latching(step) && |s.pins| == |s.occupant| == |s.body|
    ensures var s' := Apply(s, step);
      forall u :: WritesOut(At(s', u)).Some? ==> WritesOut(At(s', u)) == WritesOut(At(s, u))
  {
    hide LatchFree, LatchReadable;
  }

  lemma NoGuardLatched(s: State, step: Step)
    requires Enabled(s, step) && !Latching(step) && |s.pins| == |s.occupant| == |s.body|
    ensures var s' := Apply(s, step);
      forall g :: Using(s', g) ==> Using(s, g) && s'.guards[g] == s.guards[g]
  {
    hide LatchFree, LatchReadable;
  }

  lemma OutIsAThread(s: State)
    ensures forall u :: WritesOut(At(s, u)).Some? ==> u in s.threads && s.threads[u] == At(s, u)
  {
  }

  lemma GuardsHoldAfter(s: State, step: Step)
    requires Inv(s) && Enabled(s, step)
    ensures GuardsHold(Apply(s, step))
  {
    hide InnerOk, InnerHolderKnown, GuardsInTransit, Movers, PinsCount, GuardsOn, LatchFree, LatchReadable, TableOk,
      FillOk;
    if Quiet(step) {
      hide Enabled, Apply;
      QuietFrame(s, step);
    } else {
      hide Quiet;
      LoudGuardsHold(s, step);
    }
  }

  lemma LoudGuardsHold(s: State, step: Step)
    requires Inv(s) && Enabled(s, step) && !Quiet(step)
    ensures GuardsHold(Apply(s, step))
  {
    hide InnerOk, InnerHolderKnown, GuardsInTransit, Movers, PinsCount, GuardsOn, LatchFree, LatchReadable, TableOk,
      FillOk;
    match step
    case Hit(t, g) => HitHolds(s, t);
    case MissEvict(t, f) => NoGuardOn(s, f);
    case EvictBody(t) => FilledIsFree(s, t);
    case LoadBody(t, g) => FilledIsFree(s, t);
    case _ => PhaseGuardsHold(s, step);
  }

  lemma PhaseGuardsHold(s: State, step: Step)
    requires GuardsHold(s) && Enabled(s, step) && |s.pins| == |s.occupant| == |s.body|
    requires step.TakeLatch? || step.PeekLsn? || step.DropLatch? || step.Unpin?
    ensures GuardsHold(Apply(s, step))
  {
    hide LatchFree, LatchReadable;
  }

  lemma FilledIsFree(s: State, t: Thread)
    requires Inv(s) && (Leaving(At(s, t)) || At(s, t).Loading?)
    ensures At(s, t).frame < |s.occupant| && s.occupant[At(s, t).frame].None?
    ensures forall g :: g in s.guards ==> s.guards[g].frame != At(s, t).frame
  {
    NoGuardOnEmpty(s, At(s, t).frame);
  }

  lemma NoGuardOnEmpty(s: State, f: FrameNo)
    requires Inv(s) && f < |s.occupant| && s.occupant[f].None?
    ensures forall g :: g in s.guards ==> s.guards[g].frame != f
  {
    EmptyUnpinned(s, f);
    NoGuardOn(s, f);
  }

  lemma PinsCountAfter(s: State, step: Step)
    requires Inv(s) && Enabled(s, step)
    ensures PinsCount(Apply(s, step))
  {
    hide InnerOk, InnerHolderKnown, GuardsInTransit, Movers, GuardsHold, TableOk, GuardsOn, LatchFree, LatchReadable;
    if Quiet(step) {
      hide Enabled, Apply;
      QuietFrame(s, step);
    } else {
      hide Quiet;
      LoudPinsCount(s, step);
    }
  }

  lemma LoudPinsCount(s: State, step: Step)
    requires Inv(s) && Enabled(s, step) && !Quiet(step)
    ensures PinsCount(Apply(s, step))
  {
    hide InnerOk, InnerHolderKnown, GuardsInTransit, Movers, GuardsHold, TableOk, GuardsOn, LatchFree, LatchReadable;
    match step
    case Hit(t, g) =>
      var c := s.threads[t];
      GuardAdded(s.guards, g, Guard(t, c.page, s.table[c.page], c.use, Pinned));
    case LoadBody(t, g) =>
      var c := s.threads[t];
      EmptyUnpinned(s, c.frame);
      GuardAdded(s.guards, g, Guard(t, c.page, c.frame, c.use, Pinned));
    case TakeLatch(t) => GuardMoved(s.guards, s.threads[t].guard, Latched);
    case PeekLsn(t) => GuardMoved(s.guards, s.threads[t].guard, Released);
    case DropLatch(t, g) => GuardMoved(s.guards, g, Released);
    case Unpin(t) => GuardRemoved(s.guards, s.threads[t].guard);
    case MissEvict(t, f) =>
    case EvictBody(t) =>
  }

  lemma InnerAfter(s: State, step: Step)
    requires Inv(s) && Enabled(s, step)
    ensures InnerOk(Apply(s, step)) && InnerHolderKnown(Apply(s, step))
  {
    hide GuardsOk, GuardsInTransit, Movers, FillOk, TableOk, LatchFree, LatchReadable;
  }

  lemma GuardsInTransitAfter(s: State, step: Step)
    requires Inv(s) && Enabled(s, step)
    ensures GuardsInTransit(Apply(s, step))
  {
    hide InnerOk, InnerHolderKnown, GuardsOk, FillOk, TableOk, LatchFree, LatchReadable;
    if Still(step) {
      hide Enabled, Apply;
      StillGuards(s, step);
      StillControl(s, step);
    } else {
      hide Quiet;
      MovedGuardsInTransit(s, step);
    }
  }

  lemma MovedGuardsInTransit(s: State, step: Step)
    requires GuardsInTransit(s) && Movers(s) && |s.occupant| == |s.pins| == |s.body|
    requires Enabled(s, step) && !Still(step)
    ensures GuardsInTransit(Apply(s, step))
  {
    hide Enabled, Apply, GuardsInTransit, Movers;
    if step.Hit? || step.LoadBody? {
      PinnedInTransit(s, step);
    } else {
      PhasesInTransit(s, step);
    }
  }

  lemma PinnedInTransit(s: State, step: Step)
    requires GuardsInTransit(s) && |s.occupant| == |s.pins| == |s.body|
    requires Enabled(s, step) && (step.Hit? || step.LoadBody?)
    ensures GuardsInTransit(Apply(s, step))
  {
    hide LatchFree, LatchReadable;
  }

  lemma PhasesInTransit(s: State, step: Step)
    requires GuardsInTransit(s) && Movers(s) && |s.occupant| == |s.pins| == |s.body|
    requires Enabled(s, step) && (step.TakeLatch? || step.PeekLsn? || step.DropLatch? || step.Unpin?)
    ensures GuardsInTransit(Apply(s, step))
  {
    hide LatchFree, LatchReadable;
  }

  lemma MoversAfter(s: State, step: Step)
    requires Inv(s) && Enabled(s, step)
    ensures Movers(Apply(s, step))
  {
    hide InnerOk, InnerHolderKnown, GuardsOk, FillOk, TableOk, LatchFree, LatchReadable;
    if Still(step) {
      hide Enabled, Apply;
      StillGuards(s, step);
      StillControl(s, step);
    } else {
      hide Quiet;
      MovedMovers(s, step);
    }
  }

  lemma MovedMovers(s: State, step: Step)
    requires GuardsInTransit(s) && Movers(s) && |s.occupant| == |s.pins| == |s.body|
    requires Enabled(s, step) && !Still(step)
    ensures Movers(Apply(s, step))
  {
    hide LatchFree, LatchReadable;
  }

  lemma TableHoldsAfter(s: State, step: Step)
    requires Inv(s) && Enabled(s, step)
    ensures TableHolds(Apply(s, step))
  {
    hide Inv, Enabled, Apply;
    if Quiet(step) {
      QuietTableHolds(s, step);
    } else {
      LoudTableHolds(s, step);
    }
  }

  lemma QuietTableHolds(s: State, step: Step)
    requires Inv(s) && Enabled(s, step) && Quiet(step)
    ensures TableHolds(Apply(s, step))
  {
    hide GuardsOk, GuardsInTransit, Movers, InnerOk, InnerHolderKnown, FillOk, OccupantsListed, Enabled, Apply,
      LeavingAs, Quiet;
    QuietFrame(s, step);
    QuietLeaving(s, step);
  }

  /** A quiet step lets no victim go. */
  lemma QuietLeaving(s: State, step: Step)
    requires InnerOk(s) && InnerHolderKnown(s) && Enabled(s, step) && Quiet(step)
    requires |s.pins| == |s.occupant| == |s.body|
    ensures forall f, p :: LeavingAs(s, f, p) ==> LeavingAs(Apply(s, step), f, p)
  {
    hide LatchFree, LatchReadable;
  }

  lemma LoudTableHolds(s: State, step: Step)
    requires Inv(s) && Enabled(s, step) && !Quiet(step)
    ensures TableHolds(Apply(s, step))
  {
    hide GuardsOk, GuardsInTransit, Movers, LatchFree, LatchReadable;
  }

  lemma OccupantsListedAfter(s: State, step: Step)
    requires Inv(s) && Enabled(s, step)
    ensures OccupantsListed(Apply(s, step))
  {
    hide Inv, Enabled, Apply;
    if Quiet(step) {
      QuietOccupants(s, step);
    } else {
      LoudOccupants(s, step);
    }
  }

  lemma QuietOccupants(s: State, step: Step)
    requires Inv(s) && Enabled(s, step) && Quiet(step)
    ensures OccupantsListed(Apply(s, step))
  {
    hide GuardsOk, GuardsInTransit, Movers, LatchFree, LatchReadable, InnerHolderKnown;
  }

  lemma LoudOccupants(s: State, step: Step)
    requires Inv(s) && Enabled(s, step) && !Quiet(step)
    ensures OccupantsListed(Apply(s, step))
  {
    hide GuardsOk, GuardsInTransit, Movers, LatchFree, LatchReadable, InnerHolderKnown;
  }

  lemma FillAfter(s: State, step: Step)
    requires Inv(s) && Enabled(s, step)
    ensures FillOk(Apply(s, step))
  {
    hide Inv, Enabled, Apply;
    if Quiet(step) {
      QuietFillOk(s, step);
    } else {
      LoudFillOk(s, step);
    }
  }

  lemma QuietFillOk(s: State, step: Step)
    requires Inv(s) && Enabled(s, step) && Quiet(step)
    ensures FillOk(Apply(s, step))
  {
    hide GuardsOk, GuardsInTransit, Movers, LatchFree, LatchReadable;
  }

  lemma LoudFillOk(s: State, step: Step)
    requires Inv(s) && Enabled(s, step) && !Quiet(step)
    ensures FillOk(Apply(s, step))
  {
    hide GuardsOk, GuardsInTransit, Movers, LatchFree, LatchReadable;
  }

  /** Every step of every thread keeps the invariant. */
  lemma StepInv(s: State, step: Step)
    requires Inv(s) && Enabled(s, step)
    ensures Inv(Apply(s, step))
  {
    hide InnerOk, InnerHolderKnown, GuardsHold, PinsCount, GuardsInTransit, Movers, TableHolds, OccupantsListed, FillOk;
    InnerAfter(s, step);
    GuardsHoldAfter(s, step);
    PinsCountAfter(s, step);
    GuardsInTransitAfter(s, step);
    MoversAfter(s, step);
    TableHoldsAfter(s, step);
    OccupantsListedAfter(s, step);
    FillAfter(s, step);
  }

  // ---- Latches

  ghost predicate WritersAlone(s: State) {
    forall g, h :: g in s.guards && h in s.guards && g != h ==>
      Using(s, g) && Using(s, h) && s.guards[g].use.Writing? ==> s.guards[g].frame != s.guards[h].frame
  }

  ghost predicate WritesOutAlone(s: State) {
    && (forall t, g :: t in s.threads && g in s.guards && Using(s, g) ==>
          WritesOut(s.threads[t]) != Some(s.guards[g].frame))
    && (forall t, u :: t in s.threads && u in s.threads && t != u && WritesOut(s.threads[t]).Some? ==>
          WritesOut(s.threads[t]) != WritesOut(s.threads[u]))
  }

  predicate Using(s: State, g: GuardId) {
    g in s.guards && s.guards[g].phase == Latched
  }

  lemma StepWritersAlone(s: State, step: Step)
    requires Inv(s) && WritersAlone(s) && Enabled(s, step)
    ensures WritersAlone(Apply(s, step))
  {
    hide InnerOk, InnerHolderKnown, GuardsOk, TableOk, FillOk, GuardsInTransit, Movers;
    if !Latching(step) {
      hide Enabled, Apply, WritesOut, Using;
      NoNewLatch(s, step);
      OutIsAThread(s);
      OutIsAThread(Apply(s, step));
    }
  }

  lemma StepWritesOutAlone(s: State, step: Step)
    requires Inv(s) && WritesOutAlone(s) && Enabled(s, step)
    ensures WritesOutAlone(Apply(s, step))
  {
    hide InnerOk, InnerHolderKnown, GuardsOk, TableOk, FillOk, GuardsInTransit, Movers;
    if Latching(step) {
      hide WritesOutAlone, Enabled, Apply, Latching;
      LatchTakenAlone(s, step);
    } else {
      hide Enabled, Apply, WritesOut, Using;
      NoNewLatch(s, step);
      OutIsAThread(s);
      OutIsAThread(Apply(s, step));
    }
  }

  lemma LatchTakenAlone(s: State, step: Step)
    requires WritesOutAlone(s) && Enabled(s, step) && Latching(step) && |s.pins| == |s.occupant| == |s.body|
    ensures WritesOutAlone(Apply(s, step))
  {
  }

  /** The log and the disk have one holder each. */
  ghost predicate LocksAlone(s: State) {
    forall t, u :: t in s.using && u in s.using && s.using[t].held && s.using[t] == s.using[u] ==> t == u
  }

  lemma StepLocksAlone(s: State, step: Step)
    requires LocksAlone(s) && Enabled(s, step) && |s.pins| == |s.occupant| == |s.body|
    ensures LocksAlone(Apply(s, step))
  {
    hide PoolEnabled;
  }

  lemma StartAlone(s: State)
    requires Start(s)
    ensures WritersAlone(s) && WritesOutAlone(s) && LocksAlone(s)
  {
  }

  // ---- Runs

  ghost predicate Moves(s: State, step: Step, s': State) {
    |s.pins| == |s.occupant| == |s.body| && Enabled(s, step) && s' == Apply(s, step)
  }

  /** The states a run goes through, whichever threads take the steps. */
  ghost predicate IsRun(states: seq<State>, steps: seq<Step>) {
    && |states| == |steps| + 1 && Start(states[0])
    && forall i :: 0 <= i < |steps| ==> Moves(states[i], steps[i], states[i+1])
  }

  ghost predicate Reachable(s: State) {
    exists states, steps :: IsRun(states, steps) && s == states[|steps|]
  }

  lemma {:induction false} RunInv(states: seq<State>, steps: seq<Step>, i: nat)
    requires IsRun(states, steps) && i <= |steps|
    ensures Inv(states[i]) && WritersAlone(states[i]) && WritesOutAlone(states[i]) && LocksAlone(states[i])
  {
    hide Inv, Enabled, Apply, WritersAlone, WritesOutAlone, LocksAlone;
    if i == 0 {
      StartInv(states[0]);
      StartAlone(states[0]);
    } else {
      RunInv(states, steps, i - 1);
      assert Moves(states[i-1], steps[i-1], states[i]);
      StepInv(states[i-1], steps[i-1]);
      StepWritersAlone(states[i-1], steps[i-1]);
      StepWritesOutAlone(states[i-1], steps[i-1]);
      StepLocksAlone(states[i-1], steps[i-1]);
    }
  }

  lemma ReachableInv(s: State)
    requires Reachable(s)
    ensures Inv(s) && WritersAlone(s) && WritesOutAlone(s) && LocksAlone(s)
  {
    hide Inv, Enabled, Apply, WritersAlone, WritesOutAlone, LocksAlone;
    var states, steps :| IsRun(states, steps) && s == states[|steps|];
    RunInv(states, steps, |steps|);
  }

  /** Whatever the threads do, the frame of an open guard holds the page the guard was opened for, and is pinned. */
  lemma LiveGuardHoldsItsPage(s: State, g: GuardId)
    requires Reachable(s) && g in s.guards
    ensures var f := s.guards[g].frame;
      f < |s.body| && f < |s.pins| && s.body[f] == Some(s.guards[g].page) && s.pins[f] > 0
    ensures s.guards[g].page in s.table && s.table[s.guards[g].page] == s.guards[g].frame
  {
    hide Reachable;
    ReachableInv(s);
    assert Holds(s, s.guards[g].frame, s.guards[g].page);
    assert g in GuardsOn(s.guards, s.guards[g].frame);
  }

  /** Two guards on one page share one frame: no page is ever cached twice. */
  lemma OnePageOneFrame(s: State, g: GuardId, h: GuardId)
    requires Reachable(s) && g in s.guards && h in s.guards
    ensures s.guards[g].page == s.guards[h].page <==> s.guards[g].frame == s.guards[h].frame
  {
    hide Reachable, Inv;
    LiveGuardHoldsItsPage(s, g);
    LiveGuardHoldsItsPage(s, h);
  }

  // ---- Waiting

  /** The frame whose latch thread `t` waits for. */
  function WaitsForLatch(s: State, t: Thread): Option<FrameNo> {
    match At(s, t)
    case Evicting(_, _, f, _) => Some(f)
    case Loading(_, _, f) => Some(f)
    case FlushWaits(f) => Some(f)
    case WantsLatch(g) => if g in s.guards && !s.guards[g].use.Peeking? then Some(s.guards[g].frame) else None
    case _ => None
  }

  predicate WaitsForInner(s: State, t: Thread) {
    match At(s, t)
    case WantsInner(_, _) => true
    case Unpinning(_) => true
    case FlushEnds(_) => true
    case WantsLatch(g) => g in s.guards && s.guards[g].use.Peeking?
    case _ => false
  }

  predicate HoldsLock(s: State, t: Thread) {
    t in s.using && s.using[t].held
  }

  /** `t` cannot go on before `u` lets something go. */
  ghost predicate Blocks(s: State, t: Thread, u: Thread) {
    if t in s.using then
      !s.using[t].held && u in s.using && s.using[u] == LockUse(s.using[t].lock, true)
    else
      || (WaitsForInner(s, t) && s.inner == Some(u))
      || (WaitsForLatch(s, t).Some? && HoldsLatch(s, u, WaitsForLatch(s, t).value))
  }

  /** The log and the disk are taken last of all: their holder waits for nothing. */
  lemma LockHolderWaitsForNothing(s: State, u: Thread, v: Thread)
    requires HoldsLock(s, u)
    ensures !Blocks(s, u, v) && Enabled(s, DropLock(u))
  {
  }

  /** A thread that holds `Inner` waits for the log, for the disk, or for the latch of a frame nobody has pinned;
      only a flush in the middle of its write can hold that latch. */
  lemma InnerWaitsForUnpinned(s: State, t: Thread, u: Thread)
    requires Reachable(s) && s.inner == Some(t) && Blocks(s, t, u)
    ensures if t in s.using then HoldsLock(s, u)
            else var f := WaitsForLatch(s, t);
              f.Some? && f.value < |s.pins| && s.pins[f.value] == 0 && At(s, u) == FlushWrites(f.value)
  {
    hide Reachable;
    ReachableInv(s);
    assert OwnsInner(s.threads[t]);
    if t !in s.using {
      var f := WaitsForLatch(s, t).value;
      EmptyUnpinned(s, f);
      NoGuardOn(s, f);
      assert At(s, u).EvictWrites? ==> u == t;
    }
  }

  /** A flush in the middle of its write waits for the disk at most. */
  lemma FlushWaitsForDisk(s: State, u: Thread, v: Thread, f: FrameNo)
    requires At(s, u) == FlushWrites(f) && Blocks(s, u, v)
    ensures HoldsLock(s, v)
  {
  }

  /** A circle of threads each waiting for the next. */
  ghost predicate WaitCycle(s: State, ts: seq<Thread>) {
    ts != [] && forall i :: 0 <= i < |ts| ==> Blocks(s, ts[i], ts[Next(|ts|, i)])
  }

  function Next(n: nat, i: nat): nat {
    if i + 1 < n then i + 1 else 0
  }

  /** No circle of waiting threads passes through a mutex: nobody in it holds `Inner`, the log or the disk,
      or waits for one of them. */
  lemma NoCycleThroughInner(s: State, ts: seq<Thread>, i: nat)
    requires Reachable(s) && WaitCycle(s, ts) && i < |ts|
    ensures s.inner != Some(ts[i]) && !WaitsForInner(s, ts[i]) && ts[i] !in s.using
  {
    hide Reachable, Inv;
    NotTheHolder(s, ts, i);
    NotTheHolder(s, ts, Next(|ts|, i));
    NoLock(s, ts, i);
    assert Blocks(s, ts[i], ts[Next(|ts|, i)]);
    WaitsForOne(s, ts[i]);
  }

  lemma WaitsForOne(s: State, t: Thread)
    ensures WaitsForInner(s, t) ==> WaitsForLatch(s, t).None?
  {
  }

  lemma NoLock(s: State, ts: seq<Thread>, i: nat)
    requires WaitCycle(s, ts) && i < |ts|
    ensures ts[i] !in s.using
  {
    var n := Next(|ts|, i);
    assert Blocks(s, ts[i], ts[n]) && Blocks(s, ts[n], ts[Next(|ts|, n)]);
    if HoldsLock(s, ts[n]) {
      LockHolderWaitsForNothing(s, ts[n], ts[Next(|ts|, n)]);
      assert false;
    }
  }

  lemma NotTheHolder(s: State, ts: seq<Thread>, i: nat)
    requires Reachable(s) && WaitCycle(s, ts) && i < |ts|
    ensures s.inner != Some(ts[i])
  {
    hide Reachable, Inv;
    var n := Next(|ts|, i);
    NoLock(s, ts, i);
    NoLock(s, ts, n);
    NoLock(s, ts, Next(|ts|, n));
    assert Blocks(s, ts[i], ts[n]) && Blocks(s, ts[n], ts[Next(|ts|, n)]);
    if s.inner == Some(ts[i]) {
      InnerWaitsForUnpinned(s, ts[i], ts[n]);
      FlushWaitsForDisk(s, ts[n], ts[Next(|ts|, n)], WaitsForLatch(s, ts[i]).value);
      assert false;
    }
  }

  /** The log and the disk always come free: whoever waits for them can take them, or their holder lets go. */
  lemma {:induction false} LockMakesProgress(s: State, t: Thread) returns (step: Step)
    requires t in s.using
    ensures Enabled(s, step) && (step == TakeLock(t) || step == DropLock(step.t))
  {
    if s.using[t].held {
      step := DropLock(t);
    } else if u :| u in s.using && s.using[u] == LockUse(s.using[t].lock, true) {
      step := DropLock(u);
    } else {
      step := TakeLock(t);
    }
  }

  /** `Inner` always comes free: its holder can go on, or only has to wait for the log, the disk or a flush that can.
      The step leads on: nobody begins to wait, and no latch is taken twice. */
  lemma {:induction false} InnerMakesProgress(s: State, t: Thread) returns (step: Step)
    requires Reachable(s) && s.inner == Some(t)
    ensures Enabled(s, step) && (step.t == t || At(s, step.t).FlushWrites? || HoldsLock(s, step.t))
    ensures !step.WantLock? && !step.EvictLatch?
  {
    hide Reachable;
    ReachableInv(s);
    var c := s.threads[t];
    assert OwnsInner(c);
    if t in s.using {
      step := LockMakesProgress(s, t);
    } else if c.Locating? {
      step := LocatorGoesOn(s, t);
    } else if c.EvictWrites? {
      step := EvictWritten(t);
    } else {
      step := FillerGoesOn(s, t);
    }
  }

  lemma {:induction false} FillerGoesOn(s: State, t: Thread) returns (step: Step)
    requires Inv(s) && s.inner == Some(t) && t !in s.using && (At(s, t).Evicting? || At(s, t).Loading?)
    ensures Enabled(s, step) && (step.t == t || At(s, step.t).FlushWrites? || HoldsLock(s, step.t))
    ensures !step.WantLock? && !step.EvictLatch?
  {
    var c := At(s, t);
    NoGuardOnFilled(s, t);
    OnlyFlush(s, t);
    Room(s, t);
    hide Inv;
    if u :| u in s.threads && s.threads[u] == FlushWrites(c.frame) {
      if u in s.using {
        step := LockMakesProgress(s, u);
      } else {
        step := FlushWrite(u);
      }
    } else if c.Evicting? {
      step := EvictBody(t);
    } else {
      var g := FreshGuard(s.guards);
      step := LoadBody(t, g);
    }
  }

  lemma NobodyOnLatch(s: State, t: Thread, f: FrameNo)
    requires WaitsForLatch(s, t) == Some(f) && t !in s.using && forall u :: !Blocks(s, t, u)
    ensures LatchFree(s, f)
  {
    forall u | u in s.threads ensures WritesOut(s.threads[u]) != Some(f) {
      assert !Blocks(s, t, u);
    }
    forall g | g in s.guards ensures !HoldsByGuard(s, g, f) {
      assert !Blocks(s, t, s.guards[g].owner);
    }
  }

  lemma NobodyInside(s: State, t: Thread)
    requires WaitsForInner(s, t) && t !in s.using && forall u :: !Blocks(s, t, u)
    ensures s.inner.None?
  {
    assert s.inner.Some? ==> !Blocks(s, t, s.inner.value);
  }

  lemma NobodyOnLock(s: State, t: Thread)
    requires t in s.using && !s.using[t].held && forall u :: !Blocks(s, t, u)
    ensures LockFree(s, s.using[t].lock)
  {
    forall u | u in s.using ensures s.using[u] != LockUse(s.using[t].lock, true) {
      assert !Blocks(s, t, u);
    }
  }

  /** Nobody waits for nothing: a thread that is inside the pool, or wants or holds a mutex, goes on unless another
      thread holds what it waits for. */
  lemma {:induction false} UnblockedGoesOn(s: State, t: Thread) returns (step: Step)
    requires Reachable(s) && (t in s.using || At(s, t) != Idle) && forall u :: !Blocks(s, t, u)
    ensures Enabled(s, step) && step.t == t && !step.WantLock? && !step.LoadFails? && !step.EvictLatch?
  {
    hide Reachable, Blocks, LatchFree, LatchReadable, LockFree;
    ReachableInv(s);
    if t in s.using {
      if s.using[t].held {
        step := DropLock(t);
      } else {
        NobodyOnLock(s, t);
        step := TakeLock(t);
      }
    } else if s.inner == Some(t) {
      step := HolderUnblocked(s, t);
    } else {
      step := OutsideUnblocked(s, t);
    }
  }

  lemma {:induction false} HolderUnblocked(s: State, t: Thread) returns (step: Step)
    requires Inv(s) && s.inner == Some(t) && t !in s.using && forall u :: !Blocks(s, t, u)
    ensures Enabled(s, step) && step.t == t && !step.WantLock? && !step.LoadFails? && !step.EvictLatch?
  {
    hide Blocks, LatchFree, LatchReadable, LockFree;
    assert OwnsInner(s.threads[t]);
    var c := At(s, t);
    if c.Locating? {
      step := LocatorGoesOn(s, t);
    } else if c.EvictWrites? {
      step := EvictWritten(t);
    } else {
      NobodyOnLatch(s, t, c.frame);
      Room(s, t);
      if c.Evicting? {
        step := EvictBody(t);
      } else {
        var g := FreshGuard(s.guards);
        step := LoadBody(t, g);
      }
    }
  }

  lemma {:induction false} OutsideUnblocked(s: State, t: Thread) returns (step: Step)
    requires Inv(s) && s.inner != Some(t) && t !in s.using && At(s, t) != Idle && forall u :: !Blocks(s, t, u)
    ensures Enabled(s, step) && step.t == t && !step.WantLock? && !step.LoadFails? && !step.EvictLatch?
  {
    hide Blocks, LatchFree, LatchReadable, LockFree;
    MoverKnown(s, t);
    hide Inv;
    if WaitsForInner(s, t) {
      NobodyInside(s, t);
      step := InnerFree(s, t);
    } else if At(s, t).FlushWrites? {
      step := FlushWrite(t);
    } else {
      NobodyOnLatch(s, t, WaitsForLatch(s, t).value);
      step := LatchIsFree(s, t);
    }
  }

  lemma {:induction false} InnerFree(s: State, t: Thread) returns (step: Step)
    requires s.inner.None? && t !in s.using && WaitsForInner(s, t)
    requires At(s, t).WantsLatch? || At(s, t).Unpinning? ==>
      At(s, t).guard in s.guards && s.guards[At(s, t).guard].frame < |s.pins|
    ensures Enabled(s, step) && step.t == t && !step.WantLock? && !step.LoadFails? && !step.EvictLatch?
  {
    hide LatchFree, LatchReadable, LockFree;
    match At(s, t)
    case WantsInner(_, _) => step := TakeInner(t);
    case WantsLatch(_) => step := PeekLsn(t);
    case Unpinning(_) => step := Unpin(t);
    case FlushEnds(_) => step := FlushClean(t);
  }

  lemma {:induction false} LatchIsFree(s: State, t: Thread) returns (step: Step)
    requires t !in s.using && (At(s, t).FlushWaits? || At(s, t).WantsLatch?)
    requires WaitsForLatch(s, t).Some? && LatchFree(s, WaitsForLatch(s, t).value)
    ensures Enabled(s, step) && step.t == t && !step.WantLock? && !step.LoadFails? && !step.EvictLatch?
  {
    hide LatchFree, LatchReadable, LockFree;
    FreeIsReadable(s, WaitsForLatch(s, t).value);
    step := if At(s, t).FlushWaits? then FlushLatch(t) else TakeLatch(t);
  }

  lemma MoverKnown(s: State, t: Thread)
    requires Inv(s)
    ensures s.inner != Some(t) ==> !OwnsInner(At(s, t))
    ensures At(s, t).WantsLatch? || At(s, t).Unpinning? ==>
      At(s, t).guard in s.guards && s.guards[At(s, t).guard].frame < |s.pins|
  {
  }

  lemma FreeIsReadable(s: State, f: FrameNo)
    requires LatchFree(s, f)
    ensures LatchReadable(s, f)
  {
  }

  /** Readers share: where nobody writes, a reader gets its latch. */
  lemma ReadersShare(s: State, t: Thread, g: GuardId)
    requires At(s, t) == WantsLatch(g) && t !in s.using && g in s.guards && s.guards[g].use.Reading?
    requires forall u :: u in s.threads ==> WritesOut(s.threads[u]) != Some(s.guards[g].frame)
    requires forall h :: h in s.guards && HoldsByGuard(s, h, s.guards[g].frame) ==> s.guards[h].use.Reading?
    ensures Enabled(s, TakeLatch(t))
  {
  }

  /** An idle thread may open any page, flush any frame while `Inner` is free, and drop any guard of its own. */
  lemma IdleMayCall(s: State, t: Thread, page: PageId, use: Use, f: FrameNo, g: GuardId)
    requires At(s, t) == Idle && t !in s.using
    ensures Enabled(s, Call(t, page, use))
    ensures s.inner.None? && f < |s.occupant| ==> Enabled(s, FlushStart(t, f))
    ensures g in s.guards && s.guards[g].owner == t && s.guards[g].phase == Latched ==> Enabled(s, DropLatch(t, g))
  {
  }

  lemma Room(s: State, t: Thread)
    requires Inv(s) && (At(s, t).Evicting? || At(s, t).Loading?)
    ensures At(s, t).frame < |s.occupant| == |s.pins| == |s.body|
  {
  }

  lemma OnlyFlush(s: State, t: Thread)
    requires Inv(s) && s.inner == Some(t) && !At(s, t).EvictWrites?
    ensures forall u :: u in s.threads ==> !s.threads[u].EvictWrites?
  {
  }

  lemma {:induction false} LocatorGoesOn(s: State, t: Thread) returns (step: Step)
    requires Inv(s) && s.inner == Some(t) && At(s, t).Locating? && t !in s.using
    ensures Enabled(s, step) && step.t == t && !step.WantLock? && !step.EvictLatch?
  {
    var c := s.threads[t];
    if c.page in s.table {
      HitHolds(s, t);
      var g := FreshGuard(s.guards);
      step := Hit(t, g);
    } else if i :| 0 <= i < |s.occupant| && s.occupant[i].None? {
      step := MissEmpty(t, i);
    } else if i :| 0 <= i < |s.pins| && s.pins[i] == 0 {
      step := MissEvict(t, i);
    } else {
      step := Full(t);
    }
  }

  lemma NoGuardOnFilled(s: State, t: Thread)
    requires Inv(s) && s.inner == Some(t) && (Leaving(At(s, t)) || At(s, t).Loading?)
    ensures At(s, t).frame < |s.occupant| && forall g :: g in s.guards ==> !HoldsByGuard(s, g, At(s, t).frame)
  {
    EmptyUnpinned(s, At(s, t).frame);
    NoGuardOn(s, At(s, t).frame);
  }

  lemma {:induction false} FreshGuard(guards: map<GuardId, Guard>) returns (g: GuardId)
    ensures g !in guards
  {
    g := Above(guards.Keys);
  }

  lemma {:induction false} Above(ids: set<nat>) returns (n: nat)
    ensures forall x :: x in ids ==> x < n
  {
    if ids == {} {
      n := 0;
    } else {
      var x :| x in ids;
      var m := Above(ids - {x});
      n := if m > x then m else x + 1;
      assert forall y :: y in ids ==> y == x || y in ids - {x};
    }
  }

  /** In every run a write latch, and a page being written out, exclude all other holders of the frame's latch. */
  lemma LatchesExclude(s: State, t: Thread, u: Thread, f: FrameNo)
    requires Reachable(s) && t != u && HoldsLatch(s, t, f) && HoldsLatch(s, u, f)
    ensures forall g :: g in s.guards && HoldsByGuard(s, g, f) ==> !s.guards[g].use.Writing?
    ensures WritesOut(At(s, t)) != Some(f) && WritesOut(At(s, u)) != Some(f)
  {
    hide Reachable, Inv;
    ReachableInv(s);
    NotWrittenOut(s, t, u, f);
    NotWrittenOut(s, u, t, f);
    var g :| HoldsByGuard(s, g, f) && s.guards[g].owner == t;
    var h :| HoldsByGuard(s, h, f) && s.guards[h].owner == u;
    assert Using(s, g) && Using(s, h);
    forall k | k in s.guards && HoldsByGuard(s, k, f) ensures !s.guards[k].use.Writing? {
      assert Using(s, k);
    }
  }

  lemma NotWrittenOut(s: State, t: Thread, u: Thread, f: FrameNo)
    requires WritesOutAlone(s) && t != u && HoldsLatch(s, t, f) && HoldsLatch(s, u, f)
    ensures WritesOut(At(s, t)) != Some(f)
  {
    if WritesOut(At(s, u)) != Some(f) {
      var h :| HoldsByGuard(s, h, f) && s.guards[h].owner == u;
      assert Using(s, h);
    }
  }
}
