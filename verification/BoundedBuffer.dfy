/** The semaphore-guarded ring of hw6/sbuf.c, run by any number of threads. */
module BoundedBuffer {
  // Every semaphore operation, counter bump, array store and array load is one step, so the
  // theorems hold for every interleaving at that grain. `sent` and `received` record the values
  // in the order the critical sections stored and loaded them, and `delivered` the values the
  // removing calls have returned; the protocol itself never looks at them.

  import opened Arithmetic
  import opened Options
  import opened Sums

  /** Where a thread stands inside sbuf_insert or sbuf_remove. The number a removing thread
      carries is the position of its value in `received`; it is a name for the call. */
  datatype Pc =
    | Idle
    | InsertStart(item: int)
    | HasSlot(item: int)
    | InsertLocked(item: int)
    | RearBumped(item: int)
    | Stored
    | InsertUnlocked
    | RemoveStart
    | HasItem
    | RemoveLocked
    | FrontBumped
    | Loaded(item: int, k: nat)
    | RemoveUnlocked(item: int, k: nat)

  datatype Ring = Ring(n: nat, buf: seq<int>, front: nat, rear: nat, mutex: nat, slots: nat, items: nat)

  datatype System = System(
    ring: Ring, threads: seq<Pc>, sent: seq<int>, received: seq<int>, delivered: map<nat, int>)

  datatype Call = Insert(item: int) | Remove

  // ----- the steps

  /** Can the thread at this program counter take its next step, or does a P operation block it? */
  predicate Enabled(r: Ring, pc: Pc) {
    match pc
    case Idle => false
    case InsertStart(_) => r.slots > 0
    case HasSlot(_) => r.mutex > 0
    case RemoveStart => r.items > 0
    case HasItem => r.mutex > 0
    case _ => true
  }

  function NextPc(s: System, pc: Pc): Pc
    requires s.ring.n > 0 && |s.ring.buf| == s.ring.n
  {
    match pc
    case Idle => Idle
    case InsertStart(x) => HasSlot(x)
    case HasSlot(x) => InsertLocked(x)
    case InsertLocked(x) => RearBumped(x)
    case RearBumped(_) => Stored
    case Stored => InsertUnlocked
    case InsertUnlocked => Idle
    case RemoveStart => HasItem
    case HasItem => RemoveLocked
    case RemoveLocked => FrontBumped
    case FrontBumped => Loaded(s.ring.buf[s.ring.front % s.ring.n], |s.received|)
    case Loaded(x, k) => RemoveUnlocked(x, k)
    case RemoveUnlocked(_, _) => Idle
  }

  function NextRing(r: Ring, pc: Pc): Ring
    requires r.n > 0 && |r.buf| == r.n && Enabled(r, pc)
  {
    match pc
    case InsertStart(_) => r.(slots := r.slots - 1)
    case HasSlot(_) => r.(mutex := r.mutex - 1)
    case InsertLocked(_) => r.(rear := r.rear + 1)
    case RearBumped(x) => r.(buf := r.buf[r.rear % r.n := x])
    case Stored => r.(mutex := r.mutex + 1)
    case InsertUnlocked => r.(items := r.items + 1)
    case RemoveStart => r.(items := r.items - 1)
    case HasItem => r.(mutex := r.mutex - 1)
    case RemoveLocked => r.(front := r.front + 1)
    case FrontBumped => r
    case Loaded(_, _) => r.(mutex := r.mutex + 1)
    case RemoveUnlocked(_, _) => r.(slots := r.slots + 1)
  }

  /** Thread `t` takes its next step. */
  function Fire(s: System, t: nat): System
    requires s.ring.n > 0 && |s.ring.buf| == s.ring.n
    requires t < |s.threads| && Enabled(s.ring, s.threads[t])
  {
    var pc := s.threads[t];
    System(
      NextRing(s.ring, pc),
      s.threads[t := NextPc(s, pc)],
      if pc.RearBumped? then s.sent + [pc.item] else s.sent,
      if pc.FrontBumped? then s.received + [s.ring.buf[s.ring.front % s.ring.n]] else s.received,
      if pc.RemoveUnlocked? then s.delivered[pc.k := pc.item] else s.delivered)
  }

  /** An idle thread `t` calls sbuf_insert or sbuf_remove. */
  function Begin(s: System, t: nat, c: Call): System
    requires t < |s.threads|
  {
    s.(threads := s.threads[t := match c case Insert(x) => InsertStart(x) case Remove => RemoveStart])
  }

  ghost predicate Next(s: System, s': System) {
    && s.ring.n > 0 && |s.ring.buf| == s.ring.n
    && exists t: nat :: t < |s.threads| && StepOf(s, t, s')
  }

  ghost predicate StepOf(s: System, t: nat, s': System)
    requires s.ring.n > 0 && |s.ring.buf| == s.ring.n && t < |s.threads|
  {
    || (Enabled(s.ring, s.threads[t]) && s' == Fire(s, t))
    || (s.threads[t].Idle? && exists c :: s' == Begin(s, t, c))
  }

  /** sbuf_init with n slots, and a pool of threads that have made no call yet. */
  ghost predicate Init(s: System) {
    && s.ring.n > 0 && |s.ring.buf| == s.ring.n
    && s.ring.front == s.ring.rear == 0
    && s.ring.mutex == 1 && s.ring.slots == s.ring.n && s.ring.items == 0
    && (forall t :: 0 <= t < |s.threads| ==> s.threads[t].Idle?)
    && s.sent == [] && s.received == [] && s.delivered == map[]
  }

  ghost predicate IsRun(run: seq<System>) {
    && |run| > 0 && Init(run[0])
    && forall i :: 0 <= i < |run| - 1 ==> Next(run[i], run[i + 1])
  }

  // ----- the thread counts

  function InSection(pc: Pc): nat {
    if pc.InsertLocked? || pc.RearBumped? || pc.Stored? || pc.RemoveLocked? || pc.FrontBumped? || pc.Loaded?
    then 1 else 0
  }
  /** Past P(slots) but `rear` not bumped yet. */
  function HoldsSlot(pc: Pc): nat { if pc.HasSlot? || pc.InsertLocked? then 1 else 0 }
  /** `rear` bumped but V(items) not done yet. */
  function OwesItem(pc: Pc): nat { if pc.RearBumped? || pc.Stored? || pc.InsertUnlocked? then 1 else 0 }
  /** Past P(items) but `front` not bumped yet. */
  function HoldsItem(pc: Pc): nat { if pc.HasItem? || pc.RemoveLocked? then 1 else 0 }
  /** `front` bumped but V(slots) not done yet. */
  function OwesSlot(pc: Pc): nat { if pc.FrontBumped? || pc.Loaded? || pc.RemoveUnlocked? then 1 else 0 }
  function AtStore(pc: Pc): nat { if pc.RearBumped? then 1 else 0 }
  function AtLoad(pc: Pc): nat { if pc.FrontBumped? then 1 else 0 }

  predicate InFlight(pc: Pc) { pc.Loaded? || pc.RemoveUnlocked? }

  // ----- the invariant

  /** The three semaphores and the two counters account for every slot. */
  ghost predicate Counted(s: System) {
    var r := s.ring;
    && r.mutex + Sum(s.threads, InSection) == 1
    && r.slots + Sum(s.threads, HoldsSlot) + Sum(s.threads, OwesSlot) + r.rear == r.n + r.front
    && r.rear == r.front + r.items + Sum(s.threads, OwesItem) + Sum(s.threads, HoldsItem)
    && |s.sent| + Sum(s.threads, AtStore) == r.rear
    && |s.received| + Sum(s.threads, AtLoad) == r.front
  }

  /** The values numbered from `from + 1` on stand in their slots. */
  ghost predicate InSlots(buf: seq<int>, n: nat, from: nat, sent: seq<int>)
    requires |buf| == n > 0
  {
    forall k :: from < k <= |sent| ==> buf[k % n] == sent[k - 1]
  }

  /** The unread slots hold, in order, exactly the values sent and not yet received. */
  ghost predicate Fifo(s: System)
    requires s.ring.n > 0 && |s.ring.buf| == s.ring.n
  {
    s.received <= s.sent && InSlots(s.ring.buf, s.ring.n, |s.received|, s.sent)
  }

  /** Every received value is in the hands of one removing call, or was returned by one. */
  ghost predicate Delivery(s: System) {
    && (forall t :: 0 <= t < |s.threads| && InFlight(s.threads[t]) ==>
          && s.threads[t].k < |s.received| && s.threads[t].k !in s.delivered
          && s.threads[t].item == s.received[s.threads[t].k])
    && (forall t, u :: 0 <= t < u < |s.threads| && InFlight(s.threads[t]) && InFlight(s.threads[u]) ==>
          s.threads[t].k != s.threads[u].k)
    && (forall k :: k in s.delivered ==> k < |s.received| && s.delivered[k] == s.received[k])
    && (forall k :: 0 <= k < |s.received| ==> k in s.delivered || InSomeHand(s.threads, k))
  }

  ghost predicate InSomeHand(threads: seq<Pc>, k: nat) {
    exists t :: 0 <= t < |threads| && InFlight(threads[t]) && threads[t].k == k
  }

  ghost predicate Inv(s: System) {
    && s.ring.n > 0 && |s.ring.buf| == s.ring.n
    && Counted(s) && Fifo(s) && Delivery(s)
  }

  // ----- preservation

  lemma CountsMove(threads: seq<Pc>, t: nat, pc: Pc)
    requires t < |threads|
    ensures Sum(threads[t := pc], InSection) == Sum(threads, InSection) - InSection(threads[t]) + InSection(pc)
    ensures Sum(threads[t := pc], HoldsSlot) == Sum(threads, HoldsSlot) - HoldsSlot(threads[t]) + HoldsSlot(pc)
    ensures Sum(threads[t := pc], OwesSlot) == Sum(threads, OwesSlot) - OwesSlot(threads[t]) + OwesSlot(pc)
    ensures Sum(threads[t := pc], OwesItem) == Sum(threads, OwesItem) - OwesItem(threads[t]) + OwesItem(pc)
    ensures Sum(threads[t := pc], HoldsItem) == Sum(threads, HoldsItem) - HoldsItem(threads[t]) + HoldsItem(pc)
    ensures Sum(threads[t := pc], AtStore) == Sum(threads, AtStore) - AtStore(threads[t]) + AtStore(pc)
    ensures Sum(threads[t := pc], AtLoad) == Sum(threads, AtLoad) - AtLoad(threads[t]) + AtLoad(pc)
  {
    SumUpdate(threads, InSection, t, pc);
    SumUpdate(threads, HoldsSlot, t, pc);
    SumUpdate(threads, OwesSlot, t, pc);
    SumUpdate(threads, OwesItem, t, pc);
    SumUpdate(threads, HoldsItem, t, pc);
    SumUpdate(threads, AtStore, t, pc);
    SumUpdate(threads, AtLoad, t, pc);
  }

  lemma FireCounted(s: System, t: nat)
    requires Inv(s) && t < |s.threads| && Enabled(s.ring, s.threads[t])
    ensures Counted(Fire(s, t))
  {
    CountsMove(s.threads, t, NextPc(s, s.threads[t]));
    SumAtLeast(s.threads, InSection, t);
    SumAtLeast(s.threads, HoldsSlot, t);
    SumAtLeast(s.threads, HoldsItem, t);
    SumAtLeast(s.threads, AtStore, t);
    SumAtLeast(s.threads, AtLoad, t);
  }

  /** Mutual exclusion: while one thread is in the critical section every other thread is outside. */
  lemma OneInSection(s: System, t: nat, u: nat)
    requires Inv(s) && t < |s.threads| && u < |s.threads| && t != u && InSection(s.threads[t]) == 1
    ensures InSection(s.threads[u]) == 0
  {
    SumAtLeastTwo(s.threads, InSection, t, u);
  }

  /** A thread in the critical section is alone there, so the other one-in-section counts are its own. */
  lemma SectionCounts(s: System, t: nat)
    requires Inv(s) && t < |s.threads| && InSection(s.threads[t]) == 1
    ensures Sum(s.threads, AtStore) == AtStore(s.threads[t])
    ensures Sum(s.threads, AtLoad) == AtLoad(s.threads[t])
  {
    var rest := s.threads[t := Idle];
    CountsMove(s.threads, t, Idle);
    forall u | 0 <= u < |rest|
      ensures AtStore(rest[u]) == 0 && AtLoad(rest[u]) == 0
    {
      if u != t { OneInSection(s, t, u); }
    }
    SumZero(rest, AtStore);
    SumZero(rest, AtLoad);
  }

  /** Storing the newest value leaves the slots of the at most n - 1 others alone. */
  lemma StoreKeepsOrder(buf: seq<int>, n: nat, from: nat, sent: seq<int>, rear: nat, x: int)
    requires |buf| == n > 0 && from <= |sent| < from + n && rear == |sent| + 1
    requires InSlots(buf, n, from, sent)
    ensures InSlots(buf[rear % n := x], n, from, sent + [x])
  {
    var buf' := buf[rear % n := x];
    forall k | from < k <= rear ensures buf'[k % n] == (sent + [x])[k - 1] {
      if k < rear {
        ModDistinct(k, rear, n);
      }
    }
  }

  /** At its store a thread has the newest slot, and room for it. */
  lemma StoreCounts(s: System, t: nat)
    requires Inv(s) && t < |s.threads| && s.threads[t].RearBumped?
    ensures s.ring.rear == |s.sent| + 1 && |s.received| <= |s.sent| < |s.received| + s.ring.n
  {
    SectionCounts(s, t);
  }

  /** At its load a thread has the oldest unread slot. */
  lemma LoadCounts(s: System, t: nat)
    requires Inv(s) && t < |s.threads| && s.threads[t].FrontBumped?
    ensures s.ring.front == |s.received| + 1 && |s.received| < |s.sent|
  {
    SectionCounts(s, t);
  }

  lemma FireStore(s: System, t: nat)
    requires Inv(s) && t < |s.threads| && s.threads[t].RearBumped?
    ensures Fifo(Fire(s, t))
  {
    StoreCounts(s, t);
    StoreKeepsOrder(s.ring.buf, s.ring.n, |s.received|, s.sent, s.ring.rear, s.threads[t].item);
    assert s.received <= s.sent + [s.threads[t].item];
  }

  /** Loading the oldest unread value leaves the others to be read. */
  lemma LoadKeepsOrder(buf: seq<int>, n: nat, received: seq<int>, sent: seq<int>, front: nat)
    requires |buf| == n > 0 && received <= sent && |received| < |sent| && front == |received| + 1
    requires InSlots(buf, n, |received|, sent)
    ensures received + [buf[front % n]] <= sent
    ensures InSlots(buf, n, |received| + 1, sent)
  {
    assert buf[front % n] == sent[front - 1];
    assert sent[..front] == sent[..|received|] + [sent[|received|]];
  }

  lemma LoadEffect(s: System, t: nat)
    requires Inv(s) && t < |s.threads| && s.threads[t].FrontBumped?
    ensures var s' := Fire(s, t);
      && s'.ring == s.ring && s'.sent == s.sent
      && s'.received == s.received + [s.ring.buf[s.ring.front % s.ring.n]]
  {
  }

  lemma FireLoad(s: System, t: nat)
    requires Inv(s) && t < |s.threads| && s.threads[t].FrontBumped?
    ensures Fifo(Fire(s, t))
  {
    LoadCounts(s, t);
    LoadEffect(s, t);
    LoadKeepsOrder(s.ring.buf, s.ring.n, s.received, s.sent, s.ring.front);
  }

  lemma FireFifo(s: System, t: nat)
    requires Inv(s) && t < |s.threads| && Enabled(s.ring, s.threads[t])
    ensures Fifo(Fire(s, t))
  {
    if s.threads[t].RearBumped? {
      FireStore(s, t);
    } else if s.threads[t].FrontBumped? {
      FireLoad(s, t);
    }
  }

  lemma FireDelivery(s: System, t: nat)
    requires Inv(s) && t < |s.threads| && Enabled(s.ring, s.threads[t])
    ensures Delivery(Fire(s, t))
  {
    var s', pc := Fire(s, t), s.threads[t];
    forall k | 0 <= k < |s'.received|
      ensures k in s'.delivered || InSomeHand(s'.threads, k)
    {
      if k == |s.received| {
        assert s'.threads[t].k == k;
      } else if k !in s.delivered {
        var u :| 0 <= u < |s.threads| && InFlight(s.threads[u]) && s.threads[u].k == k;
        assert u != t ==> s'.threads[u] == s.threads[u];
        assert u == t && pc.Loaded? ==> s'.threads[t].k == k;
      }
    }
  }

  lemma BeginKeepsInv(s: System, t: nat, c: Call)
    requires Inv(s) && t < |s.threads| && s.threads[t].Idle?
    ensures Inv(Begin(s, t, c))
  {
    var s' := Begin(s, t, c);
    CountsMove(s.threads, t, s'.threads[t]);
    forall k | 0 <= k < |s.received|
      ensures k in s'.delivered || InSomeHand(s'.threads, k)
    {
      if k !in s.delivered {
        var u :| 0 <= u < |s.threads| && InFlight(s.threads[u]) && s.threads[u].k == k;
        assert s'.threads[u] == s.threads[u];
      }
    }
  }

  lemma InitInv(s: System)
    requires Init(s)
    ensures Inv(s)
  {
    SumZero(s.threads, InSection);
    SumZero(s.threads, HoldsSlot);
    SumZero(s.threads, OwesSlot);
    SumZero(s.threads, OwesItem);
    SumZero(s.threads, HoldsItem);
    SumZero(s.threads, AtStore);
    SumZero(s.threads, AtLoad);
  }

  lemma NextKeepsInv(s: System, s': System)
    requires Inv(s) && Next(s, s')
    ensures Inv(s')
  {
    var t: nat :| t < |s.threads| && StepOf(s, t, s');
    if Enabled(s.ring, s.threads[t]) && s' == Fire(s, t) {
      FireCounted(s, t);
      FireFifo(s, t);
      FireDelivery(s, t);
    } else {
      var c :| s' == Begin(s, t, c);
      BeginKeepsInv(s, t, c);
    }
  }

  /** The invariant holds in every state of every run. */
  lemma {:induction false} RunInv(run: seq<System>, i: nat)
    requires IsRun(run) && i < |run|
    ensures Inv(run[i])
  {
    if i == 0 {
      InitInv(run[0]);
    } else {
      RunInv(run, i - 1);
      NextKeepsInv(run[i - 1], run[i]);
    }
  }

  // ----- what the invariant means for callers

  /** The queue the ring stands for: everything stored and not yet loaded. */
  function Queue(s: System): seq<int> {
    if |s.received| <= |s.sent| then s.sent[|s.received|..] else []
  }

  /** In every run the ring is a bounded first-in first-out queue: what was received is a prefix of
      what was sent, the rest is stored in order in the ring, at most n values are waiting, and each
      removing call returned the value that its turn entitled it to. */
  lemma RunIsFifo(run: seq<System>, i: nat)
    requires IsRun(run) && i < |run|
    ensures var s := run[i];
      && s.received <= s.sent && s.sent == s.received + Queue(s)
      && |Queue(s)| <= s.ring.n
      && |s.ring.buf| == s.ring.n > 0
      && (forall j :: 0 <= j < |Queue(s)| ==> s.ring.buf[(|s.received| + 1 + j) % s.ring.n] == Queue(s)[j])
      && (forall k :: k in s.delivered ==> k < |s.sent| && s.delivered[k] == s.sent[k])
  {
    RunInv(run, i);
    QueueBounded(run[i]);
    var s := run[i];
    forall j | 0 <= j < |Queue(s)|
      ensures s.ring.buf[(|s.received| + 1 + j) % s.ring.n] == Queue(s)[j]
    {
      var k := |s.received| + 1 + j;
      assert s.ring.buf[k % s.ring.n] == s.sent[k - 1];
    }
  }

  lemma QueueBounded(s: System)
    requires Inv(s)
    ensures |Queue(s)| <= s.ring.n
  {
    // A thread at its load has already passed P(items), so it does not widen the window.
    if Sum(s.threads, AtLoad) > 0 {
      var t := SumWitness(s.threads, AtLoad);
      SectionCounts(s, t);
      SumAtLeast(s.threads, OwesSlot, t);
    }
  }

  lemma NextBounded(s: System, s': System)
    requires Inv(s) && Next(s, s')
    ensures |s.received| <= |s.sent| && |Queue(s')| <= s.ring.n
  {
    NextKeepsInv(s, s');
    QueueBounded(s');
  }

  /** A step that does not load appends at most one value, and takes none. */
  lemma NoLoadRefines(s: System, t: nat, s': System)
    requires s.ring.n > 0 && |s.ring.buf| == s.ring.n && t < |s.threads| && !s.threads[t].FrontBumped?
    requires StepOf(s, t, s') && |s.received| <= |s.sent|
    ensures s'.received == s.received
    ensures Queue(s') == Queue(s)
      || (|s'.sent| == |s.sent| + 1 && Queue(s') == Queue(s) + [s'.sent[|s.sent|]])
  {
  }

  /** A load takes the head. */
  lemma LoadRefines(s: System, t: nat, s': System)
    requires Inv(s) && t < |s.threads| && s.threads[t].FrontBumped? && StepOf(s, t, s')
    ensures Queue(s) != [] && s'.sent == s.sent && Queue(s') == Queue(s)[1..]
    ensures s'.received == s.received + [Queue(s)[0]]
  {
    LoadsHead(s, t);
  }

  /** The ring refines a queue of at most n values: each step leaves the queue as it is, appends a value
      while there is room, or takes its head. */
  lemma NextRefinesQueue(s: System, s': System)
    requires Inv(s) && Next(s, s')
    ensures
      || (Queue(s') == Queue(s) && s'.received == s.received)
      || (|Queue(s)| < s.ring.n && s'.received == s.received && |s'.sent| == |s.sent| + 1
          && Queue(s') == Queue(s) + [s'.sent[|s.sent|]])
      || (Queue(s) != [] && s'.sent == s.sent && Queue(s') == Queue(s)[1..]
          && s'.received == s.received + [Queue(s)[0]])
  {
    NextBounded(s, s');
    var t: nat :| t < |s.threads| && StepOf(s, t, s');
    if s.threads[t].FrontBumped? {
      LoadRefines(s, t, s');
    } else {
      NoLoadRefines(s, t, s');
    }
  }

  /** A removing thread at its load finds the head of the queue in its slot. */
  lemma LoadsHead(s: System, t: nat)
    requires Inv(s) && t < |s.threads| && s.threads[t].FrontBumped?
    ensures |s.received| < |s.sent|
    ensures s.ring.buf[s.ring.front % s.ring.n] == s.sent[|s.received|] == Queue(s)[0]
  {
    SectionCounts(s, t);
  }

  /** No step overwrites a slot whose value has not been loaded. */
  lemma UnreadSlotsKept(s: System, s': System, k: nat)
    requires Inv(s) && Next(s, s') && |s.received| < k <= |s.sent|
    ensures s'.ring.n == s.ring.n && |s'.ring.buf| == |s.ring.buf|
    ensures s'.ring.buf[k % s.ring.n] == s.ring.buf[k % s.ring.n]
  {
    var t: nat :| t < |s.threads| && StepOf(s, t, s');
    if s.threads[t].RearBumped? {
      SectionCounts(s, t);
      ModDistinct(k, s.ring.rear, s.ring.n);
    }
  }

  /** A value is handed out once: a call that returns in this step returns a value no call returned before. */
  lemma DeliveredOnce(s: System, s': System)
    requires Inv(s) && Next(s, s') && s'.delivered != s.delivered
    ensures exists k :: 0 <= k < |s.sent| && k !in s.delivered && s'.delivered == s.delivered[k := s.sent[k]]
  {
    var t: nat :| t < |s.threads| && StepOf(s, t, s');
    var pc := s.threads[t];
    assert pc.RemoveUnlocked?;
    assert s'.delivered == s.delivered[pc.k := s.sent[pc.k]];
  }

  // ----- deadlock

  ghost predicate Stuck(s: System) {
    && (exists t :: 0 <= t < |s.threads| && !s.threads[t].Idle?)
    && forall t :: 0 <= t < |s.threads| ==> !Enabled(s.ring, s.threads[t])
  }

  /** Every thread is idle or waits to insert into a full ring. */
  ghost predicate OnlyInsertersFull(s: System) {
    && s.ring.rear == s.ring.front + s.ring.n
    && forall t :: 0 <= t < |s.threads| ==> s.threads[t].Idle? || s.threads[t].InsertStart?
  }

  /** Every thread is idle or waits to remove from an empty ring. */
  ghost predicate OnlyRemoversEmpty(s: System) {
    && s.ring.rear == s.ring.front
    && forall t :: 0 <= t < |s.threads| ==> s.threads[t].Idle? || s.threads[t].RemoveStart?
  }

  /** A thread that is past its first P operation never leaves the whole system blocked. */
  lemma MidOperationCanStep(s: System, t: nat) returns (u: nat)
    requires Inv(s) && t < |s.threads|
    requires !s.threads[t].Idle? && !s.threads[t].InsertStart? && !s.threads[t].RemoveStart?
    ensures u < |s.threads| && Enabled(s.ring, s.threads[u])
  {
    if Enabled(s.ring, s.threads[t]) {
      u := t;
    } else {
      u := SumWitness(s.threads, InSection);
    }
  }

  lemma QuietCounts(s: System)
    requires Inv(s)
    requires forall t :: 0 <= t < |s.threads| ==>
      s.threads[t].Idle? || s.threads[t].InsertStart? || s.threads[t].RemoveStart?
    ensures s.ring.slots + s.ring.rear == s.ring.n + s.ring.front
    ensures s.ring.rear == s.ring.front + s.ring.items
  {
    SumZero(s.threads, HoldsSlot);
    SumZero(s.threads, OwesSlot);
    SumZero(s.threads, OwesItem);
    SumZero(s.threads, HoldsItem);
  }

  /** No thread can step only when there is nobody to make room in a full ring or nobody to fill an
      empty one; blocked inserters and blocked removers never meet. */
  lemma StuckExactly(s: System)
    requires Inv(s) && exists t :: 0 <= t < |s.threads| && !s.threads[t].Idle?
    ensures Stuck(s) <==> OnlyInsertersFull(s) || OnlyRemoversEmpty(s)
  {
    if Stuck(s) {
      forall t | 0 <= t < |s.threads|
        ensures s.threads[t].Idle? || s.threads[t].InsertStart? || s.threads[t].RemoveStart?
      {
        if !s.threads[t].Idle? && !s.threads[t].InsertStart? && !s.threads[t].RemoveStart? {
          var u := MidOperationCanStep(s, t);
        }
      }
      QuietCounts(s);
    } else if OnlyInsertersFull(s) || OnlyRemoversEmpty(s) {
      QuietCounts(s);
    }
  }

  // ----- one thread at a time: the calls as methods over the array

  /** The ring after one complete, undisturbed sbuf_insert. */
  function AfterInsert(r: Ring, x: int): Ring
    requires r.n > 0 && |r.buf| == r.n && r.slots > 0
  {
    r.(buf := r.buf[(r.rear + 1) % r.n := x], rear := r.rear + 1, slots := r.slots - 1, items := r.items + 1)
  }

  /** The ring after one complete, undisturbed sbuf_remove. */
  function AfterRemove(r: Ring): Ring
    requires r.items > 0
  {
    r.(front := r.front + 1, slots := r.slots + 1, items := r.items - 1)
  }

  predicate CanFire(s: System, t: nat) {
    s.ring.n > 0 && |s.ring.buf| == s.ring.n && t < |s.threads| && Enabled(s.ring, s.threads[t])
  }

  /** Thread `t` takes k steps with nobody in between; None when it is blocked on the way. */
  function Solo(s: System, t: nat, k: nat): Option<System>
    decreases k
  {
    if k == 0 then Some(s)
    else if CanFire(s, t) then Solo(Fire(s, t), t, k - 1)
    else None
  }

  lemma SoloFrom(s: System, t: nat, s1: System, s2: System, s3: System, s4: System, s5: System, s6: System)
    requires CanFire(s, t) && s1 == Fire(s, t) && CanFire(s1, t) && s2 == Fire(s1, t)
    requires CanFire(s2, t) && s3 == Fire(s2, t) && CanFire(s3, t) && s4 == Fire(s3, t)
    requires CanFire(s4, t) && s5 == Fire(s4, t) && CanFire(s5, t) && s6 == Fire(s5, t)
    ensures Solo(s, t, 6) == Some(s6)
  {
    assert Solo(s5, t, 1) == Some(s6);
    assert Solo(s3, t, 3) == Some(s6);
    assert Solo(s1, t, 5) == Some(s6);
  }

  /** Six undisturbed steps are the whole insertion: it succeeds exactly when a slot is free. */
  lemma SoloInsert(s: System, t: nat)
    requires s.ring.n > 0 && |s.ring.buf| == s.ring.n && s.ring.mutex == 1
    requires t < |s.threads| && s.threads[t].InsertStart?
    ensures Solo(s, t, 6) ==
      if s.ring.slots == 0 then None else
        var x := s.threads[t].item;
        Some(s.(ring := AfterInsert(s.ring, x), threads := s.threads[t := Idle], sent := s.sent + [x]))
  {
    if s.ring.slots > 0 {
      var r, x := s.ring, s.threads[t].item;
      var s1 := s.(ring := r.(slots := r.slots - 1), threads := s.threads[t := HasSlot(x)]);
      var s2 := s1.(ring := s1.ring.(mutex := 0), threads := s1.threads[t := InsertLocked(x)]);
      var s3 := s2.(ring := s2.ring.(rear := r.rear + 1), threads := s2.threads[t := RearBumped(x)]);
      var s4 := Fire(s3, t);
      var s5 := s4.(ring := s4.ring.(mutex := 1), threads := s4.threads[t := InsertUnlocked]);
      var s6 := Fire(s5, t);
      SoloFrom(s, t, s1, s2, s3, s4, s5, s6);
      assert s6.threads == s.threads[t := Idle];
    }
  }

  /** Six undisturbed steps are the whole removal: the call returns what its slot holds. */
  lemma SoloRemoveSteps(s: System, t: nat)
    requires s.ring.n > 0 && |s.ring.buf| == s.ring.n && s.ring.mutex == 1 && s.ring.items > 0
    requires t < |s.threads| && s.threads[t].RemoveStart?
    ensures var x := s.ring.buf[(s.ring.front + 1) % s.ring.n];
      Solo(s, t, 6) == Some(s.(
        ring := AfterRemove(s.ring), threads := s.threads[t := Idle],
        received := s.received + [x], delivered := s.delivered[|s.received| := x]))
  {
    var r, x, k := s.ring, s.ring.buf[(s.ring.front + 1) % s.ring.n], |s.received|;
    var s1 := s.(ring := r.(items := r.items - 1), threads := s.threads[t := HasItem]);
    var s2 := s1.(ring := s1.ring.(mutex := 0), threads := s1.threads[t := RemoveLocked]);
    var s3 := s2.(ring := s2.ring.(front := r.front + 1), threads := s2.threads[t := FrontBumped]);
    var s4 := s3.(threads := s3.threads[t := Loaded(x, k)], received := s.received + [x]);
    var s5 := s4.(ring := s4.ring.(mutex := 1), threads := s4.threads[t := RemoveUnlocked(x, k)]);
    var s6 := Fire(s5, t);
    SoloFrom(s, t, s1, s2, s3, s4, s5, s6);
    assert s6.threads == s.threads[t := Idle];
  }

  /** An undisturbed removal blocks exactly when nothing is announced, and otherwise returns the
      head of the queue. */
  lemma SoloRemove(s: System, t: nat)
    requires Inv(s) && t < |s.threads| && s.threads[t].RemoveStart? && s.ring.mutex == 1
    ensures s.ring.items == 0 ==> Solo(s, t, 6) == None
    ensures s.ring.items > 0 ==>
      && Queue(s) != []
      && Solo(s, t, 6) == Some(s.(
           ring := AfterRemove(s.ring), threads := s.threads[t := Idle],
           received := s.received + [Queue(s)[0]], delivered := s.delivered[|s.received| := Queue(s)[0]]))
  {
    if s.ring.items > 0 {
      SectionEmpty(s);
      SoloRemoveSteps(s, t);
    }
  }

  /** sbuf_insert, called by an idle thread and left alone: it blocks exactly when no slot is free, and
      otherwise appends its argument to the queue. */
  lemma InsertAlone(s: System, t: nat, item: int)
    requires Inv(s) && t < |s.threads| && s.threads[t].Idle? && s.ring.mutex == 1
    ensures Solo(Begin(s, t, Insert(item)), t, 6) ==
      if s.ring.slots == 0 then None else
        Some(s.(ring := AfterInsert(s.ring, item), sent := s.sent + [item]))
  {
    SoloInsert(Begin(s, t, Insert(item)), t);
    assert s.threads[t := InsertStart(item)][t := Idle] == s.threads;
  }

  /** sbuf_remove, likewise: it blocks exactly when nothing is announced, and otherwise returns the head
      of the queue. */
  lemma RemoveAlone(s: System, t: nat)
    requires Inv(s) && t < |s.threads| && s.threads[t].Idle? && s.ring.mutex == 1
    ensures s.ring.items == 0 ==> Solo(Begin(s, t, Remove), t, 6) == None
    ensures s.ring.items > 0 ==>
      && Queue(s) != []
      && Solo(Begin(s, t, Remove), t, 6) == Some(s.(
           ring := AfterRemove(s.ring),
           received := s.received + [Queue(s)[0]], delivered := s.delivered[|s.received| := Queue(s)[0]]))
  {
    var begun := Begin(s, t, Remove);
    BeginKeepsInv(s, t, Remove);
    SoloRemove(begun, t);
    assert Queue(begun) == Queue(s);
    assert s.threads[t := RemoveStart][t := Idle] == s.threads;
  }

  /** With the section empty, every bumped slot is stored and every loaded one counted. */
  lemma SectionEmpty(s: System)
    requires Inv(s) && s.ring.mutex == 1
    ensures |s.sent| == s.ring.rear && |s.received| == s.ring.front
    ensures s.ring.items > 0 ==>
      Queue(s) != [] && s.ring.buf[(s.ring.front + 1) % s.ring.n] == Queue(s)[0]
  {
    forall t | 0 <= t < |s.threads|
      ensures AtStore(s.threads[t]) == 0 && AtLoad(s.threads[t]) == 0
    {
      SumAtLeast(s.threads, InSection, t);
    }
    SumZero(s.threads, AtStore);
    SumZero(s.threads, AtLoad);
  }

  /** The buffer record with its array, changed in place; each method is one call made while no
      other call is in progress. A call that would sleep in its first P operation reports that and
      changes nothing. */
  class Sbuf {
    const n: nat
    const buf: array<int>
    var front: nat
    var rear: nat
    var mutex: nat
    var slots: nat
    var items: nat

    ghost predicate Valid()
      reads this, buf
    {
      && n > 0 && buf.Length == n && mutex == 1
      && rear == front + items && items + slots == n
    }

    function View(): Ring
      reads this, buf
    {
      Ring(n, buf[..], front, rear, mutex, slots, items)
    }

    /** The stored values, oldest first. */
    ghost function Contents(): seq<int>
      requires Valid()
      reads this, buf
    {
      seq(items, j requires 0 <= j < items reads this, buf requires Valid() => buf[(front + 1 + j) % n])
    }

    constructor (n: nat)
      requires n > 0
      ensures Valid() && Contents() == [] && this.n == n && slots == n
      ensures front == 0 && rear == 0 && fresh(buf)
    {
      this.n := n;
      buf := new int[n](_ => 0);
      front, rear := 0, 0;
      mutex, slots, items := 1, n, 0;
    }

    method Insert(item: int) returns (blocked: bool)
      requires Valid()
      modifies this, buf
      ensures Valid()
      ensures blocked == (old(|Contents()|) == n)
      ensures Contents() == if blocked then old(Contents()) else old(Contents()) + [item]
      ensures if blocked then View() == old(View()) else old(slots) > 0 && View() == AfterInsert(old(View()), item)
    {
      if slots == 0 {
        return true;
      }
      slots := slots - 1;
      mutex := mutex - 1;
      rear := rear + 1;
      buf[rear % n] := item;
      mutex := mutex + 1;
      items := items + 1;
      forall j | 0 <= j < items - 1
        ensures Contents()[j] == old(Contents())[j]
      {
        ModDistinct(front + 1 + j, rear, n);
      }
      return false;
    }

    method Remove() returns (blocked: bool, item: int)
      requires Valid()
      modifies this
      ensures Valid()
      ensures blocked == (old(Contents()) == [])
      ensures !blocked ==> old(Contents()) == [item] + Contents()
      ensures if blocked then View() == old(View()) else old(items) > 0 && View() == AfterRemove(old(View()))
    {
      if items == 0 {
        return true, 0;
      }
      items := items - 1;
      mutex := mutex - 1;
      front := front + 1;
      item := buf[front % n];
      mutex := mutex + 1;
      slots := slots + 1;
      blocked := false;
    }
  }
}
