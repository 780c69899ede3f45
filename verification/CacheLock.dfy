/** The readers-writers lock and the size accounting of first-proxylab-handout/cache.c. */
module CacheLock {
  // A pool of threads calls cache_insert and cache_find_object in any interleaving; each semaphore
  // operation and each access to `readers`, `rear`, `buf` or `size` is one step. The scan inside
  // cache_find_object is one program counter: what matters here is who may be in it. `stored` records
  // the objects in the order they were written.

  import opened Arithmetic
  import opened Options
  import opened Sums

  const MAX_CACHE_SIZE: nat := 1049000
  const MAX_OBJECT_SIZE: nat := 102400

  datatype Object = Object(size: nat, url: string, content: string)

  datatype Pc =
    | Idle
    // cache_insert
    | Offered(o: Object)
    | ObjectFits(o: Object)
    | WantWrite(o: Object)
    | Writing(o: Object)
    | RearBumped(o: Object)
    | Written(o: Object)
    | SizeLoaded(o: Object, before: nat)
    | SizeStored
    // cache_find_object
    | EnterWant
    | EnterLocked
    | EnterCounted
    | FirstWait
    | EnterUnlock
    | Scanning
    | ExitWant
    | ExitLocked
    | ExitCounted
    | LastPost
    | ExitUnlock

  datatype Cache = Cache(
    n: nat, buf: seq<Option<Object>>, size: nat, rear: nat, mutex: nat, rw: nat, readers: int)

  datatype System = System(cache: Cache, threads: seq<Pc>, stored: seq<Object>)

  datatype Call = Insert(o: Object) | Find

  // ----- the steps

  predicate Enabled(c: Cache, pc: Pc) {
    match pc
    case Idle => false
    case WantWrite(_) => c.rw > 0
    case EnterWant => c.mutex > 0
    case FirstWait => c.rw > 0
    case ExitWant => c.mutex > 0
    case _ => true
  }

  function NextPc(c: Cache, pc: Pc): Pc {
    match pc
    case Idle => Idle
    case Offered(o) => if o.size > MAX_OBJECT_SIZE then Idle else ObjectFits(o)
    case ObjectFits(o) => if o.size + c.size > MAX_CACHE_SIZE then Idle else WantWrite(o)
    case WantWrite(o) => Writing(o)
    case Writing(o) => RearBumped(o)
    case RearBumped(o) => Written(o)
    case Written(o) => SizeLoaded(o, c.size)
    case SizeLoaded(_, _) => SizeStored
    case SizeStored => Idle
    case EnterWant => EnterLocked
    case EnterLocked => EnterCounted
    case EnterCounted => if c.readers == 1 then FirstWait else EnterUnlock
    case FirstWait => EnterUnlock
    case EnterUnlock => Scanning
    case Scanning => ExitWant
    case ExitWant => ExitLocked
    case ExitLocked => ExitCounted
    case ExitCounted => if c.readers == 0 then LastPost else ExitUnlock
    case LastPost => ExitUnlock
    case ExitUnlock => Idle
  }

  predicate Shaped(c: Cache) { c.n > 0 && |c.buf| == c.n }

  function NextCache(c: Cache, pc: Pc): Cache
    requires Shaped(c) && Enabled(c, pc)
  {
    match pc
    case WantWrite(_) => c.(rw := c.rw - 1)
    case Writing(_) => c.(rear := c.rear + 1)
    case RearBumped(o) => c.(buf := c.buf[c.rear % c.n := Some(o)])
    case SizeLoaded(o, before) => c.(size := before + o.size)
    case SizeStored => c.(rw := c.rw + 1)
    case EnterWant => c.(mutex := c.mutex - 1)
    case EnterLocked => c.(readers := c.readers + 1)
    case FirstWait => c.(rw := c.rw - 1)
    case EnterUnlock => c.(mutex := c.mutex + 1)
    case ExitWant => c.(mutex := c.mutex - 1)
    case ExitLocked => c.(readers := c.readers - 1)
    case LastPost => c.(rw := c.rw + 1)
    case ExitUnlock => c.(mutex := c.mutex + 1)
    case _ => c
  }

  predicate CanFire(s: System, t: nat) {
    Shaped(s.cache) && t < |s.threads| && Enabled(s.cache, s.threads[t])
  }

  function Fire(s: System, t: nat): System
    requires CanFire(s, t)
  {
    var pc := s.threads[t];
    System(
      NextCache(s.cache, pc),
      s.threads[t := NextPc(s.cache, pc)],
      if pc.RearBumped? then s.stored + [pc.o] else s.stored)
  }

  function Begin(s: System, t: nat, call: Call): System
    requires t < |s.threads|
  {
    s.(threads := s.threads[t := match call case Insert(o) => Offered(o) case Find => EnterWant])
  }

  ghost predicate StepOf(s: System, t: nat, s': System) {
    || (CanFire(s, t) && s' == Fire(s, t))
    || (t < |s.threads| && s.threads[t].Idle? && exists call :: s' == Begin(s, t, call))
  }

  ghost predicate Next(s: System, s': System) {
    exists t: nat :: StepOf(s, t, s')
  }

  ghost predicate Init(s: System) {
    && Shaped(s.cache)
    && s.cache.size == s.cache.rear == s.cache.readers == 0
    && s.cache.mutex == s.cache.rw == 1
    && (forall t :: 0 <= t < |s.threads| ==> s.threads[t].Idle?)
    && s.stored == []
  }

  ghost predicate IsRun(run: seq<System>) {
    && |run| > 0 && Init(run[0])
    && forall i :: 0 <= i < |run| - 1 ==> Next(run[i], run[i + 1])
  }

  ghost predicate Reachable(s: System) {
    exists run :: IsRun(run) && run[|run| - 1] == s
  }

  // ----- the thread counts

  function HoldsMutex(pc: Pc): nat {
    if pc.EnterLocked? || pc.EnterCounted? || pc.FirstWait? || pc.EnterUnlock?
       || pc.ExitLocked? || pc.ExitCounted? || pc.LastPost? || pc.ExitUnlock? then 1 else 0
  }
  /** Inside the part of cache_insert that `rw` protects. */
  function InWrite(pc: Pc): nat {
    if pc.Writing? || pc.RearBumped? || pc.Written? || pc.SizeLoaded? || pc.SizeStored? then 1 else 0
  }
  /** Between its `readers++` and its `readers--`. */
  function IsReader(pc: Pc): nat {
    if pc.EnterCounted? || pc.FirstWait? || pc.EnterUnlock? || pc.Scanning? || pc.ExitWant? || pc.ExitLocked?
    then 1 else 0
  }
  /** Counted as a reader but not yet past its own acquisition of `rw`. */
  function Entering(pc: Pc): nat { if pc.EnterCounted? || pc.FirstWait? then 1 else 0 }
  /** No longer counted, but `rw` not yet handed back on its account. */
  function Leaving(pc: Pc): nat { if pc.ExitCounted? || pc.LastPost? then 1 else 0 }
  function AtStore(pc: Pc): nat { if pc.RearBumped? then 1 else 0 }
  /** Bytes written to `buf` but not yet added to `size`. */
  function Unadded(pc: Pc): nat { if pc.Written? || pc.SizeLoaded? then pc.o.size else 0 }
  /** Bytes that passed the capacity check but are not yet added to `size`. */
  function Pending(pc: Pc): nat {
    if pc.WantWrite? || pc.Writing? || pc.RearBumped? || pc.Written? || pc.SizeLoaded? then pc.o.size else 0
  }
  function ObjectSize(o: Object): nat { o.size }

  // ----- the invariant

  /** Do the readers, as a group, hold `rw`? */
  ghost predicate GroupHolds(s: System) {
    s.cache.readers + Sum(s.threads, Leaving) > Sum(s.threads, Entering)
  }

  ghost predicate Locks(s: System) {
    var c := s.cache;
    && c.mutex + Sum(s.threads, HoldsMutex) == 1
    && c.readers == Sum(s.threads, IsReader)
    && c.rw + Sum(s.threads, InWrite) + (if GroupHolds(s) then 1 else 0) == 1
    && (forall t :: 0 <= t < |s.threads| ==>
          && (s.threads[t].FirstWait? ==> c.readers == 1)
          && (s.threads[t].LastPost? ==> c.readers == 0))
  }

  /** `size` is the total of what was stored, but for what the one writer still has to add. */
  ghost predicate Accounts(s: System) {
    && s.cache.size + Sum(s.threads, Unadded) == Sum(s.stored, ObjectSize)
    && |s.stored| + Sum(s.threads, AtStore) == s.cache.rear
    && (forall t :: 0 <= t < |s.threads| && s.threads[t].SizeLoaded? ==> s.threads[t].before == s.cache.size)
  }

  /** The last n stored objects are in their slots. */
  ghost predicate Slots(s: System)
    requires Shaped(s.cache)
  {
    forall k :: 0 < k <= |s.stored| && |s.stored| - s.cache.n < k ==>
      s.cache.buf[k % s.cache.n] == Some(s.stored[k - 1])
  }

  ghost predicate Small(threads: seq<Pc>) {
    forall t :: 0 <= t < |threads| ==>
      && Pending(threads[t]) <= MAX_OBJECT_SIZE
      && (threads[t].ObjectFits? ==> threads[t].o.size <= MAX_OBJECT_SIZE)
  }

  ghost predicate Bounded(s: System) {
    && Small(s.threads)
    && (s.threads != [] ==>
          s.cache.size + Sum(s.threads, Pending) <= MAX_CACHE_SIZE + (|s.threads| - 1) * MAX_OBJECT_SIZE)
  }

  ghost predicate Inv(s: System) {
    Shaped(s.cache) && Locks(s) && Accounts(s) && Slots(s) && Bounded(s)
  }

  // ----- preservation

  lemma LockCountsMove(threads: seq<Pc>, t: nat, pc: Pc)
    requires t < |threads|
    ensures Sum(threads[t := pc], HoldsMutex) == Sum(threads, HoldsMutex) - HoldsMutex(threads[t]) + HoldsMutex(pc)
    ensures Sum(threads[t := pc], InWrite) == Sum(threads, InWrite) - InWrite(threads[t]) + InWrite(pc)
    ensures Sum(threads[t := pc], IsReader) == Sum(threads, IsReader) - IsReader(threads[t]) + IsReader(pc)
    ensures Sum(threads[t := pc], Entering) == Sum(threads, Entering) - Entering(threads[t]) + Entering(pc)
    ensures Sum(threads[t := pc], Leaving) == Sum(threads, Leaving) - Leaving(threads[t]) + Leaving(pc)
  {
    SumUpdate(threads, HoldsMutex, t, pc);
    SumUpdate(threads, InWrite, t, pc);
    SumUpdate(threads, IsReader, t, pc);
    SumUpdate(threads, Entering, t, pc);
    SumUpdate(threads, Leaving, t, pc);
  }

  lemma SizeCountsMove(threads: seq<Pc>, t: nat, pc: Pc)
    requires t < |threads|
    ensures Sum(threads[t := pc], AtStore) == Sum(threads, AtStore) - AtStore(threads[t]) + AtStore(pc)
    ensures Sum(threads[t := pc], Unadded) == Sum(threads, Unadded) - Unadded(threads[t]) + Unadded(pc)
    ensures Sum(threads[t := pc], Pending) == Sum(threads, Pending) - Pending(threads[t]) + Pending(pc)
  {
    SumUpdate(threads, AtStore, t, pc);
    SumUpdate(threads, Unadded, t, pc);
    SumUpdate(threads, Pending, t, pc);
  }

  lemma OneHoldsMutex(s: System, t: nat, u: nat)
    requires Locks(s) && t < |s.threads| && u < |s.threads| && t != u && HoldsMutex(s.threads[t]) == 1
    ensures HoldsMutex(s.threads[u]) == 0
  {
    SumAtLeastTwo(s.threads, HoldsMutex, t, u);
  }

  lemma OneWrites(s: System, t: nat, u: nat)
    requires Locks(s) && t < |s.threads| && u < |s.threads| && t != u && InWrite(s.threads[t]) == 1
    ensures InWrite(s.threads[u]) == 0
  {
    SumAtLeastTwo(s.threads, InWrite, t, u);
  }

  /** Whoever holds the mutex is the only one entering or leaving. */
  lemma MutexCounts(s: System, t: nat)
    requires Locks(s) && t < |s.threads| && HoldsMutex(s.threads[t]) == 1
    ensures Sum(s.threads, Entering) == Entering(s.threads[t])
    ensures Sum(s.threads, Leaving) == Leaving(s.threads[t])
  {
    var rest := s.threads[t := Idle];
    LockCountsMove(s.threads, t, Idle);
    forall u | 0 <= u < |rest|
      ensures Entering(rest[u]) == 0 && Leaving(rest[u]) == 0
    {
      if u != t { OneHoldsMutex(s, t, u); }
    }
    SumZero(rest, Entering);
    SumZero(rest, Leaving);
  }

  /** The one writer's bytes are the only ones stored but not added. */
  lemma WriterCounts(s: System, t: nat)
    requires Locks(s) && t < |s.threads| && InWrite(s.threads[t]) == 1
    ensures Sum(s.threads, AtStore) == AtStore(s.threads[t])
    ensures Sum(s.threads, Unadded) == Unadded(s.threads[t])
  {
    var rest := s.threads[t := Idle];
    SizeCountsMove(s.threads, t, Idle);
    forall u | 0 <= u < |rest|
      ensures AtStore(rest[u]) == 0 && Unadded(rest[u]) == 0
    {
      if u != t { OneWrites(s, t, u); }
    }
    SumZero(rest, AtStore);
    SumZero(rest, Unadded);
  }

  lemma FireLocks(s: System, t: nat)
    requires Locks(s) && CanFire(s, t)
    ensures Locks(Fire(s, t))
  {
    var s', pc := Fire(s, t), s.threads[t];
    LockCountsMove(s.threads, t, s'.threads[t]);
    SumAtLeast(s.threads, HoldsMutex, t);
    SumAtLeast(s.threads, IsReader, t);
    SumAtLeast(s.threads, InWrite, t);
    if HoldsMutex(pc) == 1 {
      MutexCounts(s, t);
      forall u | 0 <= u < |s.threads| && u != t
        ensures !s'.threads[u].FirstWait? && !s'.threads[u].LastPost?
      {
        OneHoldsMutex(s, t, u);
      }
    }
  }

  lemma FireAccounts(s: System, t: nat)
    requires CanFire(s, t) && Locks(s) && Accounts(s) && Slots(s)
    ensures Accounts(Fire(s, t)) && Slots(Fire(s, t))
  {
    var s', pc, n := Fire(s, t), s.threads[t], s.cache.n;
    SizeCountsMove(s.threads, t, s'.threads[t]);
    if InWrite(pc) == 1 {
      WriterCounts(s, t);
      forall u | 0 <= u < |s.threads| && u != t
        ensures !s'.threads[u].SizeLoaded?
      {
        OneWrites(s, t, u);
      }
    }
    if pc.RearBumped? {
      SumAppend(s.stored, [pc.o], ObjectSize);
      assert Sum([pc.o], ObjectSize) == pc.o.size;
      forall k | 0 < k <= |s.stored| && |s'.stored| - n < k
        ensures s'.cache.buf[k % n] == Some(s'.stored[k - 1])
      {
        ModDistinct(k, s.cache.rear, n);
      }
    }
  }

  /** The capacity check reads `size` without the lock, so the other threads' pending objects count
      against the bound, at most MAX_OBJECT_SIZE each. */
  lemma OthersPending(threads: seq<Pc>, t: nat)
    requires Small(threads) && t < |threads|
    ensures Sum(threads, Pending) <= Pending(threads[t]) + (|threads| - 1) * MAX_OBJECT_SIZE
  {
    var before, after := threads[..t], threads[t + 1..];
    assert threads == before + ([threads[t]] + after);
    SumAppend(before, [threads[t]] + after, Pending);
    SumAppend([threads[t]], after, Pending);
    SumBound(before, Pending, MAX_OBJECT_SIZE);
    SumBound(after, Pending, MAX_OBJECT_SIZE);
  }

  lemma FireBounded(s: System, t: nat)
    requires CanFire(s, t) && Accounts(s) && Bounded(s)
    ensures Bounded(Fire(s, t))
  {
    var s', pc := Fire(s, t), s.threads[t];
    SizeCountsMove(s.threads, t, s'.threads[t]);
    SumAtLeast(s.threads, Pending, t);
    OthersPending(s.threads, t);
  }

  lemma BeginKeepsInv(s: System, t: nat, call: Call)
    requires Inv(s) && t < |s.threads| && s.threads[t].Idle?
    ensures Inv(Begin(s, t, call))
  {
    var s' := Begin(s, t, call);
    LockCountsMove(s.threads, t, s'.threads[t]);
    SizeCountsMove(s.threads, t, s'.threads[t]);
  }

  lemma InitInv(s: System)
    requires Init(s)
    ensures Inv(s)
  {
    SumZero(s.threads, HoldsMutex);
    SumZero(s.threads, InWrite);
    SumZero(s.threads, IsReader);
    SumZero(s.threads, Entering);
    SumZero(s.threads, Leaving);
    SumZero(s.threads, AtStore);
    SumZero(s.threads, Unadded);
    SumZero(s.threads, Pending);
  }

  lemma NextKeepsInv(s: System, s': System)
    requires Inv(s) && Next(s, s')
    ensures Inv(s')
  {
    var t: nat :| StepOf(s, t, s');
    if CanFire(s, t) && s' == Fire(s, t) {
      FireLocks(s, t);
      FireAccounts(s, t);
      FireBounded(s, t);
    } else {
      var call :| s' == Begin(s, t, call);
      BeginKeepsInv(s, t, call);
    }
  }

  lemma {:induction false} RunInv(run: seq<System>, i: nat)
    requires IsRun(run) && i < |run|
    ensures Inv(run[i])
  {
    if i == 0 {
      InitInv(run[0]);
    } else {
      RunInv(run, i - 1);
      NextKeepsInv(run[i - 1], run[i]);
    }
  }

  lemma ReachableInv(s: System)
    requires Reachable(s)
    ensures Inv(s)
  {
    var run :| IsRun(run) && run[|run| - 1] == s;
    RunInv(run, |run| - 1);
  }

  // ----- mutual exclusion, deadlock freedom

  /** In every reachable state at most one writer is inside, no writer is inside while a reader
      scans, and `readers` counts the calls between their increment and their decrement. */
  lemma ReadersWritersExclusion(s: System)
    requires Reachable(s)
    ensures s.cache.readers == Sum(s.threads, IsReader)
    ensures forall t, u :: 0 <= t < |s.threads| && 0 <= u < |s.threads| && t != u && InWrite(s.threads[t]) == 1 ==>
      InWrite(s.threads[u]) == 0 && !s.threads[u].Scanning?
  {
    ReachableInv(s);
    forall t, u | 0 <= t < |s.threads| && 0 <= u < |s.threads| && t != u && InWrite(s.threads[t]) == 1
      ensures InWrite(s.threads[u]) == 0 && !s.threads[u].Scanning?
    {
      OneWrites(s, t, u);
      if s.threads[u].Scanning? {
        ScanningMeansHeld(s, u);
        SumAtLeast(s.threads, InWrite, t);
      }
    }
  }

  /** A scanning reader has the whole group holding `rw`, whatever the others are doing. */
  lemma ScanningMeansHeld(s: System, u: nat)
    requires Inv(s) && u < |s.threads| && s.threads[u].Scanning?
    ensures GroupHolds(s)
  {
    SumAtLeast(s.threads, IsReader, u);
    if Sum(s.threads, Entering) > 0 {
      var v := SumWitness(s.threads, Entering);
      MutexCounts(s, v);
      SumAtLeastTwo(s.threads, IsReader, u, v);
    }
  }

  /** If some call is in progress, some call in progress can take a step. */
  lemma NoDeadlock(s: System, t: nat) returns (u: nat)
    requires Reachable(s) && t < |s.threads| && !s.threads[t].Idle?
    ensures CanFire(s, u)
  {
    ReachableInv(s);
    if CanFire(s, t) {
      u := t;
    } else if Sum(s.threads, InWrite) > 0 {
      u := SumWitness(s.threads, InWrite);
    } else if Sum(s.threads, HoldsMutex) > 0 {
      u := SumWitness(s.threads, HoldsMutex);
      MutexCounts(s, u);
      SumAtLeast(s.threads, IsReader, u);
    } else if GroupHolds(s) {
      // Nobody is entering or leaving, so some counted reader is in its scan or past it.
      if Sum(s.threads, Leaving) > 0 {
        var v := SumWitness(s.threads, Leaving);
        SumAtLeast(s.threads, HoldsMutex, v);
      }
      u := SumWitness(s.threads, IsReader);
      SumAtLeast(s.threads, HoldsMutex, u);
    } else {
      u := t;
      SumAtLeast(s.threads, HoldsMutex, t);
    }
  }

  // ----- the size bound

  /** The bound that T threads keep: one cache, and one object for each thread but the first. */
  function SizeBound(threads: nat): nat
    requires threads > 0
  {
    MAX_CACHE_SIZE + (threads - 1) * MAX_OBJECT_SIZE
  }

  /** In every reachable state the cached bytes, and those about to be added, stay within the bound,
      no update of `size` is lost, and the last n stored objects are in their slots. */
  lemma SizeStaysBounded(s: System)
    requires Reachable(s) && s.threads != []
    ensures s.cache.size + Sum(s.threads, Pending) <= SizeBound(|s.threads|)
    ensures s.cache.size <= Sum(s.stored, ObjectSize) <= s.cache.size + Sum(s.threads, Pending)
    ensures Shaped(s.cache) && Slots(s)
  {
    ReachableInv(s);
    UnaddedIsPending(s.threads);
  }

  lemma {:induction false} UnaddedIsPending(threads: seq<Pc>)
    ensures Sum(threads, Unadded) <= Sum(threads, Pending)
  {
    if threads != [] {
      UnaddedIsPending(threads[1..]);
    }
  }

  lemma StepReaches(s: System, s': System)
    requires Reachable(s) && Next(s, s')
    ensures Reachable(s')
  {
    var run :| IsRun(run) && run[|run| - 1] == s;
    var longer := run + [s'];
    forall i | 0 <= i < |longer| - 1
      ensures Next(longer[i], longer[i + 1])
    {
      if i < |run| - 1 {
        assert Next(run[i], run[i + 1]);
      }
    }
    assert IsRun(longer);
  }

  lemma FireReaches(s: System, t: nat)
    requires Reachable(s) && CanFire(s, t)
    ensures Reachable(Fire(s, t))
  {
    assert StepOf(s, t, Fire(s, t));
    StepReaches(s, Fire(s, t));
  }

  /** An idle thread offers an object that fits and passes both checks. */
  lemma PassChecks(s: System, t: nat, o: Object) returns (s': System)
    requires Reachable(s) && Shaped(s.cache) && t < |s.threads| && s.threads[t].Idle?
    requires o.size <= MAX_OBJECT_SIZE && s.cache.size + o.size <= MAX_CACHE_SIZE
    ensures Reachable(s') && s' == s.(threads := s.threads[t := WantWrite(o)])
  {
    var s1 := Begin(s, t, Insert(o));
    assert StepOf(s, t, s1);
    StepReaches(s, s1);
    FireReaches(s1, t);
    var s2 := Fire(s1, t);
    FireReaches(s2, t);
    s' := Fire(s2, t);
    assert s'.threads == s.threads[t := WantWrite(o)];
  }

  /** A thread past the checks adds its object while the others stand still. */
  lemma AddObject(s: System, t: nat) returns (s': System)
    requires Reachable(s) && Shaped(s.cache) && s.cache.rw == 1 && t < |s.threads| && s.threads[t].WantWrite?
    ensures Reachable(s') && Shaped(s'.cache) && s'.cache.rw == 1
    ensures s'.threads == s.threads[t := Idle] && s'.cache.size == s.cache.size + s.threads[t].o.size
  {
    var o := s.threads[t].o;
    FireReaches(s, t);
    var s1 := Fire(s, t);
    FireReaches(s1, t);
    var s2 := Fire(s1, t);
    FireReaches(s2, t);
    var s3 := Fire(s2, t);
    FireReaches(s3, t);
    var s4 := Fire(s3, t);
    FireReaches(s4, t);
    var s5 := Fire(s4, t);
    FireReaches(s5, t);
    s' := Fire(s5, t);
    assert s'.threads == s.threads[t := Idle];
  }

  ghost predicate Quiet(s: System, threads: nat) {
    Shaped(s.cache) && s.cache.rw == 1 && s.threads == seq(threads, i => Idle)
  }

  /** One thread can fill the cache to any size, one object after another. */
  lemma {:induction false} Fill(threads: nat, size: nat) returns (s: System)
    requires threads > 0 && size <= MAX_CACHE_SIZE
    ensures Reachable(s) && Quiet(s, threads) && s.cache.size == size
    decreases size
  {
    if size == 0 {
      s := System(Cache(1, [None], 0, 0, 1, 1, 0), seq(threads, i => Idle), []);
      assert IsRun([s]) && [s][|[s]| - 1] == s;
    } else {
      var last := if size <= MAX_OBJECT_SIZE then size else MAX_OBJECT_SIZE;
      var s0 := Fill(threads, size - last);
      var s1 := PassChecks(s0, 0, Object(last, "", ""));
      s := AddObject(s1, 0);
      assert s.threads == s0.threads;
    }
  }

  function Waiting(threads: nat, from: nat, to: nat, o: Object): seq<Pc> {
    seq(threads, i => if from <= i < to then WantWrite(o) else Idle)
  }

  /** The first k threads pass the check one after the other, before any of them adds its object. */
  lemma {:induction false} AllPass(s: System, threads: nat, k: nat, o: Object) returns (s': System)
    requires Reachable(s) && Quiet(s, threads) && k <= threads
    requires o.size <= MAX_OBJECT_SIZE && s.cache.size + o.size <= MAX_CACHE_SIZE
    ensures Reachable(s') && s' == s.(threads := Waiting(threads, 0, k, o))
    decreases k
  {
    if k == 0 {
      s' := s;
      assert s.threads == Waiting(threads, 0, 0, o);
    } else {
      var s1 := AllPass(s, threads, k - 1, o);
      s' := PassChecks(s1, k - 1, o);
      assert s'.threads == Waiting(threads, 0, k, o);
    }
  }

  lemma {:induction false} AllAdd(s: System, threads: nat, from: nat, o: Object) returns (s': System)
    requires Reachable(s) && Shaped(s.cache) && s.cache.rw == 1 && from <= threads
    requires s.threads == Waiting(threads, from, threads, o)
    ensures Reachable(s') && |s'.threads| == threads
    ensures s'.cache.size == s.cache.size + (threads - from) * o.size
    decreases threads - from
  {
    if from == threads {
      s' := s;
    } else {
      var s1 := AddObject(s, from);
      assert s1.threads == Waiting(threads, from + 1, threads, o);
      s' := AllAdd(s1, threads, from + 1, o);
      assert (threads - from) * o.size == o.size + (threads - from - 1) * o.size;
    }
  }

  /** The bound is reached: T threads that check together overshoot by T - 1 objects. */
  lemma BoundIsReached(threads: nat) returns (s: System)
    requires threads > 0
    ensures Reachable(s) && |s.threads| == threads && s.cache.size == SizeBound(threads)
  {
    var o := Object(MAX_OBJECT_SIZE, "", "");
    var s0 := Fill(threads, MAX_CACHE_SIZE - MAX_OBJECT_SIZE);
    var s1 := AllPass(s0, threads, threads, o);
    s := AllAdd(s1, threads, 0, o);
    assert threads * MAX_OBJECT_SIZE == MAX_OBJECT_SIZE + (threads - 1) * MAX_OBJECT_SIZE;
  }

  /** A number bounds the cache in every reachable state of T threads exactly when it is at least
      MAX_CACHE_SIZE + (T - 1) * MAX_OBJECT_SIZE. */
  lemma ExactBound(threads: nat, bound: nat)
    requires threads > 0
    ensures (forall s :: Reachable(s) && |s.threads| == threads ==> s.cache.size <= bound)
      <==> SizeBound(threads) <= bound
  {
    var full := BoundIsReached(threads);
    forall s | Reachable(s) && |s.threads| == threads
      ensures s.cache.size <= SizeBound(threads)
    {
      SizeStaysBounded(s);
    }
  }

  /** MAX_CACHE_SIZE itself is kept exactly when a single thread inserts. */
  lemma IntendedBoundExactlyAlone(threads: nat)
    requires threads > 0
    ensures (forall s :: Reachable(s) && |s.threads| == threads ==> s.cache.size <= MAX_CACHE_SIZE)
      <==> threads == 1
  {
    ExactBound(threads, MAX_CACHE_SIZE);
  }

  // ----- one call at a time, over the array

  /** The cache record with its array; Insert is one call of cache_insert made while no other thread
      is inside. */
  class CacheRecord {
    const n: nat
    const buf: array<Option<Object>>
    var size: nat
    var rear: nat
    var mutex: nat
    var rw: nat

    ghost predicate Valid()
      reads this, buf
    {
      n > 0 && buf.Length == n && mutex == 1 && rw == 1
    }

    constructor (n: nat)
      requires n > 0
      ensures Valid() && this.n == n && size == 0 && rear == 0 && fresh(buf)
      ensures forall i :: 0 <= i < n ==> buf[i] == None
    {
      this.n := n;
      buf := new Option<Object>[n](_ => None);
      size, rear, mutex, rw := 0, 0, 1, 1;
    }

    /** The object goes into the slot after the last one, and counts, exactly when it passes both
        checks; otherwise nothing changes. */
    method Insert(o: Object)
      requires Valid()
      modifies this, buf
      ensures Valid()
      ensures var added := o.size <= MAX_OBJECT_SIZE && o.size + old(size) <= MAX_CACHE_SIZE;
        && size == old(size) + (if added then o.size else 0)
        && rear == old(rear) + (if added then 1 else 0)
        && buf[..] == if added then old(buf[..])[rear % n := Some(o)] else old(buf[..])
      ensures old(size) <= MAX_CACHE_SIZE ==> size <= MAX_CACHE_SIZE
    {
      if o.size > MAX_OBJECT_SIZE {
        return;
      }
      if o.size + size > MAX_CACHE_SIZE {
        return;
      }
      rw := rw - 1;
      rear := rear + 1;
      buf[rear % n] := Some(o);
      size := size + o.size;
      rw := rw + 1;
    }
  }
}
