/** Whole calls on the cache of first-proxylab-handout/cache.c: what one call does when nobody disturbs
it, and runs in which any number of threads read at once. */
module CacheCalls {
  import opened CacheLock
  import opened Options
  import opened Sums

  /** Thread t takes k steps with nobody in between; None when it is blocked on the way. */
  function Solo(s: System, t: nat, k: nat): Option<System>
    decreases k
  {
    if k == 0 then Some(s)
    else if CanFire(s, t) then Solo(Fire(s, t), t, k - 1)
    else None
  }

  lemma SoloStep(s: System, t: nat, k: nat)
    requires CanFire(s, t)
    ensures Solo(s, t, k + 1) == Solo(Fire(s, t), t, k)
  {
  }

  lemma {:induction false} SoloTwice(s: System, t: nat, k: nat, m: nat)
    requires Solo(s, t, k).Some?
    ensures Solo(s, t, k + m) == Solo(Solo(s, t, k).value, t, m)
    decreases k
  {
    if k > 0 {
      SoloTwice(Fire(s, t), t, k - 1, m);
    }
  }

  lemma {:induction false} SoloReaches(s: System, t: nat, k: nat)
    requires Reachable(s) && Solo(s, t, k).Some?
    ensures Reachable(Solo(s, t, k).value)
    decreases k
  {
    if k > 0 {
      FireReaches(s, t);
      SoloReaches(Fire(s, t), t, k - 1);
    }
  }

  lemma BeginReaches(s: System, t: nat, call: Call)
    requires Reachable(s) && t < |s.threads| && s.threads[t].Idle?
    ensures Reachable(Begin(s, t, call))
  {
    assert StepOf(s, t, Begin(s, t, call));
    StepReaches(s, Begin(s, t, call));
  }

  // ----- readers

  /** A thread has called cache_find_object and holds `mutex`, having counted itself. */
  function Counted(s: System, t: nat): System
    requires t < |s.threads|
  {
    s.(cache := s.cache.(mutex := 0, readers := s.cache.readers + 1), threads := s.threads[t := EnterCounted])
  }

  lemma FindCounts(s: System, t: nat)
    requires Shaped(s.cache) && s.cache.mutex == 1 && t < |s.threads|
    ensures Solo(Begin(s, t, Find), t, 2) == Some(Counted(s, t))
  {
    var s0 := Begin(s, t, Find);
    var s1 := s0.(cache := s.cache.(mutex := 0), threads := s.threads[t := EnterLocked]);
    assert Fire(s0, t) == s1;
    assert Fire(s1, t) == Counted(s, t);
    SoloStep(s0, t, 1);
    SoloStep(s1, t, 0);
  }

  /** The state with thread t scanning: one more reader, and `rw` taken. */
  function WithScanner(s: System, t: nat): System
    requires t < |s.threads|
  {
    s.(cache := s.cache.(readers := s.cache.readers + 1, rw := 0), threads := s.threads[t := Scanning])
  }

  /** The first reader takes `rw` on its way in. */
  lemma FirstEnters(s: System, t: nat)
    requires Shaped(s.cache) && s.cache.mutex == 1 && t < |s.threads| && s.cache.readers == 0 && s.cache.rw == 1
    ensures Solo(Begin(s, t, Find), t, 5) == Some(WithScanner(s, t))
  {
    var s2 := Counted(s, t);
    var s3 := s2.(threads := s.threads[t := FirstWait]);
    var s4 := s3.(cache := s2.cache.(rw := 0), threads := s.threads[t := EnterUnlock]);
    FindCounts(s, t);
    SoloTwice(Begin(s, t, Find), t, 2, 3);
    assert Fire(s2, t) == s3 && Fire(s3, t) == s4 && Fire(s4, t) == WithScanner(s, t);
    SoloStep(s2, t, 2);
    SoloStep(s3, t, 1);
    SoloStep(s4, t, 0);
  }

  /** The others find it taken. */
  lemma NextEnters(s: System, t: nat)
    requires Shaped(s.cache) && s.cache.mutex == 1 && t < |s.threads| && s.cache.readers > 0 && s.cache.rw == 0
    ensures Solo(Begin(s, t, Find), t, 4) == Some(WithScanner(s, t))
  {
    var s2 := Counted(s, t);
    var s3 := s2.(threads := s.threads[t := EnterUnlock]);
    FindCounts(s, t);
    SoloTwice(Begin(s, t, Find), t, 2, 2);
    assert Fire(s2, t) == s3 && Fire(s3, t) == WithScanner(s, t);
    SoloStep(s2, t, 1);
    SoloStep(s3, t, 0);
  }

  ghost predicate GetsToScan(s: System, t: nat, k: nat)
    requires t < |s.threads|
  {
    var r := Solo(Begin(s, t, Find), t, k);
    r.Some? && |r.value.threads| == |s.threads| && r.value.threads[t] == Scanning
  }

  /** With a writer inside, the first reader waits for ever if nobody else moves. */
  lemma FirstWaits(s: System, t: nat, k: nat)
    requires Shaped(s.cache) && s.cache.mutex == 1 && t < |s.threads| && s.cache.readers == 0 && s.cache.rw == 0
    ensures !GetsToScan(s, t, k)
  {
    var s2 := Counted(s, t);
    var s3 := s2.(threads := s.threads[t := FirstWait]);
    FindCounts(s, t);
    assert Fire(s2, t) == s3 && !CanFire(s3, t);
    if k >= 2 {
      SoloTwice(Begin(s, t, Find), t, 2, k - 2);
      if k >= 3 {
        SoloStep(s2, t, k - 3);
      }
    } else if k == 1 {
      assert Solo(Begin(s, t, Find), t, 1) == Solo(Fire(Begin(s, t, Find), t), t, 0);
    }
  }

  lemma NobodyAtTheDoor(s: System)
    requires Locks(s) && s.cache.mutex == 1
    ensures Sum(s.threads, Entering) == 0 && Sum(s.threads, Leaving) == 0
    ensures s.cache.readers >= 0
    ensures s.cache.readers > 0 ==> s.cache.rw == 0 && Sum(s.threads, InWrite) == 0
    ensures s.cache.readers == 0 ==> s.cache.rw + Sum(s.threads, InWrite) == 1
  {
    forall u | 0 <= u < |s.threads| ensures Entering(s.threads[u]) == 0 && Leaving(s.threads[u]) == 0 {
      SumAtLeast(s.threads, HoldsMutex, u);
    }
    SumZero(s.threads, Entering);
    SumZero(s.threads, Leaving);
  }

  /** With `mutex` free, a call of cache_find_object that runs alone gets to its scan exactly when no
      writer is inside. */
  lemma FindScansExactly(s: System, t: nat)
    requires Reachable(s) && s.cache.mutex == 1 && t < |s.threads| && s.threads[t].Idle?
    ensures (exists k: nat :: GetsToScan(s, t, k)) <==> Sum(s.threads, InWrite) == 0
  {
    ReachableInv(s);
    NobodyAtTheDoor(s);
    if s.cache.readers > 0 {
      NextEnters(s, t);
      assert GetsToScan(s, t, 4);
    } else if s.cache.rw == 1 {
      FirstEnters(s, t);
      assert GetsToScan(s, t, 5);
    } else {
      forall k: nat ensures !GetsToScan(s, t, k) {
        FirstWaits(s, t, k);
      }
    }
  }

  /** A scanner that runs alone out of the lock, as the last reader. */
  lemma LastLeaves(s: System, t: nat)
    requires Shaped(s.cache) && s.cache.mutex == 1 && t < |s.threads| && s.cache.readers == 0 && s.cache.rw == 1
    ensures Solo(WithScanner(s, t), t, 6) == Some(s.(threads := s.threads[t := Idle]))
  {
    var c, s0 := s.cache, WithScanner(s, t);
    var s1 := s0.(threads := s.threads[t := ExitWant]);
    var s2 := s.(cache := c.(mutex := 0, readers := 1, rw := 0), threads := s.threads[t := ExitLocked]);
    var s3 := s.(cache := c.(mutex := 0, rw := 0), threads := s.threads[t := ExitCounted]);
    var s4 := s3.(threads := s.threads[t := LastPost]);
    var s5 := s.(cache := c.(mutex := 0), threads := s.threads[t := ExitUnlock]);
    assert Fire(s0, t) == s1 && Fire(s1, t) == s2 && Fire(s2, t) == s3;
    assert Fire(s3, t) == s4 && Fire(s4, t) == s5 && Fire(s5, t) == s.(threads := s.threads[t := Idle]);
    SoloStep(s0, t, 5);
    SoloStep(s1, t, 4);
    SoloStep(s2, t, 3);
    SoloStep(s3, t, 2);
    SoloStep(s4, t, 1);
    SoloStep(s5, t, 0);
  }

  /** With the locks free, an undisturbed call of cache_find_object goes from idle through its scan back
      to idle, and leaves everything as it was. */
  lemma FindAlone(s: System, t: nat)
    requires Reachable(s) && s.cache.mutex == 1 && s.cache.rw == 1 && t < |s.threads| && s.threads[t].Idle?
    ensures Solo(Begin(s, t, Find), t, 5) == Some(WithScanner(s, t))
    ensures Solo(Begin(s, t, Find), t, 11) == Some(s)
  {
    ReachableInv(s);
    NobodyAtTheDoor(s);
    FirstEnters(s, t);
    LastLeaves(s, t);
    SoloTwice(Begin(s, t, Find), t, 5, 6);
    assert s.threads[t := Idle] == s.threads;
  }

  function Scanners(threads: nat, k: nat): seq<Pc> { seq(threads, i => if 0 <= i < k then Scanning else Idle) }

  lemma EntersReachable(s: System, t: nat)
    requires Reachable(s) && Shaped(s.cache) && s.cache.mutex == 1 && t < |s.threads| && s.threads[t].Idle?
    requires (s.cache.readers == 0 && s.cache.rw == 1) || (s.cache.readers > 0 && s.cache.rw == 0)
    ensures Reachable(WithScanner(s, t))
  {
    BeginReaches(s, t, Find);
    if s.cache.readers == 0 {
      FirstEnters(s, t);
      SoloReaches(Begin(s, t, Find), t, 5);
    } else {
      NextEnters(s, t);
      SoloReaches(Begin(s, t, Find), t, 4);
    }
  }

  /** A cache of one slot, and the first k of the threads scanning. */
  function Scan(threads: nat, k: nat): System {
    System(Cache(1, [None], 0, 0, 1, if k == 0 then 1 else 0, k), Scanners(threads, k), [])
  }

  lemma OneMoreScanner(threads: nat, k: nat)
    requires k < threads
    ensures WithScanner(Scan(threads, k), k) == Scan(threads, k + 1)
  {
  }

  lemma {:induction false} ManyScan(threads: nat, k: nat)
    requires k <= threads
    ensures Reachable(Scan(threads, k))
  {
    if k == 0 {
      var s := Scan(threads, 0);
      assert IsRun([s]) && [s][|[s]| - 1] == s;
    } else {
      ManyScan(threads, k - 1);
      EntersReachable(Scan(threads, k - 1), k - 1);
      OneMoreScanner(threads, k - 1);
    }
  }

  /** For any number of threads, all of them can scan at once. */
  lemma AllScan(threads: nat) returns (s: System)
    requires threads > 0
    ensures Reachable(s) && |s.threads| == threads && s.cache.readers == threads
    ensures s.cache.mutex == 1 && s.cache.rw == 0
    ensures forall t :: 0 <= t < threads ==> s.threads[t].Scanning?
  {
    ManyScan(threads, threads);
    s := Scan(threads, threads);
  }

  // ----- writers

  /** The cache after one complete, undisturbed cache_insert. */
  function Inserted(c: Cache, o: Object): Cache
    requires Shaped(c)
  {
    c.(size := c.size + o.size, rear := c.rear + 1, buf := c.buf[(c.rear + 1) % c.n := Some(o)])
  }

  /** An undisturbed call of cache_insert changes nothing when the object is too large by itself, or for
      what is in the cache; otherwise it blocks exactly when `rw` is taken, and else adds the object. */
  lemma InsertAlone(s: System, t: nat, o: Object)
    requires Shaped(s.cache) && t < |s.threads| && s.threads[t].Idle?
    ensures var call := Begin(s, t, Insert(o));
      if o.size > MAX_OBJECT_SIZE then Solo(call, t, 1) == Some(s)
      else if o.size + s.cache.size > MAX_CACHE_SIZE then Solo(call, t, 2) == Some(s)
      else if s.cache.rw == 0 then Solo(call, t, 3) == None
      else Solo(call, t, 8) == Some(s.(cache := Inserted(s.cache, o), stored := s.stored + [o]))
  {
    var s0 := Begin(s, t, Insert(o));
    BackToIdle(s, t, Offered(o));
    if o.size > MAX_OBJECT_SIZE {
      SoloStep(s0, t, 0);
    } else {
      var s1 := s.(threads := s.threads[t := ObjectFits(o)]);
      assert Fire(s0, t) == s1;
      BackToIdle(s, t, ObjectFits(o));
      if o.size + s.cache.size > MAX_CACHE_SIZE {
        SoloStep(s0, t, 1);
        SoloStep(s1, t, 0);
      } else {
        PastTheChecks(s, t, o);
      }
    }
  }

  lemma BackToIdle(s: System, t: nat, pc: Pc)
    requires t < |s.threads| && s.threads[t].Idle?
    ensures s.threads[t := pc][t := Idle] == s.threads
  {
  }

  lemma PastTheChecks(s: System, t: nat, o: Object)
    requires Shaped(s.cache) && t < |s.threads| && s.threads[t].Idle?
    requires o.size <= MAX_OBJECT_SIZE && o.size + s.cache.size <= MAX_CACHE_SIZE
    ensures var call := Begin(s, t, Insert(o));
      if s.cache.rw == 0 then Solo(call, t, 3) == None
      else Solo(call, t, 8) == Some(s.(cache := Inserted(s.cache, o), stored := s.stored + [o]))
  {
    var s0 := Begin(s, t, Insert(o));
    var s1, s2 := s.(threads := s.threads[t := ObjectFits(o)]), s.(threads := s.threads[t := WantWrite(o)]);
    assert Fire(s0, t) == s1 && Fire(s1, t) == s2;
    SoloStep(s0, t, 1);
    SoloStep(s1, t, 0);
    if s.cache.rw == 0 {
      SoloTwice(s0, t, 2, 1);
      assert !CanFire(s2, t);
    } else {
      SoloTwice(s0, t, 2, 6);
      Adds(s2, t, o);
      BackToIdle(s, t, WantWrite(o));
    }
  }

  lemma Adds(s: System, t: nat, o: Object)
    requires Shaped(s.cache) && s.cache.rw > 0 && t < |s.threads| && s.threads[t] == WantWrite(o)
    ensures Solo(s, t, 6) == Some(s.(
      cache := Inserted(s.cache, o), threads := s.threads[t := Idle], stored := s.stored + [o]))
  {
    var c := s.cache;
    var s1 := s.(cache := c.(rw := c.rw - 1), threads := s.threads[t := Writing(o)]);
    var s2 := s1.(cache := s1.cache.(rear := c.rear + 1), threads := s.threads[t := RearBumped(o)]);
    var s3 := s2.(cache := s2.cache.(buf := c.buf[(c.rear + 1) % c.n := Some(o)]),
      threads := s.threads[t := Written(o)], stored := s.stored + [o]);
    var s4 := s3.(threads := s.threads[t := SizeLoaded(o, c.size)]);
    var s5 := s4.(cache := s4.cache.(size := c.size + o.size), threads := s.threads[t := SizeStored]);
    var s6 := s5.(cache := Inserted(c, o), threads := s.threads[t := Idle]);
    assert Fire(s, t) == s1 && Fire(s1, t) == s2 && Fire(s2, t) == s3;
    assert Fire(s3, t) == s4 && Fire(s4, t) == s5 && Fire(s5, t) == s6;
    SoloStep(s, t, 5);
    SoloStep(s1, t, 4);
    SoloStep(s2, t, 3);
    SoloStep(s3, t, 2);
    SoloStep(s4, t, 1);
    SoloStep(s5, t, 0);
  }
}
