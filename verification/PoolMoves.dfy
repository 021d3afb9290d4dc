/** The worker pool, one thread at a time: what a worker and the acceptor do when they are not disturbed, and a
    schedule in which a client is lost. */
module PoolMoves {
  import opened Common
  import opened Queue
  import opened Pool

  /** The same one moves `m` times in a row. */
  function Again(s: State, e: Event, m: nat): State
    decreases m
  {
    if m == 0 then s else Step(Again(s, e, m - 1), e)
  }

  lemma {:induction false} AgainMore(s: State, e: Event, m: nat, n: nat)
    ensures Again(s, e, m + n) == Again(Again(s, e, m), e, n)
  {
    hide Step;
    if n == 0 {
    } else {
      AgainMore(s, e, m, n - 1);
    }
  }

  lemma Then(s: State, e: Event, m: nat, now: State, next: State)
    requires Again(s, e, m) == now && Step(now, e) == next
    ensures Again(s, e, m + 1) == next
  {
  }

  lemma AgainTwo(s: State, e: Event)
    ensures Again(s, e, 1) == Step(s, e) && Again(s, e, 2) == Step(Step(s, e), e)
  {
  }

  /** The state with another thread in the place of worker `i`. */
  function On(s: State, i: nat, th: Thread): State
    requires i < |s.threads|
  {
    s.(threads := s.threads[i := th])
  }

  lemma OnTwice(s: State, i: nat, one: Thread, two: Thread)
    requires i < |s.threads|
    ensures On(On(s, i, one), i, two) == On(s, i, two) && On(s, i, one).threads[i] == one
  {
    UpdateTwice(s.threads, i, one, two);
  }

  lemma IncSteps(s: State, i: nat)
    requires i < |s.threads| && s.threads[i].pc.Start? && s.freeMutex.None? && s.queueMutex.None?
    ensures var th := s.threads[i];
      var s1 := On(s, i, th.(pc := IncLoad)).(freeMutex := Some(Worker(i)));
      var s2 := On(s, i, th.(pc := IncStore(s.free))).(freeMutex := Some(Worker(i)));
      var s3 := On(s, i, th.(pc := IncUnlock)).(freeMutex := Some(Worker(i)), free := s.free + 1);
      var s4 := On(s, i, th.(pc := Waiting)).(free := s.free + 1);
      var s5 := On(s, i, th.(pc := Take)).(free := s.free + 1, queueMutex := Some(Worker(i)));
      && Step(s, Work(i)) == s1 && Step(s1, Work(i)) == s2 && Step(s2, Work(i)) == s3
      && Step(s3, Work(i)) == s4 && Step(s4, Work(i)) == s5 && Step(s5, Work(i)) == TakeClient(s5, i)
  {
    hide TakeClient;
    var th := s.threads[i];
    OnTwice(s, i, th.(pc := IncLoad), th.(pc := IncStore(s.free)));
    OnTwice(s, i, th.(pc := IncStore(s.free)), th.(pc := IncUnlock));
    OnTwice(s, i, th.(pc := IncUnlock), th.(pc := Waiting));
    OnTwice(s, i, th.(pc := Waiting), th.(pc := Take));
  }

  /** A worker counts itself, waits and takes the first client. */
  lemma WorkerTakes(s: State, i: nat)
    requires i < |s.threads| && s.threads[i].pc.Start? && s.freeMutex.None? && s.queueMutex.None?
    ensures Again(s, Work(i), 6) ==
      TakeClient(On(s, i, s.threads[i].(pc := Take)).(free := s.free + 1, queueMutex := Some(Worker(i))), i)
  {
    hide Again, Step, TakeClient;
    var th := s.threads[i];
    var s1 := On(s, i, th.(pc := IncLoad)).(freeMutex := Some(Worker(i)));
    var s2 := On(s, i, th.(pc := IncStore(s.free))).(freeMutex := Some(Worker(i)));
    var s3 := On(s, i, th.(pc := IncUnlock)).(freeMutex := Some(Worker(i)), free := s.free + 1);
    var s4 := On(s, i, th.(pc := Waiting)).(free := s.free + 1);
    var s5 := On(s, i, th.(pc := Take)).(free := s.free + 1, queueMutex := Some(Worker(i)));
    IncSteps(s, i);
    AgainNone(s, Work(i));
    Then(s, Work(i), 0, s, s1);
    Then(s, Work(i), 1, s1, s2);
    Then(s, Work(i), 2, s2, s3);
    Then(s, Work(i), 3, s3, s4);
    Then(s, Work(i), 4, s4, s5);
    Then(s, Work(i), 5, s5, TakeClient(s5, i));
  }

  /** What is taken is the first of the queue, or -1, and the queue is empty then. */
  lemma TakenIsFirst(s: State, i: nat)
    requires i < |s.threads|
    ensures var s' := TakeClient(s, i);
      && s'.threads[i].client == (if s.queue == [] then -1 else s.queue[0])
      && (s'.threads[i].arrival.Some? <==> s.queue != []) && s'.queue == []
      && s'.handed == (if s.queue == [] then s.handed else s.handed + [s.base])
  {
  }

  /** From the decrement of `free_workers_count` on. */
  lemma WorkerDecrements(s: State, i: nat, leave: bool)
    requires i < |s.threads| && s.threads[i].pc == DecLock(leave) && s.freeMutex.None?
    ensures Again(s, Work(i), 4) ==
      On(s, i, s.threads[i].(pc := if leave then Gone else Serving)).(free := s.free - 1)
  {
    hide Again, Step;
    var th := s.threads[i];
    var th1, th2 := th.(pc := DecLoad(leave)), th.(pc := DecStore(leave, s.free));
    var th3 := th.(pc := DecUnlock(leave));
    var s1, s2 := On(s, i, th1).(freeMutex := Some(Worker(i))), On(s, i, th2).(freeMutex := Some(Worker(i)));
    var s3 := On(s, i, th3).(freeMutex := Some(Worker(i)), free := s.free - 1);
    DecSteps(s, i, leave);
    AgainNone(s, Work(i));
    Then(s, Work(i), 0, s, s1);
    Then(s, Work(i), 1, s1, s2);
    Then(s, Work(i), 2, s2, s3);
    Then(s, Work(i), 3, s3, Step(s3, Work(i)));
  }

  lemma AgainNone(s: State, e: Event)
    ensures Again(s, e, 0) == s
  {
  }

  lemma DecSteps(s: State, i: nat, leave: bool)
    requires i < |s.threads| && s.threads[i].pc == DecLock(leave) && s.freeMutex.None?
    ensures var th := s.threads[i];
      var th1, th2 := th.(pc := DecLoad(leave)), th.(pc := DecStore(leave, s.free));
      var th3, th4 := th.(pc := DecUnlock(leave)), th.(pc := if leave then Gone else Serving);
      var s1, s2 := On(s, i, th1).(freeMutex := Some(Worker(i))), On(s, i, th2).(freeMutex := Some(Worker(i)));
      var s3 := On(s, i, th3).(freeMutex := Some(Worker(i)), free := s.free - 1);
      && Step(s, Work(i)) == s1 && Step(s1, Work(i)) == s2 && Step(s2, Work(i)) == s3
      && Step(s3, Work(i)) == On(s, i, th4).(free := s.free - 1)
  {
    var th := s.threads[i];
    OnTwice(s, i, th.(pc := DecLoad(leave)), th.(pc := DecStore(leave, s.free)));
    OnTwice(s, i, th.(pc := DecStore(leave, s.free)), th.(pc := DecUnlock(leave)));
    OnTwice(s, i, th.(pc := DecUnlock(leave)), th.(pc := if leave then Gone else Serving));
  }

  lemma TakeUnlocked(s: State, i: nat)
    requires i < |s.threads| && s.threads[i].pc.TakeUnlock?
    ensures Step(s, Work(i)) ==
      On(s, i, s.threads[i].(pc := if s.threads[i].client == -1 then PoolLock else DecLock(false))).(queueMutex := None)
  {
  }

  /** A worker that took a client serves it. */
  lemma WorkerServes(s: State, i: nat)
    requires i < |s.threads| && s.threads[i].pc.TakeUnlock? && s.threads[i].client != -1 && s.freeMutex.None?
    ensures Again(s, Work(i), 5) ==
      On(s, i, s.threads[i].(pc := Serving)).(queueMutex := None, free := s.free - 1)
  {
    hide Step, Again;
    var th := s.threads[i];
    TakeUnlocked(s, i);
    AgainTwo(s, Work(i));
    AgainMore(s, Work(i), 1, 4);
    WorkerDecrements(Step(s, Work(i)), i, false);
    OnTwice(s, i, th.(pc := DecLock(false)), th.(pc := Serving));
  }

  /** The test of `pool_size`, made when nothing was taken. */
  lemma PoolTested(s: State, i: nat)
    requires i < |s.threads| && s.threads[i].pc.PoolLock? && s.poolMutex.None?
    ensures s.pool > s.n ==>
      Again(s, Work(i), 5) == On(s, i, s.threads[i].(pc := DecLock(true))).(pool := s.pool - 1)
    ensures s.pool <= s.n ==> Again(s, Work(i), 3) == On(s, i, s.threads[i].(pc := DecLock(false)))
  {
    hide Again, Step;
    AgainNone(s, Work(i));
    var th := s.threads[i];
    var s1 := On(s, i, th.(pc := PoolTest)).(poolMutex := Some(Worker(i)));
    PoolSteps(s, i);
    Then(s, Work(i), 0, s, s1);
    Then(s, Work(i), 1, s1, Step(s1, Work(i)));
    Then(s, Work(i), 2, Step(s1, Work(i)), Step(Step(s1, Work(i)), Work(i)));
    if s.pool > s.n {
      var s4 := On(s, i, th.(pc := PoolUnlock(true))).(poolMutex := Some(Worker(i)), pool := s.pool - 1);
      Then(s, Work(i), 3, Step(Step(s1, Work(i)), Work(i)), s4);
      Then(s, Work(i), 4, s4, Step(s4, Work(i)));
    }
  }

  lemma PoolSteps(s: State, i: nat)
    requires i < |s.threads| && s.threads[i].pc.PoolLock? && s.poolMutex.None?
    ensures var th := s.threads[i];
      var s1 := On(s, i, th.(pc := PoolTest)).(poolMutex := Some(Worker(i)));
      var s2 := On(s, i, th.(pc := PoolLoad)).(poolMutex := Some(Worker(i)));
      var s3 := On(s, i, th.(pc := PoolStore(s.pool))).(poolMutex := Some(Worker(i)));
      var s4 := On(s, i, th.(pc := PoolUnlock(true))).(poolMutex := Some(Worker(i)), pool := s.pool - 1);
      var t2 := On(s, i, th.(pc := PoolUnlock(false))).(poolMutex := Some(Worker(i)));
      && Step(s, Work(i)) == s1
      && Step(s1, Work(i)) == (if s.pool > s.n then s2 else t2)
      && Step(s2, Work(i)) == s3 && Step(s3, Work(i)) == s4
      && Step(s4, Work(i)) == On(s, i, th.(pc := DecLock(true))).(pool := s.pool - 1)
      && Step(t2, Work(i)) == On(s, i, th.(pc := DecLock(false)))
  {
    var th := s.threads[i];
    OnTwice(s, i, th.(pc := PoolTest), th.(pc := PoolLoad));
    OnTwice(s, i, th.(pc := PoolTest), th.(pc := PoolUnlock(false)));
    OnTwice(s, i, th.(pc := PoolLoad), th.(pc := PoolStore(s.pool)));
    OnTwice(s, i, th.(pc := PoolStore(s.pool)), th.(pc := PoolUnlock(true)));
    OnTwice(s, i, th.(pc := PoolUnlock(true)), th.(pc := DecLock(true)));
    OnTwice(s, i, th.(pc := PoolUnlock(false)), th.(pc := DecLock(false)));
  }

  /** A worker that took nothing leaves while the pool is larger than `n`. */
  lemma WorkerLeaves(s: State, i: nat)
    requires i < |s.threads| && s.threads[i].pc.TakeUnlock? && s.threads[i].client == -1
    requires s.freeMutex.None? && s.poolMutex.None? && s.pool > s.n
    ensures Again(s, Work(i), 10) ==
      On(s, i, s.threads[i].(pc := Gone)).(queueMutex := None, pool := s.pool - 1, free := s.free - 1)
  {
    hide Step, Again;
    var th := s.threads[i];
    TakeUnlocked(s, i);
    AgainTwo(s, Work(i));
    var s1 := Step(s, Work(i));
    PoolTested(s1, i);
    AgainMore(s, Work(i), 1, 5);
    OnTwice(s, i, th.(pc := PoolLock), th.(pc := DecLock(true)));
    AgainMore(s, Work(i), 6, 4);
    WorkerDecrements(Again(s, Work(i), 6), i, true);
    OnTwice(s, i, th.(pc := DecLock(true)), th.(pc := Gone));
  }

  /** Otherwise it goes on to serve -1, as the source does. */
  lemma WorkerServesNobody(s: State, i: nat)
    requires i < |s.threads| && s.threads[i].pc.TakeUnlock? && s.threads[i].client == -1
    requires s.freeMutex.None? && s.poolMutex.None? && s.pool <= s.n
    ensures Again(s, Work(i), 8) ==
      On(s, i, s.threads[i].(pc := Serving)).(queueMutex := None, free := s.free - 1)
  {
    hide Step, Again;
    var th := s.threads[i];
    TakeUnlocked(s, i);
    AgainTwo(s, Work(i));
    var s1 := Step(s, Work(i));
    PoolTested(s1, i);
    AgainMore(s, Work(i), 1, 3);
    OnTwice(s, i, th.(pc := PoolLock), th.(pc := DecLock(false)));
    AgainMore(s, Work(i), 4, 4);
    WorkerDecrements(Again(s, Work(i), 4), i, false);
    OnTwice(s, i, th.(pc := DecLock(false)), th.(pc := Serving));
  }

  /** A worker that has served starts again, without a client. */
  lemma WorkerStartsAgain(s: State, i: nat)
    requires i < |s.threads| && s.threads[i].pc.Serving?
    ensures Step(s, Work(i)) == s.(threads := s.threads[i := Thread(Start, -1, None)])
  {
  }

  /** A connection is queued in the order of arrival. */
  lemma ArrivalStored(s: State, fd: nat)
    requires s.acc.Accepting? && s.queueMutex.None?
    ensures Again(s, Accept(fd), 4) == s.(queue := s.queue + [fd], arrivals := s.arrivals + [fd], acc := FreeLock)
  {
  }

  /** With no worker free and room in the pool, the acceptor counts and creates one. */
  lemma GrowthDone(s: State, e: Event)
    requires e.Accept? && s.acc.FreeLock? && s.freeMutex.None? && s.poolMutex.None? && s.free == 0 && s.pool < s.k
    ensures Again(s, e, 9) == s.(acc := Accepting, pool := s.pool + 1, threads := s.threads + [Thread(Start, -1, None)])
  {
    var s3 := Again(s, e, 3);
    assert s3 == s.(acc := GrowLock);
    var s6 := s.(acc := GrowStore(s.pool), poolMutex := Some(Acceptor));
    assert Again(s3, e, 3) == s6;
    assert Again(s6, e, 3) ==
      s.(acc := Accepting, pool := s.pool + 1, threads := s.threads + [Thread(Start, -1, None)]);
    hide Again, Step;
    AgainMore(s, e, 3, 3);
    AgainMore(s, e, 6, 3);
  }

  /** With a worker free it creates none. */
  lemma NoGrowthNeeded(s: State, e: Event)
    requires e.Accept? && s.acc.FreeLock? && s.freeMutex.None? && s.free != 0
    ensures Again(s, e, 3) == s.(acc := Accepting)
  {
  }

  lemma GrowthRefused(s: State, e: Event)
    requires e.Accept? && s.acc.FreeLock? && s.freeMutex.None? && s.poolMutex.None? && s.free == 0 && s.pool >= s.k
    ensures Again(s, e, 6) == s.(acc := Accepting)
  {
    var s3 := Again(s, e, 3);
    assert s3 == s.(acc := GrowLock);
    assert Again(s3, e, 3) == s.(acc := Accepting);
    AgainMore(s, e, 3, 3);
  }

  /** Start-up creates `n` workers and then sets the size of the pool. */
  lemma StartUp(n: nat, k: nat, e: Event)
    requires e.Accept?
    ensures Again(Init(n, k), e, n + 2) ==
      Init(n, k).(threads := Times(Thread(Start, -1, None), n), pool := n, acc := Accepting)
  {
    hide Step;
    ThreadsCreated(n, k, e, n);
    AgainMore(Init(n, k), e, n, 2);
    PoolSet(Again(Init(n, k), e, n), e);
  }

  lemma {:induction false} ThreadsCreated(n: nat, k: nat, e: Event, m: nat)
    requires e.Accept? && m <= n
    ensures Again(Init(n, k), e, m) == Init(n, k).(threads := Times(Thread(Start, -1, None), m), acc := Creating(m))
  {
    if m == 0 {
    } else {
      ThreadsCreated(n, k, e, m - 1);
      var th := Thread(Start, -1, None);
      assert Times(th, m) == Times(th, m - 1) + [th];
    }
  }

  lemma PoolSet(s: State, e: Event)
    requires e.Accept? && s.acc == Creating(s.n)
    ensures Again(s, e, 2) == s.(pool := s.n, acc := Accepting)
  {
  }

  // ----- A schedule that drops a client -----

  lemma {:induction false} RunAgain(s: State, schedule: seq<Event>, e: Event, m: nat)
    ensures Run(s, schedule + Times(e, m)) == Again(Run(s, schedule), e, m)
  {
    hide Step;
    if m == 0 {
      assert schedule + Times(e, 0) == schedule;
    } else {
      var all := schedule + Times(e, m);
      assert all[..|all| - 1] == schedule + Times(e, m - 1) && all[|all| - 1] == e;
      RunAgain(s, schedule, e, m - 1);
    }
  }

  /** The acceptor queues a client and finds that the pool may not grow. */
  lemma ArrivalQueued(s: State, fd: nat)
    requires s.acc.Accepting? && s.queueMutex.None? && s.freeMutex.None? && s.poolMutex.None?
    requires s.free == 0 && s.pool >= s.k
    ensures Again(s, Accept(fd), 10) == s.(queue := s.queue + [fd], arrivals := s.arrivals + [fd])
  {
    hide Again, Step;
    var s4 := Again(s, Accept(fd), 4);
    ArrivalStored(s, fd);
    GrowthRefused(s4, Accept(fd));
    AgainMore(s, Accept(fd), 4, 6);
  }

  /** A pool of one: two clients are queued before the worker takes the first, and the second is gone. */
  lemma SecondClientDropped() returns (schedule: seq<Event>)
    ensures var s := Run(Init(1, 1), schedule);
      && s.arrivals == [7, 8] && s.queue == [] && s.handed == [0] && Dropped(s) == 1
      && s.threads == [Thread(TakeUnlock, 7, Some(0))]
  {
    hide Run, Again, Step;
    var s0 := Init(1, 1);
    schedule := [] + Times(Accept(0), 3);
    EmptySchedule(s0);
    RunAgain(s0, [], Accept(0), 3);
    var s1 := Run(s0, schedule);
    OneStarted();
    ArrivalQueued(s1, 7);
    RunAgain(s0, schedule, Accept(7), 10);
    schedule := schedule + Times(Accept(7), 10);
    var s2 := Run(s0, schedule);
    ArrivalQueued(s2, 8);
    RunAgain(s0, schedule, Accept(8), 10);
    schedule := schedule + Times(Accept(8), 10);
    var s3 := Run(s0, schedule);
    assert s1.queue + [7] + [8] == [7, 8] && s1.arrivals + [7] + [8] == [7, 8];
    RunAgain(s0, schedule, Work(0), 6);
    FirstTaken(s3);
    schedule := schedule + Times(Work(0), 6);
  }

  lemma OneStarted()
    ensures Again(Init(1, 1), Accept(0), 3) ==
      Init(1, 1).(threads := [Thread(Start, -1, None)], acc := Accepting, pool := 1)
  {
  }

  lemma EmptySchedule(s: State)
    ensures Run(s, []) == s
  {
  }

  lemma FirstTaken(s: State)
    requires s == Init(1, 1).(threads := [Thread(Start, -1, None)], acc := Accepting, pool := 1,
                              queue := [7, 8], arrivals := [7, 8])
    ensures var r := Again(s, Work(0), 6);
      && r.arrivals == [7, 8] && r.queue == [] && r.handed == [0] && r.base == 2
      && r.threads == [Thread(TakeUnlock, 7, Some(0))]
  {
    var r4 := Again(s, Work(0), 4);
    assert r4 == s.(threads := [Thread(Waiting, -1, None)], free := 1);
  }
}
