/** The worker pool of `lab6/server.c`: an acceptor and a growing number of workers that read, test
    and change shared counters and the queue, one memory access at a time, each under its mutex.
    Waiting on the condition variable may end at any time with the queue mutex held. */
module Pool {
  import opened Common
  import opened Queue

  datatype Who = Acceptor | Worker(i: nat)

  /** Where a worker is; `reg` is the value it has loaded from a counter. */
  datatype Pc =
    | Start | IncLoad | IncStore(reg: int) | IncUnlock          // ++free_workers_count
    | Waiting | Take | TakeUnlock                               // the queue
    | PoolLock | PoolTest | PoolLoad | PoolStore(reg: int)      // --pool_size
    | PoolUnlock(leave: bool)
    | DecLock(leave: bool) | DecLoad(leave: bool)               // --free_workers_count, on either path
    | DecStore(leave: bool, reg: int) | DecUnlock(leave: bool)
    | Serving | Gone

  /** `arrival` is history: which arrival `client` was. */
  datatype Thread = Thread(pc: Pc, client: int, arrival: Option<nat>)

  datatype Acc =
    | Creating(i: nat) | SetPool                                // start-up
    | Accepting | QueueLock(fd: nat) | Enqueue(fd: nat) | QueueUnlock
    | FreeLock | FreeTest | FreeUnlock(none: bool)
    | GrowLock | GrowTest | GrowLoad | GrowStore(reg: int) | GrowUnlock(create: bool) | Create

  /** `arrivals`, `base` and `handed` are history: all clients accepted, how many of them are no longer
      in the queue, and which of them were given to workers. */
  datatype State = State(n: nat, k: nat, threads: seq<Thread>, acc: Acc,
                         queue: seq<int>, pool: int, free: int,
                         queueMutex: Option<Who>, poolMutex: Option<Who>, freeMutex: Option<Who>,
                         arrivals: seq<int>, base: nat, handed: seq<nat>)

  function Init(n: nat, k: nat): State {
    State(n, k, [], Creating(0), [], 0, 0, None, None, None, [], 0, [])
  }

  /** Who moves; the acceptor may be given a new connection. */
  datatype Event = Accept(fd: nat) | Work(i: nat)

  // ----- Steps -----

  function At(s: State, i: nat, pc: Pc): State
    requires i < |s.threads|
  {
    s.(threads := s.threads[i := s.threads[i].(pc := pc)])
  }

  function LockFree(s: State, i: nat, pc: Pc): State
    requires i < |s.threads|
  {
    if s.freeMutex.None? then At(s, i, pc).(freeMutex := Some(Worker(i))) else s
  }

  /** `queue_dequeue` by worker `i`. */
  function TakeClient(s: State, i: nat): State
    requires i < |s.threads|
  {
    var r := Dequeued(s.queue);
    var th := Thread(TakeUnlock, r.0, if s.queue == [] then None else Some(s.base));
    s.(threads := s.threads[i := th], queue := r.1,
       base := if s.queue == [] then s.base else |s.arrivals|,
       handed := if s.queue == [] then s.handed else s.handed + [s.base])
  }

  function WorkerStep(s: State, i: nat): State
    requires i < |s.threads|
  {
    match s.threads[i].pc
    case Start => LockFree(s, i, IncLoad)
    case IncLoad => At(s, i, IncStore(s.free))
    case IncStore(reg) => At(s, i, IncUnlock).(free := reg + 1)
    case IncUnlock => At(s, i, Waiting).(freeMutex := None)
    case Waiting => if s.queueMutex.None? then At(s, i, Take).(queueMutex := Some(Worker(i))) else s
    case Take => TakeClient(s, i)
    case TakeUnlock => At(s, i, if s.threads[i].client == -1 then PoolLock else DecLock(false)).(queueMutex := None)
    case PoolLock => if s.poolMutex.None? then At(s, i, PoolTest).(poolMutex := Some(Worker(i))) else s
    case PoolTest => At(s, i, if s.pool > s.n then PoolLoad else PoolUnlock(false))
    case PoolLoad => At(s, i, PoolStore(s.pool))
    case PoolStore(reg) => At(s, i, PoolUnlock(true)).(pool := reg - 1)
    case PoolUnlock(leave) => At(s, i, DecLock(leave)).(poolMutex := None)
    case DecLock(leave) => LockFree(s, i, DecLoad(leave))
    case DecLoad(leave) => At(s, i, DecStore(leave, s.free))
    case DecStore(leave, reg) => At(s, i, DecUnlock(leave)).(free := reg - 1)
    case DecUnlock(leave) => At(s, i, if leave then Gone else Serving).(freeMutex := None)
    case Serving => s.(threads := s.threads[i := Thread(Start, -1, None)])
    case Gone => s
  }

  function NewThread(s: State): State {
    s.(threads := s.threads + [Thread(Start, -1, None)])
  }

  function AcceptorStep(s: State, fd: nat): State {
    match s.acc
    case Creating(i) => if i < s.n then NewThread(s).(acc := Creating(i + 1)) else s.(acc := SetPool)
    case SetPool => s.(pool := s.n, acc := Accepting)
    case Accepting => s.(acc := QueueLock(fd))
    case QueueLock(c) => if s.queueMutex.None? then s.(queueMutex := Some(Acceptor), acc := Enqueue(c)) else s
    case Enqueue(c) => s.(queue := s.queue + [c], arrivals := s.arrivals + [c], acc := QueueUnlock)
    case QueueUnlock => s.(queueMutex := None, acc := FreeLock)
    case FreeLock => if s.freeMutex.None? then s.(freeMutex := Some(Acceptor), acc := FreeTest) else s
    case FreeTest => s.(acc := FreeUnlock(s.free == 0))
    case FreeUnlock(none) => s.(freeMutex := None, acc := if none then GrowLock else Accepting)
    case GrowLock => if s.poolMutex.None? then s.(poolMutex := Some(Acceptor), acc := GrowTest) else s
    case GrowTest => s.(acc := if s.pool < s.k then GrowLoad else GrowUnlock(false))
    case GrowLoad => s.(acc := GrowStore(s.pool))
    case GrowStore(reg) => s.(pool := reg + 1, acc := GrowUnlock(true))
    case GrowUnlock(create) => s.(poolMutex := None, acc := if create then Create else Accepting)
    case Create => NewThread(s).(acc := Accepting)
  }

  function Step(s: State, e: Event): State {
    match e
    case Accept(fd) => AcceptorStep(s, fd)
    case Work(i) => if i < |s.threads| then WorkerStep(s, i) else s
  }

  function Run(s: State, schedule: seq<Event>): State {
    if schedule == [] then s
    else Step(Run(s, schedule[..|schedule| - 1]), schedule[|schedule| - 1])
  }

  // ----- Counting threads -----

  /** Between its increment of `free_workers_count` and the one decrement that matches it. */
  predicate Free(th: Thread) {
    !(th.pc.Start? || th.pc.IncLoad? || th.pc.IncStore? || th.pc.DecUnlock? || th.pc.Serving? || th.pc.Gone?)
  }

  /** Not yet taken off `pool_size`. */
  predicate Registered(th: Thread) {
    match th.pc
    case PoolUnlock(leave) => !leave
    case DecLock(leave) => !leave
    case DecLoad(leave) => !leave
    case DecStore(leave, _) => !leave
    case DecUnlock(leave) => !leave
    case Gone => false
    case _ => true
  }

  predicate IsServing(th: Thread) {
    th.pc.Serving?
  }

  function Count(ths: seq<Thread>, p: Thread -> bool): nat {
    if ths == [] then 0 else Count(ths[..|ths| - 1], p) + if p(ths[|ths| - 1]) then 1 else 0
  }

  lemma {:induction false} CountUpdated(ths: seq<Thread>, i: nat, th: Thread, p: Thread -> bool)
    requires i < |ths|
    ensures Count(ths[i := th], p) + (if p(ths[i]) then 1 else 0) == Count(ths, p) + if p(th) then 1 else 0
  {
    var m := |ths| - 1;
    if i == m {
      assert ths[i := th][..m] == ths[..m];
    } else {
      assert ths[i := th][..m] == ths[..m][i := th];
      CountUpdated(ths[..m], i, th, p);
    }
  }

  lemma CountAppended(ths: seq<Thread>, th: Thread, p: Thread -> bool)
    ensures Count(ths + [th], p) == Count(ths, p) + if p(th) then 1 else 0
  {
    assert (ths + [th])[..|ths|] == ths;
  }

  lemma {:induction false} CountMonotone(ths: seq<Thread>, p: Thread -> bool, q: Thread -> bool)
    requires forall i :: 0 <= i < |ths| && p(ths[i]) ==> q(ths[i])
    ensures Count(ths, p) <= Count(ths, q) <= |ths|
  {
    if ths == [] {
    } else {
      CountMonotone(ths[..|ths| - 1], p, q);
    }
  }

  // ----- The invariant -----

  predicate HoldsFree(pc: Pc) {
    pc.IncLoad? || pc.IncStore? || pc.IncUnlock? || pc.DecLoad? || pc.DecStore? || pc.DecUnlock?
  }

  predicate HoldsPool(pc: Pc) {
    pc.PoolTest? || pc.PoolLoad? || pc.PoolStore? || pc.PoolUnlock?
  }

  predicate HoldsQueue(pc: Pc) {
    pc.Take? || pc.TakeUnlock?
  }

  /** Who is between lock and unlock holds the mutex, and no one else does. */
  ghost predicate Guards(m: Option<Who>, threads: seq<Thread>, holds: Pc -> bool, acceptor: bool) {
    && (forall i :: 0 <= i < |threads| ==> (holds(threads[i].pc) <==> m == Some(Worker(i))))
    && (acceptor <==> m == Some(Acceptor))
    && (m.Some? && m.value.Worker? ==> m.value.i < |threads|)
  }

  predicate AccHoldsFree(acc: Acc) { acc.FreeTest? || acc.FreeUnlock? }

  predicate AccHoldsPool(acc: Acc) { acc.GrowTest? || acc.GrowLoad? || acc.GrowStore? || acc.GrowUnlock? }

  predicate AccHoldsQueue(acc: Acc) { acc.Enqueue? || acc.QueueUnlock? }

  ghost predicate LockInv(s: State) {
    && Guards(s.freeMutex, s.threads, HoldsFree, AccHoldsFree(s.acc))
    && Guards(s.poolMutex, s.threads, HoldsPool, AccHoldsPool(s.acc))
    && Guards(s.queueMutex, s.threads, HoldsQueue, AccHoldsQueue(s.acc))
  }

  predicate Started(s: State) {
    !s.acc.Creating? && !s.acc.SetPool?
  }

  /** The worker the acceptor has counted and not yet created. */
  function OnTheWay(s: State): nat {
    if s.acc == GrowUnlock(true) || s.acc.Create? then 1 else 0
  }

  /** A loaded value is still that of the counter, and a test made on it still holds. */
  predicate Current(s: State, pc: Pc) {
    match pc
    case IncStore(reg) => reg == s.free
    case DecStore(_, reg) => reg == s.free
    case PoolLoad => Started(s) && s.pool > s.n
    case PoolStore(reg) => Started(s) && reg == s.pool > s.n
    case _ => true
  }

  ghost predicate RegInv(s: State) {
    forall i :: 0 <= i < |s.threads| ==> Current(s, s.threads[i].pc)
  }

  ghost predicate FreeInv(s: State) {
    s.free == Count(s.threads, Free)
  }

  ghost predicate PoolInv(s: State) {
    && (if Started(s) then s.n <= s.pool <= s.k && s.pool == Count(s.threads, Registered) + OnTheWay(s)
        else s.pool == 0 && Count(s.threads, Registered) == |s.threads|
             && |s.threads| == if s.acc.Creating? then s.acc.i else s.n)
    && (s.acc.Creating? ==> s.acc.i <= s.n)
    && (s.acc.GrowLoad? ==> s.pool < s.k)
    && (s.acc.GrowStore? ==> s.acc.reg == s.pool < s.k)
  }

  /** The queue holds the latest arrivals, and clients were given out in the order of arrival. */
  ghost predicate HandInv(s: State) {
    && s.base <= |s.arrivals| && s.queue == s.arrivals[s.base..]
    && (forall a :: 0 <= a < |s.handed| ==> s.handed[a] < s.base)
    && (forall a, b :: 0 <= a < b < |s.handed| ==> s.handed[a] < s.handed[b])
    && (forall i :: 0 <= i < |s.threads| && s.threads[i].arrival.Some? ==>
          var a := s.threads[i].arrival.value;
          a < s.base && a in s.handed && s.threads[i].client == s.arrivals[a])
    && (forall i, j :: 0 <= i < j < |s.threads| && s.threads[i].arrival.Some? ==>
          s.threads[i].arrival != s.threads[j].arrival)
  }

  ghost predicate Inv(s: State) {
    s.n <= s.k && LockInv(s) && RegInv(s) && FreeInv(s) && PoolInv(s) && HandInv(s)
  }

  // ----- Preservation -----

  lemma InitInv(n: nat, k: nat)
    requires n <= k
    ensures Inv(Init(n, k))
  {
  }

  /** A thread may take a mutex that is free, give back the one it holds, or leave things as they are. */
  lemma GuardsWorker(m: Option<Who>, threads: seq<Thread>, holds: Pc -> bool, acceptor: bool,
                     i: nat, th: Thread, m': Option<Who>)
    requires Guards(m, threads, holds, acceptor) && i < |threads|
    requires m' == if holds(th.pc) == holds(threads[i].pc) then m
                   else if holds(th.pc) then Some(Worker(i)) else None
    requires holds(th.pc) && !holds(threads[i].pc) ==> m.None?
    ensures Guards(m', threads[i := th], holds, acceptor)
  {
  }

  /** Whoever is inside excludes everybody else. */
  lemma Alone(m: Option<Who>, threads: seq<Thread>, holds: Pc -> bool, acceptor: bool, i: nat)
    requires Guards(m, threads, holds, acceptor) && i < |threads|
    ensures holds(threads[i].pc) ==> !acceptor && forall j :: 0 <= j < |threads| && j != i ==> !holds(threads[j].pc)
    ensures acceptor ==> !holds(threads[i].pc)
  {
  }

  lemma GuardsAcceptor(m: Option<Who>, threads: seq<Thread>, holds: Pc -> bool, acceptor: bool,
                       acceptor': bool, m': Option<Who>)
    requires Guards(m, threads, holds, acceptor)
    requires m' == if acceptor == acceptor' then m else if acceptor' then Some(Acceptor) else None
    requires acceptor' && !acceptor ==> m.None?
    ensures Guards(m', threads, holds, acceptor')
    ensures !holds(Start) ==> Guards(m', threads + [Thread(Start, -1, None)], holds, acceptor')
  {
  }

  /** A worker's step changes no other thread, and nothing of the acceptor. */
  lemma WorkerFrame(s: State, i: nat)
    requires i < |s.threads|
    ensures var s' := WorkerStep(s, i); |s'.threads| == |s.threads| && s'.threads == s.threads[i := s'.threads[i]]
    ensures var s' := WorkerStep(s, i); s'.acc == s.acc && s'.n == s.n && s'.k == s.k
  {
  }

  lemma WorkerKeepsFreeMutex(s: State, i: nat)
    requires LockInv(s) && i < |s.threads|
    ensures var s' := WorkerStep(s, i); Guards(s'.freeMutex, s'.threads, HoldsFree, AccHoldsFree(s'.acc))
  {
    hide Guards;
    WorkerFrame(s, i);
    var s' := WorkerStep(s, i);
    GuardsWorker(s.freeMutex, s.threads, HoldsFree, AccHoldsFree(s.acc), i, s'.threads[i], s'.freeMutex);
  }

  lemma WorkerKeepsPoolMutex(s: State, i: nat)
    requires LockInv(s) && i < |s.threads|
    ensures var s' := WorkerStep(s, i); Guards(s'.poolMutex, s'.threads, HoldsPool, AccHoldsPool(s'.acc))
  {
    hide Guards;
    WorkerFrame(s, i);
    var s' := WorkerStep(s, i);
    GuardsWorker(s.poolMutex, s.threads, HoldsPool, AccHoldsPool(s.acc), i, s'.threads[i], s'.poolMutex);
  }

  lemma WorkerKeepsQueueMutex(s: State, i: nat)
    requires LockInv(s) && i < |s.threads|
    ensures var s' := WorkerStep(s, i); Guards(s'.queueMutex, s'.threads, HoldsQueue, AccHoldsQueue(s'.acc))
  {
    hide Guards;
    WorkerFrame(s, i);
    var s' := WorkerStep(s, i);
    GuardsWorker(s.queueMutex, s.threads, HoldsQueue, AccHoldsQueue(s.acc), i, s'.threads[i], s'.queueMutex);
  }

  lemma WorkerKeepsLocks(s: State, i: nat)
    requires LockInv(s) && i < |s.threads|
    ensures LockInv(WorkerStep(s, i))
  {
    hide Guards, WorkerStep;
    WorkerKeepsFreeMutex(s, i);
    WorkerKeepsPoolMutex(s, i);
    WorkerKeepsQueueMutex(s, i);
  }

  lemma WorkerKeepsOwnReg(s: State, i: nat)
    requires RegInv(s) && PoolInv(s) && i < |s.threads|
    ensures Current(WorkerStep(s, i), WorkerStep(s, i).threads[i].pc)
  {
    hide Count;
    assert Current(s, s.threads[i].pc);
  }

  lemma WorkerKeepsOtherReg(s: State, i: nat, pc: Pc)
    requires i < |s.threads| && Current(s, pc)
    requires HoldsFree(s.threads[i].pc) ==> !HoldsFree(pc)
    requires HoldsPool(s.threads[i].pc) ==> !HoldsPool(pc)
    ensures Current(WorkerStep(s, i), pc)
  {
  }

  lemma WorkerKeepsRegs(s: State, i: nat)
    requires LockInv(s) && RegInv(s) && PoolInv(s) && i < |s.threads|
    ensures RegInv(WorkerStep(s, i))
  {
    hide Guards, Count, WorkerStep, Current, PoolInv, HoldsFree, HoldsPool;
    Alone(s.freeMutex, s.threads, HoldsFree, AccHoldsFree(s.acc), i);
    Alone(s.poolMutex, s.threads, HoldsPool, AccHoldsPool(s.acc), i);
    WorkerFrame(s, i);
    var s' := WorkerStep(s, i);
    forall j | 0 <= j < |s.threads| ensures Current(s', s'.threads[j].pc) {
      if j == i {
        WorkerKeepsOwnReg(s, i);
      } else {
        WorkerKeepsOtherReg(s, i, s.threads[j].pc);
      }
    }
  }

  lemma WorkerKeepsFree(s: State, i: nat)
    requires RegInv(s) && FreeInv(s) && i < |s.threads|
    ensures FreeInv(WorkerStep(s, i))
  {
    hide Count;
    var s' := WorkerStep(s, i);
    CountUpdated(s.threads, i, s'.threads[i], Free);
    assert s'.threads == s.threads[i := s'.threads[i]];
    assert Current(s, s.threads[i].pc);
  }

  lemma WorkerKeepsPool(s: State, i: nat)
    requires LockInv(s) && RegInv(s) && PoolInv(s) && i < |s.threads|
    ensures PoolInv(WorkerStep(s, i))
  {
    hide Count, Guards;
    var s' := WorkerStep(s, i);
    Alone(s.poolMutex, s.threads, HoldsPool, AccHoldsPool(s.acc), i);
    CountUpdated(s.threads, i, s'.threads[i], Registered);
    CountAll(s.threads, i);
    assert s'.threads == s.threads[i := s'.threads[i]];
    assert Current(s, s.threads[i].pc);
  }

  lemma CountAll(ths: seq<Thread>, i: nat)
    requires i < |ths|
    ensures Count(ths, Registered) == |ths| ==> Registered(ths[i])
  {
    CountUpdated(ths, i, Thread(Start, -1, None), Registered);
    CountMonotone(ths[i := Thread(Start, -1, None)], Registered, th => true);
  }

  /** A step that gives no client away, and at most ends a service. */
  lemma SameHands(s: State, s': State, i: nat)
    requires HandInv(s) && i < |s.threads|
    requires s'.base == s.base && s'.arrivals == s.arrivals && s'.queue == s.queue && s'.handed == s.handed
    requires |s'.threads| == |s.threads| && forall j :: 0 <= j < |s.threads| && j != i ==> s'.threads[j] == s.threads[j]
    requires s'.threads[i].arrival.None?
          || (s'.threads[i].arrival == s.threads[i].arrival && s'.threads[i].client == s.threads[i].client)
    ensures HandInv(s')
  {
  }

  lemma TakeKeepsHand(s: State, i: nat)
    requires HandInv(s) && i < |s.threads| && s.queue != []
    ensures HandInv(TakeClient(s, i))
  {
    var s' := TakeClient(s, i);
    assert s.queue[0] == s.arrivals[s.base];
    assert s'.handed[|s.handed|] == s.base;
  }

  lemma WorkerKeepsHand(s: State, i: nat)
    requires HandInv(s) && i < |s.threads|
    ensures HandInv(WorkerStep(s, i))
  {
    hide HandInv;
    if s.threads[i].pc.Take? && s.queue != [] {
      TakeKeepsHand(s, i);
    } else {
      SameHands(s, WorkerStep(s, i), i);
    }
  }

  lemma AcceptorKeepsLocks(s: State, fd: nat)
    requires LockInv(s)
    ensures LockInv(AcceptorStep(s, fd))
  {
    hide Guards;
    var s' := AcceptorStep(s, fd);
    GuardsAcceptor(s.freeMutex, s.threads, HoldsFree, AccHoldsFree(s.acc), AccHoldsFree(s'.acc), s'.freeMutex);
    GuardsAcceptor(s.poolMutex, s.threads, HoldsPool, AccHoldsPool(s.acc), AccHoldsPool(s'.acc), s'.poolMutex);
    GuardsAcceptor(s.queueMutex, s.threads, HoldsQueue, AccHoldsQueue(s.acc), AccHoldsQueue(s'.acc), s'.queueMutex);
  }

  lemma AcceptorKeepsRegs(s: State, fd: nat)
    requires LockInv(s) && RegInv(s)
    ensures RegInv(AcceptorStep(s, fd))
  {
    hide Guards;
    forall i | 0 <= i < |s.threads| ensures Current(AcceptorStep(s, fd), s.threads[i].pc) {
      Alone(s.poolMutex, s.threads, HoldsPool, AccHoldsPool(s.acc), i);
      assert Current(s, s.threads[i].pc);
    }
  }

  lemma AcceptorKeepsFree(s: State, fd: nat)
    requires FreeInv(s)
    ensures FreeInv(AcceptorStep(s, fd))
  {
    hide Count;
    CountAppended(s.threads, Thread(Start, -1, None), Free);
  }

  lemma AcceptorKeepsPool(s: State, fd: nat)
    requires s.n <= s.k && PoolInv(s)
    ensures PoolInv(AcceptorStep(s, fd))
  {
    hide Count;
    CountAppended(s.threads, Thread(Start, -1, None), Registered);
  }

  lemma EnqueueKeepsHand(s: State, fd: nat)
    requires HandInv(s)
    ensures HandInv(s.(queue := s.queue + [fd], arrivals := s.arrivals + [fd], acc := QueueUnlock))
  {
  }

  lemma NewThreadKeepsHand(s: State, acc: Acc)
    requires HandInv(s)
    ensures HandInv(NewThread(s).(acc := acc))
  {
  }

  /** `HandInv` does not speak of the counters, the mutexes or the acceptor. */
  lemma OthersKeepHand(s: State, s': State)
    requires HandInv(s) && s'.base == s.base && s'.arrivals == s.arrivals && s'.queue == s.queue
    requires s'.handed == s.handed && s'.threads == s.threads
    ensures HandInv(s')
  {
  }

  lemma AcceptorKeepsHand(s: State, fd: nat)
    requires HandInv(s)
    ensures HandInv(AcceptorStep(s, fd))
  {
    hide HandInv, NewThread;
    match s.acc {
      case Creating(i) =>
        NewThreadKeepsHand(s, Creating(i + 1));
        OthersKeepHand(s, s.(acc := SetPool));
      case Create => NewThreadKeepsHand(s, Accepting);
      case Enqueue(c) => EnqueueKeepsHand(s, c);
      case _ => OthersKeepHand(s, AcceptorStep(s, fd));
    }
  }

  /** Every step of the acceptor and of every worker keeps the invariant. */
  lemma StepKeeps(s: State, e: Event)
    requires Inv(s)
    ensures Inv(Step(s, e)) && Step(s, e).n == s.n && Step(s, e).k == s.k
  {
    hide LockInv, RegInv, FreeInv, PoolInv, HandInv;
    match e
    case Accept(fd) =>
      AcceptorKeepsLocks(s, fd);
      AcceptorKeepsRegs(s, fd);
      AcceptorKeepsFree(s, fd);
      AcceptorKeepsPool(s, fd);
      AcceptorKeepsHand(s, fd);
    case Work(i) =>
      if i < |s.threads| {
        WorkerKeepsLocks(s, i);
        WorkerKeepsRegs(s, i);
        WorkerKeepsFree(s, i);
        WorkerKeepsPool(s, i);
        WorkerKeepsHand(s, i);
      }
  }

  lemma {:induction false} RunKeeps(n: nat, k: nat, schedule: seq<Event>)
    requires n <= k
    ensures var s := Run(Init(n, k), schedule); Inv(s) && s.n == n && s.k == k
  {
    hide Inv, Step;
    if schedule == [] {
      InitInv(n, k);
    } else {
      RunKeeps(n, k, schedule[..|schedule| - 1]);
      StepKeeps(Run(Init(n, k), schedule[..|schedule| - 1]), schedule[|schedule| - 1]);
    }
  }

  // ----- Main results, for every n <= k and every schedule -----

  /** After start-up the pool stays between n and k, and its size is the number of workers that have not
      taken themselves off it, and of the one the acceptor is about to create. */
  lemma PoolSizeExact(n: nat, k: nat, schedule: seq<Event>)
    requires n <= k
    ensures var s := Run(Init(n, k), schedule);
      Started(s) ==> n <= s.pool <= k && s.pool == Count(s.threads, Registered) + OnTheWay(s)
  {
    RunKeeps(n, k, schedule);
  }

  /** No more than k clients are ever served at once. */
  lemma ServedAtOnce(n: nat, k: nat, schedule: seq<Event>)
    requires n <= k
    ensures Count(Run(Init(n, k), schedule).threads, IsServing) <= k
  {
    RunKeeps(n, k, schedule);
    var s := Run(Init(n, k), schedule);
    CountMonotone(s.threads, IsServing, Registered);
  }

  /** `free_workers_count` is the number of workers between their increment and the matching decrement,
      so no decrement ever takes it below zero. */
  lemma FreeCountExact(n: nat, k: nat, schedule: seq<Event>)
    requires n <= k
    ensures var s := Run(Init(n, k), schedule); s.free == Count(s.threads, Free)
    ensures var s := Run(Init(n, k), schedule);
      forall i :: 0 <= i < |s.threads| && s.threads[i].pc.DecStore? ==> s.threads[i].pc.reg > 0
  {
    RunKeeps(n, k, schedule);
    var s := Run(Init(n, k), schedule);
    forall i | 0 <= i < |s.threads| && s.threads[i].pc.DecStore? ensures s.threads[i].pc.reg > 0 {
      CountUpdated(s.threads, i, Thread(Gone, -1, None), Free);
    }
  }

  /** The clients given to workers are a subsequence of the arrivals, and no two workers are ever
      serving, or about to serve, the same arrival. */
  lemma HandedInOrderAndOnce(n: nat, k: nat, schedule: seq<Event>)
    requires n <= k
    ensures var s := Run(Init(n, k), schedule);
      && (forall a :: 0 <= a < |s.handed| ==> s.handed[a] < |s.arrivals|)
      && (forall a, b :: 0 <= a < b < |s.handed| ==> s.handed[a] < s.handed[b])
      && (forall i :: 0 <= i < |s.threads| && s.threads[i].arrival.Some? ==>
            var a := s.threads[i].arrival.value; a in s.handed && s.threads[i].client == s.arrivals[a])
      && (forall i, j :: 0 <= i < j < |s.threads| && s.threads[i].arrival.Some? ==>
            s.threads[i].arrival != s.threads[j].arrival)
  {
    RunKeeps(n, k, schedule);
  }

  // ----- Clients that are dropped -----

  /** A worker is about to take a client while more than one waits. */
  predicate CrowdedTake(s: State, e: Event) {
    e.Work? && e.i < |s.threads| && s.threads[e.i].pc.Take? && |s.queue| > 1
  }

  predicate Uncrowded(n: nat, k: nat, schedule: seq<Event>) {
    forall m :: 0 <= m < |schedule| ==> !CrowdedTake(Run(Init(n, k), schedule[..m]), schedule[m])
  }

  /** How many clients have left the queue without being handed to a worker. */
  function Dropped(s: State): int {
    s.base - |s.handed|
  }

  lemma StepDrops(s: State, e: Event)
    requires HandInv(s)
    ensures Dropped(Step(s, e)) == Dropped(s) + if CrowdedTake(s, e) then |s.queue| - 1 else 0
  {
    assert |s.queue| == |s.arrivals| - s.base;
  }

  lemma UncrowdedFront(n: nat, k: nat, schedule: seq<Event>)
    requires schedule != []
    ensures var m := |schedule| - 1; Uncrowded(n, k, schedule) <==>
      Uncrowded(n, k, schedule[..m]) && !CrowdedTake(Run(Init(n, k), schedule[..m]), schedule[m])
  {
    hide Run, CrowdedTake;
    var front := schedule[..|schedule| - 1];
    assert forall j :: 0 <= j < |front| ==> front[..j] == schedule[..j] && front[j] == schedule[j];
  }

  /** Over every run: no client is dropped if and only if no worker ever takes one while more than one waits. */
  lemma {:induction false} NoneDroppedIff(n: nat, k: nat, schedule: seq<Event>)
    requires n <= k
    ensures var s := Run(Init(n, k), schedule);
      Dropped(s) >= 0 && (Dropped(s) == 0 <==> Uncrowded(n, k, schedule))
  {
    hide Inv, HandInv, Step, Uncrowded, Dropped;
    if schedule == [] {
      NothingYet(n, k);
    } else {
      var m := |schedule| - 1;
      NoneDroppedIff(n, k, schedule[..m]);
      RunKeeps(n, k, schedule[..m]);
      var s := Run(Init(n, k), schedule[..m]);
      InvHand(s);
      StepDrops(s, schedule[m]);
      UncrowdedFront(n, k, schedule);
    }
  }

  lemma NothingYet(n: nat, k: nat)
    ensures Dropped(Init(n, k)) == 0 && Uncrowded(n, k, [])
  {
  }

  lemma InvHand(s: State)
    requires Inv(s)
    ensures HandInv(s)
  {
  }

  // ----- What becomes of a client -----

  /** On the way to serving, and serving. */
  predicate WithClient(pc: Pc) {
    match pc
    case TakeUnlock => true
    case DecLock(leave) => !leave
    case DecLoad(leave) => !leave
    case DecStore(leave, _) => !leave
    case DecUnlock(leave) => !leave
    case Serving => true
    case _ => false
  }

  predicate ClientOk(th: Thread) {
    (th.arrival.Some? ==> WithClient(th.pc) && th.client >= 0) && (th.arrival.None? ==> th.client == -1)
  }

  ghost predicate ClientInv(s: State) {
    && (forall i :: 0 <= i < |s.threads| ==> ClientOk(s.threads[i]))
    && (forall q :: 0 <= q < |s.queue| ==> s.queue[q] >= 0)
  }

  lemma AcceptorKeepsClients(s: State, fd: nat)
    requires ClientInv(s)
    ensures ClientInv(AcceptorStep(s, fd))
  {
  }

  lemma WorkerKeepsClients(s: State, i: nat)
    requires ClientInv(s) && i < |s.threads|
    ensures ClientInv(WorkerStep(s, i))
  {
    hide ClientOk;
    OwnClient(s, i);
    WorkerFrame(s, i);
  }

  lemma OwnClient(s: State, i: nat)
    requires ClientInv(s) && i < |s.threads|
    ensures var s' := WorkerStep(s, i); i < |s'.threads| && ClientOk(s'.threads[i])
  {
    assert ClientOk(s.threads[i]);
  }

  lemma StepKeepsClients(s: State, e: Event)
    requires ClientInv(s)
    ensures ClientInv(Step(s, e))
  {
    hide ClientInv;
    match e
    case Accept(fd) => AcceptorKeepsClients(s, fd);
    case Work(i) =>
      if i < |s.threads| {
        WorkerKeepsClients(s, i);
      }
  }

  lemma {:induction false} RunKeepsClients(n: nat, k: nat, schedule: seq<Event>)
    ensures ClientInv(Run(Init(n, k), schedule))
  {
    hide Step;
    if schedule == [] {
    } else {
      RunKeepsClients(n, k, schedule[..|schedule| - 1]);
      StepKeepsClients(Run(Init(n, k), schedule[..|schedule| - 1]), schedule[|schedule| - 1]);
    }
  }

  /** Over every run, a worker that was handed a client is on its way to serving it, or serving: none of them waits,
      leaves or is gone. */
  lemma ClientsNotForgotten(n: nat, k: nat, schedule: seq<Event>)
    ensures var s := Run(Init(n, k), schedule);
      forall i :: 0 <= i < |s.threads| && s.threads[i].arrival.Some? ==>
        WithClient(s.threads[i].pc) && s.threads[i].client >= 0
    ensures var s := Run(Init(n, k), schedule);
      forall i :: 0 <= i < |s.threads| && s.threads[i].arrival.None? ==> s.threads[i].client == -1
  {
    RunKeepsClients(n, k, schedule);
    var s := Run(Init(n, k), schedule);
    forall i | 0 <= i < |s.threads|
      ensures s.threads[i].arrival.Some? ==> WithClient(s.threads[i].pc) && s.threads[i].client >= 0
      ensures s.threads[i].arrival.None? ==> s.threads[i].client == -1
    {
      assert ClientOk(s.threads[i]);
    }
  }
}
