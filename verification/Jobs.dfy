/** The job table `lab4/job.c`: an array of process ids with holes, indexed by job id from 1 on,
    that gives out the lowest free id and doubles when it is full. */
module Jobs {
  import opened Common

  const INITIAL_CAPACITY: nat := 255

  // ----- Specification on the slots; slot 0 is never used -----

  /** The first slot from `i` on that holds `pid`, or the length. */
  function FirstWith(slots: seq<int>, pid: int, i: nat): (k: nat)
    requires i <= |slots|
    ensures i <= k <= |slots|
    ensures forall j :: i <= j < k ==> slots[j] != pid
    ensures k < |slots| ==> slots[k] == pid
    decreases |slots| - i
  {
    if i < |slots| && slots[i] != pid then FirstWith(slots, pid, i + 1) else i
  }

  function Capacity(slots: seq<int>): int {
    |slots| - 1
  }

  function AddId(slots: seq<int>): nat
    requires |slots| >= 2
  {
    FirstWith(slots, 0, 1)
  }

  function Added(slots: seq<int>, pid: int): seq<int>
    requires |slots| >= 2
  {
    var id := AddId(slots);
    var grown := if id < |slots| then slots else slots + Times(0, Capacity(slots));
    grown[id := pid]
  }

  function DeletedId(slots: seq<int>, id: nat): seq<int> {
    if id < |slots| then slots[id := 0] else slots
  }

  function DeletedPid(slots: seq<int>, pid: int): seq<int>
    requires |slots| >= 2
  {
    DeletedId(slots, FirstWith(slots, pid, 1))
  }

  function LiveIds(slots: seq<int>): set<nat> {
    set i: nat | 0 < i < |slots| && slots[i] != 0
  }

  // ----- Whole runs -----

  datatype Op = Add(pid: int) | DeleteId(id: nat) | DeletePid(pid: int)

  /** `highWater` is the largest number of jobs live at once so far, `maxId` the largest id given out. */
  datatype Run = Run(slots: seq<int>, highWater: nat, maxId: nat)

  function Max(x: int, y: int): int {
    if x < y then y else x
  }

  function Apply(r: Run, op: Op): Run
    requires |r.slots| >= 2
  {
    match op
    case Add(pid) =>
      var slots := Added(r.slots, pid);
      Run(slots, Max(r.highWater, |LiveIds(slots)|), Max(r.maxId, AddId(r.slots)))
    case DeleteId(id) => r.(slots := DeletedId(r.slots, id))
    case DeletePid(pid) => r.(slots := DeletedPid(r.slots, pid))
  }

  function ApplyAll(ops: seq<Op>): (r: Run)
    ensures |r.slots| >= 2
  {
    if ops == [] then Run(Times(0, INITIAL_CAPACITY + 1), 0, 0)
    else Apply(ApplyAll(ops[..|ops| - 1]), ops[|ops| - 1])
  }

  ghost predicate Inv(r: Run) {
    && |r.slots| >= 2
    && |LiveIds(r.slots)| <= r.highWater
    && r.maxId <= r.highWater
    && Capacity(r.slots) <= Max(INITIAL_CAPACITY, 2 * r.highWater)
  }

  /** The ids from 1 to `n`. */
  function Ids(n: nat): (ids: set<nat>)
    ensures |ids| == n && forall i :: i in ids <==> 0 < i <= n
  {
    if n == 0 then {} else Ids(n - 1) + {n}
  }

  lemma SubsetSize(s: set<nat>, t: set<nat>)
    requires s <= t
    ensures |s| <= |t|
  {
    assert t == s + (t - s);
  }

  /** The id given out is at most the number of jobs live afterwards: everything below it is in use. */
  lemma AddIdBelowLive(slots: seq<int>, pid: int)
    requires |slots| >= 2 && pid != 0
    ensures AddId(slots) <= |LiveIds(Added(slots, pid))|
  {
    var id := AddId(slots);
    SubsetSize(Ids(id), LiveIds(Added(slots, pid)));
  }

  lemma ApplyKeeps(r: Run, op: Op)
    requires Inv(r) && (op.Add? ==> op.pid != 0)
    ensures Inv(Apply(r, op))
  {
    match op
    case Add(pid) => AddIdBelowLive(r.slots, pid);
    case DeleteId(id) => SubsetSize(LiveIds(DeletedId(r.slots, id)), LiveIds(r.slots));
    case DeletePid(pid) => SubsetSize(LiveIds(DeletedPid(r.slots, pid)), LiveIds(r.slots));
  }

  /** Over every run the largest id given out is at most the largest number of jobs live at once, and the
      table never grows beyond twice that number, or its initial size. */
  lemma {:induction false} IdsStayLow(ops: seq<Op>)
    requires forall k :: 0 <= k < |ops| && ops[k].Add? ==> ops[k].pid != 0
    ensures var r := ApplyAll(ops);
      r.maxId <= r.highWater && Capacity(r.slots) <= Max(INITIAL_CAPACITY, 2 * r.highWater) && Inv(r)
  {
    hide Inv;
    if ops == [] {
      EmptyRun();
    } else {
      IdsStayLow(ops[..|ops| - 1]);
      ApplyKeeps(ApplyAll(ops[..|ops| - 1]), ops[|ops| - 1]);
    }
    InvBounds(ApplyAll(ops));
  }

  lemma EmptyRun()
    ensures Inv(ApplyAll([]))
  {
    assert LiveIds(Times(0, INITIAL_CAPACITY + 1)) == {};
  }

  lemma InvBounds(r: Run)
    requires Inv(r)
    ensures r.maxId <= r.highWater && Capacity(r.slots) <= Max(INITIAL_CAPACITY, 2 * r.highWater)
  {
  }

  // ----- Ids and process ids -----

  predicate DistinctPids(slots: seq<int>) {
    forall i, j :: 0 < i < j < |slots| && slots[i] != 0 ==> slots[i] != slots[j]
  }

  function JobOf(slots: seq<int>, id: nat): int {
    if id < |slots| then slots[id] else 0
  }

  function IdOf(slots: seq<int>, pid: int): nat
    requires |slots| >= 2
  {
    var k := FirstWith(slots, pid, 1);
    if k < |slots| then k else 0
  }

  /** From a process to its id and back always works; from every id to its process and back works if and
      only if no process is in the table twice. */
  lemma LookupsInverse(slots: seq<int>)
    requires |slots| >= 2
    ensures forall pid :: IdOf(slots, pid) != 0 ==> JobOf(slots, IdOf(slots, pid)) == pid
    ensures (forall id :: id in LiveIds(slots) ==> IdOf(slots, JobOf(slots, id)) == id) <==> DistinctPids(slots)
  {
    if forall id :: id in LiveIds(slots) ==> IdOf(slots, JobOf(slots, id)) == id {
      forall i, j | 0 < i < j < |slots| && slots[i] != 0 ensures slots[i] != slots[j] {
        assert i in LiveIds(slots) && IdOf(slots, JobOf(slots, i)) == i;
        if slots[j] != 0 {
          assert j in LiveIds(slots) && IdOf(slots, JobOf(slots, j)) == j;
        }
      }
    }
    if DistinctPids(slots) {
      forall id | id in LiveIds(slots) ensures IdOf(slots, JobOf(slots, id)) == id {
        var k := FirstWith(slots, slots[id], 1);
        assert k <= id;
      }
    }
  }

  /** Adding a process that is not in the table keeps the processes distinct, gives it a free id, and
      changes no other job; deleting it gives the old jobs back. */
  lemma AddThenDelete(slots: seq<int>, pid: int, id: nat)
    requires |slots| >= 2 && pid != 0 && DistinctPids(slots) && FirstWith(slots, pid, 1) == |slots|
    ensures DistinctPids(Added(slots, pid))
    ensures JobOf(slots, AddId(slots)) == 0 && IdOf(Added(slots, pid), pid) == AddId(slots)
    ensures id != 0 && id != AddId(slots) ==> JobOf(Added(slots, pid), id) == JobOf(slots, id)
    ensures id != 0 ==> JobOf(DeletedPid(Added(slots, pid), pid), id) == JobOf(slots, id)
  {
    FirstWithIs(Added(slots, pid), pid, 1, AddId(slots));
  }

  // ----- What the operations do to every table -----

  /** The id given out was free, and every lower one is in use. The new process is under it, no other job changes, and
      the capacity doubles exactly when no id was free. */
  lemma AddedFacts(slots: seq<int>, pid: int)
    requires |slots| >= 2
    ensures var id, after := AddId(slots), Added(slots, pid);
      && 0 < id < |after| && JobOf(slots, id) == 0 && (forall i: nat :: 0 < i < id ==> JobOf(slots, i) != 0)
      && JobOf(after, id) == pid && (forall i: nat :: i != id ==> JobOf(after, i) == JobOf(slots, i))
      && Capacity(after) ==
           if forall i: nat :: 0 < i < |slots| ==> JobOf(slots, i) != 0 then 2 * Capacity(slots) else Capacity(slots)
  {
    var id := AddId(slots);
    if id < |slots| {
      assert JobOf(slots, id) == 0;
    }
  }

  /** The id of a process is the lowest under which it is found, and 0 if there is none. */
  lemma IdOfIs(slots: seq<int>, pid: int)
    requires |slots| >= 2
    ensures var id := IdOf(slots, pid);
      if exists i :: 0 < i < |slots| && slots[i] == pid
      then 0 < id < |slots| && slots[id] == pid && forall i :: 0 < i < id ==> slots[i] != pid
      else id == 0
  {
  }

  /** Deletion by id empties this id, and no other, and keeps the size of the table. */
  lemma DeletedIdFacts(slots: seq<int>, id: nat)
    ensures var after := DeletedId(slots, id);
      |after| == |slots| && JobOf(after, id) == 0 && forall i: nat :: i != id ==> JobOf(after, i) == JobOf(slots, i)
  {
  }

  /** Deletion by process empties the lowest id of the process, wherever it is and whatever is free before it, and no
      other. A process that is absent changes nothing. */
  lemma DeletedPidFacts(slots: seq<int>, pid: int)
    requires |slots| >= 2 && pid != 0
    ensures var id, after := IdOf(slots, pid), DeletedPid(slots, pid);
      && |after| == |slots|
      && (id == 0 ==> after == slots)
      && (id != 0 ==> JobOf(slots, id) == pid && JobOf(after, id) == 0)
      && forall i: nat :: i != id || id == 0 ==> JobOf(after, i) == JobOf(slots, i)
  {
  }

  /** While the live processes are distinct, a deleted process is gone, and every other keeps its id. */
  lemma DeletedIsGone(slots: seq<int>, pid: int, other: int)
    requires |slots| >= 2 && pid != 0 && DistinctPids(slots)
    ensures var after := DeletedPid(slots, pid);
      && DistinctPids(after) && IdOf(after, pid) == 0
      && (other != pid && other != 0 ==> IdOf(after, other) == IdOf(slots, other))
  {
    var after := DeletedPid(slots, pid);
    DeletedPidFacts(slots, pid);
    IdOfIs(slots, pid);
    IdOfIs(after, pid);
    if other != pid && other != 0 {
      IdOfIs(slots, other);
      IdOfIs(after, other);
      SameId(slots, after, other);
    }
  }

  lemma SameId(one: seq<int>, two: seq<int>, pid: int)
    requires |one| == |two| >= 2 && forall i :: 0 < i < |one| ==> (one[i] == pid <==> two[i] == pid)
    ensures IdOf(one, pid) == IdOf(two, pid)
  {
  }

  /** Two jobs that end in turn, with a hole before the second when it is deleted. */
  lemma BothEnd(slots: seq<int>, first: int, second: int)
    requires |slots| >= 2 && first != 0 && second != 0 && first != second
    requires IdOf(slots, first) == 0 && IdOf(slots, second) == 0
    ensures var both := Added(Added(slots, first), second);
      forall id: nat :: id != 0 ==> JobOf(DeletedPid(DeletedPid(both, first), second), id) == JobOf(slots, id)
  {
    var one := Added(slots, first);
    var both := Added(one, second);
    AddedFacts(slots, first);
    AddedFacts(one, second);
    IdOfIs(slots, first);
    IdOfIs(slots, second);
    OnlyAt(both, first, AddId(slots));
    var rest := DeletedPid(both, first);
    DeletedPidFacts(both, first);
    OnlyAt(rest, second, AddId(one));
    DeletedPidFacts(rest, second);
  }

  lemma OnlyAt(slots: seq<int>, pid: int, id: nat)
    requires |slots| >= 2 && 0 < id && JobOf(slots, id) == pid != 0
    requires forall i: nat :: 0 < i && i != id ==> JobOf(slots, i) != pid
    ensures IdOf(slots, pid) == id
  {
    IdOfIs(slots, pid);
    var k := IdOf(slots, pid);
    assert JobOf(slots, k) == pid || k == 0;
  }

  // ----- The code -----

  class JobTable {
    var jobs: array?<int>
    var capacity: nat

    ghost predicate Valid()
      reads this
    {
      capacity >= 1 && (jobs != null ==> jobs.Length == capacity + 1)
    }

    /** The slots; a table that has not been allocated is empty. */
    ghost function Slots(): (s: seq<int>)
      requires Valid()
      reads this, jobs
      ensures |s| == capacity + 1
    {
      if jobs == null then Times(0, capacity + 1) else jobs[..]
    }

    constructor ()
      ensures Valid() && Slots() == ApplyAll([]).slots && jobs == null
    {
      jobs := null;
      capacity := INITIAL_CAPACITY;
    }

    method AddJob(pid: int) returns (id: nat)
      requires Valid()
      modifies this, jobs
      ensures Valid() && jobs != null && (jobs == old(jobs) || fresh(jobs))
      ensures id == AddId(old(Slots())) && Slots() == Added(old(Slots()), pid)
    {
      ghost var before := Slots();
      if jobs == null {
        jobs := new int[capacity + 1](_ => 0);
      }
      assert jobs[..] == before;
      id := 1;
      while id <= capacity && jobs[id] != 0
        invariant 1 <= id <= capacity + 1
        invariant forall j :: 1 <= j < id ==> jobs[j] != 0
      {
        id := id + 1;
      }
      FirstWithIs(before, 0, 1, id);
      if id > capacity {
        jobs := Grown(jobs, capacity);
        capacity := capacity * 2;
      }
      jobs[id] := pid;
    }

    /** `realloc` to twice the capacity, and zeros in the new part. */
    static method Grown(jobs: array<int>, capacity: nat) returns (more: array<int>)
      requires jobs.Length == capacity + 1
      ensures fresh(more) && more[..] == jobs[..] + Times(0, capacity)
    {
      more := new int[2 * capacity + 1](i reads jobs => if 0 <= i < jobs.Length then jobs[i] else -1);
      var j := capacity + 1;
      while j <= 2 * capacity
        invariant capacity + 1 <= j <= 2 * capacity + 1
        invariant forall k :: 0 <= k <= capacity ==> more[k] == jobs[k]
        invariant forall k :: capacity < k < j ==> more[k] == 0
      {
        more[j] := 0;
        j := j + 1;
      }
    }

    method GetJob(id: nat) returns (pid: int)
      requires Valid()
      ensures pid == JobOf(Slots(), id)
    {
      if jobs == null || id > capacity {
        return 0;
      }
      pid := jobs[id];
    }

    method GetJobId(pid: int) returns (id: nat)
      requires Valid()
      ensures id == if jobs == null then 0 else IdOf(Slots(), pid)
    {
      if jobs == null {
        return 0;
      }
      id := 1;
      while id <= capacity && jobs[id] != pid
        invariant 1 <= id <= capacity + 1
        invariant forall j :: 1 <= j < id ==> jobs[j] != pid
      {
        id := id + 1;
      }
      FirstWithIs(Slots(), pid, 1, id);
      if id > capacity || jobs[id] != pid {
        return 0;
      }
    }

    method DeleteJobById(id: nat)
      requires Valid()
      modifies jobs
      ensures Valid() && Slots() == DeletedId(old(Slots()), id)
    {
      if jobs == null || id > capacity {
        return;
      }
      jobs[id] := 0;
    }

    method DeleteJobByPid(pid: int)
      requires Valid()
      modifies jobs
      ensures Valid() && Slots() == DeletedPid(old(Slots()), pid)
    {
      if jobs == null {
        assert Slots()[FirstWith(Slots(), 0, 1) := 0] == Slots();
        return;
      }
      var i := 1;
      while i <= capacity
        invariant 1 <= i <= capacity + 1
        invariant forall j :: 1 <= j < i ==> jobs[j] != pid
        invariant Slots() == old(Slots())
      {
        if pid == jobs[i] {
          FirstWithIs(Slots(), pid, 1, i);
          jobs[i] := 0;
          return;
        }
        i := i + 1;
      }
      FirstWithIs(Slots(), pid, 1, i);
    }
  }

  lemma FirstWithIs(slots: seq<int>, pid: int, i: nat, k: nat)
    requires i <= k <= |slots|
    requires forall j :: i <= j < k ==> slots[j] != pid
    requires k == |slots| || slots[k] == pid
    ensures FirstWith(slots, pid, i) == k
  {
  }
}
