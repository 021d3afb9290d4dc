/** Any number of `reverse`, `change_register` and `count_capitalized` threads, and printers that
    take the lock, over one shared string: an interleaved step system. Writers hold the lock alone,
    readers share it; a mutex is the same lock with writers only. */
module Workers {
  import opened Common
  import opened Forms
  import opened Sections

  datatype Role = Reverser | Changer | Counter | Printer

  datatype Pc =
    | Idle                                   // asleep or waiting for the lock
    | Writing(work: Work)
    | Counting(i: nat, cnt: nat)
    | Counted(cnt: nat, flipsThen: nat)      // the read lock is released, the number not yet printed
    | Printing(i: nat, text: seq<Byte>)

  datatype Thread = Thread(role: Role, pc: Pc)

  /** `revs`, `flips` and `flipsThen` are history, and so are the numbers beside a line: how many sections of each kind
      have, or had, finished. */
  datatype State = State(toy: seq<Byte>, writer: Option<nat>, readers: set<nat>, threads: seq<Thread>,
                         revs: nat, flips: nat, counts: seq<(nat, nat)>, lines: seq<(seq<Byte>, nat, nat)>)

  function Init(src: seq<Byte>, roles: seq<Role>): State {
    State(src, None, {}, seq(|roles|, i requires 0 <= i < |roles| => Thread(roles[i], Idle)), 0, 0, [], [])
  }

  function Goto(s: State, t: nat, pc: Pc): State
    requires t < |s.threads|
  {
    s.(threads := s.threads[t := s.threads[t].(pc := pc)])
  }

  /** wlock() or lock(): granted when nobody holds the lock. */
  function TryLock(s: State, t: nat, pc: Pc): State
    requires t < |s.threads|
  {
    if s.writer.None? && s.readers == {} then Goto(s, t, pc).(writer := Some(t)) else s
  }

  /** rlock(): granted when no writer holds the lock. */
  function TryReadLock(s: State, t: nat): State
    requires t < |s.threads|
  {
    if s.writer.None? then Goto(s, t, Counting(0, 0)).(readers := s.readers + {t}) else s
  }

  function Tally(s: State, op: Op): State {
    match op
    case Reverse => s.(revs := s.revs + 1)
    case ChangeCase => s.(flips := s.flips + 1)
  }

  function Unlocked(s: State, t: nat, op: Op): State
    requires t < |s.threads|
  {
    Tally(Goto(s, t, Idle).(writer := None), op)
  }

  /** One step of thread `t`; the state does not change when the thread cannot move. */
  function Step(lax: bool, s: State, t: nat): State {
    if t >= |s.threads| then s
    else match s.threads[t].pc
      case Idle => (
        match s.threads[t].role
        case Reverser => TryLock(s, t, Writing(Begin(Reverse)))
        case Changer => TryLock(s, t, Writing(Begin(ChangeCase)))
        case Printer => TryLock(s, t, Printing(0, []))
        case Counter => TryReadLock(s, t))
      case Writing(w) =>
        if w.Finished? then Unlocked(s, t, w.op)
        else if InBounds(|s.toy|, w) then
          var r := SectionStep(lax, s.toy, w); Goto(s, t, Writing(r.1)).(toy := r.0)
        else s
      case Counting(i, cnt) =>
        if i < |s.toy| then Goto(s, t, Counting(i + 1, cnt + if IsUpper(s.toy[i]) then 1 else 0))
        else Goto(s, t, Counted(cnt, s.flips)).(readers := s.readers - {t})
      case Counted(cnt, f) => Goto(s, t, Idle).(counts := s.counts + [(cnt, f)])
      case Printing(i, text) =>
        if i < |s.toy| then Goto(s, t, Printing(i + 1, text + [s.toy[i]]))
        else Goto(s, t, Idle).(writer := None, lines := s.lines + [(text, s.revs, s.flips)])
  }

  /** The state after the threads named in `schedule` have each made a step, in this order. */
  function Run(lax: bool, s: State, schedule: seq<nat>): State {
    if schedule == [] then s
    else Step(lax, Run(lax, s, schedule[..|schedule| - 1]), schedule[|schedule| - 1])
  }

  // ----- The invariant -----

  predicate Exclusive(pc: Pc) { pc.Writing? || pc.Printing? }

  /** Who is inside a critical section holds the lock, and a writer holds it alone. */
  ghost predicate LockInv(s: State) {
    && (forall t :: 0 <= t < |s.threads| ==> (Exclusive(s.threads[t].pc) <==> s.writer == Some(t)))
    && (forall t :: 0 <= t < |s.threads| ==> (s.threads[t].pc.Counting? <==> t in s.readers))
    && (s.writer.Some? ==> s.writer.value < |s.threads| && s.readers == {})
    && (forall r :: r in s.readers ==> r < |s.threads|)
  }

  function Base(lax: bool, src: seq<Byte>, s: State): seq<Byte> {
    Form(lax, src, s.revs, s.flips)
  }

  predicate SomeoneWriting(s: State) {
    exists t :: 0 <= t < |s.threads| && s.threads[t].pc.Writing?
  }

  ghost predicate ToyInv(lax: bool, src: seq<Byte>, s: State) {
    && |s.toy| == |src|
    && (!SomeoneWriting(s) ==> s.toy == Base(lax, src, s))
  }

  function CapitalsAfter(src: seq<Byte>, flips: nat): nat {
    if Odd(flips) then Lowers(src) else Uppers(src)
  }

  /** What is known of one thread, given the shared string. */
  ghost predicate ThreadInv(lax: bool, src: seq<Byte>, s: State, pc: Pc) {
    match pc
    case Idle => true
    case Writing(w) => SectionInv(lax, Base(lax, src, s), s.toy, w)
    case Counting(i, cnt) => i <= |s.toy| && cnt == Uppers(s.toy[..i])
    case Counted(cnt, f) => cnt == CapitalsAfter(src, f)
    case Printing(i, text) => i <= |s.toy| && text == s.toy[..i]
  }

  ghost predicate OutputInv(lax: bool, src: seq<Byte>, s: State) {
    && (forall k :: 0 <= k < |s.counts| ==> s.counts[k].0 == CapitalsAfter(src, s.counts[k].1))
    && (forall k :: 0 <= k < |s.lines| ==> s.lines[k].0 == Form(lax, src, s.lines[k].1, s.lines[k].2))
  }

  ghost predicate Inv(lax: bool, src: seq<Byte>, s: State) {
    && LockInv(s) && ToyInv(lax, src, s) && OutputInv(lax, src, s)
    && (forall t :: 0 <= t < |s.threads| ==> ThreadInv(lax, src, s, s.threads[t].pc))
  }

  // ----- Preservation -----

  lemma InitInv(lax: bool, src: seq<Byte>, roles: seq<Role>)
    ensures Inv(lax, src, Init(src, roles))
  {
  }

  lemma CapitalsOfForm(lax: bool, src: seq<Byte>, revs: nat, flips: nat)
    requires Flippable(lax, src)
    ensures Uppers(Form(lax, src, revs, flips)) == CapitalsAfter(src, flips)
  {
    if lax {
      LaxAgreesIff(src);
    }
    UppersOfForm(src, revs, flips);
  }

  lemma SameOutput(lax: bool, src: seq<Byte>, s: State, s': State)
    requires OutputInv(lax, src, s) && s'.counts == s.counts && s'.lines == s.lines
    ensures OutputInv(lax, src, s')
  {
  }

  lemma IdleStepKeeps(lax: bool, src: seq<Byte>, s: State, t: nat)
    requires Inv(lax, src, s) && t < |s.threads| && s.threads[t].pc.Idle?
    ensures Inv(lax, src, Step(lax, s, t))
  {
    hide SectionInv, OutputInv, Form;
    var s' := Step(lax, s, t);
    if s' != s {
      assert !SomeoneWriting(s);
      SectionEntered(lax, s.toy, Reverse);
      SectionEntered(lax, s.toy, ChangeCase);
      SameOutput(lax, src, s, s');
    }
  }

  lemma WriterStepKeeps(lax: bool, src: seq<Byte>, s: State, t: nat)
    requires Flippable(lax, src) && Inv(lax, src, s)
    requires t < |s.threads| && s.threads[t].pc.Writing? && !s.threads[t].pc.work.Finished?
    ensures Inv(lax, src, Step(lax, s, t))
  {
    hide SectionInv, OutputInv, Form, Flippable;
    var s' := Step(lax, s, t);
    var w := s.threads[t].pc.work;
    assert ThreadInv(lax, src, s, s.threads[t].pc);
    FormFlippable(lax, src, s.revs, s.flips);
    SectionBounds(lax, Base(lax, src, s), s.toy, w);
    SectionStepKeeps(lax, Base(lax, src, s), s.toy, w);
    SameOutput(lax, src, s, s');
    assert s'.threads[t].pc.Writing? && SomeoneWriting(s');
  }

  lemma UnlockKeeps(lax: bool, src: seq<Byte>, s: State, t: nat)
    requires Flippable(lax, src) && Inv(lax, src, s)
    requires t < |s.threads| && s.threads[t].pc.Writing? && s.threads[t].pc.work.Finished?
    ensures Inv(lax, src, Step(lax, s, t))
  {
    hide SectionInv, OutputInv, Form, Flippable;
    var s' := Step(lax, s, t);
    var w := s.threads[t].pc.work;
    assert ThreadInv(lax, src, s, s.threads[t].pc);
    SectionEnds(lax, Base(lax, src, s), s.toy, w);
    FormFlippable(lax, src, s.revs, s.flips);
    FlippableSettles(lax, Base(lax, src, s));
    FivePassesIff(lax, w.op, Base(lax, src, s));
    FormReversed(lax, src, s.revs, s.flips);
    FormFlipped(lax, src, s.revs, s.flips);
    SameOutput(lax, src, s, s');
  }

  lemma CounterStepKeeps(lax: bool, src: seq<Byte>, s: State, t: nat)
    requires Flippable(lax, src) && Inv(lax, src, s)
    requires t < |s.threads| && s.threads[t].pc.Counting?
    ensures Inv(lax, src, Step(lax, s, t))
  {
    hide SectionInv, OutputInv, Form, Flippable, CapitalsAfter;
    var s' := Step(lax, s, t);
    var pc := s.threads[t].pc;
    assert ThreadInv(lax, src, s, pc);
    assert s.writer.None? && !SomeoneWriting(s);
    if pc.i < |s.toy| {
      assert s.toy[..pc.i + 1][..pc.i] == s.toy[..pc.i];
    } else {
      assert s.toy[..pc.i] == s.toy;
      CapitalsOfForm(lax, src, s.revs, s.flips);
    }
    SameOutput(lax, src, s, s');
  }

  lemma PrintStepKeeps(lax: bool, src: seq<Byte>, s: State, t: nat)
    requires Inv(lax, src, s) && t < |s.threads| && (s.threads[t].pc.Printing? || s.threads[t].pc.Counted?)
    ensures Inv(lax, src, Step(lax, s, t))
  {
    hide SectionInv, Form, CapitalsAfter;
    var pc := s.threads[t].pc;
    assert ThreadInv(lax, src, s, pc);
    if pc.Printing? {
      assert !SomeoneWriting(s);
      if pc.i < |s.toy| {
        assert s.toy[..pc.i + 1] == s.toy[..pc.i] + [s.toy[pc.i]];
      } else {
        assert s.toy[..pc.i] == s.toy;
      }
    } else if SomeoneWriting(s) {
      var u :| 0 <= u < |s.threads| && s.threads[u].pc.Writing?;
      assert Step(lax, s, t).threads[u].pc.Writing?;
    }
  }

  /** Every step of every thread keeps the invariant. */
  lemma StepKeeps(lax: bool, src: seq<Byte>, s: State, t: nat)
    requires Flippable(lax, src) && Inv(lax, src, s)
    ensures Inv(lax, src, Step(lax, s, t))
  {
    hide Inv, Flippable;
    if t < |s.threads| {
      match s.threads[t].pc
      case Idle => IdleStepKeeps(lax, src, s, t);
      case Writing(w) =>
        if w.Finished? {
          UnlockKeeps(lax, src, s, t);
        } else {
          WriterStepKeeps(lax, src, s, t);
        }
      case Counting(_, _) => CounterStepKeeps(lax, src, s, t);
      case _ => PrintStepKeeps(lax, src, s, t);
    }
  }

  lemma {:induction false} RunKeeps(lax: bool, src: seq<Byte>, roles: seq<Role>, schedule: seq<nat>)
    requires Flippable(lax, src)
    ensures Inv(lax, src, Run(lax, Init(src, roles), schedule))
  {
    hide Inv, Step, Init;
    if schedule == [] {
      InitInv(lax, src, roles);
    } else {
      RunKeeps(lax, src, roles, schedule[..|schedule| - 1]);
      StepKeeps(lax, src, Run(lax, Init(src, roles), schedule[..|schedule| - 1]), schedule[|schedule| - 1]);
    }
  }

  /** While nobody writes, the string is the form given by the parities. */
  predicate ByParity(lax: bool, src: seq<Byte>, s: State) {
    !SomeoneWriting(s) ==> s.toy == Form(lax, src, s.revs, s.flips)
  }

  // ----- Main results, for any string, any threads and any schedule -----

  /** While nobody is writing, the string is the source, reversed after an odd number of finished
      `reverse` sections and with its case changed after an odd number of `change_register` sections. */
  lemma StringFollowsParity(lax: bool, src: seq<Byte>, roles: seq<Role>, schedule: seq<nat>)
    requires Flippable(lax, src)
    ensures ByParity(lax, src, Run(lax, Init(src, roles), schedule))
  {
    hide Run, Init, Form;
    RunKeeps(lax, src, roles, schedule);
  }

  /** Every number printed is the count of capitals of the source or the count of its small letters,
      chosen by the parity of the changes of case finished when the count was made. */
  lemma CountsExact(lax: bool, src: seq<Byte>, roles: seq<Role>, schedule: seq<nat>)
    requires Flippable(lax, src)
    ensures var s := Run(lax, Init(src, roles), schedule);
            forall k :: 0 <= k < |s.counts| ==>
              s.counts[k].0 == if Odd(s.counts[k].1) then Lowers(src) else Uppers(src)
  {
    hide Run, Init, Form;
    RunKeeps(lax, src, roles, schedule);
  }

  /** A line printed under the lock is the source, reversed after an odd number of reversals and with its case changed
      after an odd number of changes, counted when it was printed: one of the four forms. */
  lemma LinesAreForms(lax: bool, src: seq<Byte>, roles: seq<Role>, schedule: seq<nat>)
    requires Flippable(lax, src)
    ensures var s := Run(lax, Init(src, roles), schedule);
            forall k :: 0 <= k < |s.lines| ==> s.lines[k].0 == Form(lax, src, s.lines[k].1, s.lines[k].2)
  {
    hide Run, Init, Form;
    RunKeeps(lax, src, roles, schedule);
  }

  lemma StepKeepsLock(lax: bool, s: State, t: nat)
    requires LockInv(s)
    ensures LockInv(Step(lax, s, t))
  {
    hide SectionStep, InBounds;
  }

  lemma {:induction false} RunKeepsLock(lax: bool, src: seq<Byte>, roles: seq<Role>, schedule: seq<nat>)
    ensures LockInv(Run(lax, Init(src, roles), schedule))
  {
    hide Step;
    if schedule == [] {
    } else {
      RunKeepsLock(lax, src, roles, schedule[..|schedule| - 1]);
      StepKeepsLock(lax, Run(lax, Init(src, roles), schedule[..|schedule| - 1]), schedule[|schedule| - 1]);
    }
  }

  /** Two threads are inside critical sections at once only if both are counting. */
  lemma Exclusion(lax: bool, src: seq<Byte>, roles: seq<Role>, schedule: seq<nat>, t: nat, u: nat)
    ensures var s := Run(lax, Init(src, roles), schedule);
            t < |s.threads| && u < |s.threads| && t != u && Exclusive(s.threads[t].pc) ==>
              !Exclusive(s.threads[u].pc) && !s.threads[u].pc.Counting?
  {
    hide Run, Init;
    RunKeepsLock(lax, src, roles, schedule);
  }

  // ----- Sections complete -----

  lemma {:induction false} RunFromFront(lax: bool, s: State, t: nat, rest: seq<nat>)
    ensures Run(lax, s, [t] + rest) == Run(lax, Step(lax, s, t), rest)
    decreases |rest|
  {
    hide Step;
    if rest == [] {
      assert [t] + rest == [t] && [t][..0] == [];
    } else {
      var n := |rest| - 1;
      assert ([t] + rest)[..n + 1] == [t] + rest[..n];
      RunFromFront(lax, s, t, rest[..n]);
    }
  }

  lemma AloneFromFront(lax: bool, s: State, t: nat, m: nat)
    ensures Run(lax, s, Times(t, m + 1)) == Run(lax, Step(lax, s, t), Times(t, m))
  {
    hide Step;
    assert Times(t, m + 1) == [t] + Times(t, m);
    RunFromFront(lax, s, t, Times(t, m));
  }

  lemma {:induction false} WriterFinishes(lax: bool, s: State, t: nat) returns (m: nat)
    requires t < |s.threads| && s.threads[t].pc.Writing? && InBounds(|s.toy|, s.threads[t].pc.work)
    ensures var w := s.threads[t].pc.work;
      Run(lax, s, Times(t, m)) == Unlocked(s.(toy := Finish(lax, s.toy, w)), t, OpOf(w))
    decreases var w := s.threads[t].pc.work; if w.Finished? then 0 else 1,
              var w := s.threads[t].pc.work; if w.Finished? || w.j > 5 then 0 else 5 - w.j,
              var w := s.threads[t].pc.work; if w.Finished? || w.i > |s.toy| then 0 else |s.toy| - w.i,
              Phase(s.threads[t].pc.work)
  {
    var w := s.threads[t].pc.work;
    var s' := Step(lax, s, t);
    if w.Finished? {
      m := 1;
      AloneFromFront(lax, s, t, 0);
    } else {
      var r := SectionStep(lax, s.toy, w);
      var more := WriterFinishes(lax, s', t);
      m := more + 1;
      AloneFromFront(lax, s, t, more);
      assert s'.threads[t := s'.threads[t].(pc := Idle)] == s.threads[t := s.threads[t].(pc := Idle)];
    }
  }

  function OpFor(role: Role): Op {
    if role.Reverser? then Reverse else ChangeCase
  }

  /** A writer that is given the lock and not disturbed makes its five passes, gives the lock back, and leaves
      everything else as it was. The passes are one reversal, or one change of case if that settles. */
  lemma WriterCompletes(lax: bool, s: State, t: nat) returns (m: nat)
    requires t < |s.threads| && s.threads[t].pc.Idle? && (s.threads[t].role.Reverser? || s.threads[t].role.Changer?)
    requires s.writer.None? && s.readers == {}
    ensures var op := OpFor(s.threads[t].role);
      Run(lax, s, Times(t, m)) == Tally(s.(toy := Pass(lax, op, s.toy, 5)), op)
    ensures var op := OpFor(s.threads[t].role);
      (op.ChangeCase? ==> Settles(lax, s.toy)) <==>
      Run(lax, s, Times(t, m)) == Tally(s.(toy := Result(lax, op, s.toy)), op)
  {
    hide Pass, Result, Settles;
    var op := OpFor(s.threads[t].role);
    var s' := Step(lax, s, t);
    var more := WriterFinishes(lax, s', t);
    m := more + 1;
    AloneFromFront(lax, s, t, more);
    SectionAlone(lax, s.toy, op);
    assert s'.threads[t := s'.threads[t].(pc := Idle)] == s.threads;
  }

  lemma {:induction false} CounterFinishes(lax: bool, s: State, t: nat) returns (m: nat)
    requires t < |s.threads| && s.threads[t].pc.Counting? && s.threads[t].pc.i <= |s.toy|
    requires s.threads[t].pc.cnt == Uppers(s.toy[..s.threads[t].pc.i])
    ensures Run(lax, s, Times(t, m)) ==
      Goto(s, t, Idle).(readers := s.readers - {t}, counts := s.counts + [(Uppers(s.toy), s.flips)])
    decreases |s.toy| - s.threads[t].pc.i
  {
    var i := s.threads[t].pc.i;
    var s' := Step(lax, s, t);
    if i < |s.toy| {
      assert s.toy[..i + 1][..i] == s.toy[..i];
      var more := CounterFinishes(lax, s', t);
      m := more + 1;
      AloneFromFront(lax, s, t, more);
      assert Goto(s', t, Idle).threads == Goto(s, t, Idle).threads;
    } else {
      assert s.toy[..i] == s.toy;
      m := 2;
      AloneFromFront(lax, s, t, 1);
      AloneFromFront(lax, s', t, 0);
      assert Goto(s', t, Idle).threads == Goto(s, t, Idle).threads;
    }
  }

  /** A counter that is not disturbed prints the number of capitals and changes nothing else. */
  lemma CounterCompletes(lax: bool, s: State, t: nat) returns (m: nat)
    requires t < |s.threads| && s.threads[t] == Thread(Counter, Idle)
    requires s.writer.None? && t !in s.readers
    ensures Run(lax, s, Times(t, m)) == s.(counts := s.counts + [(Uppers(s.toy), s.flips)])
  {
    var s' := Step(lax, s, t);
    var more := CounterFinishes(lax, s', t);
    m := more + 1;
    AloneFromFront(lax, s, t, more);
    assert Goto(s', t, Idle).threads == s.threads;
    assert s'.readers - {t} == s.readers;
  }

  lemma {:induction false} PrinterFinishes(lax: bool, s: State, t: nat) returns (m: nat)
    requires t < |s.threads| && s.threads[t].pc.Printing? && s.threads[t].pc.i <= |s.toy|
    requires s.threads[t].pc.text == s.toy[..s.threads[t].pc.i]
    ensures Run(lax, s, Times(t, m)) ==
      Goto(s, t, Idle).(writer := None, lines := s.lines + [(s.toy, s.revs, s.flips)])
    decreases |s.toy| - s.threads[t].pc.i
  {
    var i := s.threads[t].pc.i;
    var s' := Step(lax, s, t);
    if i < |s.toy| {
      assert s.toy[..i + 1] == s.toy[..i] + [s.toy[i]];
      var more := PrinterFinishes(lax, s', t);
      m := more + 1;
      AloneFromFront(lax, s, t, more);
      assert Goto(s', t, Idle).threads == Goto(s, t, Idle).threads;
    } else {
      assert s.toy[..i] == s.toy;
      m := 1;
      AloneFromFront(lax, s, t, 0);
    }
  }

  /** A printer that is given the lock and not disturbed prints exactly the string, gives the lock back, and changes
      nothing else. */
  lemma PrinterCompletes(lax: bool, s: State, t: nat) returns (m: nat)
    requires t < |s.threads| && s.threads[t] == Thread(Printer, Idle) && s.writer.None? && s.readers == {}
    ensures Run(lax, s, Times(t, m)) == s.(lines := s.lines + [(s.toy, s.revs, s.flips)])
  {
    var s' := Step(lax, s, t);
    var more := PrinterFinishes(lax, s', t);
    m := more + 1;
    AloneFromFront(lax, s, t, more);
    assert Goto(s', t, Idle).threads == s.threads;
  }

  /** Counters do not wait for one another: a counter enters unless somebody writes or prints. */
  lemma ReadersShare(lax: bool, s: State, t: nat)
    requires LockInv(s) && t < |s.threads| && s.threads[t] == Thread(Counter, Idle)
    ensures Step(lax, s, t).threads[t].pc.Counting? <==>
      forall u :: 0 <= u < |s.threads| ==> !Exclusive(s.threads[u].pc)
  {
    if s.writer.Some? {
      assert Exclusive(s.threads[s.writer.value].pc);
    }
  }

  /** A writer or printer enters exactly when nobody else is inside. */
  lemma WriterEnters(lax: bool, s: State, t: nat)
    requires LockInv(s)
    requires t < |s.threads| && s.threads[t].pc.Idle? && !s.threads[t].role.Counter?
    ensures Exclusive(Step(lax, s, t).threads[t].pc) <==>
      forall u :: 0 <= u < |s.threads| ==> !Exclusive(s.threads[u].pc) && !s.threads[u].pc.Counting?
  {
    if s.writer.Some? {
      assert Exclusive(s.threads[s.writer.value].pc);
    }
    if s.readers != {} {
      var r :| r in s.readers;
      assert s.threads[r].pc.Counting?;
    }
  }

  // ----- The condition is exact -----

  ghost predicate AlwaysByParity(lax: bool, src: seq<Byte>) {
    forall roles, schedule :: ByParity(lax, src, Run(lax, Init(src, roles), schedule))
  }

  lemma {:induction false} RunTimes(lax: bool, s: State, t: nat, m: nat, n: nat)
    ensures Run(lax, s, Times(t, m + n)) == Run(lax, Run(lax, s, Times(t, m)), Times(t, n))
  {
    hide Step;
    if n == 0 {
    } else {
      assert Times(t, m + n)[..m + n - 1] == Times(t, m + n - 1);
      assert Times(t, n)[..n - 1] == Times(t, n - 1);
      RunTimes(lax, s, t, m, n - 1);
    }
  }

  /** One thread that changes case twice. */
  lemma TwoChanges(src: seq<Byte>) returns (schedule: seq<nat>)
    ensures Run(true, Init(src, [Changer]), schedule) ==
      Init(src, [Changer]).(toy := FlipTimes(true, FlipTimes(true, src, 5), 5), flips := 2)
  {
    hide Run, FlipTimes;
    var s := Init(src, [Changer]);
    var m := WriterCompletes(true, s, 0);
    var t := Run(true, s, Times(0, m));
    var n := WriterCompletes(true, t, 0);
    RunTimes(true, s, 0, m, n);
    schedule := Times(0, m + n);
  }

  /** The string follows the parities in every program and schedule if and only if the change of case is the careful
      one or the source consists of letters. */
  lemma ParityIff(lax: bool, src: seq<Byte>)
    ensures AlwaysByParity(lax, src) <==> Flippable(lax, src)
  {
    hide FlipTimes, FlipAll, AllLetters;
    if Flippable(lax, src) {
      forall roles, schedule ensures ByParity(lax, src, Run(lax, Init(src, roles), schedule)) {
        StringFollowsParity(lax, src, roles, schedule);
      }
    }
    if AlwaysByParity(lax, src) && lax {
      var schedule := TwoChanges(src);
      assert ByParity(lax, src, Run(lax, Init(src, [Changer]), schedule));
      TwoSectionsIff(src);
    }
  }
}
