/** `lab5/multithread.c` with a semaphore: `main` starts a reversing and a case-changing thread,
    joins both and prints, over and over. The POSIX and the System V semaphore differ only in the
    calls, so one semaphore stands for both. */
module Rounds {
  import opened Common
  import opened Forms
  import opened Sections

  datatype MainPc = Create1 | Create2 | Join1 | Join2 | Print

  datatype Thread = Waiting(op: Op) | Inside(work: Work) | Exited(op: Op)

  datatype State = State(toy: seq<Byte>, sem: nat, main: MainPc, th1: Option<Thread>, th2: Option<Thread>,
                         lines: seq<seq<Byte>>)

  datatype Who = Main | First | Second

  function Init(src: seq<Byte>): State {
    State(src, 1, Create1, None, None, [])
  }

  function MainStep(s: State): State {
    match s.main
    case Create1 => s.(th1 := Some(Waiting(Reverse)), main := Create2)
    case Create2 => s.(th2 := Some(Waiting(ChangeCase)), main := Join1)
    case Join1 => if s.th1.Some? && s.th1.value.Exited? then s.(main := Join2) else s
    case Join2 => if s.th2.Some? && s.th2.value.Exited? then s.(main := Print) else s
    case Print => s.(lines := s.lines + [s.toy], th1 := None, th2 := None, main := Create1)
  }

  /** A thread's step, on the string and the semaphore. */
  function ThreadStep(toy: seq<Byte>, sem: nat, th: Thread): (seq<Byte>, nat, Thread) {
    match th
    case Waiting(op) => if sem > 0 then (toy, sem - 1, Inside(Begin(op))) else (toy, sem, th)
    case Inside(w) =>
      if w.Finished? then (toy, sem + 1, Exited(w.op))
      else if InBounds(|toy|, w) then var r := SectionStep(true, toy, w); (r.0, sem, Inside(r.1))
      else (toy, sem, th)
    case Exited(_) => (toy, sem, th)
  }

  function Step(s: State, who: Who): State {
    match who
    case Main => MainStep(s)
    case First =>
      if s.th1.None? then s
      else var r := ThreadStep(s.toy, s.sem, s.th1.value); s.(toy := r.0, sem := r.1, th1 := Some(r.2))
    case Second =>
      if s.th2.None? then s
      else var r := ThreadStep(s.toy, s.sem, s.th2.value); s.(toy := r.0, sem := r.1, th2 := Some(r.2))
  }

  function Run(s: State, schedule: seq<Who>): State {
    if schedule == [] then s
    else Step(Run(s, schedule[..|schedule| - 1]), schedule[|schedule| - 1])
  }

  // ----- The invariant -----

  predicate Done(th: Option<Thread>) { th.Some? && th.value.Exited? }

  predicate InSection(th: Option<Thread>) { th.Some? && th.value.Inside? }

  function ThreadOp(th: Thread): Op {
    match th
    case Waiting(op) => op
    case Inside(w) => OpOf(w)
    case Exited(op) => op
  }

  /** The string as the finished sections have left it. */
  function Base(src: seq<Byte>, s: State): seq<Byte> {
    Form(true, src, |s.lines| + (if Done(s.th1) then 1 else 0), |s.lines| + (if Done(s.th2) then 1 else 0))
  }

  /** How far `main` is decides which threads exist and have exited. */
  predicate MainInv(s: State) {
    && (s.th1.Some? ==> ThreadOp(s.th1.value) == Reverse)
    && (s.th2.Some? ==> ThreadOp(s.th2.value) == ChangeCase)
    && match s.main
       case Create1 => s.th1.None? && s.th2.None?
       case Create2 => s.th1.Some? && s.th2.None?
       case Join1 => s.th1.Some? && s.th2.Some?
       case Join2 => Done(s.th1) && s.th2.Some?
       case Print => Done(s.th1) && Done(s.th2)
  }

  /** The semaphore counts the free places in the section: one or none. */
  predicate SemInv(s: State) {
    s.sem + (if InSection(s.th1) then 1 else 0) + (if InSection(s.th2) then 1 else 0) == 1
  }

  ghost predicate ToyInv(src: seq<Byte>, s: State) {
    && (InSection(s.th1) ==> SectionInv(true, Base(src, s), s.toy, s.th1.value.work))
    && (InSection(s.th2) ==> SectionInv(true, Base(src, s), s.toy, s.th2.value.work))
    && (!InSection(s.th1) && !InSection(s.th2) ==> s.toy == Base(src, s))
  }

  ghost predicate LinesInv(src: seq<Byte>, s: State) {
    forall k :: 0 <= k < |s.lines| ==> s.lines[k] == Form(true, src, k + 1, k + 1)
  }

  ghost predicate Inv(src: seq<Byte>, s: State) {
    MainInv(s) && SemInv(s) && ToyInv(src, s) && LinesInv(src, s)
  }

  lemma InitInv(src: seq<Byte>)
    ensures Inv(src, Init(src))
  {
  }

  /** A thread's step keeps what is known of the string; `base` changes when the section ends. */
  lemma ThreadStepKeeps(base: seq<Byte>, toy: seq<Byte>, sem: nat, th: Thread)
    requires Flippable(true, base)
    requires if th.Inside? then SectionInv(true, base, toy, th.work) else th.Waiting? && sem > 0 ==> toy == base
    ensures var r := ThreadStep(toy, sem, th);
      && ThreadOp(r.2) == ThreadOp(th)
      && (r.2.Inside? && (th.Inside? || sem > 0) ==> SectionInv(true, base, r.0, r.2.work))
      && (th.Inside? ==> !r.2.Waiting? && (r.2.Exited? ==> r.0 == Result(true, ThreadOp(th), base)))
      && (!th.Inside? ==> r.0 == toy)
  {
    hide SectionInv, SectionStep, Result;
    match th
    case Waiting(op) => SectionEntered(true, base, op);
    case Inside(w) =>
      if w.Finished? {
        SectionEnds(true, base, toy, w);
        FlippableSettles(true, base);
        FivePassesIff(true, w.op, base);
      } else {
        SectionBounds(true, base, toy, w);
        SectionStepKeeps(true, base, toy, w);
      }
    case Exited(_) =>
  }

  lemma StepKeeps(src: seq<Byte>, s: State, who: Who)
    requires AllLetters(src) && Inv(src, s)
    ensures Inv(src, Step(s, who))
  {
    hide SectionInv, SectionStep, Form, Flippable, InBounds;
    var base := Base(src, s);
    var revs := |s.lines| + if Done(s.th1) then 1 else 0;
    var flips := |s.lines| + if Done(s.th2) then 1 else 0;
    SourceFlippable(src);
    FormFlippable(true, src, revs, flips);
    match who
    case Main =>
    case First =>
      if s.th1.Some? {
        ThreadStepKeeps(base, s.toy, s.sem, s.th1.value);
        FormReversed(true, src, revs, flips);
      }
    case Second =>
      if s.th2.Some? {
        ThreadStepKeeps(base, s.toy, s.sem, s.th2.value);
        FormFlipped(true, src, revs, flips);
      }
  }

  lemma SourceFlippable(src: seq<Byte>)
    requires AllLetters(src)
    ensures Flippable(true, src)
  {
  }

  lemma {:induction false} RunKeeps(src: seq<Byte>, schedule: seq<Who>)
    requires AllLetters(src)
    ensures Inv(src, Run(Init(src), schedule))
  {
    hide Inv, Step, Init, AllLetters;
    if schedule == [] {
      InitInv(src);
    } else {
      RunKeeps(src, schedule[..|schedule| - 1]);
      StepKeeps(src, Run(Init(src), schedule[..|schedule| - 1]), schedule[|schedule| - 1]);
    }
  }

  /** The lines are, in turn, the source reversed with its case changed, and the source. */
  predicate Alternate(src: seq<Byte>, lines: seq<seq<Byte>>) {
    forall k :: 0 <= k < |lines| ==> lines[k] == if Odd(k + 1) then Rev(FlipAll(true, src)) else src
  }

  /** Whichever thread wins the semaphore in each round, the lines printed are, in turn, the source
      reversed with its case changed, and the source itself. */
  lemma LinesDetermined(src: seq<Byte>, schedule: seq<Who>)
    requires AllLetters(src)
    ensures Alternate(src, Run(Init(src), schedule).lines)
  {
    RunKeeps(src, schedule);
    var lines := Run(Init(src), schedule).lines;
    assert forall k :: 0 <= k < |lines| ==> lines[k] == Form(true, src, k + 1, k + 1);
  }

  /** Two runs print the same lines as far as both have come. */
  lemma SchedulesAgree(src: seq<Byte>, one: seq<Who>, two: seq<Who>)
    requires AllLetters(src)
    ensures var l1, l2 := Run(Init(src), one).lines, Run(Init(src), two).lines;
            l1 <= l2 || l2 <= l1
  {
    hide Run, Form;
    RunKeeps(src, one);
    RunKeeps(src, two);
    var l1, l2 := Run(Init(src), one).lines, Run(Init(src), two).lines;
    forall k | 0 <= k < |l1| && k < |l2| ensures l1[k] == l2[k] {
      assert l1[k] == Form(true, src, k + 1, k + 1) && l2[k] == Form(true, src, k + 1, k + 1);
    }
  }

  // ----- Rounds complete -----

  lemma {:induction false} RunConcat(s: State, one: seq<Who>, two: seq<Who>)
    ensures Run(s, one + two) == Run(Run(s, one), two)
    decreases |two|
  {
    hide Step;
    if two == [] {
      assert one + two == one;
    } else {
      var n := |two| - 1;
      assert (one + two)[..|one| + n] == one + two[..n];
      RunConcat(s, one, two[..n]);
    }
  }

  lemma RunOne(s: State, who: Who, m: nat)
    ensures Run(s, Times(who, 1)) == Step(s, who)
    ensures Run(s, Times(who, m + 1)) == Run(Step(s, who), Times(who, m))
  {
    hide Step;
    assert Times(who, 1)[..0] == [];
    assert Times(who, m + 1) == Times(who, 1) + Times(who, m);
    RunConcat(s, Times(who, 1), Times(who, m));
  }

  function Of(s: State, who: Who): Option<Thread> {
    if who.First? then s.th1 else s.th2
  }

  function With(s: State, who: Who, th: Thread): State {
    if who.First? then s.(th1 := Some(th)) else s.(th2 := Some(th))
  }

  lemma {:induction false} ThreadFinishes(s: State, who: Who, w: Work) returns (m: nat)
    requires !who.Main? && Of(s, who) == Some(Inside(w)) && InBounds(|s.toy|, w)
    ensures Run(s, Times(who, m)) == With(s, who, Exited(OpOf(w))).(toy := Finish(true, s.toy, w), sem := s.sem + 1)
    decreases if w.Finished? then 0 else 1, if w.Finished? || w.j > 5 then 0 else 5 - w.j,
              if w.Finished? || w.i > |s.toy| then 0 else |s.toy| - w.i, Phase(w)
  {
    if w.Finished? {
      m := 1;
    } else {
      var more := ThreadFinishes(Step(s, who), who, SectionStep(true, s.toy, w).1);
      m := more + 1;
    }
    RunOne(s, who, m - 1);
  }

  lemma ThreadCompletes(s: State, who: Who, op: Op) returns (m: nat)
    requires !who.Main? && Of(s, who) == Some(Waiting(op)) && s.sem > 0
    ensures Run(s, Times(who, m)) == With(s, who, Exited(op)).(toy := Pass(true, op, s.toy, 5))
  {
    var more := ThreadFinishes(Step(s, who), who, Begin(op));
    m := more + 1;
    RunOne(s, who, more);
    SectionAlone(true, s.toy, op);
  }

  /** `main` is about to start the threads of a round. */
  predicate RoundStarts(s: State) {
    s.main.Create1? && s.th1.None? && s.th2.None? && s.sem == 1
  }

  function OpFor(who: Who): Op {
    if who.First? then Reverse else ChangeCase
  }

  function Other(who: Who): Who {
    if who.First? then Second else First
  }

  /** What both sections of a round leave, in either order. */
  function AfterRound(toy: seq<Byte>): (r: seq<Byte>)
    ensures |r| == |toy|
  {
    Rev(FlipTimes(true, toy, 5))
  }

  lemma PassesCommute(toy: seq<Byte>, winner: Who)
    requires !winner.Main?
    ensures Pass(true, OpFor(Other(winner)), Pass(true, OpFor(winner), toy, 5), 5) == AfterRound(toy)
  {
    hide FlipTimes;
    RevFlipTimes(true, toy, 5);
  }

  lemma MainStarts(s: State)
    requires RoundStarts(s)
    ensures Run(s, Times(Main, 2)) ==
      s.(th1 := Some(Waiting(Reverse)), th2 := Some(Waiting(ChangeCase)), main := Join1)
  {
    RunOne(s, Main, 1);
    RunOne(Step(s, Main), Main, 0);
  }

  lemma MainPrints(s: State)
    requires s.main.Join1? && Done(s.th1) && Done(s.th2)
    ensures Run(s, Times(Main, 3)) == s.(lines := s.lines + [s.toy], th1 := None, th2 := None, main := Create1)
  {
    RunOne(s, Main, 2);
    RunOne(Step(s, Main), Main, 1);
    RunOne(Step(Step(s, Main), Main), Main, 0);
  }

  /** Whichever thread is to win the semaphore, there is a schedule in which it does: after the first `p` steps it has
      left its section and the other has not entered. The round comes to its end, and `main` prints. */
  lemma RoundCompletes(s: State, winner: Who) returns (schedule: seq<Who>, p: nat)
    requires RoundStarts(s) && !winner.Main?
    ensures p <= |schedule|
    ensures var h := Run(s, schedule[..p]);
      Of(h, winner) == Some(Exited(OpFor(winner))) && Of(h, Other(winner)) == Some(Waiting(OpFor(Other(winner))))
    ensures Run(s, schedule) == s.(toy := AfterRound(s.toy), lines := s.lines + [AfterRound(s.toy)])
  {
    hide Run, Pass, AfterRound;
    var two, three := Times(Main, 2), Times(Main, 3);
    MainStarts(s);
    var started := Run(s, two);
    var m1 := ThreadCompletes(started, winner, OpFor(winner));
    var one := Times(winner, m1);
    var half := Run(started, one);
    var m2 := ThreadCompletes(half, Other(winner), OpFor(Other(winner)));
    var other := Times(Other(winner), m2);
    var done := Run(half, other);
    PassesCommute(s.toy, winner);
    MainPrints(done);
    p := |two| + |one|;
    schedule := two + one + other + three;
    assert schedule[..p] == two + one;
    RunConcat(s, two, one);
    RunConcat(s, two + one, other);
    RunConcat(s, two + one + other, three);
  }

  // ----- No run gets stuck, whatever the string -----

  /** What holds of every string: the progress of `main`, the semaphore, and indices inside the string. */
  predicate ProgressInv(s: State) {
    && MainInv(s) && SemInv(s)
    && (InSection(s.th1) ==> InBounds(|s.toy|, s.th1.value.work))
    && (InSection(s.th2) ==> InBounds(|s.toy|, s.th2.value.work))
  }

  lemma StepKeepsProgress(s: State, who: Who)
    requires ProgressInv(s)
    ensures ProgressInv(Step(s, who))
  {
    hide SectionStep, InBounds;
    SectionsBeginInBounds(|s.toy|);
  }

  lemma SectionsBeginInBounds(n: nat)
    ensures InBounds(n, Begin(Reverse)) && InBounds(n, Begin(ChangeCase))
  {
  }

  lemma {:induction false} RunKeepsProgress(s: State, schedule: seq<Who>)
    requires ProgressInv(s)
    ensures ProgressInv(Run(s, schedule))
  {
    hide ProgressInv, Step;
    if schedule == [] {
    } else {
      RunKeepsProgress(s, schedule[..|schedule| - 1]);
      StepKeepsProgress(Run(s, schedule[..|schedule| - 1]), schedule[|schedule| - 1]);
    }
  }

  lemma Reachable(src: seq<Byte>, schedule: seq<Who>)
    ensures var s := Run(Init(src), schedule); ProgressInv(s) && (s.main.Create1? ==> RoundStarts(s))
  {
    hide Run;
    RunKeepsProgress(Init(src), schedule);
  }

  /** Whenever `main` is about to start a round, either thread can win it. */
  lemma RoundAlwaysCompletes(src: seq<Byte>, schedule: seq<Who>, winner: Who) returns (more: seq<Who>, p: nat)
    requires Run(Init(src), schedule).main.Create1? && !winner.Main?
    ensures p <= |more|
    ensures var h := Run(Init(src), schedule + more[..p]);
      Of(h, winner) == Some(Exited(OpFor(winner))) && Of(h, Other(winner)) == Some(Waiting(OpFor(Other(winner))))
    ensures var s := Run(Init(src), schedule);
      Run(Init(src), schedule + more) == s.(toy := AfterRound(s.toy), lines := s.lines + [AfterRound(s.toy)])
  {
    hide Run, AfterRound;
    Reachable(src, schedule);
    more, p := RoundCompletes(Run(Init(src), schedule), winner);
    RunConcat(Init(src), schedule, more[..p]);
    RunConcat(Init(src), schedule, more);
  }

  /** A thread can go on to its end when the other is not in its section. */
  lemma ThreadExits(s: State, who: Who) returns (schedule: seq<Who>)
    requires ProgressInv(s) && !who.Main? && Of(s, who).Some? && !InSection(Of(s, Other(who)))
    ensures var r := Run(s, schedule);
      && ProgressInv(r) && r.main == s.main && r.lines == s.lines
      && Done(Of(r, who)) && Of(r, Other(who)) == Of(s, Other(who))
  {
    hide Pass, Finish;
    var m: nat := 0;
    match Of(s, who).value {
      case Waiting(op) => m := ThreadCompletes(s, who, op);
      case Inside(w) => m := ThreadFinishes(s, who, w);
      case Exited(_) => assert Times(who, 0) == [];
    }
    schedule := Times(who, m);
    RunKeepsProgress(s, schedule);
  }

  lemma MainCreates(s: State) returns (schedule: seq<Who>)
    requires ProgressInv(s)
    ensures var r := Run(s, schedule);
      ProgressInv(r) && !r.main.Create1? && !r.main.Create2? && r.lines == s.lines
  {
    hide Run;
    if s.main.Create1? {
      MainStarts(s);
      schedule := Times(Main, 2);
    } else {
      RunOne(s, Main, 0);
      RunNone(s);
      schedule := if s.main.Create2? then Times(Main, 1) else [];
    }
    RunKeepsProgress(s, schedule);
  }

  lemma RunNone(s: State)
    ensures Run(s, []) == s
  {
  }

  lemma MainFinishes(s: State) returns (m: nat)
    requires ProgressInv(s) && Done(s.th1) && Done(s.th2) && !s.main.Create1? && !s.main.Create2?
    ensures |Run(s, Times(Main, m)).lines| == |s.lines| + 1
  {
    hide Run;
    m := if s.main.Join1? then 3 else if s.main.Join2? then 2 else 1;
    if s.main.Join1? {
      MainPrints(s);
    } else if s.main.Join2? {
      RunOne(s, Main, 1);
      RunOne(Step(s, Main), Main, 0);
    } else {
      RunOne(s, Main, 0);
    }
  }

  /** From every state of every run, some continuation prints one more line. */
  lemma NeverStuck(src: seq<Byte>, schedule: seq<Who>) returns (more: seq<Who>)
    ensures |Run(Init(src), schedule + more).lines| == |Run(Init(src), schedule).lines| + 1
  {
    hide Run;
    var s := Run(Init(src), schedule);
    Reachable(src, schedule);
    var one := MainCreates(s);
    var t := Run(s, one);
    var first := if InSection(t.th2) then Second else First;
    var two := ThreadExits(t, first);
    var u := Run(t, two);
    var three := ThreadExits(u, Other(first));
    var v := Run(u, three);
    var m := MainFinishes(v);
    more := one + two + three + Times(Main, m);
    RunConcat(s, one, two);
    RunConcat(s, one + two, three);
    RunConcat(s, one + two + three, Times(Main, m));
    RunConcat(Init(src), schedule, more);
  }

  // ----- The condition is exact -----

  lemma TwoRounds(src: seq<Byte>) returns (schedule: seq<Who>)
    ensures Run(Init(src), schedule).lines == [AfterRound(src), AfterRound(AfterRound(src))]
  {
    hide AfterRound, Run;
    var s := Init(src);
    var one, p := RoundCompletes(s, First);
    var t := Run(s, one);
    var two, q := RoundCompletes(t, Second);
    schedule := one + two;
    RunConcat(s, one, two);
  }

  lemma RestoredNeedsLetters(src: seq<Byte>)
    requires AfterRound(AfterRound(src)) == src
    ensures AllLetters(src)
  {
    hide FlipTimes, AllLetters;
    var five := FlipTimes(true, src, 5);
    RevFlipTimes(true, five, 5);
    RevTwice(FlipTimes(true, five, 5));
    TwoSectionsIff(src);
  }

  ghost predicate AlwaysAlternate(src: seq<Byte>) {
    forall schedule :: Alternate(src, Run(Init(src), schedule).lines)
  }

  lemma AlternatingNeedsLetters(src: seq<Byte>)
    requires AlwaysAlternate(src)
    ensures AllLetters(src)
  {
    hide AfterRound;
    var schedule := TwoRounds(src);
    var lines := Run(Init(src), schedule).lines;
    assert Alternate(src, lines) && |lines| == 2;
    assert lines[1] == src;
    RestoredNeedsLetters(src);
  }

  /** The lines alternate in every schedule if and only if the source consists of letters. */
  lemma LinesAlternateIff(src: seq<Byte>)
    ensures AlwaysAlternate(src) <==> AllLetters(src)
  {
    if AllLetters(src) {
      forall schedule ensures Alternate(src, Run(Init(src), schedule).lines) {
        LinesDetermined(src, schedule);
      }
    }
    if AlwaysAlternate(src) {
      AlternatingNeedsLetters(src);
    }
  }
}
