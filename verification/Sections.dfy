/** A writer's critical section, one memory access at a time: `reverse` and `change_register`
    between lock and unlock, with the loop indices and the swap temporary as control state. */
module Sections {
  import opened Common
  import opened Forms

  datatype Op = Reverse | ChangeCase

  /** The next thing a writer does. */
  datatype Work =
    | RevTest(j: nat, i: nat)                // the loop tests, then `c = toy[i]`
    | RevStore(j: nat, i: nat, c: Byte)      // `toy[i] = toy[len - i - 1]`
    | RevRestore(j: nat, i: nat, c: Byte)    // `toy[len - i - 1] = c`
    | CaseTest(j: nat, i: nat)               // the loop tests, then the tests of `toy[i]`
    | CaseStore(j: nat, i: nat, seen: Byte)  // `toy[i]` is read again and stored
    | Finished(op: Op)                       // about to unlock

  function Begin(op: Op): Work {
    match op
    case Reverse => RevTest(0, 0)
    case ChangeCase => CaseTest(0, 0)
  }

  function OpOf(w: Work): Op {
    match w
    case Finished(op) => op
    case CaseTest(_, _) => ChangeCase
    case CaseStore(_, _, _) => ChangeCase
    case _ => Reverse
  }

  /** The value stored for the byte `now` after the tests were made on `seen`. */
  function Change(lax: bool, seen: Byte, now: Byte): Byte {
    if IsUpper(seen) then (now - UPPER_A + LOWER_A) % 256
    else if lax || IsLower(seen) then (now - LOWER_A + UPPER_A) % 256
    else now
  }

  predicate InBounds(n: nat, w: Work) {
    match w
    case RevStore(_, i, _) => i < n / 2
    case RevRestore(_, i, _) => i < n / 2
    case CaseStore(_, i, _) => i < n
    case _ => true
  }

  function SectionStep(lax: bool, toy: seq<Byte>, w: Work): (r: (seq<Byte>, Work))
    requires InBounds(|toy|, w)
    ensures |r.0| == |toy| && InBounds(|toy|, r.1) && OpOf(r.1) == OpOf(w)
  {
    var n := |toy|;
    match w
    case RevTest(j, i) =>
      if j >= 5 then (toy, Finished(Reverse))
      else if i < n / 2 then (toy, RevStore(j, i, toy[i]))
      else (toy, RevTest(j + 1, 0))
    case RevStore(j, i, c) => (toy[i := toy[n - i - 1]], RevRestore(j, i, c))
    case RevRestore(j, i, c) => (toy[n - i - 1 := c], RevTest(j, i + 1))
    case CaseTest(j, i) =>
      if j >= 5 then (toy, Finished(ChangeCase))
      else if i < n then (toy, CaseStore(j, i, toy[i]))
      else (toy, CaseTest(j + 1, 0))
    case CaseStore(j, i, seen) => (toy[i := Change(lax, seen, toy[i])], CaseTest(j, i + 1))
    case Finished(_) => (toy, w)
  }

  /** What a section is for. */
  function Result(lax: bool, op: Op, base: seq<Byte>): (r: seq<Byte>)
    ensures |r| == |base|
  {
    match op
    case Reverse => Rev(base)
    case ChangeCase => FlipAll(lax, base)
  }

  /** The string after `j` full passes of the outer loop. */
  function Pass(lax: bool, op: Op, base: seq<Byte>, j: nat): (r: seq<Byte>)
    ensures |r| == |base|
  {
    match op
    case Reverse => Form(lax, base, j, 0)
    case ChangeCase => FlipTimes(lax, base, j)
  }

  /** The shared string at every point of a section that was entered with `base`. */
  ghost predicate SectionInv(lax: bool, base: seq<Byte>, toy: seq<Byte>, w: Work) {
    var n := |base|;
    match w
    case RevTest(j, i) =>
      j <= 5 && i <= n / 2 && (j == 5 ==> i == 0) && toy == Swapped(Pass(lax, Reverse, base, j), i)
    case RevStore(j, i, c) =>
      j < 5 && i < n / 2 && toy == Swapped(Pass(lax, Reverse, base, j), i) && c == Pass(lax, Reverse, base, j)[i]
    case RevRestore(j, i, c) =>
      && j < 5 && i < n / 2 && c == Pass(lax, Reverse, base, j)[i]
      && toy == Swapped(Pass(lax, Reverse, base, j), i)[i := Pass(lax, Reverse, base, j)[n - 1 - i]]
    case CaseTest(j, i) =>
      j <= 5 && i <= n && (j == 5 ==> i == 0) && toy == Flipped(lax, Pass(lax, ChangeCase, base, j), i)
    case CaseStore(j, i, seen) =>
      && j < 5 && i < n && seen == Pass(lax, ChangeCase, base, j)[i]
      && toy == Flipped(lax, Pass(lax, ChangeCase, base, j), i)
    case Finished(op) => toy == Pass(lax, op, base, 5)
  }

  lemma SectionBounds(lax: bool, base: seq<Byte>, toy: seq<Byte>, w: Work)
    requires SectionInv(lax, base, toy, w)
    ensures |toy| == |base| && InBounds(|toy|, w)
  {
  }

  lemma SectionEntered(lax: bool, base: seq<Byte>, op: Op)
    ensures SectionInv(lax, base, base, Begin(op))
  {
    SwappedEnds(base);
    FlippedEnds(lax, base);
  }

  lemma FiveReversals(base: seq<Byte>)
    ensures Form(true, base, 5, 0) == Form(false, base, 5, 0) == Rev(base)
  {
  }

  /** Five passes do what the section is for if and only if the change of case settles. */
  lemma FivePassesIff(lax: bool, op: Op, base: seq<Byte>)
    ensures Pass(lax, op, base, 5) == Result(lax, op, base) <==> (op.ChangeCase? ==> Settles(lax, base))
  {
    hide FlipTimes, FlipAll, Settles;
    FiveReversals(base);
    FiveFlipsIff(lax, base);
  }

  lemma NextPass(lax: bool, op: Op, base: seq<Byte>, j: nat)
    ensures Result(lax, op, Pass(lax, op, base, j)) == Pass(lax, op, base, j + 1)
  {
    match op
    case Reverse => FormReversed(lax, base, j, 0);
    case ChangeCase =>
  }

  lemma ReverseStepKeeps(lax: bool, base: seq<Byte>, toy: seq<Byte>, w: Work)
    requires SectionInv(lax, base, toy, w) && InBounds(|toy|, w)
    requires (w.RevTest? || w.RevStore? || w.RevRestore?) && w.j < 5
    ensures var r := SectionStep(lax, toy, w); SectionInv(lax, base, r.0, r.1)
  {
    hide Swapped, Pass, Result;
    var p := Pass(lax, Reverse, base, w.j);
    SwappedEnds(p);
    SwappedEnds(Pass(lax, Reverse, base, w.j + 1));
    if w.i < |p| / 2 {
      SwappedNext(p, w.i);
    } else {
      NextPass(lax, Reverse, base, w.j);
      assert Result(lax, Reverse, p) == Rev(p) by { ResultIs(lax, p); }
    }
  }

  lemma ResultIs(lax: bool, p: seq<Byte>)
    ensures Result(lax, Reverse, p) == Rev(p) && Result(lax, ChangeCase, p) == FlipAll(lax, p)
  {
  }

  lemma CaseStepKeeps(lax: bool, base: seq<Byte>, toy: seq<Byte>, w: Work)
    requires SectionInv(lax, base, toy, w) && InBounds(|toy|, w)
    requires (w.CaseTest? || w.CaseStore?) && w.j < 5
    ensures var r := SectionStep(lax, toy, w); SectionInv(lax, base, r.0, r.1)
  {
    hide Flipped, Pass, Result;
    var p := Pass(lax, ChangeCase, base, w.j);
    FlippedEnds(lax, p);
    FlippedEnds(lax, Pass(lax, ChangeCase, base, w.j + 1));
    if w.i < |p| {
      FlippedNext(lax, p, w.i);
    } else {
      NextPass(lax, ChangeCase, base, w.j);
      ResultIs(lax, p);
    }
  }

  /** Every step of a section keeps the section's invariant. */
  lemma SectionStepKeeps(lax: bool, base: seq<Byte>, toy: seq<Byte>, w: Work)
    requires SectionInv(lax, base, toy, w) && InBounds(|toy|, w)
    ensures var r := SectionStep(lax, toy, w); SectionInv(lax, base, r.0, r.1)
  {
    match w
    case Finished(_) =>
    case RevTest(j, i) =>
      if j < 5 {
        ReverseStepKeeps(lax, base, toy, w);
      } else {
        SwappedEnds(Pass(lax, Reverse, base, 5));
      }
    case RevStore(_, _, _) => ReverseStepKeeps(lax, base, toy, w);
    case RevRestore(_, _, _) => ReverseStepKeeps(lax, base, toy, w);
    case CaseTest(j, i) =>
      if j < 5 {
        CaseStepKeeps(lax, base, toy, w);
      } else {
        FlippedEnds(lax, Pass(lax, ChangeCase, base, 5));
      }
    case CaseStore(_, _, _) => CaseStepKeeps(lax, base, toy, w);
  }

  // ----- A section that is not disturbed comes to its end -----

  function Phase(w: Work): nat {
    match w
    case RevTest(_, _) => 3
    case RevStore(_, _, _) => 2
    case RevRestore(_, _, _) => 1
    case CaseTest(_, _) => 2
    case CaseStore(_, _, _) => 1
    case Finished(_) => 0
  }

  /** Runs a section alone from `w` to its end. */
  function Finish(lax: bool, toy: seq<Byte>, w: Work): seq<Byte>
    requires InBounds(|toy|, w)
    decreases if w.Finished? then 0 else 1, if w.Finished? || w.j > 5 then 0 else 5 - w.j,
              if w.Finished? || w.i > |toy| then 0 else |toy| - w.i, Phase(w)
  {
    if w.Finished? then toy
    else var r := SectionStep(lax, toy, w); Finish(lax, r.0, r.1)
  }

  lemma {:induction false} FinishFrom(lax: bool, base: seq<Byte>, toy: seq<Byte>, w: Work)
    requires SectionInv(lax, base, toy, w) && InBounds(|toy|, w)
    ensures Finish(lax, toy, w) == Pass(lax, OpOf(w), base, 5)
    decreases if w.Finished? then 0 else 1, if w.Finished? || w.j > 5 then 0 else 5 - w.j,
              if w.Finished? || w.i > |toy| then 0 else |toy| - w.i, Phase(w)
  {
    hide SectionInv;
    if w.Finished? {
      SectionEnds(lax, base, toy, w);
    } else {
      SectionStepKeeps(lax, base, toy, w);
      var r := SectionStep(lax, toy, w);
      FinishFrom(lax, base, r.0, r.1);
    }
  }

  lemma SectionEnds(lax: bool, base: seq<Byte>, toy: seq<Byte>, w: Work)
    requires SectionInv(lax, base, toy, w) && w.Finished?
    ensures toy == Pass(lax, w.op, base, 5)
  {
  }

  /** The steps of a section add up to five passes, and these to one reversal, or to one change of case if and
      only if that settles. */
  lemma SectionAlone(lax: bool, base: seq<Byte>, op: Op)
    ensures Finish(lax, base, Begin(op)) == Pass(lax, op, base, 5)
    ensures Finish(lax, base, Begin(op)) == Result(lax, op, base) <==> (op.ChangeCase? ==> Settles(lax, base))
  {
    SectionEntered(lax, base, op);
    FinishFrom(lax, base, base, Begin(op));
    FivePassesIff(lax, op, base);
  }
}
