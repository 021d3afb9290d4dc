/** The command loop of `main` and the descriptor part of `fork_and_exec`: which descriptors the
    shell and each of its children hold when a line of commands is run. */
module Kcsh {
  import opened Common
  import opened Tokenizer
  import opened Grammar
  import opened Parser

  /** What an open descriptor refers to. Pipes are numbered in the order of their creation. */
  datatype End =
    | Std(n: nat)
    | ReadEnd(pipe: nat)
    | WriteEnd(pipe: nat)
    | InFile(name: Token)
    | OutFile(to: Redirect)

  type FdTable = map<nat, End>

  /** A child at `execvp`. */
  datatype Child = Child(argv: seq<Token>, fds: FdTable)

  /** The lowest descriptor number from `i` on that is not open, as `pipe` hands them out. */
  function LowestFree(fds: FdTable, i: nat): (fd: nat)
    ensures fd >= i && fd !in fds && forall f :: i <= f < fd ==> f in fds
    decreases |set f | f in fds.Keys && f >= i|
  {
    if i !in fds then i
    else
      assert (set f | f in fds.Keys && f >= i) == (set f | f in fds.Keys && f >= i + 1) + {i};
      LowestFree(fds, i + 1)
  }

  /** How many pipes the first `k` commands create. */
  function PipesBefore(cs: seq<Cmd>, k: nat): (n: nat)
    requires k <= |cs|
  {
    if k == 0 then 0 else PipesBefore(cs, k - 1) + if cs[k - 1].piped then 1 else 0
  }

  ghost predicate HoldsAbove(fds: FdTable, p: nat) {
    exists f :: f in fds && f >= 3 && fds[f] == ReadEnd(p)
  }

  /** The standard streams of the `k`-th command of `cs`, the pipes being numbered from `base`, and the only write end:
      that of its own pipe. */
  ghost predicate EndsOk(cs: seq<Cmd>, k: nat, base: nat, fds: FdTable)
    requires k < |cs|
  {
    var own := base + PipesBefore(cs, k);
    && 0 in fds && 1 in fds && 2 in fds && fds[2] == Std(2)
    && fds[0] == (if cs[k].inFrom.Some? then InFile(cs[k].inFrom.value)
                  else if FedByPipe(cs, k) then ReadEnd(own - 1) else Std(0))
    && fds[1] == (if cs[k].outTo.Some? then OutFile(cs[k].outTo.value)
                  else if cs[k].piped then WriteEnd(own) else Std(1))
    && forall f :: f in fds && fds[f].WriteEnd? ==> f == 1 && cs[k].piped && fds[f].pipe == own
  }

  /** Besides its input it holds the read ends of all pipes made so far, but of the latest one only if it does not read
      from a pipe. */
  ghost predicate ReadsOk(cs: seq<Cmd>, k: nat, base: nat, fds: FdTable)
    requires k < |cs|
  {
    var made := base + PipesBefore(cs, k + 1);
    forall p: nat :: HoldsAbove(fds, p) <==> p < made && !(FedByPipe(cs, k) && p + 1 == made)
  }

  /** What the `k`-th command of `cs` executes and holds. */
  ghost predicate ChildOk(cs: seq<Cmd>, k: nat, base: nat, child: Child)
    requires k < |cs|
  {
    child.argv == cs[k].argv && EndsOk(cs, k, base, child.fds) && ReadsOk(cs, k, base, child.fds)
  }

  /** What the child of command `c` holds: redirected standard streams, and otherwise the shell's
      descriptors less the ones it closes. */
  ghost predicate Inherits(fds: FdTable, pipefd: (nat, nat), c: Cmd, child: FdTable) {
    && 0 in child && 1 in child
    && (c.input in fds ==> child[0] == if c.inFrom.Some? then InFile(c.inFrom.value) else fds[c.input])
    && (c.output in fds ==> child[1] == if c.outTo.Some? then OutFile(c.outTo.value) else fds[c.output])
    && (forall f :: f >= 2 ==>
          (f in child <==> f in fds && !(c.input != 0 && f == pipefd.0) && !(c.output != 1 && f == pipefd.1)))
    && (forall f :: f >= 2 && f in child ==> child[f] == fds[f])
  }

  /** `pipe(pipefd)`: two descriptors that were not open now refer to the two ends. */
  ghost predicate PipeMade(before: FdTable, pipefd: (nat, nat), number: nat, after: FdTable) {
    && pipefd.0 >= 3 && pipefd.1 >= 3 && pipefd.0 != pipefd.1
    && pipefd.0 !in before && pipefd.1 !in before
    && after == before[pipefd.0 := ReadEnd(number)][pipefd.1 := WriteEnd(number)]
  }

  ghost predicate HoldsRead(fds: FdTable, p: nat) {
    exists f :: f in fds && fds[f] == ReadEnd(p)
  }

  /** One descriptor for the read end of every pipe ever made: `main` closes write ends only. */
  ghost predicate OneReadEach(fds: FdTable, pipes: nat) {
    && |fds| == 3 + pipes
    && (forall p: nat :: p < pipes ==> HoldsRead(fds, p))
    && (forall f, g :: f in fds && g in fds && fds[f] == fds[g] ==> f == g)
  }

  /** Between commands the shell holds its standard streams and one read end of each pipe, and no write end. */
  ghost predicate Resting(fds: FdTable, pipes: nat) {
    && (forall n: nat :: n < 3 ==> n in fds && fds[n] == Std(n))
    && (forall f :: f in fds && f >= 3 ==> fds[f].ReadEnd? && fds[f].pipe < pipes)
    && OneReadEach(fds, pipes)
  }

  lemma OneReadMore(before: FdTable, pipes: nat, r: nat)
    requires OneReadEach(before, pipes) && r !in before && ReadEnd(pipes) !in before.Values
    ensures OneReadEach(before[r := ReadEnd(pipes)], pipes + 1)
  {
    var after := before[r := ReadEnd(pipes)];
    assert after.Keys == before.Keys + {r};
    forall p: nat | p < pipes + 1 ensures HoldsRead(after, p) {
      if p == pipes {
        assert r in after && after[r] == ReadEnd(p);
      } else {
        assert HoldsRead(before, p);
        var f :| f in before && before[f] == ReadEnd(p);
        assert f in after && after[f] == ReadEnd(p);
      }
    }
  }

  datatype Outcome = VariableUnfolded | TooManyArguments | SyntaxError | Launched

  lemma PipeFacts(before: FdTable, pipefd: (nat, nat), number: nat, after: FdTable)
    requires PipeMade(before, pipefd, number, after)
    ensures pipefd.0 >= 3 && pipefd.1 >= 3 && pipefd.0 in after && pipefd.1 in after
    ensures forall f :: f in before ==> f in after && after[f] == before[f]
    ensures after[pipefd.0] == ReadEnd(number) && after[pipefd.1] == WriteEnd(number)
    ensures forall f :: f in after && f != pipefd.0 && f != pipefd.1 ==> f in before && after[f] == before[f]
    ensures after - {pipefd.1} == before[pipefd.0 := ReadEnd(number)]
  {
  }

  /** Once the write end is closed, the shell is at rest again. */
  lemma RestsAgain(before: FdTable, pipefd: (nat, nat), number: nat, after: FdTable)
    requires Resting(before, number)
    ensures forall n: nat :: n < 3 ==> n in before
    ensures PipeMade(before, pipefd, number, after) ==>
      && (forall n: nat :: n < 3 ==> n in after) && pipefd.1 in after && pipefd.0 >= 3 && pipefd.1 >= 3
      && Resting(after - {pipefd.1}, number + 1) && pipefd.0 in after - {pipefd.1}
      && (after - {pipefd.1})[pipefd.0] == ReadEnd(number)
      && (forall f :: f in before ==> f in after)
  {
    hide OneReadEach;
    if PipeMade(before, pipefd, number, after) {
      PipeFacts(before, pipefd, number, after);
      OneReadMore(before, number, pipefd.0);
    }
  }

  lemma StageFacts(cs: seq<Cmd>, k: nat)
    requires WellFormed(cs)
    ensures k < |cs| ==> StageOk(cs[k], FedByPipe(cs, k)) && (cs[k].piped ==> k + 1 < |cs|)
    ensures k + 1 < |cs| ==> StageOk(cs[k + 1], cs[k].piped)
  {
    assert k + 1 < |cs| ==> StageOk(cs[k + 1], FedByPipe(cs, k + 1));
  }

  /** From the shell's table before and after the pipe was made to the table of the child. */
  lemma InheritedChildOk(cs: seq<Cmd>, k: nat, base: nat, before: FdTable, pipes: nat, input: int,
                         fds: FdTable, pipefd: (nat, nat), child: Child)
    requires k < |cs| && StageOk(cs[k], FedByPipe(cs, k))
    requires Resting(before, pipes)
    requires if FedByPipe(cs, k) then input >= 3 && input in before && before[input].ReadEnd?
                                      && before[input].pipe + 1 == base + PipesBefore(cs, k)
             else input == 0
    requires !cs[k].piped ==> fds == before
    requires cs[k].piped ==> PipeMade(before, pipefd, base + PipesBefore(cs, k), fds)
    requires input == 0 || pipefd.0 >= 3
    requires FedByPipe(cs, k) && !cs[k].piped ==> input == pipefd.0
    requires pipes == base + PipesBefore(cs, k)
    requires Inherits(fds, pipefd, cs[k].(input := input, output := if cs[k].piped then pipefd.1 else 1), child.fds)
    requires child.argv == cs[k].argv
    ensures ChildOk(cs, k, base, child)
  {
    hide EndsOk, ReadsOk, PipeMade, Resting, Inherits;
    InheritedEnds(cs, k, base, before, pipes, input, fds, pipefd, child.fds);
    var made := base + PipesBefore(cs, k + 1);
    forall p: nat ensures HoldsAbove(child.fds, p) <==> p < made && !(FedByPipe(cs, k) && p + 1 == made) {
      ChildReads(cs[k], before, pipes, input, fds, pipefd, child.fds, p);
    }
    ReadsAre(cs, k, base, child.fds);
  }

  lemma ReadsAre(cs: seq<Cmd>, k: nat, base: nat, fds: FdTable)
    requires k < |cs|
    requires var made := base + PipesBefore(cs, k + 1);
      forall p: nat :: HoldsAbove(fds, p) <==> p < made && !(FedByPipe(cs, k) && p + 1 == made)
    ensures ReadsOk(cs, k, base, fds)
  {
  }

  lemma InheritedEnds(cs: seq<Cmd>, k: nat, base: nat, before: FdTable, pipes: nat, input: int,
                      fds: FdTable, pipefd: (nat, nat), child: FdTable)
    requires k < |cs| && StageOk(cs[k], FedByPipe(cs, k))
    requires Resting(before, pipes)
    requires if FedByPipe(cs, k) then input >= 3 && input in before && before[input].ReadEnd?
                                      && before[input].pipe + 1 == base + PipesBefore(cs, k)
             else input == 0
    requires !cs[k].piped ==> fds == before
    requires cs[k].piped ==> PipeMade(before, pipefd, base + PipesBefore(cs, k), fds)
    requires input == 0 || pipefd.0 >= 3
    requires Inherits(fds, pipefd, cs[k].(input := input, output := if cs[k].piped then pipefd.1 else 1), child)
    ensures EndsOk(cs, k, base, child)
  {
    hide PipeMade, OneReadEach;
    if cs[k].piped {
      PipeFacts(before, pipefd, base + PipesBefore(cs, k), fds);
    }
    assert input in fds && fds[input] == before[input];
  }

  /** Which read ends the child holds above its standard streams. */
  lemma ChildReads(c: Cmd, before: FdTable, pipes: nat, input: int, fds: FdTable, pipefd: (nat, nat),
                   child: FdTable, p: nat)
    requires Resting(before, pipes)
    requires input == 0 || (input >= 3 && input in before && before[input].ReadEnd? && before[input].pipe + 1 == pipes)
    requires !c.piped ==> fds == before && (input != 0 ==> input == pipefd.0)
    requires c.piped ==> PipeMade(before, pipefd, pipes, fds)
    requires Inherits(fds, pipefd, c.(input := input, output := if c.piped then pipefd.1 else 1), child)
    ensures var made := if c.piped then pipes + 1 else pipes;
      HoldsAbove(child, p) <==> p < made && !(input != 0 && p + 1 == made)
  {
    if p < pipes {
      assert HoldsRead(before, p);
      var f :| f in before && before[f] == ReadEnd(p);
      assert f >= 3 && f in fds && fds[f] == ReadEnd(p);
      if !(input != 0 && !c.piped && p + 1 == pipes) {
        assert f in child && child[f] == ReadEnd(p);
      }
    }
    if c.piped && p == pipes && input == 0 {
      assert pipefd.0 in child && child[pipefd.0] == ReadEnd(p);
    }
    if HoldsAbove(child, p) {
      var f :| f in child && f >= 3 && child[f] == ReadEnd(p);
      assert f in fds && fds[f] == ReadEnd(p);
    }
  }

  ghost predicate Upcoming(commands: array<Command?>, cs: seq<Cmd>, i: nat)
    reads commands, commands[..]
  {
    && i <= |cs| < commands.Length && commands[|cs|] == null
    && (forall k :: i <= k < |cs| ==> commands[k] != null && commands[k].argc > 0)
    && (forall j, k :: i <= j < k < |cs| ==> commands[j] != commands[k])
    && (forall k :: i < k < |cs| ==> commands[k].View() == cs[k])
    && (i < |cs| ==> commands[i].View() == cs[i].(input := commands[i].input))
  }

  lemma UpcomingHere(commands: array<Command?>, cs: seq<Cmd>, i: nat)
    requires Upcoming(commands, cs, i)
    ensures i <= |cs| < commands.Length
    ensures (commands[i] != null <==> i < |cs|) && (i + 1 < |cs| ==> commands[i + 1] != null)
  {
  }

  lemma UpcomingStart(commands: array<Command?>, cs: seq<Cmd>)
    requires Loaded(commands, cs) && WellFormed(cs)
    ensures Upcoming(commands, cs, 0) && (cs != [] ==> commands[0].input == 0 && !FedByPipe(cs, 0))
  {
    hide WellFormed;
    forall k | 0 <= k < |cs| ensures cs[k].argv != [] {
      StageFacts(cs, k);
    }
    StageFacts(cs, 0);
  }

  lemma RestsAtStart()
    ensures Resting(map[0 := Std(0), 1 := Std(1), 2 := Std(2)], 0)
  {
    var fds: FdTable := map[0 := Std(0), 1 := Std(1), 2 := Std(2)];
    assert fds.Keys == {0, 1, 2};
  }

  class Shell {
    var fds: FdTable
    var pipefd: (nat, nat)
    var pipes: nat
    var children: seq<Child>

    ghost predicate Valid()
      reads this
    {
      Resting(fds, pipes)
    }

    constructor ()
      ensures Valid() && children == [] && pipes == 0
    {
      hide Resting;
      RestsAtStart();
      fds := map[0 := Std(0), 1 := Std(1), 2 := Std(2)];
      pipefd := (0, 0);
      pipes := 0;
      children := [];
    }

    method Pipe()
      requires Valid()
      modifies `fds, `pipefd, `pipes
      ensures pipes == old(pipes) + 1 && PipeMade(old(fds), pipefd, old(pipes), fds)
    {
      var r := LowestFree(fds, 0);
      var w := LowestFree(fds[r := Std(0)], 0);
      pipefd := (r, w);
      fds := fds[r := ReadEnd(pipes)][w := WriteEnd(pipes)];
      pipes := pipes + 1;
    }

    /** The child's table at `execvp`: a copy of the shell's, with `dup2`, `close` and the opened files. */
    method ForkAndExec(c: Command)
      requires c.argc > 0
      requires 0 in fds && 1 in fds
      requires c.input == 0 || (c.input >= 3 && c.input in fds && pipefd.0 >= 3)
      requires c.output == 1 || (c.output >= 3 && c.output in fds && pipefd.1 >= 3)
      modifies `children
      ensures |children| == |old(children)| + 1 && children[..|old(children)|] == old(children)
      ensures children[|old(children)|].argv == c.argv
      ensures Inherits(fds, pipefd, c.View(), children[|old(children)|].fds)
    {
      var child := fds;
      if c.input != 0 {
        child := child[0 := child[c.input]];
      }
      if c.output != 1 {
        child := child[1 := child[c.output]];
      }
      if c.input != 0 {
        child := child - {pipefd.0};
      }
      if c.output != 1 {
        child := child - {pipefd.1};
      }
      if c.redirect {
        child := child[1 := OutFile(Redirect(c.rfilename, c.rappend))];
      }
      if c.redirectIn {
        child := child[0 := InFile(c.rifilename)];
      }
      children := children + [Child(c.argv, child)];
    }

    /** The commands from `i` on are as parsed, but that `main` has set the input of the next. */
    ghost predicate Pending(commands: array<Command?>, cs: seq<Cmd>, i: nat)
      reads this, commands, commands[..]
    {
      Upcoming(commands, cs, i) && (i < |cs| ==> Fed(commands[i].input, FedByPipe(cs, i)))
    }

    /** A stage behind a pipe reads from the last pipe made, any other from the standard input. */
    ghost predicate Fed(input: int, fromPipe: bool)
      reads this
    {
      if fromPipe then input == pipefd.0 >= 3 && input in fds && fds[input].ReadEnd? && fds[input].pipe + 1 == pipes
      else input == 0
    }

    /** Makes the pipe behind command `i`, if there is one, and puts its ends in place of the marks. */
    method Connect(commands: array<Command?>, i: nat, ghost cs: seq<Cmd>) returns (didPipe: bool)
      requires Valid() && i < |cs| && Pending(commands, cs, i)
      requires StageOk(cs[i], FedByPipe(cs, i)) && (cs[i].piped ==> i + 1 < |cs|)
      requires i + 1 < |cs| ==> StageOk(cs[i + 1], cs[i].piped)
      modifies `fds, `pipefd, `pipes, commands[i], if i + 1 < |cs| then {commands[i + 1]} else {}
      ensures didPipe == cs[i].piped && pipes == old(pipes) + if didPipe then 1 else 0
      ensures !didPipe ==> fds == old(fds) && pipefd == old(pipefd)
      ensures didPipe ==> PipeMade(old(fds), pipefd, old(pipes), fds)
      ensures commands[i].argc > 0
      ensures commands[i].View() == cs[i].(input := old(commands[i].input), output := if didPipe then pipefd.1 else 1)
      ensures Upcoming(commands, cs, i + 1)
      ensures i + 1 < |cs| ==> commands[i + 1].input == if didPipe then pipefd.0 else 0
    {
      didPipe := false;
      if commands[i].output != 1 {
        Pipe();
        didPipe := true;
        commands[i].output := pipefd.1;
        if commands[i + 1] != null {
          commands[i + 1].input := pipefd.0;
        }
      }
    }

    /** The body of the loop over `commands` in `main`. */
    method LaunchOne(commands: array<Command?>, i: nat, ghost cs: seq<Cmd>, ghost base: nat)
      requires Valid() && WellFormed(cs) && i < |cs| && Pending(commands, cs, i)
      requires pipes == base + PipesBefore(cs, i)
      modifies this, commands[i], if i + 1 < |cs| then {commands[i + 1]} else {}
      ensures Valid() && Pending(commands, cs, i + 1)
      ensures pipes == base + PipesBefore(cs, i + 1)
      ensures |children| == |old(children)| + 1 && children[..|old(children)|] == old(children)
      ensures ChildOk(cs, i, base, children[|old(children)|])
    {
      hide WellFormed, ChildOk, Inherits, PipeMade, Upcoming, Resting;
      StageFacts(cs, i);
      UpcomingHere(commands, cs, i);
      ghost var fds0, input := fds, commands[i].input;
      var didPipe := Connect(commands, i, cs);
      RestsAgain(fds0, pipefd, base + PipesBefore(cs, i), fds);
      ForkAndExec(commands[i]);
      InheritedChildOk(cs, i, base, fds0, base + PipesBefore(cs, i), input, fds, pipefd, children[|old(children)|]);
      if didPipe {
        fds := fds - {pipefd.1};
      }
    }

    /** The loop over `commands` in `main`. */
    method RunCommands(commands: array<Command?>, ghost cs: seq<Cmd>)
      requires Valid() && Loaded(commands, cs) && WellFormed(cs)
      modifies this, set k | 0 <= k < |cs| :: commands[k]
      ensures Valid() && pipes == old(pipes) + PipesBefore(cs, |cs|)
      ensures exists kids :: children == old(children) + kids && AllChildrenOk(cs, |cs|, old(pipes), kids)
    {
      var i := 0;
      ghost var base, kids: seq<Child> := pipes, [];
      hide WellFormed, ChildOk, Upcoming, Loaded, Resting;
      UpcomingStart(commands, cs);
      UpcomingHere(commands, cs, i);
      ghost var own := set k | 0 <= k < |cs| :: commands[k];
      while commands[i] != null
        invariant forall k :: 0 <= k < |cs| ==> commands[k] in own
        invariant i <= |cs| < commands.Length && (commands[i] != null <==> i < |cs|)
        invariant Valid() && Pending(commands, cs, i)
        invariant pipes == base + PipesBefore(cs, i)
        invariant children == old(children) + kids && AllChildrenOk(cs, i, base, kids)
        decreases |cs| - i
      {
        LaunchOne(commands, i, cs, base);
        kids := kids + [children[|children| - 1]];
        i := i + 1;
        UpcomingHere(commands, cs, i);
      }
    }

    /** One turn of the command loop of `main`, from the line to the children. The vector is the same for all lines, and
        keeps what earlier ones have left behind its end. */
    method RunLine(line: string, vars: set<string>, commands: array<Command?>) returns (outcome: Outcome)
      requires Valid() && (Unfolds(line, vars) || StartsWithWord(Tokens(line)))
      requires commands.Length > ARGS_SIZE
      modifies this, commands
      ensures Valid() && |fds| == 3 + pipes
      ensures outcome == (if Unfolds(line, vars) then VariableUnfolded
                          else if |Tokens(line)| > ARGS_SIZE then TooManyArguments
                          else if Compile(Tokens(line)).None? then SyntaxError else Launched)
      ensures !outcome.Launched? ==> children == old(children) && fds == old(fds) && pipes == old(pipes)
      ensures outcome.Launched? ==>
        var cs := Compile(Tokens(line)).value;
        && pipes == old(pipes) + PipesBefore(cs, |cs|)
        && (exists kids :: children == old(children) + kids && AllChildrenOk(cs, |cs|, old(pipes), kids))
        && Ends(commands, |cs|) && forall k :: |cs| < k < commands.Length ==> commands[k] == old(commands[k])
      ensures outcome.SyntaxError? ==>
        && Parse(Tokens(line), false).None?
        && Rejected(commands, old(commands[..]), ErrorAt(Tokens(line), false))
    {
      hide Compile, WellFormed, AllChildrenOk, Loaded, Holds, Tokens, Unfolds, Parse, ErrorAt, Rejected, Ends;
      var args, result := GetSplitted(line, vars);
      if !result.Split? {
        return if result.Unfolded? then VariableUnfolded else TooManyArguments;
      }
      commands[0] := null;
      ghost var was := commands[..];
      var ok := MakeCmdv(args, commands, Tokens(line));
      if !ok {
        RejectedFromStart(commands, was, old(commands[..]), ErrorAt(Tokens(line), false));
        return SyntaxError;
      }
      LoadedEnds(commands, Compile(Tokens(line)).value);
      CompiledIsWellFormed(Tokens(line));
      RunCommands(commands, Compile(Tokens(line)).value);
      outcome := Launched;
    }
  }

  ghost predicate AllChildrenOk(cs: seq<Cmd>, n: nat, base: nat, kids: seq<Child>)
    requires n <= |cs|
  {
    |kids| == n && forall k :: 0 <= k < n ==> ChildOk(cs, k, base, kids[k])
  }

  // ----- Each pipe has one writer -----

  lemma {:induction false} PipesGrow(cs: seq<Cmd>, j: nat, k: nat)
    requires j < k <= |cs|
    ensures PipesBefore(cs, j) + (if cs[j].piped then 1 else 0) <= PipesBefore(cs, k)
  {
    if j + 1 == k {
    } else {
      PipesGrow(cs, j, k - 1);
    }
  }

  lemma {:induction false} PipeHasStage(cs: seq<Cmd>, n: nat, p: nat) returns (k: nat)
    requires n <= |cs| && p < PipesBefore(cs, n)
    ensures k < n && cs[k].piped && PipesBefore(cs, k) == p
  {
    if cs[n - 1].piped && PipesBefore(cs, n - 1) == p {
      k := n - 1;
    } else {
      k := PipeHasStage(cs, n - 1, p);
    }
  }

  /** A child of the line holds the write end of pipe `p` if and only if it is the stage before `p`, and then
      as its standard output; the stage behind `p` reads from it, unless a file was put there. So the pipe
      ends when that one writer does. */
  lemma OneWriterPerPipe(cs: seq<Cmd>, base: nat, kids: seq<Child>, p: nat) returns (w: nat)
    requires WellFormed(cs) && AllChildrenOk(cs, |cs|, base, kids)
    requires p < PipesBefore(cs, |cs|)
    ensures w + 1 < |kids|
    ensures forall k :: 0 <= k < |kids| ==> (HoldsWrite(kids[k].fds, base + p) <==> k == w)
    ensures 1 in kids[w].fds && kids[w].fds[1] == WriteEnd(base + p)
    ensures 0 in kids[w + 1].fds && kids[w + 1].fds[0] ==
      if cs[w + 1].inFrom.Some? then InFile(cs[w + 1].inFrom.value) else ReadEnd(base + p)
  {
    hide ChildOk, HoldsWrite, WellFormed;
    w := PipeHasStage(cs, |cs|, p);
    StageFacts(cs, w);
    ChildEnds(cs, w, base, kids[w]);
    ChildEnds(cs, w + 1, base, kids[w + 1]);
    forall k | 0 <= k < |kids| ensures HoldsWrite(kids[k].fds, base + p) <==> k == w {
      StageFacts(cs, k);
      ChildWrites(cs, k, base, kids[k], p);
      if k < w {
        PipesGrow(cs, k, w);
      } else if w < k {
        PipesGrow(cs, w, k);
      }
    }
  }

  ghost predicate HoldsWrite(fds: FdTable, p: nat) {
    exists f :: f in fds && fds[f] == WriteEnd(p)
  }

  /** The standard streams of a correct child, as far as pipes are concerned. */
  lemma ChildEnds(cs: seq<Cmd>, k: nat, base: nat, child: Child)
    requires k < |cs| && ChildOk(cs, k, base, child)
    ensures 0 in child.fds && 1 in child.fds
    ensures cs[k].piped && cs[k].outTo.None? ==> child.fds[1] == WriteEnd(base + PipesBefore(cs, k))
    ensures FedByPipe(cs, k) && cs[k].inFrom.None? ==> child.fds[0] == ReadEnd(base + PipesBefore(cs, k) - 1)
    ensures cs[k].inFrom.Some? ==> child.fds[0] == InFile(cs[k].inFrom.value)
  {
  }

  lemma ChildWrites(cs: seq<Cmd>, k: nat, base: nat, child: Child, p: nat)
    requires k < |cs| && ChildOk(cs, k, base, child) && (cs[k].piped ==> cs[k].outTo.None?)
    ensures HoldsWrite(child.fds, base + p) <==> cs[k].piped && PipesBefore(cs, k) == p
  {
  }
}
