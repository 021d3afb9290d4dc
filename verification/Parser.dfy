/** `make_cmd` and `make_cmdv`: one loop over the token vector that jumps its own index forward,
    empties the cells it has consumed and patches commands it has already stored. */
module Parser {
  import opened Common
  import opened Tokenizer
  import opened Grammar

  /** `struct cmd`, the part the parser and the launcher use. */
  class Command {
    var argv: seq<Token>
    var argc: nat
    var input: int
    var output: int
    var piped: bool
    var bg: bool
    var redirect: bool
    var rappend: bool
    var rfilename: Token
    var redirectIn: bool
    var rifilename: Token

    ghost function View(): Cmd
      reads this
    {
      Cmd(argv, input, output, piped, bg,
          if redirect then Some(Redirect(rfilename, rappend)) else None,
          if redirectIn then Some(rifilename) else None)
    }

    constructor ()
      ensures View() == Cmd([], 0, 1, false, false, None, None) && argc == 0 && !rappend
    {
      argv, argc := [], 0;
      input, output := 0, 1;
      piped, bg := false, false;
      redirect, rappend, rfilename := false, false, "";
      redirectIn, rifilename := false, "";
    }
  }

  /** The vector begins with separate commands that have the given values. */
  ghost predicate Stored(commands: array<Command?>, cs: seq<Cmd>)
    reads commands, commands[..]
  {
    && |cs| < commands.Length
    && (forall k :: 0 <= k < |cs| ==>
          commands[k] != null && commands[k].View() == cs[k] && commands[k].argc == |cs[k].argv|)
    && (forall j, k :: 0 <= j < k < |cs| ==> commands[j] != commands[k])
  }

  /** The same, and then NULL. */
  ghost predicate Loaded(commands: array<Command?>, cs: seq<Cmd>)
    reads commands, commands[..]
  {
    Stored(commands, cs) && commands[|cs|] == null
  }

  /** A walk up to the first NULL sees `n` commands. */
  ghost predicate Ends(commands: array<Command?>, n: nat)
    reads commands
  {
    n < commands.Length && commands[n] == null && forall k :: 0 <= k < n ==> commands[k] != null
  }

  /** What a rejection leaves: the commands before the error, and then NULL if a pipe is at fault. Otherwise the command
      that was begun stays behind them, and nothing is stored behind that. */
  ghost predicate Rejected(commands: array<Command?>, was: seq<Command?>, e: Report)
    reads commands, commands[..]
  {
    var n := |e.before|;
    && |was| == commands.Length > n + 1
    && Stored(commands, Mark(e.before))
    && (if e.pipe then commands[n] == null
        else commands[n] != null && commands[n].argv == e.words && commands[n].argc == |e.words|)
    && forall k :: n < k < commands.Length ==> commands[k] == was[k]
  }

  /** So the vector ends behind the commands of this line if a pipe is at fault, or if it happened to end there
      before, and only then. */
  lemma RejectedEnds(commands: array<Command?>, was: seq<Command?>, e: Report)
    requires Rejected(commands, was, e)
    ensures Ends(commands, |e.before|) <==> e.pipe
    ensures Ends(commands, |e.before| + 1) <==> !e.pipe && was[|e.before| + 1] == null
  {
  }

  /** The first cell never stays as it was. */
  lemma RejectedFromStart(commands: array<Command?>, was: seq<Command?>, before: seq<Command?>, e: Report)
    requires Rejected(commands, was, e) && |before| == |was| && forall k :: 0 < k < |was| ==> was[k] == before[k]
    ensures Rejected(commands, before, e)
  {
  }

  lemma LoadedEnds(commands: array<Command?>, cs: seq<Cmd>)
    requires Loaded(commands, cs)
    ensures Ends(commands, |cs|)
  {
  }

  method MakeCmd(args: array<Option<Token>>, first: nat, last: nat, ghost words: seq<Token>) returns (c: Command)
    requires first <= last < args.Length && |words| == last - first + 1
    requires forall k :: 0 <= k < |words| ==> args[first + k] == Some(words[k])
    modifies args
    ensures fresh(c) && c.argc == |words| && !c.rappend
    ensures c.View() == Cmd(words, 0, 1, false, false, None, None)
    ensures forall k :: 0 <= k < args.Length ==> args[k] == if first <= k <= last then None else old(args[k])
  {
    c := new Command();
    var i := first;
    while i <= last
      invariant first <= i <= last + 1
      invariant c.argc == i - first && !c.rappend
      invariant c.View() == Cmd(words[..i - first], 0, 1, false, false, None, None)
      invariant forall k :: 0 <= k < args.Length ==> args[k] == if first <= k < i then None else old(args[k])
    {
      assert args[first + (i - first)] == Some(words[i - first]);
      c.argv := c.argv + [args[i].value];
      c.argc := c.argc + 1;
      args[i] := None;
      i := i + 1;
    }
    assert words[..last + 1 - first] == words;
  }

  /** `>` or `>>` with its target. */
  method RedirectOut(args: array<Option<Token>>, i: nat, c: Command, ghost ts: seq<Token>) returns (ok: bool, j: nat)
    requires Holds(args, i, ts)
    requires !c.redirect && !c.rappend && (c.piped ==> ts != [] && ts[0] == "|")
    modifies c
    ensures c.argc == old(c.argc) && c.argv == old(c.argv)
    ensures ok <==> OutClause(ts).Good?
    ensures ok ==> Holds(args, j, OutClause(ts).rest)
    ensures ok ==> c.View() == old(c.View()).(outTo := OutClause(ts).item)
  {
    j := i;
    ok := true;
    if args[j] == Some(">") {
      assert args[j] == Some(ts[0]);
      if c.piped || args[j + 1] == None {
        return false, j;
      }
      assert args[i + 1] == Some(ts[1]);
      if args[j + 1] == Some(">") {
        j := j + 1;
        if args[j + 1] == None {
          return false, j;
        }
        assert args[i + 2] == Some(ts[2]);
        c.rappend := true;
      }
      c.redirect := true;
      c.rfilename := args[j + 1].value;
      j := j + 2;
    }
  }

  /** `<` with its target. */
  method RedirectIn(args: array<Option<Token>>, i: nat, c: Command, ghost ts: seq<Token>) returns (ok: bool, j: nat)
    requires Holds(args, i, ts)
    requires !c.redirectIn && (c.piped ==> ts != [] && ts[0] == "|")
    modifies c
    ensures c.argc == old(c.argc) && c.argv == old(c.argv)
    ensures ok <==> InClause(ts).Good?
    ensures ok ==> Holds(args, j, InClause(ts).rest)
    ensures ok ==> c.View() == old(c.View()).(inFrom := InClause(ts).item)
  {
    j := i;
    ok := true;
    if args[j] == Some("<") {
      assert args[j] == Some(ts[0]);
      if c.piped || args[j + 1] == None {
        return false, j;
      }
      assert args[i + 1] == Some(ts[1]);
      c.redirectIn := true;
      c.rifilename := args[j + 1].value;
      j := j + 2;
    }
  }

  /** `&`: marks the command and then walks from the one before it, with `++j` as in the source.
      The walk goes up, so it ends at the command itself, whose `out` is 1. */
  method MarkBackground(commands: array<Command?>, length: nat)
    requires length < commands.Length && commands[length] != null && commands[length].output == 1
    requires length > 0 ==> commands[length - 1] != null && commands[length - 1] != commands[length]
    modifies commands[length], if length > 0 then {commands[length - 1]} else {}
    ensures commands[length].View() == old(commands[length].View()).(bg := true)
    ensures commands[length].argc == old(commands[length].argc)
    ensures length > 0 ==>
      && commands[length - 1].argc == old(commands[length - 1].argc)
      && commands[length - 1].View() == old(var p := commands[length - 1].View(); p.(bg := p.bg || p.output > 1))
  {
    commands[length].bg := true;
    var j: int := length - 1;
    while j >= 0 && commands[j].output > 1
      invariant j == length - 1 || (j == length && length > 0 && commands[length - 1].output > 1)
      invariant commands[length].View() == old(commands[length].View()).(bg := true)
      invariant commands[length].argc == old(commands[length].argc)
      invariant length > 0 ==>
        && commands[length - 1].argc == old(commands[length - 1].argc)
        && commands[length - 1].View() ==
             old(var p := commands[length - 1].View(); p).(bg := j == length || old(commands[length - 1].bg))
      decreases length - j
    {
      commands[j].bg := true;
      j := j + 1;
    }
  }

  /** Skips separators up to the next word or the end. */
  method NextWord(args: array<Option<Token>>, i: nat, ghost ts: seq<Token>) returns (j: nat)
    requires Holds(args, i, ts)
    ensures Holds(args, j, DropSeparators(ts))
  {
    j := i;
    ghost var rest := ts;
    while args[j] != None
      invariant Holds(args, j, rest)
      invariant DropSeparators(rest) == DropSeparators(ts)
      decreases |rest|
    {
      assert rest != [] && args[j] == Some(rest[0]);
      if !IsSep(args[j].value) {
        break;
      }
      j := j + 1;
      rest := rest[1..];
    }
  }

  /** The effect of a new command's `&` on the commands before it. */
  function Patched(cs: seq<Cmd>, c: Cmd): seq<Cmd> {
    if cs == [] then []
    else var p := cs[|cs| - 1]; cs[|cs| - 1 := p.(bg := p.bg || (p.output > 1 && c.bg))]
  }

  /** The pipe part: `in` after a pipe, `out` and `piped` before one; a pipe must be followed by a word. */
  method SetPipeEnds(args: array<Option<Token>>, i: nat, c: Command, fromPipe: bool, ghost ts: seq<Token>)
    returns (ok: bool, pipeNext: bool)
    requires Holds(args, i, ts)
    modifies c
    ensures c.argc == old(c.argc) && c.rappend == old(c.rappend)
    ensures pipeNext <==> ts != [] && ts[0] == "|"
    ensures ok <==> (pipeNext ==> |ts| >= 2 && !IsSep(ts[1]))
    ensures c.View() == old(var v := c.View(); v).(
      input := if fromPipe then 2 else old(c.input),
      output := if pipeNext then 2 else old(c.output),
      piped := pipeNext || old(c.piped))
  {
    assert ts != [] ==> args[i] == Some(ts[0]);
    if fromPipe {
      c.input := 2;
    }
    pipeNext := args[i] == Some("|");
    if pipeNext {
      c.output := 2;
      c.piped := true;
      assert |ts| >= 2 ==> args[i + 1] == Some(ts[1]);
      ok := args[i + 1] != None && !IsSep(args[i + 1].value);
    } else {
      ok := true;
    }
  }

  /** What follows the words, clause by clause, whether or not it starts with a pipe. */
  lemma AfterClauses(words: seq<Token>, input: int, ts: seq<Token>)
    ensures ts != [] && ts[0] == "|" ==> OutClause(ts) == Good(None, ts) && InClause(ts) == Good(None, ts)
    ensures
      var pipe := ts != [] && ts[0] == "|";
      var g := OutClause(ts);
      if (pipe && (|ts| < 2 || IsSep(ts[1]))) || g.Bad? || InClause(g.rest).Bad?
      then AfterWords(words, input, ts) == Reject
      else
        var h := InClause(g.rest);
        AfterWords(words, input, ts) ==
          Accept(Cmd(words, input, if pipe then 2 else 1, pipe, h.rest != [] && h.rest[0] == "&", g.item, h.item),
                 DropSeparators(h.rest))
  {
    if ts != [] && ts[0] == "|" && |ts| >= 2 && !IsSep(ts[1]) {
      assert DropSeparators(ts) == DropSeparators(ts[1..]) == ts[1..];
    }
  }

  /** Pipe ends and redirections of a command whose words have been taken. On success the index is
      where a `&` would stand. */
  method CompleteCommand(args: array<Option<Token>>, i: nat, c: Command, fromPipe: bool, ghost rest: seq<Token>)
    returns (ok: bool, j: nat, pipeNext: bool)
    requires Holds(args, i, rest)
    requires c.View() == Cmd(c.argv, 0, 1, false, false, None, None) && !c.rappend
    modifies c
    ensures c.argc == old(c.argc) && c.argv == old(c.argv)
    ensures pipeNext == (rest != [] && rest[0] == "|")
    ensures var r := AfterWords(old(c.argv), if fromPipe then 2 else 0, rest);
      && (ok <==> r.Accept?)
      && (ok ==> exists ts :: Holds(args, j, ts) && DropSeparators(ts) == r.rest)
      && (ok ==> c.View() == r.cmd.(bg := false) && pipeNext == r.cmd.piped)
      && (ok ==> (r.cmd.bg <==> args[j] == Some("&")) && (r.cmd.bg ==> r.cmd.output == 1))
  {
    hide OutClause, InClause, AfterWords, DropSeparators;
    AfterClauses(c.argv, if fromPipe then 2 else 0, rest);
    j := i;
    ok, pipeNext := SetPipeEnds(args, j, c, fromPipe, rest);
    if !ok { return; }
    ok, j := RedirectOut(args, j, c, rest);
    if !ok { return; }
    ok, j := RedirectIn(args, j, c, OutClause(rest).rest);
    if !ok { return; }
    ghost var ts := InClause(OutClause(rest).rest).rest;
    assert ts != [] ==> args[j] == Some(ts[0]);
  }

  /** Builds the command from `args[first..last]`, stores it, and reads what follows its words up to a `&`. */
  method BeginCommand(args: array<Option<Token>>, commands: array<Command?>, first: nat, last: nat, i: nat,
                      length: nat, fromPipe: bool, ghost words: seq<Token>, ghost rest: seq<Token>)
    returns (ok: bool, j: nat, pipeNext: bool, c: Command)
    requires first <= last < args.Length && |words| == last - first + 1
    requires forall k :: 0 <= k < |words| ==> args[first + k] == Some(words[k])
    requires if i == last then rest == [] else last < i && Holds(args, i, rest)
    requires length < commands.Length
    modifies args, commands
    ensures fresh(c) && c.argv == words && c.argc == |words|
    ensures pipeNext == (rest != [] && rest[0] == "|")
    ensures commands[length] == if !ok && pipeNext then null else c
    ensures forall k :: 0 <= k < commands.Length && k != length ==> commands[k] == old(commands[k])
    ensures var r := AfterWords(words, if fromPipe then 2 else 0, rest);
      && (ok <==> r.Accept?)
      && (ok ==> exists ts :: Holds(args, j, ts) && DropSeparators(ts) == r.rest)
      && (ok ==> c.View() == r.cmd.(bg := false) && pipeNext == r.cmd.piped)
      && (ok ==> (r.cmd.bg <==> args[j] == Some("&")) && (r.cmd.bg ==> r.cmd.output == 1))
  {
    hide AfterWords, DropSeparators;
    c := MakeCmd(args, first, last, words);
    commands[length] := c;
    ok, j, pipeNext := CompleteCommand(args, i, c, fromPipe, rest);
    if !ok && pipeNext {
      commands[length] := null;
    }
  }

  /** The body of the outer `if` of `make_cmdv`: builds a command, sets its pipe ends, takes its redirections and `&`,
      and finds the first word of the next command. */
  method FinishCommand(args: array<Option<Token>>, commands: array<Command?>, first: nat, last: nat, i: nat,
                       length: nat, fromPipe: bool, ghost cs: seq<Cmd>, ghost words: seq<Token>, ghost rest: seq<Token>)
    returns (ok: bool, j: nat, pipeNext: bool)
    requires first <= last < args.Length && |words| == last - first + 1
    requires forall k :: 0 <= k < |words| ==> args[first + k] == Some(words[k])
    requires if i == last then rest == [] else last < i && Holds(args, i, rest)
    requires Loaded(commands, cs) && |cs| == length && length + 1 < commands.Length
    modifies args, commands, if length > 0 then {commands[length - 1]} else {}
    ensures ok <==> AfterWords(words, if fromPipe then 2 else 0, rest).Accept?
    ensures ok ==>
      var r := AfterWords(words, if fromPipe then 2 else 0, rest);
      && Holds(args, j, r.rest)
      && pipeNext == r.cmd.piped
      && Loaded(commands, Patched(cs, r.cmd) + [r.cmd])
      && fresh(commands[length])
    ensures !ok ==>
      && Stored(commands, cs)
      && (if rest != [] && rest[0] == "|" then commands[length] == null
          else fresh(commands[length]) && commands[length].argv == words && commands[length].argc == |words|)
    ensures forall k :: 0 <= k < commands.Length && k != length && !(ok && k == length + 1) ==>
      commands[k] == old(commands[k])
  {
    hide AfterWords, DropSeparators, Patched;
    var c: Command;
    ok, j, pipeNext, c := BeginCommand(args, commands, first, last, i, length, fromPipe, words, rest);
    if !ok {
      return;
    }
    ghost var r := AfterWords(words, if fromPipe then 2 else 0, rest);
    ghost var ts :| Holds(args, j, ts) && DropSeparators(ts) == r.rest;
    StoreCommand(commands, length, args[j] == Some("&"), cs, r.cmd);
    j := NextWord(args, j, ts);
  }

  /** `&` and `commands[++length] = NULL`. */
  method StoreCommand(commands: array<Command?>, length: nat, background: bool, ghost cs: seq<Cmd>, ghost cmd: Cmd)
    requires length + 1 < commands.Length && |cs| == length
    requires forall k :: 0 <= k < length ==>
      commands[k] != null && commands[k].View() == cs[k] && commands[k].argc == |cs[k].argv|
    requires forall j, k :: 0 <= j < k <= length ==> commands[j] != commands[k]
    requires commands[length] != null && commands[length].argc == |cmd.argv|
    requires commands[length].View() == cmd.(bg := false) && cmd.bg == background && (background ==> cmd.output == 1)
    modifies commands, commands[length], if length > 0 then {commands[length - 1]} else {}
    ensures forall k :: 0 <= k < commands.Length && k != length + 1 ==> commands[k] == old(commands[k])
    ensures Loaded(commands, Patched(cs, cmd) + [cmd])
  {
    if background {
      MarkBackground(commands, length);
    }
    commands[length + 1] := null;
  }

  // ----- The loop of make_cmdv -----

  function Prepend(raw: seq<Cmd>, r: Option<seq<Cmd>>): Option<seq<Cmd>> {
    match r
    case None => None
    case Some(cs) => Some(raw + cs)
  }

  /** The report of an error behind the commands `raw`. */
  function Behind(raw: seq<Cmd>, e: Report): Report {
    e.(before := raw + e.before)
  }

  /** How far the loop has come: `raw` is what the grammar has accepted so far, `run` the words of the
      command being read and `left` the tokens ahead. */
  ghost predicate Progress(ts: seq<Token>, raw: seq<Cmd>, run: seq<Token>, left: seq<Token>, fromPipe: bool) {
    && StartsWithWord(ts) && StartsWithWord(run + left)
    && (forall i :: 0 <= i < |run| ==> !IsSep(run[i]))
    && |raw| + |run| + |left| <= |ts|
    && fromPipe == FedByPipe(raw, |raw|)
    && (raw != [] ==> (raw[|raw| - 1].piped <==> raw[|raw| - 1].output > 1))
    && Parse(ts, false) == Prepend(raw, Parse(run + left, fromPipe))
    && (Parse(ts, false).None? ==> ErrorAt(ts, false) == Behind(raw, ErrorAt(run + left, fromPipe)))
  }

  lemma ProgressStart(ts: seq<Token>)
    requires StartsWithWord(ts)
    ensures Progress(ts, [], [], ts, false)
  {
    assert [] + ts == ts;
    if Parse(ts, false).Some? {
      assert [] + Parse(ts, false).value == Parse(ts, false).value;
    }
  }

  /** While words remain ahead, the next token is a word or a command has been started. */
  lemma ProgressHead(ts: seq<Token>, raw: seq<Cmd>, run: seq<Token>, left: seq<Token>, fromPipe: bool)
    requires Progress(ts, raw, run, left, fromPipe)
    ensures |raw| + |run| + |left| <= |ts|
    ensures run == [] ==> StartsWithWord(left)
    ensures fromPipe ==> raw != []
  {
    assert run == [] ==> run + left == left;
  }

  lemma ProgressWord(ts: seq<Token>, raw: seq<Cmd>, run: seq<Token>, left: seq<Token>, fromPipe: bool)
    requires Progress(ts, raw, run, left, fromPipe) && left != [] && !IsSep(left[0])
    ensures Progress(ts, raw, run + [left[0]], left[1..], fromPipe)
  {
    HeadTail(left);
    Assoc(run, [left[0]], left[1..]);
  }

  lemma StageTaken(run: seq<Token>, left: seq<Token>, fromPipe: bool, words: seq<Token>, rest: seq<Token>)
    requires left != [] && StartsWithWord(run + left) && forall i :: 0 <= i < |run| ==> !IsSep(run[i])
    requires if IsSep(left[0]) then words == run && rest == left else words == run + left && rest == [] && |left| == 1
    ensures Stage(run + left, fromPipe) == AfterWords(words, if fromPipe then 2 else 0, rest)
    ensures var n := WordCount(run + left); (run + left)[..n] == words && (run + left)[n..] == rest
  {
    hide AfterWords;
    assert words + rest == run + left;
    WordCountOf(words, rest);
  }

  lemma ParseStep(raw: seq<Cmd>, full: seq<Token>, fromPipe: bool)
    requires full != [] && StartsWithWord(full)
    ensures var r := Stage(full, fromPipe);
      Prepend(raw, Parse(full, fromPipe)) ==
        if r.Accept? then Prepend(raw + [r.cmd], Parse(r.rest, r.cmd.piped)) else None
  {
    hide Stage;
    var r := Stage(full, fromPipe);
    if r.Accept? && Parse(r.rest, r.cmd.piped).Some? {
      Assoc(raw, [r.cmd], Parse(r.rest, r.cmd.piped).value);
    }
  }

  lemma ErrorStep(raw: seq<Cmd>, full: seq<Token>, fromPipe: bool)
    requires full != [] && StartsWithWord(full) && Parse(full, fromPipe).None?
    ensures var r := Stage(full, fromPipe);
      Behind(raw, ErrorAt(full, fromPipe)) ==
        if r.Accept? then Behind(raw + [r.cmd], ErrorAt(r.rest, r.cmd.piped))
        else var n := WordCount(full); Report(raw, full[..n], n < |full| && full[n] == "|")
  {
    hide Stage;
    var r := Stage(full, fromPipe);
    if r.Accept? {
      Assoc(raw, [r.cmd], ErrorAt(r.rest, r.cmd.piped).before);
    } else {
      assert raw + [] == raw;
    }
  }

  lemma MarkSnoc(raw: seq<Cmd>, c: Cmd)
    requires raw != [] ==> (raw[|raw| - 1].piped <==> raw[|raw| - 1].output > 1)
    ensures Mark(raw + [c]) == Patched(Mark(raw), c) + [c]
  {
  }

  lemma AcceptShrinks(words: seq<Token>, input: int, rest: seq<Token>)
    requires AfterWords(words, input, rest).Accept?
    ensures |AfterWords(words, input, rest).rest| <= |rest|
    ensures rest != [] && IsSep(rest[0]) ==> |AfterWords(words, input, rest).rest| < |rest|
  {
  }

  /** The grammar's verdict on the command at hand, from its words and the tokens behind them. */
  lemma ProgressCommand(ts: seq<Token>, raw: seq<Cmd>, run: seq<Token>, left: seq<Token>, fromPipe: bool,
                        words: seq<Token>, rest: seq<Token>)
    requires Progress(ts, raw, run, left, fromPipe) && left != []
    requires if IsSep(left[0]) then words == run && rest == left else words == run + left && rest == [] && |left| == 1
    ensures
      var r := AfterWords(words, if fromPipe then 2 else 0, rest);
      if r.Reject? then
        Parse(ts, false) == None && ErrorAt(ts, false) == Report(raw, words, rest != [] && rest[0] == "|")
      else |r.rest| < |left| && Progress(ts, raw + [r.cmd], [], r.rest, r.cmd.piped)
           && Mark(raw + [r.cmd]) == Patched(Mark(raw), r.cmd) + [r.cmd]
  {
    hide Stage, Parse, AfterWords, Mark, Patched, ErrorAt, Behind;
    StageTaken(run, left, fromPipe, words, rest);
    ParseStep(raw, run + left, fromPipe);
    if Parse(run + left, fromPipe).None? {
      ErrorStep(raw, run + left, fromPipe);
    }
    var r := Stage(run + left, fromPipe);
    if r.Accept? {
      AcceptShrinks(words, if fromPipe then 2 else 0, rest);
      MarkSnoc(raw, r.cmd);
      assert [] + r.rest == r.rest;
    }
  }

  lemma CompileRejects(ts: seq<Token>)
    requires StartsWithWord(ts)
    ensures Compile(ts).None? <==> Parse(ts, false).None?
  {
  }

  lemma ProgressEnd(ts: seq<Token>, raw: seq<Cmd>, fromPipe: bool)
    requires Progress(ts, raw, [], [], fromPipe)
    ensures Compile(ts) == Some(Mark(raw))
  {
    var none: seq<Token> := [];
    assert none + none == none;
    assert raw + [] == raw;
  }

  /** Compiles the tokens `ts` held by `args` into `commands`. */
  method MakeCmdv(args: array<Option<Token>>, commands: array<Command?>, ghost ts: seq<Token>) returns (ok: bool)
    requires Holds(args, 0, ts) && StartsWithWord(ts)
    requires |ts| < commands.Length && commands[0] == null
    modifies args, commands
    ensures ok <==> Compile(ts).Some?
    ensures ok ==>
      && Loaded(commands, Compile(ts).value)
      && (forall k :: 0 <= k < |Compile(ts).value| ==> fresh(commands[k]))
      && forall k :: |Compile(ts).value| < k < commands.Length ==> commands[k] == old(commands[k])
    ensures !ok ==> Parse(ts, false).None? && Rejected(commands, old(commands[..]), ErrorAt(ts, false))
  {
    hide Progress, Compile, Mark, Patched, AfterWords, Parse, ErrorAt;
    var first: nat, length: nat, i: nat := 0, 0, 0;
    var pipeNext := false;
    ghost var raw: seq<Cmd>, run: seq<Token>, left := [], [], ts;
    ProgressStart(ts);
    while args[i] != None
      invariant Holds(args, i, left) && (left != [] ==> args[i] == Some(left[0]))
      invariant if left == [] then run == [] else first + |run| == i
      invariant forall k :: 0 <= k < |run| ==> args[first + k] == Some(run[k])
      invariant length == |raw|
      invariant Loaded(commands, Mark(raw)) && forall k :: 0 <= k < length ==> fresh(commands[k])
      invariant forall k :: length < k < commands.Length ==> commands[k] == old(commands[k])
      invariant Progress(ts, raw, run, left, pipeNext)
      decreases |left|
    {
      ProgressHead(ts, raw, run, left, pipeNext);
      HoldsTail(args, i, left);
      assert |left| > 1 ==> args[i + 1] == Some(left[1]);
      if IsSep(args[i].value) || args[i + 1] == None {
        var last := i - 1;
        ghost var words, rest := run, left;
        if !IsSep(args[i].value) {
          last := i;
          words, rest := run + left, [];
        }
        ProgressCommand(ts, raw, run, left, pipeNext, words, rest);
        ghost var r := AfterWords(words, if pipeNext then 2 else 0, rest);
        ok, i, pipeNext := FinishCommand(args, commands, first, last, i, length, pipeNext, Mark(raw), words, rest);
        if !ok {
          CompileRejects(ts);
          return;
        }
        length := length + 1;
        raw, run, left := raw + [r.cmd], [], r.rest;
        first := i;
      } else {
        ProgressWord(ts, raw, run, left, pipeNext);
        run, left := run + [left[0]], left[1..];
        i := i + 1;
      }
    }
    ProgressEnd(ts, raw, pipeNext);
    ok := true;
  }
}
