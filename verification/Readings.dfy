/** The command lines once more, without an algorithm: which cuts of the tokens into commands are readings of a
    line, and where a line is stuck. The grammar finds the one reading, or the one place. */
module Readings {
  import opened Common
  import opened Tokenizer
  import opened Grammar

  predicate AllWords(ts: seq<Token>) {
    forall i :: 0 <= i < |ts| ==> !IsSep(ts[i])
  }

  predicate AllSeps(ts: seq<Token>) {
    forall i :: 0 <= i < |ts| ==> IsSep(ts[i])
  }

  predicate Heads(t: Token, ts: seq<Token>) {
    ts != [] && ts[0] == t
  }

  predicate Redirects(c: Cmd) {
    c.outTo.Some? || c.inFrom.Some?
  }

  /** `>` with a target reads as `>>` when the target is `>`. */
  predicate OutOk(out: Option<Redirect>) {
    out.Some? && !out.value.append ==> out.value.target != ">"
  }

  /** `ts` is the command `c`, then the separators `seps`, then `rest`. A target may be any token. Redirections are
      taken when they can be, output first. A pipe is one that follows the words; separators may be missing behind a
      target, and at the end. The mark `bg` is the command's own. */
  predicate ReadsStage(ts: seq<Token>, fromPipe: bool, c: Cmd, seps: seq<Token>, rest: seq<Token>) {
    && ts == c.argv + OutTokens(c.outTo) + InTokens(c.inFrom) + seps + rest
    && c.argv != [] && AllWords(c.argv) && OutOk(c.outTo)
    && AllSeps(seps) && StartsWithWord(rest) && (seps == [] && rest != [] ==> Redirects(c))
    && (Heads(">", seps) ==> Redirects(c)) && (Heads("<", seps) ==> c.inFrom.Some?)
    && c.input == (if fromPipe then 2 else 0)
    && c.output == (if c.piped then 2 else 1)
    && (c.piped <==> Heads("|", seps) && !Redirects(c))
    && (c.piped ==> seps == ["|"] && rest != [])
    && (c.bg <==> Heads("&", seps))
  }

  /** From `ts` the commands `raw` are read, one after the other, and `left` is left. */
  ghost predicate ReadsTo(ts: seq<Token>, fromPipe: bool, raw: seq<Cmd>, left: seq<Token>)
    decreases |raw|
  {
    if raw == [] then ts == left
    else exists seps, rest ::
      ReadsStage(ts, fromPipe, raw[0], seps, rest) && ReadsTo(rest, raw[0].piped, raw[1..], left)
  }

  /** A redirection whose target is missing, at the end of the line. */
  ghost predicate MissingTarget(ts: seq<Token>) {
    ts == [">"] || ts == [">", ">"] || exists out :: OutOk(out) && ts == OutTokens(out) + ["<"]
  }

  /** Behind `words` stands a pipe that no word follows, or else a redirection without a target. */
  ghost predicate StuckAt(ts: seq<Token>, words: seq<Token>, pipe: bool) {
    && words != [] && AllWords(words) && words <= ts
    && var tail := ts[|words|..];
       if pipe then tail != [] && tail[0] == "|" && (|tail| < 2 || IsSep(tail[1])) else MissingTarget(tail)
  }

  // ----- One command -----

  lemma SeparatorsAreSeps()
    ensures IsSep(">") && IsSep("<") && IsSep("|") && IsSep("&") && IsSep(";")
  {
    assert ">"[0] == '>' && "<"[0] == '<' && "|"[0] == '|' && "&"[0] == '&' && ";"[0] == ';';
  }

  lemma {:induction false} Dropped(seps: seq<Token>, rest: seq<Token>)
    requires AllSeps(seps) && StartsWithWord(rest)
    ensures DropSeparators(seps + rest) == rest
  {
    if seps == [] {
      assert seps + rest == rest;
    } else {
      assert (seps + rest)[1..] == seps[1..] + rest;
      Dropped(seps[1..], rest);
    }
  }

  lemma {:induction false} DropSplits(ts: seq<Token>) returns (seps: seq<Token>)
    ensures AllSeps(seps) && ts == seps + DropSeparators(ts)
  {
    if StartsWithWord(ts) {
      seps := [];
    } else {
      var more := DropSplits(ts[1..]);
      seps := [ts[0]] + more;
      HeadTail(ts);
      Assoc([ts[0]], more, DropSeparators(ts));
    }
  }

  lemma OutTaken(out: Option<Redirect>, ts: seq<Token>)
    requires OutOk(out) && (out.None? ==> !Heads(">", ts))
    ensures OutClause(OutTokens(out) + ts) == Good(out, ts)
  {
    assert (OutTokens(out) + ts)[|OutTokens(out)|..] == ts;
  }

  lemma InTaken(inp: Option<Token>, ts: seq<Token>)
    requires inp.None? ==> !Heads("<", ts)
    ensures InClause(InTokens(inp) + ts) == Good(inp, ts)
  {
    assert (InTokens(inp) + ts)[|InTokens(inp)|..] == ts;
  }

  lemma OutSplits(ts: seq<Token>)
    ensures match OutClause(ts)
      case Bad => ts == [">"] || ts == [">", ">"]
      case Good(out, rest) => OutOk(out) && ts == OutTokens(out) + rest && (out.None? ==> !Heads(">", ts))
  {
  }

  lemma InSplits(ts: seq<Token>)
    ensures match InClause(ts)
      case Bad => ts == ["<"]
      case Good(inp, rest) => ts == InTokens(inp) + rest && (inp.None? ==> !Heads("<", ts))
  {
  }

  lemma PlainIsStage(c: Cmd, seps: seq<Token>, rest: seq<Token>)
    requires !c.piped && c.output == 1 && OutOk(c.outTo) && AllSeps(seps) && StartsWithWord(rest)
    requires (Heads(">", seps) ==> Redirects(c)) && (Heads("<", seps) ==> c.inFrom.Some?)
    requires !(Heads("|", seps) && !Redirects(c)) && (c.bg <==> Heads("&", seps))
    ensures var tail := OutTokens(c.outTo) + (InTokens(c.inFrom) + (seps + rest));
      !Heads("|", tail) && Plain(c.argv, c.input, tail) == Accept(c, rest)
  {
    hide OutClause, InClause, DropSeparators;
    HeadOfRest(c, seps, rest);
    OutTaken(c.outTo, InTokens(c.inFrom) + (seps + rest));
    InTaken(c.inFrom, seps + rest);
    Dropped(seps, rest);
  }

  lemma TailStarts(c: Cmd, seps: seq<Token>, rest: seq<Token>)
    requires AllSeps(seps) && StartsWithWord(rest) && (seps == [] && rest != [] ==> Redirects(c))
    ensures var tail := OutTokens(c.outTo) + (InTokens(c.inFrom) + (seps + rest)); tail == [] || IsSep(tail[0])
  {
    SeparatorsAreSeps();
  }

  /** A reading of the first command is what the grammar reads. */
  lemma ReadIsStage(ts: seq<Token>, fromPipe: bool, c: Cmd, seps: seq<Token>, rest: seq<Token>)
    requires ReadsStage(ts, fromPipe, c, seps, rest)
    ensures ts != [] && StartsWithWord(ts) && Stage(ts, fromPipe) == Accept(c, rest)
  {
    hide Plain, WordCount, OutTokens, InTokens;
    var tail := OutTokens(c.outTo) + (InTokens(c.inFrom) + (seps + rest));
    Regrouped(c.argv, OutTokens(c.outTo), InTokens(c.inFrom), seps, rest);
    assert ts[0] == c.argv[0];
    TailStarts(c, seps, rest);
    WordCountOf(c.argv, tail);
    if c.piped {
      PipedTail(c, rest);
    } else {
      PlainIsStage(c, seps, rest);
    }
  }

  lemma PipedTail(c: Cmd, rest: seq<Token>)
    requires c.outTo.None? && c.inFrom.None? && rest != []
    ensures var tail := OutTokens(c.outTo) + (InTokens(c.inFrom) + (["|"] + rest));
      tail == ["|"] + rest && tail[1] == rest[0] && tail[1..] == rest
  {
  }

  lemma Regrouped(a: seq<Token>, b: seq<Token>, c: seq<Token>, d: seq<Token>, e: seq<Token>)
    ensures a + b + c + d + e == a + (b + (c + (d + e)))
  {
  }

  lemma HeadOfRest(c: Cmd, seps: seq<Token>, rest: seq<Token>)
    requires AllSeps(seps) && StartsWithWord(rest)
    requires (Heads(">", seps) ==> Redirects(c)) && (Heads("<", seps) ==> c.inFrom.Some?)
    ensures var ts2 := seps + rest;
      && (Heads("&", ts2) <==> Heads("&", seps)) && (Heads("|", ts2) <==> Heads("|", seps))
      && (c.inFrom.None? ==> !Heads("<", ts2))
      && (c.outTo.None? ==> !Heads(">", InTokens(c.inFrom) + ts2))
      && (Heads("|", OutTokens(c.outTo) + (InTokens(c.inFrom) + ts2)) <==> !Redirects(c) && Heads("|", seps))
  {
    SeparatorsAreSeps();
    if seps == [] {
      assert seps + rest == rest;
    }
  }

  lemma WordsSplit(ts: seq<Token>)
    requires ts != [] && StartsWithWord(ts)
    ensures var n := WordCount(ts);
      n > 0 && AllWords(ts[..n]) && ts == ts[..n] + ts[n..] && (ts[n..] != [] ==> IsSep(ts[n..][0]))
  {
  }

  /** The parts of a command that does not feed a pipe, put together. */
  lemma Assembled(words: seq<Token>, fromPipe: bool, out: Option<Redirect>, inp: Option<Token>,
                  seps: seq<Token>, rest: seq<Token>)
    requires words != [] && AllWords(words) && OutOk(out) && AllSeps(seps) && StartsWithWord(rest)
    requires Heads("<", seps) ==> inp.Some?
    requires Heads(">", seps) ==> out.Some? || inp.Some?
    requires out.None? && inp.None? ==> !Heads("|", seps) && (rest != [] ==> seps != [])
    ensures ReadsStage(words + (OutTokens(out) + (InTokens(inp) + (seps + rest))), fromPipe,
                       Cmd(words, if fromPipe then 2 else 0, 1, false, Heads("&", seps), out, inp), seps, rest)
  {
    Regroup(OutTokens(out), InTokens(inp), seps, rest);
    var o, i := OutTokens(out), InTokens(inp);
    assert words + (o + (i + (seps + rest))) == words + o + i + seps + rest;
  }

  /** The first token behind the words is a separator, if there is one. */
  lemma HeadsBehind(out: Option<Redirect>, inp: Option<Token>, seps: seq<Token>, rest: seq<Token>)
    requires AllSeps(seps) && StartsWithWord(rest)
    ensures var ts2 := seps + rest; var ts1 := InTokens(inp) + ts2; var tail := OutTokens(out) + ts1;
      && (Heads("&", ts2) <==> Heads("&", seps))
      && (Heads("<", seps) ==> Heads("<", ts2))
      && (inp.None? && Heads(">", seps) ==> Heads(">", ts1))
      && (out.None? && inp.None? ==>
            tail == ts2 && (seps == [] ==> tail == rest) && (Heads("|", seps) ==> Heads("|", tail)))
  {
    SeparatorsAreSeps();
    if seps == [] {
      assert seps + rest == rest;
    }
  }

  lemma PlainIsRead(words: seq<Token>, fromPipe: bool, tail: seq<Token>) returns (seps: seq<Token>)
    requires words != [] && AllWords(words) && (tail != [] ==> IsSep(tail[0])) && !Heads("|", tail)
    ensures match Plain(words, if fromPipe then 2 else 0, tail)
      case Accept(c, rest) => ReadsStage(words + tail, fromPipe, c, seps, rest)
      case Reject => MissingTarget(tail)
  {
    hide DropSeparators, OutClause, InClause, ReadsStage;
    seps := [];
    OutSplits(tail);
    if OutClause(tail).Good? {
      var out, ts1 := OutClause(tail).item, OutClause(tail).rest;
      InSplits(ts1);
      if InClause(ts1).Good? {
        var inp, ts2 := InClause(ts1).item, InClause(ts1).rest;
        seps := DropSplits(ts2);
        var rest := DropSeparators(ts2);
        HeadsBehind(out, inp, seps, rest);
        Assembled(words, fromPipe, out, inp, seps, rest);
      } else {
        assert OutOk(out) && tail == OutTokens(out) + ["<"];
      }
    }
  }

  lemma PipeIsRead(words: seq<Token>, fromPipe: bool, rest: seq<Token>)
    requires words != [] && AllWords(words) && rest != [] && StartsWithWord(rest)
    ensures ReadsStage(words + (["|"] + rest), fromPipe,
                       Cmd(words, if fromPipe then 2 else 0, 2, true, false, None, None), ["|"], rest)
  {
    SeparatorsAreSeps();
    var none: seq<Token> := [];
    assert words + (["|"] + rest) == words + none + none + ["|"] + rest;
  }

  /** What the grammar reads as the first command is a reading, and where it rejects the line is stuck. */
  lemma StageIsRead(ts: seq<Token>, fromPipe: bool) returns (seps: seq<Token>)
    requires ts != [] && StartsWithWord(ts)
    ensures match Stage(ts, fromPipe)
      case Accept(c, rest) => ReadsStage(ts, fromPipe, c, seps, rest)
      case Reject => var n := WordCount(ts); StuckAt(ts, ts[..n], n < |ts| && ts[n] == "|")
  {
    hide WordCount, Plain, ReadsStage, MissingTarget;
    WordsSplit(ts);
    var n := WordCount(ts);
    var words, tail := ts[..n], ts[n..];
    if Heads("|", tail) {
      seps := ["|"];
      if Stage(ts, fromPipe).Accept? {
        HeadTail(tail);
        PipeIsRead(words, fromPipe, tail[1..]);
      }
    } else {
      seps := PlainIsRead(words, fromPipe, tail);
    }
  }

  // ----- The whole line -----

  lemma {:induction false} ReadIsParsed(ts: seq<Token>, fromPipe: bool, raw: seq<Cmd>)
    requires ReadsTo(ts, fromPipe, raw, []) && StartsWithWord(ts)
    ensures Parse(ts, fromPipe) == Some(raw)
    decreases |raw|
  {
    hide ReadsStage, Stage;
    if raw == [] {
    } else {
      var seps, rest :| ReadsStage(ts, fromPipe, raw[0], seps, rest) && ReadsTo(rest, raw[0].piped, raw[1..], []);
      ReadIsStage(ts, fromPipe, raw[0], seps, rest);
      ReadIsParsed(rest, raw[0].piped, raw[1..]);
      HeadTail(raw);
    }
  }

  lemma ReadsCons(ts: seq<Token>, fromPipe: bool, c: Cmd, seps: seq<Token>, rest: seq<Token>,
                  more: seq<Cmd>, left: seq<Token>)
    requires ReadsStage(ts, fromPipe, c, seps, rest) && ReadsTo(rest, c.piped, more, left)
    ensures ReadsTo(ts, fromPipe, [c] + more, left)
  {
    var raw := [c] + more;
    assert raw[0] == c && raw[1..] == more;
  }

  lemma {:induction false} ParsedIsRead(ts: seq<Token>, fromPipe: bool)
    requires StartsWithWord(ts) && Parse(ts, fromPipe).Some?
    ensures ReadsTo(ts, fromPipe, Parse(ts, fromPipe).value, [])
    decreases |ts|
  {
    hide ReadsStage, Stage, ReadsTo;
    if ts == [] {
      NothingRead(ts, fromPipe);
    } else {
      var seps := StageIsRead(ts, fromPipe);
      var r := Stage(ts, fromPipe);
      ParsedIsRead(r.rest, r.cmd.piped);
      ReadsCons(ts, fromPipe, r.cmd, seps, r.rest, Parse(r.rest, r.cmd.piped).value, []);
    }
  }

  lemma NothingRead(ts: seq<Token>, fromPipe: bool)
    ensures ReadsTo(ts, fromPipe, [], ts)
  {
  }

  /** The grammar accepts a line if and only if it has a reading, and yields the only one, with the marks set. */
  lemma CompiledIsReading(ts: seq<Token>, cs: seq<Cmd>)
    requires StartsWithWord(ts)
    ensures Compile(ts) == Some(cs) <==> exists raw :: ReadsTo(ts, false, raw, []) && cs == Mark(raw)
  {
    hide ReadsTo, Mark;
    if Compile(ts) == Some(cs) {
      ParsedIsRead(ts, false);
    }
    if raw :| ReadsTo(ts, false, raw, []) && cs == Mark(raw) {
      ReadIsParsed(ts, false, raw);
    }
  }

  /** A line that is rejected is read up to the command that the report names, and is stuck there. */
  lemma {:induction false} ErrorIsStuck(ts: seq<Token>, fromPipe: bool) returns (left: seq<Token>)
    requires StartsWithWord(ts) && Parse(ts, fromPipe).None?
    ensures var e := ErrorAt(ts, fromPipe); ReadsTo(ts, fromPipe, e.before, left) && StuckAt(left, e.words, e.pipe)
    decreases |ts|
  {
    hide ReadsStage, Stage, ReadsTo, StuckAt;
    var seps := StageIsRead(ts, fromPipe);
    var r := Stage(ts, fromPipe);
    if r.Reject? {
      left := ts;
      NothingRead(ts, fromPipe);
    } else {
      left := ErrorIsStuck(r.rest, r.cmd.piped);
      ReadsCons(ts, fromPipe, r.cmd, seps, r.rest, ErrorAt(r.rest, r.cmd.piped).before, left);
    }
  }

  lemma StuckIsRejected(ts: seq<Token>, words: seq<Token>, pipe: bool, fromPipe: bool)
    requires StuckAt(ts, words, pipe)
    ensures ts != [] && StartsWithWord(ts) && Stage(ts, fromPipe) == Reject
  {
    hide WordCount;
    SeparatorsAreSeps();
    var tail := ts[|words|..];
    assert ts == words + tail && ts[0] == words[0];
    if !pipe {
      MissingHeads(tail);
    }
    WordCountOf(words, tail);
  }

  lemma MissingHeads(tail: seq<Token>)
    requires MissingTarget(tail)
    ensures tail != [] && IsSep(tail[0]) && !Heads("|", tail)
    ensures OutClause(tail).Bad? || InClause(OutClause(tail).rest).Bad?
  {
    SeparatorsAreSeps();
    if out :| OutOk(out) && tail == OutTokens(out) + ["<"] {
      OutTaken(out, ["<"]);
    }
  }

  /** A line is rejected if and only if it can be read up to a pipe that no word follows, or up to its end, where a
      target is missing. */
  lemma RejectedIffStuck(ts: seq<Token>)
    requires StartsWithWord(ts)
    ensures Compile(ts) == None <==>
      exists raw, left, words, pipe :: ReadsTo(ts, false, raw, left) && StuckAt(left, words, pipe)
  {
    hide ReadsTo, StuckAt;
    if Compile(ts) == None {
      var left := ErrorIsStuck(ts, false);
    }
    if raw, left, words, pipe :| ReadsTo(ts, false, raw, left) && StuckAt(left, words, pipe) {
      StuckLineRejected(ts, false, raw, left, words, pipe);
    }
  }

  lemma {:induction false} StuckLineRejected(ts: seq<Token>, fromPipe: bool, raw: seq<Cmd>, left: seq<Token>,
                                             words: seq<Token>, pipe: bool)
    requires StartsWithWord(ts) && ReadsTo(ts, fromPipe, raw, left) && StuckAt(left, words, pipe)
    ensures Parse(ts, fromPipe) == None
    decreases |raw|
  {
    hide ReadsStage, Stage, StuckAt;
    if raw == [] {
      StuckIsRejected(ts, words, pipe, fromPipe);
    } else {
      var seps, rest :| ReadsStage(ts, fromPipe, raw[0], seps, rest) && ReadsTo(rest, raw[0].piped, raw[1..], left);
      ReadIsStage(ts, fromPipe, raw[0], seps, rest);
      StuckLineRejected(rest, raw[0].piped, raw[1..], left, words, pipe);
    }
  }

  // ----- Lines without a final terminator, and lines of words -----

  /** A line of words is one command, without redirections, in the foreground. */
  lemma WordsCompile(ws: seq<Token>)
    requires ws != [] && AllWords(ws)
    ensures StartsWithWord(ws) && Compile(ws) == Some([Cmd(ws, 0, 1, false, false, None, None)])
  {
    hide ReadsStage, Parse;
    var none: seq<Token> := [];
    var c := Cmd(ws, 0, 1, false, false, None, None);
    Assembled(ws, false, None, None, none, none);
    assert ws + (none + (none + (none + none))) == ws;
    ReadIsStage(ws, false, c, none, none);
    NothingRead(none, false);
    ReadsCons(ws, false, c, none, none, [], none);
    assert [c] + [] == [c];
    ReadIsParsed(ws, false, [c]);
    assert Mark([c]) == [c];
  }

  /** The tokens of a line without the last one, which `Print` always puts. */
  function Unterminated(cs: seq<Cmd>): seq<Token> {
    var p := Print(cs);
    if p == [] then [] else p[..|p| - 1]
  }

  lemma {:induction false} PrintOpenParses(raw: seq<Cmd>, fromPipe: bool)
    requires raw != [] && Chain(raw, fromPipe) && !raw[|raw| - 1].bg
    ensures var ts := Unterminated(raw); ts != [] && StartsWithWord(ts) && Parse(ts, fromPipe) == Some(raw)
    decreases |raw|
  {
    hide Stage, Parse, StageOk, Suffix;
    HeadTail(raw);
    var c := raw[0];
    if |raw| == 1 {
      assert raw == [c];
      LastUnterminated(c, fromPipe);
    } else {
      var more := Unterminated(raw[1..]);
      PrintOpenParses(raw[1..], c.piped);
      ChainHead(raw, fromPipe);
      StageOfPrinted(c, fromPipe, more);
      UnterminatedHead(raw);
      ParseHead(c.argv + Suffix(c) + more, fromPipe, c, more, raw[1..]);
    }
  }

  lemma ParseHead(ts: seq<Token>, fromPipe: bool, c: Cmd, rest: seq<Token>, more: seq<Cmd>)
    requires ts != [] && StartsWithWord(ts)
    requires Stage(ts, fromPipe) == Accept(c, rest) && Parse(rest, c.piped) == Some(more)
    ensures Parse(ts, fromPipe) == Some([c] + more)
  {
    hide Stage;
  }

  lemma ChainHead(raw: seq<Cmd>, fromPipe: bool)
    requires raw != [] && Chain(raw, fromPipe)
    ensures StageOk(raw[0], fromPipe) && (raw[0].piped ==> !raw[0].bg) && Chain(raw[1..], raw[0].piped)
  {
  }

  lemma UnterminatedHead(raw: seq<Cmd>)
    requires |raw| > 1 && Print(raw[1..]) != []
    ensures Unterminated(raw) == raw[0].argv + Suffix(raw[0]) + Unterminated(raw[1..])
  {
    hide Suffix;
  }

  lemma LastUnterminated(c: Cmd, fromPipe: bool)
    requires Chain([c], fromPipe) && !c.bg
    ensures var ts := Unterminated([c]); ts != [] && StartsWithWord(ts) && Parse(ts, fromPipe) == Some([c])
  {
    hide Stage, ReadsStage;
    var none: seq<Token> := [];
    assert [c][1..] == [];
    assert !c.piped && Print([c]) == c.argv + Suffix(c);
    var ts := c.argv + (OutTokens(c.outTo) + (InTokens(c.inFrom) + (none + none)));
    assert Unterminated([c]) == ts;
    Assembled(c.argv, fromPipe, c.outTo, c.inFrom, none, none);
    ReadIsStage(ts, fromPipe, c, none, none);
    ParseHead(ts, fromPipe, c, none, []);
    assert [c] + [] == [c];
  }

  /** A well-formed vector whose last command is in the foreground is also compiled from its tokens without the final
      terminator. */
  lemma UnterminatedCompiles(cs: seq<Cmd>)
    requires WellFormed(cs) && cs != [] && !cs[|cs| - 1].bg
    ensures StartsWithWord(Unterminated(cs)) && Compile(Unterminated(cs)) == Some(cs)
  {
    hide WellFormed, Parse, Mark;
    WellFormedUnmarks(cs);
    PrintOpenParses(Unmark(cs), false);
    PrintUnmarked(cs);
  }

  /** The same through the text. */
  lemma UnterminatedText(cs: seq<Cmd>)
    requires WellFormed(cs) && cs != [] && !cs[|cs| - 1].bg && forall c :: c in cs ==> ValidTokens(c)
    ensures var ts := Tokens(Join(Unterminated(cs))); StartsWithWord(ts) && Compile(ts) == Some(cs)
  {
    hide WellFormed, Compile, Print;
    PrintedTokensValid(cs);
    JoinTokenises(Unterminated(cs));
    UnterminatedCompiles(cs);
  }

  lemma StuckHas(ts: seq<Token>, words: seq<Token>, pipe: bool)
    requires StuckAt(ts, words, pipe)
    ensures "|" in ts || ">" in ts || "<" in ts
  {
    var tail := ts[|words|..];
    assert forall t :: t in tail ==> t in ts;
    if !pipe {
      if out :| OutOk(out) && tail == OutTokens(out) + ["<"] {
        assert tail[|tail| - 1] == "<";
      } else {
        assert tail[0] == ">";
      }
    }
  }

  lemma RestWithin(ts: seq<Token>, fromPipe: bool, c: Cmd, seps: seq<Token>, rest: seq<Token>)
    requires ReadsStage(ts, fromPipe, c, seps, rest)
    ensures forall t :: t in rest ==> t in ts
  {
  }

  /** A line that begins with a word and has neither pipe nor redirection is accepted. */
  lemma {:induction false} PlainLinesAccepted(ts: seq<Token>, fromPipe: bool)
    requires StartsWithWord(ts) && "|" !in ts && ">" !in ts && "<" !in ts
    ensures Parse(ts, fromPipe).Some?
    decreases |ts|
  {
    hide Stage, StuckAt, ReadsStage;
    if ts == [] {
    } else {
      var seps := StageIsRead(ts, fromPipe);
      var r := Stage(ts, fromPipe);
      if r.Reject? {
        var n := WordCount(ts);
        StuckHas(ts, ts[..n], n < |ts| && ts[n] == "|");
      } else {
        RestWithin(ts, fromPipe, r.cmd, seps, r.rest);
        PlainLinesAccepted(r.rest, r.cmd.piped);
      }
    }
  }

  lemma PlainLinesCompile(ts: seq<Token>)
    requires StartsWithWord(ts) && "|" !in ts && ">" !in ts && "<" !in ts
    ensures Compile(ts).Some?
  {
    PlainLinesAccepted(ts, false);
  }
}
