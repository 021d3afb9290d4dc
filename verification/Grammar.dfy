/** What `make_cmdv` means: a recursive grammar over the token sequence, a printer, and the
    laws that tie the two together. */
module Grammar {
  import opened Common
  import opened Tokenizer

  type Token = string

  /** `is_separator(args[i][0])`: only the first character decides. */
  predicate IsSep(t: Token) {
    t != "" && IsSeparator(t[0])
  }

  predicate StartsWithWord(ts: seq<Token>) {
    ts == [] || !IsSep(ts[0])
  }

  datatype Redirect = Redirect(target: Token, append: bool)

  /** `struct cmd` as a value. */
  datatype Cmd = Cmd(argv: seq<Token>, input: int, output: int, piped: bool, bg: bool,
                     outTo: Option<Redirect>, inFrom: Option<Token>)

  // ----- The grammar -----

  /** The number of words at the front of `ts`. */
  function WordCount(ts: seq<Token>): (n: nat)
    ensures n <= |ts|
    ensures forall i :: 0 <= i < n ==> !IsSep(ts[i])
    ensures n < |ts| ==> IsSep(ts[n])
  {
    if StartsWithWord(ts) && ts != [] then 1 + WordCount(ts[1..]) else 0
  }

  function DropSeparators(ts: seq<Token>): (r: seq<Token>)
    ensures |r| <= |ts| && StartsWithWord(r)
  {
    if StartsWithWord(ts) then ts else DropSeparators(ts[1..])
  }

  /** An optional redirection; `Bad` when its target is missing. */
  datatype Clause<+T> = Bad | Good(item: Option<T>, rest: seq<Token>)

  function OutClause(ts: seq<Token>): Clause<Redirect> {
    if ts == [] || ts[0] != ">" then Good(None, ts)
    else if |ts| >= 2 && ts[1] != ">" then Good(Some(Redirect(ts[1], false)), ts[2..])
    else if |ts| >= 3 then Good(Some(Redirect(ts[2], true)), ts[3..])
    else Bad
  }

  function InClause(ts: seq<Token>): Clause<Token> {
    if ts == [] || ts[0] != "<" then Good(None, ts)
    else if |ts| >= 2 then Good(Some(ts[1]), ts[2..])
    else Bad
  }

  datatype StageResult = Reject | Accept(cmd: Cmd, rest: seq<Token>)

  /** What follows the words of a stage that does not feed a pipe. */
  function Plain(argv: seq<Token>, input: int, ts: seq<Token>): StageResult {
    match OutClause(ts)
    case Bad => Reject
    case Good(out, ts1) =>
      match InClause(ts1)
      case Bad => Reject
      case Good(inp, ts2) =>
        Accept(Cmd(argv, input, 1, false, ts2 != [] && ts2[0] == "&", out, inp), DropSeparators(ts2))
  }

  /** The stage that follows after the words `argv` have been read. */
  function AfterWords(argv: seq<Token>, input: int, ts: seq<Token>): StageResult {
    if ts != [] && ts[0] == "|" then
      if |ts| < 2 || IsSep(ts[1]) then Reject
      else Accept(Cmd(argv, input, 2, true, false, None, None), ts[1..])
    else Plain(argv, input, ts)
  }

  /** One command of the line: its words, then a pipe, or redirections and a terminator.
      The mark `bg` is here the stage's own `&`. */
  function Stage(ts: seq<Token>, fromPipe: bool): (r: StageResult)
    requires ts != [] && StartsWithWord(ts)
    ensures r.Accept? ==> |r.rest| < |ts| && StartsWithWord(r.rest)
    ensures r.Accept? ==> (r.cmd.piped ==> r.rest != []) && (r.cmd.piped <==> r.cmd.output > 1)
  {
    var n := WordCount(ts);
    AfterWords(ts[..n], if fromPipe then 2 else 0, ts[n..])
  }

  function Parse(ts: seq<Token>, fromPipe: bool): Option<seq<Cmd>>
    requires StartsWithWord(ts)
    decreases |ts|
  {
    if ts == [] then Some([])
    else match Stage(ts, fromPipe)
      case Reject => None
      case Accept(c, rest) =>
        match Parse(rest, c.piped)
        case None => None
        case Some(cs) => Some([c] + cs)
  }

  /** `&` also marks the stage piped straight into the marked one, and no stage before that. */
  function Mark(raw: seq<Cmd>): (cs: seq<Cmd>)
    ensures |cs| == |raw|
  {
    seq(|raw|, k requires 0 <= k < |raw| =>
      raw[k].(bg := raw[k].bg || (k + 1 < |raw| && raw[k].piped && raw[k + 1].bg)))
  }

  /** The commands of a line, or None for a syntax error. */
  function Compile(ts: seq<Token>): Option<seq<Cmd>>
    requires StartsWithWord(ts)
  {
    match Parse(ts, false)
    case None => None
    case Some(raw) => Some(Mark(raw))
  }

  /** Where a line is rejected: the commands before, the words of the rejected one, and whether its pipe is at fault. */
  datatype Report = Report(before: seq<Cmd>, words: seq<Token>, pipe: bool)

  function ErrorAt(ts: seq<Token>, fromPipe: bool): Report
    requires StartsWithWord(ts) && Parse(ts, fromPipe).None?
    decreases |ts|
  {
    var n := WordCount(ts);
    match Stage(ts, fromPipe)
    case Reject => Report([], ts[..n], n < |ts| && ts[n] == "|")
    case Accept(c, rest) => var r := ErrorAt(rest, c.piped); r.(before := [c] + r.before)
  }

  // ----- The printer -----

  function OutTokens(out: Option<Redirect>): seq<Token> {
    match out
    case None => []
    case Some(r) => if r.append then [">", ">", r.target] else [">", r.target]
  }

  function InTokens(inp: Option<Token>): seq<Token> {
    match inp
    case None => []
    case Some(t) => ["<", t]
  }

  function Suffix(c: Cmd): seq<Token> {
    if c.piped then ["|"]
    else OutTokens(c.outTo) + InTokens(c.inFrom) + [if c.bg then "&" else ";"]
  }

  function Print(cs: seq<Cmd>): seq<Token> {
    if cs == [] then [] else cs[0].argv + Suffix(cs[0]) + Print(cs[1..])
  }

  function PrintText(cs: seq<Cmd>): string {
    Join(Print(cs))
  }

  // ----- Well-formed command vectors -----

  predicate StageOk(c: Cmd, fromPipe: bool) {
    && c.argv != [] && (forall i :: 0 <= i < |c.argv| ==> !IsSep(c.argv[i]))
    && c.input == (if fromPipe then 2 else 0)
    && c.output == (if c.piped then 2 else 1)
    && (c.piped ==> c.outTo.None? && c.inFrom.None?)
    && (c.outTo.Some? && !c.outTo.value.append ==> c.outTo.value.target != ">")
  }

  predicate FedByPipe(cs: seq<Cmd>, k: nat)
    requires k <= |cs|
  {
    k > 0 && cs[k - 1].piped
  }

  predicate Linked(cs: seq<Cmd>) {
    forall k :: 0 <= k < |cs| ==>
      && StageOk(cs[k], FedByPipe(cs, k))
      && (cs[k].piped ==> k + 1 < |cs|)
  }

  /** The background marks the code can leave: a piped stage carries the mark of the next
      stage exactly when that next stage ends its pipeline. */
  predicate MarksOk(cs: seq<Cmd>)
    requires Linked(cs)
  {
    forall k :: 0 <= k < |cs| && cs[k].piped ==> cs[k].bg == (cs[k + 1].bg && !cs[k + 1].piped)
  }

  predicate WellFormed(cs: seq<Cmd>) {
    Linked(cs) && MarksOk(cs)
  }

  /** The own marks only, as the grammar yields them before `Mark`. */
  function Unmark(cs: seq<Cmd>): (raw: seq<Cmd>)
    ensures |raw| == |cs|
  {
    seq(|cs|, k requires 0 <= k < |cs| => cs[k].(bg := cs[k].bg && !cs[k].piped))
  }

  /** The chain condition on raw vectors, stage by stage. */
  predicate Chain(raw: seq<Cmd>, fromPipe: bool) {
    if raw == [] then !fromPipe
    else StageOk(raw[0], fromPipe) && (raw[0].piped ==> !raw[0].bg) && Chain(raw[1..], raw[0].piped)
  }

  // ----- Parsing yields chains, printing chains parses -----

  lemma {:induction false} ParseChains(ts: seq<Token>, fromPipe: bool)
    requires StartsWithWord(ts) && (fromPipe ==> ts != [])
    requires Parse(ts, fromPipe).Some?
    ensures Chain(Parse(ts, fromPipe).value, fromPipe)
    decreases |ts|
  {
    if ts == [] {
    } else {
      var r := Stage(ts, fromPipe);
      ParseChains(r.rest, r.cmd.piped);
      var raw := Parse(ts, fromPipe).value;
      assert raw[0] == r.cmd && raw[1..] == Parse(r.rest, r.cmd.piped).value;
    }
  }

  lemma {:induction false} WordCountOf(ws: seq<Token>, ts: seq<Token>)
    requires forall i :: 0 <= i < |ws| ==> !IsSep(ws[i])
    requires ts == [] || IsSep(ts[0])
    ensures WordCount(ws + ts) == |ws|
    ensures (ws + ts)[..|ws|] == ws && (ws + ts)[|ws|..] == ts
  {
    if ws == [] {
      assert ws + ts == ts;
    } else {
      assert (ws + ts)[1..] == ws[1..] + ts;
      WordCountOf(ws[1..], ts);
    }
  }

  lemma OutPrinted(out: Option<Redirect>, ts: seq<Token>)
    requires out.Some? && !out.value.append ==> out.value.target != ">"
    requires ts != [] && ts[0] != ">"
    ensures OutClause(OutTokens(out) + ts) == Good(out, ts)
  {
    var all := OutTokens(out) + ts;
    assert all[|OutTokens(out)|..] == ts;
  }

  lemma InPrinted(inp: Option<Token>, ts: seq<Token>)
    requires ts != [] && ts[0] != "<"
    ensures InClause(InTokens(inp) + ts) == Good(inp, ts)
  {
    var all := InTokens(inp) + ts;
    assert all[|InTokens(inp)|..] == ts;
  }

  lemma PlainSuffix(c: Cmd, rest: seq<Token>)
    requires !c.piped && c.output == 1 && StartsWithWord(rest)
    requires c.outTo.Some? && !c.outTo.value.append ==> c.outTo.value.target != ">"
    ensures Plain(c.argv, c.input, Suffix(c) + rest) == Accept(c, rest)
  {
    hide DropSeparators, InClause, OutClause;
    var stop: Token := if c.bg then "&" else ";";
    var tail := [stop] + rest;
    StopClause(stop, rest);
    var ts1 := InTokens(c.inFrom) + tail;
    InPrinted(c.inFrom, tail);
    assert ts1[0] == if c.inFrom.None? then stop else "<";
    OutPrinted(c.outTo, ts1);
    Regroup(OutTokens(c.outTo), InTokens(c.inFrom), [stop], rest);
  }

  lemma StopClause(stop: Token, rest: seq<Token>)
    requires stop == "&" || stop == ";"
    requires StartsWithWord(rest)
    ensures stop != "<" && stop != ">"
    ensures DropSeparators([stop] + rest) == rest
  {
    assert ([stop] + rest)[1..] == rest;
    assert stop[0] == '&' || stop[0] == ';';
  }

  lemma Regroup(a: seq<Token>, b: seq<Token>, c: seq<Token>, d: seq<Token>)
    ensures a + b + c + d == a + (b + (c + d))
  {
  }

  lemma StageOfPrinted(c: Cmd, fromPipe: bool, rest: seq<Token>)
    requires StageOk(c, fromPipe) && (c.piped ==> !c.bg && rest != [])
    requires StartsWithWord(rest)
    ensures var ts := c.argv + Suffix(c) + rest;
            ts != [] && StartsWithWord(ts) && Stage(ts, fromPipe) == Accept(c, rest)
  {
    var ts := c.argv + Suffix(c) + rest;
    var tail := Suffix(c) + rest;
    assert ts == c.argv + tail;
    assert ts[0] == c.argv[0];
    assert tail[0] == Suffix(c)[0] && IsSep(tail[0]);
    WordCountOf(c.argv, tail);
    if c.piped {
      assert tail == ["|"] + rest && tail[1] == rest[0] && tail[1..] == rest;
    } else {
      PlainSuffix(c, rest);
    }
  }

  lemma {:induction false} PrintParses(raw: seq<Cmd>, fromPipe: bool)
    requires Chain(raw, fromPipe)
    ensures StartsWithWord(Print(raw)) && (raw != [] ==> Print(raw) != [])
    ensures Parse(Print(raw), fromPipe) == Some(raw)
  {
    hide Stage, Suffix, StageOk;
    if raw == [] {
    } else {
      PrintParses(raw[1..], raw[0].piped);
      StageOfPrinted(raw[0], fromPipe, Print(raw[1..]));
      assert [raw[0]] + raw[1..] == raw;
    }
  }

  // ----- Marks -----

  lemma {:induction false} ChainAt(raw: seq<Cmd>, fromPipe: bool, k: nat)
    requires Chain(raw, fromPipe) && k < |raw|
    ensures StageOk(raw[k], if k == 0 then fromPipe else raw[k - 1].piped)
    ensures raw[k].piped ==> k + 1 < |raw| && !raw[k].bg
    decreases k
  {
    if k > 0 {
      ChainAt(raw[1..], raw[0].piped, k - 1);
    } else if raw[0].piped {
      assert raw[1..] != [];
    }
  }

  lemma {:induction false} ChainFrom(raw: seq<Cmd>, k: nat)
    requires Linked(raw) && k <= |raw|
    requires forall j :: 0 <= j < |raw| && raw[j].piped ==> !raw[j].bg
    ensures Chain(raw[k..], FedByPipe(raw, k))
    decreases |raw| - k
  {
    if k == |raw| {
    } else {
      ChainFrom(raw, k + 1);
      assert raw[k..][1..] == raw[k + 1..];
    }
  }

  lemma MarkedChainIsWellFormed(raw: seq<Cmd>)
    requires Chain(raw, false)
    ensures WellFormed(Mark(raw)) && Unmark(Mark(raw)) == raw
  {
    forall k | 0 <= k < |raw|
      ensures StageOk(raw[k], FedByPipe(raw, k))
      ensures raw[k].piped ==> k + 1 < |raw| && !raw[k].bg
    {
      ChainAt(raw, false, k);
    }
  }

  lemma WellFormedUnmarks(cs: seq<Cmd>)
    requires WellFormed(cs)
    ensures Chain(Unmark(cs), false) && Mark(Unmark(cs)) == cs
  {
    var raw := Unmark(cs);
    forall k | 0 <= k < |cs| ensures StageOk(raw[k], FedByPipe(raw, k)) {
      assert StageOk(cs[k], FedByPipe(cs, k));
    }
    ChainFrom(raw, 0);
    assert raw[0..] == raw;
    forall k | 0 <= k < |cs| ensures Mark(raw)[k] == cs[k] {
    }
  }

  lemma {:induction false} PrintUnmarked(cs: seq<Cmd>)
    ensures Print(Unmark(cs)) == Print(cs)
  {
    if cs == [] {
    } else {
      PrintUnmarked(cs[1..]);
      assert Unmark(cs)[1..] == Unmark(cs[1..]);
    }
  }

  // ----- Main results -----

  /** Whatever the grammar accepts is a well-formed vector. */
  lemma CompiledIsWellFormed(ts: seq<Token>)
    requires StartsWithWord(ts) && Compile(ts).Some?
    ensures WellFormed(Compile(ts).value)
  {
    ParseChains(ts, false);
    MarkedChainIsWellFormed(Parse(ts, false).value);
  }

  /** Pipe ends come in pairs: a command writes to a pipe exactly when the next one exists and reads from it. */
  lemma PipeEndsMatch(ts: seq<Token>)
    requires StartsWithWord(ts) && Compile(ts).Some?
    ensures var cs := Compile(ts).value;
      && (forall k :: 0 <= k < |cs| ==>
            && cs[k].argv != []
            && (cs[k].piped <==> cs[k].output == 2)
            && (cs[k].output == 1 || cs[k].output == 2) && (cs[k].input == 0 || cs[k].input == 2)
            && (cs[k].piped <==> k + 1 < |cs| && cs[k + 1].input == 2))
      && (cs != [] ==> cs[0].input == 0 && cs[|cs| - 1].output == 1)
  {
    CompiledIsWellFormed(ts);
    hide Compile;
  }

  /** Printing a well-formed vector and compiling the tokens gives the vector back. */
  lemma PrintCompiles(cs: seq<Cmd>)
    requires WellFormed(cs)
    ensures StartsWithWord(Print(cs)) && Compile(Print(cs)) == Some(cs)
  {
    WellFormedUnmarks(cs);
    PrintParses(Unmark(cs), false);
    PrintUnmarked(cs);
  }

  /** The vectors the parser can produce are exactly the well-formed ones. */
  lemma WellFormedIsImage(cs: seq<Cmd>)
    ensures WellFormed(cs) <==> exists ts :: StartsWithWord(ts) && Compile(ts) == Some(cs)
  {
    if WellFormed(cs) {
      PrintCompiles(cs);
    }
    if ts :| StartsWithWord(ts) && Compile(ts) == Some(cs) {
      CompiledIsWellFormed(ts);
    }
  }

  predicate ValidTokens(c: Cmd) {
    && (forall t :: t in c.argv ==> ValidToken(t))
    && (c.outTo.Some? ==> ValidToken(c.outTo.value.target))
    && (c.inFrom.Some? ==> ValidToken(c.inFrom.value))
  }

  lemma {:induction false} PrintedTokensValid(cs: seq<Cmd>)
    requires forall c :: c in cs ==> ValidTokens(c)
    ensures forall t :: t in Print(cs) ==> ValidToken(t)
  {
    if cs == [] {
    } else {
      PrintedTokensValid(cs[1..]);
      assert ValidTokens(cs[0]);
      assert forall t :: t in Suffix(cs[0]) ==> ValidToken(t);
    }
  }

  /** From a command vector to text and back: the round trip through both passes. */
  lemma TextRoundTrip(cs: seq<Cmd>)
    requires WellFormed(cs) && forall c :: c in cs ==> ValidTokens(c)
    ensures var ts := Tokens(PrintText(cs)); StartsWithWord(ts) && Compile(ts) == Some(cs)
  {
    PrintedTokensValid(cs);
    JoinTokenises(Print(cs));
    PrintCompiles(cs);
  }

  // ----- Conservation of words -----

  /** The tokens that are words, in order. */
  function WordsOf(ts: seq<Token>): seq<Token> {
    if ts == [] then []
    else (if IsSep(ts[0]) then [] else [ts[0]]) + WordsOf(ts[1..])
  }

  /** Arguments, output target and input target of one command, in this order. */
  function Parts(c: Cmd): seq<Token> {
    c.argv + (if c.outTo.Some? then [c.outTo.value.target] else [])
           + (if c.inFrom.Some? then [c.inFrom.value] else [])
  }

  function AllParts(cs: seq<Cmd>): seq<Token> {
    if cs == [] then [] else Parts(cs[0]) + AllParts(cs[1..])
  }

  lemma {:induction false} WordsOfConcat(a: seq<Token>, b: seq<Token>)
    ensures WordsOf(a + b) == WordsOf(a) + WordsOf(b)
  {
    if a == [] {
      assert a + b == b;
    } else {
      assert (a + b)[1..] == a[1..] + b;
      WordsOfConcat(a[1..], b);
    }
  }

  lemma {:induction false} WordsOfDropped(ts: seq<Token>)
    ensures WordsOf(DropSeparators(ts)) == WordsOf(ts)
  {
    if StartsWithWord(ts) {
    } else {
      WordsOfDropped(ts[1..]);
    }
  }

  lemma OutClauseWords(ts: seq<Token>)
    requires OutClause(ts).Good?
    ensures var g := OutClause(ts);
            WordsOf(ts) == WordsOf(if g.item.Some? then [g.item.value.target] else []) + WordsOf(g.rest)
  {
    var g := OutClause(ts);
    if g.item.Some? {
      var n := |ts| - |g.rest|;
      assert ts == ts[..n] + g.rest;
      WordsOfConcat(ts[..n], g.rest);
      assert WordsOf([g.item.value.target]) == WordsOf(ts[..n]) by {
        assert ts[..n] == (if n == 2 then [">"] else [">", ">"]) + [g.item.value.target];
        WordsOfConcat(if n == 2 then [">"] else [">", ">"], [g.item.value.target]);
      }
    }
  }

  lemma InClauseWords(ts: seq<Token>)
    requires InClause(ts).Good?
    ensures var g := InClause(ts);
            WordsOf(ts) == WordsOf(if g.item.Some? then [g.item.value] else []) + WordsOf(g.rest)
  {
    var g := InClause(ts);
    if g.item.Some? {
      assert ts == ["<"] + ([ts[1]] + ts[2..]);
      WordsOfConcat(["<"], [ts[1]] + ts[2..]);
      WordsOfConcat([ts[1]], ts[2..]);
    }
  }

  lemma PlainWords(argv: seq<Token>, input: int, ts: seq<Token>)
    requires Plain(argv, input, ts).Accept?
    ensures var r := Plain(argv, input, ts);
            WordsOf(argv) + WordsOf(ts) == WordsOf(Parts(r.cmd)) + WordsOf(r.rest)
  {
    var r := Plain(argv, input, ts);
    var out := if r.cmd.outTo.Some? then [r.cmd.outTo.value.target] else [];
    var inp := if r.cmd.inFrom.Some? then [r.cmd.inFrom.value] else [];
    OutClauseWords(ts);
    InClauseWords(OutClause(ts).rest);
    WordsOfDropped(InClause(OutClause(ts).rest).rest);
    WordsOfConcat(argv + out, inp);
    WordsOfConcat(argv, out);
    Regroup(WordsOf(argv), WordsOf(out), WordsOf(inp), WordsOf(r.rest));
  }

  lemma StageWords(ts: seq<Token>, fromPipe: bool)
    requires ts != [] && StartsWithWord(ts) && Stage(ts, fromPipe).Accept?
    ensures var r := Stage(ts, fromPipe); WordsOf(ts) == WordsOf(Parts(r.cmd)) + WordsOf(r.rest)
  {
    var n := WordCount(ts);
    var argv, tail := ts[..n], ts[n..];
    assert ts == argv + tail;
    WordsOfConcat(argv, tail);
    if tail != [] && tail[0] == "|" {
      assert Parts(Stage(ts, fromPipe).cmd) == argv;
    } else {
      PlainWords(argv, if fromPipe then 2 else 0, tail);
    }
  }

  lemma {:induction false} ParseKeepsWords(ts: seq<Token>, fromPipe: bool)
    requires StartsWithWord(ts) && Parse(ts, fromPipe).Some?
    ensures WordsOf(AllParts(Parse(ts, fromPipe).value)) == WordsOf(ts)
    decreases |ts|
  {
    if ts == [] {
    } else {
      var r := Stage(ts, fromPipe);
      StageWords(ts, fromPipe);
      ParseKeepsWords(r.rest, r.cmd.piped);
      var raw := Parse(ts, fromPipe).value;
      assert raw[0] == r.cmd && raw[1..] == Parse(r.rest, r.cmd.piped).value;
      WordsOfConcat(Parts(raw[0]), AllParts(raw[1..]));
    }
  }

  lemma {:induction false} MarkKeepsParts(raw: seq<Cmd>, cs: seq<Cmd>)
    requires |raw| == |cs| && forall k :: 0 <= k < |raw| ==> Parts(raw[k]) == Parts(cs[k])
    ensures AllParts(raw) == AllParts(cs)
  {
    if raw == [] {
    } else {
      MarkKeepsParts(raw[1..], cs[1..]);
    }
  }

  /** No word of the line is lost, added or moved past another. */
  lemma CompileKeepsWords(ts: seq<Token>)
    requires StartsWithWord(ts) && Compile(ts).Some?
    ensures WordsOf(AllParts(Compile(ts).value)) == WordsOf(ts)
  {
    ParseKeepsWords(ts, false);
    var raw := Parse(ts, false).value;
    MarkKeepsParts(raw, Mark(raw));
  }
}
