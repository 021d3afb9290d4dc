/** The tokeniser of the shell: `is_space`, `skip_spaces`, `is_separator`, `get_arg`, `put`
    and the loop of `get_splitted`. A `string` stands for a C string without its NUL, and an
    offset into it for the place in the line that the source moves along. */
module Tokenizer {
  import opened Common

  const ARGS_SIZE: nat := 1024

  predicate IsSpace(c: char) {
    c == ' ' || c == '\t'
  }

  predicate IsSeparator(c: char) {
    c == ';' || c == '|' || c == '&' || c == '>' || c == '<'
  }

  predicate IsWordChar(c: char) {
    !IsSpace(c) && !IsSeparator(c)
  }

  predicate ValidToken(t: string) {
    t != "" && if IsSeparator(t[0]) then |t| == 1 else forall i :: 0 <= i < |t| ==> IsWordChar(t[i])
  }

  // ----- Specification -----

  /** Where the run of word characters that starts at `p` ends. */
  function WordEnd(line: string, p: nat): (q: nat)
    requires p <= |line|
    ensures p <= q <= |line|
    ensures forall i :: p <= i < q ==> IsWordChar(line[i])
    ensures q < |line| ==> !IsWordChar(line[q])
    decreases |line| - p
  {
    if p < |line| && IsWordChar(line[p]) then WordEnd(line, p + 1) else p
  }

  function TokenEnd(line: string, p: nat): (q: nat)
    requires p < |line| && !IsSpace(line[p])
    ensures p < q <= |line|
  {
    if IsSeparator(line[p]) then p + 1 else WordEnd(line, p)
  }

  function TokensFrom(line: string, p: nat): seq<string>
    requires p <= |line|
    decreases |line| - p
  {
    if p == |line| then []
    else if IsSpace(line[p]) then TokensFrom(line, p + 1)
    else [line[p..TokenEnd(line, p)]] + TokensFrom(line, TokenEnd(line, p))
  }

  function Tokens(line: string): seq<string> {
    TokensFrom(line, 0)
  }

  predicate Blank(line: string, p: nat, q: nat)
    requires q <= |line|
  {
    forall i :: p <= i < q ==> IsSpace(line[i])
  }

  function NoBlanks(line: string, p: nat): string
    requires p <= |line|
    decreases |line| - p
  {
    if p == |line| then ""
    else (if IsSpace(line[p]) then "" else [line[p]]) + NoBlanks(line, p + 1)
  }

  /** The tokens written out with one space between neighbours. */
  function Join(ts: seq<string>): string {
    if ts == [] then ""
    else if |ts| == 1 then ts[0]
    else ts[0] + " " + Join(ts[1..])
  }

  /** `t` stands at offset `b`, behind nothing but blanks from `p` on, and is a separator of one
      character or a word that cannot be made longer. */
  predicate TokenAt(line: string, p: nat, b: nat, t: string) {
    && p <= b < b + |t| <= |line|
    && Blank(line, p, b)
    && line[b..b + |t|] == t
    && if IsSeparator(line[b]) then |t| == 1
       else && (forall i :: b <= i < b + |t| ==> IsWordChar(line[i]))
            && (b + |t| == |line| || !IsWordChar(line[b + |t|]))
  }

  /** What it means for `ts` to be a tokenisation of the line from `p` on, said without an
      algorithm: separators and maximal words, with nothing but blanks between them. */
  ghost predicate Tokenises(line: string, p: nat, ts: seq<string>)
    requires p <= |line|
    decreases |ts|
  {
    if ts == [] then Blank(line, p, |line|)
    else exists b: nat :: TokenAt(line, p, b, ts[0]) && Tokenises(line, b + |ts[0]|, ts[1..])
  }

  // ----- Properties of the specification -----

  lemma {:induction false} SkipBlanks(line: string, p: nat, q: nat)
    requires p <= q <= |line| && Blank(line, p, q)
    ensures TokensFrom(line, p) == TokensFrom(line, q)
    decreases q - p
  {
    if p == q {
    } else {
      SkipBlanks(line, p + 1, q);
    }
  }

  /** A token behind blanks is the one the tokeniser takes. */
  lemma TakesToken(line: string, p: nat, b: nat, t: string)
    requires TokenAt(line, p, b, t)
    ensures TokensFrom(line, p) == [t] + TokensFrom(line, b + |t|)
    ensures ValidToken(t)
  {
    SkipBlanks(line, p, b);
    assert TokenEnd(line, b) == b + |t|;
    assert forall i :: 0 <= i < |t| ==> t[i] == line[b + i];
  }

  lemma {:induction false} TokenisationIsTokens(line: string, p: nat, ts: seq<string>)
    requires p <= |line| && Tokenises(line, p, ts)
    ensures TokensFrom(line, p) == ts
    decreases |ts|
  {
    hide TokenEnd, Blank;
    if ts == [] {
      SkipBlanks(line, p, |line|);
    } else {
      var t, rest := ts[0], ts[1..];
      HeadTail(ts);
      var b: nat :| TokenAt(line, p, b, t) && Tokenises(line, b + |t|, rest);
      TakesToken(line, p, b, t);
      TokenisationIsTokens(line, b + |t|, rest);
    }
  }

  lemma TokenisesAfterBlank(line: string, p: nat, ts: seq<string>)
    requires p < |line| && IsSpace(line[p]) && Tokenises(line, p + 1, ts)
    ensures Tokenises(line, p, ts)
  {
    if ts != [] {
      var b: nat :| TokenAt(line, p + 1, b, ts[0]) && Tokenises(line, b + |ts[0]|, ts[1..]);
      assert TokenAt(line, p, b, ts[0]);
    }
  }

  lemma TokenisesCons(line: string, p: nat, b: nat, t: string, ts: seq<string>)
    requires TokenAt(line, p, b, t) && Tokenises(line, b + |t|, ts)
    ensures Tokenises(line, p, [t] + ts)
  {
    var all := [t] + ts;
    assert all[0] == t && all[1..] == ts;
    assert TokenAt(line, p, b, all[0]) && Tokenises(line, b + |all[0]|, all[1..]);
  }

  lemma {:induction false} TokensTokenise(line: string, p: nat)
    requires p <= |line|
    ensures Tokenises(line, p, TokensFrom(line, p))
    decreases |line| - p
  {
    if p == |line| {
    } else if IsSpace(line[p]) {
      TokensTokenise(line, p + 1);
      TokenisesAfterBlank(line, p, TokensFrom(line, p + 1));
    } else {
      var q := TokenEnd(line, p);
      TokensTokenise(line, q);
      TokenisesCons(line, p, p, line[p..q], TokensFrom(line, q));
    }
  }

  /** The tokeniser yields the one and only tokenisation of the line. */
  lemma TokensCharacterised(line: string, ts: seq<string>)
    ensures Tokenises(line, 0, ts) <==> ts == Tokens(line)
  {
    TokensTokenise(line, 0);
    if Tokenises(line, 0, ts) {
      TokenisationIsTokens(line, 0, ts);
    }
  }

  lemma {:induction false} TokensValidFrom(line: string, p: nat)
    requires p <= |line|
    ensures forall t :: t in TokensFrom(line, p) ==> ValidToken(t)
    decreases |line| - p
  {
    if p == |line| {
    } else if IsSpace(line[p]) {
      TokensValidFrom(line, p + 1);
    } else {
      var q := TokenEnd(line, p);
      TokensValidFrom(line, q);
      TakesToken(line, p, p, line[p..q]);
    }
  }

  lemma {:induction false} NoBlanksOver(line: string, p: nat, q: nat)
    requires p <= q <= |line| && forall i :: p <= i < q ==> !IsSpace(line[i])
    ensures NoBlanks(line, p) == line[p..q] + NoBlanks(line, q)
    decreases q - p
  {
    if p == q {
    } else {
      NoBlanksOver(line, p + 1, q);
      SliceHead(line, p, q);
      Assoc([line[p]], line[p + 1..q], NoBlanks(line, q));
    }
  }

  lemma {:induction false} TokensKeepCharactersFrom(line: string, p: nat)
    requires p <= |line|
    ensures Flatten(TokensFrom(line, p)) == NoBlanks(line, p)
    decreases |line| - p
  {
    if p == |line| {
    } else if IsSpace(line[p]) {
      TokensKeepCharactersFrom(line, p + 1);
    } else {
      var q := TokenEnd(line, p);
      TokensKeepCharactersFrom(line, q);
      NoBlanksOver(line, p, q);
    }
  }

  /** Every token is a separator or a word, and no character but the blanks is lost or moved. */
  lemma TokensKeepCharacters(line: string)
    ensures forall t :: t in Tokens(line) ==> ValidToken(t)
    ensures Flatten(Tokens(line)) == NoBlanks(line, 0)
  {
    TokensValidFrom(line, 0);
    TokensKeepCharactersFrom(line, 0);
  }

  lemma CharFrom(line: string, off: nat, p: nat)
    requires off + p < |line|
    ensures line[off..][p] == line[off + p]
  {
  }

  lemma {:induction false} WordEndFrom(line: string, off: nat, p: nat)
    requires off + p <= |line|
    ensures WordEnd(line, off + p) == off + WordEnd(line[off..], p)
    decreases |line| - p
  {
    hide IsWordChar;
    if off + p < |line| {
      CharFrom(line, off, p);
      if IsWordChar(line[off + p]) {
        WordEndFrom(line, off, p + 1);
      }
    }
  }

  lemma SliceFrom(line: string, off: nat, p: nat, q: nat)
    requires p <= q && off + q <= |line|
    ensures line[off..][p..q] == line[off + p..off + q]
  {
  }

  lemma TokenEndFrom(line: string, off: nat, p: nat)
    requires off + p < |line| && !IsSpace(line[off + p])
    ensures !IsSpace(line[off..][p]) && TokenEnd(line, off + p) == off + TokenEnd(line[off..], p)
  {
    CharFrom(line, off, p);
    WordEndFrom(line, off, p);
  }

  /** The tokens from an offset on are those of the rest of the line. */
  lemma {:induction false} TokensOfRest(line: string, off: nat, p: nat)
    requires off + p <= |line|
    ensures TokensFrom(line, off + p) == TokensFrom(line[off..], p)
    decreases |line| - p
  {
    hide TokenEnd, IsSpace;
    if off + p == |line| {
    } else {
      CharFrom(line, off, p);
      if IsSpace(line[off + p]) {
        TokensOfRest(line, off, p + 1);
      } else {
        var q := TokenEnd(line[off..], p);
        TokenEndFrom(line, off, p);
        TokensOfRest(line, off, q);
        SliceFrom(line, off, p, q);
      }
    }
  }

  lemma TokensShift(a: string, b: string)
    ensures TokensFrom(a + b, |a|) == TokensFrom(b, 0)
  {
    assert (a + b)[|a|..] == b;
    TokensOfRest(a + b, |a|, 0);
  }

  lemma TokenAtFront(t: string, rest: string)
    requires ValidToken(t) && (rest == "" || IsSpace(rest[0]))
    ensures Tokens(t + rest) == [t] + TokensFrom(rest, 0)
  {
    var line := t + rest;
    assert line[0..|t|] == t;
    assert TokenAt(line, 0, 0, t);
    TakesToken(line, 0, 0, t);
    TokensShift(t, rest);
  }

  /** Writing tokens out and tokenising the text again gives the same tokens. */
  lemma {:induction false} JoinTokenises(ts: seq<string>)
    requires forall t :: t in ts ==> ValidToken(t)
    ensures Tokens(Join(ts)) == ts
  {
    if ts == [] {
    } else if |ts| == 1 {
      TokenAtFront(ts[0], "");
      assert ts[0] + "" == ts[0];
    } else {
      JoinTokenises(ts[1..]);
      TokenAtFront(ts[0], " " + Join(ts[1..]));
      TokensShift(" ", Join(ts[1..]));
      assert ts[0] + " " + Join(ts[1..]) == ts[0] + (" " + Join(ts[1..]));
    }
  }

  // ----- The characters that part words -----

  lemma {:induction false} WordEndBefore(a: string, rest: string, p: nat)
    requires p <= |a| && (rest == "" || !IsWordChar(rest[0]))
    ensures WordEnd(a + rest, p) == WordEnd(a, p)
    decreases |a| - p
  {
    hide IsWordChar;
    if p == |a| {
      assert rest != "" ==> (a + rest)[p] == rest[0];
    } else {
      assert (a + rest)[p] == a[p];
      if IsWordChar(a[p]) {
        WordEndBefore(a, rest, p + 1);
      }
    }
  }

  /** What ends a word parts the line: the tokens before it and those from it on. */
  lemma {:induction false} TokensPart(a: string, rest: string, p: nat)
    requires p <= |a| && (rest == "" || !IsWordChar(rest[0]))
    ensures TokensFrom(a + rest, p) == TokensFrom(a, p) + TokensFrom(a + rest, |a|)
    decreases |a| - p
  {
    hide IsWordChar, IsSpace;
    if p == |a| {
    } else {
      assert (a + rest)[p] == a[p];
      if IsSpace(a[p]) {
        TokensPart(a, rest, p + 1);
      } else {
        WordEndBefore(a, rest, p);
        var q := TokenEnd(a, p);
        TokensPart(a, rest, q);
        assert (a + rest)[p..q] == a[p..q];
        Assoc([a[p..q]], TokensFrom(a, q), TokensFrom(a + rest, |a|));
      }
    }
  }

  /** A space or a tab parts words and leaves no token. */
  lemma BlankParts(a: string, c: char, b: string)
    requires c == ' ' || c == '\t'
    ensures Tokens(a + [c] + b) == Tokens(a) + Tokens(b)
  {
    hide TokensFrom, TokenEnd;
    Assoc(a, [c], b);
    TokensPart(a, [c] + b, 0);
    TokensShift(a, [c] + b);
    SkipBlanks([c] + b, 0, 1);
    TokensShift([c], b);
  }

  /** Each of the five separators is a token of its own, with or without blanks around it. */
  lemma SeparatorParts(a: string, c: char, b: string)
    requires c in ";|&<>"
    ensures Tokens(a + [c] + b) == Tokens(a) + [[c]] + Tokens(b)
  {
    hide TokensFrom, TokenEnd;
    Assoc(a, [c], b);
    TokensPart(a, [c] + b, 0);
    TokensShift(a, [c] + b);
    var line := [c] + b;
    assert TokenAt(line, 0, 0, [c]);
    TakesToken(line, 0, 0, [c]);
    TokensShift([c], b);
    Assoc(Tokens(a), [[c]], Tokens(b));
  }

  /** Any other characters make one word. */
  lemma OthersMakeAWord(w: string)
    requires w != "" && forall i :: 0 <= i < |w| ==> w[i] !in " \t;|&<>"
    ensures Tokens(w) == [w]
  {
    assert forall i :: 0 <= i < |w| ==> IsWordChar(w[i]);
    TokenAtFront(w, "");
    assert w + "" == w;
  }

  // ----- The code -----

  method SkipSpaces(line: string, p: nat) returns (q: nat)
    requires p <= |line|
    ensures p <= q <= |line| && Blank(line, p, q)
    ensures q == |line| || !IsSpace(line[q])
  {
    q := p;
    while q < |line| && IsSpace(line[q])
      invariant p <= q <= |line| && Blank(line, p, q)
    {
      q := q + 1;
    }
  }

  /** `get_arg(line + start)`: one separator, or the longest run of word characters. */
  method GetArg(line: string, start: nat) returns (arg: string)
    requires start <= |line|
    ensures start < |line| && !IsSpace(line[start]) ==> TokenAt(line, start, start, arg)
    ensures start == |line| || IsSpace(line[start]) ==> arg == ""
  {
    var p := 0;
    if start < |line| && IsSeparator(line[start]) {
      p := 1;
    } else {
      while start + p < |line| && !IsSpace(line[start + p]) && !IsSeparator(line[start + p])
        invariant start + p <= |line|
        invariant forall i :: start <= i < start + p ==> IsWordChar(line[i])
      {
        p := p + 1;
      }
    }
    arg := line[start..start + p];
  }

  /** Appends `item` to the NULL-terminated vector; `ok == false` is the exit with E_MANYARGS. */
  method Put(vec: array<Option<string>>, item: string, ghost items: seq<string>) returns (ok: bool)
    requires vec.Length == ARGS_SIZE + 1 && Holds(vec, 0, items)
    modifies vec
    ensures ok <==> |items| + 1 <= ARGS_SIZE
    ensures Holds(vec, 0, if ok then items + [item] else items)
  {
    var i := 0;
    while vec[i] != None
      invariant i <= |items|
      invariant i < |items| ==> vec[i] == Some(items[i])
      decreases |items| - i
    {
      i := i + 1;
    }
    if i + 1 > ARGS_SIZE {
      return false;
    }
    vec[i] := Some(item);
    vec[i + 1] := None;
    ok := true;
  }

  /** The `$` at `p` is followed by the name of a variable that is set. Names are not delimited: any text right of the
      `$` counts, the empty one only at the end of the line. */
  ghost predicate NamesVariable(line: string, p: nat, vars: set<string>)
    requires p < |line|
  {
    var rest := line[p + 1..];
    line[p] == '$' && exists m :: 0 <= m <= |rest| && (m == 0 ==> rest == "") && rest[..m] in vars
  }

  /** The search of `unfold_variable(line + p)`: whether it finds something to replace. */
  method FindVariable(line: string, p: nat, vars: set<string>) returns (found: bool)
    requires p < |line|
    ensures found <==> NamesVariable(line, p, vars)
  {
    if line[p] != '$' {
      return false;
    }
    var rest := line[p + 1..];
    var i := |rest| + 1;
    while i >= 0
      invariant -1 <= i <= |rest| + 1
      invariant i <= |rest| ==> rest[..|rest|] !in vars
      invariant forall m :: i + 1 < m <= |rest| ==> rest[..m] !in vars
    {
      if rest[..if i < |rest| then i + 1 else |rest|] in vars {
        return true;
      }
      i := i - 1;
    }
    found := false;
  }

  ghost predicate Unfolds(line: string, vars: set<string>) {
    exists p :: 0 <= p < |line| && NamesVariable(line, p, vars)
  }

  /** A line is changed if and only if it holds a `$` and then the name of a variable that is set; the empty name counts
      at the end of the line only. */
  lemma UnfoldsIff(line: string, vars: set<string>)
    ensures Unfolds(line, vars) <==>
      exists a, name, b :: line == a + "$" + name + b && name in vars && (name == "" ==> b == "")
  {
    if Unfolds(line, vars) {
      var p :| 0 <= p < |line| && NamesVariable(line, p, vars);
      var rest := line[p + 1..];
      var m :| 0 <= m <= |rest| && (m == 0 ==> rest == "") && rest[..m] in vars;
      assert line == line[..p] + "$" + rest[..m] + rest[m..];
    }
    if a, name, b :| line == a + "$" + name + b && name in vars && (name == "" ==> b == "") {
      var rest := line[|a| + 1..];
      assert rest == name + b && rest[..|name|] == name;
      assert NamesVariable(line, |a|, vars);
    }
  }

  /** `Unfolded` is the case that the line itself is changed first. */
  datatype Splitting = Unfolded | TooMany | Split

  /** `get_splitted`, where `vars` are the names of the variables that are set. */
  method GetSplitted(line: string, vars: set<string>) returns (args: array<Option<string>>, result: Splitting)
    ensures fresh(args) && args.Length == ARGS_SIZE + 1
    ensures result == if Unfolds(line, vars) then Unfolded else if |Tokens(line)| > ARGS_SIZE then TooMany else Split
    ensures result.Split? ==> Holds(args, 0, Tokens(line))
  {
    args := new Option<string>[ARGS_SIZE + 1](_ => None);
    var pos := 0;
    while pos < |line|
      invariant pos <= |line| && Holds(args, 0, [])
      invariant forall p :: 0 <= p < pos ==> !NamesVariable(line, p, vars)
    {
      var found := FindVariable(line, pos, vars);
      if found {
        return args, Unfolded;
      }
      pos := pos + 1;
    }
    var ok := PutTokens(line, args);
    result := if ok then Split else TooMany;
  }

  /** The tokenising loop of `get_splitted`. */
  method PutTokens(line: string, args: array<Option<string>>) returns (ok: bool)
    requires args.Length == ARGS_SIZE + 1 && Holds(args, 0, [])
    modifies args
    ensures ok <==> |Tokens(line)| <= ARGS_SIZE
    ensures ok ==> Holds(args, 0, Tokens(line))
  {
    ghost var items: seq<string> := [];
    var p := 0;
    while p < |line|
      invariant p <= |line|
      invariant Holds(args, 0, items) && |items| <= ARGS_SIZE
      invariant Tokens(line) == items + TokensFrom(line, p)
    {
      var q := SkipSpaces(line, p);
      SkipBlanks(line, p, q);
      if q == |line| {
        p := q;
        break;
      }
      var arg := GetArg(line, q);
      TakesToken(line, q, q, arg);
      p := q + |arg|;
      Assoc(items, [arg], TokensFrom(line, p));
      ok := Put(args, arg, items);
      if !ok {
        return;
      }
      items := items + [arg];
    }
    ok := true;
  }
}
