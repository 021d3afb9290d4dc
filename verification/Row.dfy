/** What `get_line` sends to the terminal for each key, and for which runs the row stays in step with
    the buffer. */
module Row {
  import opened Common
  import opened LineBuffer
  import opened Terminal

  // ----- The row after the output for a key -----

  function ShownTyped(b: Buffer, screen: Screen, c: char): (r: Screen)
    requires Inside(b) && Ok(screen) && Typed(b, c).Some?
    ensures Ok(r)
  {
    if b.pos == b.length then if c == NUL then screen else Emit(screen, c)
    else
      var cells := Typed(b, c).value.cells;
      EmitAll(EmitAll(screen, cells[b.pos..StringEnd(cells, b.pos)]), Times(BS, b.length - b.pos))
  }

  function ShownErased(b: Buffer, screen: Screen): (r: Screen)
    requires Inside(b) && Ok(screen)
    ensures Ok(r)
  {
    if b.pos == 0 then screen
    else if b.pos == b.length then Emit(Emit(Emit(screen, BS), ' '), BS)
    else
      var right := Halves(b).right;
      EmitAll(EmitAll(EmitAll(Emit(screen, BS), right), "  "), Times(BS, |right| + 2))
  }

  function ShownRight(b: Buffer, screen: Screen): (r: Screen)
    requires Inside(b) && Ok(screen)
    ensures Ok(r)
  {
    if b.pos == b.length then screen
    else Emit(Emit(Emit(Emit(Emit(screen, ESC), '['), '3'), '~'), b.cells[b.pos])
  }

  function Shown(b: Buffer, screen: Screen, key: Key): (r: Screen)
    requires Inside(b) && Ok(screen) && Pressed(b, key).Some?
    ensures Ok(r)
  {
    match key
    case Insert(c) => ShownTyped(b, screen, c)
    case Backspace => ShownErased(b, screen)
    case Left => if b.pos == 0 then screen else Emit(screen, BS)
    case Right => ShownRight(b, screen)
    case _ => screen
  }

  /** The row with the prompt; from here on the leftmost place of the cursor is recorded. */
  function StartRow(prompt: string): (r: Screen)
    ensures Ok(r)
  {
    var s := EmitAll(Screen("", 0, Ground, 0), prompt);
    s.(leftmost := s.cursor)
  }

  function RowAfter(prompt: string, keys: seq<Key>): (r: Screen)
    requires After(keys).Some?
    ensures Ok(r)
  {
    if keys == [] then StartRow(prompt)
    else
      var m := |keys| - 1;
      Shown(After(keys[..m]).value, RowAfter(prompt, keys[..m]), keys[m])
  }

  // ----- The terminal row beside the buffer -----

  /** The row shows the prompt, the text and blanks; the cursor stands between the two halves and
      has never been left of the prompt's end. */
  predicate Synced(screen: Screen, prompt: string, st: Stacks) {
    && Ok(screen) && screen.mode.Ground? && screen.cursor == |prompt| + |st.left|
    && Shows(screen.cells, prompt + st.left + st.right)
    && RightOf(screen, |prompt|)
  }

  lemma OverwriteShows(cells: string, head: string, tail: string, text: string, m: nat)
    requires Shows(cells, head + tail) && AllPrintable(text)
    requires m <= |text| && |tail| <= |text|
    requires forall i :: m <= i < |text| ==> text[i] == ' '
    ensures Shows(Overwrite(cells, |head|, text), head + text[..m])
  {
    var r := Overwrite(cells, |head|, text);
    assert cells[..|head|] == (head + tail)[..|head|] == head;
    assert r[..|head| + |text|] == head + text;
    assert r[..|head| + m] == head + text[..m];
  }

  lemma TypedAtEnd(screen: Screen, prompt: string, st: Stacks, c: char)
    requires Synced(screen, prompt, st) && st.right == "" && Printable(c)
    ensures Synced(Emit(screen, c), prompt, Apply(st, Insert(c)))
  {
    assert prompt + st.left + st.right == prompt + st.left;
    assert prompt + (st.left + [c]) + st.right == prompt + st.left + [c];
  }

  lemma TypedInside(screen: Screen, prompt: string, st: Stacks, c: char)
    requires Synced(screen, prompt, st) && Printable(c) && AllPrintable(st.right)
    ensures Synced(EmitAll(EmitAll(screen, [c] + st.right), Times(BS, |st.right|)), prompt, Apply(st, Insert(c)))
  {
    hide Overwrite, EmitAll, Shows;
    var text := [c] + st.right;
    PrintableCons(c, st.right);
    PrintableEmitted(screen, text, |prompt|);
    BacksEmitted(EmitAll(screen, text), |st.right|, |prompt|);
    assert text[..|text|] == text;
    OverwriteShows(screen.cells, prompt + st.left, st.right, text, |text|);
    assert prompt + st.left + text == prompt + (st.left + [c]) + st.right;
  }

  lemma ErasedAtEnd(screen: Screen, prompt: string, st: Stacks)
    requires Synced(screen, prompt, st) && st.right == "" && st.left != ""
    ensures Synced(Emit(Emit(Emit(screen, BS), ' '), BS), prompt, Apply(st, Backspace))
  {
    var n := |st.left| - 1;
    var left := st.left[..n];
    assert prompt + left + st.right == prompt + left;
    assert (prompt + st.left + st.right)[..|prompt| + n] == prompt + left;
  }

  lemma OverwriteTwice(cells: string, p: nat, one: string, two: string)
    requires p <= |cells|
    ensures Overwrite(Overwrite(cells, p, one), p + |one|, two) == Overwrite(cells, p, one + two)
  {
  }

  lemma ErasedInside(screen: Screen, prompt: string, st: Stacks)
    requires Synced(screen, prompt, st) && AllPrintable(st.right) && st.left != ""
    ensures Synced(EmitAll(EmitAll(EmitAll(Emit(screen, BS), st.right), "  "), Times(BS, |st.right| + 2)),
                   prompt, Apply(st, Backspace))
  {
    hide Overwrite, EmitAll, Shows;
    var left, last := st.left[..|st.left| - 1], st.left[|st.left| - 1];
    var s1 := Emit(screen, BS);
    PrintableEmitted(s1, st.right, |prompt|);
    var s2 := EmitAll(s1, st.right);
    PrintableEmitted(s2, "  ", |prompt|);
    var s3 := EmitAll(s2, "  ");
    BacksEmitted(s3, |st.right| + 2, |prompt|);
    OverwriteTwice(screen.cells, s1.cursor, st.right, "  ");
    assert prompt + st.left + st.right == (prompt + left) + ([last] + st.right);
    OverwriteShows(screen.cells, prompt + left, [last] + st.right, st.right + "  ", |st.right|);
    assert (st.right + "  ")[..|st.right|] == st.right;
  }

  lemma MovedLeft(screen: Screen, prompt: string, st: Stacks)
    requires Synced(screen, prompt, st) && st.left != ""
    ensures Synced(Emit(screen, BS), prompt, Apply(st, Left))
  {
    var left, last := st.left[..|st.left| - 1], st.left[|st.left| - 1];
    assert prompt + left + ([last] + st.right) == prompt + st.left + st.right;
  }

  lemma MovedRight(screen: Screen, prompt: string, st: Stacks)
    requires Synced(screen, prompt, st) && st.right != "" && Printable(st.right[0])
    ensures Synced(Emit(screen, st.right[0]), prompt, Apply(st, Right))
  {
    var text := prompt + st.left + st.right;
    assert prompt + (st.left + [st.right[0]]) + st.right[1..] == text;
    assert text[screen.cursor] == st.right[0];
    assert screen.cells[..|text|][screen.cursor] == text[screen.cursor];
    assert screen.cells[screen.cursor := st.right[0]] == screen.cells;
  }

  lemma UnprintableAtEnd(screen: Screen, prompt: string, st: Stacks, c: char)
    requires Synced(screen, prompt, st) && st.right == "" && !Printable(c)
    ensures !Synced(if c == NUL then screen else Emit(screen, c), prompt, Apply(st, Insert(c)))
  {
  }

  lemma {:induction false} AdvanceBound(s: Screen, text: string)
    requires Ok(s) && AllPrintable(text)
    ensures var r := EmitAll(s, text); r.cursor <= s.cursor + |text| && (text != "" ==> !r.mode.Escape?)
  {
    if text == "" {
    } else {
      AdvanceBound(s, text[..|text| - 1]);
    }
  }

  lemma {:induction false} RetreatBound(s: Screen, n: nat)
    requires Ok(s) && !s.mode.Escape?
    ensures var r := EmitAll(s, Times(BS, n));
      r.mode == s.mode && (s.mode.Ground? ==> r.cursor == if s.cursor >= n then s.cursor - n else 0)
  {
    if n == 0 {
    } else {
      assert Times(BS, n)[..n - 1] == Times(BS, n - 1);
      RetreatBound(s, n - 1);
    }
  }

  lemma {:induction false} EmitFirst(s: Screen, c: char, text: string)
    requires Ok(s)
    ensures EmitAll(s, [c] + text) == EmitAll(Emit(s, c), text)
  {
    hide Emit;
    if text == "" {
      assert [c] + text == "" + [c];
      EmitNext(s, "", c);
    } else {
      var n := |text| - 1;
      EmitFirst(s, c, text[..n]);
      assert [c] + text == ([c] + text[..n]) + [text[n]];
      EmitNext(s, [c] + text[..n], text[n]);
    }
  }

  /** The cursor gains at most the width of the right half, and then loses it again. */
  lemma UnprintableInside(screen: Screen, prompt: string, st: Stacks, c: char)
    requires Synced(screen, prompt, st) && st.right != "" && AllPrintable(st.right) && !Printable(c)
    ensures var text := if c == NUL then "" else [c] + st.right;
      !Synced(EmitAll(EmitAll(screen, text), Times(BS, |st.right|)), prompt, Apply(st, Insert(c)))
  {
    hide EmitAll, Shows;
    if c == NUL {
      EmptyText(screen);
      RetreatBound(screen, |st.right|);
    } else {
      EmitFirst(screen, c, st.right);
      AdvanceBound(Emit(screen, c), st.right);
      RetreatBound(EmitAll(screen, [c] + st.right), |st.right|);
    }
  }

  lemma EmptyText(screen: Screen)
    requires Ok(screen)
    ensures EmitAll(screen, "") == screen
  {
  }

  // ----- Printable text -----

  predicate PrintableKey(key: Key) {
    key.Insert? ==> Printable(key.c)
  }

  predicate PrintableText(st: Stacks) {
    AllPrintable(st.left) && AllPrintable(st.right)
  }

  lemma ApplyPrintable(st: Stacks, key: Key)
    requires PrintableText(st) && PrintableKey(key)
    ensures PrintableText(Apply(st, key)) && KeySafe(st, key)
  {
    PrintableHasNulTail(st.right);
  }

  lemma SyncedGround(screen: Screen, prompt: string, st: Stacks)
    requires Synced(screen, prompt, st)
    ensures Ok(screen) && screen.mode.Ground?
  {
  }

  lemma PrintableCons(c: char, s: string)
    requires Printable(c) && AllPrintable(s)
    ensures AllPrintable([c] + s)
  {
  }

  lemma PrintableHasNulTail(s: string)
    requires AllPrintable(s)
    ensures NulTail(s)
  {
    assert forall i :: 0 <= i < |s| ==> Printable(s[i]);
  }

  lemma NoNulEnd(s: string, p: nat, n: nat)
    requires p <= n < |s| && s[n] == NUL && Terminated(s) && NoNul(s[p..n])
    ensures StringEnd(s, p) == n
  {
    StringEndBound(s, p, n);
    forall k | p <= k < n ensures s[k] != NUL {
      assert s[p..n][k - p] != NUL;
    }
  }

  lemma PrintableNoNul(c: char, s: string)
    requires AllPrintable(s)
    ensures c != NUL ==> NoNul([c] + s)
  {
  }

  lemma TypedRoom(b: Buffer, c: char)
    requires Inside(b) && Typed(b, c).Some?
    ensures b.length + 1 < LINE_SIZE
  {
  }

  /** What stands at the cursor once the symbol is in its cell. */
  lemma ShownTail(b: Buffer, c: char)
    requires Inside(b) && Closed(b) && b.pos < b.length && Typed(b, c).Some? && AllPrintable(Halves(b).right)
    ensures var r, right := Typed(b, c).value, Halves(b).right;
      && r.cells[b.pos..StringEnd(r.cells, b.pos)] == (if c == NUL then "" else [c] + right)
      && Halves(r) == Apply(Halves(b), Insert(c))
  {
    hide ShiftRight, StringEnd, NulTail;
    var r, right := Typed(b, c).value, Halves(b).right;
    PrintableHasNulTail(right);
    PrintableNoNul(c, right);
    TypedIff(b, c);
    SliceHead(r.cells, b.pos, r.length);
    assert r.cells[..r.pos][b.pos] == (Halves(b).left + [c])[b.pos];
    if c == NUL {
      StringEndBound(r.cells, b.pos, b.pos);
    } else {
      NoNulEnd(r.cells, b.pos, r.length);
    }
  }

  // ----- Buffer and row together -----

  predicate InRow(b: Buffer, screen: Screen, prompt: string)
    requires Inside(b)
  {
    Synced(screen, prompt, Halves(b))
  }

  /** In step, with nothing behind the text and only printable symbols right of the cursor. */
  predicate ReadyRow(b: Buffer, screen: Screen, prompt: string)
    requires Inside(b)
  {
    InRow(b, screen, prompt) && Closed(b) && AllPrintable(Halves(b).right)
  }

  /** The same with printable symbols on both sides. */
  predicate TidyRow(b: Buffer, screen: Screen, prompt: string)
    requires Inside(b)
  {
    ReadyRow(b, screen, prompt) && AllPrintable(Halves(b).left)
  }

  /** A typed symbol leaves the row in step if and only if it is printable. */
  lemma TypedRow(b: Buffer, screen: Screen, prompt: string, c: char)
    requires Inside(b) && Ok(screen) && ReadyRow(b, screen, prompt) && Typed(b, c).Some?
    ensures InRow(Typed(b, c).value, ShownTyped(b, screen, c), prompt) <==> Printable(c)
  {
    hide Synced, EmitAll, StringEnd, NulTail, Typed, AllPrintable, Apply;
    var st := Halves(b);
    TypedRoom(b, c);
    PrintableHasNulTail(st.right);
    TypedIff(b, c);
    if b.pos == b.length {
      assert st.right == "";
      if Printable(c) {
        TypedAtEnd(screen, prompt, st, c);
      } else {
        UnprintableAtEnd(screen, prompt, st, c);
      }
    } else {
      ShownTail(b, c);
      if Printable(c) {
        PrintableIsNoNul(c);
        TypedInside(screen, prompt, st, c);
      } else {
        UnprintableInside(screen, prompt, st, c);
      }
    }
  }

  lemma PrintableIsNoNul(c: char)
    requires Printable(c)
    ensures c != NUL
  {
  }

  lemma ErasedRow(b: Buffer, screen: Screen, prompt: string)
    requires Inside(b) && Ok(screen) && ReadyRow(b, screen, prompt)
    ensures InRow(Erased(b), ShownErased(b, screen), prompt)
  {
    hide Synced, EmitAll, NulTail, AllPrintable, Apply, Erased;
    var st := Halves(b);
    if b.pos == 0 {
      NothingToErase(b);
    } else {
      PrintableHasNulTail(st.right);
      ErasedIff(b);
      if b.pos == b.length {
        assert st.right == "";
        ErasedAtEnd(screen, prompt, st);
      } else {
        ErasedInside(screen, prompt, st);
      }
    }
  }

  lemma LeftRow(b: Buffer, screen: Screen, prompt: string)
    requires Inside(b) && Ok(screen) && InRow(b, screen, prompt)
    ensures InRow(Pressed(b, Left).value, Shown(b, screen, Left), prompt)
  {
    hide Synced, Apply;
    LeftFollows(b);
    if b.pos > 0 {
      MovedLeft(screen, prompt, Halves(b));
    } else {
      NoneLeft(Halves(b));
    }
  }

  lemma NoneLeft(st: Stacks)
    ensures st.left == "" ==> Apply(st, Left) == st
    ensures st.right == "" ==> Apply(st, Right) == st
  {
  }

  lemma RightRow(b: Buffer, screen: Screen, prompt: string)
    requires Inside(b) && Ok(screen) && InRow(b, screen, prompt) && AllPrintable(Halves(b).right)
    ensures InRow(Pressed(b, Right).value, Shown(b, screen, Right), prompt)
  {
    hide Synced, Apply;
    RightFollows(b);
    if b.pos < b.length {
      SyncedGround(screen, prompt, Halves(b));
      PrivateSequenceIgnored(screen);
      MovedRight(screen, prompt, Halves(b));
    } else {
      NoneLeft(Halves(b));
    }
  }

  /** A key leaves a tidy row in step, and tidy, if and only if it is no unprintable symbol. */
  lemma PressedRow(b: Buffer, screen: Screen, prompt: string, key: Key)
    requires Inside(b) && Ok(screen) && TidyRow(b, screen, prompt) && Pressed(b, key).Some?
    ensures InRow(Pressed(b, key).value, Shown(b, screen, key), prompt) <==> PrintableKey(key)
    ensures TidyRow(Pressed(b, key).value, Shown(b, screen, key), prompt) <==> PrintableKey(key)
  {
    hide Synced, Typed, Erased, Closed, AllPrintable, Apply, KeySafe, ShownTyped, ShownErased, ShownRight, Halves;
    if PrintableKey(key) {
      ApplyPrintable(Halves(b), key);
      PressedRoom(b, key);
      PressedIff(b, key);
    }
    match key {
      case Insert(c) => TypedRow(b, screen, prompt, c);
      case Backspace => ErasedRow(b, screen, prompt);
      case Left => LeftRow(b, screen, prompt);
      case Right => RightRow(b, screen, prompt);
      case _ =>
    }
  }

  lemma PressedRoom(b: Buffer, key: Key)
    requires Inside(b) && Pressed(b, key).Some?
    ensures key.Insert? ==> b.length + 1 < LINE_SIZE
  {
  }

  // ----- Whole runs -----

  predicate InStep(prompt: string, keys: seq<Key>) {
    After(keys).Some? && InRow(After(keys).value, RowAfter(prompt, keys), prompt)
  }

  lemma {:induction false} AfterPrefix(keys: seq<Key>, n: nat)
    requires n <= |keys| && After(keys).Some?
    ensures After(keys[..n]).Some?
    decreases |keys|
  {
    if n == |keys| {
      assert keys[..n] == keys;
    } else {
      AfterPrefix(keys[..|keys| - 1], n);
      assert keys[..|keys| - 1][..n] == keys[..n];
    }
  }

  /** The row is in step with the buffer at every point of the run. */
  predicate StaysInStep(prompt: string, keys: seq<Key>) {
    forall n :: 0 <= n <= |keys| ==> InStep(prompt, keys[..n])
  }

  predicate AllPrintableKeys(keys: seq<Key>) {
    forall k :: 0 <= k < |keys| ==> PrintableKey(keys[k])
  }

  lemma StaysFront(prompt: string, keys: seq<Key>)
    requires keys != []
    ensures StaysInStep(prompt, keys) <==> StaysInStep(prompt, keys[..|keys| - 1]) && InStep(prompt, keys)
  {
    hide InStep;
    var front := keys[..|keys| - 1];
    assert forall n :: 0 <= n <= |front| ==> front[..n] == keys[..n];
    assert keys[..|keys|] == keys;
  }

  lemma StartTidy(prompt: string)
    requires AllPrintable(prompt)
    ensures TidyRow(Start(), StartRow(prompt), prompt)
  {
    PrintableEmitted(Screen("", 0, Ground, 0), prompt, 0);
    assert Halves(Start()) == Stacks("", "") && prompt + "" + "" == prompt;
  }

  lemma StartStays(prompt: string)
    requires AllPrintable(prompt)
    ensures After([]) == Some(Start()) && StaysInStep(prompt, [])
  {
    StartTidy(prompt);
    var none: seq<Key> := [];
    assert none[..0] == none;
  }

  /** For every run that fits into the buffer: the row is in step throughout if and only if no unprintable symbol is
      typed; and then it is tidy. */
  lemma {:induction false} StaysInStepIff(prompt: string, keys: seq<Key>)
    requires AllPrintable(prompt) && After(keys).Some?
    ensures StaysInStep(prompt, keys) <==> AllPrintableKeys(keys)
    ensures AllPrintableKeys(keys) ==> TidyRow(After(keys).value, RowAfter(prompt, keys), prompt)
  {
    hide TidyRow, InRow, Pressed, Shown, PrintableKey, StaysInStep;
    if keys == [] {
      StartTidy(prompt);
      StartStays(prompt);
    } else {
      var m := |keys| - 1;
      StaysInStepIff(prompt, keys[..m]);
      StaysFront(prompt, keys);
      if AllPrintableKeys(keys[..m]) {
        PressedRow(After(keys[..m]).value, RowAfter(prompt, keys[..m]), prompt, keys[m]);
      }
    }
  }

  /** Ctrl-H, which is typed as the backspace character, on an empty line: the cursor is now on the prompt. */
  lemma CtrlHLeavesPrompt(prompt: string)
    requires AllPrintable(prompt) && prompt != ""
    ensures After([Insert(BS)]).Some? && Safe([Insert(BS)]) && !StaysInStep(prompt, [Insert(BS)])
    ensures var r := RowAfter(prompt, [Insert(BS)]); r.cursor == |prompt| - 1 && !RightOf(r, |prompt|)
  {
    var keys: seq<Key> := [Insert(BS)];
    assert keys[..0] == [] && keys[0] == Insert(BS);
    StartTidy(prompt);
    StartRowCursor(prompt);
    UnsafeNeedsNul(keys);
    StaysInStepIff(prompt, keys);
    assert !PrintableKey(keys[0]);
  }

  lemma StartRowCursor(prompt: string)
    requires AllPrintable(prompt)
    ensures StartRow(prompt).cursor == |prompt| && StartRow(prompt).mode.Ground?
  {
    PrintableEmitted(Screen("", 0, Ground, 0), prompt, 0);
  }
}
