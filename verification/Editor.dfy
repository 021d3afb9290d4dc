/** The line editor `get_line`: the buffer of `LineBuffer`, edited in place, and the characters sent
    to the terminal row of `Row`. */
module Editor {
  import opened Common
  import opened LineBuffer
  import opened Row
  import opened Terminal

  class LineEditor {
    const prompt: string
    var line: array<char>
    var pos: nat
    var length: nat
    var screen: Screen

    ghost function Contents(): Buffer
      reads this, line
    {
      Buffer(line[..], pos, length)
    }

    ghost predicate Valid()
      reads this, line
    {
      Inside(Contents()) && Ok(screen)
    }

    /** The two halves around the cursor. */
    ghost function View(): Stacks
      reads this, line
      requires Valid()
    {
      Halves(Contents())
    }

    ghost predicate InSync()
      reads this, line
      requires Valid()
    {
      InRow(Contents(), screen, prompt)
    }

    /** In step, with nothing behind the text and only printable symbols right of the cursor. */
    ghost predicate Ready()
      reads this, line
      requires Valid()
    {
      ReadyRow(Contents(), screen, prompt)
    }

    /** The same with printable symbols on both sides. */
    ghost predicate Tidy()
      reads this, line
      requires Valid()
    {
      TidyRow(Contents(), screen, prompt)
    }

    constructor (prompt: string)
      requires AllPrintable(prompt)
      ensures Valid() && Contents() == Start() && screen == StartRow(prompt) && Tidy()
      ensures this.prompt == prompt && fresh(line)
    {
      this.prompt := prompt;
      line := new char[LINE_SIZE](_ => NUL);
      pos, length := 0, 0;
      screen := Screen("", 0, Ground, 0);
      new;
      assert line[..] == Start().cells;
      Say(prompt);
      screen := screen.(leftmost := screen.cursor);
      StartTidy(prompt);
    }

    method SayC(c: char)
      requires Ok(screen)
      modifies `screen
      ensures Ok(screen) && screen == Emit(old(screen), c)
    {
      screen := Emit(screen, c);
    }

    method Say(message: string)
      requires Ok(screen)
      modifies `screen
      ensures Ok(screen) && screen == EmitAll(old(screen), message)
    {
      var i := 0;
      while i < |message|
        invariant i <= |message| && Ok(screen)
        invariant screen == EmitAll(old(screen), message[..i])
      {
        EmitNext(old(screen), message[..i], message[i]);
        assert message[..i + 1] == message[..i] + [message[i]];
        SayC(message[i]);
        i := i + 1;
      }
      assert message[..i] == message;
    }

    /** `sayc(line[i])` for the cells from `p` to `q`. */
    method SayCells(p: nat, q: nat)
      requires Ok(screen) && p <= q <= line.Length
      modifies `screen
      ensures Ok(screen) && screen == EmitAll(old(screen), line[p..q])
    {
      var i := p;
      while i < q
        invariant p <= i <= q && Ok(screen)
        invariant screen == EmitAll(old(screen), line[p..i])
      {
        EmitNext(old(screen), line[p..i], line[i]);
        assert line[p..i + 1] == line[p..i] + [line[i]];
        SayC(line[i]);
        i := i + 1;
      }
    }

    method SayBacks(n: nat)
      requires Ok(screen)
      modifies `screen
      ensures Ok(screen) && screen == EmitAll(old(screen), Times(BS, n))
    {
      var i := 0;
      while i < n
        invariant i <= n && Ok(screen)
        invariant screen == EmitAll(old(screen), Times(BS, i))
      {
        EmitNext(old(screen), Times(BS, i), BS);
        assert Times(BS, i + 1) == Times(BS, i) + [BS];
        SayC(BS);
        i := i + 1;
      }
    }

    /** `say(line + p)`: the C string at `p`. */
    method SayFrom(p: nat)
      requires Ok(screen) && p < line.Length && Terminated(line[..])
      modifies `screen
      ensures Ok(screen) && screen == EmitAll(old(screen), line[p..StringEnd(line[..], p)])
    {
      ghost var e := StringEnd(line[..], p);
      var n := p;
      while line[n] != NUL
        invariant p <= n <= e
        decreases e - n
      {
        n := n + 1;
      }
      SayCells(p, n);
    }

    /** A symbol typed at the end of the line. */
    method TypeAtEnd(c: char)
      requires Valid() && pos == length && length + 1 < LINE_SIZE
      modifies this`pos, this`length, this`screen, line
      ensures Valid() && Contents() == Typed(old(Contents()), c).value
      ensures screen == ShownTyped(old(Contents()), old(screen), c)
    {
      if c != NUL {
        SayC(c);
      }
      line[pos] := c;
      pos := pos + 1;
      length := length + 1;
    }

    /** A symbol typed before the end of the line: the shift, the C string from the cursor on, and back. */
    method TypeInside(c: char)
      requires Valid() && pos < length && Typed(Contents(), c).Some?
      modifies this`pos, this`length, this`screen, line
      ensures Valid() && Contents() == Typed(old(Contents()), c).value
      ensures screen == ShownTyped(old(Contents()), old(screen), c)
    {
      hide EmitAll, StringEnd, ShiftRight;
      StrShr(line, pos, 1);
      line[pos] := c;
      SayFrom(pos);
      SayBacks(length - pos);
      pos := pos + 1;
      length := length + 1;
    }

    /** A symbol is typed. */
    method TypeSymbol(c: char)
      requires Valid() && Typed(Contents(), c).Some?
      modifies this`pos, this`length, this`screen, line
      ensures Valid() && Contents() == Typed(old(Contents()), c).value
      ensures screen == ShownTyped(old(Contents()), old(screen), c)
      ensures old(Closed(Contents())) ==>
        (View() == old(Apply(View(), Insert(c))) <==> NulTail(old(View().right)))
      ensures old(Ready()) ==> (InSync() <==> Printable(c))
    {
      hide InRow, Apply, NulTail, Closed, Typed, AllPrintable, ShownTyped;
      ghost var was, before := Contents(), screen;
      TypedRoom(was, c);
      if Closed(was) {
        TypedIff(was, c);
      }
      if pos == length {
        TypeAtEnd(c);
      } else {
        TypeInside(c);
      }
      if ReadyRow(was, before, prompt) {
        TypedRow(was, before, prompt, c);
      }
    }

    /** Backspace at the end of the line. */
    method EraseAtEnd()
      requires Valid() && pos == length && pos > 0
      modifies this`pos, this`length, this`screen, line
      ensures Valid() && Contents() == Erased(old(Contents()))
      ensures screen == ShownErased(old(Contents()), old(screen))
    {
      SayC(BS);
      SayC(' ');
      SayC(BS);
      pos := pos - 1;
      length := length - 1;
      line[pos] := NUL;
    }

    /** Backspace before the end of the line: the rest of the line one column to the left, two blanks, and back. */
    method EraseInside()
      requires Valid() && 0 < pos < length
      modifies this`pos, this`length, this`screen, line
      ensures Valid() && Contents() == Erased(old(Contents()))
      ensures screen == ShownErased(old(Contents()), old(screen))
    {
      hide EmitAll, ShiftLeft;
      assert line[pos..length] == View().right;
      SayC(BS);
      SayCells(pos, length);
      Say("  ");
      SayBacks(length - pos + 2);
      StrShl(line, pos, 1);
      pos := pos - 1;
      length := length - 1;
    }

    /** Backspace. */
    method Erase()
      requires Valid()
      modifies this`pos, this`length, this`screen, line
      ensures Valid() && Contents() == Erased(old(Contents()))
      ensures screen == ShownErased(old(Contents()), old(screen))
      ensures old(Closed(Contents())) ==>
        (View() == old(Apply(View(), Backspace)) <==> KeySafe(old(View()), Backspace))
      ensures old(Ready()) ==> InSync()
    {
      hide InRow, NulTail, Apply, Closed, AllPrintable;
      ghost var was, before := Contents(), screen;
      if ReadyRow(was, before, prompt) {
        ErasedRow(was, before, prompt);
      }
      if pos == 0 {
        NothingToErase(was);
        return;
      }
      if Closed(was) {
        ErasedIff(was);
      }
      if pos == length {
        EraseAtEnd();
      } else {
        EraseInside();
      }
    }

    method MoveRight()
      requires Valid()
      modifies this`pos, this`screen
      ensures Valid() && Contents() == Pressed(old(Contents()), Right).value
      ensures screen == ShownRight(old(Contents()), old(screen))
      ensures View() == old(Apply(View(), Right))
      ensures old(InSync()) && AllPrintable(old(View().right)) ==> InSync()
    {
      hide InRow, Apply, AllPrintable;
      ghost var was, before := Contents(), screen;
      RightFollows(was);
      if InRow(was, before, prompt) && AllPrintable(Halves(was).right) {
        RightRow(was, before, prompt);
      }
      if pos == length {
        return;
      }
      SayC(ESC);
      SayC('[');
      SayC('3');
      SayC('~');
      SayC(line[pos]);
      pos := pos + 1;
    }

    method MoveLeft()
      requires Valid()
      modifies this`pos, this`screen
      ensures Valid() && Contents() == Pressed(old(Contents()), Left).value
      ensures screen == Shown(old(Contents()), old(screen), Left)
      ensures View() == old(Apply(View(), Left))
      ensures old(InSync()) ==> InSync()
    {
      hide InRow, Apply;
      ghost var was, before := Contents(), screen;
      LeftFollows(was);
      if InRow(was, before, prompt) {
        LeftRow(was, before, prompt);
      }
      if pos == 0 {
        return;
      }
      SayC(BS);
      pos := pos - 1;
    }

    /** One turn of the loop of `get_line`, for any key and in any state of the buffer. */
    method Press(key: Key)
      requires Valid() && Pressed(Contents(), key).Some?
      modifies this`pos, this`length, this`screen, line
      ensures Valid() && Contents() == Pressed(old(Contents()), key).value
      ensures screen == Shown(old(Contents()), old(screen), key)
      ensures old(Closed(Contents())) ==>
        (View() == Apply(old(View()), key) <==> KeySafe(old(View()), key))
      ensures old(Tidy()) ==> (InSync() <==> PrintableKey(key)) && (Tidy() <==> PrintableKey(key))
    {
      hide InRow, TidyRow, Apply, Typed, Erased, Closed, KeySafe, Halves, PrintableKey;
      hide ShownTyped, ShownErased, ShownRight;
      ghost var was, before := Contents(), screen;
      PressedRoom(was, key);
      if Closed(was) {
        PressedIff(was, key);
      }
      if TidyRow(was, before, prompt) {
        PressedRow(was, before, prompt, key);
      }
      match key {
        case Insert(c) => TypeSymbol(c);
        case Backspace => Erase();
        case Left => MoveLeft();
        case Right => MoveRight();
        case _ =>
      }
    }

    /** A run of keys up to Return. If the text fits and the run is safe, the buffer holds the two stacks; if only
        printable symbols are typed, the row is in step as well. */
    method PressAll(keys: seq<Key>)
      requires Valid() && Contents() == Start() && screen == StartRow(prompt) && After(keys).Some?
      modifies this`pos, this`length, this`screen, line
      ensures Valid() && Contents() == After(keys).value && screen == RowAfter(prompt, keys)
      ensures Fits(keys) && Safe(keys) ==> Closed(Contents()) && View() == ApplyAll(keys)
      ensures AllPrintable(prompt) && AllPrintableKeys(keys) ==> Tidy()
    {
      hide After, RowAfter, Pressed, Shown, Start, StartRow, Closed, Safe, Fits, KeySafe, Apply, Halves, TidyRow, InRow;
      hide Inside, AllPrintable, AllPrintableKeys;
      AfterNone(prompt);
      var i := 0;
      while i < |keys|
        invariant i <= |keys|
        invariant Valid() && After(keys[..i]).Some? && Contents() == After(keys[..i]).value
        invariant screen == RowAfter(prompt, keys[..i])
      {
        AfterNext(prompt, keys, i);
        Press(keys[i]);
        i := i + 1;
      }
      assert keys[..i] == keys;
      if Fits(keys) && Safe(keys) {
        FollowsIff(keys);
        FollowsAgrees(keys);
      }
      if AllPrintable(prompt) {
        StaysInStepIff(prompt, keys);
      }
    }

    /** Return: the text is closed by a NUL, and its line breaks become spaces; nothing else changes. */
    method Return() returns (result: array<char>)
      requires Valid()
      modifies line
      ensures result == line && length < line.Length && line[length] == NUL
      ensures |old(Text(View()))| == length
      ensures forall k :: 0 <= k < length ==>
        var was := old(Text(View()))[k];
        line[k] != '\n' && line[k] != '\r' && (if was == '\n' || was == '\r' then line[k] == ' ' else line[k] == was)
    {
      ghost var text := line[..length];
      assert text == Text(View());
      line[length] := NUL;
      var i := 0;
      while i < length
        invariant i <= length && line[length] == NUL
        invariant forall k :: 0 <= k < i ==>
          line[k] == if text[k] == '\n' || text[k] == '\r' then ' ' else text[k]
        invariant forall k :: i <= k < length ==> line[k] == text[k]
      {
        if line[i] == '\n' || line[i] == '\r' {
          line[i] := ' ';
        }
        i := i + 1;
      }
      result := line;
    }
  }

  /** `get_line` for the keys typed before Return. The line returned holds the text of the buffer, with spaces for line
      breaks; after a safe run that fits this is the text of the two stacks, and without typed line breaks it is
      exactly that text. */
  method GetLine(prompt: string, keys: seq<Key>) returns (line: array<char>)
    requires AllPrintable(prompt) && After(keys).Some?
    ensures var text := Text(Halves(After(keys).value));
      && |text| < line.Length && line[|text|] == NUL
      && forall k :: 0 <= k < |text| ==>
           && line[k] != '\n' && line[k] != '\r'
           && (if text[k] == '\n' || text[k] == '\r' then line[k] == ' ' else line[k] == text[k])
    ensures Fits(keys) && Safe(keys) ==> Halves(After(keys).value) == ApplyAll(keys)
    ensures
      Fits(keys) && Safe(keys) && (forall k :: 0 <= k < |keys| && keys[k].Insert? ==> keys[k].c !in "\r\n") ==>
      var text := Text(ApplyAll(keys)); |text| < line.Length && line[..|text|] == text && line[|text|] == NUL
  {
    hide After, Halves, ApplyAll;
    var editor := new LineEditor(prompt);
    editor.PressAll(keys);
    ghost var text := Text(editor.View());
    line := editor.Return();
    if Fits(keys) && Safe(keys) && (forall k :: 0 <= k < |keys| && keys[k].Insert? ==> keys[k].c !in "\r\n") {
      assert forall k :: 0 <= k < |keys| && keys[k].Insert? && Break(keys[k].c) ==> keys[k].c in "\r\n";
      NoBreaksTyped(keys);
      TextNoBreaks(ApplyAll(keys));
      assert forall k :: 0 <= k < |text| ==> line[k] == text[k];
    }
  }

  lemma TextNoBreaks(st: Stacks)
    requires NoBreaks(st.left) && NoBreaks(st.right)
    ensures forall k :: 0 <= k < |Text(st)| ==> Text(st)[k] != '\n' && Text(st)[k] != '\r'
  {
    assert forall k :: 0 <= k < |st.left| ==> !Break(st.left[k]);
    assert forall k :: 0 <= k < |st.right| ==> !Break(st.right[k]);
  }

  /** Typing `b`, Left, NUL, Left and then `x` loses the `b`: the buffer shows two NULs where the stacks have
      a NUL and the `b`. */
  method NulBreaksRightHalf(prompt: string) returns (editor: LineEditor)
    requires AllPrintable(prompt)
    ensures After(LosingKeys()).Some?
    ensures editor.Valid() && editor.Contents() == After(LosingKeys()).value
    ensures editor.View() == Stacks("x", [NUL, NUL])
    ensures ApplyAll(LosingKeys()) == Stacks("x", [NUL, 'b'])
  {
    hide LosingKeys, After, ApplyAll, RowAfter, StartRow, Halves;
    LosingKeysLose();
    editor := new LineEditor(prompt);
    editor.PressAll(LosingKeys());
  }

  function LosingKeys(): seq<Key> {
    [Insert('b'), Left, Insert(NUL), Left, Insert('x')]
  }

  lemma LosingKeysLose()
    ensures After(LosingKeys()).Some? && Halves(After(LosingKeys()).value) == Stacks("x", [NUL, NUL])
    ensures ApplyAll(LosingKeys()) == Stacks("x", [NUL, 'b'])
  {
    BufferLoses();
    StacksKeep();
  }

  lemma BufferLoses()
    ensures After(LosingKeys()).Some? && Halves(After(LosingKeys()).value) == Stacks("x", [NUL, NUL])
  {
    hide After, ApplyAll, Pressed, Apply;
    var keys := LosingKeys();
    BrokenRun();
    KeyNext(keys, 0);
    KeyNext(keys, 1);
    KeyNext(keys, 2);
    KeyNext(keys, 3);
    KeyNext(keys, 4);
    assert keys[..5] == keys;
  }

  lemma StacksKeep()
    ensures ApplyAll(LosingKeys()) == Stacks("x", [NUL, 'b'])
  {
    hide After, ApplyAll, Pressed, Start;
    var keys := LosingKeys();
    KeyNext(keys, 0);
    KeyNext(keys, 1);
    KeyNext(keys, 2);
    KeyNext(keys, 3);
    KeyNext(keys, 4);
    assert keys[..5] == keys;
  }

  lemma BrokenRun()
    ensures var cells := Start().cells;
      var b1, b2 := Buffer(cells[0 := 'b'], 1, 1), Buffer(cells[0 := 'b'], 0, 1);
      var b3, b4 := Buffer(cells[1 := 'b'], 1, 2), Buffer(cells[1 := 'b'], 0, 2);
      var b5 := Buffer(cells[0 := 'x'], 1, 3);
      && Inside(b1) && Inside(b2) && Inside(b3) && Inside(b4) && Inside(b5)
      && Pressed(Start(), Insert('b')) == Some(b1) && Pressed(b1, Left) == Some(b2)
      && Pressed(b2, Insert(NUL)) == Some(b3) && Pressed(b3, Left) == Some(b4)
      && Pressed(b4, Insert('x')) == Some(b5) && Halves(b5) == Stacks("x", [NUL, NUL])
  {
    var cells := Start().cells;
    var one, two := cells[0 := 'b'], cells[1 := 'b'];
    assert StringEnd(one, 0) == 1 && StringEnd(two, 0) == 0;
    assert ShiftRight(one, 0, 1)[0 := NUL] == two;
    assert ShiftRight(two, 0, 1)[0 := 'x'] == cells[0 := 'x'];
  }

  lemma KeyNext(keys: seq<Key>, n: nat)
    requires n < |keys|
    ensures ApplyAll(keys[..0]) == Stacks("", "") && After(keys[..0]) == Some(Start())
    ensures ApplyAll(keys[..n + 1]) == Apply(ApplyAll(keys[..n]), keys[n])
    ensures After(keys[..n]).Some? ==> After(keys[..n + 1]) == Pressed(After(keys[..n]).value, keys[n])
  {
    assert keys[..n + 1][..n] == keys[..n];
  }

  lemma AfterNone(prompt: string)
    ensures After([]) == Some(Start()) && RowAfter(prompt, []) == StartRow(prompt)
  {
  }

  /** The loop step of a run that stays inside the buffer. */
  lemma AfterNext(prompt: string, keys: seq<Key>, n: nat)
    requires n < |keys| && After(keys).Some?
    ensures After(keys[..n]).Some? && After(keys[..n + 1]).Some?
    ensures var b := After(keys[..n]).value;
      && Pressed(b, keys[n]).Some? && After(keys[..n + 1]) == Pressed(b, keys[n])
      && RowAfter(prompt, keys[..n + 1]) == Shown(b, RowAfter(prompt, keys[..n]), keys[n])
  {
    AfterPrefix(keys, n + 1);
    AfterPrefix(keys, n);
    assert keys[..n + 1][..n] == keys[..n];
  }

  lemma FollowsAgrees(keys: seq<Key>)
    requires Follows(keys)
    ensures Agrees(keys)
  {
    assert keys[..|keys|] == keys;
  }
}
