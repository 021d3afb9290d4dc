/** One row of a terminal, as far as the line editor uses it. */
module Terminal {
  import opened Common

  const BS: char := 8 as char
  const ESC: char := 27 as char

  /** Ground state, after ESC, or inside a control sequence (section 5.4 of ECMA-48). */
  datatype Mode = Ground | Escape | Control

  /** `leftmost` is history: the leftmost place the cursor has been since it was last set. */
  datatype Screen = Screen(cells: string, cursor: nat, mode: Mode, leftmost: nat)

  predicate Printable(c: char) {
    ' ' <= c <= '~'
  }

  predicate AllPrintable(s: string) {
    forall i :: 0 <= i < |s| ==> Printable(s[i])
  }

  predicate Ok(s: Screen) {
    s.cursor <= |s.cells|
  }

  /** The cursor stays right of column `p`, now and before. */
  predicate RightOf(s: Screen, p: nat) {
    s.leftmost >= p && s.cursor >= p
  }

  /** Cells that were never written are blank and not stored. */
  function Emit(s: Screen, c: char): (r: Screen)
    requires Ok(s)
    ensures Ok(r)
  {
    match s.mode
    case Ground =>
      if c == BS then Moved(s, if s.cursor == 0 then 0 else s.cursor - 1)
      else if c == ESC then s.(mode := Escape)
      else if Printable(c) then
        s.(cells := if s.cursor < |s.cells| then s.cells[s.cursor := c] else s.cells + [c], cursor := s.cursor + 1)
      else s
    case Escape => s.(mode := if c == '[' then Control else Ground)
    case Control => if '@' <= c <= '~' then s.(mode := Ground) else s
  }

  function Moved(s: Screen, cursor: nat): Screen {
    s.(cursor := cursor, leftmost := if cursor < s.leftmost then cursor else s.leftmost)
  }

  function EmitAll(s: Screen, text: string): (r: Screen)
    requires Ok(s)
    ensures Ok(r)
  {
    if text == "" then s else Emit(EmitAll(s, text[..|text| - 1]), text[|text| - 1])
  }

  /** `text` written over `cells` from column `p` on. */
  function Overwrite(cells: string, p: nat, text: string): (r: string)
    requires p <= |cells|
    ensures p + |text| <= |r|
  {
    cells[..p] + text + if p + |text| <= |cells| then cells[p + |text|..] else ""
  }

  lemma {:induction false} PrintableEmitted(s: Screen, text: string, p: nat)
    requires Ok(s) && s.mode.Ground? && AllPrintable(text) && RightOf(s, p)
    ensures var r := EmitAll(s, text);
      r.mode.Ground? && r.cells == Overwrite(s.cells, s.cursor, text) && r.cursor == s.cursor + |text| && RightOf(r, p)
  {
    if text == "" {
    } else {
      var n := |text| - 1;
      PrintableEmitted(s, text[..n], p);
      OverwriteNext(s.cells, s.cursor, text);
    }
  }

  lemma OverwriteNext(cells: string, p: nat, text: string)
    requires p <= |cells| && text != ""
    ensures var n := |text| - 1; var before := Overwrite(cells, p, text[..n]);
      Overwrite(cells, p, text) ==
        if p + n < |before| then before[p + n := text[n]] else before + [text[n]]
  {
  }

  lemma {:induction false} BacksEmitted(s: Screen, n: nat, p: nat)
    requires Ok(s) && s.mode.Ground? && RightOf(s, p) && s.cursor >= p + n
    ensures var r := EmitAll(s, Times(BS, n));
      r.mode.Ground? && r.cells == s.cells && r.cursor == s.cursor - n && RightOf(r, p)
  {
    if n == 0 {
    } else {
      assert Times(BS, n)[..n - 1] == Times(BS, n - 1);
      BacksEmitted(s, n - 1, p);
    }
  }

  lemma EmitNext(s: Screen, text: string, c: char)
    requires Ok(s)
    ensures EmitAll(s, text + [c]) == Emit(EmitAll(s, text), c)
  {
    assert (text + [c])[..|text|] == text;
  }

  /** The control sequence the editor sends before it moves right has no effect. */
  lemma PrivateSequenceIgnored(s: Screen)
    requires Ok(s) && s.mode.Ground?
    ensures Emit(Emit(Emit(Emit(s, ESC), '['), '3'), '~') == s
  {
  }

  /** The row shows `text`, and blanks from there on. */
  predicate Shows(cells: string, text: string) {
    && |text| <= |cells| && cells[..|text|] == text
    && forall i :: |text| <= i < |cells| ==> cells[i] == ' '
  }
}
