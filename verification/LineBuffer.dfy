/** The buffer of the line editor `get_line`: what the in-place shifts `strshl` and `strshr` make of it,
    key by key, and when that is what an editor on two stacks does. */
module LineBuffer {
  import opened Common

  const LINE_SIZE: nat := 1024

  /** A key press; arrows are sequences of three bytes, of which only the last differs. */
  datatype Key = Insert(c: char) | Backspace | Left | Right | Up | Down | OtherEscape

  // ----- Specification: two stacks -----

  /** The text left and right of the cursor. */
  datatype Stacks = Stacks(left: string, right: string)

  function Apply(st: Stacks, key: Key): Stacks {
    match key
    case Insert(c) => Stacks(st.left + [c], st.right)
    case Backspace => if st.left == "" then st else Stacks(st.left[..|st.left| - 1], st.right)
    case Left => if st.left == "" then st
                 else Stacks(st.left[..|st.left| - 1], [st.left[|st.left| - 1]] + st.right)
    case Right => if st.right == "" then st else Stacks(st.left + [st.right[0]], st.right[1..])
    case _ => st
  }

  function ApplyAll(keys: seq<Key>): Stacks {
    if keys == [] then Stacks("", "") else Apply(ApplyAll(keys[..|keys| - 1]), keys[|keys| - 1])
  }

  function Text(st: Stacks): string {
    st.left + st.right
  }

  /** The text never has to be longer than the buffer can hold: the source does not test this. */
  predicate Fits(keys: seq<Key>) {
    forall n :: 0 <= n <= |keys| ==> |Text(ApplyAll(keys[..n]))| < LINE_SIZE
  }

  // ----- C strings in an array -----

  /** A string in an array that ends in NUL, so that every C string in it ends inside. */
  predicate Terminated(s: string) {
    s != "" && s[|s| - 1] == NUL
  }

  /** The index of the first NUL from `p` on: `p + strlen(str + p)`. */
  function StringEnd(s: string, p: nat): (e: nat)
    requires p < |s| && Terminated(s)
    ensures p <= e < |s| && s[e] == NUL
    ensures forall k :: p <= k < e ==> s[k] != NUL
    decreases |s| - p
  {
    if s[p] == NUL then p else StringEnd(s, p + 1)
  }

  /** Nothing but NULs follows the first NUL. */
  predicate NulTail(s: string) {
    forall i, j :: 0 <= i < j < |s| && s[i] == NUL ==> s[j] == NUL
  }

  /** The C string at `p`, with its NUL, moved `step` cells to the left. */
  function ShiftLeft(s: string, p: nat, step: nat): (r: string)
    requires step <= p < |s| && Terminated(s)
    ensures |r| == |s| && Terminated(r)
  {
    var e := StringEnd(s, p);
    seq(|s|, k requires 0 <= k < |s| => if p - step <= k <= e - step then s[k + step] else s[k])
  }

  /** The C string at `p` moved to the right, as far as it fits into one more cell than before. */
  function ShiftRight(s: string, p: nat, step: nat): (r: string)
    requires p < |s| && Terminated(s) && (step > 0 ==> StringEnd(s, p) + 1 < |s|)
    ensures |r| == |s| && Terminated(r)
  {
    var e := StringEnd(s, p);
    seq(|s|, k requires 0 <= k < |s| =>
      if step > 0 && k == e + 1 then NUL else if p + step <= k <= e then s[k - step] else s[k])
  }

  /** `strshl(str + p, step)`. */
  method StrShl(str: array<char>, p: nat, step: nat)
    requires step <= p < str.Length && Terminated(str[..])
    modifies str
    ensures str[..] == ShiftLeft(old(str[..]), p, step)
  {
    if step == 0 {
      return;
    }
    ghost var e := StringEnd(str[..], p);
    var i := p;
    while str[i] != NUL
      invariant p <= i <= e
      invariant forall k :: 0 <= k < str.Length ==>
        str[k] == if p - step <= k < i - step then old(str[k + step]) else old(str[k])
      decreases e - i
    {
      str[i - step] := str[i];
      i := i + 1;
    }
    str[i - step] := str[i];
  }

  /** `strshr(str + p, step)`. */
  method StrShr(str: array<char>, p: nat, step: nat)
    requires p < str.Length && Terminated(str[..]) && (step > 0 ==> StringEnd(str[..], p) + 1 < str.Length)
    modifies str
    ensures str[..] == ShiftRight(old(str[..]), p, step)
  {
    if step == 0 {
      return;
    }
    var len := 0;
    ghost var e := StringEnd(str[..], p);
    while str[p + len] != NUL
      invariant p + len <= e
      decreases e - (p + len)
    {
      len := len + 1;
    }
    str[p + len + 1] := NUL;
    var i := len;
    while i >= step
      invariant i <= len
      invariant forall k :: 0 <= k < str.Length ==>
        str[k] == if k == e + 1 then NUL
                  else if p + step <= k <= e && k > p + i then old(str[k - step]) else old(str[k])
    {
      str[p + i] := str[p + i - step];
      i := i - 1;
    }
  }

  // ----- The buffer, key by key -----

  datatype Buffer = Buffer(cells: string, pos: nat, length: nat)

  predicate Inside(b: Buffer) {
    |b.cells| == LINE_SIZE && b.pos <= b.length < LINE_SIZE && Terminated(b.cells)
  }

  /** Every cell from `length` on is NUL. */
  predicate Closed(b: Buffer) {
    forall k :: b.length <= k < |b.cells| ==> b.cells[k] == NUL
  }

  /** The buffer as the two halves around the cursor. */
  function Halves(b: Buffer): Stacks
    requires Inside(b)
  {
    Stacks(b.cells[..b.pos], b.cells[b.pos..b.length])
  }

  function Start(): (b: Buffer)
    ensures Inside(b) && Closed(b)
  {
    Buffer(seq(LINE_SIZE, i => NUL), 0, 0)
  }

  /** A symbol is typed; None when the text, or the C string that is moved, has no room for its NUL. */
  function Typed(b: Buffer, c: char): (r: Option<Buffer>)
    requires Inside(b)
    ensures r.Some? ==> Inside(r.value)
  {
    if b.length + 1 >= LINE_SIZE then None
    else if b.pos == b.length then Some(Buffer(b.cells[b.pos := c], b.pos + 1, b.length + 1))
    else if StringEnd(b.cells, b.pos) + 1 >= LINE_SIZE then None
    else Some(Buffer(ShiftRight(b.cells, b.pos, 1)[b.pos := c], b.pos + 1, b.length + 1))
  }

  function Erased(b: Buffer): (r: Buffer)
    requires Inside(b)
    ensures Inside(r)
  {
    if b.pos == 0 then b
    else Buffer(if b.pos == b.length then b.cells[b.pos - 1 := NUL] else ShiftLeft(b.cells, b.pos, 1),
                b.pos - 1, b.length - 1)
  }

  function Pressed(b: Buffer, key: Key): (r: Option<Buffer>)
    requires Inside(b)
    ensures r.Some? ==> Inside(r.value)
  {
    match key
    case Insert(c) => Typed(b, c)
    case Backspace => Some(Erased(b))
    case Left => Some(if b.pos == 0 then b else b.(pos := b.pos - 1))
    case Right => Some(if b.pos == b.length then b else b.(pos := b.pos + 1))
    case _ => Some(b)
  }

  /** The buffer after a run of keys; None once the text, or a C string in it, has no room for its NUL. */
  function After(keys: seq<Key>): (r: Option<Buffer>)
    ensures r.Some? ==> Inside(r.value)
  {
    if keys == [] then Some(Start())
    else match After(keys[..|keys| - 1])
      case None => None
      case Some(b) => Pressed(b, keys[|keys| - 1])
  }

  // ----- When a shift is exact -----

  lemma StringEndBound(s: string, p: nat, q: nat)
    requires p <= q < |s| && s[q] == NUL && Terminated(s)
    ensures StringEnd(s, p) <= q
  {
  }

  lemma {:induction false} NulFrom(s: string, e: nat, n: nat)
    requires e <= n < |s| && s[e] == NUL
    requires forall k :: e <= k < n - 1 ==> s[k + 1] == s[k]
    ensures forall k :: e <= k < n ==> s[k] == NUL
    decreases n - e
  {
    if n <= e + 1 {
    } else {
      NulFrom(s, e + 1, n);
    }
  }

  /** From behind a NUL backwards: equal neighbours up to a NUL are all NUL. */
  lemma {:induction false} NulUpTo(s: string, e: nat, n: nat)
    requires e <= n < |s| && s[n] == NUL
    requires forall k :: e <= k < n ==> s[k + 1] == s[k]
    ensures forall k :: e <= k <= n ==> s[k] == NUL
    decreases n - e
  {
    if e == n {
    } else {
      NulUpTo(s, e, n - 1);
    }
  }

  lemma KeptRight(s: string, t: string, p: nat, n: nat, e: nat)
    requires p <= e <= n && n + 1 < |s| == |t| && s[e] == NUL && s[n] == NUL
    requires forall k :: p < k <= e ==> t[k] == s[k - 1]
    requires t[e + 1] == NUL && forall k :: e + 2 <= k < |s| ==> t[k] == s[k]
    requires NulTail(s[p..n])
    ensures t[p + 1..n + 1] == s[p..n]
  {
    var right := s[p..n];
    forall k | p <= k < n ensures t[k + 1] == s[k] {
      assert s[k] == right[k - p];
      if k > e {
        assert right[e - p] == NUL;
        assert k + 1 < n ==> right[k + 1 - p] == NUL;
      }
    }
  }

  lemma KeptOnlyNuls(s: string, t: string, p: nat, n: nat, e: nat)
    requires p <= e <= n && n + 1 < |s| == |t| && s[n] == NUL && s[e] == NUL
    requires forall k :: p <= k < e ==> s[k] != NUL
    requires forall k :: e + 2 <= k < |s| ==> t[k] == s[k]
    requires t[p + 1..n + 1] == s[p..n]
    ensures NulTail(s[p..n])
  {
    var right := s[p..n];
    forall k | p <= k < n ensures t[k + 1] == s[k] {
      assert right[k - p] == t[p + 1..n + 1][k - p];
    }
    if e + 1 < n {
      NulUpTo(s, e + 1, n);
    }
  }

  /** What an insertion leaves of the right half: all of it if and only if only NULs follow its first NUL. */
  lemma ShiftedRight(s: string, p: nat, n: nat, c: char)
    requires p < n && n + 1 < |s| && Terminated(s) && forall k :: n <= k < |s| ==> s[k] == NUL
    ensures StringEnd(s, p) <= n
    ensures var t := ShiftRight(s, p, 1)[p := c];
      && t[..p + 1] == s[..p] + [c]
      && (t[p + 1..n + 1] == s[p..n] <==> NulTail(s[p..n]))
      && (forall k :: n + 1 <= k < |t| ==> t[k] == NUL)
  {
    hide NulTail;
    StringEndBound(s, p, n);
    var e, t := StringEnd(s, p), ShiftRight(s, p, 1)[p := c];
    if NulTail(s[p..n]) {
      KeptRight(s, t, p, n, e);
    }
    if t[p + 1..n + 1] == s[p..n] {
      KeptOnlyNuls(s, t, p, n, e);
    }
  }

  /** What a deletion leaves of the right half: all of it under the same condition. */
  lemma ShiftedLeft(s: string, p: nat, n: nat)
    requires 0 < p < n < |s| && Terminated(s) && forall k :: n <= k < |s| ==> s[k] == NUL
    ensures var t := ShiftLeft(s, p, 1);
      && t[..p - 1] == s[..p - 1]
      && (t[p - 1..n - 1] == s[p..n] <==> NulTail(s[p..n]))
      && (NulTail(s[p..n]) ==> forall k :: n - 1 <= k < |t| ==> t[k] == NUL)
  {
    StringEndBound(s, p, n);
    var e, t := StringEnd(s, p), ShiftLeft(s, p, 1);
    var right, moved := s[p..n], t[p - 1..n - 1];
    if NulTail(right) {
      forall k | p <= k < n ensures t[k - 1] == s[k] && (k >= e ==> s[k] == NUL) {
        assert s[k] == right[k - p];
        if k > e {
          assert right[e - p] == NUL;
          assert right[k - 1 - p] == s[k - 1];
        }
      }
    }
    if moved == right {
      forall k | e <= k < n - 1 ensures s[k + 1] == s[k] {
        assert right[k + 1 - p] == moved[k + 1 - p];
      }
      NulFrom(s, e, n);
    }
  }

  // ----- When the buffer follows the two stacks -----

  /** The key does not shift, or shifts a right half without symbols behind a NUL. */
  predicate KeySafe(st: Stacks, key: Key) {
    key.Insert? || (key.Backspace? && st.left != "") ==> NulTail(st.right)
  }

  predicate Safe(keys: seq<Key>) {
    forall n :: 0 <= n < |keys| ==> KeySafe(ApplyAll(keys[..n]), keys[n])
  }

  lemma TypedIff(b: Buffer, c: char)
    requires Inside(b) && Closed(b) && b.length + 1 < LINE_SIZE
    ensures Typed(b, c).Some?
    ensures var r := Typed(b, c).value;
      && Closed(r)
      && (Halves(r) == Apply(Halves(b), Insert(c)) <==> NulTail(Halves(b).right))
  {
    hide ShiftRight, StringEnd, NulTail;
    if b.pos < b.length {
      ShiftedRight(b.cells, b.pos, b.length, c);
    } else {
      assert Halves(b).right == "";
      EmptyNulTail();
    }
  }

  lemma EmptyNulTail()
    ensures NulTail("")
  {
  }

  lemma ErasedIff(b: Buffer)
    requires Inside(b) && Closed(b) && b.pos > 0
    ensures Halves(Erased(b)) == Apply(Halves(b), Backspace) <==> NulTail(Halves(b).right)
    ensures NulTail(Halves(b).right) ==> Closed(Erased(b))
  {
    hide ShiftLeft, StringEnd, NulTail;
    var left := b.cells[..b.pos];
    assert left[..|left| - 1] == b.cells[..b.pos - 1];
    if b.pos < b.length {
      ShiftedLeft(b.cells, b.pos, b.length);
    } else {
      assert Halves(b).right == "";
      EmptyNulTail();
    }
  }

  lemma LeftFollows(b: Buffer)
    requires Inside(b)
    ensures Halves(Pressed(b, Left).value) == Apply(Halves(b), Left)
  {
    if b.pos > 0 {
      var left := b.cells[..b.pos];
      SliceHead(b.cells, b.pos - 1, b.length);
      assert left[..|left| - 1] == b.cells[..b.pos - 1];
    }
  }

  lemma RightFollows(b: Buffer)
    requires Inside(b)
    ensures Halves(Pressed(b, Right).value) == Apply(Halves(b), Right)
  {
    if b.pos < b.length {
      assert b.cells[..b.pos + 1] == b.cells[..b.pos] + [b.cells[b.pos..b.length][0]];
    }
  }

  lemma ArrowsFollow(b: Buffer, key: Key)
    requires Inside(b) && Closed(b) && !key.Insert? && !key.Backspace?
    ensures Halves(Pressed(b, key).value) == Apply(Halves(b), key) && Closed(Pressed(b, key).value)
  {
    hide Halves;
    LeftFollows(b);
    RightFollows(b);
  }

  /** A key does to the buffer what it does to the two stacks if and only if it is safe. */
  lemma PressedIff(b: Buffer, key: Key)
    requires Inside(b) && Closed(b) && (key.Insert? ==> b.length + 1 < LINE_SIZE)
    ensures Pressed(b, key).Some?
    ensures Halves(Pressed(b, key).value) == Apply(Halves(b), key) <==> KeySafe(Halves(b), key)
    ensures KeySafe(Halves(b), key) ==> Closed(Pressed(b, key).value)
  {
    hide Apply, NulTail, Typed, Erased;
    match key
    case Insert(c) => TypedIff(b, c);
    case Backspace =>
      if b.pos > 0 {
        ErasedIff(b);
      } else {
        NothingToErase(b);
      }
    case _ => ArrowsFollow(b, key);
  }

  lemma NothingToErase(b: Buffer)
    requires Inside(b) && b.pos == 0
    ensures Erased(b) == b && Apply(Halves(b), Backspace) == Halves(b)
  {
  }

  /** After these keys the buffer is there and holds the two halves. */
  predicate Agrees(keys: seq<Key>) {
    After(keys).Some? && Halves(After(keys).value) == ApplyAll(keys)
  }

  /** The buffer agrees with the two stacks at every point of the run. */
  predicate Follows(keys: seq<Key>) {
    forall n :: 0 <= n <= |keys| ==> Agrees(keys[..n])
  }

  lemma FitsFront(keys: seq<Key>)
    requires keys != [] && Fits(keys)
    ensures Fits(keys[..|keys| - 1])
  {
    hide ApplyAll, Text;
    var front := keys[..|keys| - 1];
    forall n | 0 <= n <= |front| ensures |Text(ApplyAll(front[..n]))| < LINE_SIZE {
      assert front[..n] == keys[..n];
    }
  }

  lemma SafeFront(keys: seq<Key>)
    requires keys != []
    ensures var m := |keys| - 1; Safe(keys) <==> Safe(keys[..m]) && KeySafe(ApplyAll(keys[..m]), keys[m])
  {
    hide ApplyAll, KeySafe;
    var front := keys[..|keys| - 1];
    assert forall n :: 0 <= n < |front| ==> front[..n] == keys[..n] && front[n] == keys[n];
  }

  lemma FollowsFront(keys: seq<Key>)
    requires keys != []
    ensures var front := keys[..|keys| - 1]; Follows(keys) <==> Follows(front) && Agrees(keys)
    ensures Follows(keys[..|keys| - 1]) ==> Agrees(keys[..|keys| - 1])
  {
    hide Agrees;
    var front := keys[..|keys| - 1];
    assert forall n :: 0 <= n <= |front| ==> front[..n] == keys[..n];
    assert keys[..|keys|] == keys && front[..|front|] == front;
  }

  lemma TextLength(keys: seq<Key>, key: Key)
    ensures var st := ApplyAll(keys); key.Insert? ==> |Text(ApplyAll(keys + [key]))| == |Text(st)| + 1
  {
    assert (keys + [key])[..|keys|] == keys;
  }

  /** For every run whose text fits: the buffer follows the two stacks throughout if and only if no key of the run
      shifts symbols behind a NUL. */
  lemma {:induction false} FollowsIff(keys: seq<Key>)
    requires Fits(keys)
    ensures Follows(keys) <==> Safe(keys)
    ensures Safe(keys) ==> After(keys).Some? && Closed(After(keys).value)
  {
    hide Apply, Pressed, Halves, KeySafe, Closed, Inside, Safe, Follows, Fits;
    if keys == [] {
      StartAgrees();
      StartSafe();
    } else {
      var m := |keys| - 1;
      var front, key := keys[..m], keys[m];
      FitsFront(keys);
      SafeFront(keys);
      FollowsFront(keys);
      FollowsIff(front);
      if Safe(front) {
        assert front + [key] == keys;
        RoomFor(front, key, After(front).value);
        PressedIff(After(front).value, key);
      }
    }
  }

  lemma StartSafe()
    ensures Safe([])
  {
  }

  lemma StartAgrees()
    ensures After([]).Some? && Closed(After([]).value) && Follows([])
  {
    assert Start().cells[..0] == "" && Start().cells[0..0] == "";
    var none: seq<Key> := [];
    assert none[..0] == none;
    assert Agrees([]);
  }

  lemma RoomFor(front: seq<Key>, key: Key, b: Buffer)
    requires Fits(front + [key]) && Inside(b) && Halves(b) == ApplyAll(front)
    ensures key.Insert? ==> b.length + 1 < LINE_SIZE
  {
    TextLength(front, key);
    assert (front + [key])[..|front| + 1] == front + [key];
  }

  predicate NoNul(s: string) {
    forall i :: 0 <= i < |s| ==> s[i] != NUL
  }

  lemma ApplyNoNul(st: Stacks, key: Key)
    requires NoNul(st.left) && NoNul(st.right) && (key.Insert? ==> key.c != NUL)
    ensures NoNul(Apply(st, key).left) && NoNul(Apply(st, key).right)
    ensures KeySafe(st, key)
  {
  }

  // ----- Laws of the two stacks and of the shifts -----

  /** The arrows leave the text alone, and Up, Down and unknown sequences everything. */
  lemma ArrowsKeepText(st: Stacks, key: Key)
    requires !key.Insert? && !key.Backspace?
    ensures Text(Apply(st, key)) == Text(st)
    ensures key.Up? || key.Down? || key.OtherEscape? ==> Apply(st, key) == st
  {
    if key.Left? && st.left != "" {
      var n := |st.left| - 1;
      assert st.left == st.left[..n] + [st.left[n]];
    } else if key.Right? && st.right != "" {
      HeadTail(st.right);
      Assoc(st.left, [st.right[0]], st.right[1..]);
    }
  }

  /** Backspace undoes a typed symbol, and the two arrows undo each other. */
  lemma KeysUndo(st: Stacks, c: char)
    ensures Apply(Apply(st, Insert(c)), Backspace) == st
    ensures Text(Apply(st, Insert(c))) == st.left + [c] + st.right
    ensures st.left != "" ==> Apply(Apply(st, Left), Right) == st
    ensures st.right != "" ==> Apply(Apply(st, Right), Left) == st
  {
    assert (st.left + [c])[..|st.left|] == st.left;
    if st.left != "" {
      assert st.left == st.left[..|st.left| - 1] + [st.left[|st.left| - 1]];
    }
    if st.right != "" {
      assert (st.left + [st.right[0]])[..|st.left|] == st.left;
      HeadTail(st.right);
    }
  }

  /** For every distance: the C string at `p` is found unchanged `step` cells to the left. */
  lemma ShiftLeftMoves(s: string, p: nat, step: nat)
    requires step <= p < |s| && Terminated(s)
    ensures var e, t := StringEnd(s, p), ShiftLeft(s, p, step);
      StringEnd(t, p - step) == e - step && t[p - step..e - step] == s[p..e] && t[..p - step] == s[..p - step]
  {
    var e, t := StringEnd(s, p), ShiftLeft(s, p, step);
    assert forall k :: p <= k < e ==> t[k - step] == s[k];
    StringEndIs(t, p - step, e - step);
  }

  /** For every positive distance: the C string at `p` grows by one, and its front is found `step` cells to the
      right. */
  lemma ShiftRightMoves(s: string, p: nat, step: nat)
    requires p < |s| && Terminated(s) && step > 0 && StringEnd(s, p) + 1 < |s|
    ensures var e, t := StringEnd(s, p), ShiftRight(s, p, step);
      && t[..p] == s[..p] && t[e + 1] == NUL
      && (p + step <= e + 1 ==> t[p + step..e + 1] == s[p..e + 1 - step] && t[p..p + step - 1] == s[p..p + step - 1])
  {
  }

  lemma StringEndIs(s: string, p: nat, e: nat)
    requires p <= e < |s| && Terminated(s) && s[e] == NUL && forall k :: p <= k < e ==> s[k] != NUL
    ensures StringEnd(s, p) == e
  {
    StringEndBound(s, p, e);
  }

  // ----- Runs without line breaks and without NULs -----

  predicate Break(c: char) {
    c == '\n' || c == '\r'
  }

  predicate NoBreaks(s: string) {
    forall i :: 0 <= i < |s| ==> !Break(s[i])
  }

  lemma ApplyNoBreaks(st: Stacks, key: Key)
    requires NoBreaks(st.left) && NoBreaks(st.right) && (key.Insert? ==> !Break(key.c))
    ensures NoBreaks(Apply(st, key).left) && NoBreaks(Apply(st, key).right)
  {
  }

  lemma {:induction false} NoBreaksTyped(keys: seq<Key>)
    requires forall k :: 0 <= k < |keys| && keys[k].Insert? ==> !Break(keys[k].c)
    ensures NoBreaks(ApplyAll(keys).left) && NoBreaks(ApplyAll(keys).right)
  {
    hide Apply, NoBreaks;
    if keys == [] {
      EmptyNoBreaks();
    } else {
      var m := |keys| - 1;
      NoBreaksTyped(keys[..m]);
      ApplyNoBreaks(ApplyAll(keys[..m]), keys[m]);
    }
  }

  lemma EmptyNoBreaks()
    ensures NoBreaks("")
  {
  }

  /** Only a typed NUL can make a run unsafe. */
  lemma {:induction false} UnsafeNeedsNul(keys: seq<Key>)
    requires forall k :: 0 <= k < |keys| && keys[k].Insert? ==> keys[k].c != NUL
    ensures Safe(keys) && NoNul(ApplyAll(keys).left) && NoNul(ApplyAll(keys).right)
  {
    hide Safe, Apply, NoNul, KeySafe;
    if keys == [] {
      StartSafe();
      EmptyNoNul();
    } else {
      var m := |keys| - 1;
      UnsafeNeedsNul(keys[..m]);
      ApplyNoNul(ApplyAll(keys[..m]), keys[m]);
      SafeFront(keys);
    }
  }

  lemma EmptyNoNul()
    ensures NoNul("")
  {
  }
}
