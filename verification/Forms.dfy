/** The shared string of the thread programs: reversal, change of case and the count of capitals,
    as functions with their laws, and the loops that compute them in place. */
module Forms {
  import opened Common

  /** A `char` of the source, as the byte it is stored in. */
  type Byte = b: int | 0 <= b < 256

  const UPPER_A: Byte := 65
  const UPPER_Z: Byte := 90
  const LOWER_A: Byte := 97
  const LOWER_Z: Byte := 122

  predicate IsUpper(c: Byte) { UPPER_A <= c <= UPPER_Z }
  predicate IsLower(c: Byte) { LOWER_A <= c <= LOWER_Z }
  predicate IsLetter(c: Byte) { IsUpper(c) || IsLower(c) }

  predicate AllLetters(s: seq<Byte>) {
    forall i :: 0 <= i < |s| ==> IsLetter(s[i])
  }

  /** One turn of `change_register`. Two of the three programs take every byte that is no capital
      for a small letter (`lax`) and wrap around in the `char`; the third tests for it. */
  function Flip(lax: bool, c: Byte): Byte {
    if IsUpper(c) then c - UPPER_A + LOWER_A
    else if lax || IsLower(c) then (c - LOWER_A + UPPER_A) % 256
    else c
  }

  function FlipAll(lax: bool, s: seq<Byte>): (r: seq<Byte>)
    ensures |r| == |s|
  {
    seq(|s|, i requires 0 <= i < |s| => Flip(lax, s[i]))
  }

  /** The change of case, `n` times. */
  function FlipTimes(lax: bool, s: seq<Byte>, n: nat): (r: seq<Byte>)
    ensures |r| == |s|
  {
    if n == 0 then s else FlipAll(lax, FlipTimes(lax, s, n - 1))
  }

  function FlipByte(lax: bool, c: Byte, n: nat): Byte {
    if n == 0 then c else Flip(lax, FlipByte(lax, c, n - 1))
  }

  function Uppers(s: seq<Byte>): nat {
    if s == [] then 0 else Uppers(s[..|s| - 1]) + if IsUpper(s[|s| - 1]) then 1 else 0
  }

  function Lowers(s: seq<Byte>): nat {
    if s == [] then 0 else Lowers(s[..|s| - 1]) + if IsLower(s[|s| - 1]) then 1 else 0
  }

  predicate Odd(n: nat) { n % 2 == 1 }

  /** The source string after `revs` reversals and `flips` changes of case: one of four forms. */
  function Form(lax: bool, src: seq<Byte>, revs: nat, flips: nat): (r: seq<Byte>)
    ensures |r| == |src|
  {
    var s := if Odd(flips) then FlipAll(lax, src) else src;
    if Odd(revs) then Rev(s) else s
  }

  /** The strings for which the change of case undoes itself. */
  predicate Flippable(lax: bool, src: seq<Byte>) {
    lax ==> AllLetters(src)
  }

  /** The strings that one change of case leaves with letters only, where it counts. */
  predicate Settles(lax: bool, src: seq<Byte>) {
    lax ==> forall i :: 0 <= i < |src| ==> IsLetter(Flip(true, src[i]))
  }

  // ----- Laws -----

  lemma RevFlip(lax: bool, s: seq<Byte>)
    ensures Rev(FlipAll(lax, s)) == FlipAll(lax, Rev(s))
  {
  }

  /** The change of case undoes itself if and only if it is the careful one or meets letters only. */
  lemma FlipTwiceIff(lax: bool, s: seq<Byte>)
    ensures FlipAll(lax, FlipAll(lax, s)) == s <==> Flippable(lax, s)
  {
    var t := FlipAll(lax, FlipAll(lax, s));
    if t == s && lax {
      forall i | 0 <= i < |s| ensures IsLetter(s[i]) {
        assert t[i] == Flip(lax, Flip(lax, s[i]));
      }
    }
    if Flippable(lax, s) {
      forall i | 0 <= i < |s| ensures t[i] == s[i] {
        assert t[i] == Flip(lax, Flip(lax, s[i]));
      }
    }
  }

  /** On letters the two ways of changing case agree; on anything else the lax one does damage. */
  lemma LaxAgreesIff(s: seq<Byte>)
    ensures FlipAll(true, s) == FlipAll(false, s) <==> AllLetters(s)
  {
    if FlipAll(true, s) == FlipAll(false, s) {
      forall i | 0 <= i < |s| ensures IsLetter(s[i]) {
        assert FlipAll(true, s)[i] == FlipAll(false, s)[i];
      }
    }
  }

  lemma FlippableSettles(lax: bool, s: seq<Byte>)
    requires Flippable(lax, s)
    ensures Settles(lax, s)
  {
  }

  lemma {:induction false} FlipTimesAt(lax: bool, s: seq<Byte>, n: nat, i: nat)
    requires i < |s|
    ensures FlipTimes(lax, s, n)[i] == FlipByte(lax, s[i], n)
  {
    if n == 0 {
    } else {
      FlipTimesAt(lax, s, n - 1, i);
    }
  }

  lemma FlipAgain(lax: bool, c: Byte)
    requires IsLetter(c) || !lax
    ensures Flip(lax, Flip(lax, c)) == c && (IsLetter(c) ==> IsLetter(Flip(lax, c)))
  {
  }

  lemma {:induction false} FlipsCancel(lax: bool, c: Byte, n: nat)
    requires IsLetter(c) || !lax
    ensures FlipByte(lax, c, n) == if Odd(n) then Flip(lax, c) else c
  {
    hide Flip, IsLetter;
    if n == 0 {
    } else {
      FlipsCancel(lax, c, n - 1);
      FlipAgain(lax, c);
    }
  }

  lemma LaxStep(c: Byte, x: int)
    requires c == x % 256
    ensures IsLetter(c) ==> IsLetter(Flip(true, c))
    ensures !IsLetter(c) ==> Flip(true, c) == (x + 224) % 256
  {
  }

  /** Without meeting a letter, the lax change subtracts 32 every time, and a letter stays a letter. */
  lemma {:induction false} LaxFlips(c: Byte, n: nat)
    ensures IsLetter(FlipByte(true, c, n)) || FlipByte(true, c, n) == (c + 224 * n) % 256
  {
    hide Flip, IsLetter;
    if n == 0 {
    } else {
      LaxFlips(c, n - 1);
      var d := FlipByte(true, c, n - 1);
      LaxStep(d, if IsLetter(d) then d else c + 224 * (n - 1));
    }
  }

  lemma {:induction false} FlipFromFront(lax: bool, c: Byte, n: nat)
    ensures FlipByte(lax, c, n + 1) == FlipByte(lax, Flip(lax, c), n)
  {
    hide Flip;
    if n == 0 {
      assert FlipByte(lax, c, 1) == Flip(lax, FlipByte(lax, c, 0));
    } else {
      FlipFromFront(lax, c, n - 1);
    }
  }

  lemma FiveFlipsOfByte(lax: bool, c: Byte)
    ensures FlipByte(lax, c, 5) == Flip(lax, c) <==> (lax ==> IsLetter(Flip(true, c)))
  {
    hide FlipByte, Flip;
    FlipFromFront(lax, c, 4);
    LaxFlips(Flip(lax, c), 4);
    if !lax || IsLetter(Flip(true, c)) {
      FlipsCancel(lax, Flip(lax, c), 4);
    }
  }

  /** Five changes of case are one if and only if the change is the careful one or leaves letters only. */
  lemma FiveFlipsIff(lax: bool, s: seq<Byte>)
    ensures FlipTimes(lax, s, 5) == FlipAll(lax, s) <==> Settles(lax, s)
  {
    hide FlipTimes, FlipByte;
    forall i | 0 <= i < |s|
      ensures FlipTimes(lax, s, 5)[i] == FlipAll(lax, s)[i] <==> (lax ==> IsLetter(Flip(true, s[i])))
    {
      FlipTimesAt(lax, s, 5, i);
      FiveFlipsOfByte(lax, s[i]);
    }
    if Settles(lax, s) {
      assert forall i :: 0 <= i < |s| ==> FlipTimes(lax, s, 5)[i] == FlipAll(lax, s)[i];
    }
  }

  lemma {:induction false} RevFlipTimes(lax: bool, s: seq<Byte>, n: nat)
    ensures FlipTimes(lax, Rev(s), n) == Rev(FlipTimes(lax, s, n))
  {
    if n == 0 {
    } else {
      RevFlipTimes(lax, s, n - 1);
      RevFlip(lax, FlipTimes(lax, s, n - 1));
    }
  }

  /** Ten lax changes restore a byte if and only if it is a letter. */
  lemma TenFlipsIff(c: Byte)
    ensures FlipByte(true, FlipByte(true, c, 5), 5) == c <==> IsLetter(c)
  {
    hide FlipByte, Flip;
    var c5 := FlipByte(true, c, 5);
    LaxFlips(c, 5);
    LaxFlips(c5, 5);
    if IsLetter(c5) {
      FlipsCancel(true, c5, 5);
      FlipAgain(true, c5);
    }
    if IsLetter(c) {
      FlipsCancel(true, c, 5);
      FlipAgain(true, c);
    }
  }

  /** Two sections of five lax changes restore the string if and only if it consists of letters. */
  lemma TwoSectionsIff(s: seq<Byte>)
    ensures FlipTimes(true, FlipTimes(true, s, 5), 5) == s <==> AllLetters(s)
  {
    hide FlipTimes, FlipByte, IsLetter;
    var five := FlipTimes(true, s, 5);
    var ten := FlipTimes(true, five, 5);
    forall i | 0 <= i < |s| ensures ten[i] == s[i] <==> IsLetter(s[i]) {
      FlipTimesAt(true, five, 5, i);
      FlipTimesAt(true, s, 5, i);
      TenFlipsIff(s[i]);
    }
    if AllLetters(s) {
      assert forall i :: 0 <= i < |s| ==> ten[i] == s[i];
    }
  }

  lemma FormReversed(lax: bool, src: seq<Byte>, revs: nat, flips: nat)
    ensures Rev(Form(lax, src, revs, flips)) == Form(lax, src, revs + 1, flips)
  {
    hide Rev, FlipAll;
    assert Odd(revs + 1) <==> !Odd(revs);
    RevTwice(if Odd(flips) then FlipAll(lax, src) else src);
  }

  lemma FormFlipped(lax: bool, src: seq<Byte>, revs: nat, flips: nat)
    requires Flippable(lax, src)
    ensures FlipAll(lax, Form(lax, src, revs, flips)) == Form(lax, src, revs, flips + 1)
  {
    FlipTwiceIff(lax, src);
    RevFlip(lax, src);
    RevFlip(lax, FlipAll(lax, src));
  }

  lemma FormFlippable(lax: bool, src: seq<Byte>, revs: nat, flips: nat)
    requires Flippable(lax, src)
    ensures Flippable(lax, Form(lax, src, revs, flips))
  {
  }

  lemma {:induction false} UppersConcat(s: seq<Byte>, t: seq<Byte>)
    ensures Uppers(s + t) == Uppers(s) + Uppers(t)
  {
    if t == [] {
      assert s + t == s;
    } else {
      assert (s + t)[..|s + t| - 1] == s + t[..|t| - 1];
      UppersConcat(s, t[..|t| - 1]);
    }
  }

  lemma {:induction false} UppersReversed(s: seq<Byte>)
    ensures Uppers(Rev(s)) == Uppers(s)
  {
    if s == [] {
    } else {
      var n := |s| - 1;
      assert Rev(s) == [s[n]] + Rev(s[..n]);
      UppersConcat([s[n]], Rev(s[..n]));
      UppersReversed(s[..n]);
      assert [s[n]][..0] == [];
    }
  }

  lemma {:induction false} UppersFlipped(s: seq<Byte>)
    ensures Uppers(FlipAll(false, s)) == Lowers(s)
  {
    if s == [] {
    } else {
      var n := |s| - 1;
      assert FlipAll(false, s)[..n] == FlipAll(false, s[..n]);
      UppersFlipped(s[..n]);
    }
  }

  /** Capitals of a form: those of the source, or its small letters after an odd number of changes. */
  lemma UppersOfForm(src: seq<Byte>, revs: nat, flips: nat)
    ensures Uppers(Form(false, src, revs, flips)) == if Odd(flips) then Lowers(src) else Uppers(src)
  {
    UppersReversed(src);
    UppersReversed(FlipAll(false, src));
    UppersFlipped(src);
  }

  /** Reversal is determined by these two equations. */
  lemma RevOfConcat(s: seq<Byte>, t: seq<Byte>, c: Byte)
    ensures Rev(s + t) == Rev(t) + Rev(s)
    ensures Rev([c]) == [c]
  {
  }

  /** In ASCII, a letter and its other case are 32 apart. */
  lemma CaseInAscii(lax: bool, c: Byte)
    ensures 65 <= c <= 90 ==> Flip(lax, c) == c + 32
    ensures 97 <= c <= 122 ==> Flip(lax, c) == c - 32
    ensures !(65 <= c <= 90) && !(97 <= c <= 122) ==> Flip(lax, c) == if lax then (c - 32) % 256 else c
  {
  }

  /** The places that hold a byte from `lo` to `hi`. */
  function Places(s: seq<Byte>, lo: Byte, hi: Byte): set<nat> {
    set i: nat | i < |s| && lo <= s[i] <= hi
  }

  lemma PlacesNext(s: seq<Byte>, lo: Byte, hi: Byte)
    requires s != []
    ensures var n := |s| - 1;
      |Places(s, lo, hi)| == |Places(s[..n], lo, hi)| + if lo <= s[n] <= hi then 1 else 0
  {
    var n := |s| - 1;
    var before := Places(s[..n], lo, hi);
    assert Places(s, lo, hi) == if lo <= s[n] <= hi then before + {n} else before;
  }

  /** The counts are the numbers of places that hold a capital, or a small letter. */
  lemma {:induction false} CountsAreSizes(s: seq<Byte>)
    ensures Uppers(s) == |Places(s, 65, 90)| && Lowers(s) == |Places(s, 97, 122)|
  {
    hide Places;
    if s == [] {
      NoPlaces(65, 90);
      NoPlaces(97, 122);
    } else {
      CountsAreSizes(s[..|s| - 1]);
      PlacesNext(s, 65, 90);
      PlacesNext(s, 97, 122);
    }
  }

  lemma NoPlaces(lo: Byte, hi: Byte)
    ensures Places([], lo, hi) == {}
  {
  }

  // ----- Half-way strings -----

  /** `w` with its first `i` bytes changed. */
  function Flipped(lax: bool, w: seq<Byte>, i: nat): (r: seq<Byte>)
    requires i <= |w|
    ensures |r| == |w|
  {
    seq(|w|, k requires 0 <= k < |w| => if k < i then Flip(lax, w[k]) else w[k])
  }

  lemma FlippedEnds(lax: bool, w: seq<Byte>)
    ensures Flipped(lax, w, 0) == w && Flipped(lax, w, |w|) == FlipAll(lax, w)
  {
  }

  lemma FlippedNext(lax: bool, w: seq<Byte>, i: nat)
    requires i < |w|
    ensures Flipped(lax, w, i)[i] == w[i]
    ensures Flipped(lax, w, i)[i := Flip(lax, w[i])] == Flipped(lax, w, i + 1)
  {
  }

  // ----- The loops between lock and unlock, run alone -----

  method ReverseSection(toy: array<Byte>)
    modifies toy
    ensures toy[..] == Rev(old(toy[..]))
  {
    ghost var src := toy[..];
    var n, j := toy.Length, 0;
    while j < 5
      invariant j <= 5
      invariant toy[..] == Form(true, src, j, 0)
    {
      ghost var w := toy[..];
      SwappedEnds(w);
      var i := 0;
      while i < n / 2
        invariant i <= n / 2
        invariant toy[..] == Swapped(w, i)
      {
        SwappedNext(w, i);
        var c := toy[i];
        toy[i] := toy[n - i - 1];
        toy[n - i - 1] := c;
        i := i + 1;
      }
      FormReversed(true, src, j, 0);
      j := j + 1;
    }
  }

  /** Five changes of case, which are one exactly when the condition holds. */
  method ChangeRegisterSection(lax: bool, toy: array<Byte>)
    modifies toy
    ensures toy[..] == FlipTimes(lax, old(toy[..]), 5)
    ensures toy[..] == FlipAll(lax, old(toy[..])) <==> Settles(lax, old(toy[..]))
  {
    ghost var src := toy[..];
    var n, j := toy.Length, 0;
    while j < 5
      invariant j <= 5
      invariant toy[..] == FlipTimes(lax, src, j)
    {
      ghost var w := toy[..];
      FlippedEnds(lax, w);
      var i := 0;
      while i < n
        invariant i <= n
        invariant toy[..] == Flipped(lax, w, i)
      {
        FlippedNext(lax, w, i);
        if toy[i] >= UPPER_A && toy[i] <= UPPER_Z {
          toy[i] := (toy[i] - UPPER_A) + LOWER_A;
        } else if lax || (toy[i] >= LOWER_A && toy[i] <= LOWER_Z) {
          toy[i] := ((toy[i] - LOWER_A) + UPPER_A) % 256;
        }
        i := i + 1;
      }
      j := j + 1;
    }
    FiveFlipsIff(lax, src);
  }

  method CountSection(toy: array<Byte>) returns (cnt: nat)
    ensures cnt == Uppers(toy[..])
  {
    cnt := 0;
    var i := 0;
    while i < toy.Length
      invariant i <= toy.Length
      invariant cnt == Uppers(toy[..i])
    {
      assert toy[..i + 1][..i] == toy[..i];
      cnt := cnt + if toy[i] >= UPPER_A && toy[i] <= UPPER_Z then 1 else 0;
      i := i + 1;
    }
    assert toy[..i] == toy[..];
  }
}
