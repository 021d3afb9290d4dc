/** Printing non-negative numbers in `lab4/io.c`: `sayi` and `errc_to_a` write the digits backwards
    into a buffer and turn it round in place. */
module Digits {
  import opened Common

  function Digit(d: int): char
    requires 0 <= d < 10
  {
    '0' + d as char
  }

  predicate IsDigit(c: char) {
    '0' <= c <= '9'
  }

  function Decimal(n: nat): (s: string)
    ensures s != ""
  {
    if n < 10 then [Digit(n)] else Decimal(n / 10) + [Digit(n % 10)]
  }

  /** A decimal numeral without a leading zero. */
  predicate IsNumeral(s: string) {
    s != "" && (forall i :: 0 <= i < |s| ==> IsDigit(s[i])) && (s[0] == '0' ==> |s| == 1)
  }

  function Value(s: string): nat
    requires forall i :: 0 <= i < |s| ==> IsDigit(s[i])
  {
    if s == "" then 0 else assert IsDigit(s[|s| - 1]); 10 * Value(s[..|s| - 1]) + (s[|s| - 1] as int - '0' as int)
  }

  lemma {:induction false} DecimalIsNumeral(n: nat)
    ensures IsNumeral(Decimal(n)) && Value(Decimal(n)) == n
    ensures n > 0 ==> Decimal(n)[0] != '0'
  {
    if n >= 10 {
      DecimalIsNumeral(n / 10);
      assert Decimal(n)[..|Decimal(n)| - 1] == Decimal(n / 10);
    } else {
      assert Value([Digit(n)][..0]) == 0;
    }
  }

  lemma {:induction false} NumeralIsDecimal(s: string)
    requires IsNumeral(s)
    ensures s == Decimal(Value(s))
  {
    var m := |s| - 1;
    var d := s[m] as int - '0' as int;
    if m == 0 {
      assert s[..0] == "";
    } else {
      assert IsNumeral(s[..m]);
      NumeralIsDecimal(s[..m]);
      PositiveNumeral(s[..m]);
      assert Value(s) / 10 == Value(s[..m]) && Value(s) % 10 == d;
      assert s == s[..m] + [s[m]];
    }
  }

  lemma {:induction false} PositiveNumeral(s: string)
    requires IsNumeral(s) && s[0] != '0'
    ensures Value(s) > 0
  {
    if |s| == 1 {
    } else {
      PositiveNumeral(s[..|s| - 1]);
    }
  }

  /** `Decimal(n)` is the one numeral without a leading zero that is worth `n`. */
  lemma DecimalCharacterised(n: nat, s: string)
    ensures IsNumeral(s) && Value(s) == n <==> s == Decimal(n)
  {
    DecimalIsNumeral(n);
    if IsNumeral(s) {
      NumeralIsDecimal(s);
    }
  }

  function Power10(k: nat): nat {
    if k == 0 then 1 else 10 * Power10(k - 1)
  }

  lemma {:induction false} DecimalLength(n: nat, k: nat)
    requires k > 0
    ensures |Decimal(n)| <= k <==> n < Power10(k)
    decreases k
  {
    if k == 1 {
      assert Power10(1) == 10;
    } else if n >= 10 {
      DecimalLength(n / 10, k - 1);
    } else {
      DecimalLength(n, k - 1);
    }
  }

  /** The nine bytes of `errc_to_a` are enough if and only if the number has at most eight digits. */
  lemma FitsNineBytesIff(n: nat)
    ensures |Decimal(n)| + 1 <= 9 <==> n < 100000000
  {
    DecimalLength(n, 8);
    assert Power10(8) == 100000000;
  }

  lemma IntFits(n: nat)
    requires n < 0x8000_0000
    ensures |Decimal(n)| <= 10
  {
    DecimalLength(n, 10);
    assert Power10(10) == 10000000000 by { assert Power10(8) == 100000000; }
  }

  // ----- The loops -----

  /** The digits from the last to the first, as the loop writes them. */
  function Backwards(n: nat): string {
    if n == 0 then "" else [Digit(n % 10)] + Backwards(n / 10)
  }

  lemma {:induction false} RevBackwards(n: nat)
    requires n > 0
    ensures Rev(Backwards(n)) == Decimal(n)
  {
    if n < 10 {
      assert Backwards(n / 10) == "";
    } else {
      RevBackwards(n / 10);
      assert Rev(Backwards(n)) == Rev(Backwards(n / 10)) + [Digit(n % 10)];
    }
  }

  /** The digit loop: remainders from the front of the buffer on, and the terminator. */
  method PutDigits(buf: array<char>, num: nat) returns (i: nat)
    requires |Backwards(num)| < buf.Length
    modifies buf
    ensures i < buf.Length && buf[..i] == Backwards(num) && buf[i] == NUL
  {
    var n := num;
    i := 0;
    while n != 0
      invariant i + |Backwards(n)| == |Backwards(num)|
      invariant Backwards(num)[..i] == buf[..i] && Backwards(num)[i..] == Backwards(n)
      decreases n
    {
      assert Backwards(num)[i] == Backwards(n)[0] && Backwards(num)[i + 1..] == Backwards(n)[1..];
      buf[i] := '0' + (n % 10) as char;
      i, n := i + 1, n / 10;
    }
    buf[i] := NUL;
  }

  /** The reversal loop. */
  method TurnAround(buf: array<char>, i: nat)
    requires i < buf.Length
    modifies buf
    ensures buf[..i] == Rev(old(buf[..i])) && buf[i] == old(buf[i])
  {
    ghost var was := buf[..i];
    SwappedEnds(was);
    var j := 0;
    while j < i / 2
      invariant j <= i / 2 && buf[i] == old(buf[i])
      invariant buf[..i] == Swapped(was, j)
    {
      SwappedNext(was, j);
      assert buf[j] == buf[..i][j] && buf[i - j - 1] == buf[..i][i - j - 1];
      var c := buf[j];
      buf[j] := buf[i - j - 1];
      buf[i - j - 1] := c;
      j := j + 1;
    }
  }

  /** Both loops, for a buffer that is large enough. */
  method WriteDigits(buf: array<char>, num: nat) returns (i: nat)
    requires num > 0 && |Decimal(num)| < buf.Length
    modifies buf
    ensures i < buf.Length && buf[..i] == Decimal(num) && buf[i] == NUL
  {
    RevBackwards(num);
    assert |Backwards(num)| == |Rev(Backwards(num))|;
    i := PutDigits(buf, num);
    TurnAround(buf, i);
  }

  /** `errc_to_a`, for every number its buffer can take. */
  method ErrcToA(n: nat) returns (buf: array<char>)
    requires |Decimal(n)| + 1 <= 9
    ensures |Decimal(n)| < buf.Length == 9
    ensures buf[..|Decimal(n)|] == Decimal(n) && buf[|Decimal(n)|] == NUL
  {
    buf := new char[8 + 1];
    if n == 0 {
      buf[0] := '0';
      buf[1] := NUL;
      return;
    }
    var i := WriteDigits(buf, n);
  }

  /** What `sayi` prints for a non-negative `int`. */
  method SayI(n: nat) returns (said: string)
    requires n < 0x8000_0000
    ensures said == Decimal(n)
  {
    if n == 0 {
      return "0";
    }
    IntFits(n);
    var buf := new char[4 * 8 + 1];
    var i := WriteDigits(buf, n);
    said := buf[..i];
  }
}
