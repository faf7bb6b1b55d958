/** Decimal numbers as Go writes and reads them: the %d verb and strconv.Atoi. */
module Decimals {
  import opened Wrappers

  predicate IsDigit(c: char) {
    '0' <= c <= '9'
  }

  predicate AllDigits(s: string) {
    forall i :: 0 <= i < |s| ==> IsDigit(s[i])
  }

  function Digit(d: nat): (c: char)
    requires d < 10
    ensures IsDigit(c)
  {
    "0123456789"[d]
  }

  function DigitValue(c: char): (d: nat)
    requires IsDigit(c)
    ensures d < 10
  {
    c as int - '0' as int
  }

  lemma DigitRound(d: nat)
    requires d < 10
    ensures DigitValue(Digit(d)) == d
  {
    assert Digit(d) == "0123456789"[d];
  }

  function Digits(n: nat): (s: string)
    ensures s != [] && AllDigits(s)
  {
    if n < 10 then [Digit(n)] else Digits(n / 10) + [Digit(n % 10)]
  }

  /** The number that digits stand for; leading zeros do not matter. */
  function Value(s: string): nat
    requires AllDigits(s)
  {
    if s == [] then 0 else Value(s[..|s| - 1]) * 10 + DigitValue(s[|s| - 1])
  }

  lemma {:induction false} ValueOfDigits(n: nat)
    ensures Value(Digits(n)) == n
  {
    if n < 10 {
      DigitRound(n);
      assert Digits(n)[..0] == [];
    } else {
      ValueOfDigits(n / 10);
      DigitRound(n % 10);
      assert Digits(n)[..|Digits(n)| - 1] == Digits(n / 10);
    }
  }

  /** %d. */
  function Itoa(i: int): string {
    if i < 0 then "-" + Digits(-i) else Digits(i)
  }

  const MAX_INT := 0x7fff_ffff_ffff_ffff

  /** strconv.Atoi: an optional sign, then digits, in the range of int. */
  function Atoi(s: string): Option<int> {
    var negative := s != [] && s[0] == '-';
    var digits := if s != [] && (s[0] == '-' || s[0] == '+') then s[1..] else s;
    if digits == [] || !AllDigits(digits) then None
    else
      var v: int := Value(digits);
      if negative then (if v <= MAX_INT + 1 then Some(-v) else None) else if v <= MAX_INT then Some(v) else None
  }

  predicate IsInt(i: int) {
    -MAX_INT - 1 <= i <= MAX_INT
  }

  /** Atoi reads what %d wrote. */
  lemma AtoiItoa(i: int)
    requires IsInt(i)
    ensures Atoi(Itoa(i)) == Some(i)
  {
    hide Digits, Value;
    if i < 0 {
      ValueOfDigits(-i);
      assert ("-" + Digits(-i))[1..] == Digits(-i);
    } else {
      ValueOfDigits(i);
      assert IsDigit(Digits(i)[0]);
    }
  }

  // ----- numbers inside texts -----

  /** A number ends before this. */
  predicate NoDigit(rest: string) {
    rest == [] || !IsDigit(rest[0])
  }

  /** How many digits a text starts with. */
  function Run(s: string): (n: nat)
    ensures n <= |s|
  {
    if s == [] || !IsDigit(s[0]) then 0 else 1 + Run(s[1..])
  }

  lemma {:induction false} RunOf(a: string, x: string)
    requires AllDigits(a) && NoDigit(x)
    ensures Run(a + x) == |a|
  {
    if a == [] {
      assert a + x == x;
    } else {
      RunOf(a[1..], x);
      assert (a + x)[1..] == a[1..] + x;
    }
  }

  lemma DigitsApart(m: nat, n: nat, x: string, y: string)
    requires NoDigit(x) && NoDigit(y) && Digits(m) + x == Digits(n) + y
    ensures m == n && x == y
  {
    hide Run, Digits;
    var a, b := Digits(m), Digits(n);
    RunOf(a, x);
    RunOf(b, y);
    assert a == (a + x)[..|a|] && b == (b + y)[..|b|];
    assert x == (a + x)[|a|..] && y == (b + y)[|b|..];
    ValueOfDigits(m);
    ValueOfDigits(n);
  }

  lemma ItoaSign(i: int, x: string)
    ensures |Itoa(i)| > 0 && (Itoa(i)[0] == '-' <==> i < 0)
    ensures i < 0 ==> (Itoa(i) + x)[1..] == Digits(-i) + x
    ensures (Itoa(i) + x)[0] == Itoa(i)[0]
  {
    hide Digits;
    if i >= 0 {
      assert IsDigit(Digits(i)[0]);
    }
  }

  /** A number in decimal can be read back from the front of a text, whatever is not a digit following. */
  lemma NumbersApart(m: int, n: int, x: string, y: string)
    requires NoDigit(x) && NoDigit(y) && Itoa(m) + x == Itoa(n) + y
    ensures m == n && x == y
  {
    hide Digits;
    ItoaSign(m, x);
    ItoaSign(n, y);
    if m < 0 {
      DigitsApart(-m, -n, x, y);
    } else {
      DigitsApart(m, n, x, y);
    }
  }
}
