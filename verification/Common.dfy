/** Types and byte-level helpers shared by the models. */
module Common {

  datatype Option<+T> = None | Some(value: T)

  type byte = b: int | 0 <= b < 256

  type Bytes = seq<byte>

  const NEWLINE: byte := 10

  predicate IsDigit(c: int) {
    48 <= c <= 57
  }

  // -- Decimal numerals ---------------------------------------------------

  /** The shortest decimal numeral of n, in ASCII. */
  function Digits(n: nat): (s: Bytes)
    ensures |s| > 0
    ensures forall i :: 0 <= i < |s| ==> IsDigit(s[i])
  {
    if n < 10 then [48 + n] else Digits(n / 10) + [48 + n % 10]
  }

  /** The value of a digit string, most significant digit first. */
  function DigitsValue(s: seq<int>): (n: nat)
    requires forall i :: 0 <= i < |s| ==> IsDigit(s[i])
  {
    if s == [] then 0 else
      var last := s[|s| - 1];
      assert IsDigit(last);
      DigitsValue(s[..|s| - 1]) * 10 + (last - 48)
  }

  /** How many leading characters are digits. */
  function DigitRun(s: seq<int>): (n: nat)
    ensures n <= |s|
    ensures forall i :: 0 <= i < n ==> IsDigit(s[i])
    ensures n < |s| ==> !IsDigit(s[n])
  {
    if s == [] || !IsDigit(s[0]) then 0 else 1 + DigitRun(s[1..])
  }

  lemma {:induction false} DigitsValueInverse(n: nat)
    ensures DigitsValue(Digits(n)) == n
  {
    if n >= 10 {
      DigitsValueInverse(n / 10);
      assert Digits(n)[..|Digits(n)| - 1] == Digits(n / 10);
    }
  }

  datatype Base = Binary | Decimal | Bytewise

  /** n without its i lowest digits in this base. */
  function Shift(n: nat, base: Base, i: nat): nat {
    if i == 0 then n
    else
      match base
      case Binary => Shift(n / 2, base, i - 1)
      case Decimal => Shift(n / 10, base, i - 1)
      case Bytewise => Shift(n / 256, base, i - 1)
  }

  /** Each byte of a numeral is the digit of its place, all places are there, and a first 0 is the only one. */
  lemma {:induction false} DigitsArePlaces(n: nat)
    ensures var s := Digits(n);
            && (forall i :: 0 <= i < |s| ==> s[|s| - 1 - i] as int == 48 + Shift(n, Decimal, i) % 10)
            && Shift(n, Decimal, |s|) == 0 && (|s| > 1 ==> s[0] != 48)
  {
    if n >= 10 {
      DigitsArePlaces(n / 10);
      var s, t := Digits(n), Digits(n / 10);
      assert forall i :: 1 <= i < |s| ==> Shift(n, Decimal, i) == Shift(n / 10, Decimal, i - 1);
      assert |t| == 1 ==> t[|t| - 1 - 0] as int == 48 + n / 10 % 10;
    }
  }

  /** A numeral is delimited by the first non-digit after it. */
  lemma {:induction false} DigitRunExact(s: seq<int>, rest: seq<int>)
    requires forall i :: 0 <= i < |s| ==> IsDigit(s[i])
    requires rest == [] || !IsDigit(rest[0])
    ensures DigitRun(s + rest) == |s|
  {
    if s == [] {
      assert s + rest == rest;
    } else {
      assert (s + rest)[1..] == s[1..] + rest;
      DigitRunExact(s[1..], rest);
    }
  }

  // -- Sequences ----------------------------------------------------------------

  /** Position of the first x, or |s|. */
  function IndexOf<T(==)>(s: seq<T>, x: T): (n: nat)
    ensures n <= |s|
    ensures forall i :: 0 <= i < n ==> s[i] != x
    ensures n < |s| ==> s[n] == x
  {
    if s == [] || s[0] == x then 0
    else
      var n := IndexOf(s[1..], x);
      assert forall i :: 1 <= i <= n ==> s[i] == s[1..][i - 1];
      n + 1
  }

  /** The first x behind a part that has none is where the part ends. */
  lemma IndexOfBehind<T>(part: seq<T>, x: T, rest: seq<T>)
    requires x !in part
    ensures IndexOf(part + [x] + rest, x) == |part| && IndexOf(part, x) == |part|
  {
    var s := part + [x] + rest;
    assert s[|part|] == x && forall i :: 0 <= i < |part| ==> s[i] == part[i];
  }

  lemma Regroup<T>(a: seq<T>, b: seq<T>, c: seq<T>)
    ensures a + (b + c) == (a + b) + c
  {
  }

  function Min(a: int, b: int): int {
    if a < b then a else b
  }

  // -- Sizes of sets ------------------------------------------------------------

  /** Two sets that agree except on x differ in size by whether x is in them. */
  lemma OneMoved<T>(a: set<T>, b: set<T>, x: T)
    requires a - {x} == b - {x}
    ensures |b| + (if x in a then 1 else 0) == |a| + if x in b then 1 else 0
  {
    var others := a - {x};
    assert a == if x in a then others + {x} else others;
    assert b == if x in b then others + {x} else others;
  }

  lemma UnionSize<T>(whole: set<T>, a: set<T>, b: set<T>)
    requires a !! b && whole == a + b
    ensures |whole| == |a| + |b|
  {
  }
}
