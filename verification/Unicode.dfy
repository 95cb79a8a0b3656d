/**
 * Strings as sequences of Unicode scalar values, their UTF-16 and UTF-8
 * forms, and the key order of canonical JSON, by UTF-16 unit.
 */
module Unicode {
  import opened Common

  type rune = r: int | 0 <= r < 0xD800 || 0xE000 <= r <= 0x10FFFF

  type Text = seq<rune>

  // -- Lexicographic order ---------------------------------------------------------

  ghost predicate LexLess(a: seq<int>, b: seq<int>) {
    b != [] && (a == [] || (if a[0] != b[0] then a[0] < b[0] else LexLess(a[1..], b[1..])))
  }

  lemma {:induction false} LexIrreflexive(a: seq<int>)
    ensures !LexLess(a, a)
  {
    if a != [] {
      LexIrreflexive(a[1..]);
    }
  }

  lemma {:induction false} LexTransitive(a: seq<int>, b: seq<int>, c: seq<int>)
    requires LexLess(a, b) && LexLess(b, c)
    ensures LexLess(a, c)
  {
    if a != [] && a[0] == b[0] == c[0] {
      LexTransitive(a[1..], b[1..], c[1..]);
    }
  }

  lemma {:induction false} LexTotal(a: seq<int>, b: seq<int>)
    ensures a == b || LexLess(a, b) || LexLess(b, a)
  {
    if a != [] && b != [] && a[0] == b[0] {
      LexTotal(a[1..], b[1..]);
      assert a == [a[0]] + a[1..] && b == [b[0]] + b[1..];
    }
  }

  // -- UTF-16 ------------------------------------------------------------------------

  /** One code unit in the basic plane, a surrogate pair above it. */
  function Units(r: rune): seq<int> {
    if r < 0x10000 then [r as int] else [0xD800 + (r - 0x10000) / 0x400, 0xDC00 + (r - 0x10000) % 0x400]
  }

  function Utf16(s: Text): seq<int> {
    if s == [] then [] else Units(s[0]) + Utf16(s[1..])
  }

  lemma UnitsArePrefixFree(a: rune, b: rune, x: seq<int>, y: seq<int>)
    requires Units(a) + x == Units(b) + y
    ensures a == b && x == y
  {
    var s := Units(a) + x;
    assert s[0] == Units(a)[0] == Units(b)[0];
    assert s[|Units(a)|..] == x && s[|Units(b)|..] == y;
    if a >= 0x10000 {
      assert s[1] == Units(a)[1] == Units(b)[1];
      var m, n := a - 0x10000, b - 0x10000;
      assert m == m / 0x400 * 0x400 + m % 0x400 && n == n / 0x400 * 0x400 + n % 0x400;
    }
  }

  lemma {:induction false} Utf16Injective(a: Text, b: Text)
    requires Utf16(a) == Utf16(b)
    ensures a == b
  {
    if a != [] && b != [] {
      UnitsArePrefixFree(a[0], b[0], Utf16(a[1..]), Utf16(b[1..]));
      Utf16Injective(a[1..], b[1..]);
      assert a == [a[0]] + a[1..] && b == [b[0]] + b[1..];
    }
  }

  // -- The key order --------------------------------------------------------------------

  ghost predicate Less(a: Text, b: Text) {
    LexLess(Utf16(a), Utf16(b))
  }

  /** Ordering by UTF-16 code units is a strict total order on strings. */
  lemma LessIsStrictTotalOrder(a: Text, b: Text, c: Text)
    ensures !Less(a, a)
    ensures Less(a, b) && Less(b, c) ==> Less(a, c)
    ensures a == b || Less(a, b) || Less(b, a)
    ensures !(Less(a, b) && Less(b, a))
  {
    var ua, ub, uc := Utf16(a), Utf16(b), Utf16(c);
    LexIrreflexive(ua);
    if Less(a, b) && Less(b, c) {
      LexTransitive(ua, ub, uc);
    }
    if Less(a, b) && Less(b, a) {
      LexTransitive(ua, ub, ua);
    }
    LexTotal(ua, ub);
    if ua == ub {
      Utf16Injective(a, b);
    }
  }

  predicate Ascii(s: Text) {
    forall i :: 0 <= i < |s| ==> s[i] < 128
  }

  lemma {:induction false} AsciiUnits(s: Text)
    requires Ascii(s)
    ensures Utf16(s) == s
  {
    if s != [] {
      AsciiUnits(s[1..]);
      assert s == [s[0]] + s[1..];
    }
  }

  method IsAscii(s: Text) returns (r: bool)
    ensures r <==> Ascii(s)
  {
    for i := 0 to |s|
      invariant forall j :: 0 <= j < i ==> s[j] < 128
    {
      if s[i] >= 128 {
        return false;
      }
    }
    return true;
  }

  lemma {:induction false} LexAt(a: seq<int>, b: seq<int>, i: nat)
    requires i <= |a| && i <= |b| && a[..i] == b[..i]
    ensures LexLess(a, b) <==> LexLess(a[i..], b[i..])
  {
    if i == 0 {
      assert a[0..] == a && b[0..] == b;
    } else {
      assert a[0] == a[..i][0] == b[..i][0] == b[0];
      assert a[1..][..i - 1] == a[..i][1..] && b[1..][..i - 1] == b[..i][1..];
      LexAt(a[1..], b[1..], i - 1);
      assert a[1..][i - 1..] == a[i..] && b[1..][i - 1..] == b[i..];
    }
  }

  method CompareUnits(a: seq<int>, b: seq<int>) returns (r: bool)
    ensures r <==> LexLess(a, b)
  {
    var i := 0;
    while i < |a| && i < |b|
      invariant i <= |a| && i <= |b| && a[..i] == b[..i]
    {
      if a[i] != b[i] {
        LexAt(a, b, i);
        return a[i] < b[i];
      }
      i := i + 1;
    }
    LexAt(a, b, i);
    return |a| < |b|;
  }

  /** The comparison as made: a byte-wise shortcut for ASCII agrees with the general one. */
  method LessUtf16(a: Text, b: Text) returns (r: bool)
    ensures r <==> Less(a, b)
  {
    var plainA := IsAscii(a);
    var plainB := IsAscii(b);
    if plainA && plainB {
      AsciiUnits(a);
      AsciiUnits(b);
      r := CompareUnits(a, b);
      return;
    }
    r := CompareUnits(Utf16(a), Utf16(b));
  }

  // -- UTF-8 -----------------------------------------------------------------------------

  function Utf8(r: rune): Bytes {
    if r < 0x80 then [r as int]
    else if r < 0x800 then [0xC0 + r / 0x40, 0x80 + r % 0x40]
    else if r < 0x10000 then [0xE0 + r / 0x1000, 0x80 + r / 0x40 % 0x40, 0x80 + r % 0x40]
    else [0xF0 + r / 0x40000, 0x80 + r / 0x1000 % 0x40, 0x80 + r / 0x40 % 0x40, 0x80 + r % 0x40]
  }

  function Utf8All(s: Text): Bytes {
    if s == [] then [] else Utf8(s[0]) + Utf8All(s[1..])
  }

  lemma Utf8Digits(r: rune)
    ensures r < 0x800 ==> r == r / 0x40 * 0x40 + r % 0x40
    ensures r < 0x10000 ==> r == r / 0x1000 * 0x1000 + r / 0x40 % 0x40 * 0x40 + r % 0x40
    ensures r == r / 0x40000 * 0x40000 + r / 0x1000 % 0x40 * 0x1000 + r / 0x40 % 0x40 * 0x40 + r % 0x40
  {
    var a := r / 0x40;
    var b := a / 0x40;
    assert b == r / 0x1000 && b / 0x40 == r / 0x40000;
    assert r == a * 0x40 + r % 0x40 && a == b * 0x40 + a % 0x40 && b == b / 0x40 * 0x40 + b % 0x40;
  }

  lemma Utf8LeadByte(a: rune, b: rune)
    requires Utf8(a)[0] == Utf8(b)[0]
    ensures |Utf8(a)| == |Utf8(b)|
  {
  }

  lemma Utf8PrefixFree(a: rune, b: rune, x: Bytes, y: Bytes)
    requires Utf8(a) + x == Utf8(b) + y
    ensures a == b && x == y
  {
    var s := Utf8(a) + x;
    assert s[0] == Utf8(a)[0] == Utf8(b)[0];
    Utf8LeadByte(a, b);
    var n := |Utf8(a)|;
    assert Utf8(a) == s[..n] == Utf8(b);
    assert x == s[n..] == y;
    Utf8Same(a, b);
  }

  lemma Utf8Same(a: rune, b: rune)
    requires Utf8(a) == Utf8(b)
    ensures a == b
  {
    Utf8Digits(a);
    Utf8Digits(b);
    assert |Utf8(a)| == |Utf8(b)|;
    assert Utf8(a)[0] == Utf8(b)[0];
    assert |Utf8(a)| > 1 ==> Utf8(a)[1] == Utf8(b)[1];
    assert |Utf8(a)| > 2 ==> Utf8(a)[2] == Utf8(b)[2];
    assert |Utf8(a)| > 3 ==> Utf8(a)[3] == Utf8(b)[3];
  }

  /** Distinct texts have distinct UTF-8 forms. */
  lemma {:induction false} Utf8Injective(a: Text, b: Text)
    requires Utf8All(a) == Utf8All(b)
    ensures a == b
  {
    if a != [] && b != [] {
      Utf8PrefixFree(a[0], b[0], Utf8All(a[1..]), Utf8All(b[1..]));
      Utf8Injective(a[1..], b[1..]);
      assert a == [a[0]] + a[1..] && b == [b[0]] + b[1..];
    }
  }

  // -- The encoding forms, by their bits -----------------------------------------------------

  /** UTF-16 (RFC 2781 section 2.1): a surrogate pair carries ten high and ten low bits. */
  lemma Utf16Form(r: rune)
    ensures r < 0x10000 ==> Units(r) == [r as int]
    ensures r >= 0x10000 ==>
              && |Units(r)| == 2 && 0xD800 <= Units(r)[0] < 0xDC00 && 0xDC00 <= Units(r)[1] < 0xE000
              && r == 0x10000 + (Units(r)[0] - 0xD800) * 0x400 + (Units(r)[1] - 0xDC00)
  {
  }

  /** A byte that continues a character. */
  predicate Continues(b: int) {
    0x80 <= b < 0xC0
  }

  /** UTF-8 (RFC 3629 section 3): the shortest form, the lead byte telling the length. */
  lemma Utf8Form(r: rune)
    ensures var b: seq<int> := Utf8(r);
            && |b| == (if r < 0x80 then 1 else if r < 0x800 then 2 else if r < 0x10000 then 3 else 4)
            && (forall i :: 1 <= i < |b| ==> Continues(b[i]))
            && match |b|
               case 1 => b[0] as int == r
               case 2 => 0xC0 <= b[0] < 0xE0 && r == (b[0] - 0xC0) * 0x40 + (b[1] - 0x80)
               case 3 => 0xE0 <= b[0] < 0xF0 && r == (b[0] - 0xE0) * 0x1000 + (b[1] - 0x80) * 0x40 + (b[2] - 0x80)
               case _ => 0xF0 <= b[0] < 0xF8 && r == (b[0] - 0xF0) * 0x40000 + (b[1] - 0x80) * 0x1000
                                                     + (b[2] - 0x80) * 0x40 + (b[3] - 0x80)
  {
    Utf8Digits(r);
  }

  /** A text's form is what its characters are, one after the other. */
  lemma {:induction false} FormsConcatenate(a: Text, b: Text)
    ensures Utf16(a + b) == Utf16(a) + Utf16(b) && Utf8All(a + b) == Utf8All(a) + Utf8All(b)
  {
    hide Units, Utf8;
    if a == [] {
      assert a + b == b;
    } else {
      var tail := a[1..] + b;
      assert (a + b)[0] == a[0] && (a + b)[1..] == tail;
      FormsConcatenate(a[1..], b);
      Regroup(Units(a[0]), Utf16(a[1..]), Utf16(b));
      Regroup(Utf8(a[0]), Utf8All(a[1..]), Utf8All(b));
    }
  }

  lemma FormOfOne(r: rune)
    ensures Utf16([r]) == Units(r) && Utf8All([r]) == Utf8(r)
  {
    assert [r][1..] == [];
  }

  /** The sequences agree before i, where a has the smaller unit. */
  ghost predicate SmallerAt(a: seq<int>, b: seq<int>, i: nat) {
    i < |a| && i < |b| && a[i] < b[i] && forall j :: 0 <= j < i ==> a[j] == b[j]
  }

  /** Before: a proper prefix, or the smaller unit at the first difference. */
  lemma LexIsFirstDifference(a: seq<int>, b: seq<int>)
    ensures LexLess(a, b)
            <==> (|a| < |b| && forall j :: 0 <= j < |a| ==> a[j] == b[j]) || exists i :: SmallerAt(a, b, i)
  {
    var i := FirstDifference(a, b);
    LexAt(a, b, i);
    assert forall j :: 0 <= j < i ==> a[j] == a[..i][j] && b[j] == b[..i][j];
    if i < |a| && i < |b| {
      assert a[i..][0] == a[i] && b[i..][0] == b[i];
      assert a[i] < b[i] ==> SmallerAt(a, b, i);
      assert forall j :: SmallerAt(a, b, j) ==> j == i;
    }
  }

  lemma FirstDifference(a: seq<int>, b: seq<int>) returns (i: nat)
    ensures i <= |a| && i <= |b| && a[..i] == b[..i] && (i < |a| && i < |b| ==> a[i] != b[i])
  {
    if a == [] || b == [] || a[0] != b[0] {
      i := 0;
    } else {
      i := FirstDifference(a[1..], b[1..]);
      assert a[..i + 1] == [a[0]] + a[1..][..i] && b[..i + 1] == [b[0]] + b[1..][..i];
      i := i + 1;
    }
  }

  /** Keys come in the order of their units: the key beyond the basic plane stands before U+FB33. */
  lemma KeysAreOrderedByUnits()
    ensures Less([13], [49]) && Less([49], [0x80]) && Less([0x80], [0xF6]) && Less([0xF6], [0x20AC])
    ensures Less([0x20AC], [0x1F600]) && Less([0x1F600], [0xFB33])
  {
    FormOfOne(13);
    FormOfOne(49);
    FormOfOne(0x80);
    FormOfOne(0xF6);
    FormOfOne(0x20AC);
    FormOfOne(0x1F600);
    FormOfOne(0xFB33);
    hide Utf16;
  }
}
