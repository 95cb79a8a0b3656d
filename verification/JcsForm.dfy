/**
 * The canonical text byte by byte (RFC 8785 sections 3.2.2 and 3.2.3), with
 * every character of it written out.
 */
module JcsForm {
  import opened Common
  import opened Unicode
  import opened Jcs

  lemma LiteralsPrint()
    ensures Print(JNull) == [110, 117, 108, 108]
    ensures Print(JBool(true)) == [116, 114, 117, 101]
    ensures Print(JBool(false)) == [102, 97, 108, 115, 101]
  {
  }

  /** A number is a minus sign if it is negative, then the digits of its magnitude, none of them a leading 0. */
  lemma NumbersPrint(n: int)
    ensures var t, m := Print(JNumber(n)), if n < 0 then -n else n;
            && t != [] && (n < 0 ==> t[0] == 45)
            && var d := if n < 0 then t[1..] else t;
               && d != [] && Shift(m, Decimal, |d|) == 0 && (|d| > 1 ==> d[0] != 48)
               && forall i :: 0 <= i < |d| ==> d[|d| - 1 - i] == 48 + Shift(m, Decimal, i) % 10
  {
    NumeralsPrint(if n < 0 then -n else n);
    hide Numeral, Shift;
  }

  lemma NumeralsPrint(m: nat)
    ensures var d := Numeral(m);
            && d != [] && Shift(m, Decimal, |d|) == 0 && (|d| > 1 ==> d[0] != 48)
            && forall i :: 0 <= i < |d| ==> d[|d| - 1 - i] == 48 + Shift(m, Decimal, i) % 10
  {
    DigitsArePlaces(m);
    hide Digits, Shift;
  }

  /** The characters that have a short escape, and its letter. */
  const SHORT: map<int, rune> := map[8 := 98, 9 := 116, 10 := 110, 12 := 102, 13 := 114, 34 := 34, 92 := 92]

  const HEX: Text := [48, 49, 50, 51, 52, 53, 54, 55, 56, 57, 97, 98, 99, 100, 101, 102]

  /** A character stands for itself unless it is a quote, a backslash or a control character. */
  lemma CharactersPrint(r: rune)
    ensures Print(JString([r]))
            == [34] + (if r in SHORT then [92, SHORT[r]]
                       else if r < 32 then [92, 117, 48, 48, HEX[r / 16], HEX[r % 16]]
                       else [r]) + [34]
    ensures Print(JString([])) == [34, 34]
  {
    assert [r][1..] == [];
    assert EscapeAll([r]) == Escape(r) + [];
    EscapesAre(r);
    hide Escape;
  }

  lemma EscapesAre(r: rune)
    ensures Escape(r) == if r in SHORT then [92, SHORT[r]]
                         else if r < 32 then [92, 117, 48, 48, HEX[r / 16], HEX[r % 16]]
                         else [r]
  {
  }

  /** And a string is what its characters are. */
  lemma StringsPrint(a: Text, b: Text)
    ensures var x, y := Print(JString(a)), Print(JString(b));
            x != [] && y != [] && Print(JString(a + b)) == x[..|x| - 1] + y[1..]
  {
    EscapeAllSplits(a, b);
    hide EscapeAll;
    QuotesJoin(EscapeAll(a), EscapeAll(b));
  }

  lemma QuotesJoin(a: Text, b: Text)
    ensures var x, y := [34] + (a + [34]), [34] + (b + [34]);
            [34] + (a + b + [34]) == x[..|x| - 1] + y[1..]
  {
    var x := [34] + (a + [34]);
    assert x[..|x| - 1] == [34] + a;
  }

  lemma {:induction false} EscapeAllSplits(a: Text, b: Text)
    ensures EscapeAll(a + b) == EscapeAll(a) + EscapeAll(b)
  {
    if a == [] {
      assert a + b == b;
    } else {
      assert (a + b)[1..] == a[1..] + b;
      EscapeAllSplits(a[1..], b);
    }
  }

  /** Parts with a comma between each two. */
  function Joined(parts: seq<Text>): Text {
    if parts == [] then [] else if |parts| == 1 then parts[0] else parts[0] + [44] + Joined(parts[1..])
  }

  ghost function Printed(items: seq<Json>): (r: seq<Text>)
    ensures |r| == |items| && forall i :: 0 <= i < |items| ==> r[i] == Print(items[i])
  {
    seq(|items|, i requires 0 <= i < |items| => Print(items[i]))
  }

  /** An array is its items in order, in brackets. */
  lemma ArraysPrint(items: seq<Json>)
    ensures Print(JArray(items)) == [91] + Joined(Printed(items)) + [93]
  {
    if items == [] {
      assert Printed(items) == [];
    } else {
      ItemsPrint(JArray(items), 0);
      assert items[0..] == items;
    }
  }

  lemma {:induction false} ItemsPrint(j: Json, i: nat)
    requires j.JArray? && i < |j.items|
    ensures PrintItems(j, i) == Joined(Printed(j.items[i..])) + [93]
    decreases |j.items| - i
  {
    hide Print;
    var parts := Printed(j.items[i..]);
    assert parts[0] == Print(j.items[i]);
    if i + 1 < |j.items| {
      assert parts[1..] == Printed(j.items[i + 1..]);
      ItemsPrint(j, i + 1);
    }
  }

  ghost function PrintedMembers(members: map<Text, Json>, ks: seq<Text>): (r: seq<Text>)
    requires forall k :: k in ks ==> k in members
    ensures |r| == |ks|
    ensures forall i :: 0 <= i < |ks| ==> r[i] == Print(JString(ks[i])) + [58] + Print(members[ks[i]])
  {
    seq(|ks|, i requires 0 <= i < |ks| => Print(JString(ks[i])) + [58] + Print(members[ks[i]]))
  }

  /** An object is its members in the order of their keys, each a string, a colon and a value, in braces. */
  lemma ObjectsPrint(members: map<Text, Json>, ks: seq<Text>)
    requires Ordered(ks) && forall k :: k in ks <==> k in members
    ensures Print(JObject(members)) == [123] + Joined(PrintedMembers(members, ks)) + [125]
  {
    InOrderIsOrdered(members.Keys);
    OneOrder(ks, InOrder(members.Keys));
    hide InOrder, PrintMembers;
    if ks == [] {
      assert members == map[];
      assert PrintedMembers(members, ks) == [];
    } else {
      assert ks[0] in ks;
      MembersPrint(JObject(members), ks);
    }
  }

  lemma {:induction false} MembersPrint(j: Json, ks: seq<Text>)
    requires j.JObject? && ks != [] && forall k :: k in ks ==> k in j.members
    ensures PrintMembers(j, ks) == Joined(PrintedMembers(j.members, ks)) + [125]
    decreases |ks|
  {
    assert ks[0] in ks;
    var parts := PrintedMembers(j.members, ks);
    MemberPrints(j, ks[0]);
    hide Print, PrintMember, PrintedMembers, Joined;
    JoinedTail(parts);
    if |ks| > 1 {
      assert parts[1..] == PrintedMembers(j.members, ks[1..]);
      MembersPrint(j, ks[1..]);
      Regroup(parts[0] + [44], Joined(parts[1..]), [125]);
      Regroup(parts[0], [44], PrintMembers(j, ks[1..]));
    }
  }

  lemma JoinedTail(parts: seq<Text>)
    requires parts != []
    ensures Joined(parts) == if |parts| == 1 then parts[0] else parts[0] + [44] + Joined(parts[1..])
  {
  }

  lemma MemberPrints(j: Json, k: Text)
    requires j.JObject? && k in j.members
    ensures PrintMember(j, k) == Print(JString(k)) + [58] + Print(j.members[k])
  {
    hide InOrder, PrintMembers, PrintItems, EscapeAll;
  }

  /**
   * What is printed for a decoded value: plain values as they are, a double
   * exactly when it is an integer of at most 2^53 in magnitude.
   */
  lemma ValuesMean(b: bool, s: Text, n: int, d: Double)
    ensures Meaning(Nil) == Some(JNull) && Meaning(Boolean(b)) == Some(JBool(b))
    ensures Meaning(String(s)) == Some(JString(s)) && Meaning(Integer(n)) == Some(JNumber(n))
    ensures Meaning(Unsupported) == None && Meaning(Float(NotFinite)) == None && Meaning(OtherLiteral(None)) == None
    ensures Meaning(OtherLiteral(Some(d))) == Meaning(Float(d))
    ensures Meaning(Float(d)) == Some(JNumber(n))
            <==> d == Finite(n as real) && -9_007_199_254_740_992 <= n <= 9_007_199_254_740_992
    ensures Meaning(Float(d)).Some? ==> exists m :: Meaning(Float(d)) == Some(JNumber(m))
    ensures -9_007_199_254_740_992 <= n <= 9_007_199_254_740_992 ==> Meaning(IntLiteral(n)) == Some(JNumber(n))
  {
  }
}
