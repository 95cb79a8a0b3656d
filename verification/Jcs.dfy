/**
 * Canonical JSON for the values the wire contracts use (RFC 8785 sections
 * 3.2.2.2 and 3.2.3): integers within the safe range, strings with the
 * shortest escapes, object keys in UTF-16 order.
 */
module Jcs {
  import opened Common
  import opened Unicode

  const SAFE := 0x20_0000_0000_0000

  // -- Values ------------------------------------------------------------------------

  /** A double, as far as it matters here. */
  datatype Double = Finite(r: real) | NotFinite

  /**
   * A decoded value as the printer receives it. IntLiteral is a json.Number
   * written as an integer; OtherLiteral is any other json.Number, with the
   * double it parses to, or None when it is out of range.
   */
  datatype Value =
    | Nil
    | Boolean(b: bool)
    | String(s: Text)
    | Integer(n: int)
    | Float(d: Double)
    | IntLiteral(lit: int)
    | OtherLiteral(parsed: Option<Double>)
    | Array(items: seq<Value>)
    | Object(members: map<Text, Value>)
    | Unsupported

  /** What a canonical document says. */
  datatype Json =
    | JNull
    | JBool(b: bool)
    | JString(s: Text)
    | JNumber(n: int)
    | JArray(items: seq<Json>)
    | JObject(members: map<Text, Json>)

  /** Nearest double of an integer, ties to even, up to 2^54; beyond, any double is as good here. */
  function RoundToDouble(n: int): int {
    var m := if n < 0 then -n else n;
    if m <= SAFE || m >= 2 * SAFE || m % 2 == 0 then n
    else
      var even := if m % 4 == 1 then m - 1 else m + 1;
      if n < 0 then -even else even
  }

  function Abs(n: int): nat {
    if n < 0 then -n else n
  }

  function MeaningOfDouble(d: Double): Option<Json> {
    if d.NotFinite? || d.r != d.r.Floor as real || Abs(d.r.Floor) > SAFE then None else Some(JNumber(d.r.Floor))
  }

  /** What is printed for a value, or None when it is refused. */
  ghost function Meaning(v: Value): Option<Json> {
    match v
    case Nil => Some(JNull)
    case Boolean(b) => Some(JBool(b))
    case String(s) => Some(JString(s))
    case Integer(n) => Some(JNumber(n))
    case Float(d) => MeaningOfDouble(d)
    case IntLiteral(lit) => if Abs(RoundToDouble(lit)) > SAFE then None else Some(JNumber(RoundToDouble(lit)))
    case OtherLiteral(parsed) => if parsed.None? then None else MeaningOfDouble(parsed.value)
    case Array(items) =>
      if forall i :: 0 <= i < |items| ==> Meaning(items[i]).Some?
      then Some(JArray(seq(|items|, i requires 0 <= i < |items| => Meaning(items[i]).value)))
      else None
    case Object(members) =>
      if forall k :: k in members ==> Meaning(members[k]).Some?
      then Some(JObject(map k | k in members :: Meaning(members[k]).value))
      else None
    case Unsupported => None
  }

  /**
   * An integer literal is accepted exactly up to 2^53 + 1 in magnitude, and
   * printed as itself exactly up to 2^53: one beyond, the double it is read
   * into is 2^53, and two different literals print the same.
   */
  lemma IntegerLiteralsAreExactUpTo2To53(n: int)
    ensures Meaning(IntLiteral(n)).Some? <==> Abs(n) <= SAFE + 1
    ensures Meaning(IntLiteral(n)) == Some(JNumber(n)) <==> Abs(n) <= SAFE
    ensures Meaning(IntLiteral(SAFE + 1)) == Meaning(IntLiteral(SAFE))
  {
  }

  // -- Text --------------------------------------------------------------------------

  const QUOTE: rune := 34
  const BACKSLASH: rune := 92
  const COMMA: rune := 44
  const COLON: rune := 58
  const MINUS: rune := 45
  const LBRACKET: rune := 91
  const RBRACKET: rune := 93
  const LBRACE: rune := 123
  const RBRACE: rune := 125

  const NULL_TEXT: Text := [110, 117, 108, 108]
  const TRUE_TEXT: Text := [116, 114, 117, 101]
  const FALSE_TEXT: Text := [102, 97, 108, 115, 101]

  function HexDigit(d: int): rune
    requires 0 <= d < 16
  {
    if d < 10 then 48 + d else 87 + d
  }

  function Escape(r: rune): Text {
    if r == QUOTE then [BACKSLASH, QUOTE]
    else if r == BACKSLASH then [BACKSLASH, BACKSLASH]
    else if r == 8 then [BACKSLASH, 98]
    else if r == 9 then [BACKSLASH, 116]
    else if r == 10 then [BACKSLASH, 110]
    else if r == 12 then [BACKSLASH, 102]
    else if r == 13 then [BACKSLASH, 114]
    else if r < 0x20 then [BACKSLASH, 117, 48, 48, HexDigit(r / 16), HexDigit(r % 16)]
    else [r]
  }

  function EscapeAll(s: Text): Text {
    if s == [] then [] else Escape(s[0]) + EscapeAll(s[1..])
  }

  function Quoted(s: Text): Text {
    [QUOTE] + (EscapeAll(s) + [QUOTE])
  }

  function Numeral(n: nat): Text {
    var d := Digits(n);
    seq(|d|, i requires 0 <= i < |d| => d[i] as int)
  }

  function FormatInt(n: int): Text {
    if n < 0 then [MINUS] + Numeral(-n) else Numeral(n)
  }

  // -- Key order -----------------------------------------------------------------------

  ghost predicate Ordered(ks: seq<Text>) {
    forall i, j :: 0 <= i < j < |ks| ==> Less(ks[i], ks[j])
  }

  /** The keys of a set in order: there is one such sequence, whatever order they are met in. */
  lemma {:induction false} OneOrder(a: seq<Text>, b: seq<Text>)
    requires Ordered(a) && Ordered(b) && (forall k :: k in a <==> k in b)
    ensures a == b
  {
    EmptyTogether(a, b);
    if a != [] {
      assert a[0] in a && b[0] in b;
      HeadsAgree(a, b);
      forall k ensures k in a[1..] <==> k in b[1..] {
        TailWithoutHead(a, k);
        TailWithoutHead(b, k);
      }
      OneOrder(a[1..], b[1..]);
      assert a == [a[0]] + a[1..] && b == [b[0]] + b[1..];
    }
  }

  lemma EmptyTogether(a: seq<Text>, b: seq<Text>)
    requires forall k :: k in a <==> k in b
    ensures a == [] <==> b == []
  {
    if a != [] {
      assert a[0] in a;
    }
    if b != [] {
      assert b[0] in b;
    }
  }

  lemma HeadsAgree(a: seq<Text>, b: seq<Text>)
    requires Ordered(a) && Ordered(b) && a != [] && b != [] && a[0] in b && b[0] in a
    ensures a[0] == b[0]
  {
    var i :| 0 <= i < |b| && b[i] == a[0];
    var j :| 0 <= j < |a| && a[j] == b[0];
    LessIsStrictTotalOrder(a[0], b[0], a[0]);
  }

  lemma TailWithoutHead(a: seq<Text>, k: Text)
    requires Ordered(a) && a != []
    ensures k in a[1..] <==> k in a && k != a[0]
  {
    LessIsStrictTotalOrder(a[0], a[0], a[0]);
    if k in a[1..] {
      var i :| 0 <= i < |a[1..]| && a[1..][i] == k;
      assert a[i + 1] == k;
    }
    if k in a && k != a[0] {
      var i :| 0 <= i < |a| && a[i] == k;
      assert a[1..][i - 1] == k;
    }
  }

  /** Inserts a key into its place, as one step of sorting. */
  method InsertKey(ks: seq<Text>, k: Text) returns (r: seq<Text>)
    requires Ordered(ks) && k !in ks
    ensures Ordered(r) && forall x :: x in r <==> x in ks || x == k
  {
    var i := 0;
    var more := true;
    while i < |ks| && more
      invariant i <= |ks|
      invariant forall j :: 0 <= j < i ==> Less(ks[j], k)
      invariant !more ==> i < |ks| && Less(k, ks[i])
      decreases |ks| - i, more
    {
      var before := LessUtf16(ks[i], k);
      if before {
        i := i + 1;
      } else {
        LessIsStrictTotalOrder(ks[i], k, k);
        more := false;
      }
    }
    r := ks[..i] + [k] + ks[i..];
    PlacedInOrder(ks, i, k);
    forall x ensures x in r <==> x in ks || x == k {
      assert ks == ks[..i] + ks[i..];
    }
  }

  lemma PlacedInOrder(ks: seq<Text>, i: nat, k: Text)
    requires Ordered(ks) && i <= |ks|
    requires forall j :: 0 <= j < i ==> Less(ks[j], k)
    requires i < |ks| ==> Less(k, ks[i])
    ensures Ordered(ks[..i] + [k] + ks[i..])
  {
    var r := ks[..i] + [k] + ks[i..];
    forall a, b | 0 <= a < b < |r| ensures Less(r[a], r[b]) {
      if b > i {
        assert r[b] == ks[b - 1];
        if a == i {
          LessIsStrictTotalOrder(k, ks[i], ks[b - 1]);
        } else if a > i {
          assert r[a] == ks[a - 1];
        }
      }
    }
  }

  /** Collects the keys of a map in whatever order they come and sorts them. */
  method SortKeys(keys: set<Text>) returns (ks: seq<Text>)
    ensures ks == InOrder(keys)
  {
    ks := [];
    var todo := keys;
    while todo != {}
      invariant todo <= keys
      invariant Ordered(ks) && forall k :: k in ks <==> k in keys && k !in todo
      decreases todo
    {
      var k :| k in todo;
      ks := InsertKey(ks, k);
      todo := todo - {k};
    }
    InOrderIsOrdered(keys);
    OneOrder(ks, InOrder(keys));
  }

  ghost predicate IsLeast(keys: set<Text>, k: Text) {
    k in keys && forall x :: x in keys && x != k ==> Less(k, x)
  }

  lemma {:induction false} LeastExists(keys: set<Text>)
    requires keys != {}
    ensures exists k :: IsLeast(keys, k)
  {
    var k :| k in keys;
    var rest := keys - {k};
    if rest == {} {
      assert keys == {k};
      assert IsLeast(keys, k);
    } else {
      LeastExists(rest);
      var m :| IsLeast(rest, m);
      LessIsStrictTotalOrder(k, m, m);
      forall x ensures Less(k, m) && Less(m, x) ==> Less(k, x) {
        LessIsStrictTotalOrder(k, m, x);
      }
      assert IsLeast(keys, if Less(k, m) then k else m);
    }
  }

  ghost function InOrder(keys: set<Text>): seq<Text> {
    if keys == {} then []
    else
      LeastExists(keys);
      var k :| IsLeast(keys, k);
      [k] + InOrder(keys - {k})
  }

  lemma {:induction false} InOrderIsOrdered(keys: set<Text>)
    ensures Ordered(InOrder(keys)) && forall k :: k in InOrder(keys) <==> k in keys
  {
    if keys != {} {
      var ks := InOrder(keys);
      LeastExists(keys);
      assert IsLeast(keys, ks[0]) && ks[1..] == InOrder(keys - {ks[0]});
      InOrderIsOrdered(keys - {ks[0]});
      var tail := ks[1..];
      assert ks == [ks[0]] + tail;
      forall i, j | 0 <= i < j < |ks| ensures Less(ks[i], ks[j]) {
        assert ks[j] == tail[j - 1] && tail[j - 1] in tail;
        if i > 0 {
          assert ks[i] == tail[i - 1];
        }
      }
    }
  }

  // -- Printing ------------------------------------------------------------------------

  ghost function Print(j: Json): Text
    decreases j, 1, 0
  {
    match j
    case JNull => NULL_TEXT
    case JBool(b) => if b then TRUE_TEXT else FALSE_TEXT
    case JString(s) => Quoted(s)
    case JNumber(n) => FormatInt(n)
    case JArray(items) => if items == [] then [LBRACKET, RBRACKET] else [LBRACKET] + PrintItems(j, 0)
    case JObject(members) =>
      InOrderIsOrdered(members.Keys);
      if members == map[] then [LBRACE, RBRACE] else [LBRACE] + PrintMembers(j, InOrder(members.Keys))
  }

  /** Items from i on, and the closing bracket. */
  ghost function PrintItems(j: Json, i: nat): Text
    requires j.JArray? && i < |j.items|
    decreases j, 0, |j.items| - i
  {
    Print(j.items[i]) + if i + 1 < |j.items| then [COMMA] + PrintItems(j, i + 1) else [RBRACKET]
  }

  ghost function PrintMember(j: Json, k: Text): Text
    requires j.JObject? && k in j.members
    decreases j, 0, 0
  {
    Quoted(k) + [COLON] + Print(j.members[k])
  }

  /** The members under these keys, and the closing brace. */
  ghost function PrintMembers(j: Json, ks: seq<Text>): Text
    requires j.JObject? && ks != [] && forall k :: k in ks ==> k in j.members
    decreases j, 0, |ks|
  {
    PrintMember(j, ks[0]) + if |ks| > 1 then [COMMA] + PrintMembers(j, ks[1..]) else [RBRACE]
  }

  // -- The writer ------------------------------------------------------------------------

  /** What is still to come after i items, separator included. */
  ghost function ItemsRest(j: Json, i: nat): Text
    requires j.JArray? && i <= |j.items|
  {
    if i == |j.items| then [RBRACKET] else if i == 0 then PrintItems(j, 0) else [COMMA] + PrintItems(j, i)
  }

  ghost function MembersRest(j: Json, ks: seq<Text>, i: nat): Text
    requires j.JObject? && i <= |ks| && forall k :: k in ks ==> k in j.members
  {
    if i == |ks| then [RBRACE] else if i == 0 then PrintMembers(j, ks) else [COMMA] + PrintMembers(j, ks[i..])
  }

  method WriteString(b: Text, s: Text) returns (r: Text)
    ensures r == b + Quoted(s)
  {
    hide Escape;
    r := b + [QUOTE];
    for i := 0 to |s|
      invariant r + EscapeAll(s[i..]) == b + [QUOTE] + EscapeAll(s)
    {
      assert s[i..][1..] == s[i + 1..];
      assert r + EscapeAll(s[i..]) == (r + Escape(s[i])) + EscapeAll(s[i + 1..]);
      r := r + Escape(s[i]);
    }
    assert r == b + [QUOTE] + EscapeAll(s);
    r := r + [QUOTE];
  }

  /** Appends the canonical text of v to b, or refuses; the text does not depend on the order maps are walked in. */
  method WriteJcs(b: Text, v: Value) returns (r: Option<Text>)
    ensures r == match Meaning(v)
                 case None => None
                 case Some(j) => Some(b + Print(j))
    decreases v, 1
  {
    match v
    case Nil => r := Some(b + NULL_TEXT);
    case Boolean(x) => r := Some(b + if x then TRUE_TEXT else FALSE_TEXT);
    case String(s) =>
      var t := WriteString(b, s);
      r := Some(t);
    case Integer(n) => r := Some(b + FormatInt(n));
    case Float(d) => r := WriteDouble(b, d);
    case IntLiteral(lit) => r := WriteDouble(b, Finite(RoundToDouble(lit) as real));
    case OtherLiteral(parsed) =>
      if parsed.None? {
        return None;
      }
      r := WriteDouble(b, parsed.value);
    case Array(_) => r := WriteArray(b, v);
    case Object(_) => r := WriteObject(b, v);
    case Unsupported => r := None;
  }

  method WriteDouble(b: Text, d: Double) returns (r: Option<Text>)
    ensures r == match MeaningOfDouble(d)
                 case None => None
                 case Some(j) => Some(b + Print(j))
  {
    if d.NotFinite? || d.r != d.r.Floor as real || Abs(d.r.Floor) > SAFE {
      return None;
    }
    return Some(b + FormatInt(d.r.Floor));
  }

  /** What goes before the i-th part. */
  function Separator(i: nat): Text {
    if i > 0 then [COMMA] else []
  }

  lemma PartAppended(out: Text, sep: Text, part: Text, rest: Text, whole: Text)
    requires whole == sep + (part + rest)
    ensures out + sep + part + rest == out + whole
  {
  }

  lemma ItemStep(j: Json, i: nat)
    requires j.JArray? && i < |j.items|
    ensures ItemsRest(j, i) == Separator(i) + (Print(j.items[i]) + ItemsRest(j, i + 1))
  {
    hide Print;
  }

  lemma ArrayOpens(j: Json, b: Text)
    requires j.JArray?
    ensures b + [LBRACKET] + ItemsRest(j, 0) == b + Print(j)
  {
    hide PrintItems;
  }

  lemma MemberStep(j: Json, ks: seq<Text>, i: nat)
    requires j.JObject? && i < |ks| && forall k :: k in ks ==> k in j.members
    ensures MembersRest(j, ks, i) == Separator(i) + (PrintMember(j, ks[i]) + MembersRest(j, ks, i + 1))
  {
    hide Print, PrintMember;
    assert ks[i..][0] == ks[i] && ks[i..][1..] == ks[i + 1..] && ks[0..] == ks;
  }

  lemma ObjectOpens(j: Json, b: Text)
    requires j.JObject?
    ensures forall k :: k in InOrder(j.members.Keys) <==> k in j.members
    ensures b + [LBRACE] + MembersRest(j, InOrder(j.members.Keys), 0) == b + Print(j)
  {
    hide PrintMembers;
    InOrderIsOrdered(j.members.Keys);
    var ks := InOrder(j.members.Keys);
    assert ks == [] <==> j.members == map[] by {
      assert ks != [] ==> ks[0] in ks;
    }
  }

  lemma ArrayMeaning(v: Value)
    requires v.Array?
    ensures Meaning(v).Some? <==> forall i :: 0 <= i < |v.items| ==> Meaning(v.items[i]).Some?
    ensures Meaning(v).Some? ==>
              var j := Meaning(v).value;
              && j.JArray? && |j.items| == |v.items|
              && forall i :: 0 <= i < |v.items| ==> Meaning(v.items[i]) == Some(j.items[i])
  {
  }

  lemma ObjectMeaning(v: Value)
    requires v.Object?
    ensures Meaning(v).Some? <==> forall k :: k in v.members ==> Meaning(v.members[k]).Some?
    ensures Meaning(v).Some? ==>
              var j := Meaning(v).value;
              && j.JObject? && j.members.Keys == v.members.Keys
              && forall k :: k in v.members ==> Meaning(v.members[k]) == Some(j.members[k])
  {
  }

  method WriteArray(b: Text, v: Value) returns (r: Option<Text>)
    requires v.Array?
    ensures r == match Meaning(v)
                 case None => None
                 case Some(j) => Some(b + Print(j))
    decreases v, 0
  {
    hide Meaning, Print, PrintItems;
    var items := v.items;
    ArrayMeaning(v);
    ghost var fine := Meaning(v).Some?;
    ghost var j := if fine then Meaning(v).value else JArray([]);
    ArrayOpens(j, b);
    var out := b + [LBRACKET];
    for i := 0 to |items|
      invariant forall k :: 0 <= k < i ==> Meaning(items[k]).Some?
      invariant fine ==> out + ItemsRest(j, i) == b + Print(j)
    {
      ghost var before := out;
      if i > 0 {
        out := out + [COMMA];
      }
      assert out == before + Separator(i);
      var next := WriteJcs(out, items[i]);
      if next.None? {
        return None;
      }
      if fine {
        ItemStep(j, i);
        PartAppended(before, Separator(i), Print(j.items[i]), ItemsRest(j, i + 1), ItemsRest(j, i));
      }
      out := next.value;
    }
    r := Some(out + [RBRACKET]);
  }

  method WriteObject(b: Text, v: Value) returns (r: Option<Text>)
    requires v.Object?
    ensures r == match Meaning(v)
                 case None => None
                 case Some(j) => Some(b + Print(j))
    decreases v, 0
  {
    hide Meaning, Print, PrintMembers, InOrder, Quoted;
    var members := v.members;
    ObjectMeaning(v);
    ghost var fine := Meaning(v).Some?;
    ghost var j := if fine then Meaning(v).value else JObject(map[]);
    var ks := SortKeys(members.Keys);
    InOrderIsOrdered(members.Keys);
    ObjectOpens(j, b);
    var out := b + [LBRACE];
    for i := 0 to |ks|
      invariant forall l :: 0 <= l < i ==> Meaning(members[ks[l]]).Some?
      invariant fine ==> out + MembersRest(j, ks, i) == b + Print(j)
    {
      ghost var before := out;
      if i > 0 {
        out := out + [COMMA];
      }
      assert out == before + Separator(i);
      assert ks[i] in ks;
      out := WriteString(out, ks[i]);
      out := out + [COLON];
      var next := WriteJcs(out, members[ks[i]]);
      if next.None? {
        return None;
      }
      if fine {
        MemberStep(j, ks, i);
        PartAppended(before, Separator(i), PrintMember(j, ks[i]), MembersRest(j, ks, i + 1), MembersRest(j, ks, i));
        MemberText(before + Separator(i), j, ks[i]);
      }
      out := next.value;
    }
    EachInSeq(ks, members);
    r := Some(out + [RBRACE]);
  }

  lemma MemberText(b: Text, j: Json, k: Text)
    requires j.JObject? && k in j.members
    ensures b + Quoted(k) + [COLON] + Print(j.members[k]) == b + PrintMember(j, k)
  {
    hide Print, Quoted;
  }

  lemma EachInSeq(ks: seq<Text>, members: map<Text, Value>)
    requires forall k :: k in ks <==> k in members
    requires forall l :: 0 <= l < |ks| ==> Meaning(members[ks[l]]).Some?
    ensures forall k :: k in members ==> Meaning(members[k]).Some?
  {
    forall k | k in members ensures Meaning(members[k]).Some? {
      var l :| 0 <= l < |ks| && ks[l] == k;
      assert Meaning(members[ks[l]]).Some?;
    }
  }
}
