/**
 * Canonical JSON is unambiguous: a reader, used only in proofs, recovers what
 * was printed, so distinct documents have distinct bytes.
 */
module JcsParse {
  import opened Common
  import opened Unicode
  import opened Jcs

  // -- The reader ------------------------------------------------------------------------

  ghost function ParseLiteral(s: Text, literal: Text, j: Json): (r: Option<(Json, Text)>)
    requires literal != []
    ensures r.Some? ==> |r.value.1| < |s|
  {
    if |literal| <= |s| && s[..|literal|] == literal then Some((j, s[|literal|..])) else None
  }

  ghost function ParseNumber(s: Text): (r: Option<(Json, Text)>)
    ensures r.Some? ==> |r.value.1| < |s|
  {
    var negative := s != [] && s[0] == MINUS;
    var t := if negative then s[1..] else s;
    var n := DigitRun(t);
    if n == 0 then None
    else
      var m: int := DigitsValue(t[..n]);
      Some((JNumber(if negative then -m else m), t[n..]))
  }

  ghost function HexValue(c: rune): Option<int> {
    if 48 <= c <= 57 then Some(c - 48) else if 97 <= c <= 102 then Some(c - 87) else None
  }

  /** One possibly escaped character. */
  ghost function Unescape(s: Text): (r: Option<(rune, Text)>)
    requires s != []
    ensures r.Some? ==> |r.value.1| < |s|
  {
    if s[0] != BACKSLASH then Some((s[0], s[1..]))
    else if |s| < 2 then None
    else if s[1] == QUOTE || s[1] == BACKSLASH then Some((s[1], s[2..]))
    else if s[1] == 98 then Some((8, s[2..]))
    else if s[1] == 116 then Some((9, s[2..]))
    else if s[1] == 110 then Some((10, s[2..]))
    else if s[1] == 102 then Some((12, s[2..]))
    else if s[1] == 114 then Some((13, s[2..]))
    else if s[1] == 117 && |s| >= 6 && s[2] == 48 && s[3] == 48 && HexValue(s[4]).Some? && HexValue(s[5]).Some?
    then Some((HexValue(s[4]).value * 16 + HexValue(s[5]).value, s[6..]))
    else None
  }

  /** The rest of a string, up to its closing quote. */
  ghost function ParseString(s: Text): (r: Option<(Text, Text)>)
    ensures r.Some? ==> |r.value.1| < |s|
    decreases |s|
  {
    if s == [] then None
    else if s[0] == QUOTE then Some(([], s[1..]))
    else
      match Unescape(s)
      case None => None
      case Some((c, s1)) =>
        match ParseString(s1)
        case None => None
        case Some((t, rest)) => Some(([c] + t, rest))
  }

  ghost function ParseValue(s: Text): (r: Option<(Json, Text)>)
    ensures r.Some? ==> |r.value.1| < |s|
    decreases |s|, 0
  {
    if s == [] then None
    else if s[0] == NULL_TEXT[0] then ParseLiteral(s, NULL_TEXT, JNull)
    else if s[0] == TRUE_TEXT[0] then ParseLiteral(s, TRUE_TEXT, JBool(true))
    else if s[0] == FALSE_TEXT[0] then ParseLiteral(s, FALSE_TEXT, JBool(false))
    else if s[0] == QUOTE then
      match ParseString(s[1..])
      case None => None
      case Some((t, rest)) => Some((JString(t), rest))
    else if s[0] == LBRACKET then
      if |s| > 1 && s[1] == RBRACKET then Some((JArray([]), s[2..]))
      else
        match ParseItems(s[1..])
        case None => None
        case Some((items, rest)) => Some((JArray(items), rest))
    else if s[0] == LBRACE then
      if |s| > 1 && s[1] == RBRACE then Some((JObject(map[]), s[2..]))
      else
        match ParseMembers(s[1..])
        case None => None
        case Some((members, rest)) => Some((JObject(members), rest))
    else ParseNumber(s)
  }

  /** At least one item, then the rest of the array. */
  ghost function ParseItems(s: Text): (r: Option<(seq<Json>, Text)>)
    ensures r.Some? ==> |r.value.1| < |s|
    decreases |s|, 1
  {
    match ParseValue(s)
    case None => None
    case Some((j, s1)) =>
      if s1 == [] then None
      else if s1[0] == RBRACKET then Some(([j], s1[1..]))
      else if s1[0] == COMMA then
        match ParseItems(s1[1..])
        case None => None
        case Some((items, rest)) => Some(([j] + items, rest))
      else None
  }

  /** A quoted key, a colon and a value. */
  ghost function ParseMember(s: Text): (r: Option<(Text, Json, Text)>)
    ensures r.Some? ==> |r.value.2| < |s|
    decreases |s|, 1
  {
    if s == [] || s[0] != QUOTE then None
    else
      match ParseString(s[1..])
      case None => None
      case Some((k, s1)) =>
        if s1 == [] || s1[0] != COLON then None
        else
          match ParseValue(s1[1..])
          case None => None
          case Some((j, rest)) => Some((k, j, rest))
  }

  /** At least one member, then the rest of the object. */
  ghost function ParseMembers(s: Text): (r: Option<(map<Text, Json>, Text)>)
    ensures r.Some? ==> |r.value.1| < |s|
    decreases |s|, 2
  {
    match ParseMember(s)
    case None => None
    case Some((k, j, s1)) =>
      if s1 == [] then None
      else if s1[0] == RBRACE then Some((map[k := j], s1[1..]))
      else if s1[0] == COMMA then
        match ParseMembers(s1[1..])
        case None => None
        case Some((members, rest)) => Some((members[k := j], rest))
      else None
  }

  // -- Reading back what was printed --------------------------------------------------------

  lemma UnescapeInverse(c: rune, rest: Text)
    ensures (Escape(c) + rest)[0] != QUOTE
    ensures Unescape(Escape(c) + rest) == Some((c, rest))
  {
    var e, s := Escape(c), Escape(c) + rest;
    assert s[|e|..] == rest;
    assert s[0] == e[0] && (|e| > 1 ==> s[1] == e[1]);
    if |e| == 6 {
      assert s[2] == e[2] && s[3] == e[3] && s[4] == e[4] && s[5] == e[5];
      assert c == c / 16 * 16 + c % 16;
    }
  }

  lemma {:induction false} StringReadsBack(t: Text, rest: Text)
    ensures ParseString(EscapeAll(t) + ([QUOTE] + rest)) == Some((t, rest))
  {
    hide Escape, Unescape;
    var s := EscapeAll(t) + ([QUOTE] + rest);
    if t == [] {
      assert s == [QUOTE] + rest;
    } else {
      var later := EscapeAll(t[1..]) + ([QUOTE] + rest);
      assert s == Escape(t[0]) + later;
      UnescapeInverse(t[0], later);
      StringReadsBack(t[1..], rest);
      assert t == [t[0]] + t[1..];
    }
  }

  predicate Delimits(rest: Text) {
    rest == [] || !IsDigit(rest[0])
  }

  lemma NumeralReadsBack(n: nat, rest: Text)
    requires Delimits(rest)
    ensures var s := Numeral(n) + rest;
            && DigitRun(s) == |Numeral(n)| > 0 && s[..|Numeral(n)|] == Numeral(n) && s[|Numeral(n)|..] == rest
            && DigitsValue(Numeral(n)) == n
    ensures IsDigit(Numeral(n)[0])
  {
    var d: seq<int> := Digits(n);
    assert Numeral(n) == d;
    DigitsValueInverse(n);
    DigitRunExact(Numeral(n), rest);
  }

  lemma NumberReadsBack(n: int, rest: Text)
    requires Delimits(rest)
    ensures FormatInt(n) != [] && (FormatInt(n)[0] == MINUS || IsDigit(FormatInt(n)[0]))
    ensures ParseNumber(FormatInt(n) + rest) == Some((JNumber(n), rest))
  {
    hide Numeral, Digits, DigitsValue, DigitRun, ParseNumber;
    if n < 0 {
      NumeralReadsBack(-n, rest);
      assert FormatInt(n) + rest == [MINUS] + (Numeral(-n) + rest);
      SignedNumber(Numeral(-n) + rest, Numeral(-n), rest);
    } else {
      NumeralReadsBack(n, rest);
      UnsignedNumber(Numeral(n) + rest, Numeral(n), rest);
    }
  }

  lemma UnsignedNumber(s: Text, d: Text, rest: Text)
    requires DigitRun(s) == |d| > 0 && s[..|d|] == d && s[|d|..] == rest
    ensures ParseNumber(s) == Some((JNumber(DigitsValue(d)), rest))
  {
    hide DigitsValue, DigitRun;
    assert s[0] == d[0] && IsDigit(s[0]);
  }

  lemma SignedNumber(s: Text, d: Text, rest: Text)
    requires DigitRun(s) == |d| > 0 && s[..|d|] == d && s[|d|..] == rest
    ensures var m: int := DigitsValue(d); ParseNumber([MINUS] + s) == Some((JNumber(-m), rest))
  {
    hide DigitsValue, DigitRun;
    assert ([MINUS] + s)[1..] == s;
  }

  lemma LiteralReadsBack(literal: Text, j: Json, rest: Text)
    requires literal != []
    ensures ParseLiteral(literal + rest, literal, j) == Some((j, rest))
  {
    assert (literal + rest)[..|literal|] == literal && (literal + rest)[|literal|..] == rest;
  }

  /** No printed value starts like the end of an array. */
  lemma PrintStarts(j: Json)
    ensures Print(j) != [] && Print(j)[0] != RBRACKET
  {
    hide PrintItems, PrintMembers, InOrder, EscapeAll, Numeral;
    if j.JNumber? {
      NumberReadsBack(j.n, []);
    }
  }

  /** Reading inverts printing, whatever follows as long as it does not go on with a digit. */
  lemma {:induction false} ReadsBack(j: Json, rest: Text)
    requires Delimits(rest)
    ensures ParseValue(Print(j) + rest) == Some((j, rest))
    decreases j, 1, 0
  {
    match j
    case JNull => LiteralReadsBack(NULL_TEXT, JNull, rest);
    case JBool(b) => LiteralReadsBack(if b then TRUE_TEXT else FALSE_TEXT, j, rest);
    case JString(t) => QuotedReadsBack(t, rest);
    case JNumber(n) => NumberReadsBack(n, rest); PlainNumber(FormatInt(n) + rest);
    case JArray(items) => ArrayReadsBack(j, rest);
    case JObject(members) => ObjectReadsBack(j, rest);
  }

  lemma PlainNumber(s: Text)
    requires s != [] && (s[0] == MINUS || IsDigit(s[0]))
    ensures ParseValue(s) == ParseNumber(s)
  {
    hide ParseItems, ParseMembers, ParseString, ParseLiteral, ParseNumber;
  }

  lemma QuotedReadsBack(t: Text, rest: Text)
    ensures (Quoted(t) + rest)[0] == QUOTE
    ensures ParseString((Quoted(t) + rest)[1..]) == Some((t, rest))
    ensures ParseValue(Quoted(t) + rest) == Some((JString(t), rest))
  {
    hide EscapeAll, ParseString;
    assert (Quoted(t) + rest)[1..] == EscapeAll(t) + ([QUOTE] + rest);
    StringReadsBack(t, rest);
  }

  lemma {:induction false} ArrayReadsBack(j: Json, rest: Text)
    requires j.JArray?
    ensures ParseValue(Print(j) + rest) == Some((j, rest))
    decreases j, 0, |j.items| + 1
  {
    hide PrintItems, ParseItems, ParseString, ParseMembers, ParseLiteral, ParseNumber;
    var s := Print(j) + rest;
    if j.items == [] {
      assert s[2..] == rest;
    } else {
      ItemsReadBack(j, 0, rest);
      assert s[1..] == PrintItems(j, 0) + rest;
      ItemsStart(j);
      assert s[1] == PrintItems(j, 0)[0];
      assert j.items[0..] == j.items;
    }
  }

  lemma ItemsStart(j: Json)
    requires j.JArray? && j.items != []
    ensures PrintItems(j, 0) != [] && PrintItems(j, 0)[0] != RBRACKET
  {
    hide Print;
    PrintStarts(j.items[0]);
  }

  lemma {:induction false} ItemsReadBack(j: Json, i: nat, rest: Text)
    requires j.JArray? && i < |j.items|
    ensures ParseItems(PrintItems(j, i) + rest) == Some((j.items[i..], rest))
    decreases j, 0, |j.items| - i
  {
    hide Print, ParseValue;
    var s := PrintItems(j, i) + rest;
    if i + 1 < |j.items| {
      var more := PrintItems(j, i + 1) + rest;
      assert s == Print(j.items[i]) + ([COMMA] + more);
      ReadsBack(j.items[i], [COMMA] + more);
      assert ([COMMA] + more)[1..] == more;
      ItemsReadBack(j, i + 1, rest);
      assert j.items[i..] == [j.items[i]] + j.items[i + 1..];
    } else {
      assert s == Print(j.items[i]) + ([RBRACKET] + rest);
      ReadsBack(j.items[i], [RBRACKET] + rest);
      assert ([RBRACKET] + rest)[1..] == rest;
      assert j.items[i..] == [j.items[i]];
    }
  }

  ghost function Restricted(j: Json, ks: seq<Text>): map<Text, Json>
    requires j.JObject? && forall k :: k in ks ==> k in j.members
  {
    map k | k in ks :: j.members[k]
  }

  lemma {:induction false} ObjectReadsBack(j: Json, rest: Text)
    requires j.JObject?
    ensures ParseValue(Print(j) + rest) == Some((j, rest))
    decreases j, 0, |InOrder(j.members.Keys)| + 1
  {
    hide PrintMembers, ParseMembers, InOrder, ParseItems, ParseString, ParseLiteral, ParseNumber;
    var s := Print(j) + rest;
    if j.members == map[] {
      assert s[2..] == rest;
    } else {
      var ks := InOrder(j.members.Keys);
      InOrderIsOrdered(j.members.Keys);
      KeysNotEmpty(j, ks);
      MembersReadBack(j, ks, rest);
      MembersStart(j, ks);
      assert s == [LBRACE] + (PrintMembers(j, ks) + rest);
      BraceOpens(PrintMembers(j, ks) + rest);
      assert Restricted(j, ks) == j.members;
    }
  }

  lemma BraceOpens(t: Text)
    requires t != [] && t[0] == QUOTE
    ensures ParseValue([LBRACE] + t)
            == match ParseMembers(t) case None => None case Some((members, rest)) => Some((JObject(members), rest))
  {
    hide ParseMembers, ParseItems, ParseString, ParseLiteral, ParseNumber;
    assert ([LBRACE] + t)[1..] == t;
  }

  lemma KeysNotEmpty(j: Json, ks: seq<Text>)
    requires j.JObject? && j.members != map[] && forall k :: k in ks <==> k in j.members
    ensures ks != []
  {
    var k :| k in j.members;
    assert k in ks;
  }

  lemma MembersStart(j: Json, ks: seq<Text>)
    requires j.JObject? && ks != [] && forall k :: k in ks ==> k in j.members
    ensures PrintMembers(j, ks) != [] && PrintMembers(j, ks)[0] == QUOTE
  {
    hide Print, EscapeAll;
  }

  lemma {:induction false} MemberReadsBack(j: Json, k: Text, rest: Text)
    requires j.JObject? && k in j.members && Delimits(rest)
    ensures ParseMember(PrintMember(j, k) + rest) == Some((k, j.members[k], rest))
    decreases j, 0, 0
  {
    hide Print, ParseValue, Quoted, ParseString;
    var value := Print(j.members[k]) + rest;
    assert PrintMember(j, k) + rest == Quoted(k) + ([COLON] + value);
    QuotedReadsBack(k, [COLON] + value);
    assert ([COLON] + value)[1..] == value;
    ReadsBack(j.members[k], rest);
  }

  lemma {:induction false} MembersReadBack(j: Json, ks: seq<Text>, rest: Text)
    requires j.JObject? && ks != [] && forall k :: k in ks ==> k in j.members
    ensures ParseMembers(PrintMembers(j, ks) + rest) == Some((Restricted(j, ks), rest))
    decreases j, 0, |ks|
  {
    hide PrintMember, ParseMember;
    var s, k := PrintMembers(j, ks) + rest, ks[0];
    if |ks| > 1 {
      var more := PrintMembers(j, ks[1..]) + rest;
      assert s == PrintMember(j, k) + ([COMMA] + more);
      MemberReadsBack(j, k, [COMMA] + more);
      assert ([COMMA] + more)[1..] == more;
      MembersReadBack(j, ks[1..], rest);
      assert ks == [k] + ks[1..];
      assert Restricted(j, ks) == Restricted(j, ks[1..])[k := j.members[k]];
    } else {
      assert s == PrintMember(j, k) + ([RBRACE] + rest);
      MemberReadsBack(j, k, [RBRACE] + rest);
      assert ([RBRACE] + rest)[1..] == rest;
      assert ks == [k];
      assert Restricted(j, ks) == map[k := j.members[k]];
    }
  }

  // -- The promises ----------------------------------------------------------------------------

  ghost function CanonicalBytes(v: Value): Option<Bytes> {
    match Meaning(v)
    case None => None
    case Some(j) => Some(Utf8All(Print(j)))
  }

  /** Two values have the same canonical bytes exactly when they say the same. */
  lemma SameBytesIffSameMeaning(v: Value, w: Value)
    requires Meaning(v).Some? && Meaning(w).Some?
    ensures CanonicalBytes(v) == CanonicalBytes(w) <==> Meaning(v) == Meaning(w)
  {
    hide Meaning, Print, ParseValue, Utf8All;
    var a, b := Meaning(v).value, Meaning(w).value;
    if CanonicalBytes(v) == CanonicalBytes(w) {
      Utf8Injective(Print(a), Print(b));
      ReadsBack(a, []);
      ReadsBack(b, []);
      assert Print(a) + [] == Print(b) + [];
    }
  }

  const SIG: Text := [115, 105, 103]

  /**
   * The bytes a signature covers pin down every member of the envelope other
   * than the signature itself, known or unknown, and nothing else.
   */
  lemma SignatureCoversAllButItself(m: map<Text, Value>, n: map<Text, Value>)
    requires Meaning(Object(m - {SIG})).Some? && Meaning(Object(n - {SIG})).Some?
    ensures CanonicalBytes(Object(m - {SIG})) == CanonicalBytes(Object(n - {SIG}))
            <==> forall k :: k != SIG ==> (k in m <==> k in n) && (k in m ==> Meaning(m[k]) == Meaning(n[k]))
  {
    hide CanonicalBytes;
    var v, w := Object(m - {SIG}), Object(n - {SIG});
    SameBytesIffSameMeaning(v, w);
    ObjectMeaning(v);
    ObjectMeaning(w);
    hide Meaning;
    var a, b := Meaning(v).value, Meaning(w).value;
    assert forall k :: k in m - {SIG} <==> k in m && k != SIG;
    assert forall k :: k in n - {SIG} <==> k in n && k != SIG;
    if a == b {
      forall k | k != SIG ensures (k in m <==> k in n) && (k in m ==> Meaning(m[k]) == Meaning(n[k])) {
        assert k in a.members <==> k in b.members;
      }
    }
    if forall k :: k != SIG ==> (k in m <==> k in n) && (k in m ==> Meaning(m[k]) == Meaning(n[k])) {
      assert a.members.Keys == b.members.Keys;
      assert forall k :: k in a.members ==> a.members[k] == b.members[k];
      assert a.members == b.members;
    }
  }
}
