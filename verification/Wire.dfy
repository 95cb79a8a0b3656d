/**
 * Signed envelopes: what a signature is computed over, and when an envelope
 * that was signed before sending verifies after it was received. Signing
 * itself is uninterpreted.
 */
module Wire {
  import opened Common
  import opened Unicode
  import opened Jcs
  import opened JcsParse

  type Envelope = map<Text, Value>

  /** Is this text a signature by the key over these bytes? */
  type Verifies = (Text, Bytes, Text) -> bool

  /** The signature an envelope carries; empty when it is absent or not a string. */
  function SigOf(m: Envelope): Text {
    if SIG in m && m[SIG].String? then m[SIG].s else []
  }

  /** Removes the member named sig and renders the rest; None when it cannot be rendered. */
  method CanonicalMinusSig(m: Envelope) returns (canonical: Option<Text>, sig: Text)
    ensures var name: Text := [115, 105, 103];
            && sig == (if name in m && m[name].String? then m[name].s else [])
            && canonical == match Meaning(Object(m - {name})) case None => None case Some(j) => Some(Print(j))
  {
    sig := SigOf(m);
    canonical := WriteJcs([], Object(m - {SIG}));
    assert forall t: Text :: [] + t == t;
  }

  ghost predicate Authentic(m: Envelope, key: Text, verifies: Verifies) {
    && SigOf(m) != []
    && Meaning(Object(m - {SIG})).Some?
    && verifies(key, CanonicalBytes(Object(m - {SIG})).value, SigOf(m))
  }

  /** Raw is None when the bytes are not a JSON object. */
  method VerifyRaw(raw: Option<Envelope>, key: Text, verifies: Verifies) returns (ok: bool)
    ensures ok <==> raw.Some? && Authentic(raw.value, key, verifies)
  {
    if raw.None? {
      return false;
    }
    var canonical, sig := CanonicalMinusSig(raw.value);
    return canonical.Some? && sig != [] && verifies(key, Utf8All(canonical.value), sig);
  }

  /** What the receiver decodes from a value that was encoded as JSON: numbers come back as literals. */
  ghost function Received(v: Value): Value {
    match v
    case Integer(n) => IntLiteral(n)
    case Float(d) => if d.Finite? && d.r == d.r.Floor as real then IntLiteral(d.r.Floor) else v
    case Array(items) => Array(seq(|items|, i requires 0 <= i < |items| => Received(items[i])))
    case Object(members) => Object(map k | k in members :: Received(members[k]))
    case _ => v
  }

  /** Every native integer is one a double holds exactly. */
  ghost predicate IntegersSafe(v: Value) {
    match v
    case Integer(n) => Abs(n) <= SAFE
    case Array(items) => forall i :: 0 <= i < |items| ==> IntegersSafe(items[i])
    case Object(members) => forall k :: k in members ==> IntegersSafe(members[k])
    case _ => true
  }

  /**
   * A value says the same after the trip exactly when its integers are within
   * 2^53: the printer writes a native integer of any size, but a received one
   * is read through a double.
   */
  lemma {:induction false} TripKeepsMeaningIff(v: Value)
    requires Meaning(v).Some?
    ensures Meaning(Received(v)) == Meaning(v) <==> IntegersSafe(v)
  {
    match v
    case Integer(n) => IntegerLiteralsAreExactUpTo2To53(n);
    case Float(d) => IntegerLiteralsAreExactUpTo2To53(d.r.Floor);
    case Array(_) => ArrayTrip(v);
    case Object(_) => ObjectTrip(v);
    case _ =>
  }

  lemma {:induction false} ArrayTrip(v: Value)
    requires v.Array? && Meaning(v).Some?
    ensures Meaning(Received(v)) == Meaning(v) <==> IntegersSafe(v)
    decreases v, 0
  {
    var w := Received(v);
    ArrayMeaning(v);
    ArrayMeaning(w);
    forall i | 0 <= i < |v.items|
      ensures w.items[i] == Received(v.items[i])
      ensures Meaning(w.items[i]) == Meaning(v.items[i]) <==> IntegersSafe(v.items[i])
    {
      TripKeepsMeaningIff(v.items[i]);
    }
    hide Meaning, Received;
    var a := Meaning(v).value.items;
    if IntegersSafe(v) {
      assert forall i :: 0 <= i < |a| ==> Meaning(w.items[i]) == Some(a[i]);
      assert Meaning(w).value.items == a;
    }
  }

  lemma {:induction false} ObjectTrip(v: Value)
    requires v.Object? && Meaning(v).Some?
    ensures Meaning(Received(v)) == Meaning(v) <==> IntegersSafe(v)
    decreases v, 0
  {
    var w := Received(v);
    ObjectMeaning(v);
    ObjectMeaning(w);
    forall k | k in v.members
      ensures w.members[k] == Received(v.members[k])
      ensures Meaning(w.members[k]) == Meaning(v.members[k]) <==> IntegersSafe(v.members[k])
    {
      TripKeepsMeaningIff(v.members[k]);
    }
    hide Meaning, Received;
    var a := Meaning(v).value.members;
    if IntegersSafe(v) {
      assert forall k :: k in a ==> Meaning(w.members[k]) == Some(a[k]);
      assert Meaning(w).value.members == a;
    }
  }

  /** The signable map with its signature over the canonical bytes added. */
  ghost function Signed(m: Envelope, sig: Text): Envelope {
    m[SIG := String(sig)]
  }

  /** An envelope signed by one side verifies at the other, whatever its members, as long as its integers are safe. */
  lemma SignedEnvelopeVerifies(m: Envelope, sig: Text, key: Text, verifies: Verifies)
    requires SIG !in m && sig != []
    requires Meaning(Object(m)).Some? && IntegersSafe(Object(m))
    requires verifies(key, CanonicalBytes(Object(m)).value, sig)
    ensures Authentic(Received(Object(Signed(m, sig))).members, key, verifies)
  {
    var received := Received(Object(Signed(m, sig))).members;
    assert received - {SIG} == Received(Object(m)).members;
    TripKeepsMeaningIff(Object(m));
    assert Object(received - {SIG}) == Received(Object(m));
  }
}
