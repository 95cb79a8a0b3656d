/**
 * The WebSocket frame codec (RFC 6455 sections 5.2 and 5.3): what is written
 * on the wire for a frame, what a reader makes of a byte stream, and that
 * each is the other's inverse.
 */
module WebSocketFrames {
  import opened Common
  import opened NetworkOrder

  const MAX_FRAME := 0x10_0000

  /** How the payload length is written: in seven bits, or extended to two or eight bytes. */
  datatype LengthForm = Seven | Two | Eight

  datatype MaskKey = MaskKey(k0: byte, k1: byte, k2: byte, k3: byte)

  datatype Frame = Frame(fin: bool, opcode: nat, payload: Bytes)

  datatype Read = Got(frame: Frame, rest: Bytes) | Short | NonzeroRsv | TooLarge

  // -- Exclusive or ----------------------------------------------------------------

  /** Bitwise exclusive or of the low n bits. */
  function XorBits(a: nat, b: nat, n: nat): nat {
    if n == 0 then 0 else 2 * XorBits(a / 2, b / 2, n - 1) + (if a % 2 == b % 2 then 0 else 1)
  }

  function Pow2(n: nat): nat {
    if n == 0 then 1 else 2 * Pow2(n - 1)
  }

  lemma Halves(h: nat, bit: nat)
    requires bit < 2
    ensures (2 * h + bit) / 2 == h && (2 * h + bit) % 2 == bit
  {
  }

  lemma {:induction false} XorBitsInvolution(a: nat, b: nat, n: nat)
    requires a < Pow2(n)
    ensures XorBits(a, b, n) < Pow2(n)
    ensures XorBits(XorBits(a, b, n), b, n) == a
  {
    if n > 0 {
      XorBitsInvolution(a / 2, b / 2, n - 1);
      var x := XorBits(a, b, n);
      Halves(XorBits(a / 2, b / 2, n - 1), if a % 2 == b % 2 then 0 else 1);
      assert XorBits(x, b, n) == 2 * (a / 2) + (if x % 2 == b % 2 then 0 else 1);
    }
  }

  lemma {:induction false} XorBitsBound(a: nat, b: nat, n: nat)
    ensures XorBits(a, b, n) < Pow2(n)
  {
    if n > 0 {
      XorBitsBound(a / 2, b / 2, n - 1);
    }
  }

  function Xor(a: byte, b: byte): (r: byte) {
    XorBitsBound(a, b, 8);
    assert Pow2(8) == 256;
    XorBits(a, b, 8)
  }

  lemma XorTwice(a: byte, b: byte)
    ensures Xor(Xor(a, b), b) == a
  {
    assert Pow2(8) == 256;
    XorBitsInvolution(a, b, 8);
  }

  function KeyByte(key: MaskKey, i: nat): byte {
    match i % 4
    case 0 => key.k0
    case 1 => key.k1
    case 2 => key.k2
    case _ => key.k3
  }

  function Masked(payload: Bytes, key: MaskKey): (r: Bytes)
    ensures |r| == |payload|
  {
    seq(|payload|, i requires 0 <= i < |payload| => Xor(payload[i], KeyByte(key, i)))
  }

  /** Masking twice with the same key changes nothing. */
  lemma MaskedTwice(payload: Bytes, key: MaskKey)
    ensures Masked(Masked(payload, key), key) == payload
  {
    hide Xor;
    forall i | 0 <= i < |payload| ensures Masked(Masked(payload, key), key)[i] == payload[i] {
      XorTwice(payload[i], KeyByte(key, i));
    }
  }

  // -- Lengths -----------------------------------------------------------------------

  lemma LengthBounds()
    ensures Pow256(2) == 0x1_0000
    ensures MAX_FRAME < Pow256(8)
  {
    assert Pow256(2) == 256 * Pow256(1) == 256 * 256;
    assert Pow256(4) == 256 * Pow256(3) == 256 * 256 * Pow256(2);
    assert Pow256(6) == 256 * Pow256(5) == 256 * 256 * Pow256(4);
    assert Pow256(8) == 256 * Pow256(7) == 256 * 256 * Pow256(6);
  }

  // -- Writing -----------------------------------------------------------------------

  /** The shortest form for n bytes. */
  function FormFor(n: nat): LengthForm {
    if n < 126 then Seven else if n <= 0xFFFF then Two else Eight
  }

  predicate FormFits(form: LengthForm, n: nat) {
    match form
    case Seven => n < 126
    case Two => n <= 0xFFFF
    case Eight => true
  }

  function LengthByte(form: LengthForm, n: nat): (r: nat)
    requires FormFits(form, n)
    ensures r < 128
  {
    match form
    case Seven => n
    case Two => 126
    case Eight => 127
  }

  function Extension(form: LengthForm, n: nat): Bytes {
    match form
    case Seven => []
    case Two => BigEndian(n, 2)
    case Eight => BigEndian(n, 8)
  }

  function KeyBytes(mask: Option<MaskKey>): Bytes {
    if mask.None? then [] else [mask.value.k0, mask.value.k1, mask.value.k2, mask.value.k3]
  }

  function Body(mask: Option<MaskKey>, payload: Bytes): Bytes {
    if mask.None? then payload else Masked(payload, mask.value)
  }

  function FirstByte(fin: bool, opcode: nat): byte
    requires opcode < 16
  {
    (if fin then 128 else 0) + opcode
  }

  function SecondByte(masked: bool, l: nat): byte
    requires l < 128
  {
    (if masked then 128 else 0) + l
  }

  function Encode(f: Frame, mask: Option<MaskKey>, form: LengthForm): Bytes
    requires f.opcode < 16 && FormFits(form, |f.payload|)
  {
    [FirstByte(f.fin, f.opcode), SecondByte(mask.Some?, LengthByte(form, |f.payload|))]
    + (Extension(form, |f.payload|) + (KeyBytes(mask) + Body(mask, f.payload)))
  }

  // -- Reading -----------------------------------------------------------------------

  /** The length announced by seven bits and what follows them. */
  function TakeLength(l: nat, s: Bytes): Option<(nat, Bytes)> {
    if l == 126 then if |s| < 2 then None else Some((FromBigEndian(s[..2]), s[2..]))
    else if l == 127 then if |s| < 8 then None else Some((FromBigEndian(s[..8]), s[8..]))
    else Some((l, s))
  }

  function TakeKey(masked: bool, s: Bytes): Option<(Option<MaskKey>, Bytes)> {
    if !masked then Some((None, s))
    else if |s| < 4 then None
    else Some((Some(MaskKey(s[0], s[1], s[2], s[3])), s[4..]))
  }

  /** Reads one frame off the front of a stream; frames above 2^20 bytes and reserved bits are refused. */
  function ReadOne(s: Bytes): Read {
    if |s| < 2 then Short
    else if (s[0] as int) / 16 % 8 != 0 then NonzeroRsv
    else
      match TakeLength((s[1] as int) % 128, s[2..])
      case None => Short
      case Some((n, afterLength)) =>
        if n > MAX_FRAME then TooLarge
        else
          match TakeKey((s[1] as int) >= 128, afterLength)
          case None => Short
          case Some((mask, afterKey)) =>
            if |afterKey| < n then Short
            else Got(Frame((s[0] as int) >= 128, (s[0] as int) % 16, Body(mask, afterKey[..n])), afterKey[n..])
  }

  lemma TakeLengthOfExtension(form: LengthForm, n: nat, t: Bytes)
    requires FormFits(form, n) && n < Pow256(8)
    ensures TakeLength(LengthByte(form, n), Extension(form, n) + t) == Some((n, t))
  {
    LengthBounds();
    var e := Extension(form, n);
    assert (e + t)[..|e|] == e && (e + t)[|e|..] == t;
    match form
    case Seven =>
    case Two => BigEndianInverse(n, 2);
    case Eight => BigEndianInverse(n, 8);
  }

  lemma TakeKeyOfBytes(mask: Option<MaskKey>, t: Bytes)
    ensures TakeKey(mask.Some?, KeyBytes(mask) + t) == Some((mask, t))
  {
    var k := KeyBytes(mask);
    assert (k + t)[|k|..] == t;
  }

  lemma BodyTwice(mask: Option<MaskKey>, payload: Bytes)
    ensures |Body(mask, payload)| == |payload| && Body(mask, Body(mask, payload)) == payload
  {
    if mask.Some? {
      MaskedTwice(payload, mask.value);
    }
  }

  /** Whatever the mask and the length form, the reader recovers the frame and stops right behind it. */
  lemma ReadAfterWrite(f: Frame, mask: Option<MaskKey>, form: LengthForm, rest: Bytes)
    requires f.opcode < 16 && FormFits(form, |f.payload|) && |f.payload| <= 1_048_576
    ensures ReadOne(Encode(f, mask, form) + rest) == Got(f, rest)
  {
    hide Body, KeyBytes, Extension, TakeLength, TakeKey, Pow256;
    var n := |f.payload|;
    var e, k, b := Extension(form, n), KeyBytes(mask), Body(mask, f.payload);
    var s := Encode(f, mask, form) + rest;
    LengthBounds();
    BodyTwice(mask, f.payload);
    assert s[2..] == e + (k + (b + rest));
    TakeLengthOfExtension(form, n, k + (b + rest));
    TakeKeyOfBytes(mask, b + rest);
    assert (b + rest)[..n] == b && (b + rest)[n..] == rest;
  }

  /** A frame above the limit is refused whatever its content. */
  lemma OversizeIsRefused(f: Frame, mask: Option<MaskKey>, rest: Bytes)
    requires f.opcode < 16 && 1_048_576 < |f.payload| < Pow256(8)
    ensures ReadOne(Encode(f, mask, Eight) + rest) == TooLarge
  {
    hide Body, KeyBytes, Extension, TakeLength, Pow256;
    var n := |f.payload|;
    var e, k, b := Extension(Eight, n), KeyBytes(mask), Body(mask, f.payload);
    var s := Encode(f, mask, Eight) + rest;
    assert s[2..] == e + (k + (b + rest));
    TakeLengthOfExtension(Eight, n, k + (b + rest));
  }

  lemma LengthTaken(l: nat, s: Bytes) returns (form: LengthForm)
    requires l < 128 && TakeLength(l, s).Some?
    ensures var (n, t) := TakeLength(l, s).value;
            FormFits(form, n) && l == LengthByte(form, n) && s == Extension(form, n) + t
  {
    LengthBounds();
    if l == 126 {
      FromBigEndianInverse(s[..2]);
      form := Two;
      assert s == s[..2] + s[2..];
    } else if l == 127 {
      FromBigEndianInverse(s[..8]);
      form := Eight;
      assert s == s[..8] + s[8..];
    } else {
      form := Seven;
      assert s == [] + s;
    }
  }

  /** Conversely everything the reader accepts is the encoding of the frame it returns. */
  lemma WriteAfterRead(s: Bytes) returns (mask: Option<MaskKey>, form: LengthForm)
    requires ReadOne(s).Got?
    ensures var r := ReadOne(s);
            && r.frame.opcode < 16 && |r.frame.payload| <= MAX_FRAME && FormFits(form, |r.frame.payload|)
            && s == Encode(r.frame, mask, form) + r.rest
  {
    hide Body, Extension, TakeLength, TakeKey, KeyBytes, Pow256, FirstByte, SecondByte, FormFits, LengthByte, MAX_FRAME;
    var l := (s[1] as int) % 128;
    form := LengthTaken(l, s[2..]);
    var (n, afterLength) := TakeLength(l, s[2..]).value;
    var (m, afterKey) := TakeKey((s[1] as int) >= 128, afterLength).value;
    mask := m;
    KeyTaken((s[1] as int) >= 128, afterLength);
    var b, rest := afterKey[..n], afterKey[n..];
    BodyTwice(mask, b);
    HeaderBytes(s[0], s[1]);
    assert s == [s[0], s[1]] + s[2..];
    assert afterKey == b + rest;
    RegroupFrame([s[0], s[1]], Extension(form, n), KeyBytes(mask), b, rest);
  }

  lemma KeyTaken(masked: bool, s: Bytes)
    requires TakeKey(masked, s).Some?
    ensures var (mask, t) := TakeKey(masked, s).value; mask.Some? == masked && s == KeyBytes(mask) + t
  {
    assert masked ==> s == s[..4] + s[4..];
  }

  lemma HeaderBytes(x: byte, y: byte)
    ensures (x as int) / 16 % 8 == 0 ==> x == FirstByte((x as int) >= 128, (x as int) % 16)
    ensures y == SecondByte((y as int) >= 128, (y as int) % 128)
  {
  }

  lemma RegroupFrame(h: Bytes, e: Bytes, k: Bytes, b: Bytes, rest: Bytes)
    ensures h + (e + (k + (b + rest))) == (h + (e + (k + b))) + rest
  {
  }

  // -- On the wire -----------------------------------------------------------------------

  lemma {:induction false} XorBitsIsBitwise(a: nat, b: nat, n: nat)
    ensures forall i :: 0 <= i < n ==>
              (Shift(XorBits(a, b, n), Binary, i) % 2 == 1
               <==> Shift(a, Binary, i) % 2 != Shift(b, Binary, i) % 2)
    ensures Shift(XorBits(a, b, n), Binary, n) == 0
  {
    if n > 0 {
      XorBitsIsBitwise(a / 2, b / 2, n - 1);
      var x, h := XorBits(a, b, n), XorBits(a / 2, b / 2, n - 1);
      assert x / 2 == h;
      assert Shift(x, Binary, n) == Shift(h, Binary, n - 1);
      assert forall i :: 1 <= i < n ==>
          && Shift(x, Binary, i) == Shift(h, Binary, i - 1) && Shift(a, Binary, i) == Shift(a / 2, Binary, i - 1)
          && Shift(b, Binary, i) == Shift(b / 2, Binary, i - 1);
    }
  }

  /** A bit of the result is set exactly when it is set in one of the two. */
  lemma XorIsBitwise(a: byte, b: byte, i: nat)
    requires i < 8
    ensures Shift(Xor(a, b), Binary, i) % 2 == 1 <==> Shift(a, Binary, i) % 2 != Shift(b, Binary, i) % 2
  {
    XorBitsIsBitwise(a, b, 8);
    hide XorBits, Shift;
  }

  /** How many bytes the length takes beyond the seven bits. */
  function Extra(n: nat): nat {
    if n < 126 then 0 else if n < 65536 then 2 else 8
  }

  /**
   * A written frame byte by byte (RFC 6455 section 5.2): the final bit and the
   * opcode, the mask bit and the length in its shortest form, high byte first,
   * the key, and each payload byte combined with the key byte its position
   * selects.
   */
  lemma FrameOnTheWire(f: Frame, key: MaskKey) returns (length: Bytes, body: Bytes)
    requires f.opcode < 16 && |f.payload| < 0x1_0000_0000
    ensures var n := |f.payload|;
            && Encode(f, Some(key), FormFor(n))
               == [(if f.fin then 128 else 0) + f.opcode,
                   128 + if n < 126 then n else if n < 65536 then 126 else 127]
                  + (length + ([key.k0, key.k1, key.k2, key.k3] + body))
            && |length| == Extra(n)
            && (forall i :: 0 <= i < |length| ==> length[|length| - 1 - i] as int == Shift(n, Bytewise, i) % 256)
            && |body| == n
            && forall i :: 0 <= i < n ==> body[i] == Xor(f.payload[i], [key.k0, key.k1, key.k2, key.k3][i % 4])
  {
    var n := |f.payload|;
    length, body := Extension(FormFor(n), n), Masked(f.payload, key);
    HeaderIs(f.fin, f.opcode, n);
    ExtensionIs(n);
    MaskedBy(f.payload, key);
    hide Xor, KeyByte, Masked, Extension, KeyBytes, Shift;
  }

  lemma HeaderIs(fin: bool, opcode: nat, n: nat)
    requires opcode < 16
    ensures FirstByte(fin, opcode) as int == (if fin then 128 else 0) + opcode
    ensures SecondByte(true, LengthByte(FormFor(n), n)) as int
            == 128 + (if n < 126 then n else if n < 65536 then 126 else 127)
  {
  }

  lemma ExtensionIs(n: nat)
    requires n < 0x1_0000_0000
    ensures var e := Extension(FormFor(n), n);
            && |e| == Extra(n)
            && forall i :: 0 <= i < |e| ==> e[|e| - 1 - i] as int == Shift(n, Bytewise, i) % 256
  {
    BigEndianPlaces(n, 2);
    BigEndianPlaces(n, 8);
    hide BigEndian, Shift;
  }

  lemma MaskedBy(payload: Bytes, key: MaskKey)
    ensures var k, b := KeyBytes(Some(key)), Masked(payload, key);
            && k == [key.k0, key.k1, key.k2, key.k3] && |b| == |payload|
            && forall i :: 0 <= i < |b| ==> b[i] == Xor(payload[i], k[i % 4])
  {
    hide Xor;
  }

  /** The unmasked example of RFC 6455 section 5.7: "Hello". */
  lemma StandardExample()
    ensures Encode(Frame(true, 1, [0x48, 0x65, 0x6C, 0x6C, 0x6F]), None, Seven)
            == [0x81, 0x05, 0x48, 0x65, 0x6C, 0x6C, 0x6F]
  {
  }
}
