/**
 * A client connection (RFC 6455 section 5.4): messages reassembled from
 * fragments, pings answered, the close handshake.
 */
module WebSocketConn {
  import opened Common
  import opened NetworkOrder
  import opened WebSocketFrames

  datatype Outcome = Message(bytes: Bytes) | Eof | Failed

  /** What one call of ReadMessage returns, leaves unread, writes, and how many random masks it has used. */
  datatype Exchange = Exchange(outcome: Outcome, rest: Bytes, sent: Bytes, drawn: nat)

  /** What the n-th write of the connection meets: the random mask drawn for it, and whether it goes out. */
  datatype Link = Link(masks: nat -> MaskKey, writes: nat -> bool)

  /** A frame as this side writes it: final, masked, with the shortest length. */
  function Written(opcode: nat, payload: Bytes, mask: MaskKey): Bytes
    requires opcode < 16
  {
    Encode(Frame(true, opcode, payload), Some(mask), FormFor(|payload|))
  }

  /** What an attempt to write leaves on the wire. */
  function Attempted(opcode: nat, payload: Bytes, drawn: nat, link: Link): Bytes
    requires opcode < 16
  {
    if link.writes(drawn) then Written(opcode, payload, link.masks(drawn)) else []
  }

  lemma ReadShrinks(s: Bytes)
    requires ReadOne(s).Got?
    ensures |ReadOne(s).rest| < |s|
  {
    var mask, form := WriteAfterRead(s);
  }

  /** What one frame does: ends the call, or carries on with the message so far. */
  datatype Step = Stop(outcome: Outcome, sent: Bytes, drawn: nat) | Go(msg: Bytes, sent: Bytes, drawn: nat)

  ghost function OnFrame(f: Frame, msg: Bytes, drawn: nat, link: Link): Step {
    if f.opcode == 1 || f.opcode == 2 then
      if f.fin then Stop(Message(f.payload), [], drawn) else Go(f.payload, [], drawn)
    else if f.opcode == 0 then
      if f.fin then Stop(Message(msg + f.payload), [], drawn) else Go(msg + f.payload, [], drawn)
    else if f.opcode == 8 then Stop(Eof, Attempted(8, [], drawn, link), drawn + 1)
    else if f.opcode == 9 then
      if link.writes(drawn) then Go(msg, Attempted(10, f.payload, drawn, link), drawn + 1)
      else Stop(Failed, [], drawn + 1)
    else if f.opcode == 10 then Go(msg, [], drawn)
    else Stop(Failed, [], drawn)
  }

  /** Runs frames off the stream until a message is complete, the peer closes, or something is malformed. */
  ghost function Drive(s: Bytes, msg: Bytes, drawn: nat, link: Link): Exchange
    decreases |s|
  {
    var r := ReadOne(s);
    if !r.Got? then Exchange(Failed, s, [], drawn)
    else
      ReadShrinks(s);
      match OnFrame(r.frame, msg, drawn, link)
      case Stop(outcome, sent, d) => Exchange(outcome, r.rest, sent, d)
      case Go(m, sent, d) =>
        var x := Drive(r.rest, m, d, link);
        x.(sent := sent + x.sent)
  }

  class Conn {
    var input: Bytes
    var output: Bytes
    var drawn: nat
    const link: Link

    constructor (input: Bytes, link: Link)
      ensures this.input == input && output == [] && drawn == 0 && this.link == link
    {
      this.input, output, drawn := input, [], 0;
      this.link := link;
    }

    method WriteFrame(opcode: nat, payload: Bytes) returns (ok: bool)
      requires opcode < 16
      modifies this`output, this`drawn
      ensures drawn == old(drawn) + 1 && ok == link.writes(old(drawn))
      ensures output == old(output) + Attempted(opcode, payload, old(drawn), link)
    {
      hide Encode;
      var key := link.masks(drawn);
      ok := link.writes(drawn);
      drawn := drawn + 1;
      var hdr := Header(opcode, |payload|);
      var keyBytes := KeyBytes(Some(key));
      var masked := ApplyMask(payload, key);
      if ok {
        output := output + (hdr + keyBytes + masked);
      }
      EncodedParts(Frame(true, opcode, payload), Some(key), FormFor(|payload|));
    }

    method Header(opcode: nat, n: nat) returns (hdr: Bytes)
      requires opcode < 16
      ensures hdr == [FirstByte(true, opcode), SecondByte(true, LengthByte(FormFor(n), n))] + Extension(FormFor(n), n)
    {
      hdr := [FirstByte(true, opcode)];
      if n < 126 {
        hdr := hdr + [SecondByte(true, n)];
      } else if n <= 0xFFFF {
        hdr := hdr + [SecondByte(true, 126)] + BigEndian(n, 2);
      } else {
        hdr := hdr + [SecondByte(true, 127)] + BigEndian(n, 8);
      }
    }

    method ReadFrame() returns (r: Read)
      modifies this`input
      ensures r == ReadOne(old(input))
      ensures r.Got? ==> input == r.rest
    {
      hide Body, FromBigEndian;
      var hdr := ReadFull(2);
      if hdr.None? {
        return Short;
      }
      var h0, h1 := hdr.value[0] as int, hdr.value[1] as int;
      if h0 / 16 % 8 != 0 {
        return NonzeroRsv;
      }
      var length := h1 % 128;
      if length == 126 {
        var ext := ReadFull(2);
        if ext.None? {
          return Short;
        }
        length := FromBigEndian(ext.value);
      } else if length == 127 {
        var ext := ReadFull(8);
        if ext.None? {
          return Short;
        }
        length := FromBigEndian(ext.value);
      }
      assert TakeLength(h1 % 128, old(input)[2..]) == Some((length, input));
      if length > MAX_FRAME {
        return TooLarge;
      }
      r := ReadBody(h0 >= 128, h0 % 16, h1 >= 128, length);
    }

    method ReadBody(fin: bool, opcode: nat, masked: bool, length: nat) returns (r: Read)
      modifies this`input
      ensures match TakeKey(masked, old(input))
              case None => r == Short
              case Some((mask, s)) =>
                if |s| < length then r == Short
                else r == Got(Frame(fin, opcode, Body(mask, s[..length])), s[length..]) && input == s[length..]
    {
      var mask := None;
      if masked {
        var key := ReadFull(4);
        if key.None? {
          return Short;
        }
        mask := Some(MaskKey(key.value[0], key.value[1], key.value[2], key.value[3]));
      }
      var body := ReadFull(length);
      if body.None? {
        return Short;
      }
      var payload := body.value;
      if masked {
        payload := ApplyMask(payload, mask.value);
      }
      return Got(Frame(fin, opcode, payload), input);
    }

    /** Takes exactly n bytes off the stream, or fails when it ends first. */
    method ReadFull(n: nat) returns (bs: Option<Bytes>)
      modifies this`input
      ensures if |old(input)| < n then bs == None else bs == Some(old(input)[..n]) && input == old(input)[n..]
    {
      if |input| < n {
        input := [];
        return None;
      }
      bs := Some(input[..n]);
      input := input[n..];
    }

    method ReadMessage() returns (r: Outcome)
      modifies this`input, this`output, this`drawn
      ensures var x := Drive(old(input), [], old(drawn), link);
              && r == x.outcome && output == old(output) + x.sent && drawn == x.drawn
              && (!r.Failed? ==> input == x.rest)
    {
      hide ReadOne, OnFrame;
      var msg: Bytes := [];
      ghost var sent: Bytes := [];
      while true
        invariant output == old(output) + sent
        invariant var x, y := Drive(old(input), [], old(drawn), link), Drive(input, msg, drawn, link);
                  x.outcome == y.outcome && x.rest == y.rest && x.drawn == y.drawn && x.sent == sent + y.sent
        decreases |input|
      {
        ghost var s := input;
        var frame := ReadFrame();
        if !frame.Got? {
          return Failed;
        }
        ReadShrinks(s);
        ghost var step := OnFrame(frame.frame, msg, drawn, link).sent;
        var stop;
        stop, msg := Handle(frame.frame, msg);
        ghost var before := sent;
        sent := sent + step;
        if stop.Some? {
          return stop.value;
        }
        SentInOrder(before, step, Drive(input, msg, drawn, link).sent);
      }
    }

    method Handle(f: Frame, msg: Bytes) returns (stop: Option<Outcome>, msg': Bytes)
      modifies this`output, this`drawn
      ensures match OnFrame(f, msg, old(drawn), link)
              case Stop(outcome, sent, d) => stop == Some(outcome) && output == old(output) + sent && drawn == d
              case Go(m, sent, d) => stop == None && msg' == m && output == old(output) + sent && drawn == d
    {
      hide Written;
      msg' := msg;
      if f.opcode == 1 || f.opcode == 2 {
        msg' := f.payload;
      } else if f.opcode == 0 {
        msg' := msg + f.payload;
      } else if f.opcode == 8 {
        var _ := WriteFrame(8, []);
        return Some(Eof), msg;
      } else if f.opcode == 9 {
        var ok := WriteFrame(10, f.payload);
        return if ok then None else Some(Failed), msg;
      } else if f.opcode == 10 {
        return None, msg;
      } else {
        return Some(Failed), msg;
      }
      stop := if f.fin then Some(Message(msg')) else None;
    }
  }

  lemma EncodedParts(f: Frame, mask: Option<MaskKey>, form: LengthForm)
    requires f.opcode < 16 && FormFits(form, |f.payload|)
    ensures Encode(f, mask, form) ==
            [FirstByte(f.fin, f.opcode), SecondByte(mask.Some?, LengthByte(form, |f.payload|))]
            + Extension(form, |f.payload|) + KeyBytes(mask) + Body(mask, f.payload)
  {
  }

  lemma SentInOrder(a: Bytes, b: Bytes, c: Bytes)
    ensures (a + b) + c == a + (b + c)
  {
  }

  /** XORs a payload with the four-byte key, byte by byte. */
  method ApplyMask(payload: Bytes, key: MaskKey) returns (masked: Bytes)
    ensures masked == Masked(payload, key)
  {
    hide Xor;
    masked := payload;
    for i := 0 to |payload|
      invariant |masked| == |payload|
      invariant masked[..i] == Masked(payload, key)[..i]
      invariant masked[i..] == payload[i..]
    {
      assert masked[i] == masked[i..][0] == payload[i..][0] == payload[i];
      masked := masked[i := Xor(masked[i], KeyByte(key, i))];
      assert Masked(payload, key)[..i + 1] == Masked(payload, key)[..i] + [masked[i]];
    }
  }

  // -- Fragmentation ---------------------------------------------------------------------

  /** A frame as the peer sent it: its content and how it was put on the wire. */
  datatype Sent = Sent(frame: Frame, mask: Option<MaskKey>, form: LengthForm)

  ghost predicate Sendable(x: Sent) {
    x.frame.opcode < 16 && |x.frame.payload| <= MAX_FRAME && FormFits(x.form, |x.frame.payload|)
  }

  ghost predicate AllSendable(xs: seq<Sent>) {
    forall i :: 0 <= i < |xs| ==> Sendable(xs[i])
  }

  ghost function Stream(xs: seq<Sent>): Bytes
    requires AllSendable(xs)
  {
    if xs == [] then []
    else
      assert Sendable(xs[0]);
      Encode(xs[0].frame, xs[0].mask, xs[0].form) + Stream(xs[1..])
  }

  /** One message in fragments: a text or binary frame, continuations, the last one final, pings and pongs between. */
  ghost predicate Fragments(xs: seq<Sent>, started: bool): (ok: bool)
    ensures ok ==> AllSendable(xs)
  {
    && xs != []
    && Sendable(xs[0])
    && var f, tail := xs[0].frame, xs[1..];
       assert AllSendable(tail) ==> AllSendable(xs) by {
         assert forall i :: 1 <= i < |xs| ==> xs[i] == tail[i - 1];
       }
       if f.opcode == 9 || f.opcode == 10 then Fragments(tail, started)
       else
         && (if started then f.opcode == 0 else f.opcode == 1 || f.opcode == 2)
         && (if f.fin then tail == [] else Fragments(tail, true))
  }

  /** The payloads of the data frames, joined. */
  ghost function Content(xs: seq<Sent>): Bytes {
    if xs == [] then []
    else if xs[0].frame.opcode >= 8 then Content(xs[1..])
    else xs[0].frame.payload + Content(xs[1..])
  }

  /** One pong per ping, in order, with the ping's payload. */
  ghost function Pongs(xs: seq<Sent>, drawn: nat, link: Link): Bytes {
    if xs == [] then []
    else if xs[0].frame.opcode == 9 then
      Written(10, xs[0].frame.payload, link.masks(drawn)) + Pongs(xs[1..], drawn + 1, link)
    else Pongs(xs[1..], drawn, link)
  }

  ghost function Pings(xs: seq<Sent>): nat {
    if xs == [] then 0 else (if xs[0].frame.opcode == 9 then 1 else 0) + Pings(xs[1..])
  }

  /** Each of the next n writes goes out. */
  ghost predicate AllWritten(link: Link, drawn: nat, n: nat) {
    forall i :: drawn <= i < drawn + n ==> link.writes(i)
  }

  /**
   * However a message is fragmented, masked and interleaved with pings and
   * pongs, it arrives whole and every ping is answered, unless an answer
   * cannot be written: then the call fails.
   */
  lemma {:induction false} AnyFragmentationArrives(xs: seq<Sent>, started: bool, msg: Bytes, rest: Bytes, drawn: nat,
                                                   link: Link)
    requires Fragments(xs, started)
    ensures var x := Drive(Stream(xs) + rest, msg, drawn, link);
            if AllWritten(link, drawn, Pings(xs))
            then x == Exchange(Message((if started then msg else []) + Content(xs)), rest,
                               Pongs(xs, drawn, link), drawn + Pings(xs))
            else x.outcome == Failed
  {
    hide ReadOne, Encode, Written;
    var f, tail := xs[0].frame, xs[1..];
    FirstIsRead(xs, rest);
    if f.opcode == 9 {
      if link.writes(drawn) {
        AnyFragmentationArrives(tail, started, msg, rest, drawn + 1, link);
        assert AllWritten(link, drawn, Pings(xs)) <==> AllWritten(link, drawn + 1, Pings(tail));
      }
    } else if f.opcode == 10 {
      AnyFragmentationArrives(tail, started, msg, rest, drawn, link);
    } else {
      var joined := (if started then msg else []) + f.payload;
      if f.fin {
        assert tail == [] && Stream(tail) + rest == rest;
        assert Content(tail) == [] && Pings(tail) == 0 && Pongs(tail, drawn, link) == [];
        assert f.payload + [] == f.payload;
        assert joined == if started then msg + f.payload else f.payload;
      } else {
        assert joined == if started then msg + f.payload else f.payload;
        AnyFragmentationArrives(tail, true, joined, rest, drawn, link);
        SentInOrder(if started then msg else [], f.payload, Content(tail));
      }
    }
  }

  lemma FirstIsRead(xs: seq<Sent>, rest: Bytes)
    requires AllSendable(xs) && xs != []
    ensures ReadOne(Stream(xs) + rest) == Got(xs[0].frame, Stream(xs[1..]) + rest)
  {
    hide ReadOne, Encode;
    var later := Stream(xs[1..]) + rest;
    assert Sendable(xs[0]);
    assert Stream(xs) + rest == Encode(xs[0].frame, xs[0].mask, xs[0].form) + later;
    ReadAfterWrite(xs[0].frame, xs[0].mask, xs[0].form, later);
  }

  /** The call as the program makes it, on a fresh message. */
  lemma MessageArrives(xs: seq<Sent>, rest: Bytes, drawn: nat, link: Link)
    requires Fragments(xs, false)
    ensures var x := Drive(Stream(xs) + rest, [], drawn, link);
            && (x.outcome == Message(Content(xs)) <==> AllWritten(link, drawn, Pings(xs)))
            && (AllWritten(link, drawn, Pings(xs)) ==> x.rest == rest && x.sent == Pongs(xs, drawn, link))
            && (!AllWritten(link, drawn, Pings(xs)) ==> x.outcome == Failed)
  {
    AnyFragmentationArrives(xs, false, [], rest, drawn, link);
    assert [] + Content(xs) == Content(xs);
  }

  /** What this side writes, a peer reads back: opcode and payload, for every payload in the limit and every mask. */
  lemma PeerReadsWhatIsWritten(opcode: nat, payload: Bytes, mask: MaskKey, rest: Bytes)
    requires opcode < 16 && |payload| <= MAX_FRAME
    ensures ReadOne(Written(opcode, payload, mask) + rest) == Got(Frame(true, opcode, payload), rest)
  {
    ReadAfterWrite(Frame(true, opcode, payload), Some(mask), FormFor(|payload|), rest);
  }

  /** A close frame ends the stream and is answered with a close frame if that can be written. */
  lemma CloseIsAnswered(f: Frame, mask: Option<MaskKey>, form: LengthForm, rest: Bytes, msg: Bytes, drawn: nat,
                        link: Link)
    requires f.opcode == 8 && Sendable(Sent(f, mask, form))
    ensures var x := Drive(Encode(f, mask, form) + rest, msg, drawn, link);
            && x.outcome == Eof && x.rest == rest
            && if link.writes(drawn) then ReadOne(x.sent) == Got(Frame(true, 8, []), []) else x.sent == []
  {
    ReadAfterWrite(f, mask, form, rest);
    PeerReadsWhatIsWritten(8, [], link.masks(drawn), []);
    assert Written(8, [], link.masks(drawn)) + [] == Written(8, [], link.masks(drawn));
  }
}
