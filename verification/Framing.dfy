/**
 * The BLE frame codec: a 4-byte little-endian length, then the message,
 * chunked to the MTU. Feed is the reference decoder, one byte at a time;
 * Reassembler is the streaming one, which takes whole chunks.
 */
module Framing {
  import opened Common

  const MAX_FRAME := 8192
  const HEADER_SIZE := 4

  function LittleEndian32(n: nat): (bs: Bytes)
    requires n < 0x1_0000_0000
    ensures |bs| == 4
  {
    [n % 256, n / 256 % 256, n / 65536 % 256, n / 16777216]
  }

  function FromLittleEndian32(bs: Bytes): nat
    requires |bs| == 4
  {
    (bs[0] as int) + (bs[1] as int) * 256 + (bs[2] as int) * 65536 + (bs[3] as int) * 16777216
  }

  lemma LittleEndianInverse(n: nat)
    requires n < 0x1_0000_0000
    ensures FromLittleEndian32(LittleEndian32(n)) == n
  {
    var a, b := n / 256, n / 65536;
    assert b == a / 256 && n / 16777216 == b / 256;
    assert n == n % 256 + 256 * a && a == a % 256 + 256 * b && b == b % 256 + 256 * (n / 16777216);
  }

  // -- The reference decoder -------------------------------------------------------

  /** A decoder state: want == -1 while the length header is incomplete. */
  datatype Rx = Rx(header: Bytes, want: int, buf: Bytes) {
    /** What holds between pushes: no more than a partial header or a partial message is kept. */
    predicate Bounded() {
      if want == -1 then |header| < HEADER_SIZE && buf == []
      else header == [] && |buf| < want <= MAX_FRAME
    }

    predicate Partial() {
      want >= 0 || |header| > 0
    }
  }

  const IDLE := Rx([], -1, [])

  datatype Fed = Fed(rx: Rx, msgs: seq<Bytes>, tooLarge: bool)

  /** What a completed header starts. */
  function StartFrame(header: Bytes): Fed
    requires |header| == HEADER_SIZE
  {
    var n := FromLittleEndian32(header);
    if n > MAX_FRAME then Fed(IDLE, [], true)
    else if n == 0 then Fed(IDLE, [[]], false)
    else Fed(Rx([], n, []), [], false)
  }

  function FeedByte(rx: Rx, b: byte): (f: Fed)
    requires rx.Bounded()
    ensures f.rx.Bounded()
  {
    if rx.want == -1 then
      var header := rx.header + [b];
      if |header| < HEADER_SIZE then Fed(Rx(header, -1, []), [], false) else StartFrame(header)
    else
      var buf := rx.buf + [b];
      if |buf| == rx.want then Fed(IDLE, [buf], false) else Fed(Rx([], rx.want, buf), [], false)
  }

  /** An oversize header resets the decoder; whatever follows it in the same piece is discarded. */
  function Feed(rx: Rx, data: Bytes): (f: Fed)
    requires rx.Bounded()
    ensures f.rx.Bounded()
    decreases |data|
  {
    if data == [] then Fed(rx, [], false) else
    var f := FeedByte(rx, data[0]);
    if f.tooLarge then f else After(f, Feed(f.rx, data[1..]))
  }

  function After(f: Fed, g: Fed): Fed {
    Fed(g.rx, f.msgs + g.msgs, g.tooLarge)
  }

  lemma AfterTwice(f: Fed, g: Fed, h: Fed)
    ensures After(f, After(g, h)) == After(After(f, g), h)
  {
    Regroup(f.msgs, g.msgs, h.msgs);
  }

  lemma {:induction false} FeedSplit(rx: Rx, a: Bytes, b: Bytes)
    requires rx.Bounded()
    ensures Feed(rx, a + b) == if Feed(rx, a).tooLarge then Feed(rx, a) else After(Feed(rx, a), Feed(Feed(rx, a).rx, b))
    decreases |a|
  {
    if a == [] {
      assert a + b == b;
    } else {
      assert (a + b)[1..] == a[1..] + b;
      hide FeedByte;
      var f := FeedByte(rx, a[0]);
      if !f.tooLarge {
        FeedSplit(f.rx, a[1..], b);
        hide After;
        AfterTwice(f, Feed(f.rx, a[1..]), Feed(Feed(f.rx, a[1..]).rx, b));
      }
    }
  }

  // Whole runs of bytes inside one header or one message.

  lemma {:induction false} FeedHeader(rx: Rx, d: Bytes)
    requires rx.Bounded() && rx.want == -1 && |rx.header| + |d| <= HEADER_SIZE
    ensures Feed(rx, d) == if |rx.header| + |d| < HEADER_SIZE then Fed(Rx(rx.header + d, -1, []), [], false)
                           else StartFrame(rx.header + d)
    decreases |d|
  {
    if d == [] {
      assert rx.header + d == rx.header;
    } else {
      assert rx.header + [d[0]] + d[1..] == rx.header + d;
      var f := FeedByte(rx, d[0]);
      if |d| > 1 {
        FeedHeader(f.rx, d[1..]);
      } else {
        assert rx.header + [d[0]] == rx.header + d;
      }
    }
  }

  lemma {:induction false} FeedPayload(rx: Rx, d: Bytes)
    requires rx.Bounded() && rx.want != -1 && |rx.buf| + |d| <= rx.want
    ensures Feed(rx, d) == if |rx.buf| + |d| < rx.want then Fed(Rx([], rx.want, rx.buf + d), [], false)
                           else Fed(IDLE, [rx.buf + d], false)
    decreases |d|
  {
    if d == [] {
      assert rx.buf + d == rx.buf;
    } else {
      assert rx.buf + [d[0]] + d[1..] == rx.buf + d;
      var f := FeedByte(rx, d[0]);
      if |d| > 1 {
        FeedPayload(f.rx, d[1..]);
      } else {
        assert rx.buf + [d[0]] == rx.buf + d;
      }
    }
  }

  // -- Round trip ---------------------------------------------------------------------

  function Frame(msg: Bytes): Bytes
    requires |msg| <= MAX_FRAME
  {
    LittleEndian32(|msg|) + msg
  }

  /** Four bytes of length, the lowest first, and the message. */
  predicate IsFrameOf(frame: Bytes, msg: Bytes) {
    && |frame| == 4 + |msg| && frame[4..] == msg
    && frame[0] as int + 0x100 * frame[1] as int + 0x1_0000 * frame[2] as int + 0x100_0000 * frame[3] as int == |msg|
  }

  lemma FramesAre(msg: Bytes)
    requires |msg| <= 8192
    ensures IsFrameOf(Frame(msg), msg)
  {
    LittleEndianInverse(|msg|);
    assert Frame(msg)[4..] == msg;
  }

  function Stream(msgs: seq<Bytes>): Bytes
    requires forall i :: 0 <= i < |msgs| ==> |msgs[i]| <= MAX_FRAME
  {
    if msgs == [] then [] else Frame(msgs[0]) + Stream(msgs[1..])
  }

  function Flatten(pieces: seq<Bytes>): Bytes {
    if pieces == [] then [] else pieces[0] + Flatten(pieces[1..])
  }

  lemma FrameDecodes(msg: Bytes)
    requires |msg| <= MAX_FRAME
    ensures Feed(IDLE, Frame(msg)) == Fed(IDLE, [msg], false)
  {
    var header := LittleEndian32(|msg|);
    LittleEndianInverse(|msg|);
    FeedHeader(IDLE, header);
    assert [] + header == header;
    FeedSplit(IDLE, header, msg);
    if msg != [] {
      FeedPayload(Rx([], |msg|, []), msg);
      assert [] + msg == msg;
    }
  }

  lemma {:induction false} StreamDecodes(msgs: seq<Bytes>)
    requires forall i :: 0 <= i < |msgs| ==> |msgs[i]| <= MAX_FRAME
    ensures Feed(IDLE, Stream(msgs)) == Fed(IDLE, msgs, false)
  {
    if msgs != [] {
      FrameDecodes(msgs[0]);
      StreamDecodes(msgs[1..]);
      FeedSplit(IDLE, Frame(msgs[0]), Stream(msgs[1..]));
      assert [msgs[0]] + msgs[1..] == msgs;
    }
  }

  /** The decoder pushed piece by piece; an oversize header ends the stream. */
  function PushAll(rx: Rx, pieces: seq<Bytes>): Fed
    requires rx.Bounded()
    decreases |pieces|
  {
    if pieces == [] then Fed(rx, [], false) else
    var f := Feed(rx, pieces[0]);
    if f.tooLarge then f else After(f, PushAll(f.rx, pieces[1..]))
  }

  /** Up to the messages lost with an oversize header, how the bytes were cut does not matter. */
  lemma {:induction false} CuttingIsIrrelevant(rx: Rx, pieces: seq<Bytes>)
    requires rx.Bounded()
    ensures PushAll(rx, pieces) == Feed(rx, Flatten(pieces))
    decreases |pieces|
  {
    if pieces != [] {
      FeedSplit(rx, pieces[0], Flatten(pieces[1..]));
      if !Feed(rx, pieces[0]).tooLarge {
        CuttingIsIrrelevant(Feed(rx, pieces[0]).rx, pieces[1..]);
      }
    }
  }

  /** However the byte stream of any messages is re-split, they come out in order and nothing partial is left. */
  lemma AnyResplitDecodes(msgs: seq<Bytes>, pieces: seq<Bytes>)
    requires forall i :: 0 <= i < |msgs| ==> |msgs[i]| <= MAX_FRAME
    requires Flatten(pieces) == Stream(msgs)
    ensures PushAll(IDLE, pieces) == Fed(IDLE, msgs, false)
    ensures !PushAll(IDLE, pieces).rx.Partial()
  {
    CuttingIsIrrelevant(IDLE, pieces);
    StreamDecodes(msgs);
  }

  // -- The code itself -----------------------------------------------------------------

  lemma {:induction false} FlattenSnoc(pieces: seq<Bytes>, p: Bytes)
    ensures Flatten(pieces + [p]) == Flatten(pieces) + p
  {
    if pieces == [] {
      assert (pieces + [p])[1..] == [];
    } else {
      assert (pieces + [p])[1..] == pieces[1..] + [p];
      FlattenSnoc(pieces[1..], p);
    }
  }

  datatype ChunkError = FrameTooLarge | MtuTooSmall

  datatype ChunkResult = Chunks(chunks: seq<Bytes>) | Failed(error: ChunkError)

  method Chunk(msg: Bytes, mtu: int) returns (r: ChunkResult)
    ensures r.Failed? <==> |msg| > 8192 || mtu <= 4
    ensures r.Failed? ==> r.error == if |msg| > 8192 then FrameTooLarge else MtuTooSmall
    ensures r.Chunks? ==> Flatten(r.chunks) == Frame(msg) && IsFrameOf(Flatten(r.chunks), msg)
    ensures r.Chunks? ==> forall i :: 0 <= i < |r.chunks| ==>
              0 < |r.chunks[i]| <= mtu && (i < |r.chunks| - 1 ==> |r.chunks[i]| == mtu)
    ensures r.Chunks? ==> |r.chunks[0]| >= HEADER_SIZE
  {
    if |msg| > MAX_FRAME {
      return Failed(FrameTooLarge);
    }
    if mtu <= HEADER_SIZE {
      return Failed(MtuTooSmall);
    }
    var frame := LittleEndian32(|msg|) + msg;
    var chunks: seq<Bytes> := [];
    var off := 0;
    while off < |frame|
      invariant 0 <= off && Flatten(chunks) == frame[..Min(off, |frame|)]
      invariant off == 0 <==> chunks == []
      invariant chunks != [] ==> |chunks[0]| >= HEADER_SIZE
      invariant forall i :: 0 <= i < |chunks| ==> 0 < |chunks[i]| <= mtu
      invariant forall i :: 0 <= i < |chunks| && (i < |chunks| - 1 || off < |frame|) ==> |chunks[i]| == mtu
      decreases |frame| - off
    {
      var end := off + mtu;
      if end > |frame| {
        end := |frame|;
      }
      FlattenSnoc(chunks, frame[off..end]);
      assert frame[..off] + frame[off..end] == frame[..end];
      chunks := chunks + [frame[off..end]];
      off := off + mtu;
    }
    assert frame[..|frame|] == frame;
    FramesAre(msg);
    return Chunks(chunks);
  }

  class Reassembler {
    var header: Bytes
    var want: int
    var buf: Bytes

    function State(): Rx
      reads this
    {
      Rx(header, want, buf)
    }

    ghost predicate Valid()
      reads this
    {
      State().Bounded()
    }

    constructor ()
      ensures State() == IDLE
    {
      header, want, buf := [], -1, [];
    }

    method Abort()
      modifies this
      ensures State() == IDLE
    {
      header := [];
      want := -1;
      buf := [];
    }

    method Partial() returns (b: bool)
      ensures b == State().Partial()
    {
      return want >= 0 || |header| > 0;
    }

    /** Consumes header bytes; `ready` once a frame has been started. */
    method TakeHeader(data: Bytes) returns (rest: Bytes, ready: bool, tooLarge: bool)
      requires Valid() && want == -1
      modifies this
      ensures !ready ==> rest == [] && Feed(old(State()), data) == Fed(State(), [], tooLarge) && Valid()
      ensures ready ==> !tooLarge && header == [] && buf == [] && 0 <= want <= MAX_FRAME
      ensures ready && want > 0 ==> Feed(old(State()), data) == Feed(State(), rest)
      ensures ready && want == 0 ==> Feed(old(State()), data) == After(Fed(IDLE, [[]], false), Feed(IDLE, rest))
      ensures ready ==> |rest| < |data|
    {
      ghost var rx := State();
      var take := Min(HEADER_SIZE - |header|, |data|);
      ghost var d := data[..take];
      FeedHeader(rx, d);
      FeedSplit(rx, d, data[take..]);
      assert d + data[take..] == data;
      header := header + data[..take];
      rest := data[take..];
      if |header| < HEADER_SIZE {
        return [], false, false;
      }
      var n := FromLittleEndian32(header);
      header := [];
      if n > MAX_FRAME {
        Abort();
        return [], false, true;
      }
      want := n;
      buf := [];
      return rest, true, false;
    }

    /** Consumes payload bytes; `done` when the message is complete. */
    method TakePayload(data: Bytes) returns (rest: Bytes, done: bool, msg: Bytes)
      requires header == [] && 0 < want <= MAX_FRAME && |buf| < want
      modifies this
      ensures Valid()
      ensures done ==> State() == IDLE && |rest| < |data|
      ensures done ==> Feed(old(State()), data) == After(Fed(IDLE, [msg], false), Feed(IDLE, rest))
      ensures !done ==> Feed(old(State()), data) == Fed(State(), [], false)
    {
      ghost var rx := State();
      var take := Min(want - |buf|, |data|);
      ghost var d := data[..take];
      FeedPayload(rx, d);
      FeedSplit(rx, d, data[take..]);
      assert d + data[take..] == data;
      buf := buf + data[..take];
      rest := data[take..];
      done := |buf| == want;
      msg := buf;
      if done {
        want := -1;
        buf := [];
      }
    }

    /** Consumes one chunk; agrees with the byte-at-a-time decoder. */
    method Push(chunk: Bytes) returns (out: seq<Bytes>, tooLarge: bool)
      requires Valid()
      modifies this
      ensures Valid()
      ensures Feed(old(State()), chunk) == Fed(State(), out, tooLarge)
    {
      out, tooLarge := [], false;
      var data := chunk;
      ghost var rx := State();
      assert After(Fed(rx, [], false), Feed(rx, data)) == Feed(rx, data);
      while true
        invariant Valid() && !tooLarge
        invariant Feed(rx, chunk) == After(Fed(State(), out, false), Feed(State(), data))
        decreases |data|
      {
        if want < 0 {
          if data == [] {
            assert out + [] == out;
            return;
          }
          var ready;
          data, ready, tooLarge := TakeHeader(data);
          if !ready {
            assert out + [] == out;
            return;
          }
        }
        if want == 0 {
          Regroup(out, [[]], Feed(IDLE, data).msgs);
          out := out + [[]];
          want := -1;
          buf := [];
        } else {
          var done, msg;
          assert Feed(rx, chunk) == After(Fed(State(), out, false), Feed(State(), data));
          data, done, msg := TakePayload(data);
          if !done {
            assert out + [] == out;
            return; // the message is not complete yet
          }
          Regroup(out, [msg], Feed(IDLE, data).msgs);
          out := out + [msg];
        }
      }
    }
  }
}
