/**
 * A Bluetooth session with one central: the reassembler on the receiving
 * side, the shared grant exchange in the middle, and a connection that ends
 * at the first result, frame error or protocol violation.
 */
module BleSession {
  import opened Common
  import opened Framing
  import Grants

  /** What a message's JSON says it is; a well-typed message with a malformed body carries None. */
  datatype Inbound =
    | Unreadable
    | OpenIn(o: Option<Grants.OpenMsg>)
    | ProofIn(p: Option<Grants.Proof>)
    | OtherIn

  /** Everything outside the session, per handled message: its decoding, the context, randomness, the link. */
  datatype World = World(
    decode: Bytes -> Inbound,
    crypto: Grants.Crypto,
    env: nat -> Grants.Env,
    cnonce: nat -> Option<string>,
    sendOk: nat -> bool)

  datatype Detail = NoDetail | FrameTooLarge | Because(reason: Grants.Reason)

  datatype Out = ChallengeOut(challenge: Grants.Challenge) | ResultOut(success: bool, detail: Detail)

  datatype State = State(
    rx: Rx,
    sawOpen: bool,
    done: bool,
    tables: Grants.Tables,
    handled: nat,
    sent: seq<Out>,
    redeemed: seq<(Grants.Grant, Grants.Proof)>)

  function Finish(s: State, out: Out): State {
    s.(sent := s.sent + [out], done := true)
  }

  function Deny(s: State, reason: Grants.Reason): State {
    Finish(s, ResultOut(false, Because(reason)))
  }

  function ResultFor(r: Grants.Result): Out {
    match r
    case Opened(_, _) => ResultOut(true, NoDetail)
    case Denied(reason) => ResultOut(false, Because(reason))
  }

  ghost function HandleMessage(s: State, msg: Bytes, w: World): State {
    var i := s.handled;
    var s' := s.(handled := i + 1);
    match w.decode(msg)
    case Unreadable => Deny(s', Grants.BadSig)
    case OtherIn => Deny(s', Grants.BadSig)
    case OpenIn(o) =>
      var (t, ch) := Grants.AfterOpen(s.tables, o, w.env(i), w.cnonce(i));
      if ch.None? then Deny(s'.(tables := t), Grants.BadSig)
      else s'.(tables := t, sawOpen := true, sent := s.sent + [ChallengeOut(ch.value)], done := !w.sendOk(i))
    case ProofIn(p) =>
      if !s.sawOpen then Deny(s', Grants.CnonceUnknown)
      else
        var (t, r) := Grants.AfterProof(s.tables, p, w.env(i), w.crypto);
        Finish(s'.(tables := t, redeemed := if r.Opened? then s.redeemed + [(r.grant, r.proof)] else s.redeemed),
               ResultFor(r))
  }

  /** The session ends with this result, having handled one message more. */
  ghost predicate EndsWith(s: State, out: Out, s': State) {
    s'.done && s'.sent == s.sent + [out] && s'.handled == s.handled + 1 && s'.sawOpen == s.sawOpen && s'.rx == s.rx
  }

  /** Nothing but the connection is affected. */
  ghost predicate Unmoved(s: State, s': State) {
    s'.tables == s.tables && s'.redeemed == s.redeemed
  }

  /**
   * One message. An open is answered with a challenge of 30 s and the session
   * goes on; a proof before any open, and anything that is neither, ends it;
   * so does a proof, with its result, and what opens is handed on.
   */
  ghost predicate AnsweredAsDue(s: State, m: Inbound, env: Grants.Env, cnonce: Option<string>, crypto: Grants.Crypto,
                                sendOk: bool, s': State) {
    match m
    case Unreadable => EndsWith(s, ResultOut(false, Because(Grants.BadSig)), s') && Unmoved(s, s')
    case OtherIn => EndsWith(s, ResultOut(false, Because(Grants.BadSig)), s') && Unmoved(s, s')
    case OpenIn(o) =>
      if o.None? || cnonce.None? then EndsWith(s, ResultOut(false, Because(Grants.BadSig)), s') && Unmoved(s, s')
      else
        var ch := Grants.Challenge(cnonce.value, env.now, env.now + 30);
        && s'.sent == s.sent + [ChallengeOut(ch)] && s'.sawOpen && s'.done == !sendOk
        && s'.handled == s.handled + 1 && s'.redeemed == s.redeemed && s'.rx == s.rx
        && Grants.Registered(s.tables, o.value, env.now, ch, s'.tables)
    case ProofIn(p) =>
      if !s.sawOpen then EndsWith(s, ResultOut(false, Because(Grants.CnonceUnknown)), s') && Unmoved(s, s')
      else if p.None? then EndsWith(s, ResultOut(false, Because(Grants.BadSig)), s') && Unmoved(s, s')
      else
        match Grants.Objection(s.tables, p.value, env, crypto)
        case Some(reason) => EndsWith(s, ResultOut(false, Because(reason)), s') && Unmoved(s, s')
        case None =>
          var pending := s.tables.pending[p.value.cnonce];
          && EndsWith(s, ResultOut(true, NoDetail), s')
          && s'.redeemed == s.redeemed + [(pending.grant.parsed.value, p.value)]
          && Grants.Handled(s.tables, p.value, env, crypto, s'.tables,
                            Grants.Opened(pending.grant.parsed.value, p.value))
  }

  lemma MessagesAreAnswered(s: State, msg: Bytes, w: World)
    requires !s.done
    ensures var i := s.handled;
            AnsweredAsDue(s, w.decode(msg), w.env(i), w.cnonce(i), w.crypto, w.sendOk(i), HandleMessage(s, msg, w))
  {
    match w.decode(msg)
    case OpenIn(o) => OpenIsAnswered(s, msg, o, w);
    case ProofIn(p) =>
      if s.sawOpen && p.Some? {
        ProofIsAnswered(s, msg, p.value, w);
      }
    case _ =>
  }

  lemma OpenIsAnswered(s: State, msg: Bytes, o: Option<Grants.OpenMsg>, w: World)
    requires !s.done && w.decode(msg) == OpenIn(o)
    ensures var i := s.handled;
            AnsweredAsDue(s, OpenIn(o), w.env(i), w.cnonce(i), w.crypto, w.sendOk(i), HandleMessage(s, msg, w))
  {
    var i := s.handled;
    if o.Some? && w.cnonce(i).Some? {
      Grants.OpensAreRegistered(s.tables, o.value, w.env(i), w.cnonce(i).value);
    }
    hide Grants.Collect, Grants.Registered;
  }

  lemma ProofIsAnswered(s: State, msg: Bytes, p: Grants.Proof, w: World)
    requires !s.done && s.sawOpen && w.decode(msg) == ProofIn(Some(p))
    ensures var i := s.handled;
            AnsweredAsDue(s, ProofIn(Some(p)), w.env(i), w.cnonce(i), w.crypto, w.sendOk(i), HandleMessage(s, msg, w))
  {
    Grants.ProofsAreHandled(s.tables, p, w.env(s.handled), w.crypto);
    hide Grants.Objection, Grants.AfterProof, Grants.Handled;
  }

  /** Handles messages in order until the session is done. */
  ghost function HandleMessages(s: State, msgs: seq<Bytes>, w: World): State
    decreases |msgs|
  {
    if s.done || msgs == [] then s else HandleMessages(HandleMessage(s, msgs[0], w), msgs[1..], w)
  }

  /** A frame error denies the whole chunk, including messages completed earlier in it. */
  ghost function HandleChunk(s: State, chunk: Bytes, w: World): State
    requires s.rx.Bounded()
  {
    if s.done then s else
    var f := Feed(s.rx, chunk);
    if f.tooLarge then Finish(s.(rx := f.rx), ResultOut(false, Detail.FrameTooLarge))
    else HandleMessages(s.(rx := f.rx), f.msgs, w)
  }

  ghost function HandleChunks(s: State, chunks: seq<Bytes>, w: World): State
    requires s.rx.Bounded()
    decreases |chunks|
  {
    if chunks == [] then s else
    KeepsRx(s, chunks[0], w);
    HandleChunks(HandleChunk(s, chunks[0], w), chunks[1..], w)
  }

  lemma {:induction false} MessagesKeepRx(s: State, msgs: seq<Bytes>, w: World)
    ensures HandleMessages(s, msgs, w).rx == s.rx
    decreases |msgs|
  {
    if !s.done && msgs != [] {
      MessagesKeepRx(HandleMessage(s, msgs[0], w), msgs[1..], w);
    }
  }

  lemma KeepsRx(s: State, chunk: Bytes, w: World)
    requires s.rx.Bounded()
    ensures HandleChunk(s, chunk, w).rx == if s.done then s.rx else Feed(s.rx, chunk).rx
  {
    MessagesKeepRx(s.(rx := Feed(s.rx, chunk).rx), Feed(s.rx, chunk).msgs, w);
  }

  // -- Chunking does not matter -----------------------------------------------------

  /** Equal in everything but bytes still waiting in the reassembler. */
  predicate SameOutcome(a: State, b: State) {
    a == b.(rx := a.rx)
  }

  lemma {:induction false} MessagesSplit(s: State, a: seq<Bytes>, b: seq<Bytes>, w: World)
    ensures HandleMessages(s, a + b, w) == HandleMessages(HandleMessages(s, a, w), b, w)
    decreases |a|
  {
    if a == [] {
      assert a + b == b;
    } else if !s.done {
      assert (a + b)[1..] == a[1..] + b;
      MessagesSplit(HandleMessage(s, a[0], w), a[1..], b, w);
    }
  }

  lemma {:induction false} MessagesIgnoreRx(s: State, s': State, msgs: seq<Bytes>, w: World)
    requires SameOutcome(s, s')
    ensures SameOutcome(HandleMessages(s, msgs, w), HandleMessages(s', msgs, w))
    decreases |msgs|
  {
    if !s.done && msgs != [] {
      MessagesIgnoreRx(HandleMessage(s, msgs[0], w), HandleMessage(s', msgs[0], w), msgs[1..], w);
    }
  }

  /** Without an oversize header, any chunking of a byte stream is the same as handling its messages directly. */
  lemma {:induction false} AnyChunkingIsDirect(s: State, chunks: seq<Bytes>, w: World)
    requires s.rx.Bounded() && !Feed(s.rx, Flatten(chunks)).tooLarge
    ensures SameOutcome(HandleChunks(s, chunks, w), HandleMessages(s, Feed(s.rx, Flatten(chunks)).msgs, w))
    decreases |chunks|
  {
    if chunks != [] {
      var f := Feed(s.rx, chunks[0]);
      var later := Feed(f.rx, Flatten(chunks[1..]));
      FeedSplit(s.rx, chunks[0], Flatten(chunks[1..]));
      KeepsRx(s, chunks[0], w);
      if s.done {
        StaysDone(s, chunks, w);
      } else {
        var s0 := s.(rx := f.rx);
        var s1 := HandleMessages(s0, f.msgs, w);
        assert HandleChunk(s, chunks[0], w) == s1;
        MessagesSplit(s, f.msgs, later.msgs, w);
        MessagesIgnoreRx(s0, s, f.msgs, w);
        MessagesIgnoreRx(s1, HandleMessages(s, f.msgs, w), later.msgs, w);
        AnyChunkingIsDirect(s1, chunks[1..], w);
      }
    }
  }

  lemma {:induction false} StaysDone(s: State, chunks: seq<Bytes>, w: World)
    requires s.rx.Bounded() && s.done
    ensures HandleChunks(s, chunks, w) == s
    decreases |chunks|
  {
    if chunks != [] {
      StaysDone(s, chunks[1..], w);
    }
  }

  function Fresh(tables: Grants.Tables): State {
    State(IDLE, false, false, tables, 0, [], [])
  }

  /**
   * A well-formed open followed by a proof, however the two frames are cut
   * into chunks, does to the exchange exactly what calling it directly does,
   * and answers with that challenge and that result.
   */
  lemma OpenThenProofIsDirect(tables: Grants.Tables, open: Bytes, proof: Bytes, o: Grants.OpenMsg, p: Grants.Proof,
                              cn: string, chunks: seq<Bytes>, w: World)
    requires |open| <= MAX_FRAME && |proof| <= MAX_FRAME && Flatten(chunks) == Stream([open, proof])
    requires w.decode(open) == OpenIn(Some(o)) && w.decode(proof) == ProofIn(Some(p))
    requires w.cnonce(0) == Some(cn) && w.sendOk(0)
    ensures var (t, ch) := Grants.AfterOpen(tables, Some(o), w.env(0), Some(cn));
            var (t', r) := Grants.AfterProof(t, Some(p), w.env(1), w.crypto);
            var s := HandleChunks(Fresh(tables), chunks, w);
            && s.done && s.tables == t'
            && ch.Some? && s.sent == [ChallengeOut(ch.value), ResultFor(r)]
            && s.redeemed == if r.Opened? then [(r.grant, r.proof)] else []
  {
    hide Grants.AfterProof;
    StreamDecodes([open, proof]);
    AnyChunkingIsDirect(Fresh(tables), chunks, w);
    var s1 := HandleMessage(Fresh(tables), open, w);
    assert [open, proof][1..] == [proof];
    assert [proof][1..] == [];
    var s2 := HandleMessage(s1, proof, w);
    assert HandleMessages(Fresh(tables), [open, proof], w) == HandleMessages(s1, [proof], w);
    assert HandleMessages(s1, [proof], w) == HandleMessages(s2, [], w) == s2;
  }

  // -- Oversize headers ----------------------------------------------------------------

  /** The messages completed in the chunks before the one whose oversize header ends the stream. */
  ghost function Earlier(rx: Rx, chunks: seq<Bytes>): seq<Bytes>
    requires rx.Bounded()
    decreases |chunks|
  {
    if chunks == [] || Feed(rx, chunks[0]).tooLarge then []
    else Feed(rx, chunks[0]).msgs + Earlier(Feed(rx, chunks[0]).rx, chunks[1..])
  }

  /** The messages completed in that chunk itself, ahead of the header. */
  ghost function Swallowed(rx: Rx, chunks: seq<Bytes>): seq<Bytes>
    requires rx.Bounded()
    decreases |chunks|
  {
    if chunks == [] then []
    else if Feed(rx, chunks[0]).tooLarge then Feed(rx, chunks[0]).msgs
    else Swallowed(Feed(rx, chunks[0]).rx, chunks[1..])
  }

  /** The session ends with the frame error unless it had ended before. */
  function CutOff(s: State): State {
    if s.done then s else Finish(s, ResultOut(false, Detail.FrameTooLarge))
  }

  lemma {:induction false} OversizeSplits(rx: Rx, chunks: seq<Bytes>)
    requires rx.Bounded() && Feed(rx, Flatten(chunks)).tooLarge
    ensures Feed(rx, Flatten(chunks)).msgs == Earlier(rx, chunks) + Swallowed(rx, chunks)
    decreases |chunks|
  {
    if chunks != [] {
      var f := Feed(rx, chunks[0]);
      FeedSplit(rx, chunks[0], Flatten(chunks[1..]));
      if !f.tooLarge {
        OversizeSplits(f.rx, chunks[1..]);
        Regroup(f.msgs, Earlier(f.rx, chunks[1..]), Swallowed(f.rx, chunks[1..]));
      }
    }
  }

  /** Any stream with an oversize header: only the messages of earlier chunks are handled, then the frame error. */
  lemma {:induction false} OversizeHeaderEndsTheStream(s: State, chunks: seq<Bytes>, w: World)
    requires s.rx.Bounded() && Feed(s.rx, Flatten(chunks)).tooLarge
    ensures SameOutcome(HandleChunks(s, chunks, w), CutOff(HandleMessages(s, Earlier(s.rx, chunks), w)))
    decreases |chunks|
  {
    if s.done {
      StaysDone(s, chunks, w);
    } else if chunks != [] {
      hide HandleMessage;
      var f, tail := Feed(s.rx, chunks[0]), chunks[1..];
      FeedSplit(s.rx, chunks[0], Flatten(tail));
      KeepsRx(s, chunks[0], w);
      var s1 := HandleChunk(s, chunks[0], w);
      if f.tooLarge {
        assert s1.done;
        StaysDone(s1, tail, w);
      } else {
        var s0 := s.(rx := f.rx);
        MessagesIgnoreRx(s0, s, f.msgs, w);
        OversizeHeaderEndsTheStream(s1, tail, w);
        var later := Earlier(f.rx, tail);
        MessagesSplit(s, f.msgs, later, w);
        MessagesIgnoreRx(s1, HandleMessages(s, f.msgs, w), later, w);
      }
    }
  }

  /** A handled message is answered at once, and never with the frame error. */
  lemma {:induction false} MessagesAnswer(s: State, msgs: seq<Bytes>, w: World)
    ensures s.sent <= HandleMessages(s, msgs, w).sent
    ensures !s.done && msgs != [] ==>
              && |s.sent| < |HandleMessages(s, msgs, w).sent|
              && HandleMessages(s, msgs, w).sent[|s.sent|] != ResultOut(false, Detail.FrameTooLarge)
    decreases |msgs|
  {
    if !s.done && msgs != [] {
      AnswersOnce(s, msgs[0], w);
      hide HandleMessage;
      MessagesAnswer(HandleMessage(s, msgs[0], w), msgs[1..], w);
    }
  }

  lemma AnswersOnce(s: State, msg: Bytes, w: World)
    ensures var sent := HandleMessage(s, msg, w).sent;
            |sent| == |s.sent| + 1 && s.sent <= sent && sent[|s.sent|] != ResultOut(false, Detail.FrameTooLarge)
  {
    hide Grants.AfterProof, Grants.AfterOpen;
  }

  /**
   * With an oversize header in the stream, the central gets the answers it
   * would get if every message ahead of the header were handled exactly when
   * none of them arrives in the header's own chunk, or the session was over
   * before that chunk; then nothing else differs either.
   */
  lemma ChunkingMattersIffSwallowed(s: State, chunks: seq<Bytes>, w: World)
    requires s.rx.Bounded() && Feed(s.rx, Flatten(chunks)).tooLarge
    ensures var direct := CutOff(HandleMessages(s, Feed(s.rx, Flatten(chunks)).msgs, w));
            var chunked := HandleChunks(s, chunks, w);
            var harmless := Swallowed(s.rx, chunks) == [] || HandleMessages(s, Earlier(s.rx, chunks), w).done;
            && (chunked.sent == direct.sent <==> harmless)
            && (harmless ==> SameOutcome(chunked, direct))
  {
    var earlier, swallowed := Earlier(s.rx, chunks), Swallowed(s.rx, chunks);
    OversizeSplits(s.rx, chunks);
    OversizeHeaderEndsTheStream(s, chunks, w);
    MessagesSplit(s, earlier, swallowed, w);
    hide HandleChunks, Feed, Earlier, Swallowed, HandleMessage;
    var s1 := HandleMessages(s, earlier, w);
    MessagesAnswer(s1, swallowed, w);
    if swallowed != [] && !s1.done {
      assert CutOff(s1).sent[|s1.sent|] == ResultOut(false, Detail.FrameTooLarge);
    }
  }

  /** The smallest case: in one chunk with such a header a complete open goes unanswered, in its own it is answered. */
  lemma OversizeHeaderSwallowsItsChunk(s: State, open: Bytes, header: Bytes, o: Grants.OpenMsg, w: World)
    requires !s.done && s.rx == IDLE && |open| <= MAX_FRAME
    requires |header| == HEADER_SIZE && FromLittleEndian32(header) > MAX_FRAME
    requires w.decode(open) == OpenIn(Some(o)) && w.cnonce(s.handled).Some? && w.sendOk(s.handled)
    ensures HandleChunks(s, [Frame(open) + header], w).sent == s.sent + [ResultOut(false, Detail.FrameTooLarge)]
    ensures exists ch :: HandleChunks(s, [Frame(open), header], w).sent
                         == s.sent + [ChallengeOut(ch), ResultOut(false, Detail.FrameTooLarge)]
  {
    FrameDecodes(open);
    FeedSplit(IDLE, Frame(open), header);
    FeedHeader(IDLE, header);
    assert [] + header == header;
    var one, two := [Frame(open) + header], [Frame(open), header];
    assert one[1..] == [] && two[1..] == [header] && [header][1..] == [];
    assert Flatten(one[1..]) == [] && Flatten(two[1..][1..]) == [];
    assert Flatten(two[1..]) == header;
    assert Flatten(one) == Frame(open) + header == Flatten(two);
    OversizeHeaderEndsTheStream(s, one, w);
    OversizeHeaderEndsTheStream(s, two, w);
    assert Earlier(IDLE, two) == [open] + Earlier(IDLE, [header]);
    assert Earlier(IDLE, two) == [open] && [open][1..] == [];
    var s1 := HandleMessage(s, open, w);
    assert HandleMessages(s, [open], w) == HandleMessages(s1, [], w) == s1;
    assert s1.sent == s.sent + [ChallengeOut(s1.sent[|s.sent|].challenge)];
  }

  // -- Fail closed ---------------------------------------------------------------------

  /** Until it is done a session has only issued challenges; at most its last word is a result. */
  ghost predicate Orderly(s: State) {
    && (forall i :: 0 <= i < |s.sent| && (i < |s.sent| - 1 || !s.done) ==> s.sent[i].ChallengeOut?)
    && |s.redeemed| <= 1
    && (s.redeemed != [] ==> s.done && s.sent != [] && s.sent[|s.sent| - 1] == ResultOut(true, NoDetail))
    && (s.sent != [] && s.sent[|s.sent| - 1].ResultOut? && s.sent[|s.sent| - 1].success ==> |s.redeemed| == 1)
  }

  lemma {:induction false} MessagesStayOrderly(s: State, msgs: seq<Bytes>, w: World)
    requires Orderly(s)
    ensures Orderly(HandleMessages(s, msgs, w))
    decreases |msgs|
  {
    hide Grants.AfterProof, Grants.AfterOpen;
    if !s.done && msgs != [] {
      MessagesStayOrderly(HandleMessage(s, msgs[0], w), msgs[1..], w);
    }
  }

  /**
   * In every run, whatever bytes arrive: at most one redemption, at most one
   * result, the result is the last thing sent, and it reports success exactly
   * when there was a redemption.
   */
  lemma {:induction false} OneResultThenSilence(s: State, chunks: seq<Bytes>, w: World)
    requires s.rx.Bounded() && Orderly(s)
    ensures Orderly(HandleChunks(s, chunks, w))
    ensures s.done ==> HandleChunks(s, chunks, w) == s
    decreases |chunks|
  {
    if chunks != [] {
      KeepsRx(s, chunks[0], w);
      if !s.done {
        var f := Feed(s.rx, chunks[0]);
        if !f.tooLarge {
          MessagesStayOrderly(s.(rx := f.rx), f.msgs, w);
        }
      }
      OneResultThenSilence(HandleChunk(s, chunks[0], w), chunks[1..], w);
    }
  }

  // -- The code itself -----------------------------------------------------------------

  class Session {
    const x: Grants.Exchange
    const world: World
    const reasm: Reassembler
    var sawOpen: bool
    var done: bool
    var closed: bool
    var handled: nat
    var sent: seq<Out>
    var redeemed: seq<(Grants.Grant, Grants.Proof)>

    ghost function Value(): State
      reads this, x, reasm
    {
      State(reasm.State(), sawOpen, done, x.State(), handled, sent, redeemed)
    }

    ghost predicate Valid()
      reads this, reasm
    {
      reasm.Valid() && (done <==> closed)
    }

    constructor (x: Grants.Exchange, world: World)
      ensures this.x == x && fresh(reasm) && Valid() && Value() == Fresh(x.State()) && this.world == world
    {
      this.x := x;
      this.world := world;
      reasm := new Reassembler();
      sawOpen, done, closed, handled, sent, redeemed := false, false, false, 0, [], [];
    }

    method SendResult(r: Out)
      modifies this`sent
      ensures sent == old(sent) + [r]
    {
      sent := sent + [r]; // a failed send is only logged
    }

    method Close()
      modifies this`done, this`closed
      ensures done && closed
    {
      done := true;
      closed := true;
    }

    method OnMessage(msg: Bytes)
      requires Valid() && !done
      modifies this, x
      ensures Valid() && Value() == HandleMessage(old(Value()), msg, world)
      ensures var i := old(handled);
              AnsweredAsDue(old(Value()), world.decode(msg), world.env(i), world.cnonce(i), world.crypto,
                            world.sendOk(i), Value())
    {
      MessagesAreAnswered(Value(), msg, world);
      hide AnsweredAsDue;
      hide Grants.AfterProof, Grants.AfterOpen;
      var i := handled;
      handled := handled + 1;
      match world.decode(msg) {
        case Unreadable =>
          SendResult(ResultOut(false, Because(Grants.BadSig)));
          Close();
        case OtherIn =>
          SendResult(ResultOut(false, Because(Grants.BadSig)));
          Close();
        case OpenIn(o) =>
          var ch := x.HandleOpen(o, world.env(i), world.cnonce(i));
          if ch.None? {
            SendResult(ResultOut(false, Because(Grants.BadSig)));
            Close();
            return;
          }
          sawOpen := true;
          sent := sent + [ChallengeOut(ch.value)];
          if !world.sendOk(i) {
            Close();
          }
        case ProofIn(p) =>
          if !sawOpen {
            SendResult(ResultOut(false, Because(Grants.CnonceUnknown)));
            Close();
            return;
          }
          var r := x.HandleProof(p, world.env(i), world.crypto);
          if r.Opened? {
            redeemed := redeemed + [(r.grant, r.proof)];
          }
          SendResult(ResultFor(r));
          Close();
      }
    }

    method OnMessages(msgs: seq<Bytes>)
      requires Valid() && !done
      modifies this, x
      ensures Valid() && Value() == HandleMessages(old(Value()), msgs, world)
    {
      hide HandleMessage;
      var i := 0;
      while i < |msgs| && !done
        invariant 0 <= i <= |msgs| && Valid()
        invariant HandleMessages(Value(), msgs[i..], world) == HandleMessages(old(Value()), msgs, world)
        decreases |msgs| - i
      {
        assert msgs[i..][0] == msgs[i] && msgs[i..][1..] == msgs[i + 1..];
        OnMessage(msgs[i]);
        i := i + 1;
      }
    }

    /** True when the connection should be dropped. */
    method OnChunk(chunk: Bytes) returns (finished: bool)
      requires Valid()
      modifies this, x, reasm
      ensures Valid() && Value() == HandleChunk(old(Value()), chunk, world) && finished == done
    {
      hide HandleMessage, HandleMessages, Feed;
      if done {
        return true;
      }
      var msgs, tooLarge := reasm.Push(chunk);
      if tooLarge {
        SendResult(ResultOut(false, Detail.FrameTooLarge));
        Close();
        return true;
      }
      OnMessages(msgs);
      return done;
    }
  }
}
