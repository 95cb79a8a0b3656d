/**
 * The durable event queue: partitions updated in place over a log file and a
 * cursor file, with a crash possible inside every write. Disk assumption: a
 * write completes, or the process dies inside it and is started again.
 */
module EventQueue {
  import opened Common
  import opened EventLog

  const CAPACITY := 10000
  const GRANT_RESERVED := 1000

  /** What survives the process; cursor -1 stands for the missing cursor file. */
  datatype Disk = Disk(log: Bytes, cursor: int)

  datatype Part = Part(entries: seq<Entry>, nextSeq: nat, deliv: int, disk: Disk)

  function Reopen(d: Disk): Part {
    var r := Scan(d.log);
    Part(Undelivered(r.entries, d.cursor), NextSeq(r.entries), d.cursor, Disk(d.log[..r.valid], d.cursor))
  }

  function NewEntry(p: Part, raw: Raw): Entry {
    Entry(p.nextSeq, raw)
  }

  function Append(p: Part, raw: Raw): Part {
    var e := NewEntry(p, raw);
    Part(p.entries + [e], p.nextSeq + 1, p.deliv, p.disk.(log := p.disk.log + Line(e)))
  }

  /** The disk after dying `cut` bytes into the append. */
  function TornAppend(p: Part, raw: Raw, cut: nat): Disk
    requires cut <= |Line(NewEntry(p, raw))|
  {
    p.disk.(log := p.disk.log + Line(NewEntry(p, raw))[..cut])
  }

  function SaveCursor(p: Part, deliv: int): Part {
    p.(deliv := deliv, disk := p.disk.(cursor := deliv))
  }

  /** The ring drops its oldest undelivered entry and moves the durable cursor past it. */
  function DropOldest(p: Part): Part
    requires p.entries != []
  {
    var kept := p.(entries := p.entries[1..]);
    if |kept.entries| > 0 && kept.entries[0].seqNo - 1 > p.deliv
    then SaveCursor(kept, kept.entries[0].seqNo - 1)
    else kept
  }

  function RemoveFirst(es: seq<Entry>, seqNo: int): seq<Entry> {
    if es == [] then [] else if es[0].seqNo == seqNo then es[1..] else [es[0]] + RemoveFirst(es[1..], seqNo)
  }

  function Ack(p: Part, seqNo: int): Part {
    SaveCursor(p.(entries := RemoveFirst(p.entries, seqNo)), if seqNo > p.deliv then seqNo else p.deliv)
  }

  function Compact(p: Part): Part {
    p.(disk := p.disk.(log := EncodeAll(p.entries)))
  }

  // -- What recovery relies on --------------------------------------------------------

  /** The log holds exactly `durable`, complete and in order, and memory mirrors it. */
  ghost predicate Mirrors(p: Part, durable: seq<Entry>) {
    && p.disk.log == EncodeAll(durable)
    && Increasing(durable)
    && p.entries == Undelivered(durable, p.deliv)
    && p.nextSeq == NextSeq(durable)
    && p.disk.cursor == p.deliv
    && -1 <= p.deliv < p.nextSeq
  }

  lemma ReopenMirror(p: Part, durable: seq<Entry>, torn: Bytes)
    requires Mirrors(p, durable) && NEWLINE !in torn
    ensures Reopen(p.disk.(log := p.disk.log + torn)) == p
  {
    ScanIgnoresTornTail(durable, torn);
    var d := p.disk.(log := p.disk.log + torn);
    assert d.log[..|EncodeAll(durable)|] == p.disk.log;
  }

  lemma ReopenIsIdentity(p: Part, durable: seq<Entry>)
    requires Mirrors(p, durable)
    ensures Reopen(p.disk) == p
  {
    ReopenMirror(p, durable, []);
    assert p.disk.log + [] == p.disk.log;
    assert p.disk.(log := p.disk.log) == p.disk;
  }

  /** Dying anywhere inside an append, short of its newline, is the same as never having started it. */
  lemma TornAppendIsUndone(p: Part, durable: seq<Entry>, raw: Raw, cut: nat)
    requires Mirrors(p, durable) && cut < |Line(NewEntry(p, raw))|
    ensures Reopen(TornAppend(p, raw, cut)) == p
  {
    var line := EncodeEntry(NewEntry(p, raw));
    assert Line(NewEntry(p, raw))[..cut] == line[..cut];
    assert forall i :: 0 <= i < cut ==> line[..cut][i] == line[i];
    ReopenMirror(p, durable, line[..cut]);
  }

  lemma AppendMirrors(p: Part, durable: seq<Entry>, raw: Raw)
    requires Mirrors(p, durable)
    ensures Mirrors(Append(p, raw), durable + [NewEntry(p, raw)])
  {
    var e := NewEntry(p, raw);
    EncodeAllSnoc(durable, e);
    UndeliveredSnoc(durable, e, p.deliv);
    NextSeqSnoc(durable, e);
  }

  lemma HeadAckIsTail(p: Part, durable: seq<Entry>)
    requires Mirrors(p, durable) && p.entries != []
    ensures Mirrors(Ack(p, p.entries[0].seqNo), durable)
    ensures Ack(p, p.entries[0].seqNo).entries == p.entries[1..]
  {
    var cut := UndeliveredIsSuffix(durable, p.deliv);
    assert p.entries[0] == durable[cut];
    AdvanceCursor(durable, p.deliv, 0);
  }

  lemma DropMirrors(p: Part, durable: seq<Entry>)
    requires Mirrors(p, durable) && |p.entries| >= 2
    ensures Mirrors(DropOldest(p), durable) && DropOldest(p).entries == p.entries[1..]
  {
    var cut := UndeliveredIsSuffix(durable, p.deliv);
    assert p.entries[1] == durable[cut + 1] && p.entries[0] == durable[cut];
    var moved := p.entries[1].seqNo - 1;
    assert moved > p.deliv;
    var cut' := UndeliveredIsSuffix(durable, moved);
    assert cut' == cut + 1 by {
      assert cut < cut';
      assert !(cut + 1 < cut');
    }
    assert durable[cut + 1..] == p.entries[1..];
  }

  lemma CompactMirrors(p: Part, durable: seq<Entry>)
    requires Mirrors(p, durable) && (p.entries != [] || p.deliv == -1)
    ensures Mirrors(Compact(p), p.entries)
  {
    hide EncodeAll, NextSeq, Undelivered, Increasing;
    RewritingKeepsNumbers(durable, p.deliv);
  }

  lemma RewritingKeepsNumbers(durable: seq<Entry>, deliv: int)
    requires Increasing(durable) && (Undelivered(durable, deliv) != [] || deliv == -1)
    ensures var kept := Undelivered(durable, deliv);
            Increasing(kept) && Undelivered(kept, deliv) == kept && NextSeq(kept) == NextSeq(durable)
  {
    hide NextSeq, Undelivered;
    var kept := Undelivered(durable, deliv);
    var cut := UndeliveredIsSuffix(durable, deliv);
    assert forall i :: 0 <= i < |kept| ==> kept[i] == durable[cut + i];
    AllUndelivered(kept, deliv);
    if kept != [] {
      NextSeqIncreasing(durable);
      NextSeqIncreasing(kept);
    } else {
      AllUndelivered(durable, deliv);
    }
  }

  // -- Runs of one partition -----------------------------------------------------------

  /**
   * An operation and how far its durable write got: Append dies after `cut`
   * bytes unless cut covers the line; the others die before their atomic
   * rename when `renamed` is false. Dying means starting again with Reopen.
   * Acks come in Drain order, so each names the oldest pending entry or one
   * the ring has dropped since. Enqueue on a full ring is Drop, then Write.
   */
  datatype Event =
    | Write(raw: Raw, cut: nat)
    | Drop(renamed: bool)
    | AckHead(renamed: bool)
    | AckGone(seqNo: int, renamed: bool)
    | Rewrite(renamed: bool)
    | Restart

  /**
   * The partition next to an independent account of it: the fully written,
   * undelivered entries, and one above every sequence number ever written.
   */
  datatype State = State(part: Part, pending: seq<Entry>, used: nat)

  const EMPTY_DISK := Disk([], -1)

  const INIT := State(Reopen(EMPTY_DISK), [], 0)

  predicate Completes(p: Part, raw: Raw, cut: nat) {
    cut >= |Line(NewEntry(p, raw))|
  }

  function Next(s: State, e: Event): State {
    var p := s.part;
    match e
    case Write(raw, cut) =>
      if Completes(p, raw, cut) then State(Append(p, raw), s.pending + [NewEntry(p, raw)], p.nextSeq + 1)
      else s.(part := Reopen(TornAppend(p, raw, cut)))
    case Drop(renamed) =>
      if |p.entries| < 2 || s.pending == [] then s
      else if renamed then s.(part := DropOldest(p), pending := s.pending[1..])
      else s.(part := Reopen(p.disk))
    case AckHead(renamed) =>
      if p.entries == [] || s.pending == [] then s
      else if renamed then s.(part := Ack(p, p.entries[0].seqNo), pending := s.pending[1..])
      else s.(part := Reopen(p.disk))
    case AckGone(seqNo, renamed) =>
      if seqNo > p.deliv then s
      else if renamed then s.(part := Ack(p, seqNo))
      else s.(part := Reopen(p.disk))
    case Rewrite(renamed) =>
      if p.entries == [] && p.deliv != -1 then s
      else if renamed then s.(part := Compact(p))
      else s.(part := Reopen(p.disk))
    case Restart => s.(part := Reopen(p.disk))
  }

  function Exec(es: seq<Event>): State {
    if es == [] then INIT else Next(Exec(es[..|es| - 1]), es[|es| - 1])
  }

  ghost predicate Ok(s: State, durable: seq<Entry>) {
    Mirrors(s.part, durable) && s.part.entries == s.pending && s.part.nextSeq == s.used
  }

  lemma {:induction false} GoneIsNoOp(es: seq<Entry>, seqNo: int, deliv: int)
    requires forall i :: 0 <= i < |es| ==> es[i].seqNo > deliv
    requires seqNo <= deliv
    ensures RemoveFirst(es, seqNo) == es
  {
    if es != [] {
      GoneIsNoOp(es[1..], seqNo, deliv);
    }
  }

  lemma GoneMirrors(p: Part, durable: seq<Entry>, seqNo: int)
    requires Mirrors(p, durable) && seqNo <= p.deliv
    ensures Ack(p, seqNo) == p
  {
    var cut := UndeliveredIsSuffix(durable, p.deliv);
    GoneIsNoOp(p.entries, seqNo, p.deliv);
  }

  lemma NextOk(s: State, durable: seq<Entry>, e: Event) returns (durable': seq<Entry>)
    requires Ok(s, durable)
    ensures Ok(Next(s, e), durable')
  {
    var p := s.part;
    durable' := durable;
    ReopenIsIdentity(p, durable);
    match e
    case Write(raw, cut) =>
      if Completes(p, raw, cut) {
        AppendMirrors(p, durable, raw);
        durable' := durable + [NewEntry(p, raw)];
      } else {
        TornAppendIsUndone(p, durable, raw, cut);
      }
    case Drop(_) => if |p.entries| >= 2 { DropMirrors(p, durable); }
    case AckHead(_) => if p.entries != [] { HeadAckIsTail(p, durable); }
    case AckGone(seqNo, _) =>
      if seqNo <= p.deliv { GoneMirrors(p, durable, seqNo); }
    case Rewrite(renamed) =>
      if renamed && (p.entries != [] || p.deliv == -1) {
        CompactMirrors(p, durable);
        durable' := p.entries;
      }
    case Restart =>
  }

  lemma {:induction false} RunOk(es: seq<Event>) returns (durable: seq<Entry>)
    ensures Ok(Exec(es), durable)
  {
    if es == [] {
      durable := [];
    } else {
      durable := RunOk(es[..|es| - 1]);
      durable := NextOk(Exec(es[..|es| - 1]), durable, es[|es| - 1]);
    }
  }

  /**
   * Wherever the process dies in any run, starting again yields exactly the
   * fully written, undelivered entries in order, and numbering resumes above
   * every number used and above the cursor. Dying inside one more append, at
   * any byte, changes none of this.
   */
  lemma RecoveryIsExact(es: seq<Event>, raw: Raw, cut: nat)
    ensures var s := Exec(es);
            && Reopen(s.part.disk).entries == s.pending == s.part.entries
            && Reopen(s.part.disk).nextSeq == s.used
            && s.part.disk.cursor < s.used
            && (forall i :: 0 <= i < |s.pending| ==> s.part.disk.cursor < s.pending[i].seqNo < s.used)
    ensures var s := Exec(es);
            !Completes(s.part, raw, cut) ==> Reopen(TornAppend(s.part, raw, cut)) == s.part
  {
    var durable := RunOk(es);
    var s := Exec(es);
    ReopenIsIdentity(s.part, durable);
    var c := UndeliveredIsSuffix(durable, s.part.deliv);
    if !Completes(s.part, raw, cut) {
      TornAppendIsUndone(s.part, durable, raw, cut);
    }
  }

  /** Compacting while something is pending never changes what recovery yields. */
  lemma CompactionIsInvisible(es: seq<Event>)
    requires Exec(es).pending != []
    ensures Reopen(Compact(Exec(es).part).disk) == Compact(Exec(es).part)
    ensures Reopen(Compact(Exec(es).part).disk).entries == Reopen(Exec(es).part.disk).entries
    ensures Reopen(Compact(Exec(es).part).disk).nextSeq == Reopen(Exec(es).part.disk).nextSeq
  {
    var durable := RunOk(es);
    var p := Exec(es).part;
    CompactMirrors(p, durable);
    ReopenIsIdentity(p, durable);
    ReopenIsIdentity(Compact(p), p.entries);
  }

  // -- Where the guarantees stop ----------------------------------------------------------

  /**
   * Numbering survives a compaction followed by a restart exactly when
   * something was pending or nothing was ever delivered.
   */
  lemma CompactionKeepsNumberingIff(es: seq<Event>)
    ensures var p := Exec(es).part;
            Reopen(Compact(p).disk).nextSeq > p.disk.cursor <==> p.entries != [] || p.deliv == -1
  {
    var durable := RunOk(es);
    var p := Exec(es).part;
    if p.entries != [] || p.deliv == -1 {
      CompactMirrors(p, durable);
      ReopenIsIdentity(Compact(p), p.entries);
    } else {
      assert EncodeAll(p.entries) == [];
    }
  }

  function AppendAll(p: Part, raws: seq<Raw>): Part {
    if raws == [] then p else Append(AppendAll(p, raws[..|raws| - 1]), raws[|raws| - 1])
  }

  /** These events under the numbers 0, 1, 2, ... */
  function Numbered(raws: seq<Raw>): (es: seq<Entry>)
    ensures |es| == |raws| && forall i :: 0 <= i < |raws| ==> es[i] == Entry(i, raws[i])
  {
    seq(|raws|, i requires 0 <= i < |raws| => Entry(i, raws[i]))
  }

  /**
   * After a fully delivered partition is compacted and reopened, the next
   * events are all in memory and in the file, but numbered from 0: a restart
   * keeps exactly those numbered above the cursor, so that the first deliv + 1
   * are silently lost.
   */
  lemma EventsAfterFullCompactionAreLost(es: seq<Event>, raws: seq<Raw>)
    requires Exec(es).pending == [] && Exec(es).part.deliv >= 0
    ensures var deliv := Exec(es).part.deliv;
            var p := AppendAll(Reopen(Compact(Exec(es).part).disk), raws);
            && p.entries == Numbered(raws)
            && Reopen(p.disk).entries == if deliv + 1 < |raws| then Numbered(raws)[deliv + 1..] else []
  {
    hide *;
    var deliv := Exec(es).part.deliv;
    var disk := Compact(Exec(es).part).disk;
    assert disk == Disk(EncodeAll([]), deliv) by {
      CompactsToNothing(es);
    }
    NumberedFromZero(deliv, raws);
  }

  lemma NumberedFromZero(deliv: nat, raws: seq<Raw>)
    ensures var p := AppendAll(Reopen(Disk(EncodeAll([]), deliv)), raws);
            && p.entries == Numbered(raws)
            && Reopen(p.disk).entries == if deliv + 1 < |raws| then Numbered(raws)[deliv + 1..] else []
  {
    AppendsFromZero(deliv, raws);
    ReopenOf(Numbered(raws), deliv);
    NumberedAbove(raws, deliv);
    hide *;
  }

  lemma CompactsToNothing(es: seq<Event>)
    requires Exec(es).pending == []
    ensures Compact(Exec(es).part).disk == Disk(EncodeAll([]), Exec(es).part.deliv)
  {
    var durable := RunOk(es);
  }

  lemma NumberedAbove(raws: seq<Raw>, deliv: nat)
    ensures Undelivered(Numbered(raws), deliv) == if deliv + 1 < |raws| then Numbered(raws)[deliv + 1..] else []
  {
    hide Undelivered;
    var numbered := Numbered(raws);
    var cut := UndeliveredIsSuffix(numbered, deliv);
    assert deliv < |raws| ==> numbered[deliv].seqNo == deliv;
    assert deliv + 1 < |raws| ==> numbered[deliv + 1].seqNo == deliv + 1;
    assert raws != [] ==> numbered[|raws| - 1].seqNo == |raws| - 1;
    assert cut == if deliv + 1 < |raws| then deliv + 1 else |raws|;
  }

  lemma {:induction false} AppendsFromZero(deliv: int, raws: seq<Raw>)
    ensures AppendAll(Reopen(Disk(EncodeAll([]), deliv)), raws)
            == Part(Numbered(raws), |raws|, deliv, Disk(EncodeAll(Numbered(raws)), deliv))
  {
    if raws == [] {
      ReopenOf([], deliv);
    } else {
      var n := |raws| - 1;
      AppendsFromZero(deliv, raws[..n]);
      hide Reopen, Line;
      EncodeAllSnoc(Numbered(raws[..n]), Entry(n, raws[n]));
      assert Numbered(raws) == Numbered(raws[..n]) + [Entry(n, raws[n])];
    }
  }

  /** What reopening makes of a complete log. */
  lemma ReopenOf(durable: seq<Entry>, cursor: int)
    ensures Reopen(Disk(EncodeAll(durable), cursor))
            == Part(Undelivered(durable, cursor), NextSeq(durable), cursor, Disk(EncodeAll(durable), cursor))
  {
    ScanIgnoresTornTail(durable, []);
    assert EncodeAll(durable) + [] == EncodeAll(durable);
    assert EncodeAll(durable)[..|EncodeAll(durable)|] == EncodeAll(durable);
  }

  /** Such runs exist: one event, delivered, is enough. */
  lemma FullyDeliveredIsReachable(raw: Raw)
    ensures exists es :: Exec(es).pending == [] && Exec(es).part.deliv >= 0
  {
    var n := |Line(Entry(0, raw))|;
    var es0: seq<Event> := [];
    var es1 := es0 + [Write(raw, n)];
    var es2 := es1 + [AckHead(true)];
    assert es1[..|es1| - 1] == es0 && es2[..|es2| - 1] == es1;
    assert Exec(es1) == Next(INIT, Write(raw, n));
    assert Exec(es1).pending == [Entry(0, raw)] && Exec(es1).part.entries == [Entry(0, raw)];
    assert Exec(es2) == Next(Exec(es1), AckHead(true));
    assert Exec(es2).pending == [] && Exec(es2).part.deliv == 0;
  }

  /**
   * Acking out of Drain order: what a restart brings back agrees with memory
   * exactly when the acked entry was the oldest pending one.
   */
  lemma AckSurvivesRestartIffOldest(es: seq<Event>, k: nat)
    requires k < |Exec(es).part.entries|
    ensures var p := Ack(Exec(es).part, Exec(es).part.entries[k].seqNo);
            Reopen(p.disk).entries == p.entries <==> k == 0
  {
    var durable := RunOk(es);
    hide Reopen, Exec, EncodeAll, RemoveFirst;
    var p := Exec(es).part;
    var seqNo := p.entries[k].seqNo;
    var cut := UndeliveredIsSuffix(durable, p.deliv);
    assert p.entries[k] == durable[cut + k];
    AdvanceCursor(durable, p.deliv, k);
    RemovesOne(p.entries, k);
    ReopenOf(durable, seqNo);
    var q := Ack(p, seqNo);
    assert Reopen(q.disk).entries == p.entries[k + 1..];
    assert |q.entries| == |p.entries| - 1;
    if k == 0 {
      HeadAckIsTail(p, durable);
    }
  }

  lemma {:induction false} RemovesOne(es: seq<Entry>, k: nat)
    requires Increasing(es) && k < |es|
    ensures |RemoveFirst(es, es[k].seqNo)| == |es| - 1
  {
    if k > 0 {
      RemovesOne(es[1..], k - 1);
    }
  }
}
