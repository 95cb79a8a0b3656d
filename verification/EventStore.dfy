/** The queue as the controller runs it: two partition objects and an overflow log, updated in place. */
module EventStore {
  import opened Common
  import opened EventLog
  import opened EventQueue

  /** What Drain hands out: the partition, the ack token and the envelope. */
  datatype Pending = Pending(grant: bool, seqNo: nat, raw: Raw)

  function AsPending(es: seq<Entry>, grant: bool): (ps: seq<Pending>)
    ensures |ps| == |es|
    ensures forall i :: 0 <= i < |es| ==> ps[i] == Pending(grant, es[i].seqNo, es[i].raw)
  {
    seq(|es|, i requires 0 <= i < |es| => Pending(grant, es[i].seqNo, es[i].raw))
  }

  function Clamp(max: int): nat {
    if max < 0 then 0 else max
  }

  class Partition {
    var entries: seq<Entry>
    var nextSeq: nat
    var deliv: int
    var log: Bytes
    var cursor: int

    ghost function Value(): Part
      reads this
    {
      Part(entries, nextSeq, deliv, Disk(log, cursor))
    }

    /** Replays the log line by line; stops at the first torn or undecodable one. */
    static method ReplayLog(log: Bytes, deliv: int) returns (entries: seq<Entry>, nextSeq: nat, valid: nat)
      ensures entries == Undelivered(Scan(log).entries, deliv)
      ensures nextSeq == NextSeq(Scan(log).entries)
      ensures valid == Scan(log).valid
    {
      hide DecodeLine, IndexOf, Undelivered, NextSeq;
      NothingReplayed(log, deliv);
      hide Scan, Splits;
      entries, nextSeq, valid := [], 0, 0;
      var rest := log;
      ghost var replayed: seq<Entry> := [];
      while rest != []
        invariant entries == Undelivered(replayed, deliv) && nextSeq == NextSeq(replayed)
        invariant Splits(log, replayed, valid, rest)
        decreases |rest|
      {
        var nl := IndexOf(rest, NEWLINE);
        if nl == |rest| {
          break; // torn
        }
        var decoded := DecodeLine(rest[..nl]);
        if decoded.None? {
          break; // nothing behind a corrupt line counts
        }
        var e := decoded.value;
        SplitNext(log, replayed, valid, rest);
        UndeliveredSnoc(replayed, e, deliv);
        NextSeqSnoc(replayed, e);
        replayed := replayed + [e];
        if e.seqNo > deliv {
          entries := entries + [e];
        }
        if e.seqNo >= nextSeq {
          nextSeq := e.seqNo + 1;
        }
        rest := rest[nl + 1..];
        valid := valid + nl + 1;
      }
      SplitEnd(log, replayed, valid, rest);
    }

    /** The scan of the log is what was replayed so far followed by the scan of the rest. */
    static ghost predicate Splits(log: Bytes, replayed: seq<Entry>, valid: nat, rest: Bytes) {
      Scan(log) == Replay(replayed + Scan(rest).entries, valid + Scan(rest).valid)
    }

    static lemma NothingReplayed(log: Bytes, deliv: int)
      ensures Splits(log, [], 0, log) && Undelivered([], deliv) == [] && NextSeq([]) == 0
    {
      assert [] + Scan(log).entries == Scan(log).entries;
    }

    static lemma SplitNext(log: Bytes, replayed: seq<Entry>, valid: nat, rest: Bytes)
      requires Splits(log, replayed, valid, rest)
      requires IndexOf(rest, NEWLINE) < |rest| && DecodeLine(rest[..IndexOf(rest, NEWLINE)]).Some?
      ensures var nl := IndexOf(rest, NEWLINE);
              Splits(log, replayed + [DecodeLine(rest[..nl]).value], valid + nl + 1, rest[nl + 1..])
    {
      var e, later := ScanHead(rest);
      Regroup(replayed, [e], later.entries);
    }

    /** The scan of a log whose first line is intact. */
    static lemma ScanHead(rest: Bytes) returns (e: Entry, later: Replay)
      requires IndexOf(rest, NEWLINE) < |rest| && DecodeLine(rest[..IndexOf(rest, NEWLINE)]).Some?
      ensures var nl := IndexOf(rest, NEWLINE);
              && e == DecodeLine(rest[..nl]).value && later == Scan(rest[nl + 1..])
              && Scan(rest) == Replay([e] + later.entries, nl + 1 + later.valid)
    {
      hide DecodeLine;
      var nl := IndexOf(rest, NEWLINE);
      e, later := DecodeLine(rest[..nl]).value, Scan(rest[nl + 1..]);
    }

    static lemma SplitEnd(log: Bytes, replayed: seq<Entry>, valid: nat, rest: Bytes)
      requires Splits(log, replayed, valid, rest)
      requires IndexOf(rest, NEWLINE) == |rest| || DecodeLine(rest[..IndexOf(rest, NEWLINE)]).None?
      ensures Scan(log) == Replay(replayed, valid)
    {
      assert replayed + [] == replayed;
    }

    constructor Open(d: Disk)
      ensures Value() == Reopen(d)
    {
      var es, n, valid := ReplayLog(d.log, d.cursor);
      entries := es;
      nextSeq := n;
      deliv := d.cursor;
      cursor := d.cursor;
      log := d.log[..valid]; // a torn tail is truncated away
    }

    method Append(raw: Raw)
      modifies this
      ensures Value() == EventQueue.Append(old(Value()), raw)
    {
      var e := Entry(nextSeq, raw);
      log := log + (EncodeEntry(e) + [NEWLINE]);
      nextSeq := nextSeq + 1;
      entries := entries + [e];
    }

    method DropOldest()
      requires entries != []
      modifies this
      ensures Value() == EventQueue.DropOldest(old(Value()))
    {
      entries := entries[1..];
      if |entries| > 0 && entries[0].seqNo - 1 > deliv {
        deliv := entries[0].seqNo - 1;
        cursor := deliv;
      }
    }

    method Ack(seqNo: int)
      modifies this
      ensures Value() == EventQueue.Ack(old(Value()), seqNo)
    {
      var i := 0;
      while i < |entries| && entries[i].seqNo != seqNo
        invariant 0 <= i <= |entries|
        invariant Value() == old(Value())
        invariant forall j :: 0 <= j < i ==> entries[j].seqNo != seqNo
      {
        i := i + 1;
      }
      RemovesAt(entries, i, seqNo);
      hide RemoveFirst;
      if i < |entries| {
        entries := entries[..i] + entries[i + 1..];
      }
      if seqNo > deliv {
        deliv := seqNo;
      }
      cursor := deliv;
    }

    method Compact()
      modifies this
      ensures Value() == EventQueue.Compact(old(Value()))
    {
      var w: Bytes := [];
      var i := 0;
      while i < |entries|
        invariant 0 <= i <= |entries|
        invariant Value() == old(Value())
        invariant w == EncodeAll(entries[..i])
      {
        assert entries[..i + 1] == entries[..i] + [entries[i]];
        EncodeAllSnoc(entries[..i], entries[i]);
        w := w + EncodeEntry(entries[i]) + [NEWLINE];
        i := i + 1;
      }
      assert entries[..i] == entries;
      log := w; // atomic rename of the rewritten file
    }
  }

  class Queue {
    const normal: Partition
    const grants: Partition
    var overflow: Bytes

    constructor Open(normalDisk: Disk, grantDisk: Disk, overflow: Bytes)
      ensures normal != grants && fresh(normal) && fresh(grants)
      ensures normal.Value() == Reopen(normalDisk) && grants.Value() == Reopen(grantDisk) && this.overflow == overflow
    {
      normal := new Partition.Open(normalDisk);
      grants := new Partition.Open(grantDisk);
      this.overflow := overflow;
    }

    /** Grant events are refused when their reserve is full; normal events push the oldest out. */
    method Enqueue(isGrant: bool, raw: Raw) returns (ok: bool)
      requires normal != grants
      modifies normal, grants
      ensures ok <==> !isGrant || |old(grants.entries)| < GRANT_RESERVED
      ensures grants.Value()
              == if isGrant && ok then EventQueue.Append(old(grants.Value()), raw) else old(grants.Value())
      ensures normal.Value() == if isGrant then old(normal.Value()) else EnqueuedNormal(old(normal.Value()), raw)
      ensures isGrant ==> (ok <==> |old(grants.entries)| < 1000)
      ensures ok ==>
                var was, later := if isGrant then old(grants.Value()) else old(normal.Value()),
                               if isGrant then grants.Value() else normal.Value();
                EntersRing(was, raw, isGrant, later)
    {
      if isGrant {
        if |grants.entries| >= GRANT_RESERVED {
          return false;
        }
        grants.Append(raw);
        return true;
      }
      if |normal.entries| >= CAPACITY - GRANT_RESERVED {
        normal.DropOldest();
      }
      normal.Append(raw);
      return true;
    }

    /** Prefers the reserved partition; a full one falls back to the overflow log, so nothing is discarded. */
    method EnqueueGrantRedeemed(raw: Raw)
      requires normal != grants
      modifies this`overflow, normal, grants
      ensures normal.Value() == old(normal.Value())
      ensures if |old(grants.entries)| < GRANT_RESERVED
              then grants.Value() == EventQueue.Append(old(grants.Value()), raw) && overflow == old(overflow)
              else grants.Value() == old(grants.Value()) && overflow == old(overflow) + raw + [NEWLINE]
    {
      var ok := Enqueue(true, raw);
      if !ok {
        overflow := overflow + raw + [NEWLINE];
      }
    }

    /** A prefix, of at most max entries, of all grants followed by all normal events. */
    method Drain(max: int) returns (out: seq<Pending>)
      ensures out == (AsPending(grants.entries, true) + AsPending(normal.entries, false))
                       [..Min(Clamp(max), |grants.entries| + |normal.entries|)]
    {
      out := [];
      ghost var all := AsPending(grants.entries, true) + AsPending(normal.entries, false);
      for i := 0 to |grants.entries|
        invariant i <= Clamp(max) && out == all[..i]
      {
        if |out| >= max {
          return;
        }
        out := out + [Pending(true, grants.entries[i].seqNo, grants.entries[i].raw)];
      }
      for i := 0 to |normal.entries|
        invariant |grants.entries| + i <= Clamp(max) && out == all[..|grants.entries| + i]
      {
        if |out| >= max {
          return;
        }
        out := out + [Pending(false, normal.entries[i].seqNo, normal.entries[i].raw)];
      }
    }

    method Ack(p: Pending)
      requires normal != grants
      modifies normal, grants
      ensures normal.Value() == if p.grant then old(normal.Value()) else EventQueue.Ack(old(normal.Value()), p.seqNo)
      ensures grants.Value() == if p.grant then EventQueue.Ack(old(grants.Value()), p.seqNo) else old(grants.Value())
    {
      if p.grant {
        grants.Ack(p.seqNo);
      } else {
        normal.Ack(p.seqNo);
      }
    }

    /** drainEvents: send and ack each drained event in turn; `sendable` says how many sends succeed. */
    method DrainEvents(sendable: nat) returns (sent: seq<Pending>)
      requires normal != grants
      modifies normal, grants
      ensures var batch := (AsPending(old(grants.entries), true) + AsPending(old(normal.entries), false))
                             [..Min(256, |old(grants.entries)| + |old(normal.entries)|)];
              && sent == batch[..Min(sendable, |batch|)]
              && normal.Value() == AckEach(old(normal.Value()), sent, false)
              && grants.Value() == AckEach(old(grants.Value()), sent, true)
    {
      var batch := Drain(256);
      sent := [];
      while |sent| < |batch| && |sent| < sendable
        invariant |sent| <= |batch| && |sent| <= sendable && sent == batch[..|sent|]
        invariant normal.Value() == AckEach(old(normal.Value()), sent, false)
        invariant grants.Value() == AckEach(old(grants.Value()), sent, true)
        decreases |batch| - |sent|
      {
        var pe := batch[|sent|];
        Ack(pe);
        AckEachSnoc(old(normal.Value()), sent, pe, false);
        AckEachSnoc(old(grants.Value()), sent, pe, true);
        sent := sent + [pe];
      }
    }
  }

  /**
   * The event is the newest entry, under the next number. Nothing is dropped
   * for a grant event, nor for a normal one while fewer than 9000 are
   * pending; else exactly the oldest is.
   */
  ghost predicate EntersRing(was: Part, raw: Raw, isGrant: bool, later: Part) {
    && later.entries == (if isGrant || |was.entries| < 9000 then was.entries else was.entries[1..])
                     + [Entry(was.nextSeq, raw)]
    && later.nextSeq == was.nextSeq + 1
    && later.disk.log == was.disk.log + Line(Entry(was.nextSeq, raw))
  }

  function EnqueuedNormal(p: Part, raw: Raw): Part {
    if |p.entries| >= CAPACITY - GRANT_RESERVED then EventQueue.Append(EventQueue.DropOldest(p), raw)
    else EventQueue.Append(p, raw)
  }

  lemma {:induction false} RemovesAt(es: seq<Entry>, i: nat, seqNo: int)
    requires i <= |es| && forall j :: 0 <= j < i ==> es[j].seqNo != seqNo
    requires i < |es| ==> es[i].seqNo == seqNo
    ensures RemoveFirst(es, seqNo) == if i < |es| then es[..i] + es[i + 1..] else es
    decreases |es|
  {
    if es != [] && i > 0 {
      RemovesAt(es[1..], i - 1, seqNo);
      assert es == [es[0]] + es[1..];
      assert i < |es| ==> [es[0]] + (es[1..][..i - 1] + es[1..][i..]) == es[..i] + es[i + 1..];
    }
  }

  /** Acks, in order, the tokens that belong to this partition. */
  function AckEach(p: Part, ps: seq<Pending>, grant: bool): Part
    decreases |ps|
  {
    if ps == [] then p
    else AckEach(if ps[0].grant == grant then EventQueue.Ack(p, ps[0].seqNo) else p, ps[1..], grant)
  }

  lemma {:induction false} AckEachSnoc(p: Part, ps: seq<Pending>, q: Pending, grant: bool)
    ensures AckEach(p, ps + [q], grant)
            == if q.grant == grant then EventQueue.Ack(AckEach(p, ps, grant), q.seqNo) else AckEach(p, ps, grant)
    decreases |ps|
  {
    if ps == [] {
      assert (ps + [q])[1..] == [];
    } else {
      assert (ps + [q])[1..] == ps[1..] + [q];
      AckEachSnoc(if ps[0].grant == grant then EventQueue.Ack(p, ps[0].seqNo) else p, ps[1..], q, grant);
    }
  }

  /**
   * Draining acks in Drain order: after a drain the partition holds exactly
   * the entries that were not sent, in memory and after any restart.
   */
  lemma {:induction false} DrainAcksAreHeads(p: Part, durable: seq<Entry>, n: nat, grant: bool)
    requires Mirrors(p, durable) && n <= |p.entries|
    ensures var q := AckEach(p, AsPending(p.entries[..n], grant), grant);
            q.entries == p.entries[n..] && Mirrors(q, durable) && Reopen(q.disk) == q
    decreases n
  {
    var ps := AsPending(p.entries[..n], grant);
    if n == 0 {
      ReopenIsIdentity(p, durable);
    } else {
      HeadAckIsTail(p, durable);
      var q := EventQueue.Ack(p, p.entries[0].seqNo);
      assert ps[1..] == AsPending(q.entries[..n - 1], grant);
      DrainAcksAreHeads(q, durable, n - 1, grant);
    }
  }
}
