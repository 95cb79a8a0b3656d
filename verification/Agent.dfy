/**
 * What the agent does on a verified offline redemption: record, then move the
 * relay, then record again. The relay notes what is durable when it is asked
 * to move, so that the order shows.
 */
module Agent {
  import opened Common
  import opened EventLog
  import opened EventQueue
  import opened EventStore
  import GrantTrail

  /** The files at the moment the relay was asked to move, and whether it did. */
  datatype Moment = Moment(works: bool, normal: Disk, grants: Disk, overflow: Bytes)

  class Relay {
    var moves: seq<Moment>

    constructor ()
      ensures moves == []
    {
      moves := [];
    }

    method Pulse(works: bool, queue: Queue) returns (ok: bool)
      modifies this
      ensures ok == works
      ensures moves == old(moves)
                       + [Moment(works, queue.normal.Value().disk, queue.grants.Value().disk, queue.overflow)]
    {
      var normal, grants := queue.normal, queue.grants;
      var normalDisk, grantDisk := Disk(normal.log, normal.cursor), Disk(grants.log, grants.cursor);
      moves := moves + [Moment(works, normalDisk, grantDisk, queue.overflow)];
      return works;
    }
  }

  /** The grant event went into the reserve, or the overflow log when that is full, before the relay moved. */
  ghost predicate Redeemed(before: Part, overflow: Bytes, raw: Raw, m: Moment, after: Part, overflow': Bytes) {
    && m.grants == after.disk && m.overflow == overflow'
    && if |before.entries| < GRANT_RESERVED then after == Append(before, raw) && overflow' == overflow
       else after == before && overflow' == GrantTrail.AppendRecord(overflow, raw)
  }

  class Controller {
    const queue: Queue
    const relay: Relay

    constructor (queue: Queue, relay: Relay)
      ensures this.queue == queue && this.relay == relay
    {
      this.queue, this.relay := queue, relay;
    }

    /**
     * The relay moves once, with the grant event already in the files and
     * the follow-up event not yet; that one never blocks the open.
     */
    method OnRedeemed(grantRaw: Raw, relayWorks: bool, openedRaw: Raw, deniedRaw: Raw)
      requires queue.normal != queue.grants
      modifies relay, queue`overflow, queue.normal, queue.grants
      ensures |relay.moves| == |old(relay.moves)| + 1 && relay.moves[..|old(relay.moves)|] == old(relay.moves)
      ensures var m := relay.moves[|old(relay.moves)|];
              && m.works == relayWorks
              && m.normal == old(queue.normal.Value().disk)
              && Redeemed(old(queue.grants.Value()), old(queue.overflow), grantRaw, m,
                          queue.grants.Value(), queue.overflow)
      ensures queue.normal.Value()
              == EnqueuedNormal(old(queue.normal.Value()), if relayWorks then openedRaw else deniedRaw)
    {
      queue.EnqueueGrantRedeemed(grantRaw);
      var ok := relay.Pulse(relayWorks, queue);
      if !ok {
        var _ := queue.Enqueue(false, deniedRaw);
        return;
      }
      var _ := queue.Enqueue(false, openedRaw);
    }
  }

  /** One redemption is, in the machine of the audit trail, a whole record and then a pulse that finds it. */
  lemma RedemptionIsRecordThenPulse(s: GrantTrail.Trail, raw: Raw, m: Moment, after: Part, overflow: Bytes)
    requires !s.cleared && Redeemed(s.q.part, s.overflow, raw, m, after, overflow)
    ensures var r := GrantTrail.Next(s, GrantTrail.Record(raw, GrantTrail.WholeWrite(s, raw)));
            var t := GrantTrail.Next(r, GrantTrail.Pulse(m.works));
            && r.cleared && r.recorded == s.recorded + multiset{raw}
            && r.q.part.disk == m.grants && r.overflow == m.overflow
            && t.q.part == after && t.overflow == overflow
            && !t.cleared && t.pulses == s.pulses + if m.works then 1 else 0
  {
  }

  /** In every run, a restart at the moment the relay moves finds the trace of that very redemption. */
  lemma EveryMoveIsBacked(es: seq<GrantTrail.Event>, raw: Raw, m: Moment, after: Part, overflow: Bytes)
    requires !GrantTrail.Exec(es).cleared
    requires var s := GrantTrail.Exec(es); Redeemed(s.q.part, s.overflow, raw, m, after, overflow)
    ensures var s := GrantTrail.Exec(es);
            if |s.q.pending| < GRANT_RESERVED
            then Reopen(m.grants).entries == s.q.pending + [Entry(s.q.used, raw)] && m.overflow == s.overflow
            else && Reopen(m.grants).entries == s.q.pending
                 && GrantTrail.Records(m.overflow)
                    == GrantTrail.Records(s.overflow) + [GrantTrail.Tail(s.overflow) + raw]
  {
    var s := GrantTrail.Exec(es);
    var durable := GrantTrail.RunOk(es);
    hide Reopen, GrantTrail.Exec, GrantTrail.Records, GrantTrail.Tail;
    if |s.q.part.entries| < GRANT_RESERVED {
      AppendMirrors(s.q.part, durable, raw);
      ReopenIsIdentity(after, durable + [NewEntry(s.q.part, raw)]);
    } else {
      ReopenIsIdentity(after, durable);
      GrantTrail.AppendJoinsTail(s.overflow, raw);
    }
  }
}
