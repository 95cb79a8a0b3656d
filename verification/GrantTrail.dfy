/**
 * The audit trail of offline opens: a redemption is on disk ahead of the
 * relay's move, in the reserved partition or, once that is full, in the
 * overflow log. The process may die inside any write and between any two
 * steps.
 */
module GrantTrail {
  import opened Common
  import opened EventLog
  import opened EventQueue

  // -- The overflow log ---------------------------------------------------------------

  /** The newline-terminated records of the overflow log. */
  function Records(log: Bytes): seq<Bytes>
    decreases |log|
  {
    var nl := IndexOf(log, NEWLINE);
    if nl == |log| then [] else [log[..nl]] + Records(log[nl + 1..])
  }

  predicate Intact(log: Bytes) {
    log == [] || log[|log| - 1] == NEWLINE
  }

  function AppendRecord(log: Bytes, raw: Raw): Bytes {
    log + raw + [NEWLINE]
  }

  /** What follows the last newline. */
  function Tail(log: Bytes): (t: Bytes)
    ensures |t| <= |log|
    ensures NEWLINE !in t
    ensures t == [] <==> Intact(log)
    decreases |log|
  {
    var nl := IndexOf(log, NEWLINE);
    if nl == |log| then log else
    assert log[nl + 1..] == [] ==> log[|log| - 1] == NEWLINE;
    Tail(log[nl + 1..])
  }

  lemma FirstRecord(line: Bytes, rest: Bytes)
    requires NEWLINE !in line
    ensures Records(line + [NEWLINE] + rest) == [line] + Records(rest)
    ensures Tail(line + [NEWLINE] + rest) == Tail(rest)
    ensures Records(line) == [] && Tail(line) == line
  {
    var all := line + [NEWLINE] + rest;
    IndexOfBehind(line, NEWLINE, rest);
    assert all[..|line|] == line && all[|line| + 1..] == rest;
    assert forall i :: 0 <= i < |line| ==> line[i] in line;
  }

  lemma CutAtNewline(log: Bytes)
    ensures var nl := IndexOf(log, NEWLINE);
            NEWLINE !in log[..nl] && (nl < |log| ==> log == log[..nl] + [NEWLINE] + log[nl + 1..])
  {
    var nl := IndexOf(log, NEWLINE);
    assert forall i :: 0 <= i < nl ==> log[..nl][i] == log[i];
    hide IndexOf;
    if nl < |log| {
      CutAt(log, nl);
    }
  }

  lemma CutAt(log: Bytes, n: nat)
    requires n < |log|
    ensures log == log[..n] + [log[n]] + log[n + 1..]
  {
  }

  /** The appended record takes up whatever fragment the log ended in. */
  lemma {:induction false} AppendJoinsTail(log: Bytes, raw: Raw)
    ensures Records(AppendRecord(log, raw)) == Records(log) + [Tail(log) + raw]
    decreases |log|
  {
    hide Records, Tail;
    var nl := IndexOf(log, NEWLINE);
    CutAtNewline(log);
    var line := log[..nl];
    if nl == |log| {
      assert line == log;
      FirstRecord(log, []);
      FirstRecord(log + raw, []);
      assert AppendRecord(log, raw) == log + raw + [NEWLINE] + [];
      NoRecords();
    } else {
      var rest := log[nl + 1..];
      FirstRecord(line, rest);
      FirstRecord(line, AppendRecord(rest, raw));
      assert AppendRecord(log, raw) == line + [NEWLINE] + AppendRecord(rest, raw);
      AppendJoinsTail(rest, raw);
      assert [line] + Records(rest) + [Tail(rest) + raw] == [line] + (Records(rest) + [Tail(rest) + raw]);
    }
  }

  lemma NoRecords()
    ensures Records([]) == []
  {
  }

  /**
   * A record reaches the overflow log as a record of its own exactly when the
   * log did not end in the fragment of an earlier, interrupted one.
   */
  lemma RecordSurvivesIffIntact(log: Bytes, raw: Raw)
    ensures Records(AppendRecord(log, raw)) == Records(log) + [raw] <==> Intact(log)
  {
    AppendJoinsTail(log, raw);
    if Tail(log) == [] {
      assert Tail(log) + raw == raw;
    } else {
      assert |Tail(log) + raw| > |raw|;
      assert Records(AppendRecord(log, raw))[|Records(log)|] != raw;
    }
  }

  /** Dying inside an overflow write leaves such a fragment, so the next record is fused to it. */
  lemma RecordAfterTornWriteIsFused(log: Bytes, raw: Raw, cut: nat, next: Raw)
    requires Intact(log) && 0 < cut <= |raw|
    ensures Records(AppendRecord(log + raw[..cut], next)) == Records(log) + [raw[..cut] + next]
  {
    AppendJoinsTail(log + raw[..cut], next);
    FragmentLengthensTail(log, raw[..cut]);
    assert [] + raw[..cut] == raw[..cut];
  }

  /** A fragment of a record adds to the tail and to nothing else. */
  lemma {:induction false} FragmentLengthensTail(log: Bytes, torn: Bytes)
    requires NEWLINE !in torn
    ensures Tail(log + torn) == Tail(log) + torn && Records(log + torn) == Records(log)
    decreases |log|
  {
    hide Records, Tail;
    var nl := IndexOf(log, NEWLINE);
    CutAtNewline(log);
    var line := log[..nl];
    if nl == |log| {
      assert line == log;
      FirstRecord(log, []);
      FirstRecord(log + torn, []);
    } else {
      var rest := log[nl + 1..];
      FirstRecord(line, rest);
      FirstRecord(line, rest + torn);
      assert log + torn == line + [NEWLINE] + (rest + torn);
      FragmentLengthensTail(rest, torn);
    }
  }

  // -- Runs -----------------------------------------------------------------------------

  /**
   * `recorded` and `acked` are an independent account: every grant event whose
   * record call wrote it completely, and every one acked since. `cleared` is a
   * redemption recorded and not yet actuated; `pulses` counts actuations.
   */
  datatype Trail = Trail(
    q: EventQueue.State,
    overflow: Bytes,
    recorded: multiset<Bytes>,
    acked: multiset<Bytes>,
    cleared: bool,
    pulses: nat)

  datatype Event =
    | Record(raw: Raw, cut: nat)   // dies after `cut` bytes unless cut covers the write
    | Pulse(ok: bool)              // the relay moves, or reports a hardware fault
    | Ack(renamed: bool)           // the oldest pending event is delivered
    | Rewrite(renamed: bool)       // compaction
    | Die

  const INIT := Trail(EventQueue.INIT, [], multiset{}, multiset{}, false, 0)

  function Restarted(s: Trail): Trail {
    s.(q := EventQueue.Next(s.q, Restart), cleared := false)
  }

  function Next(s: Trail, e: Event): Trail {
    match e
    case Record(raw, cut) =>
      if s.cleared then s
      else if |s.q.part.entries| < GRANT_RESERVED then
        var q := EventQueue.Next(s.q, Write(raw, cut));
        if Completes(s.q.part, raw, cut) then s.(q := q, recorded := s.recorded + multiset{raw}, cleared := true)
        else s.(q := q)
      else if cut > |raw| then
        s.(overflow := AppendRecord(s.overflow, raw), recorded := s.recorded + multiset{raw}, cleared := true)
      else Restarted(s.(overflow := s.overflow + raw[..cut]))
    case Pulse(ok) => if s.cleared then s.(cleared := false, pulses := if ok then s.pulses + 1 else s.pulses) else s
    case Ack(renamed) =>
      if s.q.pending == [] || s.q.part.entries == [] then s
      else
        var q := EventQueue.Next(s.q, AckHead(renamed));
        if renamed then s.(q := q, acked := s.acked + multiset{s.q.pending[0].raw})
        else s.(q := q, cleared := false)
    case Rewrite(renamed) =>
      s.(q := EventQueue.Next(s.q, EventQueue.Rewrite(renamed)), cleared := s.cleared && renamed)
    case Die => Restarted(s)
  }

  function Exec(es: seq<Event>): Trail {
    if es == [] then INIT else Next(Exec(es[..|es| - 1]), es[|es| - 1])
  }

  function Raws(es: seq<Entry>): seq<Bytes> {
    seq(|es|, i requires 0 <= i < |es| => es[i].raw)
  }

  /** Every grant event there is a durable trace of: delivered, pending, or in the overflow log. */
  ghost function Traces(s: Trail): multiset<Bytes> {
    s.acked + multiset(Raws(s.q.pending)) + multiset(Records(s.overflow))
  }

  /** This event completes an overflow write onto a log that ended in a fragment. */
  ghost predicate Fuses(s: Trail, e: Event) {
    e.Record? && !s.cleared && |s.q.part.entries| >= GRANT_RESERVED && e.cut > |e.raw| && !Intact(s.overflow)
  }

  ghost predicate NeverFused(es: seq<Event>) {
    es != [] ==> NeverFused(es[..|es| - 1]) && !Fuses(Exec(es[..|es| - 1]), es[|es| - 1])
  }

  ghost predicate Ok(s: Trail, durable: seq<Entry>) {
    && EventQueue.Ok(s.q, durable)
    && |s.q.pending| <= GRANT_RESERVED
    && s.pulses + (if s.cleared then 1 else 0) <= |s.recorded|
  }

  /** Traces and records always agree in number, and as they stand until one is fused; then traces are longer. */
  ghost predicate Accounted(s: Trail, whole: bool) {
    && |s.recorded| == |Traces(s)|
    && (if whole then s.recorded == Traces(s) else Weight(s.recorded) < Weight(Traces(s)))
  }

  // Bytes in a multiset of records.

  ghost function Weight(m: multiset<Bytes>): nat
    decreases |m|
  {
    if m == multiset{} then 0
    else
      var x :| x in m;
      |x| + Weight(m - multiset{x})
  }

  lemma {:induction false} WeightOfOneMore(m: multiset<Bytes>, x: Bytes)
    ensures Weight(m + multiset{x}) == Weight(m) + |x|
    decreases |m|
  {
    var y := WeighedFirst(m + multiset{x});
    hide Weight;
    TakeOther(m, x, y);
    if y != x {
      var less := m - multiset{y};
      WeightOfOneMore(less, x);
      WeightOfOneMore(less, y);
    }
  }

  /** Taking one element out of a multiset that was just given another. */
  lemma TakeOther(m: multiset<Bytes>, x: Bytes, y: Bytes)
    requires y in m + multiset{x}
    ensures y == x ==> m + multiset{x} - multiset{y} == m
    ensures y != x ==> m + multiset{x} - multiset{y} == (m - multiset{y}) + multiset{x}
    ensures y != x ==> (m - multiset{y}) + multiset{y} == m && |m - multiset{y}| < |m|
  {
    if y != x {
      var less := m - multiset{y};
      assert less + multiset{y} == m;
    }
  }

  /** The element the weighing starts with. */
  lemma WeighedFirst(m: multiset<Bytes>) returns (y: Bytes)
    requires m != multiset{}
    ensures y in m && Weight(m) == |y| + Weight(m - multiset{y})
  {
    y :| y in m && Weight(m) == |y| + Weight(m - multiset{y});
  }

  lemma RawsSnoc(es: seq<Entry>, e: Entry)
    ensures multiset(Raws(es + [e])) == multiset(Raws(es)) + multiset{e.raw}
  {
    assert Raws(es + [e]) == Raws(es) + [e.raw];
  }

  lemma RawsHead(es: seq<Entry>)
    requires es != []
    ensures multiset(Raws(es)) == multiset{es[0].raw} + multiset(Raws(es[1..]))
  {
    assert Raws(es) == [es[0].raw] + Raws(es[1..]);
  }

  function QueueStep(s: Trail, e: Event): Option<EventQueue.Event> {
    match e
    case Record(raw, cut) =>
      if s.cleared then None
      else if |s.q.part.entries| < GRANT_RESERVED then Some(Write(raw, cut))
      else if cut > |raw| then None
      else Some(Restart)
    case Pulse(_) => None
    case Ack(renamed) => if s.q.pending == [] || s.q.part.entries == [] then None else Some(AckHead(renamed))
    case Rewrite(renamed) => Some(EventQueue.Rewrite(renamed))
    case Die => Some(Restart)
  }

  lemma NextOk(s: Trail, durable: seq<Entry>, e: Event) returns (durable': seq<Entry>)
    requires Ok(s, durable)
    ensures Ok(Next(s, e), durable')
  {
    durable' := durable;
    var step := QueueStep(s, e);
    if step.Some? {
      assert Next(s, e).q == EventQueue.Next(s.q, step.value);
      durable' := EventQueue.NextOk(s.q, durable, step.value);
    }
  }

  /** One more record and one more trace, of the record's own length or longer. */
  lemma TraceAdded(s: Trail, s': Trail, raw: Bytes, trace: Bytes, whole: bool)
    requires Accounted(s, whole)
    requires s'.recorded == s.recorded + multiset{raw} && Traces(s') == Traces(s) + multiset{trace}
    requires trace == raw || |trace| > |raw|
    ensures Accounted(s', whole && trace == raw)
  {
    hide Traces, Weight;
    WeightOfOneMore(s.recorded, raw);
    WeightOfOneMore(Traces(s), trace);
  }

  lemma RecordAccounts(s: Trail, e: Event, whole: bool)
    requires e.Record? && s.q.part.entries == s.q.pending && Accounted(s, whole)
    ensures Accounted(Next(s, e), whole && !Fuses(s, e))
  {
    hide Reopen, TornAppend, Append, Line, Records, Weight, Tail;
    var s', raw, cut := Next(s, e), e.raw, e.cut;
    if s.cleared {
    } else if |s.q.part.entries| < GRANT_RESERVED {
      if Completes(s.q.part, raw, cut) {
        RawsSnoc(s.q.pending, NewEntry(s.q.part, raw));
        assert Traces(s') == Traces(s) + multiset{raw};
        TraceAdded(s, s', raw, raw, whole);
      }
    } else if cut > |raw| {
      AppendJoinsTail(s.overflow, raw);
      var trace := Tail(s.overflow) + raw;
      assert Traces(s') == Traces(s) + multiset{trace};
      assert Intact(s.overflow) ==> trace == raw;
      TraceAdded(s, s', raw, trace, whole);
    } else {
      FragmentLengthensTail(s.overflow, raw[..cut]);
    }
  }

  lemma OtherStepsKeepTraces(s: Trail, durable: seq<Entry>, e: Event)
    requires Ok(s, durable) && !e.Record?
    ensures Next(s, e).recorded == s.recorded && Traces(Next(s, e)) == Traces(s)
  {
    hide Reopen, Records, Mirrors, Compact, EventQueue.Ack, Raws;
    if e.Ack? && s.q.pending != [] {
      RawsHead(s.q.pending);
    }
  }

  lemma NextAccounts(s: Trail, durable: seq<Entry>, e: Event, whole: bool)
    requires Ok(s, durable) && Accounted(s, whole)
    ensures Accounted(Next(s, e), whole && !Fuses(s, e))
  {
    hide Next, Weight, Traces;
    if e.Record? {
      RecordAccounts(s, e, whole);
    } else {
      OtherStepsKeepTraces(s, durable, e);
    }
  }

  lemma {:induction false} RunOk(es: seq<Event>) returns (durable: seq<Entry>)
    ensures Ok(Exec(es), durable)
    ensures Accounted(Exec(es), NeverFused(es))
  {
    if es == [] {
      durable := [];
      assert Raws([]) == [];
      assert Records([]) == [];
    } else {
      var prefix, last := es[..|es| - 1], es[|es| - 1];
      var d := RunOk(prefix);
      NextAccounts(Exec(prefix), d, last, NeverFused(prefix));
      durable := NextOk(Exec(prefix), d, last);
    }
  }

  /**
   * Wherever the process dies, every recorded grant event leaves exactly one
   * trace: acked, still pending, or a record of the overflow log. The traces
   * are the events themselves exactly when no overflow record was completed
   * behind the fragment of an interrupted one; otherwise they have bytes of
   * the fragments in them, and are never any fewer.
   */
  lemma GrantEventsAreConserved(es: seq<Event>)
    ensures |Exec(es).recorded| == |Exec(es).acked| + |Exec(es).q.pending| + |Records(Exec(es).overflow)|
    ensures var s := Exec(es);
            s.recorded == s.acked + multiset(Raws(s.q.pending)) + multiset(Records(s.overflow)) <==> NeverFused(es)
  {
    var durable := RunOk(es);
    TracesCount(Exec(es));
  }

  lemma TracesCount(s: Trail)
    ensures |Traces(s)| == |s.acked| + |s.q.pending| + |Records(s.overflow)|
  {
  }

  /**
   * At every point of every run actuations never outnumber what is durable,
   * in the files or at the gateway; what is pending fits the reserve and is
   * what a restart would find.
   */
  lemma RecordedBeforeActuated(es: seq<Event>)
    ensures Exec(es).pulses <= |Exec(es).acked| + |Reopen(Exec(es).q.part.disk).entries| + |Records(Exec(es).overflow)|
    ensures |Exec(es).q.pending| <= GRANT_RESERVED
    ensures Exec(es).q.pending == Exec(es).q.part.entries == Reopen(Exec(es).q.part.disk).entries
  {
    var durable := RunOk(es);
    TracesCount(Exec(es));
    ReopenIsIdentity(Exec(es).q.part, durable);
  }

  // -- Fusion does happen ------------------------------------------------------------------

  /** The length of a whole write of this record in this state. */
  function WholeWrite(s: Trail, raw: Raw): nat {
    if |s.q.part.entries| < GRANT_RESERVED then |Line(NewEntry(s.q.part, raw))| else |raw| + 1
  }

  lemma {:induction false} FillReserve(n: nat, raw: Raw) returns (es: seq<Event>)
    requires n <= GRANT_RESERVED
    ensures !Exec(es).cleared && |Exec(es).q.part.entries| == n && Exec(es).overflow == []
  {
    if n == 0 {
      es := [];
    } else {
      var prefix := FillReserve(n - 1, raw);
      var s := Exec(prefix);
      var recorded := prefix + [Record(raw, WholeWrite(s, raw))];
      es := recorded + [Pulse(true)];
      assert recorded[..|prefix|] == prefix && es[..|recorded|] == recorded;
      assert Exec(recorded) == Next(s, Record(raw, WholeWrite(s, raw)));
      assert Exec(es) == Next(Exec(recorded), Pulse(true));
    }
  }

  /** With the reserve full, a death inside one overflow write and then a whole one are enough. */
  lemma FusionIsReachable(raw: Raw, next: Raw) returns (es: seq<Event>)
    requires raw != []
    ensures !NeverFused(es)
  {
    hide Next;
    var full := FillReserve(GRANT_RESERVED, raw);
    var torn := full + [Record(raw, 1)];
    es := torn + [Record(next, |next| + 1)];
    assert torn[..|full|] == full && es[..|torn|] == torn;
    var durable := RunOk(full);
    TearOverflow(Exec(full), durable, raw);
    assert Exec(torn) == Next(Exec(full), Record(raw, 1));
  }

  lemma TearOverflow(s: Trail, durable: seq<Entry>, raw: Raw)
    requires Ok(s, durable) && raw != []
    requires !s.cleared && |s.q.part.entries| == GRANT_RESERVED && s.overflow == []
    ensures var t := Next(s, Record(raw, 1));
            !t.cleared && |t.q.part.entries| >= GRANT_RESERVED && !Intact(t.overflow)
  {
    hide Reopen;
    ReopenIsIdentity(s.q.part, durable);
    assert ([] + raw[..1])[0] == raw[0] && raw[0] in raw;
  }
}
