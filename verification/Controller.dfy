/**
 * Processing a verified command, and safety over whole runs of the
 * controller: which key is pinned, and what the lockdown latch holds back.
 */
module Controller {
  import opened Common
  import opened Commands
  import opened PairedState
  import opened HoldTimer
  import NonceStore
  import Grants

  const DEFAULT_PULSE_MS := 700
  const DEFAULT_HOLD_MAX := 1800

  datatype Outcome =
    | Opened | HeldOpen | Closed | Done
    | HardwareError | PersistError | ConfigInvalid | RepairInvalid | UnknownCommand
    | NotPaired | Denied(reason: Reason)

  // -- Executing an accepted command -----------------------------------------------------

  function ConfigOr(config: map<string, int>, key: string, default: int): int {
    if key in config && config[key] > 0 then config[key] else default
  }

  function HoldSeconds(payload: map<string, Value>, holdMax: int): (seconds: int)
    ensures holdMax > 0 ==> 0 < seconds <= holdMax
  {
    if "seconds" in payload && payload["seconds"].Number? && 0 < payload["seconds"].n < holdMax
    then payload["seconds"].n
    else holdMax
  }

  predicate ConfigValid(payload: map<string, Value>) {
    forall k :: k in payload ==> payload[k].Number? && payload[k].n >= 0
  }

  ghost function Numbers(payload: map<string, Value>): map<string, int> {
    map k | k in payload && payload[k].Number? :: payload[k].n
  }

  function NextKey(payload: map<string, Value>): string {
    if "next_pubkey" in payload && payload["next_pubkey"].Text? then payload["next_pubkey"].s else ""
  }

  /** What an accepted command writes to the state file. */
  ghost function MutationOf(c: Command, isKey: string -> bool): Option<Mutation> {
    if c.cmd == "lockdown" then Some(Latch(true))
    else if c.cmd == "lift" then Some(Latch(false))
    else if c.cmd == "ping" then Some(Sync(c.iat))
    else if c.cmd == "config" && ConfigValid(c.payload) then Some(Merge(Numbers(c.payload)))
    else if c.cmd == "repair" && NextKey(c.payload) != "" && isKey(NextKey(c.payload)) then
      Some(Repair(NextKey(c.payload)))
    else None
  }

  /** What an accepted command asks of the relay. */
  ghost function ActuationOf(c: Command, config: map<string, int>): Option<Actuation> {
    if c.cmd == "open" then Some(Pulse(ConfigOr(config, "pulse_ms", DEFAULT_PULSE_MS)))
    else if c.cmd == "hold" then Some(Hold(HoldSeconds(c.payload, ConfigOr(config, "hold_max", DEFAULT_HOLD_MAX))))
    else if c.cmd == "close" then Some(Release)
    else None
  }

  ghost function OutcomeOf(c: Command, relayWorks: bool, persists: bool, isKey: string -> bool): Outcome {
    if NeedsAccessPoint(c.cmd) then
      if !relayWorks then HardwareError
      else if c.cmd == "open" then Opened
      else if c.cmd == "hold" then HeldOpen
      else Closed
    else if c.cmd == "ping" then Done
    else if c.cmd == "config" && !ConfigValid(c.payload) then ConfigInvalid
    else if c.cmd == "repair" then if MutationOf(c, isKey).Some? && persists then Done else RepairInvalid
    else if c.cmd in {"lockdown", "lift", "config"} then if persists then Done else PersistError
    else UnknownCommand
  }

  datatype AuditEvent = OpenedEvent(ref: string) | ClosedEvent(ref: string) | DeniedEvent(why: Outcome, ref: string)

  /** The acknowledgement that is signed and returned. */
  datatype Ack = Ack(deviceId: string, nonce: string, outcome: Outcome, ts: int64)

  /** What is recorded for a command that came to this outcome. */
  function EventsOf(outcome: Outcome, nonce: string): seq<AuditEvent> {
    match outcome
    case Opened => [OpenedEvent(nonce)]
    case HeldOpen => [OpenedEvent(nonce)]
    case Closed => [ClosedEvent(nonce)]
    case Done => []
    case NotPaired => []
    case _ => [DeniedEvent(outcome, nonce)]
  }

  /** The gate after what a command asks of it, if anything. */
  function Moved(g: Gate, a: Option<Actuation>, works: bool): Gate {
    if a.Some? then HoldTimer.Next(g, Try(a.value, works)) else g
  }

  // -- What a command is told to do, without the functions above -------------------------------

  /** How relay, timer and the account of the moves follow a command. */
  ghost predicate MovesAsTold(c: Command, config: map<string, int>, works: bool, g: Gate, g': Gate) {
    if c.cmd == "open" then
      var ms := if "pulse_ms" in config && config["pulse_ms"] > 0 then config["pulse_ms"] else 700;
      g'.moves == g.moves + [Tried(Pulse(ms), works)] && g'.held == g.held && g'.timer == g.timer
    else if c.cmd == "hold" then
      var most := if "hold_max" in config && config["hold_max"] > 0 then config["hold_max"] else 1800;
      var asked := "seconds" in c.payload && c.payload["seconds"].Number? && 0 < c.payload["seconds"].n < most;
      var seconds := if asked then c.payload["seconds"].n else most;
      && g'.moves == g.moves + [Tried(Hold(seconds), works)] && g'.held == (g.held || works)
      && g'.timer == if works then Some(Duration(seconds)) else g.timer
    else if c.cmd == "close" then
      g'.moves == g.moves + [Tried(Release, works)] && g'.held == (g.held && !works) && g'.timer == None
    else g' == g
  }

  /** Every entry of a config payload is a number, none negative. */
  predicate AllCounts(payload: map<string, Value>) {
    forall k :: k in payload ==> payload[k].Number? && 0 <= payload[k].n
  }

  predicate NamesKey(payload: map<string, Value>, isKey: string -> bool) {
    && "next_pubkey" in payload && payload["next_pubkey"].Text?
    && payload["next_pubkey"].s != "" && isKey(payload["next_pubkey"].s)
  }

  /** How memory and the state file follow a command; only an unwritten repair stays in memory. */
  ghost predicate StoredAsTold(c: Command, persists: bool, isKey: string -> bool, d: Data, disk: Data, d': Data,
                               disk': Data) {
    if c.cmd == "repair" && NamesKey(c.payload, isKey) then
      && disk' == (if persists then d' else disk)
      && d'.(pairing := None) == d.(pairing := None)
      && (d.pairing.None? ==> d'.pairing.None?)
      && (d.pairing.Some? ==>
            d'.pairing == Some(d.pairing.value.(gatewayPubkey := c.payload["next_pubkey"].s)))
    else if !persists then d' == d && disk' == disk
    else if c.cmd == "lockdown" then d' == d.(lockdown := true) && disk' == d'
    else if c.cmd == "lift" then d' == d.(lockdown := false) && disk' == d'
    else if c.cmd == "ping" then d' == d.(lastSync := c.iat) && disk' == d'
    else if c.cmd == "config" && AllCounts(c.payload) then
      && d' == d.(config := d'.config) && disk' == d'
      && (forall k :: k in d'.config <==> k in d.config || k in c.payload)
      && (forall k :: k in d'.config ==> d'.config[k] == if k in c.payload then c.payload[k].n else d.config[k])
    else d' == d && disk' == disk
  }

  /** What the command is answered. */
  function AnswerDue(c: Command, works: bool, persists: bool, isKey: string -> bool): Outcome {
    match c.cmd
    case "open" => if works then Opened else HardwareError
    case "hold" => if works then HeldOpen else HardwareError
    case "close" => if works then Closed else HardwareError
    case "lockdown" => if persists then Done else PersistError
    case "lift" => if persists then Done else PersistError
    case "ping" => Done
    case "config" => if !AllCounts(c.payload) then ConfigInvalid else if persists then Done else PersistError
    case "repair" => if NamesKey(c.payload, isKey) && persists then Done else RepairInvalid
    case _ => UnknownCommand
  }

  /** What is recorded: a move that worked, or an answer that is an error; nothing for what was merely stored. */
  function RecordsDue(answer: Outcome, nonce: string): seq<AuditEvent> {
    match answer
    case Opened => [OpenedEvent(nonce)]
    case HeldOpen => [OpenedEvent(nonce)]
    case Closed => [ClosedEvent(nonce)]
    case Done => []
    case other => [DeniedEvent(other, nonce)]
  }

  lemma MovesFollow(c: Command, config: map<string, int>, works: bool, g: Gate)
    ensures MovesAsTold(c, config, works, g, Moved(g, ActuationOf(c, config), works))
  {
    hide Duration;
  }

  lemma StoreFollows(c: Command, persists: bool, isKey: string -> bool, d: Data, disk: Data)
    ensures var (d', disk') := Written(d, disk, c, persists, isKey);
            StoredAsTold(c, persists, isKey, d, disk, d', disk')
  {
  }

  lemma AnswerFollows(c: Command, works: bool, persists: bool, isKey: string -> bool)
    ensures OutcomeOf(c, works, persists, isKey) == AnswerDue(c, works, persists, isKey)
    ensures !AnswerDue(c, works, persists, isKey).NotPaired? && !AnswerDue(c, works, persists, isKey).Denied?
  {
  }

  /**
   * One delivered envelope at a paired controller: refused, it is answered
   * and recorded with its reason and changes nothing else; accepted, it does
   * what it says.
   */
  ghost predicate Delivered(p: PairingInfo, d: Data, disk: Data, e: Envelope, v: Verdict, now: int64, later: int64,
                            probe: string, works: bool, persists: bool, isKey: string -> bool, g: Gate,
                            d': Data, disk': Data, g': Gate, ack: Ack, recorded: seq<AuditEvent>) {
    match v
    case Rejected(reason) =>
      var ref := if e.parsed.Some? then e.parsed.value.nonce else probe;
      && ack == Ack(p.deviceId, ref, Denied(reason), now) && recorded == [DeniedEvent(Denied(reason), ref)]
      && g' == g && d' == d && disk' == disk
    case Accepted(c) =>
      var answer := AnswerDue(c, works, persists, isKey);
      && ack == Ack(p.deviceId, c.nonce, answer, later) && recorded == RecordsDue(answer, c.nonce)
      && MovesAsTold(c, d.config, works, g, g') && StoredAsTold(c, persists, isKey, d, disk, d', disk')
  }

  class Processor {
    const state: Store
    const nonces: NonceStore.Store
    var held: bool
    var timer: Option<int>
    var moves: seq<Move>
    var events: seq<AuditEvent>

    /** The relay and the release timer, with everything that was asked of them. */
    ghost function Relayed(): Gate
      reads this
    {
      Gate(held, timer, moves)
    }

    constructor (state: Store, nonces: NonceStore.Store)
      ensures this.state == state && this.nonces == nonces && Relayed() == AT_REST && events == []
    {
      this.state, this.nonces := state, nonces;
      held, timer, moves, events := false, None, [], [];
    }

    method ReadConfig(payload: map<string, Value>) returns (kv: Option<map<string, int>>)
      ensures kv == if ConfigValid(payload) then Some(Numbers(payload)) else None
    {
      var todo, read := payload.Keys, map[];
      while todo != {}
        invariant todo <= payload.Keys
        invariant forall k :: k in payload && k !in todo ==> payload[k].Number? && payload[k].n >= 0
        invariant read == map k | k in payload && k !in todo && payload[k].Number? :: payload[k].n
        decreases todo
      {
        var k :| k in todo;
        if !payload[k].Number? || payload[k].n < 0 {
          return None;
        }
        read := read[k := payload[k].n];
        todo := todo - {k};
      }
      assert read == Numbers(payload);
      return Some(read);
    }

    /** Asks the relay to move, which it does unless it fails. */
    method Ask(a: Actuation, works: bool)
      modifies this`held, this`moves
      ensures moves == old(moves) + [Tried(a, works)]
      ensures held == if works && !a.Pulse? then a.Hold? else old(held)
    {
      moves := moves + [Tried(a, works)];
      if works && !a.Pulse? {
        held := a.Hold?;
      }
    }

    /** Moves the relay, records the move and handles the timer, for the commands that act on an access point. */
    method Actuate(c: Command, relayWorks: bool) returns (r: Outcome)
      requires NeedsAccessPoint(c.cmd)
      modifies this
      ensures forall persists, isKey :: r == OutcomeOf(c, relayWorks, persists, isKey)
      ensures Relayed() == Moved(old(Relayed()), ActuationOf(c, state.config), relayWorks)
      ensures events == old(events) + if relayWorks then EventsOf(r, c.nonce) else []
    {
      match c.cmd
      case "open" =>
        Ask(Pulse(ConfigOr(state.config, "pulse_ms", DEFAULT_PULSE_MS)), relayWorks);
        if !relayWorks {
          return HardwareError;
        }
        events := events + [OpenedEvent(c.nonce)];
        return Opened;
      case "hold" =>
        var seconds := HoldSeconds(c.payload, ConfigOr(state.config, "hold_max", DEFAULT_HOLD_MAX));
        Ask(Hold(seconds), relayWorks);
        if !relayWorks {
          return HardwareError;
        }
        timer := Some(Duration(seconds));
        events := events + [OpenedEvent(c.nonce)];
        return HeldOpen;
      case _ =>
        timer := None;
        Ask(Release, relayWorks);
        if !relayWorks {
          return HardwareError;
        }
        events := events + [ClosedEvent(c.nonce)];
        return Closed;
    }

    /** The hold has lasted its time. */
    method TimerFires(relayWorks: bool)
      requires timer.Some? && timer.value <= 0
      modifies this
      ensures Relayed() == HoldTimer.Next(old(Relayed()), Fire(relayWorks))
      ensures events == old(events) + if relayWorks then [ClosedEvent("hold_max")] else []
    {
      timer := None;
      Ask(Release, relayWorks);
      if relayWorks {
        events := events + [ClosedEvent("hold_max")];
      }
    }

    /** Moves the relay at most once and writes the state at most once, as the command says. */
    method Execute(c: Command, relayWorks: bool, persists: bool, isKey: string -> bool) returns (r: Outcome)
      modifies this, state, state.pairing
      ensures r == OutcomeOf(c, relayWorks, persists, isKey)
      ensures Relayed() == Moved(old(Relayed()), ActuationOf(c, old(state.config)), relayWorks)
      ensures events == old(events) + if NeedsAccessPoint(c.cmd) && relayWorks then EventsOf(r, c.nonce) else []
      ensures (state.Memory(), state.disk) == Written(old(state.Memory()), old(state.disk), c, persists, isKey)
    {
      hide Numbers, ConfigValid;
      if NeedsAccessPoint(c.cmd) {
        r := Actuate(c, relayWorks);
        return;
      }
      match c.cmd
      case "lockdown" =>
        var ok := state.Mutate(Latch(true), persists);
        return if ok then Done else PersistError;
      case "lift" =>
        var ok := state.Mutate(Latch(false), persists);
        return if ok then Done else PersistError;
      case "ping" =>
        var _ := state.Mutate(Sync(c.iat), persists);
        return Done;
      case "config" =>
        var kv := ReadConfig(c.payload);
        if kv.None? {
          return ConfigInvalid;
        }
        var ok := state.Mutate(Merge(kv.value), persists);
        return if ok then Done else PersistError;
      case "repair" =>
        var next := NextKey(c.payload);
        if next == "" || !isKey(next) {
          return RepairInvalid;
        }
        var ok := state.Mutate(Repair(next), persists);
        return if ok then Done else RepairInvalid;
      case _ =>
        return UnknownCommand;
    }

    /** Executes an accepted command; an error is recorded as a denial. */
    method Obey(c: Command, relayWorks: bool, persists: bool, isKey: string -> bool) returns (r: Outcome)
      modifies this, state, state.pairing
      ensures r == AnswerDue(c, relayWorks, persists, isKey)
      ensures events == old(events) + RecordsDue(r, c.nonce)
      ensures MovesAsTold(c, old(state.config), relayWorks, old(Relayed()), Relayed())
      ensures StoredAsTold(c, persists, isKey, old(state.Memory()), old(state.disk), state.Memory(), state.disk)
      ensures (state.Memory(), state.disk) == Written(old(state.Memory()), old(state.disk), c, persists, isKey)
    {
      AnswerFollows(c, relayWorks, persists, isKey);
      MovesFollow(c, state.config, relayWorks, Relayed());
      StoreFollows(c, persists, isKey, state.Memory(), state.disk);
      hide MovesAsTold, StoredAsTold, Written, Moved, ActuationOf, OutcomeOf, AnswerDue;
      r := Execute(c, relayWorks, persists, isKey);
      OutcomeSpeaks(c, relayWorks, persists, isKey);
      if Failed(r) {
        events := events + [DeniedEvent(r, c.nonce)];
      }
    }

    /**
     * Verifies against the pinned key, then executes; nothing moves on a
     * refused envelope. Every call of a paired controller is acknowledged and
     * leaves the events of its outcome. `probe` is the nonce an unreadable
     * envelope seems to carry, `later` the clock when the acknowledgement is
     * made.
     */
    method Process(e: Envelope, now: int64, later: int64, probe: string, c: Grants.Crypto, noncePersists: bool,
                   relayWorks: bool, persists: bool)
      returns (ack: Option<Ack>)
      modifies this, nonces, state, state.pairing
      ensures ack.None? <==> old(state.Memory()).pairing.None?
      ensures ack.None? ==> && Relayed() == old(Relayed()) && events == old(events)
                            && state.Memory() == old(state.Memory()) && state.disk == old(state.disk)
                            && nonces.State() == old(nonces.State())
      ensures ack.Some? ==>
                var d := old(state.Memory());
                var p := d.pairing.value;
                var ctx := Context(now := now, deviceId := p.deviceId, accessPoints := d.accessPoints,
                                   lockdown := d.lockdown, key := p.gatewayPubkey);
                var (held, v) := AfterVerify(e, ctx, old(nonces.State()), noncePersists, c.verifies);
                && nonces.State() == held
                && |old(events)| <= |events| && events[..|old(events)|] == old(events)
                && Delivered(p, d, old(state.disk), e, v, now, later, probe, relayWorks, persists, c.isKey,
                             old(Relayed()), state.Memory(), state.disk, Relayed(), ack.value,
                             events[|old(events)|..])
      ensures var before := Durable(old(state.Memory()), old(state.disk), old(nonces.State()));
              var after := Durable(state.Memory(), state.disk, nonces.State());
              after == Processed(before, e, now, c, noncePersists, persists).0
    {
      hide AfterVerify, Written, StoredAsTold, MovesAsTold, AnswerDue;
      if state.pairing == null {
        return None;
      }
      var deviceId := state.pairing.deviceId;
      var ctx := Context(now, deviceId, state.accessPoints, state.lockdown, state.pairing.gatewayPubkey);
      assert ctx == ContextOf(state.Memory(), now);
      var v := Verify(e, ctx, nonces, noncePersists, c.verifies);
      if v.Rejected? {
        var ref := RefOf(e, probe);
        events := events + [DeniedEvent(Denied(v.reason), ref)];
        return Some(Ack(deviceId, ref, Denied(v.reason), now));
      }
      var outcome := Obey(v.command, relayWorks, persists, c.isKey);
      return Some(Ack(deviceId, v.command.nonce, outcome, later));
    }
  }

  /** The result is an error, to be recorded as a denial. */
  predicate Failed(outcome: Outcome) {
    outcome in {HardwareError, PersistError, ConfigInvalid, RepairInvalid, UnknownCommand}
  }

  function RefOf(e: Envelope, probe: string): string {
    if e.parsed.Some? then e.parsed.value.nonce else probe
  }

  /** A command records exactly one event, by its move or by its failure; administrative successes record none. */
  lemma OutcomeSpeaks(c: Command, works: bool, persists: bool, isKey: string -> bool)
    ensures var answer := AnswerDue(c, works, persists, isKey);
            RecordsDue(answer, c.nonce) == (if NeedsAccessPoint(c.cmd) && works then EventsOf(answer, c.nonce) else [])
                                           + if Failed(answer) then [DeniedEvent(answer, c.nonce)] else []
  {
  }

  datatype Durable = Durable(data: Data, disk: Data, nonces: NonceStore.Held)

  function ContextOf(d: Data, now: int64): Context
    requires d.pairing.Some?
  {
    Context(now, d.pairing.value.deviceId, d.accessPoints, d.lockdown, d.pairing.value.gatewayPubkey)
  }

  /** State after one delivered envelope, and the verdict on it unless the controller is unpaired. */
  ghost function Processed(s: Durable, e: Envelope, now: int64, c: Grants.Crypto, noncePersists: bool, persists: bool)
    : (Durable, Option<Verdict>)
  {
    if s.data.pairing.None? then (s, None)
    else
      var (nonces, v) := AfterVerify(e, ContextOf(s.data, now), s.nonces, noncePersists, c.verifies);
      if v.Rejected? then (s.(nonces := nonces), Some(v))
      else
        var (data, disk) := Written(s.data, s.disk, v.command, persists, c.isKey);
        (Durable(data, disk, nonces), Some(v))
  }

  // -- Runs --------------------------------------------------------------------------------

  /** What a run leaves behind, in order. `wrote` says whether the state file was replaced. */
  datatype Step =
    | Paired(key: string)
    | Obeyed(envelope: Envelope, command: Command, under: string, wrote: bool)
    | Redeemed(grantText: string, under: string)
    | Actuated(actuation: Actuation)
    | Wrote
    | Restarted

  datatype Event =
    | Pair(p: PairingInfo, persists: bool)
    | Configure(aps: seq<string>, persists: bool)
    | Deliver(e: Envelope, now: int64, noncePersists: bool, persists: bool)
    | OpenExchange(o: Option<Grants.OpenMsg>, now: int64, cnonce: Option<string>)
    | Prove(proof: Option<Grants.Proof>, now: int64, lastSync: int64)
    | Restart

  datatype Life = Life(durable: Durable, tables: Grants.Tables, trace: seq<Step>)

  const BOOT := Life(Durable(EMPTY, EMPTY, NonceStore.Held(map[], map[])), Grants.Tables(map[], map[]), [])

  function EnvOf(d: Data, now: int, lastSync: int): Grants.Env
    requires d.pairing.Some?
  {
    Grants.Env(now, lastSync, d.pairing.value.deviceId, d.lockdown, d.pairing.value.gatewayPubkey)
  }

  ghost function Next(s: Life, e: Event, c: Grants.Crypto): Life {
    var d := s.durable;
    match e
    case Pair(p, persists) =>
      var (r, data, disk) := AfterSave(d.data, d.disk, p, c.isKey, persists);
      s.(durable := d.(data := data, disk := disk),
         trace := s.trace + if r == Saved then [Paired(p.gatewayPubkey)] else [])
    case Configure(aps, persists) =>
      var (data, disk) := AfterMutate(d.data, d.disk, Serve(aps), persists);
      s.(durable := d.(data := data, disk := disk), trace := s.trace + if persists then [Wrote] else [])
    case Deliver(env, now, noncePersists, persists) =>
      var (after, v) := Processed(d, env, now, c, noncePersists, persists);
      if v.None? || v.value.Rejected? || d.data.pairing.None? then s.(durable := after)
      else
        var cmd := v.value.command;
        var obeyed := Obeyed(env, cmd, d.data.pairing.value.gatewayPubkey, persists && MutationOf(cmd, c.isKey).Some?);
        s.(durable := after,
           trace := s.trace + [obeyed]
                    + (match ActuationOf(cmd, d.data.config) case Some(a) => [Actuated(a)] case None => []))
    case OpenExchange(o, now, cnonce) =>
      s.(tables := Grants.AfterOpen(s.tables, o, Grants.Env(now, 0, "", false, ""), cnonce).0)
    case Prove(proof, now, lastSync) =>
      if d.data.pairing.None? then s
      else
        var env := EnvOf(d.data, now, lastSync);
        var (t, r) := Grants.AfterProof(s.tables, proof, env, c);
        s.(tables := t,
           trace := s.trace +
             if r.Opened? && r.proof.cnonce in s.tables.pending
             then [Redeemed(s.tables.pending[r.proof.cnonce].grant.text, env.gatewayKey),
                   Actuated(Pulse(ConfigOr(d.data.config, "pulse_ms", DEFAULT_PULSE_MS)))]
             else [])
    case Restart =>
      var reread := Durable(d.disk, d.disk, NonceStore.Held(d.nonces.disk, d.nonces.disk));
      Life(reread, Grants.Tables(map[], map[]), s.trace + [Restarted])
  }

  ghost function Exec(es: seq<Event>, c: Grants.Crypto): Life {
    if es == [] then BOOT else Next(Exec(es[..|es| - 1], c), es[|es| - 1], c)
  }

  // -- Reading the trace ---------------------------------------------------------------------

  /** The lockdown latch as the trace tells it: the last lockdown or lift that was obeyed and written. */
  ghost function Latched(trace: seq<Step>): bool {
    if trace == [] then false
    else
      var last := trace[|trace| - 1];
      if last.Obeyed? && last.wrote && last.command.cmd in {"lockdown", "lift"} then last.command.cmd == "lockdown"
      else Latched(trace[..|trace| - 1])
  }

  /** The key trusted in memory and the key in the file, as the trace tells them. */
  ghost function Pins(trace: seq<Step>, isKey: string -> bool): (Option<string>, Option<string>) {
    if trace == [] then (None, None) else PinsAfter(Pins(trace[..|trace| - 1], isKey), trace[|trace| - 1], isKey)
  }

  ghost function PinsAfter(pins: (Option<string>, Option<string>), step: Step, isKey: string -> bool)
    : (Option<string>, Option<string>)
  {
    match step
    case Paired(key) => (Some(key), Some(key))
    case Obeyed(_, command, _, wrote) =>
      var pin :=
        if command.cmd == "repair" && MutationOf(command, isKey).Some? then Some(NextKey(command.payload)) else pins.0;
      (pin, if wrote then pin else pins.1)
    case Wrote => (pins.0, pins.0)
    case Restarted => (pins.1, pins.1)
    case _ => pins
  }

  /** Each step is justified by the trace before it. */
  ghost predicate Justified(before: seq<Step>, step: Step, c: Grants.Crypto) {
    var pin := Pins(before, c.isKey).0;
    match step
    case Paired(key) => c.isKey(key) && (pin == None || pin == Some(key))
    case Obeyed(e, command, under, _) =>
      && pin == Some(under) && e.parsed == Some(command) && c.verifies(under, e.text)
      && (Latched(before) ==> LockdownAllows(command.cmd))
    case Redeemed(text, under) => pin == Some(under) && c.verifies(under, text) && !Latched(before)
    case Actuated(_) =>
      && !Latched(before) && before != []
      && var last := before[|before| - 1];
         last.Redeemed? || (last.Obeyed? && NeedsAccessPoint(last.command.cmd))
    case _ => true
  }

  ghost predicate AllJustified(trace: seq<Step>, c: Grants.Crypto) {
    trace != [] ==>
      AllJustified(trace[..|trace| - 1], c) && Justified(trace[..|trace| - 1], trace[|trace| - 1], c)
  }

  ghost predicate Inv(s: Life, c: Grants.Crypto) {
    && AllJustified(s.trace, c)
    && Pins(s.trace, c.isKey) == (Key(s.durable.data), Key(s.durable.disk))
    && Latched(s.trace) == s.durable.data.lockdown == s.durable.disk.lockdown
  }

  lemma Extend(trace: seq<Step>, step: Step, c: Grants.Crypto)
    requires AllJustified(trace, c) && Justified(trace, step, c)
    ensures AllJustified(trace + [step], c)
    ensures Pins(trace + [step], c.isKey) == PinsAfter(Pins(trace, c.isKey), step, c.isKey)
    ensures step.Actuated? ==> Pins(trace + [step], c.isKey) == Pins(trace, c.isKey)
    ensures Latched(trace + [step]) == if step.Obeyed? && step.wrote && step.command.cmd in {"lockdown", "lift"}
                                       then step.command.cmd == "lockdown" else Latched(trace)
  {
    assert (trace + [step])[..|trace|] == trace;
  }

  lemma DeliverKeepsInv(s: Life, e: Event, c: Grants.Crypto)
    requires Inv(s, c) && e.Deliver? && s.durable.data.pairing.Some?
    ensures Inv(Next(s, e, c), c)
  {
    hide AllJustified, Pins, Latched, AfterVerify, PinsAfter, Written, ConfigValid, Numbers;
    hide Grants.AfterProof, Grants.AfterOpen;
    var d := s.durable;
    var ctx := ContextOf(d.data, e.now);
    AcceptedMeans(e.e, ctx, d.nonces, e.noncePersists, c.verifies);
    var v := AfterVerify(e.e, ctx, d.nonces, e.noncePersists, c.verifies).1;
    if v.Accepted? {
      var cmd := v.command;
      var m := MutationOf(cmd, c.isKey);
      var obeyed := Obeyed(e.e, cmd, ctx.key, e.persists && m.Some?);
      Extend(s.trace, obeyed, c);
      ObeyingFollows(d.data, d.disk, obeyed, e.persists, c.isKey);
      var a := ActuationOf(cmd, d.data.config);
      if a.Some? {
        Extend(s.trace + [obeyed], Actuated(a.value), c);
      } else {
        assert s.trace + [obeyed] + [] == s.trace + [obeyed];
      }
    }
  }

  /** State after obeying a command: its write, if it has one. */
  ghost function Written(data: Data, disk: Data, c: Command, persists: bool, isKey: string -> bool): (Data, Data) {
    match MutationOf(c, isKey)
    case None => (data, disk)
    case Some(m) => AfterMutate(data, disk, m, persists)
  }

  /** The trace's reading of pins and latch follows the state through one obeyed command. */
  lemma ObeyingFollows(data: Data, disk: Data, step: Step, persists: bool, isKey: string -> bool)
    requires step.Obeyed? && data.pairing.Some? && data.lockdown == disk.lockdown
    requires step.wrote == (persists && MutationOf(step.command, isKey).Some?)
    ensures var (data', disk') := Written(data, disk, step.command, persists, isKey);
            && PinsAfter((Key(data), Key(disk)), step, isKey) == (Key(data'), Key(disk'))
            && data'.lockdown == disk'.lockdown
            && data'.lockdown == if step.wrote && step.command.cmd in {"lockdown", "lift"}
                                 then step.command.cmd == "lockdown" else data.lockdown
  {
    hide ConfigValid, Numbers, NextKey;
  }

  lemma AcceptedMeans(e: Envelope, ctx: Context, s: NonceStore.Held, persists: bool, verifies: Verifies)
    ensures var v := AfterVerify(e, ctx, s, persists, verifies).1;
            v.Accepted? ==>
              && e.parsed == Some(v.command) && verifies(ctx.key, e.text)
              && (ctx.lockdown ==> LockdownAllows(v.command.cmd))
  {
    AcceptsIffConforms(e, ctx, s, persists, verifies);
  }

  lemma ProveKeepsInv(s: Life, e: Event, c: Grants.Crypto)
    requires Inv(s, c) && e.Prove? && s.durable.data.pairing.Some? && e.proof.Some?
    ensures Inv(Next(s, e, c), c)
  {
    hide AllJustified, Pins, Latched, Grants.Decide;
    var env := EnvOf(s.durable.data, e.now, e.lastSync);
    Grants.OpensIffConforms(s.tables, e.proof.value, env, c);
    Grants.ProofTouchesOnlyItsCnonce(s.tables, e.proof.value, env, c);
    var r := Grants.AfterProof(s.tables, e.proof, env, c).1;
    if r.Opened? {
      var redeemed := Redeemed(s.tables.pending[r.proof.cnonce].grant.text, env.gatewayKey);
      var pulse := Actuated(Pulse(ConfigOr(s.durable.data.config, "pulse_ms", DEFAULT_PULSE_MS)));
      Extend(s.trace, redeemed, c);
      Extend(s.trace + [redeemed], pulse, c);
      assert s.trace + [redeemed] + [pulse] == s.trace + [redeemed, pulse];
    } else {
      assert s.trace + [] == s.trace;
    }
  }

  lemma NextKeepsInv(s: Life, e: Event, c: Grants.Crypto)
    requires Inv(s, c)
    ensures Inv(Next(s, e, c), c)
  {
    hide AllJustified, Pins, Latched, Processed, Grants.AfterProof, Grants.AfterOpen;
    assert s.trace + [] == s.trace;
    match e
    case Deliver(_, _, _, _) =>
      if s.durable.data.pairing.Some? {
        DeliverKeepsInv(s, e, c);
      } else {
        UnpairedIgnores(s, e, c);
      }
    case Prove(proof, _, _) =>
      if s.durable.data.pairing.Some? && proof.Some? {
        ProveKeepsInv(s, e, c);
      } else {
        UnpairedIgnores(s, e, c);
      }
    case Pair(p, persists) =>
      if AfterSave(s.durable.data, s.durable.disk, p, c.isKey, persists).0 == Saved {
        Extend(s.trace, Paired(p.gatewayPubkey), c);
      }
    case Configure(_, persists) =>
      if persists {
        Extend(s.trace, Wrote, c);
      }
    case Restart => Extend(s.trace, Restarted, c);
    case OpenExchange(_, _, _) =>
  }

  lemma UnpairedIgnores(s: Life, e: Event, c: Grants.Crypto)
    requires e.Deliver? || e.Prove?
    requires s.durable.data.pairing.None? || (e.Prove? && e.proof.None?)
    ensures Next(s, e, c) == s
  {
    assert s.trace + [] == s.trace;
  }

  lemma {:induction false} RunsKeepInv(es: seq<Event>, c: Grants.Crypto)
    ensures Inv(Exec(es, c), c)
  {
    if es != [] {
      RunsKeepInv(es[..|es| - 1], c);
      NextKeepsInv(Exec(es[..|es| - 1], c), es[|es| - 1], c);
    }
  }

  lemma {:induction false} EachJustified(trace: seq<Step>, i: nat, c: Grants.Crypto)
    requires AllJustified(trace, c) && i < |trace|
    ensures Justified(trace[..i], trace[i], c)
  {
    var n := |trace| - 1;
    if i < n {
      EachJustified(trace[..n], i, c);
      assert trace[..n][..i] == trace[..i];
    }
  }

  // -- The two promises -----------------------------------------------------------------------

  /**
   * No command and no grant moves the relay while lockdown is latched. The
   * latch is read off the trace, survives restarts, and is what the state
   * holds at the end.
   */
  lemma NothingMovesUnderLockdown(es: seq<Event>, c: Grants.Crypto, i: nat)
    requires i < |Exec(es, c).trace| && Exec(es, c).trace[i].Actuated?
    ensures !Latched(Exec(es, c).trace[..i])
    ensures Exec(es, c).durable.data.lockdown == Latched(Exec(es, c).trace)
  {
    RunsKeepInv(es, c);
    EachJustified(Exec(es, c).trace, i, c);
  }

  /**
   * The trusted key moves only by the first pairing, by a repair accepted
   * under the key it replaces, or by a restart that goes back to the file.
   */
  lemma PinMovesOnlyByRepair(es: seq<Event>, c: Grants.Crypto, i: nat)
    requires i < |Exec(es, c).trace|
    requires Pins(Exec(es, c).trace[..i], c.isKey).0 != Pins(Exec(es, c).trace[..i + 1], c.isKey).0
    ensures var step := Exec(es, c).trace[i];
            var before, after := Pins(Exec(es, c).trace[..i], c.isKey), Pins(Exec(es, c).trace[..i + 1], c.isKey);
            || (step.Paired? && before.0 == None && after.0 == Some(step.key))
            || (step.Obeyed? && step.command.cmd == "repair" && after.0 == Some(NextKey(step.command.payload))
                && before.0 == Some(step.under) && step.envelope.parsed == Some(step.command)
                && c.verifies(step.under, step.envelope.text))
            || (step.Restarted? && after.0 == before.1)
    ensures Key(Exec(es, c).durable.data) == Pins(Exec(es, c).trace, c.isKey).0
  {
    var trace := Exec(es, c).trace;
    RunsKeepInv(es, c);
    EachJustified(trace, i, c);
    assert trace[..i + 1][..i] == trace[..i];
  }

  ghost predicate RepairsWritten(trace: seq<Step>, isKey: string -> bool) {
    forall step ::
      step in trace && step.Obeyed? && step.command.cmd == "repair" && MutationOf(step.command, isKey).Some? ==>
        step.wrote
  }

  /** While every repair's write succeeds memory and file trust the same key, so no restart moves it. */
  lemma {:induction false} WrittenPinsAgree(trace: seq<Step>, isKey: string -> bool)
    requires RepairsWritten(trace, isKey)
    ensures Pins(trace, isKey).0 == Pins(trace, isKey).1
  {
    if trace != [] {
      var n := |trace| - 1;
      assert trace[n] in trace && forall step :: step in trace[..n] ==> step in trace;
      WrittenPinsAgree(trace[..n], isKey);
    }
  }
}
