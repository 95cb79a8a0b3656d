/**
 * The controller's durable state: every mutation is applied in memory, the
 * file is replaced as a whole, and a failed write restores memory from a
 * shallow copy. The pairing record is a heap object, so what the copy shares
 * with the live state shows.
 */
module PairedState {
  import opened Common

  datatype PairingInfo = PairingInfo(deviceId: string, gatewayPubkey: string, wsUrl: string, pollInterval: int)

  /** The contents of the state file. */
  datatype Data = Data(
    pairing: Option<PairingInfo>,
    lockdown: bool,
    config: map<string, int>,
    lastSync: int,
    accessPoints: seq<string>)

  const EMPTY := Data(None, false, map[], 0, [])

  datatype Mutation =
    | SetPairing(p: PairingInfo)
    | Repair(next: string)
    | Latch(on: bool)
    | Merge(kv: map<string, int>)
    | Sync(ts: int)
    | Serve(aps: seq<string>)

  datatype SaveResult = Saved | BadKey | MissingDevice | KeyChangeRefused | NotPersisted

  function Applied(d: Data, m: Mutation): Data {
    match m
    case SetPairing(p) => d.(pairing := Some(p))
    case Repair(next) => if d.pairing.Some? then d.(pairing := Some(d.pairing.value.(gatewayPubkey := next))) else d
    case Latch(on) => d.(lockdown := on)
    case Merge(kv) => d.(config := d.config + kv)
    case Sync(ts) => d.(lastSync := ts)
    case Serve(aps) => d.(accessPoints := aps)
  }

  /** Memory after a failed write: a repair of an existing pairing is not undone. */
  function RolledBack(d: Data, m: Mutation): Data {
    if m.Repair? then Applied(d, m) else d
  }

  /** Memory and file after one mutation. */
  function AfterMutate(memory: Data, disk: Data, m: Mutation, persists: bool): (Data, Data) {
    if persists then (Applied(memory, m), Applied(memory, m)) else (RolledBack(memory, m), disk)
  }

  function Key(d: Data): Option<string> {
    if d.pairing.Some? then Some(d.pairing.value.gatewayPubkey) else None
  }

  /** A failed write leaves memory as it was, except exactly for a repair changing the key of a paired controller. */
  lemma RollbackIsExact(memory: Data, disk: Data, m: Mutation)
    ensures AfterMutate(memory, disk, m, false) == (memory, disk)
            <==> !(m.Repair? && memory.pairing.Some? && memory.pairing.value.gatewayPubkey != m.next)
  {
    if m.Repair? && memory.pairing.Some? {
      var p := memory.pairing.value;
      assert p.gatewayPubkey == m.next ==> p.(gatewayPubkey := m.next) == p;
    }
  }

  /** A mutation that is written changes its own part of memory and file, as given, and no other. */
  lemma MutationsAreWritten(memory: Data, disk: Data, p: PairingInfo, on: bool, kv: map<string, int>, ts: int,
                            aps: seq<string>)
    ensures var paired := memory.(pairing := Some(p));
            AfterMutate(memory, disk, SetPairing(p), true) == (paired, paired)
    ensures var latched := memory.(lockdown := on); AfterMutate(memory, disk, Latch(on), true) == (latched, latched)
    ensures var synced := memory.(lastSync := ts); AfterMutate(memory, disk, Sync(ts), true) == (synced, synced)
    ensures var serving := memory.(accessPoints := aps);
            AfterMutate(memory, disk, Serve(aps), true) == (serving, serving)
    ensures var (merged, written) := AfterMutate(memory, disk, Merge(kv), true);
            && merged == memory.(config := merged.config) && written == merged
            && (forall k :: k in merged.config <==> k in memory.config || k in kv)
            && (forall k :: k in merged.config ==> merged.config[k] == if k in kv then kv[k] else memory.config[k])
    ensures memory.pairing.Some? ==>
              var repaired := memory.(pairing := Some(memory.pairing.value.(gatewayPubkey := p.gatewayPubkey)));
              AfterMutate(memory, disk, Repair(p.gatewayPubkey), true) == (repaired, repaired)
  {
  }

  /** Then memory trusts the next key while the file keeps the old one, and a restart goes back to it. */
  lemma FailedRepairSplitsThePin(memory: Data, next: string)
    requires memory.pairing.Some? && memory.pairing.value.gatewayPubkey != next
    ensures var (live, file) := AfterMutate(memory, memory, Repair(next), false);
            Key(live) == Some(next) && Key(file) == Key(memory) && live != file
            && live.(pairing := None) == file.(pairing := None)
  {
  }

  class Pairing {
    var deviceId: string
    var gatewayPubkey: string
    var wsUrl: string
    var pollInterval: int

    constructor (p: PairingInfo)
      ensures Info() == p
    {
      deviceId, gatewayPubkey, wsUrl, pollInterval := p.deviceId, p.gatewayPubkey, p.wsUrl, p.pollInterval;
    }

    function Info(): PairingInfo
      reads this
    {
      PairingInfo(deviceId, gatewayPubkey, wsUrl, pollInterval)
    }
  }

  class Store {
    var pairing: Pairing?
    var lockdown: bool
    var config: map<string, int>
    var lastSync: int
    var accessPoints: seq<string>
    var disk: Data

    function Memory(): Data
      reads this, pairing
    {
      Data(if pairing == null then None else Some(pairing.Info()), lockdown, config, lastSync, accessPoints)
    }

    constructor (file: Data)
      ensures Memory() == disk == file
      ensures pairing == null || fresh(pairing)
    {
      lockdown, config, lastSync, accessPoints := file.lockdown, file.config, file.lastSync, file.accessPoints;
      disk := file;
      if file.pairing.Some? {
        pairing := new Pairing(file.pairing.value);
      } else {
        pairing := null;
      }
    }

    method Apply(m: Mutation)
      modifies this, pairing
      ensures Memory() == Applied(old(Memory()), m) && disk == old(disk)
      ensures if m.SetPairing? then pairing != null && fresh(pairing) else pairing == old(pairing)
      ensures old(pairing) != null && !m.Repair? ==> old(pairing).Info() == old(Memory()).pairing.value
    {
      match m
      case SetPairing(p) => pairing := new Pairing(p);
      case Repair(next) =>
        if pairing != null {
          pairing.gatewayPubkey := next;
        }
      case Latch(on) => lockdown := on;
      case Merge(kv) => MergeInto(kv);
      case Sync(ts) => lastSync := ts;
      case Serve(aps) => accessPoints := aps;
    }

    method MergeInto(kv: map<string, int>)
      modifies this`config
      ensures config == old(config) + kv
    {
      var todo := kv.Keys;
      while todo != {}
        invariant todo <= kv.Keys
        invariant config == old(config) + map k | k in kv && k !in todo :: kv[k]
        decreases todo
      {
        var k :| k in todo;
        config := config[k := kv[k]];
        todo := todo - {k};
      }
      assert (map k | k in kv && k !in todo :: kv[k]) == kv;
    }

    /** Copies the fields (and the config map), applies, writes; a failed write puts the copies back. */
    method Mutate(m: Mutation, persists: bool) returns (ok: bool)
      modifies this, pairing
      ensures ok == persists
      ensures (Memory(), disk) == AfterMutate(old(Memory()), old(disk), m, persists)
      ensures pairing == old(pairing) || fresh(pairing)
    {
      var prevPairing, prevLockdown, prevConfig := pairing, lockdown, config;
      var prevSync, prevAccessPoints := lastSync, accessPoints;
      Apply(m);
      if !persists {
        pairing, lockdown, config := prevPairing, prevLockdown, prevConfig;
        lastSync, accessPoints := prevSync, prevAccessPoints;
        return false;
      }
      disk := Memory();
      return true;
    }

    /** Pairing again may move everything but a pinned key, whatever becomes of the write. */
    method SavePairing(p: PairingInfo, isKey: string -> bool, persists: bool) returns (r: SaveResult)
      modifies this, pairing
      ensures (r, Memory(), disk) == AfterSave(old(Memory()), old(disk), p, isKey, persists)
      ensures old(Memory()).pairing.Some? ==> Key(Memory()) == Key(old(Memory()))
      ensures SavedAsDue(old(Memory()), old(disk), p, isKey, persists, r, Memory(), disk)
    {
      if !isKey(p.gatewayPubkey) {
        return BadKey;
      }
      if p.deviceId == "" {
        return MissingDevice;
      }
      if pairing != null && pairing.gatewayPubkey != p.gatewayPubkey {
        return KeyChangeRefused;
      }
      var ok := Mutate(SetPairing(p), persists);
      return if ok then Saved else NotPersisted;
    }
  }

  /** Why pairing data is refused, or that it replaces what was there; a failed write leaves everything. */
  ghost predicate SavedAsDue(m: Data, file: Data, p: PairingInfo, isKey: string -> bool, persists: bool, r: SaveResult,
                             m': Data, file': Data) {
    if !isKey(p.gatewayPubkey) then r == BadKey && m' == m && file' == file
    else if p.deviceId == "" then r == MissingDevice && m' == m && file' == file
    else if m.pairing.Some? && m.pairing.value.gatewayPubkey != p.gatewayPubkey then
      r == KeyChangeRefused && m' == m && file' == file
    else if persists then r == Saved && m' == m.(pairing := Some(p)) && file' == m'
    else r == NotPersisted && m' == m && file' == file
  }

  function AfterSave(memory: Data, disk: Data, p: PairingInfo, isKey: string -> bool, persists: bool)
    : (SaveResult, Data, Data)
  {
    if !isKey(p.gatewayPubkey) then (BadKey, memory, disk)
    else if p.deviceId == "" then (MissingDevice, memory, disk)
    else if memory.pairing.Some? && memory.pairing.value.gatewayPubkey != p.gatewayPubkey then
      (KeyChangeRefused, memory, disk)
    else
      var (m, d) := AfterMutate(memory, disk, SetPairing(p), persists);
      (if persists then Saved else NotPersisted, m, d)
  }
}
