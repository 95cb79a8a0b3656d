/**
 * Temporary visitor grants on the WhatsApp path: a use is consumed in its own
 * transaction, then the command is put to the choke point, then the use is
 * refunded in a third transaction if the command was refused. Commands
 * interleave at those transaction boundaries.
 */
module VisitorGrants {
  import opened Common

  type Id = nat

  type GrantId = nat

  datatype Grant = Grant(
    phone: string,
    accessPoints: set<string>,
    active: bool,
    startsAt: int,
    endsAt: int,
    maxUses: Option<nat>,
    usesCount: int)
  {
    /** The WHERE clause of try_consume_grant. */
    predicate Usable(phone: string, accessPoint: string, ts: int) {
      && this.phone == phone && accessPoint in accessPoints && active
      && startsAt <= ts < endsAt
      && (maxUses.Some? ==> usesCount < maxUses.value)
    }
  }

  /** One visitor command. */
  datatype Command =
    | Consumed(grant: GrantId)  // use taken, verdict pending
    | Refused(grant: GrantId)   // refused by the choke point, refund pending
    | Refunded(grant: GrantId)
    | Allowed(grant: GrantId)
    | Lost(grant: GrantId)      // the request died between the transactions
    | NoGrant

  datatype State = State(grants: map<GrantId, Grant>, commands: map<Id, Command>)

  datatype Event =
    | Issue(id: GrantId, grant: Grant)
    | Revoke(id: GrantId)
    | Consume(id: Id, phone: string, accessPoint: string, ts: int, pick: GrantId)
    | Verdict(id: Id, allowed: bool)
    | Refund(id: Id)
    | Die(id: Id)

  const INIT := State(map[], map[])

  /** `pick` is what the earliest-ending-first query returns. */
  predicate Picks(s: State, phone: string, accessPoint: string, ts: int, pick: GrantId) {
    && pick in s.grants && s.grants[pick].Usable(phone, accessPoint, ts)
    && forall g :: g in s.grants && s.grants[g].Usable(phone, accessPoint, ts) ==>
         s.grants[pick].endsAt <= s.grants[g].endsAt
  }

  predicate AnyUsable(s: State, phone: string, accessPoint: string, ts: int) {
    exists g :: g in s.grants && s.grants[g].Usable(phone, accessPoint, ts)
  }

  function AddUses(s: State, g: GrantId, uses: int): State
    requires g in s.grants
  {
    s.(grants := s.grants[g := s.grants[g].(usesCount := uses)])
  }

  /** refundGrantUse: greatest(uses_count - 1, 0). */
  function RefundedCount(uses: int): int {
    if uses - 1 < 0 then 0 else uses - 1
  }

  function Next(s: State, e: Event): State {
    match e
    case Issue(id, grant) => if id in s.grants then s else s.(grants := s.grants[id := grant.(usesCount := 0)])
    case Revoke(id) => if id in s.grants then s.(grants := s.grants[id := s.grants[id].(active := false)]) else s
    case Consume(id, phone, accessPoint, ts, pick) =>
      if id in s.commands then s
      else if Picks(s, phone, accessPoint, ts, pick) then
        AddUses(s, pick, s.grants[pick].usesCount + 1).(commands := s.commands[id := Consumed(pick)])
      else if !AnyUsable(s, phone, accessPoint, ts) then s.(commands := s.commands[id := NoGrant])
      else s
    case Verdict(id, allowed) =>
      if id in s.commands && s.commands[id].Consumed? then
        var g := s.commands[id].grant;
        s.(commands := s.commands[id := if allowed then Allowed(g) else Refused(g)])
      else s
    case Refund(id) =>
      if id in s.commands && s.commands[id].Refused? && s.commands[id].grant in s.grants then
        var g := s.commands[id].grant;
        AddUses(s, g, RefundedCount(s.grants[g].usesCount)).(commands := s.commands[id := Refunded(g)])
      else s
    case Die(id) =>
      if id in s.commands && (s.commands[id].Consumed? || s.commands[id].Refused?) then
        s.(commands := s.commands[id := Lost(s.commands[id].grant)])
      else s
  }

  function Exec(es: seq<Event>): State {
    if es == [] then INIT else Next(Exec(es[..|es| - 1]), es[|es| - 1])
  }

  // -- Who holds a use -------------------------------------------------------------

  predicate Holds(c: Command, g: GrantId) {
    !c.NoGrant? && !c.Refunded? && c.grant == g
  }

  function AllowedOn(s: State, g: GrantId): set<Id> {
    set id | id in s.commands && s.commands[id] == Allowed(g)
  }

  function InFlightOn(s: State, g: GrantId): set<Id> {
    set id | id in s.commands && (s.commands[id] == Consumed(g) || s.commands[id] == Refused(g))
  }

  function LostOn(s: State, g: GrantId): set<Id> {
    set id | id in s.commands && s.commands[id] == Lost(g)
  }

  function HoldersOf(s: State, g: GrantId): set<Id> {
    set id | id in s.commands && Holds(s.commands[id], g)
  }

  ghost predicate GrantOk(s: State, g: GrantId)
    requires g in s.grants
  {
    var grant := s.grants[g];
    grant.usesCount == |HoldersOf(s, g)| && (grant.maxUses.Some? ==> grant.usesCount <= grant.maxUses.value)
  }

  ghost predicate Inv(s: State) {
    && (forall g :: g in s.grants ==> GrantOk(s, g))
    && (forall id :: id in s.commands && !s.commands[id].NoGrant? ==> s.commands[id].grant in s.grants)
  }

  lemma HoldersMove(s: State, s': State, id: Id, g: GrantId)
    requires id in s'.commands && s'.commands == s.commands[id := s'.commands[id]]
    ensures |HoldersOf(s', g)| == |HoldersOf(s, g)| - (if id in s.commands && Holds(s.commands[id], g) then 1 else 0)
                                  + (if Holds(s'.commands[id], g) then 1 else 0)
  {
    var others := HoldersOf(s, g) - {id};
    assert HoldersOf(s, g) == if id in s.commands && Holds(s.commands[id], g) then others + {id} else others;
    assert HoldersOf(s', g) == if Holds(s'.commands[id], g) then others + {id} else others;
  }

  lemma NextKeepsInv(s: State, e: Event)
    requires Inv(s)
    ensures Inv(Next(s, e))
  {
    var s' := Next(s, e);
    forall g | g in s'.grants ensures GrantOk(s', g) {
      if s' == s {
      } else if e.Issue? || e.Revoke? {
        assert HoldersOf(s', g) == HoldersOf(s, g);
        if e.Issue? && g == e.id {
          assert HoldersOf(s, g) == {};
        } else {
          assert GrantOk(s, g);
        }
      } else {
        assert GrantOk(s, g);
        HoldersMove(s, s', e.id, g);
        if e.Refund? && g == s.commands[e.id].grant {
          assert e.id in HoldersOf(s, g);
        }
      }
    }
  }

  lemma {:induction false} RunKeepsInv(es: seq<Event>)
    ensures Inv(Exec(es))
  {
    if es != [] {
      RunKeepsInv(es[..|es| - 1]);
      NextKeepsInv(Exec(es[..|es| - 1]), es[|es| - 1]);
    }
  }

  /**
   * In every interleaving a grant's uses are its allowed commands plus those
   * in flight plus those whose request died half-way, and never exceed its
   * maximum.
   */
  lemma UsesAreAllowedPlusInFlight(es: seq<Event>, g: GrantId)
    requires g in Exec(es).grants
    ensures Exec(es).grants[g].usesCount == |AllowedOn(Exec(es), g)| + |InFlightOn(Exec(es), g)| + |LostOn(Exec(es), g)|
    ensures Exec(es).grants[g].maxUses.Some? ==> Exec(es).grants[g].usesCount <= Exec(es).grants[g].maxUses.value
  {
    RunKeepsInv(es);
    assert GrantOk(Exec(es), g);
    HoldersSplit(Exec(es), g);
  }

  lemma HoldersSplit(s: State, g: GrantId)
    ensures |HoldersOf(s, g)| == |AllowedOn(s, g)| + |InFlightOn(s, g)| + |LostOn(s, g)|
  {
    var allowed, inFlight, lost := AllowedOn(s, g), InFlightOn(s, g), LostOn(s, g);
    assert HoldersOf(s, g) == (allowed + inFlight) + lost;
    assert allowed !! inFlight && allowed + inFlight !! lost;
    hide *;
    UnionSize(allowed + inFlight, allowed, inFlight);
    UnionSize(HoldersOf(s, g), allowed + inFlight, lost);
  }

  /** The clamp at zero in the refund never fires: a pending refund always finds a use to give back. */
  lemma RefundClampNeverFires(es: seq<Event>, id: Id)
    requires id in Exec(es).commands && Exec(es).commands[id].Refused?
    ensures Exec(es).commands[id].grant in Exec(es).grants
    ensures var uses := Exec(es).grants[Exec(es).commands[id].grant].usesCount; RefundedCount(uses) == uses - 1
  {
    RunKeepsInv(es);
    var s := Exec(es);
    var g := s.commands[id].grant;
    assert GrantOk(s, g) && id in HoldersOf(s, g);
  }

  /** The grant is for this phone and access point, active, in its time, and has a use left. */
  predicate Covers(g: Grant, phone: string, accessPoint: string, ts: int) {
    && g.phone == phone && accessPoint in g.accessPoints && g.active
    && g.startsAt <= ts && ts < g.endsAt
    && (g.maxUses.None? || g.usesCount < g.maxUses.value)
  }

  /**
   * A new command takes one use of a grant that covers it, none of those
   * ending earlier than the one taken, or finds that no grant does.
   */
  lemma ConsumesWhatCovers(s: State, id: Id, phone: string, accessPoint: string, ts: int, pick: GrantId)
    requires id !in s.commands
    ensures var s' := Next(s, Consume(id, phone, accessPoint, ts, pick));
            && (id in s'.commands ==> s'.commands[id] == NoGrant || s'.commands[id] == Consumed(pick))
            && (id in s'.commands && s'.commands[id] == Consumed(pick) <==>
                  && pick in s.grants && Covers(s.grants[pick], phone, accessPoint, ts)
                  && forall g :: g in s.grants && Covers(s.grants[g], phone, accessPoint, ts) ==>
                       s.grants[pick].endsAt <= s.grants[g].endsAt)
            && (id in s'.commands && s'.commands[id] == Consumed(pick) ==>
                  s'.grants == s.grants[pick := s.grants[pick].(usesCount := s.grants[pick].usesCount + 1)])
            && (id in s'.commands && s'.commands[id] == NoGrant ==>
                  s'.grants == s.grants && forall g :: g in s.grants ==> !Covers(s.grants[g], phone, accessPoint, ts))
  {
  }

  /** With no grant that covers it, a command is told so; with one, there is one it can take. */
  lemma SomeGrantIsTaken(s: State, phone: string, accessPoint: string, ts: int, g: GrantId)
    returns (pick: GrantId)
    requires g in s.grants && Covers(s.grants[g], phone, accessPoint, ts)
    ensures pick in s.grants && Covers(s.grants[pick], phone, accessPoint, ts)
    ensures forall x :: x in s.grants && Covers(s.grants[x], phone, accessPoint, ts) ==>
              s.grants[pick].endsAt <= s.grants[x].endsAt
  {
    var some := set x | x in s.grants && Covers(s.grants[x], phone, accessPoint, ts);
    assert g in some;
    pick := EarliestAmong(s, some);
  }

  lemma {:induction false} EarliestAmong(s: State, some: set<GrantId>) returns (pick: GrantId)
    requires some != {} && forall x :: x in some ==> x in s.grants
    ensures pick in some && forall x :: x in some ==> s.grants[pick].endsAt <= s.grants[x].endsAt
  {
    var first :| first in some;
    var rest := some - {first};
    pick := first;
    if rest != {} {
      var other := EarliestAmong(s, rest);
      if s.grants[other].endsAt < s.grants[first].endsAt {
        pick := other;
      }
    }
    forall x | x in some ensures s.grants[pick].endsAt <= s.grants[x].endsAt {
      assert x == first || x in rest;
    }
  }
}
