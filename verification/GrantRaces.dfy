/**
 * HandleProof in its two steps: the lookup and checks, and the consumption of
 * the cnonce, with the lock released in between. Calls interleave at that
 * point.
 */
module GrantRaces {
  import opened Common
  import opened Grants
  import opened Windows

  type Id = nat

  datatype Step =
    | Issue(o: Option<OpenMsg>, env: Env, cnonce: Option<string>)
    | Check(id: Id, p: Proof, env: Env)
    | Consume(id: Id)

  /** A proof that passed every check and has not consumed its cnonce yet. */
  datatype Claim = Claim(cnonce: string, until: int)

  /** `passes` and `openings` count, for each cnonce, the proofs that passed and those that went on to open. */
  datatype Race = Race(
    tables: Tables,
    issued: set<string>,
    inFlight: map<Id, Claim>,
    passes: multiset<string>,
    openings: multiset<string>)

  const NO_CALLS := Race(Tables(map[], map[]), {}, map[], multiset{}, multiset{})

  ghost predicate Passes(s: Race, e: Step, c: Crypto) {
    e.Check? && e.id !in s.inFlight && Conforms(s.tables, e.p, e.env, c)
  }

  ghost function Next(s: Race, e: Step, c: Crypto): Race {
    match e
    case Issue(o, env, cnonce) =>
      if cnonce.Some? && cnonce.value in s.issued then s
      else
        var (t, ch) := AfterOpen(s.tables, o, env, cnonce);
        s.(tables := t, issued := if ch.Some? then s.issued + {ch.value.cnonce} else s.issued)
    case Check(id, p, env) =>
      if !Passes(s, e, c) then s
      else s.(inFlight := s.inFlight[id := Claim(p.cnonce, s.tables.pending[p.cnonce].challenge.exp + CLOCK_SKEW)],
              passes := s.passes + multiset{p.cnonce})
    case Consume(id) =>
      if id !in s.inFlight then s
      else
        var claim := s.inFlight[id];
        s.(tables := Tables(s.tables.pending - {claim.cnonce}, s.tables.used[claim.cnonce := claim.until]),
           inFlight := s.inFlight - {id},
           openings := s.openings + multiset{claim.cnonce})
  }

  ghost function Exec(es: seq<Step>, c: Crypto): Race {
    if es == [] then NO_CALLS else Next(Exec(es[..|es| - 1], c), es[|es| - 1], c)
  }

  ghost predicate Claims(s: Race, id: Id, cn: string) {
    id in s.inFlight && s.inFlight[id].cnonce == cn
  }

  ghost function ClaimsOn(s: Race, cn: string): set<Id> {
    set id | id in s.inFlight && Claims(s, id, cn)
  }

  ghost predicate Inv(s: Race, cn: string) {
    && s.tables.pending.Keys <= s.issued
    && (s.passes[cn] > 0 ==> cn in s.issued)
    && (s.openings[cn] > 0 ==> cn !in s.tables.pending)
    && s.passes[cn] == s.openings[cn] + |ClaimsOn(s, cn)|
  }

  lemma ClaimsMove(s: Race, s': Race, id: Id, cn: string)
    requires s'.inFlight == s.inFlight - {id} || (id in s'.inFlight && s'.inFlight == s.inFlight[id := s'.inFlight[id]])
    ensures |ClaimsOn(s', cn)| + (if Claims(s, id, cn) then 1 else 0)
            == |ClaimsOn(s, cn)| + if Claims(s', id, cn) then 1 else 0
  {
    assert forall x :: x != id ==> (Claims(s', x, cn) <==> Claims(s, x, cn));
    assert Claims(s, id, cn) <==> id in ClaimsOn(s, cn);
    assert Claims(s', id, cn) <==> id in ClaimsOn(s', cn);
    assert ClaimsOn(s, cn) - {id} == ClaimsOn(s', cn) - {id};
    hide Claims, ClaimsOn;
    OneMoved(ClaimsOn(s, cn), ClaimsOn(s', cn), id);
  }

  lemma NextKeepsInv(s: Race, e: Step, c: Crypto, cn: string)
    requires Inv(s, cn)
    ensures Inv(Next(s, e, c), cn)
  {
    var s' := Next(s, e, c);
    match e
    case Issue(_, _, _) => assert ClaimsOn(s', cn) == ClaimsOn(s, cn);
    case Check(id, p, _) => if Passes(s, e, c) { ClaimsMove(s, s', id, cn); }
    case Consume(id) => if id in s.inFlight { ClaimsMove(s, s', id, cn); }
  }

  /** At some point of the run a proof passed while another one for the same cnonce was in flight. */
  ghost predicate Overlapped(es: seq<Step>, c: Crypto, cn: string) {
    es != [] &&
    var s, e := Exec(es[..|es| - 1], c), es[|es| - 1];
    Overlapped(es[..|es| - 1], c, cn) || (Passes(s, e, c) && e.p.cnonce == cn && ClaimsOn(s, cn) != {})
  }

  lemma {:induction false} RunIsCounted(es: seq<Step>, c: Crypto, cn: string)
    ensures Inv(Exec(es, c), cn)
    ensures Exec(es, c).passes[cn] >= 2 <==> Overlapped(es, c, cn)
  {
    if es == [] {
      assert ClaimsOn(NO_CALLS, cn) == {};
    } else {
      var prefix, e := es[..|es| - 1], es[|es| - 1];
      var s := Exec(prefix, c);
      RunIsCounted(prefix, c, cn);
      NextKeepsInv(s, e, c, cn);
      hide Inv, Conforms, AfterOpen;
      if Passes(s, e, c) && e.p.cnonce == cn {
        PassingFindsNoOpening(s, e, c);
      }
    }
  }

  lemma PassingFindsNoOpening(s: Race, e: Step, c: Crypto)
    requires Passes(s, e, c) && Inv(s, e.p.cnonce)
    ensures s.passes[e.p.cnonce] == |ClaimsOn(s, e.p.cnonce)|
  {
  }

  /**
   * Over any interleaving, once no proof is in flight a cnonce has opened
   * more than once exactly when two proofs for it overlapped: one passed its
   * checks before the other had consumed it.
   */
  lemma OpensTwiceIffOverlapped(es: seq<Step>, c: Crypto, cn: string)
    requires ClaimsOn(Exec(es, c), cn) == {}
    ensures Exec(es, c).openings[cn] >= 2 <==> Overlapped(es, c, cn)
  {
    RunIsCounted(es, c, cn);
  }

  /** In any state in which a proof conforms, two calls with it can both open. */
  lemma TwoCallsCanBothOpen(s: Race, p: Proof, env: Env, i: Id, j: Id, c: Crypto)
    requires Conforms(s.tables, p, env, c) && i != j && i !in s.inFlight && j !in s.inFlight
    ensures var s1 := Next(Next(s, Check(i, p, env), c), Check(j, p, env), c);
            var s2 := Next(Next(s1, Consume(i), c), Consume(j), c);
            s2.openings[p.cnonce] == s.openings[p.cnonce] + 2
  {
    hide Conforms;
  }

  // A run that shows it: one challenge, and two calls with the same proof that both pass before either consumes.

  const GRANT := Grant("g", "app", ["d"], ["a"], EVERY_DAY, 0, 10)
  const ENV := Env(1, 1, "d", false, "gateway")
  const PROOF := Proof("proof", "g", "cn", "a", 1)

  const TWO_CALLS :=
    [ Issue(Some(OpenMsg(RawGrant("grant", Some(GRANT)), "a")), ENV, Some("cn")),
      Check(0, PROOF, ENV), Check(1, PROOF, ENV), Consume(0), Consume(1) ]

  lemma OneChallengeOpensTwice(c: Crypto)
    requires c.verifies("gateway", "grant") && c.isKey("app") && c.verifies("app", "proof")
    ensures Exec(TWO_CALLS, c).openings["cn"] == 2
  {
    IssuedConforms(c);
    hide *;
    var issued := Next(NO_CALLS, TWO_CALLS[0], c);
    TwoCallsCanBothOpen(issued, PROOF, ENV, 0, 1, c);
    ExecOfFive(TWO_CALLS, c);
  }

  lemma IssuedConforms(c: Crypto)
    requires c.verifies("gateway", "grant") && c.isKey("app") && c.verifies("app", "proof")
    ensures var issued := Next(NO_CALLS, TWO_CALLS[0], c);
            Conforms(issued.tables, PROOF, ENV, c) && issued.inFlight == map[] && issued.openings["cn"] == 0
  {
    EveryDayIsAlwaysOpen(1);
    hide EVERY_DAY, Open;
  }

  lemma ExecOfFive(es: seq<Step>, c: Crypto)
    requires |es| == 5
    ensures Exec(es, c) == Next(Next(Next(Next(Next(NO_CALLS, es[0], c), es[1], c), es[2], c), es[3], c), es[4], c)
  {
    hide Next;
    var a, b, d, e := es[..1], es[..2], es[..3], es[..4];
    assert a[..|a| - 1] == [] && b[..|b| - 1] == a && d[..|d| - 1] == b && e[..|e| - 1] == d && es[..|es| - 1] == e;
    assert Exec(a, c) == Next(NO_CALLS, es[0], c);
    assert Exec(b, c) == Next(Exec(a, c), es[1], c);
    assert Exec(d, c) == Next(Exec(b, c), es[2], c);
    assert Exec(e, c) == Next(Exec(d, c), es[3], c);
  }

  /** A call whose two steps are not separated does what the serialised one does. */
  lemma UnsplitCallIsSerialised(s: Race, p: Proof, env: Env, id: Id, c: Crypto)
    requires id !in s.inFlight
    ensures Next(Next(s, Check(id, p, env), c), Consume(id), c).tables == AfterProof(s.tables, Some(p), env, c).0
  {
    OpensIffConforms(s.tables, p, env, c);
    hide Decide, Conforms;
    if Passes(s, Check(id, p, env), c) {
      ConformingIsPending(s.tables, p, env, c);
    }
  }

  lemma ConformingIsPending(t: Tables, p: Proof, env: Env, c: Crypto)
    requires Conforms(t, p, env, c)
    ensures p.cnonce in t.pending
  {
  }
}
