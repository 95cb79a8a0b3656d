/**
 * Refresh-token families: rotation as two separate transactions, reuse
 * detection, logout and revoke-all, interleaved in any order. Each
 * transaction is one atomic step; rows are numbered in the order they were
 * inserted, and that number stands for the token and its hash.
 */
module RefreshTokens {
  import opened Common

  datatype Row = Row(family: nat, user: nat, expires: int, revoked: bool, replacedBy: Option<nat>)

  datatype Verdict = Ok | Invalid | Reused | Expired

  predicate Live(r: Row) {
    !r.revoked && r.replacedBy.None?
  }

  /** The family's tokens that are not revoked yet become so. */
  function RevokeFamily(rows: seq<Row>, family: nat): (r: seq<Row>) {
    seq(|rows|, i requires 0 <= i < |rows| => if rows[i].family == family then rows[i].(revoked := true) else rows[i])
  }

  function RevokeUser(rows: seq<Row>, user: nat): (r: seq<Row>) {
    seq(|rows|, i requires 0 <= i < |rows| => if rows[i].user == user then rows[i].(revoked := true) else rows[i])
  }

  // -- The transactions ---------------------------------------------------------------

  /** First transaction of a refresh: commits the family revocation on reuse even though the request then fails. */
  ghost function AfterCheck(rows: seq<Row>, token: nat, now: int): (seq<Row>, Verdict) {
    if token >= |rows| then (rows, Invalid)
    else if rows[token].revoked || rows[token].replacedBy.Some? then (RevokeFamily(rows, rows[token].family), Reused)
    else if rows[token].expires <= now then (rows[token := rows[token].(revoked := true)], Expired)
    else (rows, Ok)
  }

  /** Second transaction: looks the row up again and rotates, or throws and changes nothing. */
  ghost function AfterRotate(rows: seq<Row>, token: nat, active: set<nat>, expires: int): (seq<Row>, bool) {
    if token >= |rows| || !Live(rows[token]) || rows[token].user !in active then (rows, false)
    else
      var next := Row(rows[token].family, rows[token].user, expires, false, None);
      ((rows + [next])[token := rows[token].(replacedBy := Some(|rows|), revoked := true)], true)
  }

  /** Exactly the tokens of this family became revoked. */
  ghost predicate OnlyFamilyRevoked(a: seq<Row>, family: nat, b: seq<Row>) {
    |b| == |a| && forall i :: 0 <= i < |a| ==> b[i] == if a[i].family == family then a[i].(revoked := true) else a[i]
  }

  /**
   * A token that is neither revoked nor replaced passes, and changes nothing,
   * as long as it has not expired; then it alone is revoked. A dead one is
   * reported as reused and takes its family with it.
   */
  ghost predicate CheckedAsDue(a: seq<Row>, token: nat, now: int, b: seq<Row>, v: Verdict) {
    if token >= |a| then v == Invalid && b == a
    else if !a[token].revoked && a[token].replacedBy.None? then
      if now < a[token].expires then v == Ok && b == a
      else && v == Expired && |b| == |a| && b[token] == a[token].(revoked := true)
           && forall i :: 0 <= i < |a| && i != token ==> b[i] == a[i]
    else v == Reused && OnlyFamilyRevoked(a, a[token].family, b)
  }

  /**
   * A live token of an active user is replaced by a new one of its family and
   * user, which expires when asked; any other changes nothing.
   */
  ghost predicate RotatedAsDue(a: seq<Row>, token: nat, active: set<nat>, expires: int, b: seq<Row>,
                               issued: Option<nat>) {
    if token < |a| && !a[token].revoked && a[token].replacedBy.None? && a[token].user in active then
      && issued == Some(|a|) && |b| == |a| + 1
      && b[token] == a[token].(revoked := true, replacedBy := Some(|a|))
      && b[|a|] == Row(family := a[token].family, user := a[token].user, expires := expires, revoked := false,
                       replacedBy := None)
      && forall i :: 0 <= i < |a| && i != token ==> b[i] == a[i]
    else issued == None && b == a
  }

  /** The two transactions, in any state. */
  lemma TransactionsAreDue(rows: seq<Row>, token: nat, now: int, active: set<nat>, expires: int)
    ensures var (after, v) := AfterCheck(rows, token, now); CheckedAsDue(rows, token, now, after, v)
    ensures var (after, ok) := AfterRotate(rows, token, active, expires);
            RotatedAsDue(rows, token, active, expires, after, if ok then Some(|rows|) else None)
  {
  }

  class TokenTable {
    var rows: seq<Row>
    var active: set<nat>

    constructor ()
      ensures rows == [] && active == {}
    {
      rows, active := [], {};
    }

    /** Inserts a token of the given family, or of a new one. */
    method Issue(user: nat, family: nat, expires: int) returns (id: nat)
      modifies this`rows
      ensures rows == old(rows) + [Row(family, user, expires, false, None)] && id == |old(rows)|
    {
      id := |rows|;
      rows := rows + [Row(family, user, expires, false, None)];
    }

    method Check(token: nat, now: int) returns (v: Verdict)
      modifies this`rows
      ensures CheckedAsDue(old(rows), token, now, rows, v)
      ensures (rows, v) == AfterCheck(old(rows), token, now)
    {
      if token >= |rows| {
        return Invalid;
      }
      var row := rows[token];
      if row.revoked || row.replacedBy.Some? {
        rows := RevokeFamily(rows, row.family);
        return Reused;
      }
      if row.expires <= now {
        rows := rows[token := row.(revoked := true)];
        return Expired;
      }
      return Ok;
    }

    method Rotate(token: nat, expires: int) returns (issued: Option<nat>)
      modifies this`rows
      ensures RotatedAsDue(old(rows), token, active, expires, rows, issued)
      ensures (rows, issued.Some?) == AfterRotate(old(rows), token, active, expires)
    {
      if token >= |rows| || rows[token].revoked || rows[token].replacedBy.Some? || rows[token].user !in active {
        return None;
      }
      var id := Issue(rows[token].user, rows[token].family, expires);
      rows := rows[token := rows[token].(replacedBy := Some(id), revoked := true)];
      return Some(id);
    }

    method Logout(token: nat)
      modifies this`rows
      ensures rows == if token < |old(rows)| then RevokeFamily(old(rows), old(rows)[token].family) else old(rows)
      ensures token < |old(rows)| ==> OnlyFamilyRevoked(old(rows), old(rows)[token].family, rows)
    {
      if token < |rows| {
        rows := RevokeFamily(rows, rows[token].family);
      }
    }

    method RevokeAll(user: nat)
      modifies this`rows
      ensures rows == RevokeUser(old(rows), user)
      ensures |rows| == |old(rows)| && forall i :: 0 <= i < |rows| ==>
                rows[i] == if old(rows)[i].user == user then old(rows)[i].(revoked := true) else old(rows)[i]
    {
      rows := RevokeUser(rows, user);
    }
  }

  // -- Interleavings ------------------------------------------------------------------

  datatype Event =
    | Login(user: nat, family: nat, expires: int)
    | Check(token: nat, now: int)
    | Rotate(token: nat, expires: int)
    | Logout(token: nat)
    | RevokeAll(user: nat)
    | SetActive(user: nat, on: bool)

  /** `passed` holds the requests between their two transactions. */
  datatype State = State(rows: seq<Row>, active: set<nat>, passed: multiset<nat>)

  const START := State([], {}, multiset{})

  ghost predicate Used(rows: seq<Row>, family: nat) {
    exists i :: 0 <= i < |rows| && rows[i].family == family
  }

  /** Family ids are random and do not repeat; a login event that would repeat one does nothing. */
  ghost function Next(s: State, e: Event): State {
    match e
    case Login(user, family, expires) =>
      if Used(s.rows, family) then s else s.(rows := s.rows + [Row(family, user, expires, false, None)])
    case Check(token, now) =>
      var (rows, v) := AfterCheck(s.rows, token, now);
      s.(rows := rows, passed := if v == Ok then s.passed + multiset{token} else s.passed)
    case Rotate(token, expires) =>
      if token !in s.passed then s
      else s.(rows := AfterRotate(s.rows, token, s.active, expires).0, passed := s.passed - multiset{token})
    case Logout(token) =>
      if token < |s.rows| then s.(rows := RevokeFamily(s.rows, s.rows[token].family)) else s
    case RevokeAll(user) => s.(rows := RevokeUser(s.rows, user))
    case SetActive(user, on) =>
      if on then s.(active := s.active + {user})
      else s.(active := s.active - {user}, rows := RevokeUser(s.rows, user))
  }

  ghost function After(s: State, es: seq<Event>): State {
    if es == [] then s else Next(After(s, es[..|es| - 1]), es[|es| - 1])
  }

  ghost function Exec(es: seq<Event>): State {
    After(START, es)
  }

  // -- What every step does to the table ------------------------------------------------

  /** Row i is followed by row j: the next one inserted in its family. */
  ghost predicate Follows(rows: seq<Row>, i: nat, j: nat) {
    && i < j < |rows| && rows[j].family == rows[i].family
    && forall k :: i < k < j ==> rows[k].family != rows[i].family
  }

  ghost predicate LastOfFamily(rows: seq<Row>, i: nat)
    requires i < |rows|
  {
    forall k :: i < k < |rows| ==> rows[k].family != rows[i].family
  }

  /** A link leads to the next row of the family and its row is dead; without a link, it is the last. */
  ghost predicate Linked(rows: seq<Row>, i: nat)
    requires i < |rows|
  {
    match rows[i].replacedBy
    case Some(j) => rows[i].revoked && Follows(rows, i, j)
    case None => LastOfFamily(rows, i)
  }

  ghost predicate OneOwner(rows: seq<Row>) {
    forall i, j :: 0 <= i < j < |rows| && rows[i].family == rows[j].family ==> rows[i].user == rows[j].user
  }

  /** The links run through each family in order of issue; all but the last token are dead; a family has one owner. */
  ghost predicate Chained(rows: seq<Row>) {
    OneOwner(rows) && forall i :: 0 <= i < |rows| ==> Linked(rows, i)
  }

  /** Existing rows keep their identity; revocations and links are never taken back. */
  ghost predicate Grew(a: seq<Row>, b: seq<Row>) {
    && |a| <= |b|
    && forall i :: 0 <= i < |a| ==>
         && b[i].family == a[i].family && b[i].user == a[i].user
         && (a[i].revoked ==> b[i].revoked)
         && (a[i].replacedBy.Some? ==> b[i].replacedBy == a[i].replacedBy)
  }

  ghost predicate Dead(rows: seq<Row>, family: nat) {
    Used(rows, family) && forall i :: 0 <= i < |rows| && rows[i].family == family ==> !Live(rows[i])
  }

  /** The only ways the table changes. */
  ghost predicate Revised(a: seq<Row>, b: seq<Row>) {
    |a| == |b| && forall i :: 0 <= i < |a| ==> b[i] == a[i] || b[i] == a[i].(revoked := true)
  }

  ghost predicate Began(a: seq<Row>, b: seq<Row>) {
    |b| == |a| + 1 && b[..|a|] == a && !Used(a, b[|a|].family) && Live(b[|a|])
  }

  ghost predicate Rotated(a: seq<Row>, b: seq<Row>, t: nat) {
    && t < |a| && |b| == |a| + 1 && Live(a[t])
    && b[t] == a[t].(replacedBy := Some(|a|), revoked := true)
    && (forall i :: 0 <= i < |a| && i != t ==> b[i] == a[i])
    && b[|a|].family == a[t].family && b[|a|].user == a[t].user && Live(b[|a|])
  }

  lemma StepShape(s: State, e: Event)
    ensures var a, b := s.rows, Next(s, e).rows;
            Revised(a, b) || Began(a, b) || (e.Rotate? && Rotated(a, b, e.token))
  {
    if e.Login? && !Used(s.rows, e.family) {
      assert Began(s.rows, Next(s, e).rows);
    }
  }

  lemma RevisedKeepsChain(a: seq<Row>, b: seq<Row>)
    requires Chained(a) && Revised(a, b)
    ensures Chained(b)
  {
    forall i | 0 <= i < |b| ensures Linked(b, i) {
      assert Linked(a, i);
      RevisedKeepsLink(a, b, i);
    }
  }

  lemma RevisedKeepsLink(a: seq<Row>, b: seq<Row>, i: nat)
    requires Revised(a, b) && i < |a| && Linked(a, i)
    ensures Linked(b, i)
  {
    match a[i].replacedBy
    case Some(j) => assert Follows(b, i, j);
    case None => assert LastOfFamily(b, i);
  }

  /** A row keeps its place when the table grows by a row of another family, or the row is not the last of its own. */
  lemma LinkedInLonger(a: seq<Row>, b: seq<Row>, i: nat)
    requires i < |a| && |b| == |a| + 1 && Linked(a, i) && b[i] == a[i]
    requires forall k :: 0 <= k < |a| ==> b[k].family == a[k].family
    requires a[i].replacedBy.Some? || b[|a|].family != a[i].family
    ensures Linked(b, i)
  {
    match a[i].replacedBy
    case Some(j) => assert Follows(b, i, j);
    case None => assert LastOfFamily(b, i);
  }

  lemma BeganKeepsChain(a: seq<Row>, b: seq<Row>)
    requires Chained(a) && Began(a, b)
    ensures Chained(b)
  {
    hide Linked, Live;
    assert forall i :: 0 <= i < |a| ==> b[i] == b[..|a|][i];
    assert forall i :: 0 <= i < |a| ==> b[i].family != b[|a|].family;
    forall i | 0 <= i < |a| ensures Linked(b, i) {
      LinkedInLonger(a, b, i);
    }
    NewestIsLinked(b);
  }

  lemma NewestIsLinked(b: seq<Row>)
    requires b != [] && Live(b[|b| - 1])
    ensures Linked(b, |b| - 1)
  {
  }

  lemma RotatedKeepsChain(a: seq<Row>, b: seq<Row>, t: nat)
    requires Chained(a) && Rotated(a, b, t)
    ensures Chained(b)
  {
    assert Linked(a, t) && LastOfFamily(a, t);
    SameFamilies(a, b, t);
    assert Follows(b, t, |a|);
    NewestIsLinked(b);
    hide Linked, Follows, Rotated;
    forall i | 0 <= i < |a| ensures Linked(b, i) {
      if i != t {
        NotLastUnlessOther(a, i, t);
        LinkedInLonger(a, b, i);
      }
    }
    RotatedKeepsOwner(a, b, t);
  }

  lemma SameFamilies(a: seq<Row>, b: seq<Row>, t: nat)
    requires Rotated(a, b, t)
    ensures forall i :: 0 <= i < |a| ==> b[i].family == a[i].family && b[i].user == a[i].user
    ensures forall i :: 0 <= i < |a| && i != t ==> b[i] == a[i]
    ensures |b| == |a| + 1 && b[|a|].family == a[t].family && b[|a|].user == a[t].user
  {
  }

  lemma NotLastUnlessOther(a: seq<Row>, i: nat, t: nat)
    requires i < |a| && t < |a| && i != t && Linked(a, i) && LastOfFamily(a, t)
    ensures a[i].replacedBy.Some? || a[i].family != a[t].family
  {
  }

  lemma RotatedKeepsOwner(a: seq<Row>, b: seq<Row>, t: nat)
    requires OneOwner(a) && Rotated(a, b, t)
    ensures OneOwner(b)
  {
    SameFamilies(a, b, t);
    hide Rotated;
    forall i, j | 0 <= i < j < |b| && b[i].family == b[j].family ensures b[i].user == b[j].user {
      if j == |a| && i != t {
        assert a[i].family == a[t].family;
      }
    }
  }

  lemma {:induction false} RunsKeepChain(es: seq<Event>)
    ensures Chained(Exec(es).rows)
  {
    if es != [] {
      var s, e := Exec(es[..|es| - 1]), es[|es| - 1];
      hide Chained, Revised, Began, Rotated, Next;
      RunsKeepChain(es[..|es| - 1]);
      StepShape(s, e);
      var a, b := s.rows, Next(s, e).rows;
      if Revised(a, b) {
        RevisedKeepsChain(a, b);
      } else if Began(a, b) {
        BeganKeepsChain(a, b);
      } else {
        RotatedKeepsChain(a, b, e.token);
      }
    }
  }

  lemma StepGrows(s: State, e: Event)
    ensures Grew(s.rows, Next(s, e).rows)
  {
    hide Next;
    StepShape(s, e);
    var a, b := s.rows, Next(s, e).rows;
    assert Began(a, b) ==> forall i :: 0 <= i < |a| ==> b[i] == b[..|a|][i];
  }

  lemma StepKeepsDead(s: State, e: Event, family: nat)
    requires Dead(s.rows, family)
    ensures Dead(Next(s, e).rows, family)
  {
    hide Next;
    StepShape(s, e);
    var a, b := s.rows, Next(s, e).rows;
    assert Began(a, b) ==> forall i :: 0 <= i < |a| ==> b[i] == b[..|a|][i];
    var w :| 0 <= w < |a| && a[w].family == family;
    assert b[w].family == family;
  }

  // -- The promises ------------------------------------------------------------------------

  /** In every interleaving a family has at most one live token, and it is the last one issued. */
  lemma LiveTokenIsTheLastIssued(es: seq<Event>, i: nat, j: nat)
    requires var rows := Exec(es).rows; i < |rows| && j < |rows| && rows[i].family == rows[j].family && Live(rows[i])
    ensures j <= i
    ensures Live(Exec(es).rows[j]) ==> i == j
  {
    RunsKeepChain(es);
    var rows := Exec(es).rows;
    hide Exec, After;
    assert Linked(rows, i) && Linked(rows, j);
  }

  /** replaced_by links form one chain through each family, in the order of issue, skipping nobody. */
  lemma LinksFormOneChain(es: seq<Event>, i: nat, j: nat)
    requires i < |Exec(es).rows| && j < |Exec(es).rows|
    ensures Exec(es).rows[i].replacedBy == Some(j) <==> Follows(Exec(es).rows, i, j)
  {
    RunsKeepChain(es);
    var rows := Exec(es).rows;
    hide Exec, After;
    assert Linked(rows, i);
  }

  /** A family without a live token never regains one, whatever is still in flight. */
  lemma {:induction false} DeadStaysDead(s: State, more: seq<Event>, family: nat)
    requires Dead(s.rows, family)
    ensures Dead(After(s, more).rows, family)
  {
    hide Dead, Next;
    if more != [] {
      DeadStaysDead(s, more[..|more| - 1], family);
      StepKeepsDead(After(s, more[..|more| - 1]), more[|more| - 1], family);
    }
  }

  /** Presenting a rotated or revoked token kills its family for good, along with any refresh half done. */
  lemma ReuseKillsTheFamily(s: State, token: nat, now: int, more: seq<Event>)
    requires token < |s.rows| && !Live(s.rows[token])
    ensures AfterCheck(s.rows, token, now).1 == Reused
    ensures Dead(After(Next(s, Event.Check(token, now)), more).rows, s.rows[token].family)
  {
    var s' := Next(s, Event.Check(token, now));
    assert s'.rows[token].family == s.rows[token].family;
    DeadStaysDead(s', more, s.rows[token].family);
  }

  ghost predicate Revokes(s: State, e: Event, i: nat)
    requires i < |s.rows|
  {
    || (e.Logout? && e.token < |s.rows| && s.rows[e.token].family == s.rows[i].family)
    || ((e.RevokeAll? || (e.SetActive? && !e.on)) && e.user == s.rows[i].user)
  }

  /** Logout ends its family, and a revoke-all every family of the user, for good. */
  lemma RevocationIsFinal(es: seq<Event>, e: Event, i: nat, more: seq<Event>)
    requires i < |Exec(es).rows| && Revokes(Exec(es), e, i)
    ensures Dead(After(Next(Exec(es), e), more).rows, Exec(es).rows[i].family)
  {
    var s := Exec(es);
    RunsKeepChain(es);
    var s' := Next(s, e);
    assert s'.rows[i].family == s.rows[i].family;
    OwnersAgree(s.rows, i);
    DeadStaysDead(s', more, s.rows[i].family);
  }

  lemma OwnersAgree(rows: seq<Row>, i: nat)
    requires Chained(rows) && i < |rows|
    ensures forall j :: 0 <= j < |rows| && rows[j].family == rows[i].family ==> rows[j].user == rows[i].user
  {
  }

  lemma {:induction false} LinkStays(s: State, more: seq<Event>, token: nat)
    requires token < |s.rows| && s.rows[token].replacedBy.Some?
    ensures token < |After(s, more).rows| && After(s, more).rows[token].replacedBy == s.rows[token].replacedBy
  {
    if more != [] {
      LinkStays(s, more[..|more| - 1], token);
      StepGrows(After(s, more[..|more| - 1]), more[|more| - 1]);
    }
  }

  /** However many requests pass the check with one token, at most one of them rotates it. */
  lemma OneRotationPerToken(s: State, token: nat, first: int, more: seq<Event>, second: int)
    requires token in s.passed && AfterRotate(s.rows, token, s.active, first).1
    ensures var later := After(Next(s, Event.Rotate(token, first)), more);
            !AfterRotate(later.rows, token, later.active, second).1
  {
    LinkStays(Next(s, Event.Rotate(token, first)), more, token);
  }

  /** The i-th event checked this token, live and unexpired as it then was. */
  ghost predicate PassedAt(es: seq<Event>, i: nat, token: nat)
    requires i < |es|
  {
    var rows := Exec(es[..i]).rows;
    && es[i].Check? && es[i].token == token && token < |rows|
    && !rows[token].revoked && rows[token].replacedBy.None? && es[i].now < rows[token].expires
  }

  /** Every request between its two transactions presented a token that was live and had not expired. */
  lemma {:induction false} PassedWereLive(es: seq<Event>, token: nat)
    requires token in Exec(es).passed
    ensures exists i :: 0 <= i < |es| && PassedAt(es, i, token)
  {
    var n := |es| - 1;
    var s, e := Exec(es[..n]), es[n];
    if e.Check? && e.token == token && AfterCheck(s.rows, token, e.now).1 == Ok {
      assert PassedAt(es, n, token);
    } else {
      assert token in s.passed;
      PassedWereLive(es[..n], token);
      var i :| 0 <= i < n && PassedAt(es[..n], i, token);
      assert es[..n][..i] == es[..i];
      assert PassedAt(es, i, token);
    }
  }

  /** A refresh whose two transactions are not separated replaces a live, unexpired token of an active user. */
  lemma UnsplitRefreshRotates(s: State, token: nat, now: int, expires: int)
    requires token < |s.rows| && !s.rows[token].revoked && s.rows[token].replacedBy.None?
    requires now < s.rows[token].expires && s.rows[token].user in s.active && token !in s.passed
    ensures var s' := Next(Next(s, Event.Check(token, now)), Event.Rotate(token, expires));
            RotatedAsDue(s.rows, token, s.active, expires, s'.rows, Some(|s.rows|)) && s'.passed == s.passed
  {
  }

  ghost predicate Alive(rows: seq<Row>, family: nat) {
    exists i :: 0 <= i < |rows| && rows[i].family == family && Live(rows[i])
  }

  ghost predicate Owns(rows: seq<Row>, user: nat, family: nat) {
    exists i :: 0 <= i < |rows| && rows[i].family == family && rows[i].user == user
  }

  /** Revoking all tokens of a user ends exactly the families that user owns; the others live or not as before. */
  lemma RevokeUserEndsExactlyTheirFamilies(es: seq<Event>, user: nat, family: nat)
    ensures var rows := Exec(es).rows;
            Alive(RevokeUser(rows, user), family) <==> Alive(rows, family) && !Owns(rows, user, family)
  {
    var rows := Exec(es).rows;
    RunsKeepChain(es);
    hide Exec;
    var after := RevokeUser(rows, user);
    if Alive(after, family) {
      var i :| 0 <= i < |after| && after[i].family == family && Live(after[i]);
      OwnersAgree(rows, i);
      assert rows[i].family == family && Live(rows[i]) && rows[i].user != user;
    }
    if Alive(rows, family) && !Owns(rows, user, family) {
      var i :| 0 <= i < |rows| && rows[i].family == family && Live(rows[i]);
      assert after[i] == rows[i];
    }
  }

  /** A login brings its new family to life, with one token, and no other family. */
  lemma LoginStartsOneFamily(s: State, user: nat, family: nat, expires: int, f: nat)
    requires !Used(s.rows, family)
    ensures var s' := Next(s, Login(user, family, expires));
            && (Alive(s'.rows, f) <==> f == family || Alive(s.rows, f))
            && (forall i :: 0 <= i < |s'.rows| && s'.rows[i].family == family ==> i == |s.rows|)
  {
    var rows, rows' := s.rows, Next(s, Login(user, family, expires)).rows;
    assert rows'[|rows|].family == family && Live(rows'[|rows|]);
    assert forall i :: 0 <= i < |rows| ==> rows'[i] == rows[i];
    if Alive(rows, f) {
      var i :| 0 <= i < |rows| && rows[i].family == f && Live(rows[i]);
      assert rows'[i].family == f && Live(rows'[i]);
    }
  }

  /** Rotation hands a family's life over: no family gains or loses its live token by it. */
  lemma RotationConservesLife(s: State, token: nat, expires: int, family: nat)
    ensures Alive(Next(s, Event.Rotate(token, expires)).rows, family) <==> Alive(s.rows, family)
  {
    var a, b := s.rows, Next(s, Event.Rotate(token, expires)).rows;
    if token in s.passed && AfterRotate(a, token, s.active, expires).1 {
      assert Rotated(a, b, token);
      hide Next, Live;
      if Alive(a, family) {
        var i :| 0 <= i < |a| && a[i].family == family && Live(a[i]);
        var heir := if i == token then |a| else i;
        assert b[heir].family == family && Live(b[heir]);
      }
      if Alive(b, family) {
        var i :| 0 <= i < |b| && b[i].family == family && Live(b[i]);
        var origin := if i == |a| then token else i;
        RotatedIsDead(b, token);
        assert a[origin].family == family && Live(a[origin]);
      }
    }
  }

  lemma RotatedIsDead(b: seq<Row>, t: nat)
    requires t < |b| && b[t].revoked
    ensures !Live(b[t])
  {
  }
}
