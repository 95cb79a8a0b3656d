/**
 * The persistent nonce store: a map from accepted nonce to the instant until
 * which it must be remembered, and its file. The file is replaced as a whole,
 * so a write either happens or leaves the old file.
 */
module NonceStore {

  const CAPACITY := 1024

  datatype Held = Held(memory: map<string, int>, disk: map<string, int>)

  datatype MarkResult = Marked | Full | NotPersisted

  function Live(m: map<string, int>, now: int): map<string, int> {
    map n | n in m && now <= m[n] :: m[n]
  }

  /** Expired entries go first; a full store or a failed write refuses the nonce. */
  ghost function AfterMark(s: Held, nonce: string, keepUntil: int, now: int, persists: bool): (Held, MarkResult) {
    var live := Live(s.memory, now);
    if nonce !in live && |live| >= CAPACITY then (Held(live, s.disk), Full)
    else if persists then (Held(live[nonce := keepUntil], live[nonce := keepUntil]), Marked)
    else (Held(live - {nonce}, s.disk), NotPersisted)
  }

  /** The file holds at least what memory holds, and neither holds more than the capacity. */
  ghost predicate Covered(s: Held) {
    && (forall n :: n in s.memory ==> n in s.disk && s.disk[n] == s.memory[n])
    && |s.memory| <= CAPACITY && |s.disk| <= CAPACITY
  }

  lemma {:induction false} SubMapSize(a: map<string, int>, b: map<string, int>)
    requires a.Keys <= b.Keys
    ensures |a| <= |b|
  {
    SubsetSize(a.Keys, b.Keys);
  }

  lemma {:induction false} SubsetSize(a: set<string>, b: set<string>)
    requires a <= b
    ensures |a| <= |b|
  {
    if a != {} {
      var x :| x in a;
      SubsetSize(a - {x}, b - {x});
    }
  }

  /** Whatever becomes of the write, the file still covers memory and the capacity is kept. */
  lemma MarkKeepsCover(s: Held, nonce: string, keepUntil: int, now: int, persists: bool)
    requires Covered(s)
    ensures Covered(AfterMark(s, nonce, keepUntil, now, persists).0)
  {
    hide Live;
    var live := Live(s.memory, now);
    LiveIsPart(s.memory, now);
    if nonce in live {
      assert live[nonce := keepUntil].Keys == live.Keys;
    } else {
      assert live[nonce := keepUntil].Keys == live.Keys + {nonce};
    }
    SubMapSize(live - {nonce}, live);
  }

  /** No live nonce is ever evicted: a store full of them refuses instead. */
  lemma MarkEvictsNothingLive(s: Held, nonce: string, keepUntil: int, now: int, persists: bool)
    requires |s.memory| <= CAPACITY
    ensures var (s', r) := AfterMark(s, nonce, keepUntil, now, persists);
            && (r == Marked ==> nonce in s'.memory && s'.memory[nonce] == keepUntil)
            && (forall n :: n != nonce ==>
                  && (n in s'.memory <==> n in s.memory && now <= s.memory[n])
                  && (n in s'.memory ==> s'.memory[n] == s.memory[n]))
            && (r == Full <==> nonce !in Live(s.memory, now) && |Live(s.memory, now)| == CAPACITY)
            && (r != Marked ==> s'.disk == s.disk)
  {
    hide Live;
    LiveIsPart(s.memory, now);
  }

  lemma LiveIsPart(m: map<string, int>, now: int)
    ensures forall n :: n in Live(m, now) <==> n in m && now <= m[n]
    ensures forall n :: n in Live(m, now) ==> Live(m, now)[n] == m[n]
    ensures |Live(m, now)| <= |m|
  {
    SubMapSize(Live(m, now), m);
  }

  class Store {
    var m: map<string, int>
    var disk: map<string, int>

    ghost function State(): Held
      reads this
    {
      Held(m, disk)
    }

    constructor (file: map<string, int>)
      ensures State() == Held(file, file)
    {
      m, disk := file, file;
    }

    /** A restart reads the file back. */
    method Reopen()
      modifies this
      ensures State() == Held(old(disk), old(disk))
    {
      m := disk;
    }

    method Seen(nonce: string) returns (r: bool)
      ensures r <==> nonce in m
    {
      r := nonce in m;
    }

    method Prune(now: int)
      modifies this`m
      ensures m == Live(old(m), now)
    {
      var todo := m.Keys;
      while todo != {}
        invariant todo <= m.Keys <= old(m).Keys
        invariant forall n :: n in old(m) && (n in todo || now <= old(m)[n]) ==> n in m
        invariant forall n :: n in m ==> m[n] == old(m)[n] && (n in todo || now <= m[n])
        decreases todo
      {
        var n :| n in todo;
        if m[n] < now {
          m := m - {n};
        }
        todo := todo - {n};
      }
    }

    method Mark(nonce: string, keepUntil: int, now: int, persists: bool) returns (r: MarkResult)
      modifies this
      ensures (State(), r) == AfterMark(old(State()), nonce, keepUntil, now, persists)
    {
      Prune(now);
      if nonce !in m && |m| >= CAPACITY {
        return Full;
      }
      m := m[nonce := keepUntil];
      if !persists {
        m := m - {nonce};
        assert m == Live(old(m), now) - {nonce};
        return NotPersisted;
      }
      disk := m;
      return Marked;
    }
  }
}
