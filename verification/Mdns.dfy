/**
 * DNS names in multicast-DNS packets (RFC 1035 sections 3.1 and 4.1.4):
 * writing them, reading them back through compression pointers, and
 * recognising a query. Case folding is a parameter.
 */
module Mdns {
  import opened Common
  import opened NetworkOrder

  const DOT: byte := 46
  const MAX_JUMPS := 8

  type Label = Bytes

  // -- Dotted names --------------------------------------------------------------------

  function Join(labels: seq<Label>): Bytes {
    if labels == [] then [] else if |labels| == 1 then labels[0] else labels[0] + [DOT] + Join(labels[1..])
  }

  /** The name as text, with its final dot. */
  function Dotted(labels: seq<Label>): Bytes {
    Join(labels) + [DOT]
  }

  function Split(s: Bytes): (labels: seq<Label>)
    ensures labels != []
    decreases |s|
  {
    var n := IndexOf(s, DOT);
    if n == |s| then [s] else [s[..n]] + Split(s[n + 1..])
  }

  function TrimDot(s: Bytes): Bytes {
    if s != [] && s[|s| - 1] == DOT then s[..|s| - 1] else s
  }

  /** A label that can be written: not empty, at most 63 bytes, no dot in it. */
  ghost predicate Plain(part: Label) {
    0 < |part| <= 63 && DOT !in part
  }

  ghost predicate AllPlain(labels: seq<Label>) {
    labels != [] && forall i :: 0 <= i < |labels| ==> Plain(labels[i])
  }

  lemma {:induction false} SplitJoin(labels: seq<Label>)
    requires AllPlain(labels)
    ensures Split(Join(labels)) == labels
  {
    var head, tail := labels[0], labels[1..];
    assert Plain(head);
    if tail == [] {
      IndexOfBehind(head, DOT, []);
    } else {
      IndexOfBehind(head, DOT, Join(tail));
      assert forall i :: 0 <= i < |tail| ==> tail[i] == labels[i + 1];
      SplitJoin(tail);
      var s := Join(labels);
      assert s[..|head|] == head && s[|head| + 1..] == Join(tail);
    }
  }

  lemma {:induction false} JoinEndsPlain(labels: seq<Label>)
    requires AllPlain(labels)
    ensures Join(labels) != [] && Join(labels)[|Join(labels)| - 1] != DOT
  {
    assert Plain(labels[0]);
    if |labels| > 1 {
      assert forall i :: 0 <= i < |labels[1..]| ==> labels[1..][i] == labels[i + 1];
      JoinEndsPlain(labels[1..]);
    }
  }

  /** The writer sees the same labels with or without the final dot. */
  lemma LabelsOfName(labels: seq<Label>)
    requires AllPlain(labels)
    ensures Split(TrimDot(Dotted(labels))) == labels && Split(TrimDot(Join(labels))) == labels
  {
    JoinEndsPlain(labels);
    SplitJoin(labels);
    assert Dotted(labels)[..|Dotted(labels)| - 1] == Join(labels);
  }

  // -- Writing ---------------------------------------------------------------------------

  function LabelBytes(part: Label): Bytes {
    [|part| % 256] + part
  }

  function LabelsBytes(labels: seq<Label>): Bytes {
    if labels == [] then [] else LabelBytes(labels[0]) + LabelsBytes(labels[1..])
  }

  function Encode(labels: seq<Label>): Bytes {
    LabelsBytes(labels) + [0]
  }

  lemma {:induction false} LabelsBytesSnoc(labels: seq<Label>, part: Label)
    ensures LabelsBytes(labels + [part]) == LabelsBytes(labels) + LabelBytes(part)
  {
    if labels == [] {
      assert [part][1..] == [];
      assert [] + [part] == [part];
    } else {
      assert (labels + [part])[1..] == labels[1..] + [part];
      LabelsBytesSnoc(labels[1..], part);
    }
  }

  method AppendName(b: Bytes, name: Bytes) returns (r: Bytes)
    ensures r == b + Encode(Split(TrimDot(name)))
  {
    hide LabelBytes;
    var labels := Split(TrimDot(name));
    r := b;
    for i := 0 to |labels|
      invariant r == b + LabelsBytes(labels[..i])
    {
      r := r + LabelBytes(labels[i]);
      LabelsBytesSnoc(labels[..i], labels[i]);
      assert labels[..i + 1] == labels[..i] + [labels[i]];
    }
    assert labels[..|labels|] == labels;
    r := r + [0];
  }

  // -- Reading ---------------------------------------------------------------------------

  function Pointer(pkt: Bytes, i: nat): nat
    requires i + 1 < |pkt|
  {
    ((pkt[i] as int) * 256 + pkt[i + 1] as int) % 16384
  }

  /** The labels of the name at i and the bytes it takes up there; at most eight pointers are followed. */
  function Walk(pkt: Bytes, i: nat, jumps: nat): Option<(seq<Label>, nat)>
    decreases MAX_JUMPS + 1 - jumps, |pkt| - i
  {
    if i >= |pkt| || jumps > MAX_JUMPS then None
    else
      var l := pkt[i] as int;
      if l == 0 then Some(([], 1))
      else if l >= 192 then
        if i + 1 >= |pkt| then None
        else
          match Walk(pkt, Pointer(pkt, i), jumps + 1)
          case None => None
          case Some((labels, _)) => Some((labels, 2))
      else if i + 1 + l > |pkt| then None
      else
        match Walk(pkt, i + 1 + l, jumps)
        case None => None
        case Some((labels, n)) => Some(([pkt[i + 1..i + 1 + l]] + labels, 1 + l + n))
  }

  /** A name at `off`, compressed or not: its dotted text and how many bytes stand for it there. */
  method DecodeName(pkt: Bytes, off: nat) returns (r: Option<(Bytes, nat)>)
    ensures r == match Walk(pkt, off, 0)
                 case None => None
                 case Some((labels, n)) => Some((Dotted(labels), n))
  {
    hide Pointer, Dotted;
    var parts: seq<Label> := [];
    var consumed: nat, jumped: bool, jumps: nat, i: nat := 0, false, 0, off;
    assert forall labels: seq<Label> :: [] + labels == labels;
    while true
      invariant !jumped ==> off <= i
      invariant match Walk(pkt, i, jumps)
                case None => Walk(pkt, off, 0) == None
                case Some((labels, n)) =>
                  Walk(pkt, off, 0) == Some((parts + labels, if jumped then consumed else i - off + n))
      decreases MAX_JUMPS + 1 - jumps, |pkt| - i
    {
      if i >= |pkt| || jumps > MAX_JUMPS {
        return None;
      }
      var l := pkt[i] as int;
      if l == 0 {
        if !jumped {
          consumed := i - off + 1;
        }
        assert parts + [] == parts;
        return Some((Dotted(parts), consumed));
      } else if l >= 192 {
        if i + 1 >= |pkt| {
          return None;
        }
        if !jumped {
          consumed := i - off + 2;
        }
        jumped, jumps, i := true, jumps + 1, Pointer(pkt, i);
      } else {
        if i + 1 + l > |pkt| {
          return None;
        }
        ghost var before, part := parts, pkt[i + 1..i + 1 + l];
        parts, i := parts + [pkt[i + 1..i + 1 + l]], i + 1 + l;
        ghost var later := Walk(pkt, i, jumps);
        assert later.Some? ==> parts + later.value.0 == before + ([part] + later.value.0);
      }
    }
  }

  /** What is consumed is never empty and lies inside the packet, pointers or not. */
  lemma {:induction false} ConsumedIsInside(pkt: Bytes, i: nat, jumps: nat)
    requires Walk(pkt, i, jumps).Some?
    ensures 1 <= Walk(pkt, i, jumps).value.1 <= |pkt| - i
    decreases |pkt| - i
  {
    var l := pkt[i] as int;
    if 0 < l < 192 {
      ConsumedIsInside(pkt, i + 1 + l, jumps);
    }
  }

  /** Where the walk goes from i, and whether it takes a pointer; None at the end of a name or of the packet. */
  function Onward(pkt: Bytes, i: nat): Option<(nat, bool)> {
    if i >= |pkt| || pkt[i] == 0 then None
    else
      var l := pkt[i] as int;
      if l >= 192 then if i + 1 >= |pkt| then None else Some((Pointer(pkt, i), true))
      else Some((i + 1 + l, false))
  }

  /** Where n steps from i lead, and how many of them are pointers. */
  function Follow(pkt: Bytes, i: nat, n: nat): Option<(nat, nat)>
    decreases n
  {
    if n == 0 then Some((i, 0))
    else
      match Onward(pkt, i)
      case None => None
      case Some((next, jump)) =>
        match Follow(pkt, next, n - 1)
        case None => None
        case Some((end, jumps)) => Some((end, jumps + if jump then 1 else 0))
  }

  /** A readable name is readable, with less of the budget, from every point of its walk; labels only lead forward. */
  lemma {:induction false} ReadableOnward(pkt: Bytes, i: nat, jumps: nat, n: nat)
    requires Walk(pkt, i, jumps).Some? && Follow(pkt, i, n).Some?
    ensures var (end, taken) := Follow(pkt, i, n).value;
            Walk(pkt, end, jumps + taken).Some? && (taken == 0 ==> end >= i + n)
    decreases n
  {
    hide Pointer;
    if n > 0 {
      var (next, jump) := Onward(pkt, i).value;
      ReadableOnward(pkt, next, jumps + if jump then 1 else 0, n - 1);
    }
  }

  /** A name that leads back to itself, through any labels and pointers, is refused at any budget. */
  lemma {:induction false} LoopIsRefused(pkt: Bytes, i: nat, jumps: nat, n: nat)
    requires n > 0 && Follow(pkt, i, n).Some? && Follow(pkt, i, n).value.0 == i
    ensures Walk(pkt, i, jumps) == None
    decreases MAX_JUMPS + 1 - jumps
  {
    if Walk(pkt, i, jumps).Some? {
      ReadableOnward(pkt, i, jumps, n);
      LoopIsRefused(pkt, i, jumps + Follow(pkt, i, n).value.1, n);
    }
  }

  /** So is every name that runs into such a loop. */
  lemma RunningIntoALoopIsRefused(pkt: Bytes, i: nat, jumps: nat, lead: nat, n: nat)
    requires Follow(pkt, i, lead).Some?
    requires var p := Follow(pkt, i, lead).value.0; n > 0 && Follow(pkt, p, n).Some? && Follow(pkt, p, n).value.0 == p
    ensures Walk(pkt, i, jumps) == None
  {
    if Walk(pkt, i, jumps).Some? {
      ReadableOnward(pkt, i, jumps, lead);
      LoopIsRefused(pkt, Follow(pkt, i, lead).value.0, jumps + Follow(pkt, i, lead).value.1, n);
    }
  }

  // -- Round trips -----------------------------------------------------------------------

  /** The packet holds these bytes at this offset. */
  ghost predicate At(pkt: Bytes, off: nat, bs: Bytes) {
    off + |bs| <= |pkt| && pkt[off..off + |bs|] == bs
  }

  lemma AtSplits(pkt: Bytes, off: nat, a: Bytes, b: Bytes)
    requires At(pkt, off, a + b)
    ensures At(pkt, off, a) && At(pkt, off + |a|, b)
  {
    var ab := pkt[off..off + |a + b|];
    assert ab == a + b;
    assert pkt[off..off + |a|] == ab[..|a|] == a;
    assert pkt[off + |a|..off + |a| + |b|] == ab[|a|..] == b;
  }

  /** Plain labels read as themselves in front of whatever follows, and are refused exactly with it. */
  lemma {:induction false} LabelsThen(pkt: Bytes, off: nat, labels: seq<Label>, jumps: nat)
    requires forall i :: 0 <= i < |labels| ==> Plain(labels[i])
    requires At(pkt, off, LabelsBytes(labels))
    requires jumps <= MAX_JUMPS
    ensures Walk(pkt, off, jumps) ==
            match Walk(pkt, off + |LabelsBytes(labels)|, jumps)
            case None => None
            case Some((more, n)) => Some((labels + more, |LabelsBytes(labels)| + n))
    decreases |labels|
  {
    hide Walk, LabelBytes, Plain, At;
    var later := Walk(pkt, off + |LabelsBytes(labels)|, jumps);
    if labels == [] {
      assert later.Some? ==> labels + later.value.0 == later.value.0;
    } else {
      var head, tail := labels[0], labels[1..];
      assert forall i :: 0 <= i < |tail| ==> tail[i] == labels[i + 1];
      LabelLength(head);
      AtSplits(pkt, off, LabelBytes(head), LabelsBytes(tail));
      var p := off + 1 + |head|;
      assert p + |LabelsBytes(tail)| == off + |LabelsBytes(labels)|;
      LabelsThen(pkt, p, tail, jumps);
      WalkLabel(pkt, off, head, jumps);
      assert later.Some? ==> [head] + (tail + later.value.0) == labels + later.value.0;
    }
  }

  lemma LabelLength(part: Label)
    ensures |LabelBytes(part)| == 1 + |part|
  {
  }

  lemma WalkLabel(pkt: Bytes, off: nat, part: Label, jumps: nat)
    requires Plain(part) && At(pkt, off, LabelBytes(part)) && jumps <= MAX_JUMPS
    ensures Walk(pkt, off, jumps) ==
            match Walk(pkt, off + 1 + |part|, jumps)
            case None => None
            case Some((labels, n)) => Some(([part] + labels, 1 + |part| + n))
  {
    LabelAt(pkt, off, part);
  }

  lemma LabelAt(pkt: Bytes, off: nat, part: Label)
    requires Plain(part) && At(pkt, off, LabelBytes(part))
    ensures off < |pkt| && pkt[off] as int == |part| && pkt[off + 1..off + 1 + |part|] == part
  {
    var bs := pkt[off..off + 1 + |part|];
    assert bs == LabelBytes(part);
    assert pkt[off] == bs[0];
    assert pkt[off + 1..off + 1 + |part|] == bs[1..] == part;
  }

  /** Reading inverts writing, at any offset of any packet, and consumes exactly what was written. */
  lemma DecodeInvertsEncode(pkt: Bytes, off: nat, labels: seq<Label>, jumps: nat)
    requires AllPlain(labels) && At(pkt, off, Encode(labels)) && jumps <= MAX_JUMPS
    ensures Walk(pkt, off, jumps) == Some((labels, |Encode(labels)|))
  {
    AtSplits(pkt, off, LabelsBytes(labels), [0]);
    ZeroAt(pkt, off + |LabelsBytes(labels)|);
    LabelsThen(pkt, off, labels, jumps);
    assert labels + [] == labels;
  }

  lemma ZeroAt(pkt: Bytes, off: nat)
    requires At(pkt, off, [0])
    ensures off < |pkt| && pkt[off] == 0
  {
    assert pkt[off] == pkt[off..off + 1][0];
  }

  function PointerBytes(target: nat): Bytes
    requires target < 16384
  {
    [192 + target / 256, target % 256]
  }

  lemma PointerAt(pkt: Bytes, p: nat, target: nat)
    requires target < 16384 && At(pkt, p, PointerBytes(target))
    ensures p + 1 < |pkt| && (pkt[p] as int) >= 192 && Pointer(pkt, p) == target
  {
    var bs := pkt[p..p + 2];
    assert bs == PointerBytes(target);
    assert pkt[p] == bs[0] && pkt[p + 1] == bs[1];
    assert 192 * 256 == 3 * 16384;
    assert (bs[0] as int) * 256 + (bs[1] as int) == 3 * 16384 + target;
  }

  function Concat(parts: seq<seq<Label>>): seq<Label> {
    if parts == [] then [] else parts[0] + Concat(parts[1..])
  }

  /** These parts, one after the other, each but the last followed by a pointer to the next. */
  ghost predicate Laid(pkt: Bytes, off: nat, parts: seq<seq<Label>>)
    decreases |parts|
  {
    && parts != [] && (forall i :: 0 <= i < |parts[0]| ==> Plain(parts[0][i]))
    && At(pkt, off, LabelsBytes(parts[0]))
    && var end := off + |LabelsBytes(parts[0])|;
       if |parts| == 1 then At(pkt, end, [0])
       else exists target :: PointsAt(pkt, end, target) && Laid(pkt, target, parts[1..])
  }

  ghost predicate PointsAt(pkt: Bytes, p: nat, target: nat) {
    target < 16384 && At(pkt, p, PointerBytes(target))
  }

  /**
   * A compressed name, labels and pointers in any alternation, reads as all
   * its labels in order exactly when the pointers in it are within the budget;
   * only its bytes up to the first pointer are consumed.
   */
  lemma {:induction false} CompressedNamesUpToTheBudget(pkt: Bytes, off: nat, parts: seq<seq<Label>>, jumps: nat)
    requires Laid(pkt, off, parts)
    ensures Walk(pkt, off, jumps) ==
            if jumps + |parts| - 1 <= 8
            then Some((Concat(parts), |LabelsBytes(parts[0])| + if |parts| == 1 then 1 else 2))
            else None
    decreases |parts|
  {
    hide LabelsBytes, Plain, At, Pointer, PointerBytes;
    if jumps <= MAX_JUMPS {
      var end := off + |LabelsBytes(parts[0])|;
      if |parts| == 1 {
        ZeroAt(pkt, end);
        assert Concat(parts) == parts[0] + [];
      } else {
        var target :| PointsAt(pkt, end, target) && Laid(pkt, target, parts[1..]);
        PointerAt(pkt, end, target);
        CompressedNamesUpToTheBudget(pkt, target, parts[1..], jumps + 1);
      }
      LabelsThen(pkt, off, parts[0], jumps);
    }
  }

  /** Appending a dotted name to any buffer and reading it back from there gives the name, whatever follows. */
  lemma NameRoundTrip(b: Bytes, labels: seq<Label>, rest: Bytes)
    requires AllPlain(labels)
    ensures Walk(b + Encode(Split(TrimDot(Dotted(labels)))) + rest, |b|, 0) == Some((labels, |Encode(labels)|))
  {
    LabelsOfName(labels);
    var pkt := b + Encode(labels) + rest;
    assert pkt[|b|..|b| + |Encode(labels)|] == Encode(labels);
    DecodeInvertsEncode(pkt, |b|, labels, 0);
  }

  /** On the wire a name is its labels, each behind its length, and a 0; as text, its labels with a dot behind each. */
  lemma NamesAre(labels: seq<Label>, part: Label)
    requires Plain(part)
    ensures Encode([]) == [0] && Encode([part] + labels) == [|part|] + part + Encode(labels)
    ensures Dotted([part]) == part + [46]
    ensures labels != [] ==> Dotted([part] + labels) == part + [46] + Dotted(labels)
  {
    assert ([part] + labels)[1..] == labels;
  }

  /** A pointer is two bytes with the top two bits set; the other fourteen are the offset. */
  lemma PointersAre(pkt: Bytes, i: nat, target: nat)
    requires i + 1 < |pkt| && target < 16384
    ensures 192 <= pkt[i] ==> Pointer(pkt, i) == (pkt[i] as int - 192) * 256 + pkt[i + 1]
    ensures PointerBytes(target) == [192 + target / 256, target % 256]
  {
  }

  // -- Queries ---------------------------------------------------------------------------

  const PTR := 12
  const ANY := 255

  type Fold = (Bytes, Bytes) -> bool

  datatype Question = Question(labels: seq<Label>, qtype: nat, qclass: nat)

  function U16(pkt: Bytes, i: nat): nat
    requires i + 2 <= |pkt|
  {
    FromBigEndian(pkt[i..i + 2])
  }

  predicate Wanted(name: Bytes, qtype: nat, text: Bytes, fold: Fold) {
    fold(text, name) && (qtype == PTR || qtype == ANY)
  }

  /** Is one of the next qd questions from `off` on for the name? A malformed question ends the search. */
  ghost predicate Asks(pkt: Bytes, off: nat, qd: nat, name: Bytes, fold: Fold)
    decreases qd
  {
    qd > 0 &&
    match Walk(pkt, off, 0)
    case None => false
    case Some((labels, n)) =>
      && off + n + 4 <= |pkt|
      && (Wanted(name, U16(pkt, off + n), Dotted(labels), fold) || Asks(pkt, off + n + 4, qd - 1, name, fold))
  }

  method IsQueryFor(pkt: Bytes, name: Bytes, fold: Fold) returns (r: bool)
    ensures r <==> |pkt| >= 12 && pkt[2] < 128 && Asks(pkt, 12, U16(pkt, 4), name, fold)
  {
    hide Walk, U16, Dotted;
    if |pkt| < 12 {
      return false;
    }
    if pkt[2] >= 128 {
      return false;
    }
    var qd: nat, off: nat := U16(pkt, 4), 12;
    for i := 0 to qd
      invariant Asks(pkt, 12, qd, name, fold) <==> Asks(pkt, off, qd - i, name, fold)
    {
      var q := DecodeName(pkt, off);
      if q.None? {
        return false;
      }
      off := off + q.value.1;
      if off + 4 > |pkt| {
        return false;
      }
      var qtype := U16(pkt, off);
      off := off + 4;
      if Wanted(name, qtype, q.value.0, fold) {
        return true;
      }
    }
    return false;
  }

  ghost function QuestionBytes(q: Question): Bytes {
    Encode(q.labels) + BigEndian(q.qtype, 2) + BigEndian(q.qclass, 2)
  }

  ghost function QuestionsBytes(qs: seq<Question>): Bytes {
    if qs == [] then [] else QuestionBytes(qs[0]) + QuestionsBytes(qs[1..])
  }

  ghost predicate AllAskable(qs: seq<Question>) {
    forall i :: 0 <= i < |qs| ==> AllPlain(qs[i].labels) && qs[i].qtype < 0x1_0000
  }

  /** One of the questions is for the name, and for a pointer record or any. */
  ghost predicate SomeWanted(qs: seq<Question>, name: Bytes, fold: Fold) {
    exists i :: 0 <= i < |qs| && fold(Dotted(qs[i].labels), name) && qs[i].qtype in {12, 255}
  }

  lemma QuestionAt(pkt: Bytes, off: nat, q: Question)
    requires AllPlain(q.labels) && q.qtype < 0x1_0000 && At(pkt, off, QuestionBytes(q))
    ensures var n := |Encode(q.labels)|;
            && Walk(pkt, off, 0) == Some((q.labels, n))
            && |QuestionBytes(q)| == n + 4 && off + n + 4 <= |pkt| && U16(pkt, off + n) == q.qtype
  {
    hide Walk, Encode, AllPlain;
    var name, t, c := Encode(q.labels), BigEndian(q.qtype, 2), BigEndian(q.qclass, 2);
    AtSplits(pkt, off, name + t, c);
    AtSplits(pkt, off, name, t);
    DecodeInvertsEncode(pkt, off, q.labels, 0);
    assert Pow256(2) == 256 * Pow256(1);
    BigEndianInverse(q.qtype, 2);
  }

  lemma WantedIs(name: Bytes, q: Question, fold: Fold)
    ensures Wanted(name, q.qtype, Dotted(q.labels), fold) <==> fold(Dotted(q.labels), name) && q.qtype in {12, 255}
  {
  }

  lemma {:induction false} AsksExactly(pkt: Bytes, off: nat, qs: seq<Question>, name: Bytes, fold: Fold)
    requires AllAskable(qs) && At(pkt, off, QuestionsBytes(qs))
    ensures Asks(pkt, off, |qs|, name, fold) <==> SomeWanted(qs, name, fold)
    decreases |qs|
  {
    hide Walk, Encode, U16, Dotted, Wanted, QuestionBytes, AllPlain;
    if qs != [] {
      var q, tail := qs[0], qs[1..];
      AtSplits(pkt, off, QuestionBytes(q), QuestionsBytes(tail));
      QuestionAt(pkt, off, q);
      assert forall i :: 0 <= i < |tail| ==> tail[i] == qs[i + 1];
      AsksExactly(pkt, off + |QuestionBytes(q)|, tail, name, fold);
      WantedIs(name, q, fold);
      if SomeWanted(qs, name, fold) {
        var i :| 0 <= i < |qs| && fold(Dotted(qs[i].labels), name) && qs[i].qtype in {12, 255};
        assert i > 0 ==> fold(Dotted(tail[i - 1].labels), name) && tail[i - 1].qtype in {12, 255};
      }
      if SomeWanted(tail, name, fold) {
        var i :| 0 <= i < |tail| && fold(Dotted(tail[i].labels), name) && tail[i].qtype in {12, 255};
        assert fold(Dotted(qs[i + 1].labels), name) && qs[i + 1].qtype in {12, 255};
      }
    }
  }

  /** A query packet as RFC 1035 lays it out: header with the question count, then the questions. */
  ghost function Query(header: Bytes, qs: seq<Question>, rest: Bytes): Bytes
    requires |header| == 12
  {
    header[..4] + BigEndian(|qs|, 2) + header[6..] + QuestionsBytes(qs) + rest
  }

  /** A well-formed query is recognised exactly when one of its questions asks for the name; a response never is. */
  lemma QueryRecognised(header: Bytes, qs: seq<Question>, rest: Bytes, name: Bytes, fold: Fold)
    requires |header| == 12 && |qs| < 0x1_0000 && AllAskable(qs)
    ensures var pkt := Query(header, qs, rest);
            && |pkt| >= 12 && pkt[2] == header[2]
            && (Asks(pkt, 12, U16(pkt, 4), name, fold) <==> SomeWanted(qs, name, fold))
  {
    hide QuestionsBytes, Walk, Asks, SomeWanted, AllAskable;
    var pkt := Query(header, qs, rest);
    var body := QuestionsBytes(qs);
    assert pkt[4..6] == BigEndian(|qs|, 2);
    assert pkt[12..12 + |body|] == body;
    assert Pow256(2) == 256 * Pow256(1);
    BigEndianInverse(|qs|, 2);
    AsksExactly(pkt, 12, qs, name, fold);
  }
}
