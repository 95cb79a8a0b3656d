/**
 * The JSONL file of one event partition, byte for byte: the line codec, the
 * scan that replays intact lines, and what a crash can leave behind.
 */
module EventLog {
  import opened Common

  /** A signed envelope: compact JSON, hence a single line. */
  type Raw = r: Bytes | NEWLINE !in r

  datatype Entry = Entry(seqNo: nat, raw: Raw)

  // -- One line ----------------------------------------------------------------

  const SEQ_FIELD: Bytes := [123, 34, 115, 101, 113, 34, 58]     // {"seq":
  const RAW_FIELD: Bytes := [44, 34, 114, 97, 119, 34, 58]       // ,"raw":
  const CLOSE: byte := 125                                       // }

  function EncodeEntry(e: Entry): (line: Bytes)
    ensures NEWLINE !in line
  {
    SEQ_FIELD + Digits(e.seqNo) + RAW_FIELD + e.raw + [CLOSE]
  }

  function DecodeLine(line: Bytes): Option<Entry> {
    if |line| < 7 || line[..7] != SEQ_FIELD then None else
    var rest := line[7..];
    var d := DigitRun(rest);
    if d == 0 || |rest| < d + 8 || rest[d..d + 7] != RAW_FIELD || rest[|rest| - 1] != CLOSE then None else
    var raw := rest[d + 7..|rest| - 1];
    if NEWLINE in raw then None else Some(Entry(DigitsValue(rest[..d]), raw))
  }

  /** A line of the file: the number and the envelope under their names, as one JSON object, and a line feed. */
  lemma LineForm(e: Entry)
    ensures Line(e) == [123, 34, 115, 101, 113, 34, 58] + Digits(e.seqNo)
                       + [44, 34, 114, 97, 119, 34, 58] + e.raw + [125, 10]
    ensures |Digits(e.seqNo)| > 1 ==> Digits(e.seqNo)[0] != 48
  {
    DigitsArePlaces(e.seqNo);
  }

  /** The fields of an encoded line, as the decoder cuts them. */
  lemma LineFields(e: Entry, tail: Bytes)
    requires tail == RAW_FIELD + e.raw + [CLOSE]
    ensures EncodeEntry(e)[..7] == SEQ_FIELD && EncodeEntry(e)[7..] == Digits(e.seqNo) + tail
    ensures |tail| >= 8 && tail[..7] == RAW_FIELD && tail[|tail| - 1] == CLOSE && tail[7..|tail| - 1] == e.raw
  {
  }

  lemma DecodeEncode(e: Entry)
    ensures DecodeLine(EncodeEntry(e)) == Some(e)
  {
    var tail := RAW_FIELD + e.raw + [CLOSE];
    LineFields(e, tail);
    hide EncodeEntry, Digits, DigitsValue, DigitRun;
    var digits := Digits(e.seqNo);
    DigitRunExact(digits, tail);
    DigitsValueInverse(e.seqNo);
    var rest := EncodeEntry(e)[7..];
    var d := |digits|;
    assert rest[..d] == digits;
    assert rest[d..d + 7] == tail[..7];
    assert rest[d + 7..|rest| - 1] == tail[7..|tail| - 1];
  }

  // -- The file ------------------------------------------------------------------

  function Line(e: Entry): Bytes {
    EncodeEntry(e) + [NEWLINE]
  }

  function EncodeAll(es: seq<Entry>): Bytes {
    if es == [] then [] else Line(es[0]) + EncodeAll(es[1..])
  }

  lemma {:induction false} EncodeAllSnoc(es: seq<Entry>, e: Entry)
    ensures EncodeAll(es + [e]) == EncodeAll(es) + Line(e)
  {
    if es == [] {
      assert (es + [e])[1..] == [];
    } else {
      assert (es + [e])[1..] == es[1..] + [e];
      EncodeAllSnoc(es[1..], e);
    }
  }

  datatype Replay = Replay(entries: seq<Entry>, valid: nat)

  /** Replays intact lines; the first torn or undecodable one ends the valid prefix. */
  function Scan(log: Bytes): (r: Replay)
    ensures r.valid <= |log|
    decreases |log|
  {
    var nl := IndexOf(log, NEWLINE);
    if nl == |log| then Replay([], 0) else
    match DecodeLine(log[..nl])
    case None => Replay([], 0)
    case Some(e) =>
      var r := Scan(log[nl + 1..]);
      Replay([e] + r.entries, nl + 1 + r.valid)
  }

  /** Whatever fragment of a line a crash left at the end, the scan finds exactly the complete lines before it. */
  lemma {:induction false} ScanIgnoresTornTail(es: seq<Entry>, torn: Bytes)
    requires NEWLINE !in torn
    ensures Scan(EncodeAll(es) + torn) == Replay(es, |EncodeAll(es)|)
    decreases |es|
  {
    var log := EncodeAll(es) + torn;
    if es == [] {
      assert log == torn;
      IndexOfBehind(torn, NEWLINE, []);
    } else {
      var line := EncodeEntry(es[0]);
      var rest := EncodeAll(es[1..]) + torn;
      assert log == line + [NEWLINE] + rest;
      IndexOfBehind(line, NEWLINE, rest);
      DecodeEncode(es[0]);
      assert log[..|line|] == line;
      assert log[|line| + 1..] == rest;
      ScanIgnoresTornTail(es[1..], torn);
      assert [es[0]] + es[1..] == es;
    }
  }

  // -- Delivery bookkeeping ----------------------------------------------------------

  function Undelivered(es: seq<Entry>, deliv: int): seq<Entry> {
    if es == [] then []
    else (if es[0].seqNo > deliv then [es[0]] else []) + Undelivered(es[1..], deliv)
  }

  /** One above every sequence number in the list. */
  function NextSeq(es: seq<Entry>): (n: nat)
    ensures forall i :: 0 <= i < |es| ==> es[i].seqNo < n
  {
    if es == [] then 0 else
    var n := NextSeq(es[1..]);
    assert forall i :: 1 <= i < |es| ==> es[i] == es[1..][i - 1];
    if es[0].seqNo >= n then es[0].seqNo + 1 else n
  }

  ghost predicate Increasing(es: seq<Entry>) {
    forall i, j :: 0 <= i < j < |es| ==> es[i].seqNo < es[j].seqNo
  }

  lemma {:induction false} UndeliveredSnoc(es: seq<Entry>, e: Entry, deliv: int)
    ensures Undelivered(es + [e], deliv) == Undelivered(es, deliv) + (if e.seqNo > deliv then [e] else [])
  {
    if es == [] {
      assert (es + [e])[1..] == [];
    } else {
      assert (es + [e])[1..] == es[1..] + [e];
      UndeliveredSnoc(es[1..], e, deliv);
    }
  }

  lemma {:induction false} NextSeqSnoc(es: seq<Entry>, e: Entry)
    ensures NextSeq(es + [e]) == if e.seqNo >= NextSeq(es) then e.seqNo + 1 else NextSeq(es)
  {
    if es == [] {
      assert (es + [e])[1..] == [];
    } else {
      assert (es + [e])[1..] == es[1..] + [e];
      NextSeqSnoc(es[1..], e);
    }
  }

  lemma {:induction false} AllUndelivered(es: seq<Entry>, deliv: int)
    requires forall i :: 0 <= i < |es| ==> es[i].seqNo > deliv
    ensures Undelivered(es, deliv) == es
  {
    if es != [] {
      AllUndelivered(es[1..], deliv);
    }
  }

  /** In an increasing log the undelivered entries are a suffix, cut at the cursor. */
  lemma {:induction false} UndeliveredIsSuffix(es: seq<Entry>, deliv: int) returns (cut: nat)
    requires Increasing(es)
    ensures cut <= |es| && Undelivered(es, deliv) == es[cut..]
    ensures forall i :: 0 <= i < |es| ==> (i < cut <==> es[i].seqNo <= deliv)
  {
    if es == [] {
      cut := 0;
    } else if es[0].seqNo > deliv {
      AllUndelivered(es, deliv);
      cut := 0;
    } else {
      cut := UndeliveredIsSuffix(es[1..], deliv);
      assert es[1..][cut..] == es[cut + 1..];
      forall i | 0 <= i < |es| ensures i < cut + 1 <==> es[i].seqNo <= deliv {
        if i > 0 { assert es[i] == es[1..][i - 1]; }
      }
      cut := cut + 1;
    }
  }

  /** Moving the cursor to the k-th pending entry leaves exactly the ones after it. */
  lemma AdvanceCursor(es: seq<Entry>, deliv: int, k: nat)
    requires Increasing(es) && k < |Undelivered(es, deliv)|
    ensures Undelivered(es, Undelivered(es, deliv)[k].seqNo) == Undelivered(es, deliv)[k + 1..]
  {
    var cut := UndeliveredIsSuffix(es, deliv);
    var at := cut + k;
    var later := UndeliveredIsSuffix(es, es[at].seqNo);
    assert at < later;
    assert at + 1 < |es| ==> !(at + 1 < later);
    assert later == at + 1;
  }

  lemma {:induction false} NextSeqIncreasing(es: seq<Entry>)
    requires Increasing(es) && es != []
    ensures NextSeq(es) == es[|es| - 1].seqNo + 1
  {
    if |es| > 1 {
      NextSeqIncreasing(es[1..]);
    }
  }
}
