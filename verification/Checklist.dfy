/** Ordered fail-closed decisions: the first check that does not hold is the one reported. */
module Checklist {
  import opened Common

  datatype Check<R> = Check(holds: bool, reason: R)

  ghost function FirstFailing<R>(checks: seq<Check<R>>): Option<R> {
    if checks == [] then None else if !checks[0].holds then Some(checks[0].reason) else FirstFailing(checks[1..])
  }

  lemma {:induction false} FirstFailingIsFirst<R>(checks: seq<Check<R>>, i: nat)
    requires i <= |checks|
    requires forall j :: 0 <= j < i ==> checks[j].holds
    requires i < |checks| ==> !checks[i].holds
    ensures FirstFailing(checks) == if i < |checks| then Some(checks[i].reason) else None
    decreases i
  {
    if i > 0 {
      FirstFailingIsFirst(checks[1..], i - 1);
    }
  }

  lemma {:induction false} AllHold<R>(checks: seq<Check<R>>)
    ensures FirstFailing(checks).None? <==> forall j :: 0 <= j < |checks| ==> checks[j].holds
  {
    if checks != [] && checks[0].holds {
      AllHold(checks[1..]);
      assert forall j :: 1 <= j < |checks| ==> checks[j] == checks[1..][j - 1];
    }
  }

  lemma HoldSplits<R>(checks: seq<Check<R>>, n: nat)
    requires n <= |checks|
    ensures (forall j :: 0 <= j < |checks| ==> checks[j].holds)
            <==> (forall j :: 0 <= j < n ==> checks[j].holds)
                 && (forall j :: 0 <= j < |checks[n..]| ==> checks[n..][j].holds)
  {
    assert forall j :: n <= j < |checks| ==> checks[j] == checks[n..][j - n];
    assert forall j :: 0 <= j < |checks[n..]| ==> checks[n..][j] == checks[j + n];
  }

  /** When the first n checks hold, the rest decide. */
  lemma {:induction false} FailsInRest<R>(checks: seq<Check<R>>, n: nat)
    requires n <= |checks|
    requires forall j :: 0 <= j < n ==> checks[j].holds
    ensures FirstFailing(checks) == FirstFailing(checks[n..])
    decreases n
  {
    if n == 0 {
      assert checks[0..] == checks;
    } else {
      FailsInRest(checks[1..], n - 1);
      assert checks[1..][n - 1..] == checks[n..];
    }
  }
}
