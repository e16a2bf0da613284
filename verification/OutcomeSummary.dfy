/** The running summary of fetch outcomes. */
module OutcomeSummary {
  import opened SaiStatus
  import opened Tally

  datatype Summary = Summary(ok: nat, skipped: nat, failures: Counts)

  const Empty := Summary(0, 0, map[])

  /** The summary after one more outcome, decided by the bucket's label alone. */
  function Added(s: Summary, outcome: FetchOutcome): Summary {
    var bucket := SummaryBucket(outcome.result, outcome.status);
    if bucket == "ok" then s.(ok := s.ok + 1)
    else if bucket == "skipped_by_tool" then s.(skipped := s.skipped + 1)
    else s.(failures := Bump(s.failures, bucket))
  }

  function Summarised(outcomes: seq<FetchOutcome>): Summary {
    if outcomes == [] then Empty
    else Added(Summarised(outcomes[..|outcomes| - 1]), outcomes[|outcomes| - 1])
  }

  function CountKind(outcomes: seq<FetchOutcome>, kind: FetchKind): nat {
    if outcomes == [] then 0
    else CountKind(outcomes[..|outcomes| - 1], kind) + (if outcomes[|outcomes| - 1].result == kind then 1 else 0)
  }

  /** How many failures a status bucket stands for. */
  function CountFailures(outcomes: seq<FetchOutcome>, bucket: string): nat {
    if outcomes == [] then 0
    else
      var last := outcomes[|outcomes| - 1];
      CountFailures(outcomes[..|outcomes| - 1], bucket)
      + (if last.result == Failed && ClassifyStatus(last.status) == bucket then 1 else 0)
  }

  /**
    The summary is exact whatever was added: the two tool labels count the Ok and the Skipped
    outcomes, each failure bucket counts the failures of its statuses, and nothing is lost.
   */
  lemma {:induction false} SummaryIsExact(outcomes: seq<FetchOutcome>)
    ensures Summarised(outcomes).ok == CountKind(outcomes, Ok)
    ensures Summarised(outcomes).skipped == CountKind(outcomes, Skipped)
    ensures Total(Summarised(outcomes).failures) == CountKind(outcomes, Failed)
    ensures Summarised(outcomes).ok + Summarised(outcomes).skipped
            + Total(Summarised(outcomes).failures) == |outcomes|
    ensures forall b :: Count(Summarised(outcomes).failures, b) == CountFailures(outcomes, b)
  {
    if outcomes != [] {
      var before, last := outcomes[..|outcomes| - 1], outcomes[|outcomes| - 1];
      SummaryIsExact(before);
      StatusBucketsAreNotToolLabels(last.status);
      BumpAddsOne(Summarised(before).failures, SummaryBucket(last.result, last.status));
    }
  }

  class OutcomeSummary {
    var ok: nat
    var skipped: nat
    var failures: Counts

    function View(): Summary
      reads this
    {
      Summary(ok, skipped, failures)
    }

    constructor ()
      ensures View() == Empty
    {
      ok, skipped, failures := 0, 0, map[];
    }

    method Add(outcome: FetchOutcome)
      modifies this
      ensures View() == Added(old(View()), outcome)
    {
      var bucket := SummaryBucket(outcome.result, outcome.status);
      if bucket == "ok" {
        ok := ok + 1;
      } else if bucket == "skipped_by_tool" {
        skipped := skipped + 1;
      } else {
        failures := Bump(failures, bucket);
      }
    }
  }
}
