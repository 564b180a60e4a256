/** The overall summary of the results table. */
module Summaries {
  import opened ResultsTable

  /** The number of records that passed. */
  function CountPassed(recs: seq<Record>): (n: nat)
    ensures n <= |recs|
    decreases |recs|
  {
    if |recs| == 0 then 0
    else CountPassed(recs[..|recs| - 1]) + (if recs[|recs| - 1].passed then 1 else 0)
  }

  /** The number of records that failed: an independent count, the partner of CountPassed. */
  function CountFailed(recs: seq<Record>): nat
    decreases |recs|
  {
    if |recs| == 0 then 0
    else CountFailed(recs[..|recs| - 1]) + (if recs[|recs| - 1].passed then 0 else 1)
  }

  /** Passed and failed records together are all the records. */
  lemma {:induction false} PassedPlusFailed(recs: seq<Record>)
    ensures CountPassed(recs) + CountFailed(recs) == |recs|
    decreases |recs|
  {
    if |recs| > 0 {
      PassedPlusFailed(recs[..|recs| - 1]);
    }
  }

  /** Counting passes over a table split in two adds the counts of the parts. */
  lemma {:induction false} CountPassedConcat(a: seq<Record>, b: seq<Record>)
    ensures CountPassed(a + b) == CountPassed(a) + CountPassed(b)
    decreases |b|
  {
    if |b| == 0 {
      assert a + b == a;
    } else {
      var b' := b[..|b| - 1];
      assert (a + b)[..|a + b| - 1] == a + b';
      assert (a + b)[|a + b| - 1] == b[|b| - 1];
      CountPassedConcat(a, b');
    }
  }

  /** Every check passed exactly when the pass count is the record count. */
  lemma {:induction false} AllPassed(recs: seq<Record>)
    ensures CountPassed(recs) == |recs| <==> forall p :: 0 <= p < |recs| ==> recs[p].passed
    decreases |recs|
  {
    if |recs| > 0 {
      var prefix := recs[..|recs| - 1];
      AllPassed(prefix);
      assert forall p :: 0 <= p < |prefix| ==> prefix[p] == recs[p];
    }
  }

  /** No check passed exactly when the pass count is zero. */
  lemma {:induction false} NonePassed(recs: seq<Record>)
    ensures CountPassed(recs) == 0 <==> forall p :: 0 <= p < |recs| ==> !recs[p].passed
    decreases |recs|
  {
    if |recs| > 0 {
      var prefix := recs[..|recs| - 1];
      NonePassed(prefix);
      assert forall p :: 0 <= p < |prefix| ==> prefix[p] == recs[p];
    }
  }

  /** The pass rate as a percentage, zero when there are no checks. */
  function PassRate(passed: nat, total: nat): (rate: real)
    ensures total == 0 ==> rate == 0.0
    ensures total > 0 ==> rate * (total as real) == (passed as real) * 100.0
    ensures passed <= total ==> 0.0 <= rate <= 100.0
  {
    if total > 0 then (passed as real / total as real) * 100.0 else 0.0
  }

  datatype Summary = Summary(totalChecks: nat, passedChecks: nat, failedChecks: int, passRate: real)

  /** The overall summary of a results table. */
  function Summarize(recs: seq<Record>): (s: Summary)
    ensures s.totalChecks == |recs| && s.passedChecks == CountPassed(recs)
    ensures s.passedChecks + s.failedChecks == s.totalChecks
    ensures 0 <= s.passedChecks <= s.totalChecks && 0 <= s.failedChecks
    ensures s.passRate == PassRate(s.passedChecks, s.totalChecks)
    ensures 0.0 <= s.passRate <= 100.0
    ensures s.totalChecks == 0 ==> s == Summary(0, 0, 0, 0.0)
  {
    var total := |recs|;
    var passed := CountPassed(recs);
    Summary(total, passed, total - passed, PassRate(passed, total))
  }

  /** The failed count of the summary is the number of records that did not pass. */
  lemma {:induction false} SummaryCountsFailures(recs: seq<Record>)
    ensures Summarize(recs).failedChecks == CountFailed(recs)
  {
    PassedPlusFailed(recs);
  }
}
