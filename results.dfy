/**
 * The results table: the raw results flattened into one record per
 * (row, rule) outcome, each with a status derived from `passed`.
 */
module ResultsTable {
  import opened Rules
  import opened Evaluation
  import opened Outcomes

  const PASS := "PASS"
  const FAIL := "FAIL"

  /** One record of the results table. */
  datatype Record = Record(rowIndex: nat, ruleName: string, value: real, threshold: real, passed: bool, status: string)

  /** The status column: "PASS" for a passed check, "FAIL" otherwise. */
  function StatusOf(passed: bool): (s: string)
    ensures s == PASS <==> passed
    ensures s == FAIL <==> !passed
  {
    if passed then PASS else FAIL
  }

  /** The record that copies one outcome of row `rowIndex`. */
  function ToRecord(rowIndex: nat, r: RuleResult): (rec: Record)
    ensures rec.rowIndex == rowIndex && rec.ruleName == r.ruleName
    ensures rec.value == r.value && rec.threshold == r.threshold && rec.passed == r.passed
    ensures rec.status == PASS <==> rec.passed
  {
    Record(rowIndex, r.ruleName, r.value, r.threshold, r.passed, StatusOf(r.passed))
  }

  /** The records of one raw entry, in the entry's own order. */
  function RecordsOf(e: RawEntry): seq<Record>
  {
    seq(|e.results|, k requires 0 <= k < |e.results| => ToRecord(e.rowIndex, e.results[k]))
  }

  /** The number of outcomes held by the raw results. */
  function TotalOutcomes(raw: seq<RawEntry>): nat
    decreases |raw|
  {
    if |raw| == 0 then 0 else TotalOutcomes(raw[..|raw| - 1]) + |raw[|raw| - 1].results|
  }

  /** Status is consistent with `passed` on every record. */
  ghost predicate StatusConsistent(recs: seq<Record>)
  {
    forall p :: 0 <= p < |recs| ==> (recs[p].status == PASS <==> recs[p].passed) && (recs[p].status == FAIL <==> !recs[p].passed)
  }

  /** The results table: the records of each entry, entries in row order. */
  function Flatten(raw: seq<RawEntry>): (recs: seq<Record>)
    ensures |recs| == TotalOutcomes(raw)
    decreases |raw|
  {
    if |raw| == 0 then [] else Flatten(raw[..|raw| - 1]) + RecordsOf(raw[|raw| - 1])
  }

  /** Every record of the table has the status its passed flag calls for. */
  lemma {:induction false} FlattenStatus(raw: seq<RawEntry>)
    ensures StatusConsistent(Flatten(raw))
    decreases |raw|
  {
    if |raw| > 0 {
      var prefix := Flatten(raw[..|raw| - 1]);
      var last := RecordsOf(raw[|raw| - 1]);
      FlattenStatus(raw[..|raw| - 1]);
      assert forall p :: |prefix| <= p < |prefix| + |last| ==> (prefix + last)[p] == last[p - |prefix|];
    }
  }

  /** Flattening preserves the order of the entries: the table of `a + b` is that of `a` followed by that of `b`. */
  lemma {:induction false} FlattenConcat(a: seq<RawEntry>, b: seq<RawEntry>)
    ensures Flatten(a + b) == Flatten(a) + Flatten(b)
    decreases |b|
  {
    if |b| == 0 {
      assert a + b == a;
    } else {
      var b' := b[..|b| - 1];
      var x := b[|b| - 1];
      assert (a + b)[..|a + b| - 1] == a + b';
      assert (a + b)[|a + b| - 1] == x;
      FlattenConcat(a, b');
      calc {
        Flatten(a + b);
        Flatten(a + b') + RecordsOf(x);
        Flatten(a) + Flatten(b') + RecordsOf(x);
        Flatten(a) + (Flatten(b') + RecordsOf(x));
      }
    }
  }

  /** `rec` copies outcome `k` of entry `i` of the raw results. */
  ghost predicate CopiesOutcome(raw: seq<RawEntry>, rec: Record)
  {
    exists i, k :: 0 <= i < |raw| && 0 <= k < |raw[i].results| && rec == ToRecord(raw[i].rowIndex, raw[i].results[k])
  }

  /** A record is in the table exactly when it copies some outcome of the raw results. */
  lemma FlattenMembership(raw: seq<RawEntry>, rec: Record)
    ensures rec in Flatten(raw) <==> CopiesOutcome(raw, rec)
  {
    if rec in Flatten(raw) {
      InTableCopiesOutcome(raw, rec);
    }
    if CopiesOutcome(raw, rec) {
      var i, k :| 0 <= i < |raw| && 0 <= k < |raw[i].results| && rec == ToRecord(raw[i].rowIndex, raw[i].results[k]);
      OutcomeInTable(raw, i, k);
    }
  }

  lemma {:induction false} InTableCopiesOutcome(raw: seq<RawEntry>, rec: Record)
    requires rec in Flatten(raw)
    ensures CopiesOutcome(raw, rec)
    decreases |raw|
  {
    var n := |raw| - 1;
    var prefix := raw[..n];
    if rec in Flatten(prefix) {
      InTableCopiesOutcome(prefix, rec);
      var i, k :| 0 <= i < |prefix| && 0 <= k < |prefix[i].results| && rec == ToRecord(prefix[i].rowIndex, prefix[i].results[k]);
      assert prefix[i] == raw[i];
    } else {
      assert rec in RecordsOf(raw[n]);
      var k :| 0 <= k < |raw[n].results| && RecordsOf(raw[n])[k] == rec;
      assert rec == ToRecord(raw[n].rowIndex, raw[n].results[k]);
    }
  }

  lemma {:induction false} OutcomeInTable(raw: seq<RawEntry>, i: nat, k: nat)
    requires i < |raw| && k < |raw[i].results|
    ensures ToRecord(raw[i].rowIndex, raw[i].results[k]) in Flatten(raw)
    decreases |raw|
  {
    var n := |raw| - 1;
    var prefix := raw[..n];
    if i < n {
      assert prefix[i] == raw[i];
      OutcomeInTable(prefix, i, k);
    } else {
      assert RecordsOf(raw[n])[k] == ToRecord(raw[i].rowIndex, raw[i].results[k]);
    }
  }

  /**
   * Over the whole pipeline, every record of the table comes from a row and a
   * rule whose column that row has: an absent column yields no record.
   */
  lemma RecordsComeFromPresentColumns(df: Dataset, rules: seq<Rule>, rec: Record)
    requires rec in Flatten(RawResults(df, rules))
    ensures exists i, k :: 0 <= i < |df| && 0 <= k < |rules| && Applies(rules[k], df[i])
                        && rec == ToRecord(i, Evaluate(rules[k], df[i]))
  {
    var raw := RawResults(df, rules);
    FlattenMembership(raw, rec);
    var i, q :| 0 <= i < |raw| && 0 <= q < |raw[i].results| && rec == ToRecord(raw[i].rowIndex, raw[i].results[q]);
    RowResultsProvenance(df[i], rules);
    assert FromPresentColumn(df[i], rules, RowResults(df[i], rules)[q]);
    var k :| 0 <= k < |rules| && Applies(rules[k], df[i]) && RowResults(df[i], rules)[q] == Evaluate(rules[k], df[i]);
    assert rec == ToRecord(i, Evaluate(rules[k], df[i]));
  }

  /**
   * Conversely, every rule whose column a row has puts its check on that
   * row's value into the table, tagged with the row's position.
   */
  lemma PresentColumnsGiveRecords(df: Dataset, rules: seq<Rule>, i: nat, k: nat)
    requires i < |df| && k < |rules| && Applies(rules[k], df[i])
    ensures ToRecord(i, Evaluate(rules[k], df[i])) in Flatten(RawResults(df, rules))
  {
    var raw := RawResults(df, rules);
    assert rules == rules[..k] + [rules[k]] + rules[k + 1..];
    RuleContribution(df[i], rules[..k], rules[k], rules[k + 1..]);
    var q := |RowResults(df[i], rules[..k])|;
    assert raw[i].results[q] == Evaluate(rules[k], df[i]);
    OutcomeInTable(raw, i, q);
  }

  /**
   * The results-table stage as the source writes it: with no outcomes at all
   * the table has no "passed" column, and deriving the status raises KeyError.
   */
  function BuildResultsAsWritten(raw: seq<RawEntry>): (r: Result<seq<Record>>)
    ensures r.Fail? <==> TotalOutcomes(raw) == 0
    ensures r.Ok? ==> r.value == Flatten(raw)
  {
    var recs := Flatten(raw);
    if |recs| == 0 then Fail(KeyError("passed")) else Ok(recs)
  }

  /** An empty dataset makes the as-written stage raise, where the evaluation stage succeeded. */
  lemma AsWrittenRaisesOnEmptyDataset(rules: seq<Rule>)
    ensures BuildResultsAsWritten(RawResults([], rules)) == Fail(KeyError("passed"))
    ensures Flatten(RawResults([], rules)) == []
  {
  }

  /** So does a dataset whose rows have none of the rules' columns. */
  lemma {:induction false} AsWrittenRaisesWhenNoRuleApplies(df: Dataset, rules: seq<Rule>)
    requires forall i, k :: 0 <= i < |df| && 0 <= k < |rules| ==> !Applies(rules[k], df[i])
    ensures BuildResultsAsWritten(RawResults(df, rules)).Fail?
    ensures Flatten(RawResults(df, rules)) == []
  {
    var raw := RawResults(df, rules);
    forall i | 0 <= i < |df| ensures raw[i].results == [] {
      NoApplicableRule(df[i], rules);
    }
    NoOutcomes(raw);
  }

  lemma {:induction false} NoOutcomes(raw: seq<RawEntry>)
    requires forall i :: 0 <= i < |raw| ==> raw[i].results == []
    ensures TotalOutcomes(raw) == 0 && Flatten(raw) == []
    decreases |raw|
  {
    if |raw| > 0 {
      NoOutcomes(raw[..|raw| - 1]);
    }
  }
}
