/**
 * The validation engine: a four-stage pipeline over a dataset and a rule
 * list. Each stage stores its output in a field that starts empty; a stage
 * whose input field is still empty raises instead of running.
 */
module Engine {
  import opened Rules
  import opened Evaluation
  import opened ResultsTable
  import opened Summaries
  import opened RuleSummaries
  import opened Outcomes

  datatype Option<T> = None | Some(value: T)

  class ValidationEngine {
    var df: Dataset
    var rules: seq<Rule>
    var rawResults: Option<seq<RawEntry>>
    var results: Option<seq<Record>>
    var summary: Option<Summary>
    var summaryByRule: Option<seq<RuleSummary>>

    constructor(df: Dataset, rules: seq<Rule>)
      ensures this.df == df && this.rules == rules
      ensures rawResults == None && results == None && summary == None && summaryByRule == None
    {
      this.df := df;
      this.rules := rules;
      rawResults := None;
      results := None;
      summary := None;
      summaryByRule := None;
    }

    /**
     * Applies every rule to every row. The raw results hold one entry per row,
     * in row order and tagged with the row's position; an entry lists the
     * outcomes of the rules whose column the row has, in rule order. Nothing
     * but the raw results changes.
     */
    method Run()
      modifies this
      ensures rawResults.Some? && |rawResults.value| == |df|
      ensures forall i :: 0 <= i < |df| ==> rawResults.value[i] == RawEntry(i, RowResults(df[i], rules))
      ensures rawResults == Some(RawResults(df, rules))
      ensures df == old(df) && rules == old(rules)
      ensures results == old(results) && summary == old(summary) && summaryByRule == old(summaryByRule)
    {
      var raw: seq<RawEntry> := [];
      var i := 0;
      while i < |df|
        invariant 0 <= i <= |df|
        invariant |raw| == i
        invariant forall p :: 0 <= p < i ==> raw[p] == RawEntry(p, RowResults(df[p], rules))
      {
        var row := df[i];
        var rowResults: seq<RuleResult> := [];
        var j := 0;
        while j < |rules|
          invariant 0 <= j <= |rules|
          invariant rowResults == RowResults(row, rules[..j])
        {
          var rule := rules[j];
          if rule.column in row {
            rowResults := rowResults + [rule.check(row[rule.column])];
          }
          j := j + 1;
          assert rules[..j][..j - 1] == rules[..j - 1];
        }
        assert rules[..|rules|] == rules;
        raw := raw + [RawEntry(i, rowResults)];
        i := i + 1;
      }
      assert raw == RawResults(df, rules);
      rawResults := Some(raw);
    }

    /**
     * Flattens the raw results into the results table, one record per outcome
     * in row order and then rule order, each with its status. Raises, changing
     * nothing, when the engine has not been run.
     */
    method BuildResultsDataframe() returns (outcome: Outcome)
      modifies this
      ensures old(rawResults).None? ==> outcome == Raised(ValueError(NoRawResults)) && results == old(results)
      ensures old(rawResults).Some? ==> outcome == Done && results == Some(Flatten(old(rawResults).value))
      ensures df == old(df) && rules == old(rules) && rawResults == old(rawResults)
      ensures summary == old(summary) && summaryByRule == old(summaryByRule)
    {
      if rawResults.None? {
        return Raised(ValueError(NoRawResults));
      }
      var raw := rawResults.value;
      var rows: seq<Record> := [];
      var i := 0;
      while i < |raw|
        invariant 0 <= i <= |raw|
        invariant rows == Flatten(raw[..i])
      {
        var entry := raw[i];
        var j := 0;
        while j < |entry.results|
          invariant 0 <= j <= |entry.results|
          invariant rows == Flatten(raw[..i]) + RecordsOf(entry)[..j]
        {
          var result := entry.results[j];
          rows := rows + [Record(entry.rowIndex, result.ruleName, result.value, result.threshold, result.passed,
                                 if result.passed then PASS else FAIL)];
          j := j + 1;
          assert RecordsOf(entry)[..j] == RecordsOf(entry)[..j - 1] + [RecordsOf(entry)[j - 1]];
        }
        assert RecordsOf(entry)[..j] == RecordsOf(entry);
        assert raw[..i + 1][..i] == raw[..i];
        i := i + 1;
      }
      assert raw[..|raw|] == raw;
      results := Some(rows);
      return Done;
    }

    /**
     * Computes the overall summary of the results table. Raises, changing
     * nothing, when the table has not been built. Only the summary changes,
     * so a second call stores the same summary again.
     */
    method BuildSummary() returns (outcome: Outcome)
      modifies this
      ensures old(results).None? ==> outcome == Raised(ValueError(NoResults)) && summary == old(summary)
      ensures old(results).Some? ==> outcome == Done && summary == Some(Summarize(old(results).value))
      ensures df == old(df) && rules == old(rules) && rawResults == old(rawResults) && results == old(results)
      ensures summaryByRule == old(summaryByRule)
    {
      if results.None? {
        return Raised(ValueError(NoResults));
      }
      summary := Some(Summarize(results.value));
      return Done;
    }

    /**
     * Computes the per-rule summary of the results table. Raises, changing
     * nothing, when the table has not been built.
     */
    method BuildSummaryByRule() returns (outcome: Outcome)
      modifies this
      ensures old(results).None? ==> outcome == Raised(ValueError(NoResults)) && summaryByRule == old(summaryByRule)
      ensures old(results).Some? ==> outcome == Done && summaryByRule == Some(GroupByRule(old(results).value))
      ensures df == old(df) && rules == old(rules) && rawResults == old(rawResults) && results == old(results)
      ensures summary == old(summary)
    {
      if results.None? {
        return Raised(ValueError(NoResults));
      }
      summaryByRule := Some(GroupByRule(results.value));
      return Done;
    }
  }
}
