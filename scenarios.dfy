/**
 * Whole-pipeline runs on small datasets, driven through the engine's stage
 * methods. The rule's check here is an illustrative "value <= threshold"
 * comparison; the real rule module is not part of this model.
 */
module Scenarios {
  import opened Rules
  import opened Evaluation
  import opened ResultsTable
  import opened Summaries
  import opened RuleSummaries
  import opened Outcomes
  import opened Engine
  import opened LexOrder

  function AtMost(name: string, column: string, threshold: real): Rule
  {
    Rule(name, column, v => RuleResult(name, v, threshold, v <= threshold))
  }

  const MaxResponseTime := AtMost("Max response time", "latency", 200.0)

  /** Four rows; the first and third have the latency column. */
  const Mixed: Dataset := [map["latency" := 180.0], map["region" := 3.0], map["latency" := 250.0], map[]]

  const Pass := RuleResult("Max response time", 180.0, 200.0, true)
  const Failure := RuleResult("Max response time", 250.0, 200.0, false)

  lemma MixedRaw()
    ensures RawResults(Mixed, [MaxResponseTime]) == [RawEntry(0, [Pass]), RawEntry(1, []), RawEntry(2, [Failure]), RawEntry(3, [])]
  {
    var rules := [MaxResponseTime];
    assert rules[..0] == [];
    assert Evaluate(MaxResponseTime, Mixed[0]) == Pass;
    assert Evaluate(MaxResponseTime, Mixed[2]) == Failure;
    assert !Applies(MaxResponseTime, Mixed[1]) && !Applies(MaxResponseTime, Mixed[3]);
    assert RowResults(Mixed[0], rules) == [Pass];
    assert RowResults(Mixed[1], rules) == [];
    assert RowResults(Mixed[2], rules) == [Failure];
    assert RowResults(Mixed[3], rules) == [];
  }

  lemma MixedTable()
    ensures Flatten([RawEntry(0, [Pass]), RawEntry(1, []), RawEntry(2, [Failure]), RawEntry(3, [])])
         == [ToRecord(0, Pass), ToRecord(2, Failure)]
  {
    var raw := [RawEntry(0, [Pass]), RawEntry(1, []), RawEntry(2, [Failure]), RawEntry(3, [])];
    assert RecordsOf(raw[0]) == [ToRecord(0, Pass)] && RecordsOf(raw[2]) == [ToRecord(2, Failure)];
    assert RecordsOf(raw[1]) == [] && RecordsOf(raw[3]) == [];
    assert raw[..1][..0] == [];
    assert Flatten(raw[..1]) == [ToRecord(0, Pass)];
    assert raw[..2][..1] == raw[..1];
    assert Flatten(raw[..2]) == [ToRecord(0, Pass)];
    assert raw[..3][..2] == raw[..2];
    assert Flatten(raw[..3]) == [ToRecord(0, Pass), ToRecord(2, Failure)];
    assert raw[..3] == raw[..|raw| - 1];
  }

  lemma MixedSummary()
    ensures Summarize([ToRecord(0, Pass), ToRecord(2, Failure)]) == Summary(2, 1, 1, 50.0)
  {
    var table := [ToRecord(0, Pass), ToRecord(2, Failure)];
    assert table[..1][..0] == [];
    assert table[..1] == [ToRecord(0, Pass)];
    assert CountPassed(table[..1]) == 1;
    assert CountPassed(table) == 1;
    assert PassRate(1, 2) == 50.0;
  }

  /**
   * One passing and one failing row among four: the summary stage raises
   * before the table exists, and afterwards reports two checks, one passed,
   * one failed, a pass rate of 50.
   */
  method MixedRows() returns (early: Outcome, entries: nat, records: nat, summary: Summary)
    ensures early == Raised(ValueError(NoResults))
    ensures entries == 4 && records == 2
    ensures summary == Summary(2, 1, 1, 50.0)
  {
    var engine := new ValidationEngine(Mixed, [MaxResponseTime]);
    early := engine.BuildSummary();
    engine.Run();
    MixedRaw();
    entries := |engine.rawResults.value|;
    var outcome := engine.BuildResultsDataframe();
    MixedTable();
    records := |engine.results.value|;
    outcome := engine.BuildSummary();
    MixedSummary();
    summary := engine.summary.value;
  }

  const CpuLimit := AtMost("CPU limit", "cpu", 90.0)

  /** One row that has both rules' columns and satisfies both. */
  const BothColumns: Dataset := [map["latency" := 180.0, "cpu" := 50.0]]

  const LatencyOk := RuleResult("Max response time", 180.0, 200.0, true)
  const CpuOk := RuleResult("CPU limit", 50.0, 90.0, true)

  lemma BothColumnsTable()
    ensures Flatten(RawResults(BothColumns, [MaxResponseTime, CpuLimit])) == [ToRecord(0, LatencyOk), ToRecord(0, CpuOk)]
  {
    var rules := [MaxResponseTime, CpuLimit];
    var row := BothColumns[0];
    assert Evaluate(MaxResponseTime, row) == LatencyOk;
    assert Evaluate(CpuLimit, row) == CpuOk;
    assert Applies(rules[0], row) && Applies(rules[1], row);
    AllRulesApply(row, rules);
    assert RowResults(row, rules) == [LatencyOk, CpuOk];
    var raw := RawResults(BothColumns, rules);
    assert raw == [RawEntry(0, [LatencyOk, CpuOk])];
    assert RecordsOf(raw[0]) == [ToRecord(0, LatencyOk), ToRecord(0, CpuOk)];
    assert raw[..0] == [];
  }

  lemma BothColumnsNames()
    ensures RuleNames([ToRecord(0, LatencyOk), ToRecord(0, CpuOk)]) == ["CPU limit", "Max response time"]
  {
    var latency := ToRecord(0, LatencyOk);
    var table := [latency, ToRecord(0, CpuOk)];
    assert table[..1] == [latency] && [latency][..0] == [];
    assert RuleNames([latency]) == ["Max response time"];
    assert "CPU limit" != "Max response time" && LexLess("CPU limit", "Max response time");
    assert InsertSorted(["Max response time"], "CPU limit") == ["CPU limit", "Max response time"];
  }

  lemma CpuGroup()
    ensures GroupSummary([ToRecord(0, LatencyOk), ToRecord(0, CpuOk)], "CPU limit") == RuleSummary("CPU limit", 1, 1, 0, 100.0)
  {
    var latency := ToRecord(0, LatencyOk);
    var cpu := ToRecord(0, CpuOk);
    var table := [latency, cpu];
    assert table[..1] == [latency] && [latency][..0] == [];
    assert latency.ruleName[0] != "CPU limit"[0];
    assert ForRule([latency], "CPU limit") == [];
    assert ForRule(table, "CPU limit") == [cpu];
    assert [cpu][..0] == [] && CountPassed([cpu]) == 1;
    assert PassRate(1, 1) == 100.0;
  }

  lemma LatencyGroup()
    ensures GroupSummary([ToRecord(0, LatencyOk), ToRecord(0, CpuOk)], "Max response time") == RuleSummary("Max response time", 1, 1, 0, 100.0)
  {
    var latency := ToRecord(0, LatencyOk);
    var table := [latency, ToRecord(0, CpuOk)];
    assert table[..1] == [latency] && [latency][..0] == [];
    assert table[1].ruleName[0] != "Max response time"[0];
    assert ForRule(table, "Max response time") == [latency];
    assert CountPassed([latency]) == 1;
    assert PassRate(1, 1) == 100.0;
  }

  lemma BothColumnsByRule()
    ensures GroupByRule([ToRecord(0, LatencyOk), ToRecord(0, CpuOk)])
         == [RuleSummary("CPU limit", 1, 1, 0, 100.0), RuleSummary("Max response time", 1, 1, 0, 100.0)]
  {
    var table := [ToRecord(0, LatencyOk), ToRecord(0, CpuOk)];
    BothColumnsNames();
    CpuGroup();
    LatencyGroup();
    var gs := GroupsFor(table, ["CPU limit", "Max response time"]);
    assert |gs| == 2 && gs[0] == GroupSummary(table, "CPU limit") && gs[1] == GroupSummary(table, "Max response time");
  }

  /**
   * Two rules on two columns, listed out of name order, on a row that
   * satisfies both: the per-rule summary has two rows sorted by rule name,
   * each at a pass rate of 100.
   */
  method TwoRulesByRule() returns (byRule: seq<RuleSummary>)
    ensures byRule == [RuleSummary("CPU limit", 1, 1, 0, 100.0), RuleSummary("Max response time", 1, 1, 0, 100.0)]
  {
    var engine := new ValidationEngine(BothColumns, [MaxResponseTime, CpuLimit]);
    engine.Run();
    var outcome := engine.BuildResultsDataframe();
    BothColumnsTable();
    outcome := engine.BuildSummaryByRule();
    BothColumnsByRule();
    byRule := engine.summaryByRule.value;
  }

  /** An empty dataset yields an empty table and a summary of zeros. */
  method EmptyDataset() returns (summary: Summary)
    ensures summary == Summary(0, 0, 0, 0.0)
  {
    var engine := new ValidationEngine([], [MaxResponseTime]);
    engine.Run();
    var outcome := engine.BuildResultsDataframe();
    outcome := engine.BuildSummary();
    summary := engine.summary.value;
  }
}
