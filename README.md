# Validation engine model

This project models the validation pipeline of the `data-validation` repository, the class
`ValidationEngine` in `validator/src/engine.py`. The pipeline checks a table of observations
against threshold rules in four stages:

1. **run** applies every rule to every row whose columns include the rule's column. It collects
   the outcomes per row.
2. **build_results_dataframe** flattens those outcomes into a results table. The table has one
   record per (row, rule) outcome, and each record has a `PASS`/`FAIL` status.
3. **build_summary** computes the total, passed and failed counts and the pass rate.
4. **build_summary_by_rule** computes the same statistics for each rule name, sorted by name.

Each stage stores its output in a field of the engine that starts empty. A stage whose input field
is still empty raises `ValueError` and changes nothing.

Layout:

- `rules.dfy`: module `Rules` holds rules, rule outcomes, rows and datasets. Module `Outcomes`
  holds the errors a stage raises.
- `evaluation.dfy`: module `Evaluation` specifies the evaluation stage (`RowResults`, `RawResults`).
- `results.dfy`: module `ResultsTable` holds records, status, and the flattening (`Flatten`).
- `summary.dfy`: module `Summaries` holds pass counting, the pass rate and the overall summary.
- `lexorder.dfy`: module `LexOrder` defines the string order used to sort the groups.
- `byrule.dfy`: module `RuleSummaries` defines the grouping by rule name and its statistics.
- `engine.dfy`: module `Engine` holds the class `ValidationEngine`. It has one `Option` field per
  stage and one method per stage. Each method is proved against the specification functions above.
- `scenarios.dfy`: module `Scenarios` runs the whole pipeline through the class on two small
  datasets.

Modelling choices:

- The dataset is a sequence of rows. A row is a map from column name to value. A row's index is
  its position in the sequence.
- Values and thresholds are `real`. The pass rate is an exact `real` percentage.
- A stage that raises returns `Raised(ValueError(message))` and leaves every field unchanged, as
  the exception in the source leaves the object unchanged. A stage that succeeds returns `Done`.
- DataFrames are sequences of records. Pandas' sum of a boolean column becomes `CountPassed`.
  Pandas' `groupby` becomes `GroupByRule`. Groups are sorted by code-point lexicographic order
  (`LexOrder.LexLess`), which is the order Python's string comparison gives.

## Model

| member | source | states |
|---|---|---|
| `Engine.ValidationEngine.constructor` | validator/src/engine.py:6-13 | The engine keeps the dataset and the rules, and all four stage fields start empty. |
| `Engine.ValidationEngine.Run` | validator/src/engine.py:15-29 | The raw results get exactly one entry per dataset row, in row order, tagged with the row's position. Entry `i` holds `RowResults(df[i], rules)`. Nothing else changes: dataset, rules, results and both summaries keep their values. |
| `Engine.ValidationEngine.BuildResultsDataframe` | validator/src/engine.py:32-51 | Raises "No raw results available" and changes nothing when `run` has not happened. Otherwise the results table becomes `Flatten(raw results)`, and only that field changes. |
| `Engine.ValidationEngine.BuildSummary` | validator/src/engine.py:54-70 | Raises and changes nothing when the table is missing. Otherwise the summary becomes `Summarize(table)`, and only that field changes. The table is left alone, so a second call stores the same summary. |
| `Engine.ValidationEngine.BuildSummaryByRule` | validator/src/engine.py:72-87 | Raises and changes nothing when the table is missing. Otherwise the per-rule summary becomes `GroupByRule(table)`, and only that field changes. |
| `Evaluation.RowResults` | validator/src/engine.py:21-25 | A row gets at most one outcome per rule. |
| `Evaluation.RowResultsConcat` | validator/src/engine.py:21-25 | Evaluating a rule list made of two parts gives the first part's outcomes followed by the second part's, so outcomes follow rule-list order. |
| `Evaluation.RuleContribution` | validator/src/engine.py:21-25 | Each rule contributes at its own place in rule order. It contributes exactly `check(row[column])` when the row has its column, and nothing when the column is absent. |
| `Evaluation.RowResultsProvenance` | validator/src/engine.py:22-25 | Every outcome of a row is the check of a rule whose column that row has, applied to that column's value. |
| `Evaluation.NoApplicableRule` | validator/src/engine.py:19-27 | A row with none of the rules' columns gets an empty list. Its entry is still present. |
| `Evaluation.AllRulesApply` | validator/src/engine.py:21-25 | When every rule's column is present, the row gets exactly one outcome per rule, and outcome `k` is rule `k`'s check. |
| `ResultsTable.StatusOf` | validator/src/engine.py:49 | Status is `"PASS"` if and only if the check passed, and `"FAIL"` if and only if it did not. |
| `ResultsTable.ToRecord` | validator/src/engine.py:40-46 | A record copies the row index and the outcome's rule name, value, threshold and passed flag. Its status is `"PASS"` exactly when it passed. |
| `ResultsTable.Flatten` | validator/src/engine.py:38-46 | The table's length is the total number of outcomes in the raw results. |
| `ResultsTable.FlattenStatus` | validator/src/engine.py:49 | Every record of the table has status `"PASS"` exactly when it passed, and `"FAIL"` exactly when it did not. |
| `ResultsTable.FlattenConcat` | validator/src/engine.py:38-46 | Flattening preserves entry order: the table of `a + b` is the table of `a` followed by the table of `b`. |
| `ResultsTable.FlattenMembership` | validator/src/engine.py:38-46 | A record is in the table if and only if it copies some outcome of some raw entry. |
| `ResultsTable.RecordsComeFromPresentColumns` | validator/src/engine.py:18-46 | Over the whole pipeline, every record is the check of a rule `k` on a row `i` that has rule `k`'s column, tagged with `i`. |
| `ResultsTable.PresentColumnsGiveRecords` | validator/src/engine.py:18-46 | Conversely, every rule `k` whose column row `i` has puts its check on that row's value into the table, tagged with `i`. Together with the previous row: a (row, rule) pair yields a record if and only if the row has the rule's column. |
| `ResultsTable.BuildResultsAsWritten` | validator/src/engine.py:48-49 | The source as written: it raises `KeyError("passed")` exactly when there are no outcomes, and otherwise gives the flattened table. |
| `ResultsTable.AsWrittenRaisesOnEmptyDataset` | validator/src/engine.py:48-49 | For an empty dataset the as-written stage raises, although the flattened table (empty) is well defined. |
| `ResultsTable.AsWrittenRaisesWhenNoRuleApplies` | validator/src/engine.py:48-49 | The same holds when no row has any rule's column. |
| `Summaries.CountPassed` | validator/src/engine.py:61 | The pass count never exceeds the number of records. |
| `Summaries.PassedPlusFailed` | validator/src/engine.py:60-62 | Passed records plus failed records, counted independently, are all the records. |
| `Summaries.CountPassedConcat` | validator/src/engine.py:61 | The pass count of a table made of two parts is the sum of the parts' counts. |
| `Summaries.AllPassed` | validator/src/engine.py:61 | The pass count equals the record count if and only if every record passed. |
| `Summaries.NonePassed` | validator/src/engine.py:61 | The pass count is zero if and only if no record passed. |
| `Summaries.PassRate` | validator/src/engine.py:63 | The rate is 0 when there are no checks. Otherwise rate times total equals passed times 100. It lies in [0, 100] whenever passed does not exceed total. |
| `Summaries.Summarize` | validator/src/engine.py:59-70 | The total is the record count and passed is the pass count. Passed plus failed is the total and all counts are non-negative. The rate is `PassRate(passed, total)`, that is passed × 100 / total for a non-empty table, and it lies in [0, 100]. An empty table gives 0/0/0/0. |
| `Summaries.SummaryCountsFailures` | validator/src/engine.py:62 | The failed count is the number of records that did not pass. |
| `LexOrder.LexIrreflexive` | validator/src/engine.py:76 | No name sorts before itself. |
| `LexOrder.LexTransitive` | validator/src/engine.py:76 | The name order is transitive. |
| `LexOrder.LexTotal` | validator/src/engine.py:76 | Two names are different if and only if one sorts before the other, and never both ways. |
| `LexOrder.InsertSorted` | validator/src/engine.py:76 | Inserting a name gives exactly the old names plus the new one. |
| `LexOrder.InsertSortedKeepsOrder` | validator/src/engine.py:76 | Inserting into a strictly sorted list keeps it strictly sorted, so there are no repeated names. |
| `RuleSummaries.ForRule` | validator/src/engine.py:76 | A rule's group is no larger than the table. |
| `RuleSummaries.ForRuleMembership` | validator/src/engine.py:76 | A record is in the group of `name` if and only if it is in the table and has that rule name. |
| `RuleSummaries.RuleNames` | validator/src/engine.py:76-79 | The group keys are strictly sorted, and a name is a key if and only if some record has it. |
| `RuleSummaries.GroupSummary` | validator/src/engine.py:76-86 | A group's total is the size of its group and its passed count is the group's pass count. Passed plus failed is the total and failed is non-negative. The rate is `PassRate(passed, total)` of the group's own counts, it lies in [0, 100], and it is 0 for an empty group. |
| `RuleSummaries.GroupsFor` | validator/src/engine.py:76-87 | There is one summary per key, in key order, each the `GroupSummary` of its key. |
| `RuleSummaries.GroupByRuleShape` | validator/src/engine.py:76-87 | There is one row per distinct rule name present in the table, strictly sorted by name. A name has a row if and only if some record has it. Every row has a positive total, and its counts are those of its own records. |
| `RuleSummaries.GroupsAddUp` | validator/src/engine.py:76-79 | For any sorted list of distinct names covering the table, the group totals sum to the record count and the group pass counts sum to the overall pass count. |
| `RuleSummaries.GroupTotalsMatchSummary` | validator/src/engine.py:76-79 | The per-rule totals and pass counts sum to the overall summary's totals and pass count. |
| `Scenarios.MixedRows` | validator/src/engine.py:15-70 | This run uses the model's per-row columns, where two of four rows lack the column altogether. It is not a DataFrame run of the source (see "## Left out"). The summary stage raises before the table is built. After the full pipeline there are 4 raw entries, 2 records (one pass, one fail), and the summary is 2/1/1/50. |
| `Scenarios.TwoRulesByRule` | validator/src/engine.py:72-87 | Two rules on two columns, listed out of name order, run on a row that satisfies both. The per-rule summary has two rows sorted by rule name, each 1/1/0 with a pass rate of 100. |
| `Scenarios.EmptyDataset` | validator/src/engine.py:54-70 | An empty dataset runs through the model's pipeline to the summary 0/0/0/0. |

## Left out

- The rule module (`rule.py`) is not part of this model. A rule is its name, its column and an
  opaque `check` function from a value to an outcome. Comparator semantics, comparator validation
  and incomparable values are not modelled. The `AtMost` rule in `Scenarios` is an illustration.
- `validator/src/main.py` is demonstration code that prints two checks. It is not modelled.
- Pandas and numpy themselves (`DataFrame`, `iterrows`, `np.where`, `groupby(...).agg`,
  `reset_index`) are not modelled. Sequences of records and counting functions stand in for them.
- Floating-point arithmetic is not modelled: the pass rate is an exact `real`. The source's integer
  `0` for an empty table is the real `0.0` here.
- Pandas index labels are not modelled. A row's index is its position, as it is for a default
  `RangeIndex`.
- Missing cells are not modelled. In a pandas DataFrame every row has the same columns, and a
  missing cell holds NaN. The test at engine.py:22 looks at the row's column labels, so the source
  calls `rule.check(NaN)` on such a cell and records the outcome. In the model a row's map has its
  own keys, and a key missing from a row's map skips the rule for that row. That matches the source
  only when the column is missing from the whole frame. So the two rows of `Scenarios.MixedRows`
  that lack `latency` stand for rows without that column, not for NaN cells. A DataFrame built from
  those four rows would give 4 records in the source, not 2.
- The `isinstance(self.results, pd.DataFrame)` test at engine.py:73 is not modelled separately: the
  results field can only hold a table.
- Python exceptions become `Outcome` values. A stage that raises leaves the engine unchanged;
  callers are not forced to stop.

## Findings

| source | as written | input that shows it | evidently intended | confidence | as-written member | corrected member |
|---|---|---|---|---|---|---|
| validator/src/engine.py:48-49 | `pd.DataFrame(rows)` with no rows has no `"passed"` column, so deriving `status` raises `KeyError` | an empty dataset, or rows that have none of the rules' columns | an empty but present results table, which then summarises to 0/0/0/0 through the zero guard of engine.py:63 | high; not executed | `ResultsTable.AsWrittenRaisesOnEmptyDataset` | `Engine.ValidationEngine.BuildResultsDataframe` |

The model's `BuildResultsDataframe` implements the intended behaviour. With no outcomes it stores an
empty table. `Scenarios.EmptyDataset` proves that an empty dataset then gives the summary 0/0/0/0.
