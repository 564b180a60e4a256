/**
 * Rules and the values they are checked against.
 *
 * The rule module of the repository is not part of this model: a rule is a
 * name, the column it targets, and an opaque `check` standing for its check
 * method. The engine only reads the four fields of a check's outcome.
 */
module Rules {

  /** The outcome of one rule applied to one value. */
  datatype RuleResult = RuleResult(ruleName: string, value: real, threshold: real, passed: bool)

  /** A rule over one named column; `check` is the rule's own comparison. */
  datatype Rule = Rule(name: string, column: string, check: real -> RuleResult)

  /** One row of the dataset: column name to value. */
  type Row = map<string, real>

  /** The dataset: rows in their native order; a row's index is its position. */
  type Dataset = seq<Row>

  /** A rule is applied to a row exactly when the row has the rule's column. */
  predicate Applies(rule: Rule, row: Row)
  {
    rule.column in row
  }

  /** The rule's check on the value the row holds in the rule's column. */
  function Evaluate(rule: Rule, row: Row): RuleResult
    requires Applies(rule, row)
  {
    rule.check(row[rule.column])
  }
}

/** The errors the pipeline stages raise, and the outcome of a stage call. */
module Outcomes {

  datatype EngineError =
    | ValueError(message: string)
    | KeyError(key: string)

  /** What a stage call that only updates state returns: done, or the error it raised. */
  datatype Outcome = Done | Raised(error: EngineError)

  /** What a stage that computes a value returns: the value, or the error it raised. */
  datatype Result<T> = Ok(value: T) | Fail(error: EngineError)

  const NoRawResults := "No raw results available. Run the engine first."
  const NoResults := "Results DataFrame not built. Please build it first."
}
