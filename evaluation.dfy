/**
 * The evaluation stage: every rule is applied to every row whose columns
 * include the rule's column, in rule-list order, and the outcomes are
 * collected per row.
 */
module Evaluation {
  import opened Rules

  /** One entry of the raw results: a row's index and that row's outcomes. */
  datatype RawEntry = RawEntry(rowIndex: nat, results: seq<RuleResult>)

  /** The outcomes of `rules` on one row, in rule order, skipping the rules whose column is absent. */
  function RowResults(row: Row, rules: seq<Rule>): (rs: seq<RuleResult>)
    ensures |rs| <= |rules|
    decreases |rules|
  {
    if |rules| == 0 then []
    else
      var last := rules[|rules| - 1];
      RowResults(row, rules[..|rules| - 1]) + (if Applies(last, row) then [Evaluate(last, row)] else [])
  }

  /** The raw results of a whole dataset: one entry per row, tagged with its position. */
  function RawResults(df: Dataset, rules: seq<Rule>): seq<RawEntry>
  {
    seq(|df|, i requires 0 <= i < |df| => RawEntry(i, RowResults(df[i], rules)))
  }

  /** Evaluating a rule list split in two is evaluating each part, one after the other. */
  lemma {:induction false} RowResultsConcat(row: Row, a: seq<Rule>, b: seq<Rule>)
    ensures RowResults(row, a + b) == RowResults(row, a) + RowResults(row, b)
    decreases |b|
  {
    if |b| == 0 {
      assert a + b == a;
    } else {
      var b' := b[..|b| - 1];
      assert (a + b)[..|a + b| - 1] == a + b';
      assert (a + b)[|a + b| - 1] == b[|b| - 1];
      RowResultsConcat(row, a, b');
    }
  }

  /**
   * Each rule contributes, at its own place in rule order, one outcome when
   * its column is present in the row and nothing when it is absent.
   */
  lemma RuleContribution(row: Row, a: seq<Rule>, r: Rule, b: seq<Rule>)
    ensures RowResults(row, a + [r] + b)
         == RowResults(row, a) + (if Applies(r, row) then [Evaluate(r, row)] else []) + RowResults(row, b)
  {
    RowResultsConcat(row, a + [r], b);
    assert (a + [r])[..|a + [r]| - 1] == a;
  }

  /** `x` is the check of some rule of `rules` whose column the row has. */
  ghost predicate FromPresentColumn(row: Row, rules: seq<Rule>, x: RuleResult)
  {
    exists k :: 0 <= k < |rules| && Applies(rules[k], row) && x == Evaluate(rules[k], row)
  }

  /** Every outcome of a row comes from a rule whose column the row has, checked on that column's value. */
  lemma {:induction false} RowResultsProvenance(row: Row, rules: seq<Rule>)
    ensures forall q :: 0 <= q < |RowResults(row, rules)| ==> FromPresentColumn(row, rules, RowResults(row, rules)[q])
    decreases |rules|
  {
    if |rules| > 0 {
      var n := |rules| - 1;
      var prefix := rules[..n];
      RowResultsProvenance(row, prefix);
      var rs := RowResults(row, rules);
      var ps := RowResults(row, prefix);
      forall q | 0 <= q < |rs|
        ensures FromPresentColumn(row, rules, rs[q])
      {
        if q < |ps| {
          assert FromPresentColumn(row, prefix, ps[q]);
          var k :| 0 <= k < |prefix| && Applies(prefix[k], row) && ps[q] == Evaluate(prefix[k], row);
          assert prefix[k] == rules[k];
          assert rs[q] == ps[q];
        } else {
          assert Applies(rules[n], row) && rs[q] == Evaluate(rules[n], row);
        }
      }
    }
  }

  /** A row that has none of the rules' columns still gets an entry, with an empty list. */
  lemma {:induction false} NoApplicableRule(row: Row, rules: seq<Rule>)
    requires forall k :: 0 <= k < |rules| ==> !Applies(rules[k], row)
    ensures RowResults(row, rules) == []
    decreases |rules|
  {
    if |rules| > 0 {
      NoApplicableRule(row, rules[..|rules| - 1]);
    }
  }

  /** When every rule applies, the row gets exactly one outcome per rule, in rule order. */
  lemma {:induction false} AllRulesApply(row: Row, rules: seq<Rule>)
    requires forall k :: 0 <= k < |rules| ==> Applies(rules[k], row)
    ensures |RowResults(row, rules)| == |rules|
    ensures forall k :: 0 <= k < |rules| ==> RowResults(row, rules)[k] == Evaluate(rules[k], row)
    decreases |rules|
  {
    if |rules| > 0 {
      AllRulesApply(row, rules[..|rules| - 1]);
    }
  }
}
