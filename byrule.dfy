/**
 * The per-rule summary: the results table grouped by rule name, one group
 * per distinct name, groups sorted by name.
 */
module RuleSummaries {
  import opened ResultsTable
  import opened Summaries
  import opened LexOrder

  datatype RuleSummary = RuleSummary(ruleName: string, totalChecks: nat, passedChecks: nat, failedChecks: int, passRate: real)

  /** The records of rule `name`, in table order. */
  function ForRule(recs: seq<Record>, name: string): (g: seq<Record>)
    ensures |g| <= |recs|
    decreases |recs|
  {
    if |recs| == 0 then []
    else
      var last := recs[|recs| - 1];
      ForRule(recs[..|recs| - 1], name) + (if last.ruleName == name then [last] else [])
  }

  /** The group of `name` holds exactly the records with that name. */
  lemma {:induction false} ForRuleMembership(recs: seq<Record>, name: string, rec: Record)
    ensures rec in ForRule(recs, name) <==> rec in recs && rec.ruleName == name
    decreases |recs|
  {
    if |recs| > 0 {
      var prefix := recs[..|recs| - 1];
      ForRuleMembership(prefix, name, rec);
      assert recs == prefix + [recs[|recs| - 1]];
    }
  }

  /** `name` is the rule name of some record. */
  ghost predicate NameOccurs(recs: seq<Record>, name: string)
  {
    exists p :: 0 <= p < |recs| && recs[p].ruleName == name
  }

  /** The distinct rule names of the table, sorted. */
  function RuleNames(recs: seq<Record>): (names: seq<string>)
    ensures StrictlySorted(names)
    ensures forall name :: name in names <==> NameOccurs(recs, name)
    decreases |recs|
  {
    if |recs| == 0 then []
    else
      var prefix := recs[..|recs| - 1];
      var last := recs[|recs| - 1];
      var before := RuleNames(prefix);
      InsertSortedKeepsOrder(before, last.ruleName);
      assert forall name :: NameOccurs(recs, name) <==> NameOccurs(prefix, name) || name == last.ruleName by {
        forall name ensures NameOccurs(recs, name) <==> NameOccurs(prefix, name) || name == last.ruleName {
          if NameOccurs(prefix, name) {
            var p :| 0 <= p < |prefix| && prefix[p].ruleName == name;
            assert recs[p] == prefix[p];
          }
          if NameOccurs(recs, name) && name != last.ruleName {
            var p :| 0 <= p < |recs| && recs[p].ruleName == name;
            assert prefix[p] == recs[p];
          }
        }
      }
      InsertSorted(before, last.ruleName)
  }

  /** The statistics of the group of `name`. */
  function GroupSummary(recs: seq<Record>, name: string): (g: RuleSummary)
    ensures g.ruleName == name
    ensures g.totalChecks == |ForRule(recs, name)| && g.passedChecks == CountPassed(ForRule(recs, name))
    ensures g.passedChecks + g.failedChecks == g.totalChecks && 0 <= g.failedChecks
    ensures g.passRate == PassRate(g.passedChecks, g.totalChecks)
    ensures 0.0 <= g.passRate <= 100.0
    ensures g.totalChecks == 0 ==> g.passRate == 0.0
  {
    var group := ForRule(recs, name);
    var total := |group|;
    var passed := CountPassed(group);
    RuleSummary(name, total, passed, total - passed, PassRate(passed, total))
  }

  /** One summary per name of `names`, in the order of `names`. */
  function GroupsFor(recs: seq<Record>, names: seq<string>): (gs: seq<RuleSummary>)
    ensures |gs| == |names|
    ensures forall i :: 0 <= i < |names| ==> gs[i] == GroupSummary(recs, names[i])
    decreases |names|
  {
    if |names| == 0 then []
    else GroupsFor(recs, names[..|names| - 1]) + [GroupSummary(recs, names[|names| - 1])]
  }

  /** The per-rule summary table. */
  function GroupByRule(recs: seq<Record>): seq<RuleSummary>
  {
    GroupsFor(recs, RuleNames(recs))
  }

  /**
   * One group per distinct rule name present in the table, sorted by name;
   * every group is non-empty and its counts are those of its records.
   */
  lemma GroupByRuleShape(recs: seq<Record>)
    ensures forall i, j :: 0 <= i < j < |GroupByRule(recs)| ==> LexLess(GroupByRule(recs)[i].ruleName, GroupByRule(recs)[j].ruleName)
    ensures forall name :: (exists i :: 0 <= i < |GroupByRule(recs)| && GroupByRule(recs)[i].ruleName == name) <==> NameOccurs(recs, name)
    ensures forall i :: 0 <= i < |GroupByRule(recs)| ==>
              var g := GroupByRule(recs)[i];
              g.totalChecks > 0 && g.totalChecks == |ForRule(recs, g.ruleName)| && g.passedChecks == CountPassed(ForRule(recs, g.ruleName))
              && g.passedChecks + g.failedChecks == g.totalChecks && 0.0 <= g.passRate <= 100.0
  {
    var names := RuleNames(recs);
    var gs := GroupByRule(recs);
    forall name ensures (exists i :: 0 <= i < |gs| && gs[i].ruleName == name) <==> NameOccurs(recs, name) {
      if NameOccurs(recs, name) {
        var i :| 0 <= i < |names| && names[i] == name;
        assert gs[i].ruleName == name;
      }
    }
    forall i | 0 <= i < |gs| ensures gs[i].totalChecks > 0 {
      assert names[i] in names;
      var p :| 0 <= p < |recs| && recs[p].ruleName == names[i];
      ForRuleMembership(recs, names[i], recs[p]);
    }
  }

  /** The sum of the groups' totals. */
  function SumTotals(gs: seq<RuleSummary>): nat
    decreases |gs|
  {
    if |gs| == 0 then 0 else SumTotals(gs[..|gs| - 1]) + gs[|gs| - 1].totalChecks
  }

  /** The sum of the groups' pass counts. */
  function SumPassed(gs: seq<RuleSummary>): nat
    decreases |gs|
  {
    if |gs| == 0 then 0 else SumPassed(gs[..|gs| - 1]) + gs[|gs| - 1].passedChecks
  }

  /** How many times `x` is in `names`. */
  function Occurrences(names: seq<string>, x: string): nat
    decreases |names|
  {
    if |names| == 0 then 0 else Occurrences(names[..|names| - 1], x) + (if names[|names| - 1] == x then 1 else 0)
  }

  lemma {:induction false} OccursOnce(names: seq<string>, x: string)
    requires StrictlySorted(names)
    ensures Occurrences(names, x) == (if x in names then 1 else 0)
    decreases |names|
  {
    if |names| > 0 {
      var n := |names| - 1;
      var prefix := names[..n];
      assert StrictlySorted(prefix);
      OccursOnce(prefix, x);
      if names[n] == x {
        forall i | 0 <= i < n ensures prefix[i] != x {
          assert LexLess(names[i], names[n]);
          LexIrreflexive(x);
        }
      }
      assert names == prefix + [names[n]];
    }
  }

  /** The sum, over `names`, of the sizes of their groups. */
  function NameTotal(recs: seq<Record>, names: seq<string>): nat
    decreases |names|
  {
    if |names| == 0 then 0 else NameTotal(recs, names[..|names| - 1]) + |ForRule(recs, names[|names| - 1])|
  }

  /** The sum, over `names`, of the pass counts of their groups. */
  function NamePassed(recs: seq<Record>, names: seq<string>): nat
    decreases |names|
  {
    if |names| == 0 then 0 else NamePassed(recs, names[..|names| - 1]) + CountPassed(ForRule(recs, names[|names| - 1]))
  }

  lemma {:induction false} GroupSumsByName(recs: seq<Record>, names: seq<string>)
    ensures SumTotals(GroupsFor(recs, names)) == NameTotal(recs, names)
    ensures SumPassed(GroupsFor(recs, names)) == NamePassed(recs, names)
    decreases |names|
  {
    if |names| > 0 {
      var gs := GroupsFor(recs, names);
      GroupSumsByName(recs, names[..|names| - 1]);
      assert gs[..|gs| - 1] == GroupsFor(recs, names[..|names| - 1]);
    }
  }

  /** Appending a record extends the group of its name only. */
  lemma ForRuleAppend(recs: seq<Record>, r: Record, m: string)
    ensures ForRule(recs + [r], m) == ForRule(recs, m) + (if r.ruleName == m then [r] else [])
    ensures CountPassed(ForRule(recs + [r], m)) == CountPassed(ForRule(recs, m)) + (if r.ruleName == m && r.passed then 1 else 0)
  {
    assert (recs + [r])[..|recs|] == recs;
    var g := ForRule(recs, m);
    if r.ruleName == m {
      assert (g + [r])[..|g|] == g;
      assert CountPassed(g + [r]) == CountPassed(g) + (if r.passed then 1 else 0);
    } else {
      assert g + [] == g;
    }
  }

  lemma {:induction false} NamesOfEmptyTable(names: seq<string>)
    ensures NameTotal([], names) == 0 && NamePassed([], names) == 0
    decreases |names|
  {
    if |names| > 0 {
      NamesOfEmptyTable(names[..|names| - 1]);
    }
  }

  /** Appending record `r` adds one to the total, and one pass if it passed, for each listing of its name. */
  lemma {:induction false} NameSumsStep(recs: seq<Record>, r: Record, names: seq<string>)
    ensures NameTotal(recs + [r], names) == NameTotal(recs, names) + Occurrences(names, r.ruleName)
    ensures NamePassed(recs + [r], names) == NamePassed(recs, names) + (if r.passed then Occurrences(names, r.ruleName) else 0)
    decreases |names|
  {
    if |names| > 0 {
      NameSumsStep(recs, r, names[..|names| - 1]);
      ForRuleAppend(recs, r, names[|names| - 1]);
    }
  }

  /** Every record's rule name is listed in `names`. */
  ghost predicate Covers(names: seq<string>, recs: seq<Record>)
  {
    forall p :: 0 <= p < |recs| ==> recs[p].ruleName in names
  }

  /** For a sorted list of distinct names covering the table, the group sums are the table's counts. */
  lemma {:induction false} GroupsAddUp(recs: seq<Record>, names: seq<string>)
    requires StrictlySorted(names)
    requires Covers(names, recs)
    ensures NameTotal(recs, names) == |recs|
    ensures NamePassed(recs, names) == CountPassed(recs)
    decreases |recs|
  {
    if |recs| == 0 {
      NamesOfEmptyTable(names);
    } else {
      var n := |recs| - 1;
      var prefix := recs[..n];
      var r := recs[n];
      assert Covers(names, prefix) by {
        forall p | 0 <= p < |prefix| ensures prefix[p].ruleName in names {
          assert prefix[p] == recs[p];
        }
      }
      GroupsAddUp(prefix, names);
      assert recs == prefix + [r];
      NameSumsStep(prefix, r, names);
      assert r.ruleName in names;
      OccursOnce(names, r.ruleName);
      assert NameTotal(recs, names) == |prefix| + 1;
      assert CountPassed(recs) == CountPassed(prefix) + (if r.passed then 1 else 0);
    }
  }

  /** The per-rule totals and pass counts add up to the overall summary's. */
  lemma GroupTotalsMatchSummary(recs: seq<Record>)
    ensures SumTotals(GroupByRule(recs)) == Summarize(recs).totalChecks
    ensures SumPassed(GroupByRule(recs)) == Summarize(recs).passedChecks
  {
    var names := RuleNames(recs);
    assert Covers(names, recs) by {
      forall p | 0 <= p < |recs| ensures recs[p].ruleName in names {
        assert NameOccurs(recs, recs[p].ruleName);
      }
    }
    GroupsAddUp(recs, names);
    GroupSumsByName(recs, names);
  }
}
