/**
  The driving script end to end: records -> pivot table -> frequent itemsets
  -> association rules -> rules sorted by lift.
 */
module Pipeline {
  import opened Wrappers
  import opened Pivot
  import opened Support
  import opened Rules

  /** Lays a rule set out as a table: each rule exactly once, in some order. */
  method RuleTable(R: set<Rule>) returns (rows: seq<Rule>)
    ensures forall r :: r in rows <==> r in R
    ensures |rows| == |R|
  {
    rows := [];
    var rest := R;
    while rest != {}
      invariant forall r :: r in R <==> r in rows || r in rest
      invariant forall r :: r in rows ==> r !in rest
      invariant |rows| + |rest| == |R|
      decreases |rest|
    {
      var r :| r in rest;
      rows := rows + [r];
      rest := rest - {r};
    }
  }

  /**
    `sorted_rules` for a list of purchase records: exactly the rules of
    `association_rules`, each once, every lift defined and non-increasing. When `apriori`
    finds no frequent itemset (no records at all, say), `association_rules`
    raises ValueError on the empty frame and the script stops: `None`.
   */
  method SortedRules(records: seq<Record>) returns (result: Option<seq<Rule>>)
    ensures var m := PivotTable(PrepareAll(records));
      result.None? <==> FrequentItemsets(m) == map[]
    ensures var m := PivotTable(PrepareAll(records));
      result.Some? ==>
      && DownwardClosed(FrequentItemsets(m))
      && (forall r :: r in result.value <==> r in AssociationRules(FrequentItemsets(m), |m.rows|))
      && |result.value| == |AssociationRules(FrequentItemsets(m), |m.rows|)|
      && AssociationRules(FrequentItemsets(m), |m.rows|) == CandidateRules(FrequentItemsets(m))
      && AllLiftDefined(result.value) && LiftNonIncreasing(result.value)
  {
    var m := PivotTable(PrepareAll(records));
    var frequent := FrequentItemsets(m);
    if frequent == map[] {
      return None;
    }
    FrequentItemsetsDownwardClosed(m);
    SupportFilterKeepsAll(frequent, |m.rows|);
    var rules := AssociationRules(frequent, |m.rows|);
    var table := RuleTable(rules);
    forall i | 0 <= i < |table|
      ensures LiftDefined(table[i])
    {
      RuleMetricBounds(Baskets(m), frequent, table[i]);
    }
    var sorted := SortByLift(table);
    assert forall r :: r in sorted <==> r in multiset(table);
    result := Some(sorted);
  }
}
