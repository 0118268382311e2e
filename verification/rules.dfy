/**
  The semantics of `association_rules(frequent_itemsets, metric='support',
  min_threshold=0.01)` and of sorting the resulting rules by lift, descending.
  Metrics are kept as support counts over one common basket total, so
  support = support / total, confidence = support / antecedentSupport and
  lift = support * total / (antecedentSupport * consequentSupport).
 */
module Rules {
  import opened Pivot
  import opened Support

  /** One row of the rules table. */
  datatype Rule = Rule(
    antecedent: set<string>,
    consequent: set<string>,
    support: nat,
    antecedentSupport: nat,
    consequentSupport: nat)

  /** Every split of a frequent itemset into a non-empty antecedent and a non-empty consequent. */
  function CandidateRules(F: map<set<string>, nat>): (R: set<Rule>)
    requires DownwardClosed(F)
    ensures forall r :: r in R ==>
      && r.antecedent != {} && r.consequent != {} && r.antecedent !! r.consequent
      && r.antecedent + r.consequent in F
      && r.support == F[r.antecedent + r.consequent]
      && r.antecedent in F && r.antecedentSupport == F[r.antecedent]
      && r.consequent in F && r.consequentSupport == F[r.consequent]
    ensures forall X, A :: X in F && A <= X && A != {} && X - A != {} ==>
      Rule(A, X - A, F[X], F[A], F[X - A]) in R
  {
    ProperPartsNonEmpty();
    set X, A | X in F && A <= X && A != {} && A != X :: Rule(A, X - A, F[X], F[A], F[X - A])
  }

  lemma ProperPartsNonEmpty()
    ensures forall X: set<string>, A: set<string> :: A <= X && A != X ==> X - A != {} && A + (X - A) == X
  {
    forall X: set<string>, A: set<string> | A <= X && A != X
      ensures X - A != {} && A + (X - A) == X
    {
      var x :| x in X && x !in A;
      assert x in X - A;
    }
  }

  /** The rules whose support meets the 0.01 threshold. */
  function AssociationRules(F: map<set<string>, nat>, total: nat): (R: set<Rule>)
    requires DownwardClosed(F)
    ensures forall r :: r in R <==> r in CandidateRules(F) && MeetsMinSupport(r.support, total)
  {
    set r | r in CandidateRules(F) && MeetsMinSupport(r.support, total)
  }

  /**
    Filtering on support with the threshold `apriori` already applied drops
    nothing: every candidate rule's support is that of a frequent itemset.
   */
  lemma SupportFilterKeepsAll(F: map<set<string>, nat>, total: nat)
    requires DownwardClosed(F)
    requires forall X :: X in F ==> MeetsMinSupport(F[X], total)
    ensures AssociationRules(F, total) == CandidateRules(F)
  {
  }

  predicate LiftDefined(r: Rule) {
    r.antecedentSupport > 0 && r.consequentSupport > 0
  }

  /**
    `F` maps each of its itemsets to its support count over baskets `bs`, and
    each of those counts meets the threshold: what `apriori` hands on.
   */
  ghost predicate CountsOver(F: map<set<string>, nat>, bs: seq<set<string>>) {
    forall X :: X in F ==> F[X] == SupportCount(bs, X) && MeetsMinSupport(F[X], |bs|)
  }

  /**
    The metrics of every rule drawn from frequent itemsets: support meets the
    threshold, confidence lies in (0, 1], and the rule's support is at most
    that of either side, so lift is defined and positive.
   */
  lemma RuleMetricBounds(bs: seq<set<string>>, F: map<set<string>, nat>, r: Rule)
    requires DownwardClosed(F) && CountsOver(F, bs)
    requires r in AssociationRules(F, |bs|)
    ensures MeetsMinSupport(r.support, |bs|)
    ensures 0 < r.support <= r.antecedentSupport
    ensures r.support <= r.consequentSupport
    ensures LiftDefined(r)
  {
    var X := r.antecedent + r.consequent;
    SupportAntiMonotone(bs, r.antecedent, X);
    SupportAntiMonotone(bs, r.consequent, X);
  }

  /**
    mlxtend's lift for a table of `total` baskets: the confidence
    (support / antecedent support) divided by the consequent's support, with
    every support a fraction of `total`.
   */
  function Lift(r: Rule, total: nat): real
    requires total > 0 && LiftDefined(r)
  {
    var n := total as real;
    ((r.support as real / n) / (r.antecedentSupport as real / n)) / (r.consequentSupport as real / n)
  }

  /** Lift divided by the basket total: the rule's count over the product of its sides' counts. */
  function LiftPerBasket(r: Rule): real
    requires LiftDefined(r)
  {
    r.support as real / ((r.antecedentSupport * r.consequentSupport) as real)
  }

  /** Lift grows in proportion to the basket total, so the total does not change the order. */
  lemma LiftScales(r: Rule, total: nat)
    requires total > 0 && LiftDefined(r)
    ensures Lift(r, total) == (total as real) * LiftPerBasket(r)
  {
    var n := total as real;
    var s, a, c := r.support as real, r.antecedentSupport as real, r.consequentSupport as real;
    assert (s / n) / (a / n) == s / a;
    assert (s / a) / (c / n) == n * (s / (a * c));
    assert (r.antecedentSupport * r.consequentSupport) as real == a * c;
  }

  /** Comparing two fractions with positive denominators by cross-multiplying. */
  lemma CrossMultiply(s1: nat, p1: nat, s2: nat, p2: nat)
    requires p1 > 0 && p2 > 0
    ensures s1 * p2 >= s2 * p1 <==> (s1 as real) / (p1 as real) >= (s2 as real) / (p2 as real)
  {
    var x, y := s1 as real / p1 as real, s2 as real / p2 as real;
    assert x * (p1 as real) == s1 as real;
    assert y * (p2 as real) == s2 as real;
    assert (s1 * p2) as real == x * ((p1 * p2) as real);
    assert (s2 * p1) as real == y * ((p1 * p2) as real);
  }

  /** lift(a) >= lift(b), compared exactly by cross-multiplying (the common total cancels). */
  predicate LiftAtLeast(a: Rule, b: Rule): (atLeast: bool)
    ensures LiftDefined(a) && LiftDefined(b) ==> (atLeast <==> LiftPerBasket(a) >= LiftPerBasket(b))
  {
    var pa, pb := a.antecedentSupport * a.consequentSupport, b.antecedentSupport * b.consequentSupport;
    if pa > 0 && pb > 0 then
      CrossMultiply(a.support, pa, b.support, pb);
      a.support * pb >= b.support * pa
    else
      a.support * pb >= b.support * pa
  }

  /** The exact comparison orders rules as their lifts do, for any number of baskets. */
  lemma LiftOrder(a: Rule, b: Rule, total: nat)
    requires total > 0 && LiftDefined(a) && LiftDefined(b)
    ensures LiftAtLeast(a, b) <==> Lift(a, total) >= Lift(b, total)
  {
    var n, la, lb := total as real, LiftPerBasket(a), LiftPerBasket(b);
    LiftScales(a, total);
    LiftScales(b, total);
    ScaleOrder(n, la, lb, Lift(a, total), Lift(b, total));
  }

  lemma ScaleOrder(n: real, x: real, y: real, nx: real, ny: real)
    requires n > 0.0 && nx == n * x && ny == n * y
    ensures nx >= ny <==> x >= y
  {
    assert nx - ny == n * (x - y);
  }

  lemma LiftAtLeastTransitive(a: Rule, b: Rule, c: Rule)
    requires LiftDefined(a) && LiftDefined(b) && LiftDefined(c)
    requires LiftAtLeast(a, b) && LiftAtLeast(b, c)
    ensures LiftAtLeast(a, c)
  {
  }

  predicate AllLiftDefined(rs: seq<Rule>) {
    forall i :: 0 <= i < |rs| ==> LiftDefined(rs[i])
  }

  /** Lift never increases from the front of the sequence to the back. */
  predicate LiftNonIncreasing(rs: seq<Rule>) {
    forall i, j :: 0 <= i < j < |rs| ==> LiftAtLeast(rs[i], rs[j])
  }

  lemma LiftAtLeastTotal(a: Rule, b: Rule)
    ensures LiftAtLeast(a, b) || LiftAtLeast(b, a)
  {
  }

  /** A rule at least as lifted as the head of a sorted sequence is at least as lifted as all of it. */
  lemma DominatesHead(r: Rule, rs: seq<Rule>)
    requires LiftDefined(r) && AllLiftDefined(rs) && LiftNonIncreasing(rs)
    requires |rs| > 0 && LiftAtLeast(r, rs[0])
    ensures forall j :: 0 <= j < |rs| ==> LiftAtLeast(r, rs[j])
  {
    forall j | 0 < j < |rs|
      ensures LiftAtLeast(r, rs[j])
    {
      LiftAtLeastTransitive(r, rs[0], rs[j]);
    }
  }

  lemma PrependSorted(x: Rule, rs: seq<Rule>)
    requires LiftNonIncreasing(rs)
    requires forall j :: 0 <= j < |rs| ==> LiftAtLeast(x, rs[j])
    ensures LiftNonIncreasing([x] + rs)
  {
    var out := [x] + rs;
    forall i, j | 0 <= i < j < |out|
      ensures LiftAtLeast(out[i], out[j])
    {
      assert out[j] == rs[j - 1];
      if i > 0 {
        assert out[i] == rs[i - 1];
      }
    }
  }

  /** Every rule of `tail` came from `rest` or is `r`, each dominated by `head`. */
  lemma DominatesPermutation(head: Rule, r: Rule, rest: seq<Rule>, tail: seq<Rule>)
    requires LiftAtLeast(head, r)
    requires forall j :: 0 <= j < |rest| ==> LiftAtLeast(head, rest[j])
    requires multiset(tail) == multiset(rest) + multiset{r}
    ensures forall j :: 0 <= j < |tail| ==> LiftAtLeast(head, tail[j])
  {
    forall j | 0 <= j < |tail|
      ensures LiftAtLeast(head, tail[j])
    {
      assert tail[j] in multiset(tail);
      if tail[j] != r {
        assert tail[j] in multiset(rest);
        var k :| 0 <= k < |rest| && rest[k] == tail[j];
      }
    }
  }

  lemma DefinedPermutation(r: Rule, rest: seq<Rule>, out: seq<Rule>)
    requires LiftDefined(r) && AllLiftDefined(rest)
    requires multiset(out) == multiset(rest) + multiset{r}
    ensures AllLiftDefined(out)
  {
    forall j | 0 <= j < |out|
      ensures LiftDefined(out[j])
    {
      assert out[j] in multiset(out);
      if out[j] != r {
        assert out[j] in multiset(rest);
        var k :| 0 <= k < |rest| && rest[k] == out[j];
      }
    }
  }

  function InsertByLift(r: Rule, rs: seq<Rule>): (out: seq<Rule>)
    requires LiftDefined(r) && AllLiftDefined(rs) && LiftNonIncreasing(rs)
    ensures multiset(out) == multiset(rs) + multiset{r}
    ensures AllLiftDefined(out) && LiftNonIncreasing(out)
  {
    if |rs| == 0 then [r]
    else if LiftAtLeast(r, rs[0]) then
      DominatesHead(r, rs);
      PrependSorted(r, rs);
      DefinedPermutation(r, rs, [r] + rs);
      [r] + rs
    else
      LiftAtLeastTotal(r, rs[0]);
      var rest := rs[1..];
      assert rs == [rs[0]] + rest;
      var tail := InsertByLift(r, rest);
      PrependSorted(rs[0], rest);
      DominatesPermutation(rs[0], r, rest, tail);
      PrependSorted(rs[0], tail);
      DefinedPermutation(r, rs, [rs[0]] + tail);
      [rs[0]] + tail
  }

  /** `sort_values(by='lift', ascending=False)`: a permutation with lift non-increasing. */
  function SortByLift(rs: seq<Rule>): (out: seq<Rule>)
    requires AllLiftDefined(rs)
    ensures multiset(out) == multiset(rs)
    ensures AllLiftDefined(out) && LiftNonIncreasing(out)
  {
    if |rs| == 0 then []
    else
      assert rs == [rs[0]] + rs[1..];
      InsertByLift(rs[0], SortByLift(rs[1..]))
  }
}
