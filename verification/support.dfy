/**
  The semantics of the frequent-itemset call `apriori(pivot_table.astype(bool),
  min_support=0.01, use_colnames=True)`: support is defined by counting the
  baskets that hold every item of an itemset, and the result is the map from
  each frequent itemset to its support count.
 */
module Support {
  import opened Pivot

  /** The services whose cell in row `i` is truthy (`astype(bool)`). */
  function BasketItems(m: Matrix, i: nat): (items: set<string>)
    requires WellShaped(m) && i < |m.rows|
    ensures forall s :: s in items <==> exists j :: 0 <= j < |m.cols| && m.cols[j] == s && m.cells[i][j] != 0
  {
    set j | 0 <= j < |m.cols| && m.cells[i][j] != 0 :: m.cols[j]
  }

  /**
    In any presence table of records `rs`, the item set of basket row `i` is
    the set of services bought by records with that row's BasketID.
   */
  lemma PresenceBasketItems(rs: seq<Row>, m: Matrix, i: nat)
    requires IsPresenceTable(rs, m) && i < |m.rows|
    ensures BasketItems(m, i) == set k | 0 <= k < |rs| && rs[k].basketId == m.rows[i] :: rs[k].service
  {
    var b := m.rows[i];
    var keys := GroupKeys(rs);
    var bought := set k | 0 <= k < |rs| && rs[k].basketId == b :: rs[k].service;
    forall s | s in BasketItems(m, i)
      ensures s in bought
    {
      var j :| 0 <= j < |m.cols| && m.cols[j] == s && m.cells[i][j] != 0;
      assert HasGroup(rs, b, s);
      var k :| 0 <= k < |keys| && keys[k] == (b, s);
      assert rs[k].basketId == b && rs[k].service == s;
    }
    forall s | s in bought
      ensures s in BasketItems(m, i)
    {
      var k :| 0 <= k < |rs| && rs[k].basketId == b && rs[k].service == s;
      assert s in m.cols;
      var j :| 0 <= j < |m.cols| && m.cols[j] == s;
      assert keys[k] == (b, s);
      assert HasGroup(rs, b, s);
    }
  }

  /** The item set `apriori` sees for a basket row of the script's pivot table. */
  lemma PivotBasketItems(rs: seq<Row>, i: nat)
    requires i < |PivotTable(rs).rows|
    ensures BasketItems(PivotTable(rs), i) ==
      set k | 0 <= k < |rs| && rs[k].basketId == PivotTable(rs).rows[i] :: rs[k].service
  {
    PresenceBasketItems(rs, PivotTable(rs), i);
  }

  /** The table read as one item set per basket row. */
  function Baskets(m: Matrix): (bs: seq<set<string>>)
    requires WellShaped(m)
    ensures |bs| == |m.rows|
    ensures forall i :: 0 <= i < |m.rows| ==> bs[i] == BasketItems(m, i)
  {
    seq(|m.rows|, i requires 0 <= i < |m.rows| => BasketItems(m, i))
  }

  /** The item universe: the table's columns. */
  function Columns(m: Matrix): set<string> {
    set j | 0 <= j < |m.cols| :: m.cols[j]
  }

  /** The indices of the baskets that hold every item of `X`. */
  function Containing(bs: seq<set<string>>, X: set<string>): set<nat> {
    set i | 0 <= i < |bs| && X <= bs[i]
  }

  /** The support count of `X`: the number of baskets holding all of `X`. */
  function SupportCount(bs: seq<set<string>>, X: set<string>): (n: nat)
    ensures n == |Containing(bs, X)|
    ensures n <= |bs|
  {
    if |bs| == 0 then
      assert Containing(bs, X) == {};
      0
    else
      var init := bs[..|bs| - 1];
      var last := |bs| - 1;
      var c := Containing(init, X);
      assert forall i :: 0 <= i < |init| ==> init[i] == bs[i];
      if X <= bs[last] then
        assert Containing(bs, X) == c + {last};
        SupportCount(init, X) + 1
      else
        assert Containing(bs, X) == c;
        SupportCount(init, X)
  }

  /**
    `support >= 0.01` with support = count / total, as an exact ratio. The
    script compares the double count / total with the double 0.01, which lies
    just above 1/100. Every ratio of at least 1/100 rounds to at least that
    double, so whatever meets this test also meets the script's. The converse
    needs a ratio below 1/100 to stay below the rounding midpoint under 0.01,
    i.e. a gap 1 / (100 * total) larger than the margin from 1/100 to that
    midpoint (half an ulp of 0.01, 2^-60, less 0.01 - 1/100: about 6.6e-19);
    that holds for every total below 2^53. With no baskets, 0/0 is NaN and the test fails.
   */
  function MeetsMinSupport(count: nat, total: nat): (ok: bool)
    ensures ok <==> total > 0 && (count as real) >= 0.01 * (total as real)
  {
    total > 0 && 100 * count >= total
  }

  /** Support is anti-monotone: a larger itemset is held by no more baskets. */
  lemma {:induction false} SupportAntiMonotone(bs: seq<set<string>>, A: set<string>, B: set<string>)
    requires A <= B
    ensures SupportCount(bs, B) <= SupportCount(bs, A)
    decreases |bs|
  {
    if |bs| > 0 {
      var init := bs[..|bs| - 1];
      SupportAntiMonotone(init, A, B);
    }
  }

  /** The result of `apriori`: every frequent non-empty itemset of columns, with its count. */
  function FrequentItemsets(m: Matrix): (F: map<set<string>, nat>)
    requires WellShaped(m)
    ensures forall X :: X in F <==>
      X != {} && X <= Columns(m) && MeetsMinSupport(SupportCount(Baskets(m), X), |m.rows|)
    ensures forall X :: X in F ==> F[X] == SupportCount(Baskets(m), X)
  {
    var bs := Baskets(m);
    map X | X <= Columns(m) && X != {} && MeetsMinSupport(SupportCount(bs, X), |bs|) :: SupportCount(bs, X)
  }

  /** Every non-empty part of a frequent itemset is in the map too. */
  ghost predicate DownwardClosed(F: map<set<string>, nat>) {
    forall X, A :: X in F && A <= X && A != {} ==> A in F
  }

  /** The pruning principle of Apriori: parts of a frequent itemset are frequent, with no lower count. */
  lemma FrequentItemsetsDownwardClosed(m: Matrix)
    requires WellShaped(m)
    ensures DownwardClosed(FrequentItemsets(m))
    ensures forall X, A :: X in FrequentItemsets(m) && A <= X && A != {} ==>
      FrequentItemsets(m)[X] <= FrequentItemsets(m)[A]
  {
    var F := FrequentItemsets(m);
    forall X, A | X in F && A <= X && A != {}
      ensures A in F && F[X] <= F[A]
    {
      SupportAntiMonotone(Baskets(m), A, X);
    }
  }

  /** With no baskets nothing is frequent. */
  lemma NoBasketsNoItemsets(m: Matrix)
    requires WellShaped(m) && |m.rows| == 0
    ensures FrequentItemsets(m) == map[]
  {
  }
}
