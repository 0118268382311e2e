/** Worked case: the example customer 7256 from the script's comments, through to the pivot table. */
module Examples {
  import opened Decimal
  import opened Keys
  import opened Labels
  import opened Pivot
  import opened Support
  import opened Rules

  /**
    Customer 7256: services 9_4 and 46_4 at times `a1` and `a2` in August 2017,
    9_4 and 38_4 at times `o1` and `o2` in October 2017.
   */
  function Customer7256(a1: string, a2: string, o1: string, o2: string): seq<Record> {
    [ Record(7256, 9, 4, a1),
      Record(7256, 46, 4, a2),
      Record(7256, 9, 4, o1),
      Record(7256, 38, 4, o2) ]
  }

  lemma Customer7256Services()
    ensures ServiceKey(9, 4) == "9_4"
    ensures ServiceKey(46, 4) == "46_4"
    ensures ServiceKey(38, 4) == "38_4"
  {
    assert IntToString(4) == "4" && IntToString(9) == "9";
    assert IntToString(38) == "38" by {
      assert NatToString(3) == "3";
    }
    assert IntToString(46) == "46" by {
      assert NatToString(4) == "4";
    }
  }

  /** The customer's groups: August holds 9_4 and 46_4, October holds 9_4 and 38_4. */
  predicate HasCustomerGroups(rs: seq<Row>) {
    && |GroupKeys(rs)| == 4
    && GroupKeys(rs)[0] == ("7256_2017-08", "9_4")
    && GroupKeys(rs)[1] == ("7256_2017-08", "46_4")
    && GroupKeys(rs)[2] == ("7256_2017-10", "9_4")
    && GroupKeys(rs)[3] == ("7256_2017-10", "38_4")
  }

  lemma Customer7256Keys(a1: string, a2: string, o1: string, o2: string)
    requires |a1| >= 7 && a1[..7] == "2017-08" && |a2| >= 7 && a2[..7] == "2017-08"
    requires |o1| >= 7 && o1[..7] == "2017-10" && |o2| >= 7 && o2[..7] == "2017-10"
    ensures HasCustomerGroups(PrepareAll(Customer7256(a1, a2, o1, o2)))
  {
    var rs := Customer7256(a1, a2, o1, o2);
    var keys := GroupKeys(PrepareAll(rs));
    Customer7256TwoBaskets(a1, o1);
    Customer7256TwoBaskets(a2, o2);
    Customer7256Services();
    assert keys[0] == GroupKey(Prepare(rs[0])) == ("7256_2017-08", "9_4");
    assert keys[1] == GroupKey(Prepare(rs[1])) == ("7256_2017-08", "46_4");
    assert keys[2] == GroupKey(Prepare(rs[2])) == ("7256_2017-10", "9_4");
    assert keys[3] == GroupKey(Prepare(rs[3])) == ("7256_2017-10", "38_4");
  }

  lemma CustomerMonthsSorted(b08: string, b10: string)
    requires b08 == "7256_2017-08" && b10 == "7256_2017-10"
    ensures StrictlySorted([b08, b10])
  {
    StrLessAt(b08, b10, 10);
  }

  lemma CustomerServicesSorted(s38: string, s46: string, s9: string)
    requires s38 == "38_4" && s46 == "46_4" && s9 == "9_4"
    ensures StrictlySorted([s38, s46, s9])
  {
    StrLessAt(s38, s46, 0);
    StrLessAt(s46, s9, 0);
    StrLessAt(s38, s9, 0);
  }

  lemma CustomerRows(rs: seq<Row>, m: Matrix)
    requires HasCustomerGroups(rs) && LabelsOf(rs, m)
    ensures m.rows == ["7256_2017-08", "7256_2017-10"]
  {
    var keys := GroupKeys(rs);
    forall b
      ensures b in m.rows <==> b == keys[0].0 || b == keys[2].0
    {
      assert forall k :: 0 <= k < |rs| ==> rs[k].basketId == keys[k].0;
      assert (exists k :: 0 <= k < |rs| && rs[k].basketId == b) <==> b == keys[0].0 || b == keys[2].0;
    }
    CustomerMonthsSorted("7256_2017-08", "7256_2017-10");
    StrictlySortedUnique(m.rows, ["7256_2017-08", "7256_2017-10"]);
  }

  lemma CustomerCols(rs: seq<Row>, m: Matrix)
    requires HasCustomerGroups(rs) && LabelsOf(rs, m)
    ensures m.cols == ["38_4", "46_4", "9_4"]
  {
    var keys := GroupKeys(rs);
    forall s
      ensures s in m.cols <==> s == keys[3].1 || s == keys[1].1 || s == keys[0].1
    {
      assert forall k :: 0 <= k < |rs| ==> rs[k].service == keys[k].1;
      assert (exists k :: 0 <= k < |rs| && rs[k].service == s) <==> s == keys[0].1 || s == keys[1].1 || s == keys[3].1;
    }
    CustomerServicesSorted("38_4", "46_4", "9_4");
    StrictlySortedUnique(m.cols, ["38_4", "46_4", "9_4"]);
  }

  /** Which of the six (basket, service) pairs occur among the customer's groups. */
  lemma CustomerGroupsPresent(rs: seq<Row>)
    requires HasCustomerGroups(rs)
    ensures HasGroup(rs, "7256_2017-08", "46_4") && HasGroup(rs, "7256_2017-08", "9_4")
    ensures HasGroup(rs, "7256_2017-10", "38_4") && HasGroup(rs, "7256_2017-10", "9_4")
    ensures !HasGroup(rs, "7256_2017-08", "38_4") && !HasGroup(rs, "7256_2017-10", "46_4")
  {
    var keys := GroupKeys(rs);
    assert keys == [keys[0], keys[1], keys[2], keys[3]];
  }

  lemma CustomerCells(rs: seq<Row>, m: Matrix)
    requires HasCustomerGroups(rs) && CellsOf(rs, m)
    requires m.rows == ["7256_2017-08", "7256_2017-10"] && m.cols == ["38_4", "46_4", "9_4"]
    ensures m.cells == [[0, 1, 1], [1, 0, 1]]
  {
    CustomerGroupsPresent(rs);
    assert m.rows[0] == "7256_2017-08" && m.rows[1] == "7256_2017-10";
    assert m.cols[0] == "38_4" && m.cols[1] == "46_4" && m.cols[2] == "9_4";
    assert m.cells[0][0] == 0 && m.cells[0][1] == 1 && m.cells[0][2] == 1;
    assert m.cells[1][0] == 1 && m.cells[1][1] == 0 && m.cells[1][2] == 1;
    assert m.cells[0] == [0, 1, 1];
    assert m.cells[1] == [1, 0, 1];
  }

  /** Any records with the customer's four groups pivot to the same two-row table. */
  lemma CustomerTable(rs: seq<Row>)
    requires HasCustomerGroups(rs)
    ensures PivotTable(rs) == Matrix(["7256_2017-08", "7256_2017-10"], ["38_4", "46_4", "9_4"], [[0, 1, 1], [1, 0, 1]])
  {
    var m := PivotTable(rs);
    CustomerRows(rs, m);
    CustomerCols(rs, m);
    CustomerCells(rs, m);
  }

  /** The customer's purchases make two basket rows, each holding exactly its month's services. */
  lemma Customer7256Table(a1: string, a2: string, o1: string, o2: string)
    requires |a1| >= 7 && a1[..7] == "2017-08" && |a2| >= 7 && a2[..7] == "2017-08"
    requires |o1| >= 7 && o1[..7] == "2017-10" && |o2| >= 7 && o2[..7] == "2017-10"
    ensures PivotTable(PrepareAll(Customer7256(a1, a2, o1, o2))) ==
      Matrix(["7256_2017-08", "7256_2017-10"], ["38_4", "46_4", "9_4"], [[0, 1, 1], [1, 0, 1]])
  {
    Customer7256Keys(a1, a2, o1, o2);
    CustomerTable(PrepareAll(Customer7256(a1, a2, o1, o2)));
  }
}
