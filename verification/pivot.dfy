/**
  Data preparation and the basket x service presence table: each purchase
  record gets its Service and BasketID, records are grouped and counted by
  (BasketID, Service), and the counts are pivoted into a 0/1 table.
 */
module Pivot {
  import opened Wrappers
  import opened Decimal
  import opened Keys
  import opened Labels

  /** One row of the purchase data: who bought which service of which category, when. */
  datatype Record = Record(userId: int, serviceId: int, categoryId: int, createDate: string)

  /** A record with the three columns the script adds: Service, YearMonthDate and BasketID. */
  datatype Row = Row(record: Record, service: string, yearMonth: string, basketId: string)

  /**
    Adds the derived columns to one record: Service is ServiceId and
    CategoryId joined by `_`, YearMonthDate the first 7 characters of
    CreateDate, and BasketID UserId joined by `_` to YearMonthDate.
   */
  function Prepare(r: Record): (row: Row)
    ensures row.record == r
    ensures SplitKey(row.service) == Some((IntToString(r.serviceId), IntToString(r.categoryId)))
    ensures |row.yearMonth| <= 7 && |row.yearMonth| <= |r.createDate|
    ensures r.createDate[..|row.yearMonth|] == row.yearMonth
    ensures |row.yearMonth| == 7 || row.yearMonth == r.createDate
    ensures SplitKey(row.basketId) == Some((IntToString(r.userId), row.yearMonth))
  {
    Row(r, ServiceKey(r.serviceId, r.categoryId), YearMonth(r.createDate), BasketId(r.userId, r.createDate))
  }

  function PrepareAll(rs: seq<Record>): (rows: seq<Row>)
    ensures |rows| == |rs|
    ensures forall k :: 0 <= k < |rs| ==> rows[k] == Prepare(rs[k])
  {
    seq(|rs|, k requires 0 <= k < |rs| => Prepare(rs[k]))
  }

  /** Two purchases fall in one basket exactly when they share user and year-month. */
  lemma SameBasketIffSameUserAndMonth(r1: Record, r2: Record)
    ensures Prepare(r1).basketId == Prepare(r2).basketId <==>
      r1.userId == r2.userId && Prepare(r1).yearMonth == Prepare(r2).yearMonth
  {
    BasketIdInjective(r1.userId, r1.createDate, r2.userId, r2.createDate);
  }

  /** Two purchases are of one service exactly when they share ServiceId and CategoryId. */
  lemma SameServiceIffSameIds(r1: Record, r2: Record)
    ensures Prepare(r1).service == Prepare(r2).service <==>
      r1.serviceId == r2.serviceId && r1.categoryId == r2.categoryId
  {
    ServiceKeyInjective(r1.serviceId, r1.categoryId, r2.serviceId, r2.categoryId);
  }

  /** The (BasketID, Service) group a row is counted in. */
  function GroupKey(row: Row): (string, string) {
    (row.basketId, row.service)
  }

  /** The group keys of all records, in record order. */
  function GroupKeys(rs: seq<Row>): (keys: seq<(string, string)>)
    ensures |keys| == |rs|
    ensures forall k :: 0 <= k < |rs| ==> keys[k] == GroupKey(rs[k])
  {
    seq(|rs|, k requires 0 <= k < |rs| => GroupKey(rs[k]))
  }

  /** Some record was bought in basket `b` and is service `s`. */
  predicate HasGroup(rs: seq<Row>, b: string, s: string) {
    (b, s) in GroupKeys(rs)
  }

  /** How many times `key` occurs in `keys`. */
  function Occurrences<K(==)>(keys: seq<K>, key: K): (n: nat)
    ensures n == multiset(keys)[key]
    ensures n > 0 <==> key in keys
  {
    if |keys| == 0 then 0
    else
      var init := keys[..|keys| - 1];
      assert keys == init + [keys[|keys| - 1]];
      Occurrences(init, key) + (if keys[|keys| - 1] == key then 1 else 0)
  }

  /** The size of group (b, s): how many records share that BasketID and Service. */
  function GroupCount(rs: seq<Row>, b: string, s: string): (n: nat)
    ensures n == multiset(GroupKeys(rs))[(b, s)]
    ensures n > 0 <==> HasGroup(rs, b, s)
  {
    Occurrences(GroupKeys(rs), (b, s))
  }

  /**
    `lambda x: 1 if x > 0 else 0` applied to a count (a missing group counts 0):
    a 0/1 cell whose truth value, as `astype(bool)` reads it, is whether the
    group occurs.
   */
  function Presence(count: nat): (cell: int)
    ensures cell == 0 || cell == 1
    ensures cell != 0 <==> count > 0
  {
    if count > 0 then 1 else 0
  }

  /** A labelled table: `cells[i][j]` is the entry for basket `rows[i]`, service `cols[j]`. */
  datatype Matrix = Matrix(rows: seq<string>, cols: seq<string>, cells: seq<seq<int>>)

  predicate WellShaped(m: Matrix) {
    && |m.cells| == |m.rows|
    && forall i :: 0 <= i < |m.cells| ==> |m.cells[i]| == |m.cols|
  }

  /** The BasketID column. */
  function BasketColumn(rs: seq<Row>): (col: seq<string>)
    ensures forall b :: b in col <==> exists k :: 0 <= k < |rs| && rs[k].basketId == b
  {
    var col := seq(|rs|, k requires 0 <= k < |rs| => rs[k].basketId);
    assert forall k :: 0 <= k < |rs| ==> col[k] == rs[k].basketId;
    col
  }

  /** The Service column. */
  function ServiceColumn(rs: seq<Row>): (col: seq<string>)
    ensures forall s :: s in col <==> exists k :: 0 <= k < |rs| && rs[k].service == s
  {
    var col := seq(|rs|, k requires 0 <= k < |rs| => rs[k].service);
    assert forall k :: 0 <= k < |rs| ==> col[k] == rs[k].service;
    col
  }

  /**
    What the pivoted table is for rows `rs`: one row label per distinct
    BasketID and one column label per distinct Service, each in ascending
    order, and a cell that is 1 when some row has that (BasketID, Service)
    and 0 otherwise.
   */
  ghost predicate IsPresenceTable(rs: seq<Row>, m: Matrix) {
    LabelsOf(rs, m) && CellsOf(rs, m)
  }

  /** One row label per distinct BasketID, one column label per distinct Service, each ascending. */
  ghost predicate LabelsOf(rs: seq<Row>, m: Matrix) {
    && StrictlySorted(m.rows) && StrictlySorted(m.cols)
    && (forall b :: b in m.rows <==> exists k :: 0 <= k < |rs| && rs[k].basketId == b)
    && (forall s :: s in m.cols <==> exists k :: 0 <= k < |rs| && rs[k].service == s)
  }

  /** A cell is 1 when some row has that (BasketID, Service), and 0 otherwise. */
  ghost predicate CellsOf(rs: seq<Row>, m: Matrix) {
    && WellShaped(m)
    && (forall i, j :: 0 <= i < |m.rows| && 0 <= j < |m.cols| ==> m.cells[i][j] == 0 || m.cells[i][j] == 1)
    && (forall i, j :: 0 <= i < |m.rows| && 0 <= j < |m.cols| ==>
         (m.cells[i][j] == 1 <==> HasGroup(rs, m.rows[i], m.cols[j])))
  }

  /**
    `groupby(['BasketID', 'Service']).count().unstack().fillna(0)` followed by
    mapping every positive count to 1.
   */
  function PivotTable(rs: seq<Row>): (m: Matrix)
    ensures IsPresenceTable(rs, m)
  {
    var rows := SortedLabels(BasketColumn(rs));
    var cols := SortedLabels(ServiceColumn(rs));
    Matrix(rows, cols,
      seq(|rows|, i requires 0 <= i < |rows| =>
        seq(|cols|, j requires 0 <= j < |cols| => Presence(GroupCount(rs, rows[i], cols[j])))))
  }

  /** The description above fixes the table completely. */
  lemma PresenceTableUnique(rs: seq<Row>, m1: Matrix, m2: Matrix)
    requires IsPresenceTable(rs, m1) && IsPresenceTable(rs, m2)
    ensures m1 == m2
  {
    StrictlySortedUnique(m1.rows, m2.rows);
    StrictlySortedUnique(m1.cols, m2.cols);
    forall i | 0 <= i < |m1.cells|
      ensures m1.cells[i] == m2.cells[i]
    {
      forall j | 0 <= j < |m1.cols|
        ensures m1.cells[i][j] == m2.cells[i][j]
      {
        assert m1.rows[i] == m2.rows[i] && m1.cols[j] == m2.cols[j];
        assert m1.cells[i][j] == 1 <==> HasGroup(rs, m1.rows[i], m1.cols[j]);
        assert m2.cells[i][j] == 1 <==> HasGroup(rs, m2.rows[i], m2.cols[j]);
      }
    }
  }

  lemma BasketHasGroup(rs: seq<Row>, b: string)
    ensures (exists k :: 0 <= k < |rs| && rs[k].basketId == b) <==> exists s :: HasGroup(rs, b, s)
  {
    var keys := GroupKeys(rs);
    if k :| 0 <= k < |rs| && rs[k].basketId == b {
      assert keys[k] == (b, rs[k].service);
      assert HasGroup(rs, b, rs[k].service);
    }
    if s :| HasGroup(rs, b, s) {
      var k :| 0 <= k < |keys| && keys[k] == (b, s);
      assert rs[k].basketId == b;
    }
  }

  lemma ServiceHasGroup(rs: seq<Row>, s: string)
    ensures (exists k :: 0 <= k < |rs| && rs[k].service == s) <==> exists b :: HasGroup(rs, b, s)
  {
    var keys := GroupKeys(rs);
    if k :| 0 <= k < |rs| && rs[k].service == s {
      assert keys[k] == (rs[k].basketId, s);
      assert HasGroup(rs, rs[k].basketId, s);
    }
    if b :| HasGroup(rs, b, s) {
      var k :| 0 <= k < |keys| && keys[k] == (b, s);
      assert rs[k].service == s;
    }
  }

  /** The table is a function of which (BasketID, Service) groups occur, and nothing else. */
  lemma PivotDependsOnlyOnGroups(rs1: seq<Row>, rs2: seq<Row>)
    requires forall b, s :: HasGroup(rs1, b, s) <==> HasGroup(rs2, b, s)
    ensures PivotTable(rs1) == PivotTable(rs2)
  {
    var m1, m2 := PivotTable(rs1), PivotTable(rs2);
    forall b
      ensures b in m1.rows <==> b in m2.rows
    {
      BasketHasGroup(rs1, b);
      BasketHasGroup(rs2, b);
    }
    forall s
      ensures s in m1.cols <==> s in m2.cols
    {
      ServiceHasGroup(rs1, s);
      ServiceHasGroup(rs2, s);
    }
    assert IsPresenceTable(rs2, m1);
    PresenceTableUnique(rs2, m1, m2);
  }

  /** Reordering the records or repeating a purchase leaves the table unchanged. */
  lemma PivotIgnoresOrderAndRepeats(rs1: seq<Row>, rs2: seq<Row>)
    requires forall r :: r in rs1 <==> r in rs2
    ensures PivotTable(rs1) == PivotTable(rs2)
  {
    forall b, s
      ensures HasGroup(rs1, b, s) <==> HasGroup(rs2, b, s)
    {
      if HasGroup(rs1, b, s) {
        var k :| 0 <= k < |rs1| && GroupKey(rs1[k]) == (b, s);
        assert rs1[k] in rs2;
      }
      if HasGroup(rs2, b, s) {
        var k :| 0 <= k < |rs2| && GroupKey(rs2[k]) == (b, s);
        assert rs2[k] in rs1;
      }
    }
    PivotDependsOnlyOnGroups(rs1, rs2);
  }

  /** Buying a service again in the same month adds nothing: cells record presence. */
  lemma RepeatPurchaseCollapses(rs: seq<Row>, r: Row)
    requires exists k :: 0 <= k < |rs| && GroupKey(rs[k]) == GroupKey(r)
    ensures PivotTable(rs + [r]) == PivotTable(rs)
  {
    var rs' := rs + [r];
    forall b, s
      ensures HasGroup(rs', b, s) <==> HasGroup(rs, b, s)
    {
      if HasGroup(rs', b, s) {
        var k :| 0 <= k < |rs'| && GroupKey(rs'[k]) == (b, s);
        if k < |rs| {
          assert rs'[k] == rs[k];
        }
      }
      if HasGroup(rs, b, s) {
        var k :| 0 <= k < |rs| && GroupKey(rs[k]) == (b, s);
        assert rs'[k] == rs[k];
      }
    }
    PivotDependsOnlyOnGroups(rs', rs);
  }
}
