/**
  The two composite keys the script builds from a purchase record: the
  service key `ServiceId_CategoryId` and the basket key `UserId_YYYY-MM`.
 */
module Keys {
  import opened Wrappers
  import opened Decimal

  /** Splits a key at its first '_' into the part before and the part after. */
  function SplitKey(s: string): (r: Option<(string, string)>)
    ensures r.Some? ==> s == r.value.0 + "_" + r.value.1 && '_' !in r.value.0
    ensures r.None? ==> '_' !in s
  {
    if |s| == 0 then None
    else if s[0] == '_' then Some(([], s[1..]))
    else match SplitKey(s[1..])
      case None => None
      case Some(parts) => Some(([s[0]] + parts.0, parts.1))
  }

  lemma CharOfJoined(x: string, y: string, k: int)
    ensures k == |x| ==> (x + "_" + y)[k] == '_'
    ensures 0 <= k < |x| ==> (x + "_" + y)[k] == x[k] && x[k] in x
  {
  }

  /** A key joined from an underscore-free head splits back into its parts. */
  lemma SplitJoined(a: string, b: string)
    requires '_' !in a
    ensures SplitKey(a + "_" + b) == Some((a, b))
  {
    var s := a + "_" + b;
    assert s[|a|] == '_';
    var r := SplitKey(s);
    assert r.Some?;
    var a', b' := r.value.0, r.value.1;
    if |a'| < |a| {
      CharOfJoined(a', b', |a'|);
      assert false;
    } else if |a'| > |a| {
      CharOfJoined(a, b, |a|);
      assert false;
    }
    assert a' == s[..|a|] == a;
    assert b' == s[|a| + 1..] == b;
  }

  /** The service key: a ServiceId means a different service in each category. */
  function ServiceKey(serviceId: int, categoryId: int): (k: string)
    ensures SplitKey(k) == Some((IntToString(serviceId), IntToString(categoryId)))
  {
    SplitJoined(IntToString(serviceId), IntToString(categoryId));
    IntToString(serviceId) + "_" + IntToString(categoryId)
  }

  /** Recovers (ServiceId, CategoryId) from a service key. */
  function ParseServiceKey(k: string): Option<(int, int)> {
    match SplitKey(k)
    case None => None
    case Some(parts) =>
      match (ParseInt(parts.0), ParseInt(parts.1))
      case (Some(s), Some(c)) => Some((s, c))
      case _ => None
  }

  lemma ServiceKeyRoundTrip(serviceId: int, categoryId: int)
    ensures ParseServiceKey(ServiceKey(serviceId, categoryId)) == Some((serviceId, categoryId))
  {
    IntToStringRoundTrip(serviceId);
    IntToStringRoundTrip(categoryId);
  }

  lemma ServiceKeyInjective(s1: int, c1: int, s2: int, c2: int)
    ensures ServiceKey(s1, c1) == ServiceKey(s2, c2) <==> s1 == s2 && c1 == c2
  {
    ServiceKeyRoundTrip(s1, c1);
    ServiceKeyRoundTrip(s2, c2);
  }

  /** The same ServiceId under two categories is two different services. */
  lemma SameServiceOtherCategory(serviceId: int, c1: int, c2: int)
    requires c1 != c2
    ensures ServiceKey(serviceId, c1) != ServiceKey(serviceId, c2)
  {
    ServiceKeyInjective(serviceId, c1, serviceId, c2);
  }

  /** `CreateDate[:7]`: the year-month prefix, or the whole text when shorter. */
  function YearMonth(createDate: string): (ym: string)
    ensures |ym| <= 7 && |ym| <= |createDate|
    ensures |ym| == 7 || ym == createDate
    ensures createDate[..|ym|] == ym
  {
    if |createDate| <= 7 then createDate else createDate[..7]
  }

  /** Whatever follows the year-month (day, time) has no effect. */
  lemma YearMonthIgnoresRest(createDate: string, rest: string)
    requires |createDate| >= 7
    ensures YearMonth(createDate + rest) == YearMonth(createDate)
  {
    assert (createDate + rest)[..7] == createDate[..7];
  }

  lemma YearMonthIdempotent(createDate: string)
    ensures YearMonth(YearMonth(createDate)) == YearMonth(createDate)
  {
  }

  /** The basket key: one basket per user and calendar month. */
  function BasketId(userId: int, createDate: string): (b: string)
    ensures SplitKey(b) == Some((IntToString(userId), YearMonth(createDate)))
  {
    SplitJoined(IntToString(userId), YearMonth(createDate));
    IntToString(userId) + "_" + YearMonth(createDate)
  }

  /** Two records share a basket exactly when they share user and year-month. */
  lemma BasketIdInjective(u1: int, d1: string, u2: int, d2: string)
    ensures BasketId(u1, d1) == BasketId(u2, d2) <==> u1 == u2 && YearMonth(d1) == YearMonth(d2)
  {
    var b1, b2 := BasketId(u1, d1), BasketId(u2, d2);
    if b1 == b2 {
      assert SplitKey(b1) == SplitKey(b2);
      IntToStringInjective(u1, u2);
    }
  }

  lemma DistinctMonthsDistinctBaskets(userId: int, d1: string, d2: string)
    requires YearMonth(d1) != YearMonth(d2)
    ensures BasketId(userId, d1) != BasketId(userId, d2)
  {
    BasketIdInjective(userId, d1, userId, d2);
  }

  lemma Customer7256Text()
    ensures IntToString(7256) == "7256"
  {
    assert NatToString(7) == "7";
    assert NatToString(72) == "72";
    assert NatToString(725) == "725";
  }

  /** Customer 7256 bought in August and in October 2017, on any day and at any time: two baskets. */
  lemma Customer7256TwoBaskets(aug: string, oct: string)
    requires |aug| >= 7 && aug[..7] == "2017-08"
    requires |oct| >= 7 && oct[..7] == "2017-10"
    ensures BasketId(7256, aug) == "7256_2017-08"
    ensures BasketId(7256, oct) == "7256_2017-10"
    ensures BasketId(7256, aug) != BasketId(7256, oct)
  {
    Customer7256Text();
    assert YearMonth(aug) == "2017-08";
    assert YearMonth(oct) == "2017-10";
  }
}
