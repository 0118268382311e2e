/**
  Row and column labels of the pivot table. pandas' `groupby` sorts its keys,
  so `unstack` yields each distinct BasketID and Service exactly once, in
  ascending string order; this module gives that order and the sorted,
  duplicate-free label sequence.
 */
module Labels {

  /** The length of the longest common prefix of `a` and `b`. */
  function CommonPrefixLength(a: string, b: string): (k: nat)
    ensures k <= |a| && k <= |b| && a[..k] == b[..k]
    ensures k == |a| || k == |b| || a[k] != b[k]
  {
    if |a| == 0 || |b| == 0 || a[0] != b[0] then 0
    else
      var k := CommonPrefixLength(a[1..], b[1..]);
      assert a[..k + 1] == [a[0]] + a[1..][..k];
      assert b[..k + 1] == [b[0]] + b[1..][..k];
      k + 1
  }

  /**
    Python's `<` on str: lexicographic by code point, a proper prefix first.
    Past the common prefix, `a` has either run out while `b` goes on, or has
    the smaller character.
   */
  predicate StrLess(a: string, b: string): (less: bool)
    ensures var k := CommonPrefixLength(a, b);
      less <==> (k == |a| && k < |b|) || (k < |a| && k < |b| && a[k] < b[k])
  {
    if |a| == 0 then |b| > 0
    else if |b| == 0 then false
    else if a[0] != b[0] then a[0] < b[0]
    else StrLess(a[1..], b[1..])
  }

  lemma {:induction false} StrLessIrreflexive(a: string)
    ensures !StrLess(a, a)
  {
    if |a| > 0 {
      StrLessIrreflexive(a[1..]);
    }
  }

  lemma {:induction false} StrLessTransitive(a: string, b: string, c: string)
    requires StrLess(a, b) && StrLess(b, c)
    ensures StrLess(a, c)
  {
    if |a| > 0 && a[0] == b[0] && b[0] == c[0] {
      StrLessTransitive(a[1..], b[1..], c[1..]);
    }
  }

  lemma {:induction false} StrLessTotal(a: string, b: string)
    ensures a == b || StrLess(a, b) || StrLess(b, a)
  {
    if |a| > 0 && |b| > 0 && a[0] == b[0] {
      StrLessTotal(a[1..], b[1..]);
      if a[1..] == b[1..] {
        assert a == [a[0]] + a[1..] && b == [b[0]] + b[1..];
      }
    }
  }

  /** The first position where two strings differ decides their order. */
  lemma {:induction false} StrLessAt(a: string, b: string, k: nat)
    requires k < |a| && k < |b| && a[..k] == b[..k] && a[k] < b[k]
    ensures StrLess(a, b)
    decreases k
  {
    if k > 0 {
      assert a[0] == a[..k][0] == b[..k][0] == b[0];
      assert a[1..][..k - 1] == a[1..k] == b[1..k] == b[1..][..k - 1];
      StrLessAt(a[1..], b[1..], k - 1);
    }
  }

  predicate StrictlySorted(s: seq<string>) {
    forall i, j :: 0 <= i < j < |s| ==> StrLess(s[i], s[j])
  }

  /** Adds `x` to a sorted label sequence unless it is already there. */
  function InsertLabel(x: string, s: seq<string>): (r: seq<string>)
    requires StrictlySorted(s)
    ensures StrictlySorted(r)
    ensures forall y :: y in r <==> y in s || y == x
  {
    if |s| == 0 then [x]
    else if x == s[0] then s
    else if StrLess(x, s[0]) then
      assert forall j :: 0 <= j < |s| ==> StrLess(x, s[j]) by {
        forall j | 0 <= j < |s|
          ensures StrLess(x, s[j])
        {
          if j > 0 {
            StrLessTransitive(x, s[0], s[j]);
          }
        }
      }
      [x] + s
    else
      StrLessTotal(x, s[0]);
      var tail := InsertLabel(x, s[1..]);
      assert forall j :: 0 <= j < |tail| ==> StrLess(s[0], tail[j]) by {
        forall j | 0 <= j < |tail|
          ensures StrLess(s[0], tail[j])
        {
          assert tail[j] in tail;
        }
      }
      [s[0]] + tail
  }

  /** The distinct labels of `xs`, in ascending order. */
  function SortedLabels(xs: seq<string>): (r: seq<string>)
    ensures StrictlySorted(r)
    ensures forall y :: y in r <==> y in xs
  {
    if |xs| == 0 then []
    else
      var init := xs[..|xs| - 1];
      assert xs == init + [xs[|xs| - 1]];
      InsertLabel(xs[|xs| - 1], SortedLabels(init))
  }

  /** A set of labels has only one strictly sorted arrangement. */
  lemma {:induction false} StrictlySortedUnique(s: seq<string>, t: seq<string>)
    requires StrictlySorted(s) && StrictlySorted(t)
    requires forall y :: y in s <==> y in t
    ensures s == t
    decreases |s|
  {
    if |s| == 0 {
      HeadIsMember(t);
    } else {
      assert s[0] in s;
      assert |t| > 0;
      assert t[0] in t;
      if s[0] != t[0] {
        var k :| 0 <= k < |t| && t[k] == s[0];
        var m :| 0 <= m < |s| && s[m] == t[0];
        assert StrLess(t[0], s[0]);
        assert StrLess(s[0], t[0]);
        StrLessTransitive(s[0], t[0], s[0]);
        StrLessIrreflexive(s[0]);
      }
      forall y
        ensures y in s[1..] <==> y in t[1..]
      {
        TailMembership(s, y);
        TailMembership(t, y);
      }
      StrictlySortedUnique(s[1..], t[1..]);
      assert s == [s[0]] + s[1..] && t == [t[0]] + t[1..];
    }
  }

  lemma HeadIsMember(s: seq<string>)
    ensures |s| > 0 ==> s[0] in s
  {
  }

  lemma TailMembership(s: seq<string>, y: string)
    requires StrictlySorted(s) && |s| > 0
    ensures y in s[1..] <==> y in s && y != s[0]
  {
    if y in s[1..] {
      var k :| 1 <= k < |s| && s[k] == y;
      if y == s[0] {
        StrLessIrreflexive(y);
      }
    }
    if y in s && y != s[0] {
      var k :| 0 <= k < |s| && s[k] == y;
      assert s[1..][k - 1] == y;
    }
  }
}
