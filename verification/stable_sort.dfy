/** `sorted(items, key=lambda x: x[1], reverse=True)`: a stable sort of
    `(country, count)` pairs by descending count. Python keeps the original
    order of equal keys also when `reverse=True`, so ties stay in input order. */
module StableSort {
  import opened Ships

  /** Counts never go up from left to right. */
  predicate NonIncreasing(s: seq<Group>)
  {
    forall i, j :: 0 <= i < j < |s| ==> s[i].count >= s[j].count
  }

  /** Among groups with equal counts, an earlier one is `before` a later one. */
  ghost predicate TiesOrdered(s: seq<Group>, before: (Group, Group) -> bool)
  {
    forall i, j :: 0 <= i < j < |s| && s[i].count == s[j].count ==> before(s[i], s[j])
  }

  /** Puts `x` in front of the first group whose count is not larger, so it
      precedes every group of equal count already in `s`. */
  function InsertByCount(x: Group, s: seq<Group>): (r: seq<Group>)
    requires NonIncreasing(s)
    ensures NonIncreasing(r)
    ensures multiset(r) == multiset(s) + multiset{x}
    ensures Total(r) == Total(s) + x.count
    ensures |r| == |s| + 1 && (r[0] == x || (|s| > 0 && r[0] == s[0]))
    decreases |s|
  {
    if |s| == 0 || s[0].count <= x.count then
      assert ([x] + s)[1..] == s;
      [x] + s
    else
      var t := InsertByCount(x, s[1..]);
      assert s == [s[0]] + s[1..];
      assert t[0].count <= s[0].count;
      assert ([s[0]] + t)[1..] == t;
      [s[0]] + t
  }

  /** The stable descending sort, built by inserting each group in front of
      the already sorted remainder. */
  function SortByCountDesc(g: seq<Group>): (r: seq<Group>)
    ensures NonIncreasing(r)
    ensures multiset(r) == multiset(g)
    ensures |r| == |g|
    ensures Total(r) == Total(g)
    decreases |g|
  {
    if |g| == 0 then []
    else
      assert g == [g[0]] + g[1..];
      var r := InsertByCount(g[0], SortByCountDesc(g[1..]));
      assert |r| == |multiset(r)|;
      r
  }

  /** Every item of the result is `x` or an item of `s`. */
  lemma {:induction false} InsertElement(x: Group, s: seq<Group>, j: nat)
    requires NonIncreasing(s) && j < |InsertByCount(x, s)|
    ensures InsertByCount(x, s)[j] == x || InsertByCount(x, s)[j] in s
  {
    var r := InsertByCount(x, s);
    assert r[j] in multiset(r);
  }

  lemma {:induction false} InsertKeepsTieOrder(x: Group, s: seq<Group>, before: (Group, Group) -> bool)
    requires NonIncreasing(s)
    requires TiesOrdered(s, before)
    requires forall j :: 0 <= j < |s| && s[j].count == x.count ==> before(x, s[j])
    ensures TiesOrdered(InsertByCount(x, s), before)
    decreases |s|
  {
    if |s| > 0 && s[0].count > x.count {
      var t := InsertByCount(x, s[1..]);
      InsertKeepsTieOrder(x, s[1..], before);
      var r := [s[0]] + t;
      assert r == InsertByCount(x, s);
      forall i, j | 0 <= i < j < |r| && r[i].count == r[j].count
        ensures before(r[i], r[j])
      {
        if i == 0 {
          assert r[j] == t[j - 1];
          InsertElement(x, s[1..], j - 1);
          var k :| 0 <= k < |s[1..]| && s[1..][k] == r[j];
          assert s[k + 1] == r[j];
        } else {
          assert r[i] == t[i - 1] && r[j] == t[j - 1];
        }
      }
    }
  }

  /** Every item of the sorted list comes from the input. */
  lemma {:induction false} SortElement(g: seq<Group>, j: nat)
    requires j < |g|
    ensures SortByCountDesc(g)[j] in g
  {
    var r := SortByCountDesc(g);
    assert r[j] in multiset(r);
  }

  /** Every item of the input is in the sorted list. */
  lemma {:induction false} SortKeepsElement(g: seq<Group>, k: nat)
    requires k < |g|
    ensures g[k] in SortByCountDesc(g)
  {
    assert g[k] in multiset(g);
  }

  /** Stability: whatever order the input keeps, the output keeps among
      groups of equal count. */
  lemma {:induction false} SortKeepsTieOrder(g: seq<Group>, before: (Group, Group) -> bool)
    requires forall i, j :: 0 <= i < j < |g| ==> before(g[i], g[j])
    ensures TiesOrdered(SortByCountDesc(g), before)
    decreases |g|
  {
    if |g| > 0 {
      var rest := SortByCountDesc(g[1..]);
      SortKeepsTieOrder(g[1..], before);
      forall j | 0 <= j < |rest| && rest[j].count == g[0].count
        ensures before(g[0], rest[j])
      {
        SortElement(g[1..], j);
        var k :| 0 <= k < |g[1..]| && g[1..][k] == rest[j];
        assert g[k + 1] == rest[j];
      }
      InsertKeepsTieOrder(g[0], rest, before);
    }
  }
}
