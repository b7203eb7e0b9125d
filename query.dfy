/**
 * The two query operations the routes rely on, over a table held as a
 * sequence of rows: `filter(...)`, which keeps the rows that satisfy a
 * condition, and `order_by(<column>.desc())`, which the routes use to list
 * jobs by date_posted and applications by date_applied, newest first. The
 * database promises an order, not an algorithm, so what matters below is the
 * specification: the result is sorted by the key, newest first, and is a
 * permutation of the rows it orders.
 */
module Query {
  import opened Wrappers

  /** The rows of `s` that satisfy `p`, in table order. */
  function Select<T(!new)>(s: seq<T>, p: T -> bool): (r: seq<T>)
    ensures forall x :: x in r <==> x in s && p(x)
    ensures |r| <= |s|
  {
    if s == [] then []
    else if p(s[0]) then [s[0]] + Select(s[1..], p)
    else Select(s[1..], p)
  }

  /** Filtering keeps each satisfying row as many times as the table holds it, and drops the rest. */
  lemma {:induction false} SelectCounts<T(!new)>(s: seq<T>, p: T -> bool, x: T)
    ensures multiset(Select(s, p))[x] == if p(x) then multiset(s)[x] else 0
  {
    if s != [] {
      assert s == [s[0]] + s[1..];
      SelectCounts(s[1..], p, x);
    }
  }

  /** `filter(...).first()`: the index of the first row satisfying `p`, if any. */
  function FirstWhere<T>(s: seq<T>, p: T -> bool): (r: Option<nat>)
    ensures r.Some? ==> r.value < |s| && p(s[r.value])
    ensures r.Some? ==> forall k :: 0 <= k < r.value ==> !p(s[k])
    ensures r.None? ==> forall k :: 0 <= k < |s| ==> !p(s[k])
  {
    if s == [] then None
    else if p(s[0]) then Some(0)
    else
      var r := FirstWhere(s[1..], p);
      assert forall k :: 1 <= k < |s| ==> s[k] == s[1..][k - 1];
      if r.None? then None else Some(r.value + 1)
  }

  /** A row that alone satisfies `p` is all that filtering by `p` returns. */
  lemma {:induction false} SelectSingle<T(!new)>(s: seq<T>, p: T -> bool, k: nat)
    requires k < |s| && p(s[k])
    requires forall i :: 0 <= i < |s| && i != k ==> !p(s[i])
    ensures Select(s, p) == [s[k]]
  {
    if k == 0 {
      assert forall i :: 0 <= i < |s[1..]| ==> !p(s[1..][i]) by {
        forall i | 0 <= i < |s[1..]| ensures !p(s[1..][i]) { assert s[1..][i] == s[i + 1]; }
      }
      SelectNone(s[1..], p);
    } else {
      assert !p(s[0]);
      forall i | 0 <= i < |s[1..]| && i != k - 1 ensures !p(s[1..][i]) { assert s[1..][i] == s[i + 1]; }
      SelectSingle(s[1..], p, k - 1);
    }
  }

  lemma {:induction false} SelectNone<T(!new)>(s: seq<T>, p: T -> bool)
    requires forall i :: 0 <= i < |s| ==> !p(s[i])
    ensures Select(s, p) == []
  {
    if s != [] {
      assert forall i :: 0 <= i < |s[1..]| ==> !p(s[1..][i]) by {
        forall i | 0 <= i < |s[1..]| ensures !p(s[1..][i]) { assert s[1..][i] == s[i + 1]; }
      }
      SelectNone(s[1..], p);
    }
  }

  /** Every two rows of `s`, taken in table order, are related by `ok`. */
  ghost predicate Pairwise<T>(s: seq<T>, ok: (T, T) -> bool)
  {
    forall i, j :: 0 <= i < j < |s| ==> ok(s[i], s[j])
  }

  /** Filtering keeps any pairwise property of a table (a key, a uniqueness rule). */
  lemma {:induction false} SelectPairwise<T(!new)>(s: seq<T>, p: T -> bool, ok: (T, T) -> bool)
    requires Pairwise(s, ok)
    ensures Pairwise(Select(s, p), ok)
  {
    if s != [] {
      assert Pairwise(s[1..], ok) by {
        forall i, j | 0 <= i < j < |s[1..]| ensures ok(s[1..][i], s[1..][j]) {
          assert s[1..][i] == s[i + 1] && s[1..][j] == s[j + 1];
        }
      }
      SelectPairwise(s[1..], p, ok);
      if p(s[0]) {
        var r := Select(s[1..], p);
        forall i, j | 0 <= i < j < |[s[0]] + r| ensures ok(([s[0]] + r)[i], ([s[0]] + r)[j]) {
          if i == 0 {
            var x := r[j - 1];
            assert x in s[1..];
            var k :| 0 <= k < |s[1..]| && s[1..][k] == x;
            assert s[k + 1] == x;
          } else {
            assert ([s[0]] + r)[i] == r[i - 1] && ([s[0]] + r)[j] == r[j - 1];
          }
        }
      }
    }
  }

  /** `s` is ordered by `key`, largest first. */
  ghost predicate SortedDesc<T>(s: seq<T>, key: T -> int)
  {
    forall i, j :: 0 <= i < j < |s| ==> key(s[i]) >= key(s[j])
  }

  /** Inserts `x` into a sequence already ordered largest-first. */
  function InsertDesc<T>(x: T, s: seq<T>, key: T -> int): (r: seq<T>)
    ensures multiset(r) == multiset(s) + multiset{x}
    ensures |r| == |s| + 1
  {
    if s == [] || key(x) >= key(s[0]) then [x] + s
    else
      assert s == [s[0]] + s[1..];
      [s[0]] + InsertDesc(x, s[1..], key)
  }

  /** The rows of `s`, newest first. */
  function OrderDesc<T>(s: seq<T>, key: T -> int): (r: seq<T>)
    ensures multiset(r) == multiset(s)
    ensures |r| == |s|
  {
    if s == [] then []
    else
      assert s == [s[0]] + s[1..];
      InsertDesc(s[0], OrderDesc(s[1..], key), key)
  }

  lemma {:induction false} InsertDescSorted<T>(x: T, s: seq<T>, key: T -> int)
    requires SortedDesc(s, key)
    ensures SortedDesc(InsertDesc(x, s, key), key)
  {
    if s == [] || key(x) >= key(s[0]) {
    } else {
      InsertDescSorted(x, s[1..], key);
      var r := InsertDesc(x, s[1..], key);
      // every element of r is x or an element of s[1..], all no larger than s[0]
      forall k | 0 <= k < |r| ensures key(r[k]) <= key(s[0]) {
        assert r[k] in multiset(r);
        assert r[k] in multiset(s[1..]) + multiset{x};
        if r[k] in multiset(s[1..]) {
          var j :| 0 <= j < |s[1..]| && s[1..][j] == r[k];
          assert s[j + 1] == r[k];
        }
      }
    }
  }

  /** `OrderDesc` returns the input's rows sorted newest first. */
  lemma {:induction false} OrderDescSorted<T>(s: seq<T>, key: T -> int)
    ensures SortedDesc(OrderDesc(s, key), key)
    ensures multiset(OrderDesc(s, key)) == multiset(s)
  {
    if s != [] {
      OrderDescSorted(s[1..], key);
      InsertDescSorted(s[0], OrderDesc(s[1..], key), key);
    }
  }

  /** Membership is exactly the input's. */
  lemma OrderDescMembers<T>(s: seq<T>, key: T -> int, x: T)
    ensures x in OrderDesc(s, key) <==> x in s
  {
    var r := OrderDesc(s, key);
    assert multiset(r) == multiset(s);
    assert x in r <==> x in multiset(r);
    assert x in s <==> x in multiset(s);
  }
}
