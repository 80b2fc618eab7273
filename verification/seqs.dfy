/** Generic sequence operations the data pipeline is built from: filtering, ordered
    subsequences, duplicate-freedom, sums, and sorting by a key. */
module Seqs {

  /** `r` can be obtained from `s` by deleting elements, keeping the order of the rest. */
  ghost predicate IsSubsequence<T>(r: seq<T>, s: seq<T>)
    decreases |s|
  {
    |r| == 0 ||
    (|s| > 0 && ((r[0] == s[0] && IsSubsequence(r[1..], s[1..])) || IsSubsequence(r, s[1..])))
  }

  /** The elements of `s` satisfying `p`, in their original order: a pandas boolean
      mask or an SQL WHERE clause. */
  function Where<T(!new)>(s: seq<T>, p: T -> bool): (r: seq<T>)
    ensures |r| <= |s|
    ensures forall i :: 0 <= i < |r| ==> p(r[i])
    ensures forall x :: x in r <==> x in s && p(x)
    ensures forall x :: multiset(r)[x] == if p(x) then multiset(s)[x] else 0
    ensures IsSubsequence(r, s)
    decreases |s|
  {
    if |s| == 0 then []
    else
      assert s == [s[0]] + s[1..];
      if p(s[0]) then [s[0]] + Where(s[1..], p) else Where(s[1..], p)
  }

  lemma WhereOfAll<T(!new)>(s: seq<T>, p: T -> bool)
    requires forall x :: x in s ==> p(x)
    ensures Where(s, p) == s
  {
    if |s| > 0 {
      WhereOfAll(s[1..], p);
    }
  }

  /** A filter selects nothing exactly when no element satisfies it. */
  lemma WhereEmpty<T(!new)>(s: seq<T>, p: T -> bool)
    ensures |Where(s, p)| == 0 <==> forall x :: x in s ==> !p(x)
  {
    var r := Where(s, p);
    if |r| > 0 {
      assert r[0] in r;
    }
  }

  /** Filtering a list with a known first element. */
  lemma WhereCons<T(!new)>(x: T, s: seq<T>, p: T -> bool)
    ensures Where([x] + s, p) == if p(x) then [x] + Where(s, p) else Where(s, p)
  {
    assert ([x] + s)[0] == x;
    assert ([x] + s)[1..] == s;
  }

  /** The conjunction of two predicates. */
  function Both<T>(p: T -> bool, q: T -> bool): T -> bool
  {
    x => p(x) && q(x)
  }

  /** Filtering twice is filtering once by the conjunction. */
  lemma {:induction false} WhereWhere<T(!new)>(s: seq<T>, p: T -> bool, q: T -> bool)
    ensures Where(Where(s, p), q) == Where(s, Both(p, q))
    decreases |s|
  {
    if |s| > 0 {
      WhereWhere(s[1..], p, q);
      if p(s[0]) {
        assert Where(s, p) == [s[0]] + Where(s[1..], p);
        assert ([s[0]] + Where(s[1..], p))[1..] == Where(s[1..], p);
      }
    }
  }

  /** A list without duplicates drawn from a finite set is no longer than the set. */
  lemma {:induction false} DistinctWithin<T>(ks: seq<T>, all: set<T>)
    requires NoDups(ks)
    requires forall i :: 0 <= i < |ks| ==> ks[i] in all
    ensures |ks| <= |all|
    decreases |ks|
  {
    if |ks| > 0 {
      forall i | 0 <= i < |ks[1..]| ensures ks[1..][i] in all - {ks[0]} {
        assert ks[1..][i] == ks[i + 1];
      }
      DistinctWithin(ks[1..], all - {ks[0]});
    }
  }

  /** No element occurs twice. */
  ghost predicate NoDups<T>(s: seq<T>)
  {
    forall i, j :: 0 <= i < j < |s| ==> s[i] != s[j]
  }

  lemma {:induction false} NoDupsAsCounts<T>(s: seq<T>)
    ensures NoDups(s) <==> forall x :: multiset(s)[x] <= 1
  {
    if |s| > 0 {
      NoDupsAsCounts(s[1..]);
      assert s == [s[0]] + s[1..];
      if NoDups(s) {
        forall j | 0 <= j < |s[1..]| ensures s[1..][j] != s[0] {
          assert s[1..][j] == s[j + 1];
        }
        assert NoDups(s[1..]) by {
          forall i, j | 0 <= i < j < |s[1..]| ensures s[1..][i] != s[1..][j] {
            assert s[1..][i] == s[i + 1] && s[1..][j] == s[j + 1];
          }
        }
      }
      if forall x :: multiset(s)[x] <= 1 {
        assert forall x :: multiset(s[1..])[x] <= 1 by {
          forall x ensures multiset(s[1..])[x] <= 1 {
            assert multiset(s)[x] == multiset{s[0]}[x] + multiset(s[1..])[x];
          }
        }
        assert multiset(s)[s[0]] == 1 + multiset(s[1..])[s[0]];
        forall i, j | 0 <= i < j < |s| ensures s[i] != s[j] {
          if i == 0 {
            assert s[j] == s[1..][j - 1];
            assert s[j] in s[1..];
          } else {
            assert s[i] == s[1..][i - 1] && s[j] == s[1..][j - 1];
          }
        }
      }
    }
  }

  /** A sub-multiset of a duplicate-free sequence is duplicate-free. */
  lemma NoDupsOfSubMultiset<T>(a: seq<T>, b: seq<T>)
    requires multiset(a) <= multiset(b)
    requires NoDups(b)
    ensures NoDups(a)
  {
    NoDupsAsCounts(b);
    NoDupsAsCounts(a);
    assert forall x :: multiset(a)[x] <= multiset(b)[x];
  }

  /** A sub-multiset of the same size is the whole multiset. */
  lemma SubMultisetOfSameSize<T>(a: seq<T>, b: seq<T>)
    requires multiset(a) <= multiset(b)
    requires |a| == |b|
    ensures multiset(a) == multiset(b)
  {
    var d := multiset(b) - multiset(a);
    assert multiset(b) == multiset(a) + d;
    assert |multiset(b)| == |multiset(a)| + |d|;
    assert |d| == 0;
  }

  /** The sum of `f` over the elements of `s`. */
  function SumOf<T>(s: seq<T>, f: T -> nat): nat
    decreases |s|
  {
    if |s| == 0 then 0 else f(s[0]) + SumOf(s[1..], f)
  }

  /** Sums of two lists that agree position by position. */
  lemma {:induction false} SumOfPointwise<T, U>(s: seq<T>, f: T -> nat, t: seq<U>, g: U -> nat)
    requires |s| == |t|
    requires forall i :: 0 <= i < |s| ==> f(s[i]) == g(t[i])
    ensures SumOf(s, f) == SumOf(t, g)
    decreases |s|
  {
    if |s| > 0 {
      SumOfPointwise(s[1..], f, t[1..], g);
    }
  }

  /** 1 for an element satisfying `p`, 0 for any other. */
  function Indicator<T>(p: T -> bool): T -> nat
  {
    x => if p(x) then 1 else 0
  }

  /** A filter keeps as many elements as there are elements satisfying the predicate,
      counted one at a time. */
  lemma {:induction false} WhereCount<T(!new)>(s: seq<T>, p: T -> bool)
    ensures |Where(s, p)| == SumOf(s, Indicator(p))
    decreases |s|
  {
    if |s| > 0 {
      WhereCount(s[1..], p);
      assert Indicator(p)(s[0]) == if p(s[0]) then 1 else 0;
    }
  }

  lemma {:induction false} SumOfConcat<T>(a: seq<T>, b: seq<T>, f: T -> nat)
    ensures SumOf(a + b, f) == SumOf(a, f) + SumOf(b, f)
    decreases |a|
  {
    if |a| == 0 {
      assert a + b == b;
    } else {
      assert (a + b)[0] == a[0];
      assert (a + b)[1..] == a[1..] + b;
      SumOfConcat(a[1..], b, f);
    }
  }

  /** Sums do not depend on the order of the summands. */
  lemma {:induction false} SumOfPermutation<T>(s: seq<T>, t: seq<T>, f: T -> nat)
    requires multiset(s) == multiset(t)
    ensures SumOf(s, f) == SumOf(t, f)
    decreases |s|
  {
    if |s| == 0 {
      assert |t| == |multiset(t)| == 0;
    } else {
      assert s == [s[0]] + s[1..];
      assert s[0] in multiset(t);
      var j :| 0 <= j < |t| && t[j] == s[0];
      var rest := t[..j] + t[j + 1..];
      assert t == t[..j] + [t[j]] + t[j + 1..];
      assert multiset(t) == multiset(t[..j]) + multiset{t[j]} + multiset(t[j + 1..]);
      assert multiset(rest) == multiset(t[..j]) + multiset(t[j + 1..]);
      assert multiset(s) == multiset{s[0]} + multiset(s[1..]);
      assert multiset(s[1..]) == multiset(s) - multiset{s[0]};
      assert multiset(rest) == multiset(t) - multiset{t[j]};
      SumOfPermutation(s[1..], rest, f);
      SumOfConcat(t[..j] + [t[j]], t[j + 1..], f);
      SumOfConcat(t[..j], [t[j]], f);
      SumOfConcat(t[..j], t[j + 1..], f);
    }
  }

  /** `a` may stand before `b` in an ordering by `key`. */
  predicate InOrder<T>(key: T -> real, descending: bool, a: T, b: T)
  {
    if descending then key(a) >= key(b) else key(a) <= key(b)
  }

  ghost predicate SortedBy<T>(s: seq<T>, key: T -> real, descending: bool)
  {
    forall i, j :: 0 <= i < j < |s| ==> InOrder(key, descending, s[i], s[j])
  }

  function Insert<T>(x: T, s: seq<T>, key: T -> real, descending: bool): (r: seq<T>)
    requires SortedBy(s, key, descending)
    ensures SortedBy(r, key, descending)
    ensures multiset(r) == multiset(s) + multiset{x}
    ensures |r| == |s| + 1
    decreases |s|
  {
    if |s| == 0 then [x]
    else if InOrder(key, descending, x, s[0]) then [x] + s
    else
      assert s == [s[0]] + s[1..];
      var tail := Insert(x, s[1..], key, descending);
      assert forall y :: y in tail ==> InOrder(key, descending, s[0], y) by {
        forall y | y in tail ensures InOrder(key, descending, s[0], y) {
          assert y in multiset(tail);
          assert y == x || y in multiset(s[1..]);
        }
      }
      [s[0]] + tail
  }

  /** Insertion sort: a sorted permutation of `s`. */
  function SortBy<T>(s: seq<T>, key: T -> real, descending: bool): (r: seq<T>)
    ensures SortedBy(r, key, descending)
    ensures multiset(r) == multiset(s)
    ensures |r| == |s|
    decreases |s|
  {
    if |s| == 0 then []
    else
      assert s == [s[0]] + s[1..];
      Insert(s[0], SortBy(s[1..], key, descending), key, descending)
  }

  /** A prefix of a sorted sequence is sorted, is drawn from it, and every element left
      over may stand after every element kept. */
  lemma SortedPrefix<T>(s: seq<T>, key: T -> real, descending: bool, n: nat)
    requires SortedBy(s, key, descending)
    requires n <= |s|
    ensures SortedBy(s[..n], key, descending)
    ensures multiset(s[..n]) <= multiset(s)
    ensures forall x, i :: multiset(s[..n])[x] < multiset(s)[x] && 0 <= i < n ==>
      InOrder(key, descending, s[i], x)
  {
    assert s == s[..n] + s[n..];
    assert multiset(s) == multiset(s[..n]) + multiset(s[n..]);
    forall x, i | multiset(s[..n])[x] < multiset(s)[x] && 0 <= i < n
      ensures InOrder(key, descending, s[i], x)
    {
      assert x in multiset(s[n..]);
      var k :| 0 <= k < |s[n..]| && s[n..][k] == x;
      assert s[n..][k] == s[n + k];
    }
  }
}
