/** The shape shared by every aggregation query of the analysis scripts:
    WHERE -> GROUP BY -> COUNT(*) / ROUND(AVG(salary_in_usd), 0) -> HAVING -> ORDER BY -> LIMIT. */
module Grouping {
  import opened Basics
  import opened Seqs
  import opened Postings

  /** The distinct elements of `xs` in order of first occurrence (pandas `unique()`). */
  function Distinct<K(==,!new)>(xs: seq<K>): (r: seq<K>)
    ensures forall x :: x in r <==> x in xs
    ensures NoDups(r)
    decreases |xs|
  {
    if |xs| == 0 then []
    else
      var init := xs[..|xs| - 1];
      assert xs == init + [xs[|xs| - 1]];
      var rest := Distinct(init);
      if xs[|xs| - 1] in rest then rest else rest + [xs[|xs| - 1]]
  }

  /** The values of one column, row by row. */
  function Column<K>(rows: seq<Row>, key: Row -> K): (r: seq<K>)
    ensures |r| == |rows|
    ensures forall i :: 0 <= i < |rows| ==> r[i] == key(rows[i])
  {
    seq(|rows|, i requires 0 <= i < |rows| => key(rows[i]))
  }

  /** The distinct values of a column, in order of first occurrence. */
  function Keys<K(==,!new)>(rows: seq<Row>, key: Row -> K): (ks: seq<K>)
    ensures forall r :: r in rows ==> key(r) in ks
    ensures forall k :: k in ks <==> k in Column(rows, key)
    ensures NoDups(ks)
  {
    var col := Column(rows, key);
    assert forall r :: r in rows ==> key(r) in col;
    Distinct(col)
  }

  /** One group of a GROUP BY: its key and the rows that carry it. */
  datatype Group<K> = Group(key: K, members: seq<Row>)

  /** COUNT(*) of a group. */
  function Size<K>(g: Group<K>): nat
  {
    |g.members|
  }

  /** The row predicate `key(r) == k`. */
  function KeyIs<K(==,!new)>(key: Row -> K, k: K): Row -> bool
  {
    r => key(r) == k
  }

  /** One group per key of `ks`, in the order of `ks`. */
  function GroupsFor<K(==,!new)>(rows: seq<Row>, key: Row -> K, ks: seq<K>): (gs: seq<Group<K>>)
    ensures |gs| == |ks|
    ensures forall i :: 0 <= i < |ks| ==> gs[i] == Group(ks[i], Where(rows, KeyIs(key, ks[i])))
    decreases |ks|
  {
    if |ks| == 0 then []
    else [Group(ks[0], Where(rows, KeyIs(key, ks[0])))] + GroupsFor(rows, key, ks[1..])
  }

  /** The groups for a duplicate-free list of keys that all occur have distinct keys and
      no empty group. */
  lemma GroupsForShape<K(!new)>(rows: seq<Row>, key: Row -> K, ks: seq<K>)
    requires NoDups(ks)
    requires forall k :: k in ks ==> k in Column(rows, key)
    ensures forall i :: 0 <= i < |ks| ==> |GroupsFor(rows, key, ks)[i].members| > 0
    ensures NoDups(GroupsFor(rows, key, ks))
  {
    var gs := GroupsFor(rows, key, ks);
    forall i | 0 <= i < |gs| ensures |gs[i].members| > 0 {
      assert ks[i] in Column(rows, key);
      var j :| 0 <= j < |rows| && Column(rows, key)[j] == ks[i];
      assert rows[j] in rows && KeyIs(key, ks[i])(rows[j]);
      assert rows[j] in gs[i].members;
    }
    forall i, j | 0 <= i < j < |gs| ensures gs[i] != gs[j] {
      assert gs[i].key == ks[i] && gs[j].key == ks[j];
    }
  }

  /** The key column of a grouped result. */
  function GroupKeys<K>(gs: seq<Group<K>>): (ks: seq<K>)
    ensures |ks| == |gs|
    ensures forall i :: 0 <= i < |gs| ==> ks[i] == gs[i].key
  {
    seq(|gs|, i requires 0 <= i < |gs| => gs[i].key)
  }

  /** GROUP BY `key`: one group per distinct key value, in order of first occurrence,
      each holding every row with that key. */
  function GroupBy<K(==,!new)>(rows: seq<Row>, key: Row -> K): (gs: seq<Group<K>>)
    ensures forall i :: 0 <= i < |gs| ==> gs[i].members == Where(rows, KeyIs(key, gs[i].key))
    ensures forall i :: 0 <= i < |gs| ==> |gs[i].members| > 0
    ensures forall i, j :: 0 <= i < j < |gs| ==> gs[i].key != gs[j].key
    ensures GroupKeys(gs) == Keys(rows, key)
    ensures NoDups(gs)
  {
    var ks := Keys(rows, key);
    GroupsForShape(rows, key, ks);
    GroupsFor(rows, key, ks)
  }

  /** A key occurs in some row exactly when GROUP BY has a group for it. */
  lemma KeyPresentHasGroup<K(!new)>(rows: seq<Row>, key: Row -> K, k: K)
    ensures |Where(rows, KeyIs(key, k))| > 0 <==> k in GroupKeys(GroupBy(rows, key))
  {
    var ks := Keys(rows, key);
    if |Where(rows, KeyIs(key, k))| > 0 {
      var x := Where(rows, KeyIs(key, k))[0];
      assert x in rows && key(x) == k;
    }
    if k in ks {
      assert k in Column(rows, key);
      var j :| 0 <= j < |rows| && Column(rows, key)[j] == k;
      assert rows[j] in Where(rows, KeyIs(key, k));
    }
  }

  /** The distinct values of a column are exactly the values some row carries. */
  lemma KeysAreValuesPresent<K(!new)>(rows: seq<Row>, key: Row -> K)
    ensures forall k :: k in Keys(rows, key) <==> |Where(rows, KeyIs(key, k))| > 0
  {
    forall k ensures k in Keys(rows, key) <==> |Where(rows, KeyIs(key, k))| > 0 {
      KeyPresentHasGroup(rows, key, k);
    }
  }

  /** A reordering of GROUP BY's groups still holds, for each key present in the rows,
      exactly one group with all of that key's rows. */
  lemma PermutedGroups<K(!new)>(rows: seq<Row>, key: Row -> K, r: seq<Group<K>>)
    requires multiset(r) == multiset(GroupBy(rows, key))
    ensures forall i :: 0 <= i < |r| ==> r[i].members == Where(rows, KeyIs(key, r[i].key))
    ensures forall k :: |Where(rows, KeyIs(key, k))| > 0 <==> k in GroupKeys(r)
  {
    var gs := GroupBy(rows, key);
    forall i | 0 <= i < |r| ensures r[i].members == Where(rows, KeyIs(key, r[i].key)) {
      assert r[i] in multiset(gs);
    }
    forall k ensures |Where(rows, KeyIs(key, k))| > 0 <==> k in GroupKeys(r) {
      KeyPresentHasGroup(rows, key, k);
      if k in GroupKeys(gs) {
        var j :| 0 <= j < |gs| && GroupKeys(gs)[j] == k;
        assert gs[j] in multiset(r);
        var i :| 0 <= i < |r| && r[i] == gs[j];
        assert GroupKeys(r)[i] == k;
      }
      if k in GroupKeys(r) {
        var i :| 0 <= i < |r| && GroupKeys(r)[i] == k;
        assert r[i] in multiset(gs);
        var j :| 0 <= j < |gs| && gs[j] == r[i];
        assert GroupKeys(gs)[j] == k;
      }
    }
  }

  /** The first group with key `k`, if any: pandas `series[k]`, a KeyError when absent. */
  function FindGroup<K(==)>(gs: seq<Group<K>>, k: K): (r: Option<Group<K>>)
    ensures r.None? <==> k !in GroupKeys(gs)
    ensures r.Some? ==> r.value in gs && r.value.key == k
    decreases |gs|
  {
    if |gs| == 0 then None
    else if gs[0].key == k then Some(gs[0])
    else
      assert GroupKeys(gs) == [gs[0].key] + GroupKeys(gs[1..]);
      FindGroup(gs[1..], k)
  }

  /** Looking a key up in a reordering of GROUP BY's groups finds all rows with that key,
      and fails exactly when no row has it. */
  lemma FindInPermutedGroups<K(!new)>(rows: seq<Row>, key: Row -> K, r: seq<Group<K>>, k: K)
    requires multiset(r) == multiset(GroupBy(rows, key))
    ensures FindGroup(r, k).None? <==> |Where(rows, KeyIs(key, k))| == 0
    ensures FindGroup(r, k).Some? ==> FindGroup(r, k).value.members == Where(rows, KeyIs(key, k))
  {
    PermutedGroups(rows, key, r);
    if FindGroup(r, k).Some? {
      var i :| 0 <= i < |r| && r[i] == FindGroup(r, k).value;
    }
  }

  /** How many keys of `ks` equal `k`. */
  ghost function Hits<K>(ks: seq<K>, k: K): nat
    decreases |ks|
  {
    if |ks| == 0 then 0 else (if ks[0] == k then 1 else 0) + Hits(ks[1..], k)
  }

  lemma {:induction false} HitsOfDistinct<K>(ks: seq<K>, k: K)
    requires NoDups(ks)
    ensures Hits(ks, k) == if k in ks then 1 else 0
    decreases |ks|
  {
    if |ks| > 0 {
      assert NoDups(ks[1..]) by {
        forall i, j | 0 <= i < j < |ks[1..]| ensures ks[1..][i] != ks[1..][j] {
          assert ks[1..][i] == ks[i + 1] && ks[1..][j] == ks[j + 1];
        }
      }
      HitsOfDistinct(ks[1..], k);
      if ks[0] == k {
        forall j | 0 <= j < |ks[1..]| ensures ks[1..][j] != k {
          assert ks[1..][j] == ks[j + 1];
        }
      }
      assert ks == [ks[0]] + ks[1..];
    }
  }

  /** Adding one row in front adds one to the size of each group whose key it carries. */
  lemma {:induction false} GroupsForCons<K(!new)>(rows: seq<Row>, key: Row -> K, ks: seq<K>)
    requires |rows| > 0
    ensures SumOf(GroupsFor(rows, key, ks), Size) ==
            SumOf(GroupsFor(rows[1..], key, ks), Size) + Hits(ks, key(rows[0]))
    decreases |ks|
  {
    if |ks| > 0 {
      GroupsForCons(rows, key, ks[1..]);
      assert rows == [rows[0]] + rows[1..];
      assert Where(rows, KeyIs(key, ks[0])) ==
        if key(rows[0]) == ks[0] then [rows[0]] + Where(rows[1..], KeyIs(key, ks[0]))
        else Where(rows[1..], KeyIs(key, ks[0]));
    }
  }

  /** Partition: when `ks` lists every key exactly once, the group sizes add up to the row count. */
  lemma {:induction false} GroupsForPartition<K(!new)>(rows: seq<Row>, key: Row -> K, ks: seq<K>)
    requires NoDups(ks)
    requires forall r :: r in rows ==> key(r) in ks
    ensures SumOf(GroupsFor(rows, key, ks), Size) == |rows|
    decreases |rows|
  {
    if |rows| == 0 {
      var gs := GroupsFor(rows, key, ks);
      assert forall i :: 0 <= i < |gs| ==> Size(gs[i]) == 0;
      ZeroSum(gs);
    } else {
      GroupsForPartition(rows[1..], key, ks);
      GroupsForCons(rows, key, ks);
      HitsOfDistinct(ks, key(rows[0]));
    }
  }

  lemma {:induction false} ZeroSum<K>(gs: seq<Group<K>>)
    requires forall i :: 0 <= i < |gs| ==> Size(gs[i]) == 0
    ensures SumOf(gs, Size) == 0
    decreases |gs|
  {
    if |gs| > 0 {
      ZeroSum(gs[1..]);
    }
  }

  /** Without WHERE and HAVING, the COUNT(*) column of a GROUP BY sums to the row count. */
  lemma GroupByPartition<K(!new)>(rows: seq<Row>, key: Row -> K)
    ensures SumOf(GroupBy(rows, key), Size) == |rows|
  {
    GroupsForPartition(rows, key, Keys(rows, key));
  }

  /** ROUND(AVG(x), 0) in SQLite over `count` non-negative values summing to `total`: the
      mean rounded to the nearest integer, halves rounded up (away from zero).
      An empty group has no average; it never reaches this function from a GROUP BY. */
  function RoundedMean(total: nat, count: nat): (r: nat)
    ensures count > 0 ==> 2 * (count * r) <= 2 * total + count < 2 * (count * r) + 2 * count
  {
    if count == 0 then 0 else (2 * total + count) / (2 * count)
  }

  lemma MulMonotone(c: nat, a: int, b: int)
    requires a <= b
    ensures c * a <= c * b
  {
  }

  /** Arithmetic core of `RoundedMeanWithinRange`. */
  lemma RoundedBetween(n: nat, total: nat, lo: nat, hi: nat, r: nat)
    requires n > 0
    requires n * lo <= total <= n * hi
    requires 2 * (n * r) <= 2 * total + n < 2 * (n * r) + 2 * n
    ensures lo <= r <= hi
  {
    if r > hi {
      assert n * (hi + 1) == n * hi + n;
      MulMonotone(n, hi + 1, r);
    }
    if r < lo {
      assert n * (r + 1) == n * r + n;
      MulMonotone(n, r + 1, lo);
    }
  }

  /** The rounded mean of a non-empty set of salaries lies within their range. */
  lemma RoundedMeanWithinRange(rows: seq<Row>)
    requires |rows| > 0
    ensures MinSalary(rows) <= RoundedMean(SalarySum(rows), |rows|) <= MaxSalary(rows)
  {
    SalarySumBounds(rows);
    var n, total := |rows|, SalarySum(rows);
    var r := RoundedMean(total, n);
    RoundedBetween(n, total, MinSalary(rows), MaxSalary(rows), r);
  }

  /** ROUND(AVG(salary_in_usd), 0) of a group. */
  function AverageSalary<K>(g: Group<K>): nat
  {
    RoundedMean(SalarySum(g.members), |g.members|)
  }

  /** One aggregation query over the posting table.
      `rowFilter` is the WHERE clause, `groupKey` the GROUP BY expression, `having` the
      HAVING clause, `score` the ORDER BY expression, `limit` the LIMIT. */
  datatype Query<!K> = Query(
    rowFilter: Row -> bool,
    groupKey: Row -> K,
    having: Group<K> -> bool,
    score: Group<K> -> int,
    descending: bool,
    limit: Option<nat>)

  /** The groups that survive WHERE, GROUP BY and HAVING, before ordering. */
  function Qualifying<K(==,!new)>(q: Query<K>, rows: seq<Row>): seq<Group<K>>
  {
    Where(GroupBy(Where(rows, q.rowFilter), q.groupKey), q.having)
  }

  /** `a` may be listed before `b` under the query's ORDER BY. */
  predicate Precedes<K>(q: Query<K>, a: Group<K>, b: Group<K>)
  {
    if q.descending then q.score(a) >= q.score(b) else q.score(a) <= q.score(b)
  }

  /** Number of result rows under a LIMIT. */
  function LimitLength(limit: Option<nat>, n: nat): nat
  {
    match limit
    case None => n
    case Some(l) => Min(l, n)
  }

  /** `out` is a ranking of the candidate groups `all` that SQLite may return for `q`.
      ORDER BY has no tie-break, so any order of tied groups is allowed: `out` is
      LIMIT-long, drawn from `all`, ranked, and no omitted group ranks ahead of a listed
      one. */
  ghost predicate Ranked<K(!new)>(q: Query<K>, all: seq<Group<K>>, out: seq<Group<K>>)
  {
    && |out| == LimitLength(q.limit, |all|)
    && multiset(out) <= multiset(all)
    && (forall i, j :: 0 <= i < j < |out| ==> Precedes(q, out[i], out[j]))
    && (forall g, i :: multiset(out)[g] < multiset(all)[g] && 0 <= i < |out| ==> Precedes(q, out[i], g))
  }

  /** `out` is a result SQLite may return for `q` over `rows`. */
  ghost predicate Admissible<K(!new)>(q: Query<K>, rows: seq<Row>, out: seq<Group<K>>)
  {
    Ranked(q, Qualifying(q, rows), out)
  }

  function RealScore<K>(q: Query<K>): Group<K> -> real
  {
    g => q.score(g) as real
  }

  /** A prefix of the candidates sorted by score, as long as the LIMIT allows, is a
      ranking SQLite may return. */
  lemma SortedPrefixIsRanked<K(!new)>(q: Query<K>, all: seq<Group<K>>, sorted: seq<Group<K>>, n: nat)
    requires multiset(sorted) == multiset(all)
    requires SortedBy(sorted, RealScore(q), q.descending)
    requires n == LimitLength(q.limit, |sorted|)
    ensures Ranked(q, all, sorted[..n])
  {
    var out := sorted[..n];
    assert |sorted| == |all| by {
      assert |multiset(sorted)| == |multiset(all)|;
    }
    SortedPrefix(sorted, RealScore(q), q.descending, n);
    forall i, j | 0 <= i < j < |out| ensures Precedes(q, out[i], out[j]) {
      assert InOrder(RealScore(q), q.descending, out[i], out[j]);
    }
    forall g, i | multiset(out)[g] < multiset(all)[g] && 0 <= i < |out|
      ensures Precedes(q, out[i], g)
    {
      assert InOrder(RealScore(q), q.descending, sorted[i], g);
    }
  }

  /** Runs a query: sorts the qualifying groups and applies the LIMIT. */
  function Run<K(==,!new)>(q: Query<K>, rows: seq<Row>): (out: seq<Group<K>>)
    ensures Admissible(q, rows, out)
  {
    var sorted := SortBy(Qualifying(q, rows), RealScore(q), q.descending);
    var n := LimitLength(q.limit, |sorted|);
    SortedPrefixIsRanked(q, Qualifying(q, rows), sorted, n);
    sorted[..n]
  }

  /** Every admissible result row is a qualifying group, listed once, within the LIMIT. */
  lemma AdmissibleDrawn<K(!new)>(q: Query<K>, rows: seq<Row>, out: seq<Group<K>>)
    requires Admissible(q, rows, out)
    ensures q.limit.Some? ==> |out| <= q.limit.value
    ensures |out| <= |Qualifying(q, rows)|
    ensures forall i :: 0 <= i < |out| ==> out[i] in Qualifying(q, rows)
    ensures NoDups(out)
  {
    var all := Qualifying(q, rows);
    forall i | 0 <= i < |out| ensures out[i] in all {
      assert out[i] in multiset(out);
    }
    NoDupsOfSubMultiset(all, GroupBy(Where(rows, q.rowFilter), q.groupKey));
    NoDupsOfSubMultiset(out, all);
  }

  /** What every admissible result row is: a qualifying group with its full count and
      its HAVING clause satisfied, listed once under distinct keys, in ORDER BY order,
      within the LIMIT. */
  lemma AdmissibleShape<K(!new)>(q: Query<K>, rows: seq<Row>, out: seq<Group<K>>)
    requires Admissible(q, rows, out)
    ensures q.limit.Some? ==> |out| <= q.limit.value
    ensures |out| <= |Qualifying(q, rows)|
    ensures forall i :: 0 <= i < |out| ==>
      && q.having(out[i])
      && |out[i].members| > 0
      && out[i].members == Where(Where(rows, q.rowFilter), KeyIs(q.groupKey, out[i].key))
    ensures forall i, j :: 0 <= i < j < |out| ==> out[i].key != out[j].key
    ensures forall i, j :: 0 <= i < j < |out| ==> Precedes(q, out[i], out[j])
  {
    AdmissibleDrawn(q, rows, out);
    var grouped := GroupBy(Where(rows, q.rowFilter), q.groupKey);
    forall i | 0 <= i < |out|
      ensures q.having(out[i]) && |out[i].members| > 0
      ensures out[i].members == Where(Where(rows, q.rowFilter), KeyIs(q.groupKey, out[i].key))
    {
      assert out[i] in Qualifying(q, rows);
      var a :| 0 <= a < |grouped| && grouped[a] == out[i];
    }
    forall i, j | 0 <= i < j < |out| ensures out[i].key != out[j].key {
      assert out[i] in Qualifying(q, rows) && out[j] in Qualifying(q, rows);
      var a :| 0 <= a < |grouped| && grouped[a] == out[i];
      var b :| 0 <= b < |grouped| && grouped[b] == out[j];
      assert out[i] != out[j];
    }
  }

  /** Without a LIMIT that bites, the result lists every qualifying group exactly once. */
  lemma AdmissibleComplete<K(!new)>(q: Query<K>, rows: seq<Row>, out: seq<Group<K>>)
    requires Admissible(q, rows, out)
    requires q.limit.None? || |Qualifying(q, rows)| <= q.limit.value
    ensures multiset(out) == multiset(Qualifying(q, rows))
    ensures forall g :: g in Qualifying(q, rows) ==> g in out
    ensures SumOf(out, Size) == SumOf(Qualifying(q, rows), Size)
  {
    SubMultisetOfSameSize(out, Qualifying(q, rows));
    assert forall g :: g in Qualifying(q, rows) ==> g in multiset(out);
    SumOfPermutation(out, Qualifying(q, rows), Size);
  }

  /** Top-N guarantee: a qualifying group left out of the result ranks no better than
      any group listed. */
  lemma AdmissibleTopN<K(!new)>(q: Query<K>, rows: seq<Row>, out: seq<Group<K>>, g: Group<K>)
    requires Admissible(q, rows, out)
    requires g in Qualifying(q, rows)
    requires g !in out
    ensures forall i :: 0 <= i < |out| ==> Precedes(q, out[i], g)
  {
    assert multiset(out)[g] == 0 < multiset(Qualifying(q, rows))[g];
  }

  /** The group of rows with key `k` is among the qualifying groups when some row passing
      the WHERE clause has key `k` and the group passes HAVING. */
  lemma GroupOfKeyQualifies<K(!new)>(q: Query<K>, rows: seq<Row>, k: K)
    requires exists r :: r in Where(rows, q.rowFilter) && q.groupKey(r) == k
    requires q.having(Group(k, Where(Where(rows, q.rowFilter), KeyIs(q.groupKey, k))))
    ensures Group(k, Where(Where(rows, q.rowFilter), KeyIs(q.groupKey, k))) in Qualifying(q, rows)
  {
    var filtered := Where(rows, q.rowFilter);
    var gs := GroupBy(filtered, q.groupKey);
    var r :| r in filtered && q.groupKey(r) == k;
    assert r in Where(filtered, KeyIs(q.groupKey, k));
    KeyPresentHasGroup(filtered, q.groupKey, k);
    var i :| 0 <= i < |gs| && GroupKeys(gs)[i] == k;
    assert gs[i] == Group(k, Where(filtered, KeyIs(q.groupKey, k)));
  }

  /** No WHERE clause. */
  function AnyRow(r: Row): bool
  {
    true
  }

  /** No HAVING clause. */
  function AnyGroup<K>(g: Group<K>): bool
  {
    true
  }

  /** `COUNT(*)` of a group. */
  function CountScore<K>(g: Group<K>): int
  {
    Size(g)
  }

  /** `ROUND(AVG(salary_in_usd), 0)` of a group. */
  function AverageScore<K>(g: Group<K>): int
  {
    AverageSalary(g)
  }

  /** With no WHERE and no HAVING clause the qualifying groups are exactly the groups of
      the whole table, one per distinct key. */
  lemma UnfilteredQualifying<K(!new)>(q: Query<K>, rows: seq<Row>)
    requires forall r :: q.rowFilter(r)
    requires forall g :: q.having(g)
    ensures Qualifying(q, rows) == GroupBy(rows, q.groupKey)
    ensures |Qualifying(q, rows)| == |Keys(rows, q.groupKey)|
  {
    WhereOfAll(rows, q.rowFilter);
    WhereOfAll(GroupBy(rows, q.groupKey), q.having);
    assert |GroupKeys(GroupBy(rows, q.groupKey))| == |Keys(rows, q.groupKey)|;
  }

  /** Every rounded average in a result lies between the smallest and the largest salary
      of its group. */
  lemma AdmissibleAverages<K(!new)>(q: Query<K>, rows: seq<Row>, out: seq<Group<K>>)
    requires Admissible(q, rows, out)
    ensures forall i :: 0 <= i < |out| ==>
      |out[i].members| > 0 && MinSalary(out[i].members) <= AverageSalary(out[i]) <= MaxSalary(out[i].members)
  {
    AdmissibleShape(q, rows, out);
    forall i | 0 <= i < |out|
      ensures MinSalary(out[i].members) <= AverageSalary(out[i]) <= MaxSalary(out[i].members)
    {
      RoundedMeanWithinRange(out[i].members);
    }
  }

  /** Without HAVING and LIMIT a result lists every group of the filtered rows once, in
      some ranked order: one row per distinct key, counts adding up to the filtered rows. */
  lemma UnlimitedReport<K(!new)>(q: Query<K>, rows: seq<Row>, out: seq<Group<K>>)
    requires Admissible(q, rows, out)
    requires forall g :: q.having(g)
    requires q.limit.None?
    ensures multiset(out) == multiset(GroupBy(Where(rows, q.rowFilter), q.groupKey))
    ensures |out| == |Keys(Where(rows, q.rowFilter), q.groupKey)|
    ensures forall k :: k in GroupKeys(out) <==> |Where(Where(rows, q.rowFilter), KeyIs(q.groupKey, k))| > 0
    ensures forall i :: 0 <= i < |out| ==> out[i].members == Where(Where(rows, q.rowFilter), KeyIs(q.groupKey, out[i].key))
    ensures forall i, j :: 0 <= i < j < |out| ==> out[i].key != out[j].key
    ensures SumOf(out, Size) == |Where(rows, q.rowFilter)|
  {
    var filtered := Where(rows, q.rowFilter);
    var gs := GroupBy(filtered, q.groupKey);
    WhereOfAll(gs, q.having);
    AdmissibleComplete(q, rows, out);
    AdmissibleShape(q, rows, out);
    GroupByPartition(filtered, q.groupKey);
    PermutedGroups(filtered, q.groupKey, out);
    assert |out| == |multiset(out)| == |multiset(gs)| == |gs|;
    assert |GroupKeys(gs)| == |Keys(filtered, q.groupKey)|;
  }

  /** When exactly two groups are candidates and one strictly outranks the other, ORDER BY
      leaves SQLite no choice: the result is the two groups in that order. */
  lemma RankedOfTwo<K(!new)>(q: Query<K>, all: seq<Group<K>>, out: seq<Group<K>>, a: Group<K>, b: Group<K>)
    requires Ranked(q, all, out)
    requires q.limit.None? || q.limit.value >= 2
    requires all == [a, b] || all == [b, a]
    requires !Precedes(q, b, a)
    ensures out == [a, b]
  {
    assert multiset(all) == multiset{a, b};
    assert |out| == 2;
    assert a != b;
    assert out[0] in multiset(out) && out[1] in multiset(out);
    assert out[0] in multiset{a, b} && out[1] in multiset{a, b};
    assert out == [out[0], out[1]];
    assert multiset(out) == multiset{out[0], out[1]};
    assert Precedes(q, out[0], out[1]);
  }
}
