/** The three rankings of the market-overview report: the most demanded titles, the
    best-paying titles with enough postings, and the locations with most postings. */
module RunAnalysis {
  import opened Basics
  import opened Seqs
  import opened Postings
  import opened Grouping

  /** The number of rows each ranking shows. */
  const TopN: nat := 10

  /** The least number of postings a title needs to appear in the pay ranking, minus one. */
  const MinPostings: nat := 10

  /** `HAVING COUNT(*) > 10`. */
  function EnoughPostings(g: Group<string>): bool
  {
    Size(g) > MinPostings
  }

  /** Titles by number of postings, most first, top ten. */
  function DemandQuery(): Query<string>
  {
    Query(AnyRow, JobTitle, AnyGroup, CountScore, true, Some(TopN))
  }

  /** The clauses of `DemandQuery` in terms of the posting columns. */
  lemma DemandClauses()
    ensures var q := DemandQuery();
      (forall r :: q.rowFilter(r) && q.groupKey(r) == r.jobTitle) &&
      (forall g :: q.having(g) && q.score(g) == |g.members|) &&
      (q.descending && q.limit == Some(TopN))
  {
  }

  /** Titles with more than ten postings by rounded average salary, highest first, top ten. */
  function PayQuery(): Query<string>
  {
    Query(AnyRow, JobTitle, EnoughPostings, AverageScore, true, Some(TopN))
  }

  /** The clauses of `PayQuery` in terms of the posting columns. */
  lemma PayClauses()
    ensures var q := PayQuery();
      (forall r :: q.rowFilter(r) && q.groupKey(r) == r.jobTitle) &&
      (forall g :: q.having(g) <==> |g.members| > MinPostings) &&
      (forall g :: q.score(g) == RoundedMean(SalarySum(g.members), |g.members|)) &&
      (q.descending && q.limit == Some(TopN))
  {
  }

  /** Company locations by number of postings, most first, top ten. */
  function LocationQuery(): Query<string>
  {
    Query(AnyRow, CompanyLocation, AnyGroup, CountScore, true, Some(TopN))
  }

  /** The clauses of `LocationQuery` in terms of the posting columns. */
  lemma LocationClauses()
    ensures var q := LocationQuery();
      (forall r :: q.rowFilter(r) && q.groupKey(r) == r.companyLocation) &&
      (forall g :: q.having(g) && q.score(g) == |g.members|) &&
      (q.descending && q.limit == Some(TopN))
  {
  }

  /** Whatever order SQLite picks among ties, the demand ranking lists min(10, #titles)
      distinct titles, each with the number of postings carrying it, in non-increasing
      order of that number. */
  lemma DemandRankingSpec(rows: seq<Row>, out: seq<Group<string>>)
    requires Admissible(DemandQuery(), rows, out)
    ensures |out| == Min(TopN, |Keys(rows, JobTitle)|)
    ensures forall i :: 0 <= i < |out| ==>
      Size(out[i]) >= 1 && out[i].members == Where(rows, KeyIs(JobTitle, out[i].key))
    ensures forall i, j :: 0 <= i < j < |out| ==> out[i].key != out[j].key
    ensures forall i, j :: 0 <= i < j < |out| ==> Size(out[i]) >= Size(out[j])
  {
    var q := DemandQuery();
    UnfilteredQualifying(q, rows);
    AdmissibleShape(q, rows, out);
    WhereOfAll(rows, AnyRow);
  }

  /** Top-N guarantee: a title that has postings but is not listed has no more postings
      than any listed title. */
  lemma DemandRankingTopN(rows: seq<Row>, out: seq<Group<string>>, title: string)
    requires Admissible(DemandQuery(), rows, out)
    requires |Where(rows, KeyIs(JobTitle, title))| > 0
    requires forall i :: 0 <= i < |out| ==> out[i].key != title
    ensures forall i :: 0 <= i < |out| ==> |Where(rows, KeyIs(JobTitle, title))| <= Size(out[i])
  {
    var q := DemandQuery();
    UnfilteredQualifying(q, rows);
    WhereOfAll(rows, AnyRow);
    var g := Group(title, Where(rows, KeyIs(JobTitle, title)));
    assert title in Column(rows, JobTitle) by {
      var w := Where(rows, KeyIs(JobTitle, title));
      assert w[0] in w;
    }
    GroupOfKeyQualifies(q, rows, title);
    assert g !in out;
    AdmissibleTopN(q, rows, out, g);
  }

  /** With at most ten distinct titles every title is listed, and the counts add up to
      the number of postings. */
  lemma DemandRankingComplete(rows: seq<Row>, out: seq<Group<string>>)
    requires Admissible(DemandQuery(), rows, out)
    requires |Keys(rows, JobTitle)| <= TopN
    ensures forall t :: t in GroupKeys(out) <==> |Where(rows, KeyIs(JobTitle, t))| > 0
    ensures SumOf(out, Size) == |rows|
  {
    var q := DemandQuery();
    UnfilteredQualifying(q, rows);
    AdmissibleComplete(q, rows, out);
    GroupByPartition(rows, JobTitle);
    PermutedGroups(rows, JobTitle, out);
  }

  /** The pay ranking lists at most ten distinct titles, each with more than ten postings
      and all of its rows, in non-increasing order of rounded average salary. */
  lemma PayRankingSpec(rows: seq<Row>, out: seq<Group<string>>)
    requires Admissible(PayQuery(), rows, out)
    ensures |out| == Min(TopN, |Qualifying(PayQuery(), rows)|)
    ensures forall i :: 0 <= i < |out| ==>
      Size(out[i]) > MinPostings && out[i].members == Where(rows, KeyIs(JobTitle, out[i].key))
    ensures forall i, j :: 0 <= i < j < |out| ==> out[i].key != out[j].key
    ensures forall i, j :: 0 <= i < j < |out| ==> AverageSalary(out[i]) >= AverageSalary(out[j])
  {
    var q := PayQuery();
    WhereOfAll(rows, AnyRow);
    AdmissibleShape(q, rows, out);
  }

  /** Each rounded average of the pay ranking lies within the range of its title's
      salaries. */
  lemma PayRankingAverages(rows: seq<Row>, out: seq<Group<string>>)
    requires Admissible(PayQuery(), rows, out)
    ensures forall i :: 0 <= i < |out| ==>
      |out[i].members| > 0 && MinSalary(out[i].members) <= AverageSalary(out[i]) <= MaxSalary(out[i].members)
  {
    AdmissibleAverages(PayQuery(), rows, out);
  }

  /** A title with ten postings or fewer never appears in the pay ranking. */
  lemma PayRankingExcludesRare(rows: seq<Row>, out: seq<Group<string>>, title: string)
    requires Admissible(PayQuery(), rows, out)
    requires |Where(rows, KeyIs(JobTitle, title))| <= MinPostings
    ensures forall i :: 0 <= i < |out| ==> out[i].key != title
  {
    PayRankingSpec(rows, out);
  }

  /** A title with more than ten postings is either listed or ranks no higher in pay than
      every listed title. */
  lemma PayRankingTopN(rows: seq<Row>, out: seq<Group<string>>, title: string)
    requires Admissible(PayQuery(), rows, out)
    requires |Where(rows, KeyIs(JobTitle, title))| > MinPostings
    requires forall i :: 0 <= i < |out| ==> out[i].key != title
    ensures forall i :: 0 <= i < |out| ==>
      AverageSalary(Group(title, Where(rows, KeyIs(JobTitle, title)))) <= AverageSalary(out[i])
  {
    var q := PayQuery();
    WhereOfAll(rows, AnyRow);
    var g := Group(title, Where(rows, KeyIs(JobTitle, title)));
    assert title in Column(rows, JobTitle) by {
      var w := Where(rows, KeyIs(JobTitle, title));
      assert w[0] in w;
    }
    GroupOfKeyQualifies(q, rows, title);
    assert g !in out;
    AdmissibleTopN(q, rows, out, g);
  }

  /** The location ranking lists min(10, #locations) distinct locations with their
      posting counts, in non-increasing order of count, each average within the range of
      the location's salaries. */
  lemma LocationRankingSpec(rows: seq<Row>, out: seq<Group<string>>)
    requires Admissible(LocationQuery(), rows, out)
    ensures |out| == Min(TopN, |Keys(rows, CompanyLocation)|)
    ensures forall i :: 0 <= i < |out| ==>
      Size(out[i]) >= 1 && out[i].members == Where(rows, KeyIs(CompanyLocation, out[i].key))
    ensures forall i, j :: 0 <= i < j < |out| ==> out[i].key != out[j].key
    ensures forall i, j :: 0 <= i < j < |out| ==> Size(out[i]) >= Size(out[j])
    ensures forall i :: 0 <= i < |out| ==>
      MinSalary(out[i].members) <= AverageSalary(out[i]) <= MaxSalary(out[i].members)
  {
    var q := LocationQuery();
    UnfilteredQualifying(q, rows);
    AdmissibleShape(q, rows, out);
    AdmissibleAverages(q, rows, out);
    WhereOfAll(rows, AnyRow);
  }
}
