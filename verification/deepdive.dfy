/** The entry-level deep dive: the titles, company sizes, remote locations and salary
    brackets of the postings open to entry-level candidates. */
module DeepDive {
  import opened Basics
  import opened Seqs
  import opened Postings
  import opened Grouping

  /** The spellings of the entry level the scan accepts. */
  const EntryLevelCodes: seq<string> := ["EN", "Entry-level", "Entry Level"]

  /** `experience_level IN ('EN', 'Entry-level', 'Entry Level')`: exact, case-sensitive
      comparison against the three spellings. */
  function IsEntryLevel(r: Row): (b: bool)
    ensures b <==> r.experienceLevel == "EN" || r.experienceLevel == "Entry-level"
                   || r.experienceLevel == "Entry Level"
  {
    r.experienceLevel in EntryLevelCodes
  }

  /** The comparison is exact: the report label "Entry-Level", a lower-case "en" and a
      mid-level code are not entry-level spellings. */
  lemma EntryLevelIsExact(r: Row)
    requires r.experienceLevel in ["Entry-Level", "en", "entry level", "MI"]
    ensures !IsEntryLevel(r)
  {
  }

  /** Entry-level and remote. */
  predicate IsRemoteEntry(r: Row)
  {
    IsEntryLevel(r) && IsRemote(r)
  }

  /** The four salary brackets of the reality check, lowest first. */
  datatype Bracket = Under50k | From50kTo100k | From100kTo150k | Over150k

  /** The `Salary_Bracket` text. */
  function BracketLabel(b: Bracket): string
  {
    match b
    case Under50k => "Under $50k"
    case From50kTo100k => "$50k - $100k"
    case From100kTo150k => "$100k - $150k"
    case Over150k => "Over $150k"
  }

  /** Distinct brackets have distinct labels, so grouping by the label and grouping by the
      bracket give the same groups. */
  lemma BracketLabelInjective(a: Bracket, b: Bracket)
    requires BracketLabel(a) == BracketLabel(b)
    ensures a == b
  {
  }

  /** The CASE of the reality check: the first WHEN that holds wins, and BETWEEN includes
      both ends, so 100000 lands in the lower of the two brackets that mention it. */
  function SalaryBracket(salary: nat): (b: Bracket)
    ensures b == Under50k <==> salary < 50000
    ensures b == From50kTo100k <==> 50000 <= salary <= 100000
    ensures b == From100kTo150k <==> 100000 < salary <= 150000
    ensures b == Over150k <==> salary > 150000
  {
    if salary < 50000 then Under50k
    else if 50000 <= salary <= 100000 then From50kTo100k
    else if 100000 <= salary <= 150000 then From100kTo150k
    else Over150k
  }

  /** Position of a bracket on the salary scale. */
  function BracketIndex(b: Bracket): nat
  {
    match b
    case Under50k => 0
    case From50kTo100k => 1
    case From100kTo150k => 2
    case Over150k => 3
  }

  /** A higher salary never falls in a lower bracket. */
  lemma BracketMonotone(s1: nat, s2: nat)
    requires s1 <= s2
    ensures BracketIndex(SalaryBracket(s1)) <= BracketIndex(SalaryBracket(s2))
  {
  }

  /** The bracket of a posting's salary. */
  function BracketOf(r: Row): Bracket
  {
    SalaryBracket(r.salaryInUsd)
  }

  /** q1: entry-level postings by title, most openings first, top ten. */
  function EntryTitlesQuery(): Query<string>
  {
    Query(IsEntryLevel, JobTitle, AnyGroup, CountScore, true, Some(10))
  }

  /** The clauses of `EntryTitlesQuery` in terms of the posting columns. */
  lemma EntryTitlesClauses()
    ensures var q := EntryTitlesQuery();
      (forall r :: (q.rowFilter(r) <==> IsEntryLevel(r)) && q.groupKey(r) == r.jobTitle) &&
      (forall g :: q.having(g) && q.score(g) == |g.members|) &&
      (q.descending && q.limit == Some(10))
  {
  }

  /** q2: entry-level postings by company size, most hires first. */
  function JuniorSizeQuery(): Query<string>
  {
    Query(IsEntryLevel, CompanySize, AnyGroup, CountScore, true, None)
  }

  /** The clauses of `JuniorSizeQuery` in terms of the posting columns. */
  lemma JuniorSizeClauses()
    ensures var q := JuniorSizeQuery();
      (forall r :: (q.rowFilter(r) <==> IsEntryLevel(r)) && q.groupKey(r) == r.companySize) &&
      (forall g :: q.having(g) && q.score(g) == |g.members|) &&
      (q.descending && q.limit == None)
  {
  }

  /** q3: remote entry-level postings by company location, most first, top five. */
  function RemoteJuniorQuery(): Query<string>
  {
    Query(IsRemoteEntry, CompanyLocation, AnyGroup, CountScore, true, Some(5))
  }

  /** The clauses of `RemoteJuniorQuery` in terms of the posting columns. */
  lemma RemoteJuniorClauses()
    ensures var q := RemoteJuniorQuery();
      (forall r :: q.rowFilter(r) <==>
        IsEntryLevel(r) && (r.workSetting == "Remote" || r.workSetting == "Fully Remote")) &&
      (forall r :: q.groupKey(r) == r.companyLocation) &&
      (forall g :: q.having(g) && q.score(g) == |g.members|) &&
      (q.descending && q.limit == Some(5))
  {
  }

  /** q4: entry-level postings by salary bracket, most first. */
  function BracketQuery(): Query<Bracket>
  {
    Query(IsEntryLevel, BracketOf, AnyGroup, CountScore, true, None)
  }

  /** The clauses of `BracketQuery` in terms of the posting columns. */
  lemma BracketClauses()
    ensures var q := BracketQuery();
      (forall r :: (q.rowFilter(r) <==> IsEntryLevel(r)) && q.groupKey(r) == SalaryBracket(r.salaryInUsd)) &&
      (forall g :: q.having(g) && q.score(g) == |g.members|) &&
      (q.descending && q.limit == None)
  {
  }

  /** q1 lists min(10, #entry-level titles) distinct titles, each with all of its
      entry-level postings, in non-increasing order of openings, each average within the
      range of its salaries. */
  lemma EntryTitlesSpec(rows: seq<Row>, out: seq<Group<string>>)
    requires Admissible(EntryTitlesQuery(), rows, out)
    ensures |out| == Min(10, |Keys(Where(rows, IsEntryLevel), JobTitle)|)
    ensures forall i :: 0 <= i < |out| ==>
      Size(out[i]) >= 1 && out[i].members == Where(Where(rows, IsEntryLevel), KeyIs(JobTitle, out[i].key))
    ensures forall i, j :: 0 <= i < j < |out| ==> out[i].key != out[j].key
    ensures forall i, j :: 0 <= i < j < |out| ==> Size(out[i]) >= Size(out[j])
  {
    var q := EntryTitlesQuery();
    var entry := Where(rows, IsEntryLevel);
    WhereOfAll(GroupBy(entry, JobTitle), AnyGroup);
    assert |GroupKeys(GroupBy(entry, JobTitle))| == |Keys(entry, JobTitle)|;
    AdmissibleShape(q, rows, out);
  }

  /** Each rounded average pay of q1 lies within the range of its title's entry-level
      salaries. */
  lemma EntryTitlesAverages(rows: seq<Row>, out: seq<Group<string>>)
    requires Admissible(EntryTitlesQuery(), rows, out)
    ensures forall i :: 0 <= i < |out| ==>
      |out[i].members| > 0 && MinSalary(out[i].members) <= AverageSalary(out[i]) <= MaxSalary(out[i].members)
  {
    AdmissibleAverages(EntryTitlesQuery(), rows, out);
  }

  /** Top-N guarantee of q1: an entry-level title left out has no more openings than any
      title listed. */
  lemma EntryTitlesTopN(rows: seq<Row>, out: seq<Group<string>>, title: string)
    requires Admissible(EntryTitlesQuery(), rows, out)
    requires |Where(Where(rows, IsEntryLevel), KeyIs(JobTitle, title))| > 0
    requires forall i :: 0 <= i < |out| ==> out[i].key != title
    ensures forall i :: 0 <= i < |out| ==> |Where(Where(rows, IsEntryLevel), KeyIs(JobTitle, title))| <= Size(out[i])
  {
    var q := EntryTitlesQuery();
    var w := Where(Where(rows, IsEntryLevel), KeyIs(JobTitle, title));
    assert w[0] in w;
    GroupOfKeyQualifies(q, rows, title);
    AdmissibleTopN(q, rows, out, Group(title, w));
  }

  /** q2 has one row per company size with entry-level postings, and the hires add up to
      the number of entry-level postings. */
  lemma JuniorSizeSpec(rows: seq<Row>, out: seq<Group<string>>)
    requires Admissible(JuniorSizeQuery(), rows, out)
    ensures forall s :: s in GroupKeys(out) <==> |Where(Where(rows, IsEntryLevel), KeyIs(CompanySize, s))| > 0
    ensures forall i, j :: 0 <= i < j < |out| ==> out[i].key != out[j].key
    ensures forall i, j :: 0 <= i < j < |out| ==> Size(out[i]) >= Size(out[j])
    ensures SumOf(out, Size) == |Where(rows, IsEntryLevel)|
  {
    var q := JuniorSizeQuery();
    UnlimitedReport(q, rows, out);
    AdmissibleShape(q, rows, out);
  }

  /** q3 lists at most five locations, each with all of its remote entry-level postings,
      ordered by count, non-increasing. */
  lemma RemoteJuniorSpec(rows: seq<Row>, out: seq<Group<string>>)
    requires Admissible(RemoteJuniorQuery(), rows, out)
    ensures |out| <= 5
    ensures forall i :: 0 <= i < |out| ==>
      Size(out[i]) >= 1 && out[i].members == Where(Where(rows, IsRemoteEntry), KeyIs(CompanyLocation, out[i].key))
    ensures forall i, j :: 0 <= i < j < |out| ==> Size(out[i]) >= Size(out[j])
  {
    AdmissibleShape(RemoteJuniorQuery(), rows, out);
  }

  /** q3 counts only postings that are both entry-level and remote. */
  lemma RemoteJuniorMembers(rows: seq<Row>, out: seq<Group<string>>)
    requires Admissible(RemoteJuniorQuery(), rows, out)
    ensures forall i, r :: 0 <= i < |out| && r in out[i].members ==>
      IsEntryLevel(r) && IsRemote(r) && r.companyLocation == out[i].key
  {
    RemoteJuniorSpec(rows, out);
    forall i, r | 0 <= i < |out| && r in out[i].members
      ensures IsEntryLevel(r) && IsRemote(r) && r.companyLocation == out[i].key
    {
      var remote := Where(rows, IsRemoteEntry);
      assert r in Where(remote, KeyIs(CompanyLocation, out[i].key));
      assert r in remote;
    }
  }

  /** There are four brackets, so a list of distinct brackets has at most four entries. */
  lemma DistinctBrackets(ks: seq<Bracket>)
    requires NoDups(ks)
    ensures |ks| <= 4
  {
    var all := {Under50k, From50kTo100k, From100kTo150k, Over150k};
    forall i | 0 <= i < |ks| ensures ks[i] in all {
      match ks[i]
      case Under50k =>
      case From50kTo100k =>
      case From100kTo150k =>
      case Over150k =>
    }
    DistinctWithin(ks, all);
  }

  /** q4 has at most one row per bracket, each holding only entry-level salaries of that
      bracket, in non-increasing order of count. */
  lemma BracketReportSpec(rows: seq<Row>, out: seq<Group<Bracket>>)
    requires Admissible(BracketQuery(), rows, out)
    ensures |out| <= 4
    ensures forall i, r :: 0 <= i < |out| && r in out[i].members ==>
      IsEntryLevel(r) && SalaryBracket(r.salaryInUsd) == out[i].key
    ensures forall i, j :: 0 <= i < j < |out| ==> Size(out[i]) >= Size(out[j])
  {
    var q := BracketQuery();
    AdmissibleShape(q, rows, out);
    DistinctBrackets(GroupKeys(out));
  }

  /** The bracket counts of q4 add up to the number of entry-level postings. */
  lemma BracketReportTotal(rows: seq<Row>, out: seq<Group<Bracket>>)
    requires Admissible(BracketQuery(), rows, out)
    ensures SumOf(out, Size) == |Where(rows, IsEntryLevel)|
  {
    UnlimitedReport(BracketQuery(), rows, out);
  }

  /** The company-size report and the bracket report partition the same entry-level
      postings: their counts have the same total. */
  lemma JuniorTotalsAgree(rows: seq<Row>, bySize: seq<Group<string>>, byBracket: seq<Group<Bracket>>)
    requires Admissible(JuniorSizeQuery(), rows, bySize)
    requires Admissible(BracketQuery(), rows, byBracket)
    ensures SumOf(bySize, Size) == SumOf(byBracket, Size)
  {
    JuniorSizeSpec(rows, bySize);
    BracketReportTotal(rows, byBracket);
  }
}
