/** The salary report: pay by experience level, by work setting, by year and by job
    category, each over the whole table. */
module SalaryAnalysis {
  import opened Basics
  import opened Seqs
  import opened Postings
  import opened Grouping

  /** The `CASE experience_level` of the first report. A code outside the four known ones
      has no label (NULL). */
  function ExperienceLabel(code: string): (name: Option<string>)
    ensures name.Some? <==> code in KnownCodes
    ensures name.Some? ==> name.value in KnownLabels
  {
    if code == "EN" then Some("Entry-Level")
    else if code == "MI" then Some("Mid-Level")
    else if code == "SE" then Some("Senior")
    else if code == "EX" then Some("Executive")
    else None
  }

  const KnownCodes: seq<string> := ["EN", "MI", "SE", "EX"]
  const KnownLabels: seq<string> := ["Entry-Level", "Mid-Level", "Senior", "Executive"]

  /** The label map is a bijection between the four codes and the four labels, position by
      position. */
  lemma ExperienceLabelTable(i: nat)
    requires i < |KnownCodes|
    ensures ExperienceLabel(KnownCodes[i]) == Some(KnownLabels[i])
  {
  }

  /** Distinct known codes get distinct labels. */
  lemma ExperienceLabelInjective(a: string, b: string)
    requires ExperienceLabel(a).Some? && ExperienceLabel(a) == ExperienceLabel(b)
    ensures a == b
  {
  }

  /** The experience report: one row per raw `experience_level` code, by rounded average
      salary, highest first. */
  function ExperienceQuery(): Query<string>
  {
    Query(AnyRow, ExperienceLevel, AnyGroup, AverageScore, true, None)
  }

  /** The clauses of `ExperienceQuery` in terms of the posting columns. */
  lemma ExperienceClauses()
    ensures var q := ExperienceQuery();
      (forall r :: q.rowFilter(r) && q.groupKey(r) == r.experienceLevel) &&
      (forall g :: q.having(g) && q.score(g) == RoundedMean(SalarySum(g.members), |g.members|)) &&
      (q.descending && q.limit == None)
  {
  }

  /** Pay by work setting, highest first. */
  function WorkSettingQuery(): Query<string>
  {
    Query(AnyRow, WorkSetting, AnyGroup, AverageScore, true, None)
  }

  /** The clauses of `WorkSettingQuery` in terms of the posting columns. */
  lemma WorkSettingClauses()
    ensures var q := WorkSettingQuery();
      (forall r :: q.rowFilter(r) && q.groupKey(r) == r.workSetting) &&
      (forall g :: q.having(g) && q.score(g) == RoundedMean(SalarySum(g.members), |g.members|)) &&
      (q.descending && q.limit == None)
  {
  }

  /** `ORDER BY work_year`. */
  function YearScore(g: Group<int>): int
  {
    g.key
  }

  /** Postings and pay per year, earliest first. */
  function TrendQuery(): Query<int>
  {
    Query(AnyRow, WorkYear, AnyGroup, YearScore, false, None)
  }

  /** The clauses of `TrendQuery` in terms of the posting columns. */
  lemma TrendClauses()
    ensures var q := TrendQuery();
      (forall r :: q.rowFilter(r) && q.groupKey(r) == r.workYear) &&
      (forall g :: q.having(g) && q.score(g) == g.key) &&
      (!q.descending && q.limit == None)
  {
  }

  /** Pay by job category, highest first. */
  function CategoryQuery(): Query<string>
  {
    Query(AnyRow, JobCategory, AnyGroup, AverageScore, true, None)
  }

  /** The clauses of `CategoryQuery` in terms of the posting columns. */
  lemma CategoryClauses()
    ensures var q := CategoryQuery();
      (forall r :: q.rowFilter(r) && q.groupKey(r) == r.jobCategory) &&
      (forall g :: q.having(g) && q.score(g) == RoundedMean(SalarySum(g.members), |g.members|)) &&
      (q.descending && q.limit == None)
  {
  }

  /** One line of the experience report: the label, `Job_Count` and `Avg_Salary_USD`. */
  datatype ExperienceLine = ExperienceLine(experience: Option<string>, jobCount: nat, avgSalaryUsd: nat)

  function LineOf(g: Group<string>): ExperienceLine
  {
    ExperienceLine(ExperienceLabel(g.key), Size(g), AverageSalary(g))
  }

  function Lines(out: seq<Group<string>>): (lines: seq<ExperienceLine>)
    ensures |lines| == |out|
    ensures forall i :: 0 <= i < |out| ==> lines[i] == LineOf(out[i])
  {
    seq(|out|, i requires 0 <= i < |out| => LineOf(out[i]))
  }

  /** A report over the whole table without HAVING or LIMIT has one row per distinct key,
      holding every row with that key, and the counts add up to the number of postings. */
  lemma WholeTableReport<K(!new)>(q: Query<K>, rows: seq<Row>, out: seq<Group<K>>)
    requires Admissible(q, rows, out)
    requires forall r :: q.rowFilter(r)
    requires forall g :: q.having(g)
    requires q.limit.None?
    ensures |out| == |Keys(rows, q.groupKey)|
    ensures forall k :: k in GroupKeys(out) <==> |Where(rows, KeyIs(q.groupKey, k))| > 0
    ensures forall i :: 0 <= i < |out| ==> out[i].members == Where(rows, KeyIs(q.groupKey, out[i].key))
    ensures forall i, j :: 0 <= i < j < |out| ==> out[i].key != out[j].key
    ensures SumOf(out, Size) == |rows|
  {
    WhereOfAll(rows, q.rowFilter);
    UnlimitedReport(q, rows, out);
  }

  /** The experience report: every code present gets exactly one row (unknown codes each
      get their own row, labelled NULL), counts add up to the number of postings, and
      rows come in non-increasing order of rounded average. */
  lemma ExperienceReportSpec(rows: seq<Row>, out: seq<Group<string>>)
    requires Admissible(ExperienceQuery(), rows, out)
    ensures |out| == |Keys(rows, ExperienceLevel)|
    ensures forall c :: c in GroupKeys(out) <==> |Where(rows, KeyIs(ExperienceLevel, c))| > 0
    ensures forall i, j :: 0 <= i < j < |out| ==> out[i].key != out[j].key
    ensures forall i :: 0 <= i < |out| ==>
      Lines(out)[i].jobCount == |Where(rows, KeyIs(ExperienceLevel, out[i].key))|
      && (Lines(out)[i].experience.None? <==> out[i].key !in KnownCodes)
    ensures forall i, j :: 0 <= i < j < |out| ==> Lines(out)[i].avgSalaryUsd >= Lines(out)[j].avgSalaryUsd
    ensures SumOf(out, Size) == |rows|
  {
    var q := ExperienceQuery();
    WholeTableReport(q, rows, out);
    forall i, j | 0 <= i < j < |out| ensures AverageSalary(out[i]) >= AverageSalary(out[j]) {
      assert Precedes(q, out[i], out[j]);
    }
  }

  /** The work-setting report: one row per setting, counts adding up to the number of
      postings, non-increasing rounded averages. */
  lemma WorkSettingReportSpec(rows: seq<Row>, out: seq<Group<string>>)
    requires Admissible(WorkSettingQuery(), rows, out)
    ensures forall s :: s in GroupKeys(out) <==> |Where(rows, KeyIs(WorkSetting, s))| > 0
    ensures forall i, j :: 0 <= i < j < |out| ==> out[i].key != out[j].key
    ensures forall i, j :: 0 <= i < j < |out| ==> AverageSalary(out[i]) >= AverageSalary(out[j])
    ensures SumOf(out, Size) == |rows|
  {
    var q := WorkSettingQuery();
    WholeTableReport(q, rows, out);
    forall i, j | 0 <= i < j < |out| ensures AverageSalary(out[i]) >= AverageSalary(out[j]) {
      assert Precedes(q, out[i], out[j]);
    }
  }

  /** The yearly trend: one row per year present, with every posting of that year, counts
      adding up to the number of postings. */
  lemma TrendReportSpec(rows: seq<Row>, out: seq<Group<int>>)
    requires Admissible(TrendQuery(), rows, out)
    ensures forall y :: y in GroupKeys(out) <==> |Where(rows, KeyIs(WorkYear, y))| > 0
    ensures forall i :: 0 <= i < |out| ==> out[i].members == Where(rows, KeyIs(WorkYear, out[i].key))
    ensures SumOf(out, Size) == |rows|
  {
    WholeTableReport(TrendQuery(), rows, out);
  }

  /** The years of the trend are strictly increasing. */
  lemma TrendYearsIncrease(rows: seq<Row>, out: seq<Group<int>>)
    requires Admissible(TrendQuery(), rows, out)
    ensures forall i, j :: 0 <= i < j < |out| ==> out[i].key < out[j].key
  {
    var q := TrendQuery();
    AdmissibleShape(q, rows, out);
    forall i, j | 0 <= i < j < |out| ensures out[i].key < out[j].key {
      assert Precedes(q, out[i], out[j]);
      assert out[i].key != out[j].key;
    }
  }

  /** The category report: one row per category present, non-increasing rounded averages,
      each within the range of the category's salaries. */
  lemma CategoryReportSpec(rows: seq<Row>, out: seq<Group<string>>)
    requires Admissible(CategoryQuery(), rows, out)
    ensures forall c :: c in GroupKeys(out) <==> |Where(rows, KeyIs(JobCategory, c))| > 0
    ensures forall i, j :: 0 <= i < j < |out| ==> out[i].key != out[j].key
    ensures SumOf(out, Size) == |rows|
    ensures forall i, j :: 0 <= i < j < |out| ==> AverageSalary(out[i]) >= AverageSalary(out[j])
    ensures forall i :: 0 <= i < |out| ==>
      |out[i].members| > 0 && MinSalary(out[i].members) <= AverageSalary(out[i]) <= MaxSalary(out[i].members)
  {
    var q := CategoryQuery();
    WholeTableReport(q, rows, out);
    AdmissibleAverages(q, rows, out);
    forall i, j | 0 <= i < j < |out| ensures AverageSalary(out[i]) >= AverageSalary(out[j]) {
      assert Precedes(q, out[i], out[j]);
    }
  }

  /** A posting that differs from the others only in level and salary. */
  function Posting(level: string, salary: nat): Row
  {
    Row("Data Scientist", level, "Remote", "M", "US", "Data Science", 2024, salary)
  }

  const ExampleRows: seq<Row> := [Posting("EN", 60000), Posting("SE", 140000), Posting("SE", 180000)]

  /** The distinct levels of the example, in order of first occurrence. */
  lemma ExampleKeys()
    ensures Keys(ExampleRows, ExperienceLevel) == ["EN", "SE"]
  {
    var col := Column(ExampleRows, ExperienceLevel);
    assert col == ["EN", "SE", "SE"];
    assert col[..2] == ["EN", "SE"] && col[..2][..1] == ["EN"] && col[..2][..1][..0] == [];
    assert Distinct(col[..2][..1][..0]) == [];
    assert Distinct(col[..2][..1]) == ["EN"];
    assert Distinct(col[..2]) == ["EN", "SE"];
  }

  /** The entry-level rows of the example. */
  lemma ExampleEntryMembers()
    ensures Where(ExampleRows, KeyIs(ExperienceLevel, "EN")) == [ExampleRows[0]]
  {
    var a, b, c := ExampleRows[0], ExampleRows[1], ExampleRows[2];
    var p := KeyIs(ExperienceLevel, "EN");
    assert ExampleRows == [a] + ([b] + ([c] + []));
    assert p(a) && !p(b) && !p(c);
    WhereCons(c, [], p);
    WhereCons(b, [c] + [], p);
    WhereCons(a, [b] + ([c] + []), p);
  }

  /** The senior rows of the example. */
  lemma ExampleSeniorMembers()
    ensures Where(ExampleRows, KeyIs(ExperienceLevel, "SE")) == [ExampleRows[1], ExampleRows[2]]
  {
    var a, b, c := ExampleRows[0], ExampleRows[1], ExampleRows[2];
    var p := KeyIs(ExperienceLevel, "SE");
    assert ExampleRows == [a] + ([b] + ([c] + []));
    assert !p(a) && p(b) && p(c);
    WhereCons(c, [], p);
    WhereCons(b, [c] + [], p);
    WhereCons(a, [b] + ([c] + []), p);
  }

  const EntryGroup: Group<string> := Group("EN", [ExampleRows[0]])
  const SeniorGroup: Group<string> := Group("SE", [ExampleRows[1], ExampleRows[2]])

  /** GROUP BY experience_level over the three example postings. */
  lemma ExampleGroups()
    ensures GroupBy(ExampleRows, ExperienceLevel) == [EntryGroup, SeniorGroup]
  {
    ExampleKeys();
    ExampleEntryMembers();
    ExampleSeniorMembers();
    var gs := GroupsFor(ExampleRows, ExperienceLevel, ["EN", "SE"]);
    assert GroupBy(ExampleRows, ExperienceLevel) == gs;
    assert |gs| == 2;
  }

  lemma ExampleAverages()
    ensures AverageSalary(EntryGroup) == 60000
    ensures AverageSalary(SeniorGroup) == 160000
  {
    var a, b, c := ExampleRows[0], ExampleRows[1], ExampleRows[2];
    assert a.salaryInUsd == 60000 && b.salaryInUsd == 140000 && c.salaryInUsd == 180000;
    assert [a][1..] == [] && [b, c][1..] == [c] && [c][1..] == [];
    assert SalarySum([a]) == 60000;
    assert SalarySum([c]) == 180000;
    assert SalarySum([b, c]) == 320000;
    assert RoundedMean(60000, 1) == 60000;
    assert RoundedMean(320000, 2) == 160000;
  }

  /** The groups the experience report ranks for the example. */
  lemma ExampleQualifying()
    ensures Qualifying(ExperienceQuery(), ExampleRows) == [EntryGroup, SeniorGroup]
  {
    ExampleGroups();
    UnfilteredQualifying(ExperienceQuery(), ExampleRows);
  }

  /** The senior group strictly outranks the entry-level one. */
  lemma ExampleRanking()
    ensures !Precedes(ExperienceQuery(), EntryGroup, SeniorGroup)
  {
    ExampleAverages();
  }

  /** The only order the ORDER BY allows for the example groups. */
  lemma ExampleOrder(out: seq<Group<string>>)
    requires Admissible(ExperienceQuery(), ExampleRows, out)
    ensures out == [SeniorGroup, EntryGroup]
  {
    ExampleQualifying();
    ExampleRanking();
    RankedOfTwo(ExperienceQuery(), Qualifying(ExperienceQuery(), ExampleRows), out, SeniorGroup, EntryGroup);
  }

  /** The report lines of the two example groups. */
  lemma ExampleLines()
    ensures Lines([SeniorGroup, EntryGroup])
      == [ExperienceLine(Some("Senior"), 2, 160000), ExperienceLine(Some("Entry-Level"), 1, 60000)]
  {
    ExampleAverages();
  }

  /** Three postings, one entry-level at 60000 and two senior at 140000 and 180000, give
      the report [Senior, 2, 160000] then [Entry-Level, 1, 60000], whatever order SQLite
      would otherwise be free to choose. */
  lemma ExperienceReportExample(out: seq<Group<string>>)
    requires Admissible(ExperienceQuery(), ExampleRows, out)
    ensures Lines(out) == [ExperienceLine(Some("Senior"), 2, 160000), ExperienceLine(Some("Entry-Level"), 1, 60000)]
  {
    ExampleOrder(out);
    ExampleLines();
  }
}
