/** The row entity of the `job_postings` table and the column accessors the
    queries group and filter by. Every field is present: NULL cells are not modelled. */
module Postings {

  /** One job posting. `salaryInUsd` is a whole number of US dollars. */
  datatype Row = Row(
    jobTitle: string,
    experienceLevel: string,
    workSetting: string,
    companySize: string,
    companyLocation: string,
    jobCategory: string,
    workYear: int,
    salaryInUsd: nat)

  function JobTitle(r: Row): string { r.jobTitle }
  function ExperienceLevel(r: Row): string { r.experienceLevel }
  function WorkSetting(r: Row): string { r.workSetting }
  function CompanySize(r: Row): string { r.companySize }
  function CompanyLocation(r: Row): string { r.companyLocation }
  function JobCategory(r: Row): string { r.jobCategory }
  function WorkYear(r: Row): int { r.workYear }

  /** Work settings counted as remote, both by the dashboard and by the entry-level scan. */
  predicate IsRemote(r: Row)
  {
    r.workSetting == "Remote" || r.workSetting == "Fully Remote"
  }

  /** SUM(salary_in_usd). */
  function SalarySum(rows: seq<Row>): nat
    decreases |rows|
  {
    if |rows| == 0 then 0 else rows[0].salaryInUsd + SalarySum(rows[1..])
  }

  /** MIN(salary_in_usd) of a non-empty set of rows. */
  function MinSalary(rows: seq<Row>): (m: nat)
    requires |rows| > 0
    ensures forall i :: 0 <= i < |rows| ==> m <= rows[i].salaryInUsd
    ensures exists i :: 0 <= i < |rows| && m == rows[i].salaryInUsd
    decreases |rows|
  {
    if |rows| == 1 then rows[0].salaryInUsd
    else
      var rest := MinSalary(rows[1..]);
      assert forall i :: 1 <= i < |rows| ==> rows[i] == rows[1..][i - 1];
      if rows[0].salaryInUsd <= rest then rows[0].salaryInUsd else rest
  }

  /** MAX(salary_in_usd) of a non-empty set of rows. */
  function MaxSalary(rows: seq<Row>): (m: nat)
    requires |rows| > 0
    ensures forall i :: 0 <= i < |rows| ==> rows[i].salaryInUsd <= m
    ensures exists i :: 0 <= i < |rows| && m == rows[i].salaryInUsd
    decreases |rows|
  {
    if |rows| == 1 then rows[0].salaryInUsd
    else
      var rest := MaxSalary(rows[1..]);
      assert forall i :: 1 <= i < |rows| ==> rows[i] == rows[1..][i - 1];
      if rows[0].salaryInUsd >= rest then rows[0].salaryInUsd else rest
  }

  lemma {:induction false} SalarySumAtLeast(rows: seq<Row>, m: nat)
    requires forall i :: 0 <= i < |rows| ==> m <= rows[i].salaryInUsd
    ensures |rows| * m <= SalarySum(rows)
    decreases |rows|
  {
    if |rows| > 0 {
      SalarySumAtLeast(rows[1..], m);
      assert |rows| * m == |rows[1..]| * m + m;
    }
  }

  lemma {:induction false} SalarySumAtMost(rows: seq<Row>, m: nat)
    requires forall i :: 0 <= i < |rows| ==> rows[i].salaryInUsd <= m
    ensures SalarySum(rows) <= |rows| * m
    decreases |rows|
  {
    if |rows| > 0 {
      SalarySumAtMost(rows[1..], m);
      assert |rows| * m == |rows[1..]| * m + m;
    }
  }

  /** The sum lies between |rows| times the minimum and |rows| times the maximum. */
  lemma SalarySumBounds(rows: seq<Row>)
    requires |rows| > 0
    ensures |rows| * MinSalary(rows) <= SalarySum(rows) <= |rows| * MaxSalary(rows)
  {
    SalarySumAtLeast(rows, MinSalary(rows));
    SalarySumAtMost(rows, MaxSalary(rows));
  }

  /** Mean salary of a non-empty set of rows, exactly (pandas `mean()` without rounding):
      the number whose |rows|-fold is the salary sum. */
  function MeanSalary(rows: seq<Row>): (m: real)
    ensures |rows| > 0 ==> m * |rows| as real == SalarySum(rows) as real
  {
    if |rows| == 0 then 0.0
    else
      QuotientTimesDivisor(SalarySum(rows), |rows|);
      SalarySum(rows) as real / |rows| as real
  }

  /** The mean lies between the least and the greatest salary. */
  lemma MeanSalaryWithinRange(rows: seq<Row>)
    requires |rows| > 0
    ensures MinSalary(rows) as real <= MeanSalary(rows) <= MaxSalary(rows) as real
  {
    MeanWithinRange(rows);
  }

  lemma QuotientTimesDivisor(total: nat, n: nat)
    requires n > 0
    ensures total as real / n as real * n as real == total as real
  {
  }

  /** The exact mean lies between the least and the greatest salary. */
  lemma MeanWithinRange(rows: seq<Row>)
    requires |rows| > 0
    ensures MinSalary(rows) as real <= SalarySum(rows) as real / |rows| as real <= MaxSalary(rows) as real
  {
    SalarySumBounds(rows);
    MeanBetween(SalarySum(rows), |rows|, MinSalary(rows), MaxSalary(rows));
  }

  /** Dividing the bounds `n * lo <= total <= n * hi` by a positive `n`. */
  lemma MeanBetween(total: nat, n: nat, lo: nat, hi: nat)
    requires n > 0
    requires n * lo <= total <= n * hi
    ensures lo as real <= total as real / n as real <= hi as real
  {
    var m := total as real / n as real;
    assert (n * lo) as real == n as real * lo as real;
    assert (n * hi) as real == n as real * hi as real;
    assert m * n as real == total as real;
  }
}
