# Job market dashboard — a Dafny model

This project models the logic of a small data-job-market dashboard. Job postings are
loaded from a CSV file into a SQLite table `job_postings`. A Streamlit dashboard derives a
role category for each posting, filters by a sidebar selection and shows key metrics, a
"manager premium" and an experience × company-size cross-tab. Three report scripts run a
fixed catalogue of SQL aggregations over the table.

Everything is stated over an immutable `Row` datatype (`Postings`). Each module follows
one source file:

| module | file | models |
|---|---|---|
| `Basics` | — | `Option`, `Result`, `Min` |
| `Seqs` | — | filtering (`Where`), subsequences, sums, insertion sort by a real key |
| `Text` | — | ASCII lower-casing and substring search (Python's `str.lower` and `in`) |
| `Postings` | — | the posting row, its columns, salary sum / min / max / mean |
| `Grouping` | — | the shared query shape WHERE → GROUP BY → COUNT / ROUND(AVG) → HAVING → ORDER BY → LIMIT |
| `RoleClassifier` | app.py | `classify_role` |
| `Dashboard` | app.py | selection, key metrics, manager premium, cross-tab |
| `Ingest` | scripts/csv_to_db.py | header normalization, replace-on-write, missing-CSV abort, sample read-back |
| `RunAnalysis` | scripts/run_analysis.py | demand, pay and location rankings |
| `SalaryAnalysis` | scripts/salary_analysis.py | experience label CASE and the four salary reports |
| `DeepDive` | scripts/deep_dive_analysis.py | entry-level filter, salary-bracket CASE, queries q1–q4 |

Every SQL query is one `Query` value: a row filter (WHERE), a group key (GROUP BY), a
group filter (HAVING), a score (ORDER BY), a direction and an optional LIMIT. None of the
queries has a tie-break in its ORDER BY, so SQLite may return tied groups in any order.
The model therefore specifies results as a relation. `Admissible(q, rows, out)` holds for
every result SQLite may return:
- the length is the LIMIT-bounded number of qualifying groups;
- the result is drawn from the qualifying groups (as a multiset);
- the result is ranked;
- no omitted group ranks ahead of a listed one.

`Run` computes one such result by insertion sort and a prefix. Every lemma about a query
holds for all admissible results.

`ROUND(AVG(salary_in_usd), 0)` over non-negative integer salaries is modelled exactly as
`(2*sum + n) / (2*n)`, which is the mean rounded half up. Salaries are `nat`.

## Model

| member | source | states |
|---|---|---|
| RoleClassifier.ClassifyRole | app.py:29-36 | Leadership iff the lower-cased title contains lead/manager/principal/head/director; Senior IC iff it contains "senior" and no leadership keyword; Individual Contributor otherwise |
| RoleClassifier.ClassifyRoleLabel | app.py:29-36 | the result is always one of the three category texts; "Senior IC" exactly under the senior-without-leadership condition |
| RoleClassifier.FirstMatchWins | app.py:31-34 | in an ordered rule table the first rule that fires decides, whatever later rules say |
| RoleClassifier.FirstMatchFallback | app.py:35-36 | when no rule fires the fallback category is returned |
| RoleClassifier.ClassifyIgnoresCase | app.py:30 | titles equal after lower-casing get the same category; classifying the lower-cased title changes nothing |
| RoleClassifier.SeniorManagerIsLeadership | app.py:31-32 | "Senior Engineering Manager" is Leadership: leadership keywords take precedence over "senior" |
| RoleClassifier.TeamLeaderIsLeadership | app.py:31 | "Team Leader" is Leadership: matching is plain substring matching |
| RoleClassifier.DataScientistIsIndividualContributor | app.py:35-36 | "Data Scientist" contains no keyword and is an Individual Contributor |
| RoleClassifier.IndividualWithoutKeywords | app.py:35-36 | a title with no leadership keyword and no "senior" is an Individual Contributor |
| RoleClassifier.LabelInjective | app.py:32-36 | the three category texts are pairwise different |
| Text.Lower | app.py:30 | lower-casing keeps the length, maps each character by the ASCII rule and leaves no upper-case letter |
| Text.LowerIdempotent | app.py:30 | lower-casing twice is lower-casing once |
| Text.ContainsIffOccurrence | app.py:31 | the substring test holds iff the word occurs at some position |
| Text.NotContainedWithoutChar | app.py:31 | a word with a character absent from the text does not occur in it |
| Text.Contains | app.py:31-33 | a word longer than the title never matches; with `ContainsIffOccurrence`, the test is Python's substring `in` |
| Dashboard.SelectRows | app.py:57-65 | keeps exactly the rows whose title and level are selected, an empty selection meaning all values, with multiplicities and in the original order |
| Dashboard.EmptySelectionKeepsAll | app.py:57-60 | two empty selections give back the whole table |
| Grouping.Distinct | app.py:57-60 | `unique()`: the same values as the column, each listed once |
| Dashboard.KeyMetrics | app.py:69-72 | total is the number of selected rows; the remote tile counts, one by one, the rows whose setting is Remote or Fully Remote; the leadership tile counts the rows classified Leadership; both are at most the total |
| Seqs.WhereCount | app.py:71-72 | the length of a masked frame equals the number of rows satisfying the mask, counted one at a time |
| Dashboard.CategoryCountsPartition | app.py:72 | the Leadership, Senior IC and Individual Contributor counts add up to the total-jobs tile |
| Dashboard.ThreeWayPartition | app.py:38 | any classification into the three categories partitions the rows |
| Dashboard.PremiumData | app.py:124 | per-category groups of the whole table, sorted by mean salary ascending, one for each category that occurs, each with exactly that category's rows |
| Postings.MeanSalary | app.py:124 | the mean of a non-empty group is the number whose group-size multiple is the salary sum |
| Postings.MeanSalaryWithinRange | app.py:124 | the mean of a non-empty group lies between its least and greatest salary |
| Dashboard.PremiumOver | app.py:127-133 | not-enough-data iff either category is absent; a zero baseline iff both are present and the IC mean is 0; otherwise (mgr−ic)/ic·100, positive iff leadership pays more |
| Dashboard.PercentSign | app.py:130 | with a positive baseline the percentage is positive iff the leadership mean is higher |
| Dashboard.ManagerPremium | app.py:124-133 | the premium looked up in the sorted `premium_data` equals the premium of the Leadership rows over the IC rows of the whole table |
| Dashboard.MembersOfPermuted | app.py:128-129 | looking a category up by label in any ordering of the groups yields exactly that category's rows, or nothing if it is absent |
| Dashboard.Render | app.py:62-72 | the shown rows are exactly the selected rows in their original order; the metrics are the key metrics of those rows and the heatmap is the hotspot table of those rows; the premium is always computed on the unfiltered table |
| Dashboard.PremiumIgnoresSelection | app.py:124 | changing the sidebar selection never changes the premium |
| Dashboard.CrossTabulate | app.py:142 | one row per level present and one column per size present, neither list repeating a value; each cell counts the rows with that (level, size) pair |
| Dashboard.CellsFor | app.py:142 | the cell of level i and size j is the number of rows carrying that pair |
| Dashboard.CellZeroIffAbsent | app.py:142 | a pair count is 0 exactly when no row has that level and size |
| Dashboard.CrossTabRowTotals | app.py:142 | each cross-tab row adds up to the number of rows at its level |
| Dashboard.CrossTabTotal | app.py:142 | all cells add up to the number of filtered rows |
| Dashboard.Hotspots | app.py:141-142 | the heatmap is absent iff the selection is empty; a drawn heatmap is the cross-tab of the selected rows and has at least one row and one column |
| Ingest.NormalizeName | scripts/csv_to_db.py:21 | same length; each character is lower-cased, with space and hyphen mapped to `_` and everything else unchanged; no space, hyphen or upper-case letter remains |
| Ingest.NormalizeNameIdempotent | scripts/csv_to_db.py:21 | normalizing a normalized name changes nothing |
| Ingest.NormalizeColumns | scripts/csv_to_db.py:21 | the same number of columns, in order, each normalized |
| Ingest.NormalizeColumnsIdempotent | scripts/csv_to_db.py:21 | normalizing the header twice is normalizing it once |
| Ingest.WriteTable | scripts/csv_to_db.py:31-32 | the named table becomes the new table; every other table is unchanged |
| Ingest.WriteTableIdempotent | scripts/csv_to_db.py:30-32 | writing the same table twice equals writing it once |
| Ingest.Load | scripts/csv_to_db.py:11-32 | a missing CSV stops with the store unchanged; otherwise `job_postings` holds the CSV rows under normalized headers, no table other than `job_postings` is added, and the other tables are never touched |
| Ingest.LoadIdempotent | scripts/csv_to_db.py:30-32 | running the load twice yields the same store as running it once |
| Ingest.SampleRows | scripts/csv_to_db.py:39-40 | at most three rows, all from the written table |
| Grouping.GroupBy | scripts/run_analysis.py:33 | one group per distinct key, keys pairwise different, each group holding every row with its key and nothing else, and never empty |
| Grouping.KeyPresentHasGroup | scripts/run_analysis.py:33 | a key has a group iff some row carries it |
| Grouping.GroupByPartition | scripts/run_analysis.py:31-33 | the group counts add up to the number of rows |
| Grouping.RoundedMean | scripts/run_analysis.py:44 | the result r satisfies 2·n·r ≤ 2·sum + n < 2·n·r + 2·n: the mean rounded to nearest, halves up |
| Grouping.RoundedMeanWithinRange | scripts/run_analysis.py:44 | a rounded average lies between the group's minimum and maximum salary |
| Grouping.Run | scripts/run_analysis.py:28-36 | sorting the qualifying groups and applying the LIMIT gives an admissible result |
| Grouping.AdmissibleShape | scripts/run_analysis.py:28-63 | every result row satisfies HAVING, holds all rows with its key that pass WHERE, has a distinct key, and rows come in ORDER BY order within the LIMIT |
| Grouping.AdmissibleComplete | scripts/run_analysis.py:34-35 | when the LIMIT does not bite, the result is a permutation of all qualifying groups |
| Grouping.AdmissibleTopN | scripts/run_analysis.py:34-35 | a qualifying group left out ranks no better than every group listed |
| Grouping.UnlimitedReport | scripts/deep_dive_analysis.py:44-53 | without HAVING and LIMIT, there is one result row per distinct key of the filtered rows, and the counts add up to the filtered row count |
| Grouping.RankedOfTwo | scripts/deep_dive_analysis.py:51-52 | with two candidate groups where one strictly outranks the other, only one order is allowed |
| RunAnalysis.DemandClauses | scripts/run_analysis.py:28-36 | no WHERE or HAVING, grouped by `job_title`, ranked by COUNT(*) descending, LIMIT 10 |
| RunAnalysis.PayClauses | scripts/run_analysis.py:41-50 | no WHERE, grouped by `job_title`, HAVING exactly the groups with more than 10 postings, ranked by the rounded average descending, LIMIT 10 |
| RunAnalysis.LocationClauses | scripts/run_analysis.py:54-63 | no WHERE or HAVING, grouped by `company_location`, ranked by COUNT(*) descending, LIMIT 10 |
| RunAnalysis.DemandRankingSpec | scripts/run_analysis.py:28-36 | min(10, #titles) distinct titles, each with its posting count, counts non-increasing |
| RunAnalysis.DemandRankingTopN | scripts/run_analysis.py:34-35 | an omitted title has no more postings than any title shown |
| RunAnalysis.DemandRankingComplete | scripts/run_analysis.py:28-36 | with at most 10 titles, every title appears and the counts add up to the number of postings |
| RunAnalysis.PayRankingSpec | scripts/run_analysis.py:41-50 | at most 10 distinct titles, each with more than 10 postings, rounded averages non-increasing |
| RunAnalysis.PayRankingExcludesRare | scripts/run_analysis.py:47 | a title with 10 postings or fewer never appears |
| RunAnalysis.PayRankingTopN | scripts/run_analysis.py:47-49 | an omitted title with more than 10 postings pays no more on average than any title shown |
| RunAnalysis.PayRankingAverages | scripts/run_analysis.py:44 | each shown average lies within its title's salary range |
| RunAnalysis.LocationRankingSpec | scripts/run_analysis.py:54-63 | min(10, #locations) distinct locations, job counts non-increasing, each average within the location's salary range |
| SalaryAnalysis.ExperienceLabel | scripts/salary_analysis.py:22-27 | a label exists iff the code is EN, MI, SE or EX, and it is one of the four labels |
| SalaryAnalysis.ExperienceLabelTable | scripts/salary_analysis.py:22-27 | EN, MI, SE, EX map to Entry-Level, Mid-Level, Senior, Executive |
| SalaryAnalysis.ExperienceLabelInjective | scripts/salary_analysis.py:22-27 | two codes with the same label are the same code |
| SalaryAnalysis.ExperienceClauses | scripts/salary_analysis.py:20-33 | no WHERE or LIMIT, grouped by the raw `experience_level`, ranked by the rounded average descending |
| SalaryAnalysis.WorkSettingClauses | scripts/salary_analysis.py:38-46 | no WHERE or LIMIT, grouped by `work_setting`, ranked by the rounded average descending |
| SalaryAnalysis.TrendClauses | scripts/salary_analysis.py:51-59 | no WHERE or LIMIT, grouped by `work_year`, ordered by the year ascending |
| SalaryAnalysis.CategoryClauses | scripts/salary_analysis.py:63-70 | no WHERE or LIMIT, grouped by `job_category`, ranked by the rounded average descending |
| SalaryAnalysis.ExperienceReportSpec | scripts/salary_analysis.py:20-33 | one row per raw code present (unknown codes each get their own NULL-labelled row), counts per code, averages non-increasing, counts summing to the total |
| SalaryAnalysis.WorkSettingReportSpec | scripts/salary_analysis.py:38-46 | one row per setting present, averages non-increasing, counts summing to the total |
| SalaryAnalysis.TrendReportSpec | scripts/salary_analysis.py:51-59 | one row per year present, holding that year's postings, counts summing to the total |
| SalaryAnalysis.TrendYearsIncrease | scripts/salary_analysis.py:58 | the years are strictly increasing |
| SalaryAnalysis.CategoryReportSpec | scripts/salary_analysis.py:63-70 | one row per category present with distinct categories, counts adding up to the number of postings, averages non-increasing and each within the category's salary range |
| SalaryAnalysis.WholeTableReport | scripts/salary_analysis.py:20-59 | a report with no WHERE, HAVING or LIMIT has one row per distinct key and its counts add up to the number of postings |
| SalaryAnalysis.ExperienceReportExample | scripts/salary_analysis.py:20-33 | postings (EN, 60000), (SE, 140000), (SE, 180000) give exactly [Senior, 2, 160000] then [Entry-Level, 1, 60000] |
| SalaryAnalysis.ExampleOrder | scripts/salary_analysis.py:32 | for the example, ORDER BY leaves only the order senior group, then entry group |
| DeepDive.IsEntryLevel | scripts/deep_dive_analysis.py:35 | a posting is entry-level exactly when its level is "EN", "Entry-level" or "Entry Level" |
| DeepDive.EntryLevelIsExact | scripts/deep_dive_analysis.py:35 | the comparison is exact: "Entry-Level", "en", "entry level" and "MI" are not entry-level |
| DeepDive.EntryTitlesClauses | scripts/deep_dive_analysis.py:29-39 | WHERE entry-level, grouped by `job_title`, ranked by COUNT(*) descending, LIMIT 10 |
| DeepDive.JuniorSizeClauses | scripts/deep_dive_analysis.py:44-53 | WHERE entry-level, grouped by `company_size`, ranked by COUNT(*) descending, no LIMIT |
| DeepDive.RemoteJuniorClauses | scripts/deep_dive_analysis.py:57-68 | WHERE entry-level and Remote or Fully Remote, grouped by `company_location`, ranked by COUNT(*) descending, LIMIT 5 |
| DeepDive.BracketClauses | scripts/deep_dive_analysis.py:72-85 | WHERE entry-level, grouped by the salary bracket, ranked by COUNT(*) descending, no LIMIT |
| DeepDive.SalaryBracket | scripts/deep_dive_analysis.py:74-79 | under 50000, 50000..100000 inclusive, 100001..150000 and above 150000 map to the four brackets, so 100000 falls in the lower bracket |
| DeepDive.BracketMonotone | scripts/deep_dive_analysis.py:74-79 | a higher salary never falls in a lower bracket |
| DeepDive.BracketLabelInjective | scripts/deep_dive_analysis.py:75-78 | distinct brackets have distinct labels, so grouping by label is grouping by bracket |
| DeepDive.EntryTitlesSpec | scripts/deep_dive_analysis.py:29-39 | min(10, #entry-level titles) distinct titles, each with all of its entry-level postings, openings non-increasing |
| DeepDive.EntryTitlesTopN | scripts/deep_dive_analysis.py:37-38 | an omitted entry-level title has no more openings than any title shown |
| DeepDive.EntryTitlesAverages | scripts/deep_dive_analysis.py:33 | each average pay lies within its title's entry-level salary range |
| DeepDive.JuniorSizeSpec | scripts/deep_dive_analysis.py:44-53 | one row per company size with entry-level postings, hires non-increasing, adding up to the entry-level count |
| DeepDive.RemoteJuniorSpec | scripts/deep_dive_analysis.py:57-68 | at most 5 locations, each with all of its remote entry-level postings, counts non-increasing |
| DeepDive.RemoteJuniorMembers | scripts/deep_dive_analysis.py:63-64 | every counted posting is entry-level and Remote or Fully Remote |
| DeepDive.BracketReportSpec | scripts/deep_dive_analysis.py:72-85 | at most four rows, each holding only entry-level salaries of its bracket, counts non-increasing |
| DeepDive.BracketReportTotal | scripts/deep_dive_analysis.py:72-85 | the bracket counts add up to the number of entry-level postings |
| DeepDive.JuniorTotalsAgree | scripts/deep_dive_analysis.py:44-53 | the company-size report and the bracket report count the same postings in total |

## Left out

- scripts/ingest_data.py is not part of this model. It downloads the dataset over the network and copies files.
- The Streamlit user interface is not modelled: page setup, widgets, `st.cache_data`, messages, and all charts (histogram, salary-trend line, box plot, premium bar chart, heatmap drawing). These are presentation only.
- The average-salary metric tile (app.py:70) is not modelled. It is a floating-point mean formatted for display.
- Render: the sidebar's default selection (the five most frequent titles) is not modelled. The selection is a parameter.
- MeanSalary: the pandas mean is taken as the exact rational mean, not as a 64-bit float. The empty case, which pandas reports as NaN, yields 0 and is never reached: groups are never empty.
- PremiumOver: the IC-mean-zero case is a separate `ZeroBaseline` outcome. Python would divide by zero in floating point and show inf or nan.
- CrossTabulate: levels and sizes are listed in order of first occurrence. pandas sorts the labels. The cells are the same up to that reordering of rows and columns.
- RoundedMean: SQLite computes AVG in floating point before ROUND. The model rounds the exact mean half up, so very large sums could differ by floating-point error.
- ClassifyRole: lower-casing is ASCII only. Unicode case mapping and the `str()` coercion of non-text titles are not modelled.
- NormalizeName: lower-casing is ASCII only, as above.
- Load: the store is a map from table name to table. The `StoreUnavailable` outcome stands for `sqlite3.connect` failing; the script would then raise an exception before writing. Column types and the `index=False` flag are not modelled.
- SampleRows: `LIMIT 3` without ORDER BY is taken as the first three rows in insertion order. SQL does not promise which three.
- SQL NULL and pandas NaN are not modelled: every field of a row is present. A NULL salary would fall into the `Over $150k` bracket.
- Query results are the groups themselves (key and rows). The SELECT columns are `Size` (COUNT) and `AverageSalary` (rounded AVG) of a group. Only the experience report is projected into explicit report lines (`SalaryAnalysis.Lines`).
- The diagnostic queries and prints, `PRAGMA table_info`, the `run_query` / `show_query` / `run_deep_dive` helpers, and the pandas display options are not modelled. They are I/O only.
