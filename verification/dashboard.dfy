/** The values the dashboard derives from the loaded table: the role-category column,
    the sidebar selection, the key metrics, the manager premium and the
    experience-by-company-size cross-tabulation. */
module Dashboard {
  import opened Basics
  import opened Seqs
  import opened Postings
  import opened Grouping
  import opened RoleClassifier

  /** The `Role_Category` column. */
  function Category(r: Row): RoleCategory
  {
    ClassifyRole(r.jobTitle)
  }

  function CategoryIs(c: RoleCategory): Row -> bool
  {
    KeyIs(Category, c)
  }

  /** A row passes the sidebar when its title and level are selected; an empty
      selection selects every value. */
  predicate Chosen(roles: seq<string>, levels: seq<string>, r: Row)
  {
    (|roles| == 0 || r.jobTitle in roles) && (|levels| == 0 || r.experienceLevel in levels)
  }

  /** The selection in force: an empty multiselect is replaced by all values of the column. */
  function Effective(selected: seq<string>, df: seq<Row>, column: Row -> string): seq<string>
  {
    if |selected| == 0 then Keys(df, column) else selected
  }

  function IsIn(roles: seq<string>, levels: seq<string>): Row -> bool
  {
    (r: Row) => r.jobTitle in roles && r.experienceLevel in levels
  }

  /** `filtered_df`: the rows whose title and level are both selected, with their
      multiplicities, in their original order. */
  function SelectRows(df: seq<Row>, roles: seq<string>, levels: seq<string>): (r: seq<Row>)
    ensures forall x :: multiset(r)[x] == if Chosen(roles, levels, x) then multiset(df)[x] else 0
    ensures forall i :: 0 <= i < |r| ==> Chosen(roles, levels, r[i])
    ensures IsSubsequence(r, df)
  {
    var p := IsIn(Effective(roles, df, JobTitle), Effective(levels, df, ExperienceLevel));
    assert forall x :: x in df ==> (p(x) <==> Chosen(roles, levels, x));
    Where(df, p)
  }

  /** With nothing selected in either box the dashboard shows the whole table. */
  lemma EmptySelectionKeepsAll(df: seq<Row>)
    ensures SelectRows(df, [], []) == df
  {
    var p := IsIn(Keys(df, JobTitle), Keys(df, ExperienceLevel));
    WhereOfAll(df, p);
  }

  /** The row of key metrics (the average-salary tile is left out). */
  datatype Metrics = Metrics(totalJobs: nat, remoteJobs: nat, leadershipRoles: nat)

  /** The tiles count the selected rows, the remote ones among them (Remote or Fully
      Remote) and the ones classified as leadership, each row counted once. */
  function KeyMetrics(filtered: seq<Row>): (m: Metrics)
    ensures m.totalJobs == |filtered|
    ensures m.remoteJobs == SumOf(filtered, Indicator(IsRemote))
    ensures m.leadershipRoles == SumOf(filtered, Indicator(CategoryIs(Leadership)))
    ensures m.remoteJobs <= m.totalJobs && m.leadershipRoles <= m.totalJobs
  {
    WhereCount(filtered, IsRemote);
    WhereCount(filtered, CategoryIs(Leadership));
    Metrics(|filtered|, |Where(filtered, IsRemote)|, |Where(filtered, CategoryIs(Leadership))|)
  }

  const AllCategories: seq<RoleCategory> := [Leadership, SeniorIC, IndividualContributor]

  /** Any classification into the three role categories partitions the rows. */
  lemma ThreeWayPartition(rows: seq<Row>, key: Row -> RoleCategory)
    ensures |Where(rows, KeyIs(key, Leadership))| + |Where(rows, KeyIs(key, SeniorIC))|
            + |Where(rows, KeyIs(key, IndividualContributor))| == |rows|
  {
    forall r | r in rows ensures key(r) in AllCategories {
      match key(r)
      case Leadership =>
      case SeniorIC =>
      case IndividualContributor =>
    }
    GroupsForPartition(rows, key, AllCategories);
    var gs := GroupsFor(rows, key, AllCategories);
    calc {
      SumOf(gs, Size);
      Size(gs[0]) + SumOf(gs[1..], Size);
      { assert gs[1..][1..] == gs[2..]; }
      Size(gs[0]) + Size(gs[1]) + SumOf(gs[2..], Size);
      { assert gs[2..][1..] == []; }
      Size(gs[0]) + Size(gs[1]) + Size(gs[2]);
    }
  }

  /** The three role categories partition the rows: the leadership tile plus the other two
      category counts add up to the total-jobs tile. */
  lemma CategoryCountsPartition(rows: seq<Row>)
    ensures KeyMetrics(rows).leadershipRoles + |Where(rows, CategoryIs(SeniorIC))|
            + |Where(rows, CategoryIs(IndividualContributor))| == KeyMetrics(rows).totalJobs
  {
    ThreeWayPartition(rows, Category);
  }

  function GroupMean(g: Group<RoleCategory>): real
  {
    MeanSalary(g.members)
  }

  /** `premium_data`: the mean salary of each role category present in the table,
      sorted by mean, ascending. */
  function PremiumData(df: seq<Row>): (r: seq<Group<RoleCategory>>)
    ensures SortedBy(r, GroupMean, false)
    ensures multiset(r) == multiset(GroupBy(df, Category))
    ensures forall i :: 0 <= i < |r| ==> r[i].members == Where(df, CategoryIs(r[i].key))
    ensures forall c :: |Where(df, CategoryIs(c))| > 0 <==> c in GroupKeys(r)
  {
    var r := SortBy(GroupBy(df, Category), GroupMean, false);
    PermutedGroups(df, Category, r);
    r
  }

  /** What the manager-premium panel shows. `ZeroBaseline` is the unguarded division by an
      individual-contributor mean of zero, which yields inf or nan in floating point. */
  datatype Premium = NotEnoughData | ZeroBaseline | PercentMore(percent: real)

  /** With a positive baseline, the percentage is positive exactly when the first mean
      is larger. */
  lemma PercentSign(mgr: real, ic: real)
    requires ic > 0.0
    ensures (mgr - ic) / ic * 100.0 > 0.0 <==> mgr > ic
  {
    var d := (mgr - ic) / ic;
    assert d * ic == mgr - ic;
    if mgr > ic {
      assert d > 0.0;
    }
    if d > 0.0 {
      assert d * ic > 0.0;
    }
  }

  /** The premium of the `mgr` rows over the `ic` rows; an empty list is a category
      missing from `premium_data`. */
  function PremiumOver(ic: seq<Row>, mgr: seq<Row>): (p: Premium)
    ensures p == NotEnoughData <==> |ic| == 0 || |mgr| == 0
    ensures p == ZeroBaseline <==> |ic| > 0 && |mgr| > 0 && MeanSalary(ic) == 0.0
    ensures p.PercentMore? ==>
      MeanSalary(ic) > 0.0 && p.percent == (MeanSalary(mgr) - MeanSalary(ic)) / MeanSalary(ic) * 100.0
      && (p.percent > 0.0 <==> MeanSalary(mgr) > MeanSalary(ic))
  {
    if |ic| == 0 || |mgr| == 0 then NotEnoughData
    else if MeanSalary(ic) == 0.0 then ZeroBaseline
    else
      assert MeanSalary(ic) > 0.0 by {
        assert SalarySum(ic) as real >= 0.0;
      }
      PercentSign(MeanSalary(mgr), MeanSalary(ic));
      PercentMore((MeanSalary(mgr) - MeanSalary(ic)) / MeanSalary(ic) * 100.0)
  }

  /** The members of the group for `c` in `data`, or nothing when there is none. */
  function MembersOf(data: seq<Group<RoleCategory>>, c: RoleCategory): seq<Row>
  {
    match FindGroup(data, c)
    case None => []
    case Some(g) => g.members
  }

  /** Looking a category up in any ordering of the groups yields exactly its rows. */
  lemma MembersOfPermuted(df: seq<Row>, key: Row -> RoleCategory, data: seq<Group<RoleCategory>>, c: RoleCategory)
    requires multiset(data) == multiset(GroupBy(df, key))
    ensures MembersOf(data, c) == Where(df, KeyIs(key, c))
  {
    FindInPermutedGroups(df, key, data, c);
  }

  /** The manager premium, computed on the whole table: how much more, in percent,
      Leadership roles pay than Individual Contributor roles on average. */
  function ManagerPremium(df: seq<Row>): (p: Premium)
    ensures p == PremiumOver(Where(df, CategoryIs(IndividualContributor)), Where(df, CategoryIs(Leadership)))
  {
    var data := PremiumData(df);
    MembersOfPermuted(df, Category, data, IndividualContributor);
    MembersOfPermuted(df, Category, data, Leadership);
    PremiumOver(MembersOf(data, IndividualContributor), MembersOf(data, Leadership))
  }

  /** `pd.crosstab(experience_level, company_size)`: one row per level and one column per
      company size present in the rows; a cell is the number of rows with that pair. */
  datatype CrossTab = CrossTab(levels: seq<string>, sizes: seq<string>, cells: seq<seq<nat>>)

  /** The counts of a list of groups. */
  function Counts(gs: seq<Group<string>>): (r: seq<nat>)
    ensures |r| == |gs|
    ensures forall j :: 0 <= j < |gs| ==> r[j] == |gs[j].members|
    decreases |gs|
  {
    if |gs| == 0 then [] else [|gs[0].members|] + Counts(gs[1..])
  }

  /** Rows with the given experience level and company size. */
  function PairIs(level: string, size: string): Row -> bool
  {
    Both(KeyIs(ExperienceLevel, level), KeyIs(CompanySize, size))
  }

  /** One cross-tab row per level: the level's rows grouped by company size and counted.
      Each cell is the number of rows carrying that (level, size) pair. */
  function CellsFor(rows: seq<Row>, levels: seq<string>, sizes: seq<string>): (cells: seq<seq<nat>>)
    ensures |cells| == |levels|
    ensures forall i :: 0 <= i < |levels| ==> |cells[i]| == |sizes|
    ensures forall i, j :: 0 <= i < |levels| && 0 <= j < |sizes| ==>
      cells[i][j] == |Where(rows, PairIs(levels[i], sizes[j]))|
  {
    forall i, j | 0 <= i < |levels| && 0 <= j < |sizes| {
      WhereWhere(rows, KeyIs(ExperienceLevel, levels[i]), KeyIs(CompanySize, sizes[j]));
    }
    seq(|levels|, i requires 0 <= i < |levels| =>
      Counts(GroupsFor(Where(rows, KeyIs(ExperienceLevel, levels[i])), CompanySize, sizes)))
  }

  function CrossTabulate(rows: seq<Row>): (t: CrossTab)
    ensures |t.cells| == |t.levels|
    ensures forall i :: 0 <= i < |t.levels| ==> |t.cells[i]| == |t.sizes|
    ensures forall l :: l in t.levels <==> |Where(rows, KeyIs(ExperienceLevel, l))| > 0
    ensures forall s :: s in t.sizes <==> |Where(rows, KeyIs(CompanySize, s))| > 0
    ensures NoDups(t.levels) && NoDups(t.sizes)
    ensures forall i, j :: 0 <= i < |t.levels| && 0 <= j < |t.sizes| ==>
      t.cells[i][j] == |Where(rows, PairIs(t.levels[i], t.sizes[j]))|
  {
    var levels := Keys(rows, ExperienceLevel);
    var sizes := Keys(rows, CompanySize);
    KeysAreValuesPresent(rows, ExperienceLevel);
    KeysAreValuesPresent(rows, CompanySize);
    CrossTab(levels, sizes, CellsFor(rows, levels, sizes))
  }

  /** The sum of one cross-tab row. */
  function RowTotal(cells: seq<nat>): nat
  {
    SumOf(cells, (n: nat) => n)
  }

  /** Each cross-tab row adds up to the number of rows at that experience level. */
  lemma CrossTabRowTotals(rows: seq<Row>, i: nat)
    requires i < |CrossTabulate(rows).levels|
    ensures RowTotal(CrossTabulate(rows).cells[i]) == |Where(rows, KeyIs(ExperienceLevel, CrossTabulate(rows).levels[i]))|
  {
    var t := CrossTabulate(rows);
    var members := Where(rows, KeyIs(ExperienceLevel, t.levels[i]));
    var gs := GroupsFor(members, CompanySize, t.sizes);
    forall j | 0 <= j < |t.sizes| ensures t.cells[i][j] == Size(gs[j]) {
      WhereWhere(rows, KeyIs(ExperienceLevel, t.levels[i]), KeyIs(CompanySize, t.sizes[j]));
    }
    SumOfPointwise(t.cells[i], (n: nat) => n, gs, Size);
    forall r | r in members ensures CompanySize(r) in t.sizes {
      assert |Where(rows, KeyIs(CompanySize, CompanySize(r)))| > 0 by {
        assert r in Where(rows, KeyIs(CompanySize, CompanySize(r)));
      }
    }
    GroupsForPartition(members, CompanySize, t.sizes);
  }

  /** Every row is counted in exactly one cell: the cells add up to the number of rows. */
  lemma CrossTabTotal(rows: seq<Row>)
    ensures SumOf(CrossTabulate(rows).cells, RowTotal) == |rows|
  {
    var t := CrossTabulate(rows);
    var gs := GroupsFor(rows, ExperienceLevel, t.levels);
    forall i | 0 <= i < |t.levels| ensures RowTotal(t.cells[i]) == Size(gs[i]) {
      CrossTabRowTotals(rows, i);
    }
    SumOfPointwise(t.cells, RowTotal, gs, Size);
    forall r | r in rows ensures ExperienceLevel(r) in t.levels {
      assert r in Where(rows, KeyIs(ExperienceLevel, ExperienceLevel(r)));
    }
    GroupsForPartition(rows, ExperienceLevel, t.levels);
  }

  /** The count of a (level, size) pair, and so its cross-tab cell, is zero exactly when
      no row has that pair. */
  lemma CellZeroIffAbsent(rows: seq<Row>, level: string, size: string)
    ensures |Where(rows, PairIs(level, size))| == 0 <==>
      forall r :: r in rows ==> !(r.experienceLevel == level && r.companySize == size)
  {
    var p := PairIs(level, size);
    forall r ensures p(r) <==> r.experienceLevel == level && r.companySize == size {
      assert p(r) == (KeyIs(ExperienceLevel, level)(r) && KeyIs(CompanySize, size)(r));
      assert KeyIs(ExperienceLevel, level)(r) == (ExperienceLevel(r) == level);
      assert KeyIs(CompanySize, size)(r) == (CompanySize(r) == size);
    }
    WhereEmpty(rows, p);
  }

  /** The heatmap is drawn only for a non-empty selection, and then shows the cross-tab of
      the selected rows. */
  function Hotspots(filtered: seq<Row>): (t: Option<CrossTab>)
    ensures t.None? <==> |filtered| == 0
    ensures t.Some? ==> t.value == CrossTabulate(filtered)
    ensures t.Some? ==> |t.value.levels| > 0 && |t.value.sizes| > 0
  {
    if |filtered| == 0 then None
    else
      var t := CrossTabulate(filtered);
      assert filtered[0] in filtered;
      assert ExperienceLevel(filtered[0]) in t.levels && CompanySize(filtered[0]) in t.sizes by {
        assert filtered[0] in Where(filtered, KeyIs(ExperienceLevel, ExperienceLevel(filtered[0])));
        assert filtered[0] in Where(filtered, KeyIs(CompanySize, CompanySize(filtered[0])));
      }
      Some(t)
  }

  /** What one run of the dashboard shows for a table and a sidebar selection. */
  datatype View = View(filtered: seq<Row>, metrics: Metrics, premium: Premium, hotspots: Option<CrossTab>)

  /** The metrics and the heatmap follow the selection; the manager premium is always
      computed on the whole table. */
  function Render(df: seq<Row>, roles: seq<string>, levels: seq<string>): (v: View)
    ensures forall x :: multiset(v.filtered)[x] == if Chosen(roles, levels, x) then multiset(df)[x] else 0
    ensures IsSubsequence(v.filtered, df)
    ensures v.metrics == KeyMetrics(v.filtered) && v.metrics.totalJobs == |v.filtered|
    ensures v.hotspots == Hotspots(v.filtered)
    ensures v.premium == PremiumOver(Where(df, CategoryIs(IndividualContributor)), Where(df, CategoryIs(Leadership)))
    ensures v.hotspots.None? <==> |v.filtered| == 0
  {
    var filtered := SelectRows(df, roles, levels);
    View(filtered, KeyMetrics(filtered), ManagerPremium(df), Hotspots(filtered))
  }

  /** Changing the selection never changes the manager premium. */
  lemma PremiumIgnoresSelection(df: seq<Row>, roles: seq<string>, levels: seq<string>, roles2: seq<string>, levels2: seq<string>)
    ensures Render(df, roles, levels).premium == Render(df, roles2, levels2).premium
  {
  }
}
