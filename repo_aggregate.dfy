/**
 * The aggregation half of the repository statistics: the collected entries
 * are tallied per conference, per year and overall (GitHub repositories,
 * stars, forks and their maxima; Zenodo records, views and downloads), each
 * conference keeps a per-year breakdown and its five most-starred
 * repositories, and the tallies are written out as rows in sorted order.
 */
module RepoAggregate {
  import opened Wrappers
  import opened Json
  import opened Seqs
  import opened Ordering
  import opened Groups

  // ---------------------------------------------------------------------
  // Reading one collected entry
  // ---------------------------------------------------------------------

  /** The numeric value of field `k`, falsy or missing values read as 0, can be added to an integer. */
  predicate Numeric(s: Record, k: string)
  {
    var j := GetOr(s, k, Int(0));
    j.Int? || j.Bool? || !Truthy(j)
  }

  /** The description, falsy read as empty, cut to its first 120 characters. */
  function Cut(j: Json): (r: string)
    ensures |r| <= 120
    ensures j.Str? ==> |r| <= |j.s| && r == j.s[..|r|] && (|j.s| <= 120 ==> r == j.s)
  {
    if j.Str? then j.s[..if |j.s| < 120 then |j.s| else 120] else ""
  }

  /** One of the five most-starred repositories of a conference, as listed. */
  datatype TopEntry = TopEntry(title: Json, url: Json, year: int, stars: int, forks: int,
                               description: string, language: Json, name: Json, pushedAt: Json)

  /** What the aggregation reads from one collected entry. */
  datatype Stat = Stat(conference: string, year: int, source: Json,
                       stars: int, forks: int, views: int, downloads: int, top: TopEntry)

  /**
   * What the loop demands of an entry: `conference`, `year` and `source`
   * present (a missing one is a `KeyError`), conference and year of one type
   * each so that their keys sort, and the fields added up by its branch
   * numeric, with a textual description for a GitHub entry.
   */
  predicate WellFormed(s: Record)
  {
    && "conference" in s && s["conference"].Str?
    && "year" in s && s["year"].Int?
    && "source" in s
    && (s["source"] == Str("github") ==>
         Numeric(s, "github_stars") && Numeric(s, "github_forks")
         && (var d := GetOr(s, "description", Str("")); d.Str? || !Truthy(d)))
    && (s["source"] == Str("zenodo") ==> Numeric(s, "zenodo_views") && Numeric(s, "zenodo_downloads"))
  }

  /** A text field, falsy read as the empty text. */
  function StatOf(s: Record): Stat
  {
    var year := if Get(s, "year").Int? then Get(s, "year").i else 0;
    var stars := NumOf(GetOr(s, "github_stars", Int(0)));
    var forks := NumOf(GetOr(s, "github_forks", Int(0)));
    Stat(AsStr(Get(s, "conference")).UnwrapOr(""), year, Get(s, "source"), stars, forks,
         NumOf(GetOr(s, "zenodo_views", Int(0))), NumOf(GetOr(s, "zenodo_downloads", Int(0))),
         TopEntry(GetOr(s, "title", Str("Unknown")), GetOr(s, "url", Str("")), year, stars, forks,
                  Cut(OrEmpty(GetOr(s, "description", Str("")))), OrEmpty(GetOr(s, "language", Str(""))),
                  GetOr(s, "name", Str("")), GetOr(s, "pushed_at", Str(""))))
  }

  /** The entries as the aggregation reads them. */
  function Stats(all: seq<Record>): (ss: seq<Stat>)
    ensures |ss| == |all| && forall i :: 0 <= i < |all| ==> ss[i] == StatOf(all[i])
  {
    MapSeq(all, StatOf)
  }

  predicate IsGithub(s: Stat)
  {
    s.source == Str("github")
  }

  predicate IsZenodo(s: Stat)
  {
    s.source == Str("zenodo")
  }

  /** The entries that touch the per-conference and per-year tallies. */
  predicate Counted(s: Stat)
  {
    IsGithub(s) || IsZenodo(s)
  }

  function ConfKey(s: Stat): string
  {
    s.conference
  }

  function YearKey(s: Stat): int
  {
    s.year
  }

  function Max(a: int, b: int): int
  {
    if a < b then b else a
  }

  // ---------------------------------------------------------------------
  // Tallies
  // ---------------------------------------------------------------------

  /** The counters kept per conference, per year and overall. */
  datatype Totals = Totals(githubRepos: nat, totalStars: int, totalForks: int, maxStars: int, maxForks: int,
                           zenodoRepos: nat, totalViews: int, totalDownloads: int)

  const NoTotals := Totals(0, 0, 0, 0, 0, 0, 0, 0)

  /** The `github` and `zenodo` branches of the loop on one tally. */
  function AddTotals(t: Totals, s: Stat): Totals
  {
    if IsGithub(s) then
      t.(githubRepos := t.githubRepos + 1, totalStars := t.totalStars + s.stars, totalForks := t.totalForks + s.forks,
         maxStars := Max(t.maxStars, s.stars), maxForks := Max(t.maxForks, s.forks))
    else if IsZenodo(s) then
      t.(zenodoRepos := t.zenodoRepos + 1, totalViews := t.totalViews + s.views,
         totalDownloads := t.totalDownloads + s.downloads)
    else t
  }

  /** The per-year counters inside one conference. */
  datatype YearTally = YearTally(githubRepos: nat, stars: int, forks: int)

  const NoYear := YearTally(0, 0, 0)

  function AddYear(y: YearTally, s: Stat): YearTally
  {
    if IsGithub(s) then YearTally(y.githubRepos + 1, y.stars + s.stars, y.forks + s.forks) else y
  }

  /** Everything kept per conference: tallies, years and the GitHub entries in order. */
  datatype ConfAcc = ConfAcc(totals: Totals, years: map<int, YearTally>, entries: seq<TopEntry>)

  const NoConf := ConfAcc(NoTotals, map[], [])

  /** The per-year tallies are updated for GitHub entries only. */
  function YearsStep(): (map<int, YearTally>, Stat) -> map<int, YearTally>
  {
    GroupStep(YearKey, IsGithub, AddYear, NoYear)
  }

  function AddConf(a: ConfAcc, s: Stat): ConfAcc
  {
    if IsGithub(s) then ConfAcc(AddTotals(a.totals, s), YearsStep()(a.years, s), a.entries + [s.top])
    else if IsZenodo(s) then a.(totals := AddTotals(a.totals, s))
    else a
  }

  /** `by_conf`: a conference gets a key only once a GitHub or Zenodo entry reaches it. */
  function ByConf(ss: seq<Stat>): map<string, ConfAcc>
  {
    Fold(map[], ss, GroupStep(ConfKey, Counted, AddConf, NoConf))
  }

  /** `by_year`. */
  function ByYear(ss: seq<Stat>): map<int, Totals>
  {
    Fold(map[], ss, GroupStep(YearKey, Counted, AddTotals, NoTotals))
  }

  /** `overall`. */
  function Overall(ss: seq<Stat>): Totals
  {
    Fold(NoTotals, ss, AddTotals)
  }

  /** The entries of one conference. */
  function OfConf(ss: seq<Stat>, c: string): seq<Stat>
  {
    Filter(ss, InGroup(ConfKey, c))
  }

  /** The entries of one year. */
  function OfYear(ss: seq<Stat>, y: int): seq<Stat>
  {
    Filter(ss, InGroup(YearKey, y))
  }

  function TopIfGithub(s: Stat): Option<TopEntry>
  {
    if IsGithub(s) then Some(s.top) else None
  }

  // ---------------------------------------------------------------------
  // What the tallies mean
  // ---------------------------------------------------------------------

  /** The summed counters. */
  datatype Field = Repos | Stars | Forks | ZenodoRepos | Views | Downloads

  /** The counters written out per conference and per year. */
  predicate GithubField(f: Field)
  {
    f.Repos? || f.Stars? || f.Forks?
  }

  function Measure(f: Field, t: Totals): int
  {
    match f
    case Repos => t.githubRepos
    case Stars => t.totalStars
    case Forks => t.totalForks
    case ZenodoRepos => t.zenodoRepos
    case Views => t.totalViews
    case Downloads => t.totalDownloads
  }

  /** What one entry adds to a counter. */
  function ContributionOf(f: Field, s: Stat): int
  {
    match f
    case Repos => if IsGithub(s) then 1 else 0
    case Stars => if IsGithub(s) then s.stars else 0
    case Forks => if IsGithub(s) then s.forks else 0
    case ZenodoRepos => if IsZenodo(s) then 1 else 0
    case Views => if IsZenodo(s) then s.views else 0
    case Downloads => if IsZenodo(s) then s.downloads else 0
  }

  function Contribution(f: Field): Stat -> int
  {
    (s: Stat) => ContributionOf(f, s)
  }

  /** Every counter of a tally is the sum of what its entries contribute. */
  lemma {:induction false} TotalsMeaning(ss: seq<Stat>, f: Field)
    ensures Measure(f, Overall(ss)) == Sum(ss, Contribution(f))
    decreases |ss|
  {
    if |ss| > 0 {
      TotalsMeaning(ss[..|ss| - 1], f);
    }
  }

  /** `github_repos` and `zenodo_repos` count the entries of their source. */
  lemma ReposCount(ss: seq<Stat>)
    ensures Overall(ss).githubRepos == Count(ss, IsGithub)
    ensures Overall(ss).zenodoRepos == Count(ss, IsZenodo)
  {
    TotalsMeaning(ss, Repos);
    TotalsMeaning(ss, ZenodoRepos);
    CountIsSum(ss, IsGithub);
    CountIsSum(ss, IsZenodo);
    SumAgree(ss, Indicator(IsGithub), Contribution(Repos));
    SumAgree(ss, Indicator(IsZenodo), Contribution(ZenodoRepos));
  }

  /** The two maxima. */
  datatype Peak = MostStars | MostForks

  function PeakOf(p: Peak, t: Totals): int
  {
    match p
    case MostStars => t.maxStars
    case MostForks => t.maxForks
  }

  function PeakValue(p: Peak, s: Stat): int
  {
    match p
    case MostStars => s.stars
    case MostForks => s.forks
  }

  /**
   * `max_stars` and `max_forks` start at 0 and are bounds on every GitHub
   * entry; a positive one is attained by one of them.
   */
  lemma {:induction false} PeakMeaning(ss: seq<Stat>, p: Peak)
    ensures PeakOf(p, Overall(ss)) >= 0
    ensures forall i :: 0 <= i < |ss| && IsGithub(ss[i]) ==> PeakValue(p, ss[i]) <= PeakOf(p, Overall(ss))
    ensures PeakOf(p, Overall(ss)) == 0
      || exists i :: 0 <= i < |ss| && IsGithub(ss[i]) && PeakValue(p, ss[i]) == PeakOf(p, Overall(ss))
    decreases |ss|
  {
    if |ss| > 0 {
      var init := ss[..|ss| - 1];
      var s := ss[|ss| - 1];
      PeakMeaning(init, p);
      var before := PeakOf(p, Overall(init));
      var after := PeakOf(p, Overall(ss));
      assert forall i :: 0 <= i < |init| ==> init[i] == ss[i];
      if IsGithub(s) {
        assert after == Max(before, PeakValue(p, s));
        if after != 0 && after != before {
          assert PeakValue(p, ss[|ss| - 1]) == after;
        }
      } else {
        assert after == before;
      }
      if after != 0 && after == before {
        var i :| 0 <= i < |init| && IsGithub(init[i]) && PeakValue(p, init[i]) == before;
        assert ss[i] == init[i];
      }
    }
  }

  /** The per-conference accumulator is the three tallies side by side. */
  lemma {:induction false} AccFold(ss: seq<Stat>)
    ensures Fold(NoConf, ss, AddConf) == ConfAcc(Overall(ss), Fold(map[], ss, YearsStep()), FilterMap(ss, TopIfGithub))
    decreases |ss|
  {
    if |ss| > 0 {
      AccFold(ss[..|ss| - 1]);
    }
  }

  /** What `by_conf` holds for one conference. */
  lemma ByConfAt(ss: seq<Stat>, c: string)
    ensures c in ByConf(ss) <==> exists i :: 0 <= i < |ss| && Counted(ss[i]) && ss[i].conference == c
    ensures c in ByConf(ss) ==>
              ByConf(ss)[c] == ConfAcc(Overall(OfConf(ss, c)), PerGroup(OfConf(ss, c), YearKey, IsGithub, AddYear, NoYear),
                                       FilterMap(OfConf(ss, c), TopIfGithub))
  {
    assert Neutral(Counted, AddConf);
    GroupFold(ss, ConfKey, Counted, AddConf, NoConf);
    PerGroupAt(ss, ConfKey, Counted, AddConf, NoConf, c);
    var g := OfConf(ss, c);
    AccFold(g);
    assert Neutral(IsGithub, AddYear);
    GroupFold(g, YearKey, IsGithub, AddYear, NoYear);
    if exists i :: 0 <= i < |ss| && Counted(ss[i]) && ss[i].conference == c {
      var i :| 0 <= i < |ss| && Counted(ss[i]) && ss[i].conference == c;
      assert ConfKey(ss[i]) == c;
    }
  }

  /** What `by_year` holds for one year. */
  lemma ByYearAt(ss: seq<Stat>, y: int)
    ensures y in ByYear(ss) <==> exists i :: 0 <= i < |ss| && Counted(ss[i]) && ss[i].year == y
    ensures y in ByYear(ss) ==> ByYear(ss)[y] == Overall(OfYear(ss, y))
  {
    assert Neutral(Counted, AddTotals);
    GroupFold(ss, YearKey, Counted, AddTotals, NoTotals);
    PerGroupAt(ss, YearKey, Counted, AddTotals, NoTotals, y);
    if exists i :: 0 <= i < |ss| && Counted(ss[i]) && ss[i].year == y {
      var i :| 0 <= i < |ss| && Counted(ss[i]) && ss[i].year == y;
      assert YearKey(ss[i]) == y;
    }
  }

  // ---------------------------------------------------------------------
  // Output rows
  // ---------------------------------------------------------------------

  /** One entry of a conference's `years` list (averages left out). */
  datatype YearRow = YearRow(year: int, githubRepos: nat, stars: int, forks: int)

  /** One entry of `by_conference` (averages left out). */
  datatype ConfRow = ConfRow(name: string, githubRepos: nat, totalStars: int, totalForks: int,
                             maxStars: int, maxForks: int, years: seq<YearRow>, topRepos: seq<TopEntry>)

  /** One entry of `by_year` (averages left out). */
  datatype YearStatRow = YearStatRow(year: int, githubRepos: nat, totalStars: int, totalForks: int,
                                     maxStars: int, maxForks: int)

  /** The returned document (averages and `last_updated` left out). */
  datatype Output = Output(overall: Totals, byConference: seq<ConfRow>, byYear: seq<YearStatRow>)

  function EntryStars(e: TopEntry): int
  {
    e.stars
  }

  /** The five entries with the most stars, ties in input order. */
  function TopRepos(entries: seq<TopEntry>): seq<TopEntry>
  {
    TopBy(entries, EntryStars, 5)
  }

  /** A defaultdict read: a missing key reads as the default. */
  function At<K, V>(m: map<K, V>, k: K, default: V): V
  {
    if k in m then m[k] else default
  }

  function YearRowOf(years: map<int, YearTally>, y: int): YearRow
  {
    var t := At(years, y, NoYear);
    YearRow(y, t.githubRepos, t.stars, t.forks)
  }

  function YearRowAt(years: map<int, YearTally>): int -> YearRow
  {
    (y: int) => YearRowOf(years, y)
  }

  /** The per-year list of one conference, by ascending year. */
  ghost function YearRows(years: map<int, YearTally>): seq<YearRow>
  {
    MapSeq(SortedInts(years.Keys), YearRowAt(years))
  }

  ghost function ConfRowOf(bc: map<string, ConfAcc>, c: string): ConfRow
  {
    var a := At(bc, c, NoConf);
    var t := a.totals;
    ConfRow(c, t.githubRepos, t.totalStars, t.totalForks, t.maxStars, t.maxForks, YearRows(a.years), TopRepos(a.entries))
  }

  ghost function ConfRowAt(bc: map<string, ConfAcc>): string -> ConfRow
  {
    (c: string) => ConfRowOf(bc, c)
  }

  function YearStatOf(yt: map<int, Totals>, y: int): YearStatRow
  {
    var t := At(yt, y, NoTotals);
    YearStatRow(y, t.githubRepos, t.totalStars, t.totalForks, t.maxStars, t.maxForks)
  }

  function YearStatAt(yt: map<int, Totals>): int -> YearStatRow
  {
    (y: int) => YearStatOf(yt, y)
  }

  /** The conference names of `by_conf`, sorted. */
  ghost function ConfNames(ss: seq<Stat>): seq<string>
  {
    SortedStrings(ByConf(ss).Keys)
  }

  /** The years of `by_year`, sorted. */
  ghost function Years(ss: seq<Stat>): seq<int>
  {
    SortedInts(ByYear(ss).Keys)
  }

  /** What `aggregate_stats` returns for the entries `ss`. */
  ghost function Aggregated(ss: seq<Stat>): Output
  {
    Output(Overall(ss), MapSeq(ConfNames(ss), ConfRowAt(ByConf(ss))), MapSeq(Years(ss), YearStatAt(ByYear(ss))))
  }

  // ---------------------------------------------------------------------
  // Properties of the rows
  // ---------------------------------------------------------------------

  /**
   * The conference rows are in strictly ascending name order and name
   * exactly the conferences that some GitHub or Zenodo entry belongs to;
   * likewise the year rows and the years.
   */
  lemma RowKeys(ss: seq<Stat>)
    ensures AscendingBy(ConfNames(ss), StrOrder())
    ensures forall c :: c in ConfNames(ss) <==> exists i :: 0 <= i < |ss| && Counted(ss[i]) && ss[i].conference == c
    ensures AscendingBy(Years(ss), IntOrder())
    ensures forall y :: y in Years(ss) <==> exists i :: 0 <= i < |ss| && Counted(ss[i]) && ss[i].year == y
  {
    forall c
      ensures c in ConfNames(ss) <==> exists i :: 0 <= i < |ss| && Counted(ss[i]) && ss[i].conference == c
    {
      ByConfAt(ss, c);
    }
    forall y
      ensures y in Years(ss) <==> exists i :: 0 <= i < |ss| && Counted(ss[i]) && ss[i].year == y
    {
      ByYearAt(ss, y);
    }
  }

  /** A counter as a conference row shows it; the Zenodo counters are not shown. */
  function ConfPartOf(f: Field, r: ConfRow): int
  {
    match f
    case Repos => r.githubRepos
    case Stars => r.totalStars
    case Forks => r.totalForks
    case _ => 0
  }

  function ConfPart(f: Field): ConfRow -> int
  {
    (r: ConfRow) => ConfPartOf(f, r)
  }

  /** A counter as a year row shows it. */
  function YearPartOf(f: Field, r: YearStatRow): int
  {
    match f
    case Repos => r.githubRepos
    case Stars => r.totalStars
    case Forks => r.totalForks
    case _ => 0
  }

  function YearPart(f: Field): YearStatRow -> int
  {
    (r: YearStatRow) => YearPartOf(f, r)
  }

  /**
   * Each conference row carries the sums and the maxima over that
   * conference's entries, its years are those of its GitHub entries, and its
   * top repositories are picked from its GitHub entries in order.
   */
  lemma ConfRowMeaning(ss: seq<Stat>, i: nat, f: Field)
    requires i < |Aggregated(ss).byConference| && GithubField(f)
    ensures var r := Aggregated(ss).byConference[i];
      && ConfPart(f)(r) == Sum(OfConf(ss, r.name), Contribution(f))
      && r.maxStars == PeakOf(MostStars, Overall(OfConf(ss, r.name)))
      && r.maxForks == PeakOf(MostForks, Overall(OfConf(ss, r.name)))
      && r.years == YearRows(PerGroup(OfConf(ss, r.name), YearKey, IsGithub, AddYear, NoYear))
      && r.topRepos == TopRepos(FilterMap(OfConf(ss, r.name), TopIfGithub))
  {
    var c := ConfNames(ss)[i];
    assert c in ByConf(ss).Keys;
    ByConfAt(ss, c);
    TotalsMeaning(OfConf(ss, c), f);
  }

  /** Each year row carries the sums and the maxima over that year's entries. */
  lemma YearRowMeaning(ss: seq<Stat>, i: nat, f: Field)
    requires i < |Aggregated(ss).byYear| && GithubField(f)
    ensures var r := Aggregated(ss).byYear[i];
      && YearPart(f)(r) == Sum(OfYear(ss, r.year), Contribution(f))
      && r.maxStars == PeakOf(MostStars, Overall(OfYear(ss, r.year)))
      && r.maxForks == PeakOf(MostForks, Overall(OfYear(ss, r.year)))
  {
    var y := Years(ss)[i];
    assert y in ByYear(ss).Keys;
    ByYearAt(ss, y);
    TotalsMeaning(OfYear(ss, y), f);
  }

  /** `github_repos`, `total_stars` and `total_forks` of the conference rows add up to the overall ones. */
  lemma ConfRowsSum(ss: seq<Stat>, f: Field)
    requires GithubField(f)
    ensures Sum(Aggregated(ss).byConference, ConfPart(f)) == Measure(f, Aggregated(ss).overall)
  {
    ConfRowsByGroup(ss, f);
    ConfGroupsCover(ss, f);
    TotalsMeaning(ss, f);
  }

  /** The conference rows' counter, summed, is the sum of the per-conference sums. */
  lemma ConfRowsByGroup(ss: seq<Stat>, f: Field)
    requires GithubField(f)
    ensures Sum(Aggregated(ss).byConference, ConfPart(f)) == Sum(ConfNames(ss), GroupSum(ss, ConfKey, Contribution(f)))
  {
    var names := ConfNames(ss);
    var bc := ByConf(ss);
    SumMapSeq(names, ConfRowAt(bc), ConfPart(f));
    forall i | 0 <= i < |names|
      ensures Compose(ConfRowAt(bc), ConfPart(f))(names[i]) == GroupSum(ss, ConfKey, Contribution(f))(names[i])
    {
      ConfRowMeaning(ss, i, f);
    }
    SumAgree(names, Compose(ConfRowAt(bc), ConfPart(f)), GroupSum(ss, ConfKey, Contribution(f)));
  }

  /** The per-conference sums over the listed conferences add up to the total. */
  lemma ConfGroupsCover(ss: seq<Stat>, f: Field)
    ensures Sum(ConfNames(ss), GroupSum(ss, ConfKey, Contribution(f))) == Sum(ss, Contribution(f))
  {
    var names := ConfNames(ss);
    var g := Contribution(f);
    StrOrderStrictTotal();
    AscendingDistinct(names, StrOrder());
    forall i | 0 <= i < |ss| && g(ss[i]) != 0
      ensures ConfKey(ss[i]) in names
    {
      ByConfAt(ss, ss[i].conference);
    }
    SumPartition(ss, names, ConfKey, g);
  }

  /** `github_repos`, `total_stars` and `total_forks` of the year rows add up to the overall ones. */
  lemma YearRowsSum(ss: seq<Stat>, f: Field)
    requires GithubField(f)
    ensures Sum(Aggregated(ss).byYear, YearPart(f)) == Measure(f, Aggregated(ss).overall)
  {
    YearRowsByGroup(ss, f);
    YearGroupsCover(ss, f);
    TotalsMeaning(ss, f);
  }

  lemma YearRowsByGroup(ss: seq<Stat>, f: Field)
    requires GithubField(f)
    ensures Sum(Aggregated(ss).byYear, YearPart(f)) == Sum(Years(ss), GroupSum(ss, YearKey, Contribution(f)))
  {
    var ys := Years(ss);
    var yt := ByYear(ss);
    SumMapSeq(ys, YearStatAt(yt), YearPart(f));
    forall i | 0 <= i < |ys|
      ensures Compose(YearStatAt(yt), YearPart(f))(ys[i]) == GroupSum(ss, YearKey, Contribution(f))(ys[i])
    {
      assert ys[i] in yt;
      ByYearAt(ss, ys[i]);
      TotalsMeaning(OfYear(ss, ys[i]), f);
      assert Compose(YearStatAt(yt), YearPart(f))(ys[i]) == YearPartOf(f, YearStatOf(yt, ys[i]));
    }
    SumAgree(ys, Compose(YearStatAt(yt), YearPart(f)), GroupSum(ss, YearKey, Contribution(f)));
  }

  lemma YearGroupsCover(ss: seq<Stat>, f: Field)
    ensures Sum(Years(ss), GroupSum(ss, YearKey, Contribution(f))) == Sum(ss, Contribution(f))
  {
    var ys := Years(ss);
    var g := Contribution(f);
    IntOrderStrictTotal();
    AscendingDistinct(ys, IntOrder());
    forall i | 0 <= i < |ss| && g(ss[i]) != 0
      ensures YearKey(ss[i]) in ys
    {
      ByYearAt(ss, ss[i].year);
    }
    SumPartition(ss, ys, YearKey, g);
  }

  // ---------------------------------------------------------------------
  // The loop
  // ---------------------------------------------------------------------

  /** The per-year list of one conference. */
  method BuildYearRows(years: map<int, YearTally>) returns (rows: seq<YearRow>)
    ensures rows == YearRows(years)
  {
    var ys := SortInts(years.Keys);
    rows := AppendEach(ys, YearRowAt(years));
  }

  /** `conf_stats`. */
  method BuildConfRows(bc: map<string, ConfAcc>) returns (rows: seq<ConfRow>)
    ensures rows == MapSeq(SortedStrings(bc.Keys), ConfRowAt(bc))
  {
    var names := SortStrings(bc.Keys);
    rows := [];
    for i := 0 to |names|
      invariant rows == MapSeq(names[..i], ConfRowAt(bc))
    {
      var d := bc[names[i]];
      var yearList := BuildYearRows(d.years);
      var top := TopRepos(d.entries);
      var t := d.totals;
      rows := rows + [ConfRow(names[i], t.githubRepos, t.totalStars, t.totalForks, t.maxStars, t.maxForks, yearList, top)];
      MapSeqSnoc(names, i, ConfRowAt(bc));
    }
    assert names[..|names|] == names;
  }

  /** `year_stats`. */
  method BuildYearStats(yt: map<int, Totals>) returns (rows: seq<YearStatRow>)
    ensures rows == MapSeq(SortedInts(yt.Keys), YearStatAt(yt))
  {
    var ys := SortInts(yt.Keys);
    rows := AppendEach(ys, YearStatAt(yt));
  }

  /**
   * One more entry, in the form the loop writes it: a GitHub or Zenodo
   * entry updates its conference and its year, read as defaults when new,
   * and every entry goes through the overall tally.
   */
  lemma TallySnoc(ss: seq<Stat>, i: nat)
    requires i < |ss|
    ensures var s := ss[i];
      && ByConf(ss[..i + 1]) == (if Counted(s) then ByConf(ss[..i])[s.conference := AddConf(At(ByConf(ss[..i]), s.conference, NoConf), s)] else ByConf(ss[..i]))
      && ByYear(ss[..i + 1]) == (if Counted(s) then ByYear(ss[..i])[s.year := AddTotals(At(ByYear(ss[..i]), s.year, NoTotals), s)] else ByYear(ss[..i]))
      && Overall(ss[..i + 1]) == AddTotals(Overall(ss[..i]), s)
  {
    var s := ss[i];
    assert ss[..i + 1][..i] == ss[..i];
    assert ss[..i + 1][i] == s;
    var bc := ByConf(ss[..i]);
    var yt := ByYear(ss[..i]);
    assert ByConf(ss[..i + 1]) == GroupStep(ConfKey, Counted, AddConf, NoConf)(bc, s);
    assert ByYear(ss[..i + 1]) == GroupStep(YearKey, Counted, AddTotals, NoTotals)(yt, s);
    assert Counted(s) ==> ConfKey(s) == s.conference && YearKey(s) == s.year;
    assert At(bc, s.conference, NoConf) == if s.conference in bc then bc[s.conference] else NoConf;
    assert At(yt, s.year, NoTotals) == if s.year in yt then yt[s.year] else NoTotals;
  }

  /** The tallying loop of `aggregate_stats`. */
  method Tally(all: seq<Record>) returns (byConf: map<string, ConfAcc>, byYear: map<int, Totals>, overall: Totals)
    ensures byConf == ByConf(Stats(all)) && byYear == ByYear(Stats(all)) && overall == Overall(Stats(all))
  {
    ghost var ss := Stats(all);
    byConf, byYear, overall := map[], map[], NoTotals;
    for i := 0 to |all|
      invariant byConf == ByConf(ss[..i]) && byYear == ByYear(ss[..i]) && overall == Overall(ss[..i])
    {
      var s := StatOf(all[i]);
      TallySnoc(ss, i);
      if IsGithub(s) || IsZenodo(s) {
        byConf := byConf[s.conference := AddConf(At(byConf, s.conference, NoConf), s)];
        byYear := byYear[s.year := AddTotals(At(byYear, s.year, NoTotals), s)];
      }
      overall := AddTotals(overall, s);
    }
    assert ss[..|all|] == ss;
  }

  /** The aggregation of all stats: the tallies, then the rows in sorted order. */
  method AggregateStats(all: seq<Record>) returns (out: Output)
    requires forall i :: 0 <= i < |all| ==> WellFormed(all[i])
    ensures out == Aggregated(Stats(all))
  {
    var byConf, byYear, overall := Tally(all);
    var confStats := BuildConfRows(byConf);
    var yearStats := BuildYearStats(byYear);
    out := Output(overall, confStats, yearStats);
  }
}
