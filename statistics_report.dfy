/**
 * The output of the website statistics: the yearly totals, the rows of
 * the per-conference table, the summary, and the whole pass from the
 * sources to the output.
 */
module StatisticsReport {
  import opened Wrappers
  import opened Strings
  import opened Seqs
  import opened Dicts
  import opened Json
  import opened Ordering
  import opened Statistics
  import opened StatisticsTables

  // ---------------------------------------------------------------------
  // Yearly totals

  /** The totals of one year: all its entries, and those of each category. */
  datatype YearTally = YearTally(total: nat, systems: nat, security: nat)

  function Zero(): YearTally
  {
    YearTally(0, 0, 0)
  }

  function One(b: bool): nat
  {
    if b then 1 else 0
  }

  /** One entry counts in its year's total, and in its category's when that is systems or security. */
  function TallyEntry(m: map<nat, YearTally>, e: Entry): map<nat, YearTally>
  {
    var p := if e.year in m then m[e.year] else Zero();
    m[e.year := YearTally(p.total + 1, p.systems + One(e.category == "systems"), p.security + One(e.category == "security"))]
  }

  /** The yearly totals of the entries `es`. */
  function YearTotals(es: seq<Entry>): map<nat, YearTally>
    decreases |es|
  {
    if |es| == 0 then map[] else TallyEntry(YearTotals(es[..|es| - 1]), es[|es| - 1])
  }

  function InYear(y: nat): Entry -> bool
  {
    (e: Entry) => e.year == y
  }

  function InYearAs(y: nat, category: string): Entry -> bool
  {
    (e: Entry) => e.year == y && e.category == category
  }

  /** The counts of year `y` a tally holds: none when absent. */
  function TallyOf(m: map<nat, YearTally>, y: nat): YearTally
  {
    if y in m then m[y] else Zero()
  }

  lemma TallyEntryOf(m: map<nat, YearTally>, e: Entry, y: nat)
    ensures y in TallyEntry(m, e) <==> y in m || e.year == y
    ensures TallyOf(TallyEntry(m, e), y) ==
      var p := TallyOf(m, y);
      YearTally(p.total + One(InYear(y)(e)), p.systems + One(InYearAs(y, "systems")(e)), p.security + One(InYearAs(y, "security")(e)))
  {
  }

  /**
   * A year has a row exactly when some entry has that year; its total is
   * the number of its entries, and its systems and security counts the
   * number of its entries of each category.
   */
  lemma {:induction false} YearTotalsMeaning(es: seq<Entry>, y: nat)
    ensures y in YearTotals(es) <==> Count(es, InYear(y)) > 0
    ensures TallyOf(YearTotals(es), y) == YearTally(Count(es, InYear(y)), Count(es, InYearAs(y, "systems")), Count(es, InYearAs(y, "security")))
    decreases |es|
  {
    if |es| > 0 {
      var init := es[..|es| - 1];
      YearTotalsMeaning(init, y);
      TallyEntryOf(YearTotals(init), es[|es| - 1], y);
    }
  }

  /** The two categories of a year never add up to more than its total. */
  lemma {:induction false} CategoriesWithinTotal(es: seq<Entry>, y: nat)
    ensures TallyOf(YearTotals(es), y).systems + TallyOf(YearTotals(es), y).security <= TallyOf(YearTotals(es), y).total
    decreases |es|
  {
    YearTotalsMeaning(es, y);
    CountsWithin(es, y);
  }

  lemma {:induction false} CountsWithin(es: seq<Entry>, y: nat)
    ensures Count(es, InYearAs(y, "systems")) + Count(es, InYearAs(y, "security")) <= Count(es, InYear(y))
    decreases |es|
  {
    if |es| > 0 {
      CountsWithin(es[..|es| - 1], y);
    }
  }

  /** The yearly-totals loop over the artifact list. */
  method YearlyTotals(es: seq<Entry>) returns (m: map<nat, YearTally>)
    ensures m == YearTotals(es)
  {
    m := map[];
    var i := 0;
    while i < |es|
      invariant 0 <= i <= |es|
      invariant m == YearTotals(es[..i])
    {
      assert es[..i + 1][..i] == es[..i];
      var e := es[i];
      var p := if e.year in m then m[e.year] else YearTally(0, 0, 0);
      ghost var prior := p;
      p := p.(total := p.total + 1);
      if e.category == "systems" {
        p := p.(systems := p.systems + 1);
      } else if e.category == "security" {
        p := p.(security := p.security + 1);
      }
      assert p == YearTally(prior.total + 1, prior.systems + One(e.category == "systems"), prior.security + One(e.category == "security"));
      assert m[e.year := p] == TallyEntry(m, e);
      m := m[e.year := p];
      i := i + 1;
    }
    assert es[..i] == es;
  }

  /** One row of `artifacts_by_year`. */
  datatype YearCount = YearCount(year: nat, count: nat, systems: nat, security: nat)

  function YearCountOf(m: map<nat, YearTally>, y: nat): YearCount
    requires y in m
  {
    YearCount(y, m[y].total, m[y].systems, m[y].security)
  }

  function YearCounts(m: map<nat, YearTally>, ys: seq<nat>): (rows: seq<YearCount>)
    requires forall i :: 0 <= i < |ys| ==> ys[i] in m
    ensures |rows| == |ys|
    ensures forall i :: 0 <= i < |rows| ==> rows[i] == YearCountOf(m, ys[i])
  {
    seq(|ys|, i requires 0 <= i < |ys| => YearCountOf(m, ys[i]))
  }

  /** The yearly totals as rows, in ascending order of year. */
  ghost function ByYear(m: map<nat, YearTally>): seq<YearCount>
  {
    NatOrderStrictTotal();
    YearCounts(m, SortedSet(m.Keys, NatOrder()))
  }

  /** The yearly rows list every year of the tally once, in ascending order, each with its counts. */
  lemma ByYearMeaning(m: map<nat, YearTally>)
    ensures forall i, j :: 0 <= i < j < |ByYear(m)| ==> ByYear(m)[i].year < ByYear(m)[j].year
    ensures forall i :: 0 <= i < |ByYear(m)| ==> ByYear(m)[i].year in m && ByYear(m)[i] == YearCountOf(m, ByYear(m)[i].year)
    ensures forall y :: y in m ==> exists i :: 0 <= i < |ByYear(m)| && ByYear(m)[i].year == y
  {
    NatOrderStrictTotal();
    var ys := SortedSet(m.Keys, NatOrder());
    forall y | y in m
      ensures exists i :: 0 <= i < |ByYear(m)| && ByYear(m)[i].year == y
    {
      assert y in ys;
      var i :| 0 <= i < |ys| && ys[i] == y;
      assert ByYear(m)[i].year == y;
    }
  }

  lemma YearCountsSnoc(m: map<nat, YearTally>, ys: seq<nat>, i: nat)
    requires i < |ys| && forall j :: 0 <= j < |ys| ==> ys[j] in m
    ensures YearCounts(m, ys[..i + 1]) == YearCounts(m, ys[..i]) + [YearCountOf(m, ys[i])]
  {
    var l := YearCounts(m, ys[..i + 1]);
    var r := YearCounts(m, ys[..i]) + [YearCountOf(m, ys[i])];
    forall j | 0 <= j < |l|
      ensures l[j] == r[j]
    {
      assert ys[..i + 1][j] == ys[j];
      if j < i {
        assert ys[..i][j] == ys[j];
      }
    }
  }

  /** The rows of `artifacts_by_year`. */
  method YearlyRows(m: map<nat, YearTally>) returns (rows: seq<YearCount>)
    ensures rows == ByYear(m)
  {
    NatOrderStrictTotal();
    var ys := SortSet(m.Keys, NatOrder());
    rows := [];
    var i := 0;
    while i < |ys|
      invariant 0 <= i <= |ys|
      invariant rows == YearCounts(m, ys[..i])
    {
      YearCountsSnoc(m, ys, i);
      rows := rows + [YearCount(ys[i], m[ys[i]].total, m[ys[i]].systems, m[ys[i]].security)];
      i := i + 1;
    }
    assert ys[..i] == ys;
  }

  // ---------------------------------------------------------------------
  // The per-conference table

  /** One row of `artifacts_by_conference`. */
  datatype ConferenceRow = ConferenceRow(name: string, category: string, venueType: string, total: nat, years: seq<YearRow>)

  /** Rows compared by year alone. */
  function ByYearOrder(): (YearRow, YearRow) -> bool
  {
    Asc((row: YearRow) => row.year)
  }

  /** A conference's row: its data with its year rows in ascending order of year, none lost or added. */
  function ConferenceRowOf(name: string, d: ConfData): (r: ConferenceRow)
    ensures SortedBy(r.years, ByYearOrder()) && multiset(r.years) == multiset(d.years)
    ensures (r.name, r.category, r.venueType, r.total) == (name, d.category, d.venueType, d.total)
  {
    AscStrict((row: YearRow) => row.year);
    ConferenceRow(name, d.category, d.venueType, d.total, SortBy(d.years, ByYearOrder()))
  }

  function ConferenceRows(d: Conferences, names: seq<string>): (rows: seq<ConferenceRow>)
    requires forall i :: 0 <= i < |names| ==> names[i] in d.values
    ensures |rows| == |names|
    ensures forall i :: 0 <= i < |rows| ==> rows[i] == ConferenceRowOf(names[i], d.values[names[i]])
  {
    seq(|names|, i requires 0 <= i < |names| => ConferenceRowOf(names[i], d.values[names[i]]))
  }

  /** The names of the conferences of one category. */
  function InCategory(d: Conferences, category: string): set<string>
  {
    set c | c in d.values && d.values[c].category == category
  }

  lemma ConferenceRowsSnoc(d: Conferences, names: seq<string>, i: nat)
    requires i < |names| && forall j :: 0 <= j < |names| ==> names[j] in d.values
    ensures ConferenceRows(d, names[..i + 1]) == ConferenceRows(d, names[..i]) + [ConferenceRowOf(names[i], d.values[names[i]])]
  {
    var l := ConferenceRows(d, names[..i + 1]);
    var r := ConferenceRows(d, names[..i]) + [ConferenceRowOf(names[i], d.values[names[i]])];
    forall j | 0 <= j < |l|
      ensures l[j] == r[j]
    {
      assert names[..i + 1][j] == names[j];
      if j < i {
        assert names[..i][j] == names[j];
      }
    }
  }

  /** The rows of `artifacts_by_conference`. */
  method ConferenceTable(d: Conferences) returns (rows: seq<ConferenceRow>)
    ensures rows == ConferenceRows(d, SortedStrings(d.values.Keys))
  {
    StrOrderStrictTotal();
    var names := SortSet(d.values.Keys, StrOrder());
    assert names == SortedStrings(d.values.Keys);
    assert forall j :: 0 <= j < |names| ==> names[j] in d.values;
    rows := [];
    var i := 0;
    while i < |names|
      invariant 0 <= i <= |names|
      invariant rows == ConferenceRows(d, names[..i])
    {
      ConferenceRowsSnoc(d, names, i);
      rows := rows + [ConferenceRowOf(names[i], d.values[names[i]])];
      i := i + 1;
    }
    assert names[..i] == names;
  }

  // ---------------------------------------------------------------------
  // Summary and the whole pass

  /** The first and the last year joined by a dash, or `N/A` when there are none. */
  function RangeText(sorted: seq<nat>): string
  {
    if |sorted| == 0 then "N/A" else NatToString(sorted[0]) + "-" + NatToString(sorted[|sorted| - 1])
  }

  /** The first and last of the sorted years are their minimum and maximum. */
  lemma RangeBounds(ys: set<nat>)
    ensures var s := SortedNats(ys);
      (|s| == 0 <==> ys == {})
      && (|s| > 0 ==> s[0] in ys && s[|s| - 1] in ys && forall y :: y in ys ==> s[0] <= y <= s[|s| - 1])
  {
    var s := SortedNats(ys);
    if |s| > 0 {
      forall y | y in ys
        ensures s[0] <= y <= s[|s| - 1]
      {
        assert y in s;
        var i :| 0 <= i < |s| && s[i] == y;
        assert i == 0 || NatOrder()(s[0], s[i]);
        assert i == |s| - 1 || NatOrder()(s[i], s[|s| - 1]);
      }
    } else {
      assert forall y :: y in ys ==> y in s;
    }
  }

  /** The summary; `last_updated` is left out. */
  datatype Summary = Summary(totalArtifacts: nat, totalConferences: nat, systemsArtifacts: nat, securityArtifacts: nat,
                             conferencesList: seq<string>, systemsConferences: seq<string>,
                             securityConferences: seq<string>, yearRange: string)

  ghost function SummaryOf(t: Tables): Summary
  {
    Summary(|t.artifacts|, |t.conferences|, t.systems, t.security, SortedStrings(t.conferences),
            SortedStrings(InCategory(t.byConference, "systems")), SortedStrings(InCategory(t.byConference, "security")),
            RangeText(SortedNats(t.years)))
  }

  /** Everything `generate_statistics` returns but the coverage table. */
  datatype Output = Output(summary: Summary, byConference: seq<ConferenceRow>, byYear: seq<YearCount>, artifacts: seq<Entry>)

  /** The sources: sysartifacts and secartifacts results, their discovered directories, and the ACM table. */
  datatype Sources = Sources(sys: Results, sec: Results, sysDirs: set<string>, secDirs: set<string>, acmConfs: seq<AcmConf>)

  ghost function UsenixOf(src: Sources, matches: string -> bool, usenix: Scraper): Scraped
  {
    Fallback(SortedDirs(src.sysDirs + src.secDirs), src.sys.values.Keys + src.sec.values.Keys, matches, usenix)
  }

  ghost function AcmOf(src: Sources, u: Scraped, matches: string -> bool, acm: Scraper): Scraped
  {
    Acm(src.acmConfs, HandledConfs(src.sysDirs + src.secDirs + u.results.values.Keys), matches, acm)
  }

  /** The tables of the merged results, in the merged order. */
  ghost function TablesOf(src: Sources, matches: string -> bool, usenix: Scraper, acm: Scraper): Tables
  {
    var u := UsenixOf(src, matches, usenix);
    var a := AcmOf(src, u, matches, acm);
    var all := CombineResults(src.sys, src.sec, u.results, a.results);
    Tabulate(all, all.keys, Origins(src.sys.values.Keys, u, a))
  }

  ghost function OutputOf(t: Tables): Output
  {
    Output(SummaryOf(t), ConferenceRows(t.byConference, SortedStrings(t.byConference.values.Keys)), ByYear(YearTotals(t.artifacts)), t.artifacts)
  }

  /** The summary of the tables. */
  method Summarize(t: Tables) returns (summary: Summary)
    ensures summary == SummaryOf(t)
  {
    NatOrderStrictTotal();
    StrOrderStrictTotal();
    var years := SortSet(t.years, NatOrder());
    var names := SortSet(t.conferences, StrOrder());
    var systems := SortSet(InCategory(t.byConference, "systems"), StrOrder());
    var security := SortSet(InCategory(t.byConference, "security"), StrOrder());
    summary := Summary(|t.artifacts|, |t.conferences|, t.systems, t.security, names, systems, security, RangeText(years));
  }

  /** The output built from the tables. */
  method BuildOutput(t: Tables) returns (out: Output)
    ensures out == OutputOf(t)
  {
    var table := ConferenceTable(t.byConference);
    var totals := YearlyTotals(t.artifacts);
    var byYear := YearlyRows(totals);
    var summary := Summarize(t);
    out := Output(summary, table, byYear, t.artifacts);
  }

  /** `generate_statistics` from its sources, scrapers and conference pattern. */
  method GenerateStatistics(src: Sources, matches: string -> bool, usenix: Scraper, acm: Scraper) returns (out: Output)
    ensures out == OutputOf(TablesOf(src, matches, usenix, acm))
  {
    var u := UsenixFallback(src.sysDirs + src.secDirs, src.sys.values.Keys + src.sec.values.Keys, matches, usenix);
    assert u == UsenixOf(src, matches, usenix);
    var handled := CollectHandled(src.sysDirs + src.secDirs + u.results.values.Keys);
    var a := ScrapeAcm(src.acmConfs, handled, matches, acm);
    assert a == AcmOf(src, u, matches, acm);
    var all := CombineResults(src.sys, src.sec, u.results, a.results);
    var t := TabulateAll(all, Origins(src.sys.values.Keys, u, a));
    assert t == TablesOf(src, matches, usenix, acm);
    out := BuildOutput(t);
  }

  /**
   * The summary's two counters share out every artifact of every merged
   * conference-year, with or without a year; the artifact list, and so
   * `total_artifacts`, holds only those of keys with a year.
   */
  lemma SummaryCounts(all: Results, o: Origins)
    ensures SummaryOf(Tabulate(all, all.keys, o)).systemsArtifacts + SummaryOf(Tabulate(all, all.keys, o)).securityArtifacts
      == Sum(all.keys, Size(all))
    ensures SummaryOf(Tabulate(all, all.keys, o)).totalArtifacts == Sum(all.keys, DatedShare(all))
  {
    CountersCoverAll(all, all.keys, o);
    TabulateEntryCount(all, all.keys, o);
  }

  /** Every yearly row counts exactly the listed artifacts of its year, and the rows ascend by year. */
  lemma YearRowsCount(t: Tables, i: nat)
    requires i < |OutputOf(t).byYear|
    ensures var rows := OutputOf(t).byYear;
      rows[i].count == Count(t.artifacts, InYear(rows[i].year)) && rows[i].count > 0
      && rows[i].systems == Count(t.artifacts, InYearAs(rows[i].year, "systems"))
      && rows[i].security == Count(t.artifacts, InYearAs(rows[i].year, "security"))
      && (i > 0 ==> rows[i - 1].year < rows[i].year)
  {
    var m := YearTotals(t.artifacts);
    ByYearMeaning(m);
    YearTotalsMeaning(t.artifacts, ByYear(m)[i].year);
  }
}
