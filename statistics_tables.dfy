/**
 * The tables the website statistics are made of: the category of each
 * conference-year, the per-conference table, the artifact list with its
 * resolved URLs, the yearly totals and the summary.
 */
module StatisticsTables {
  import opened Wrappers
  import opened Strings
  import opened Seqs
  import opened Dicts
  import opened Json
  import opened Ordering
  import opened ConfYears
  import opened Statistics

  // ---------------------------------------------------------------------
  // Categories

  /** Where the results of each conference-year came from. */
  datatype Origins = Origins(sys: set<string>, usenix: Scraped, acm: Scraped)

  /**
   * The category of a conference-year: systems for sysartifacts results,
   * else the category recorded by the USENIX or ACM pass, else security.
   */
  function CategoryOf(k: string, o: Origins): (c: string)
    ensures k in o.sys ==> c == "systems"
    ensures k !in o.sys && k !in o.usenix.results.values && k !in o.acm.results.values ==> c == "security"
    ensures k !in o.sys && k in o.usenix.results.values && k in o.usenix.categories ==> c == o.usenix.categories[k]
  {
    if k in o.sys then "systems"
    else if k in o.usenix.results.values then (if k in o.usenix.categories then o.usenix.categories[k] else "systems")
    else if k in o.acm.results.values then (if k in o.acm.categories then o.acm.categories[k] else "security")
    else "security"
  }

  /** The USENIX fallback never scrapes a key that sysartifacts or secartifacts parsed. */
  lemma {:induction false} FallbackDisjoint(dirs: set<string>, sys: Results, sec: Results, matches: string -> bool, scrape: Scraper, k: string)
    requires k in Fallback(SortedDirs(dirs), sys.values.Keys + sec.values.Keys, matches, scrape).results.values
    ensures k !in sys.values && k !in sec.values
  {
    FallbackMeaning(SortedDirs(dirs), sys.values.Keys + sec.values.Keys, matches, scrape, k);
  }

  /**
   * A key the USENIX fallback scraped, and that neither sysartifacts nor
   * ACM has, keeps the USENIX artifacts in the merged results and is
   * counted under the category the fallback recorded for it.
   */
  lemma UsenixEntry(sys: Results, sec: Results, u: Scraped, acm: Scraped, k: string)
    requires u.Matched() && k in u.results.values && k !in sys.values && k !in acm.results.values
    ensures CombineResults(sys, sec, u.results, acm.results).values[k] == u.results.values[k]
    ensures CategoryOf(k, Origins(sys.values.Keys, u, acm)) == u.categories[k]
  {
  }

  // ---------------------------------------------------------------------
  // Artifact entries

  /** One artifact of the website's artifact list. */
  datatype Entry = Entry(conference: string, category: string, year: nat, title: Json, badges: Json,
                         repositoryUrl: Json, artifactUrl: Json)

  /** The values the repository URL is chosen from, in order of preference. */
  function UrlCandidates(a: Record): seq<Json>
  {
    [GetOr(a, "repository_url", Str("")), GetOr(a, "github_url", Str("")),
     GetOr(a, "second_repository_url", Str("")), GetOr(a, "bitbucket_url", Str(""))]
  }

  /** The first truthy value of a list, else its last value. */
  function FirstTruthy(vs: seq<Json>): Json
    requires |vs| > 0
  {
    match FirstIndex(vs, Truthy)
    case Some(i) => vs[i]
    case None => vs[|vs| - 1]
  }

  /** `or` gives the first truthy value, or else the last one. */
  lemma FirstTruthyMeaning(vs: seq<Json>)
    requires |vs| > 0
    ensures Truthy(FirstTruthy(vs)) <==> exists i :: 0 <= i < |vs| && Truthy(vs[i])
    ensures Truthy(FirstTruthy(vs)) ==>
      exists i :: 0 <= i < |vs| && FirstTruthy(vs) == vs[i] && forall j :: 0 <= j < i ==> !Truthy(vs[j])
    ensures !Truthy(FirstTruthy(vs)) ==> FirstTruthy(vs) == vs[|vs| - 1]
  {
  }

  /** The repository URL: the first truthy of the four URL keys, else the `bitbucket_url` value or `''`. */
  function RepositoryUrl(a: Record): Json
  {
    FirstTruthy(UrlCandidates(a))
  }

  /** The artifact URL: `artifact_url`, or failing that the first item of a list-valued `artifact_urls`. */
  function ArtifactUrl(a: Record): Json
  {
    var u := GetOr(a, "artifact_url", Str(""));
    var urls := Get(a, "artifact_urls");
    if !Truthy(u) && urls.List? then (if |urls.items| > 0 then urls.items[0] else Str("")) else u
  }

  /**
   * A truthy `artifact_url` is kept; any other truthy result is the first
   * item of a list-valued `artifact_urls`.
   */
  lemma ArtifactUrlMeaning(a: Record)
    ensures Truthy(GetOr(a, "artifact_url", Str(""))) ==> ArtifactUrl(a) == GetOr(a, "artifact_url", Str(""))
    ensures Truthy(ArtifactUrl(a)) && ArtifactUrl(a) != GetOr(a, "artifact_url", Str("")) ==>
      Get(a, "artifact_urls").List? && |Get(a, "artifact_urls").items| > 0 && ArtifactUrl(a) == Get(a, "artifact_urls").items[0]
  {
  }

  /** The badges as listed: a comma-separated text becomes its stripped parts, anything else is kept. */
  function EntryBadges(a: Record): Json
  {
    var raw := GetOr(a, "badges", List([]));
    if raw.Str? then
      var bs := SplitBadges(raw.s);
      List(seq(|bs|, i requires 0 <= i < |bs| => Str(bs[i])))
    else raw
  }

  function EntryOf(name: string, category: string, year: nat, a: Record): Entry
  {
    Entry(name, category, year, GetOr(a, "title", Str("Unknown")), EntryBadges(a), RepositoryUrl(a), ArtifactUrl(a))
  }

  function EntryMaker(name: string, category: string, year: nat): Record -> Entry
  {
    a => EntryOf(name, category, year, a)
  }

  /** The entries of one conference-year, one per artifact, in order. */
  function Entries(name: string, category: string, year: nat, arts: seq<Record>): seq<Entry>
  {
    MapSeq(arts, EntryMaker(name, category, year))
  }

  /** The entry loop of one conference-year. */
  method AppendEntries(acc: seq<Entry>, name: string, category: string, year: nat, arts: seq<Record>)
    returns (r: seq<Entry>)
    ensures r == acc + Entries(name, category, year, arts)
  {
    r := acc;
    var i := 0;
    while i < |arts|
      invariant 0 <= i <= |arts|
      invariant r == acc + MapSeq(arts[..i], EntryMaker(name, category, year))
    {
      var a := arts[i];
      var repo := RepositoryUrl(a);
      var art := ArtifactUrl(a);
      var e := Entry(name, category, year, GetOr(a, "title", Str("Unknown")), EntryBadges(a), repo, art);
      assert e == EntryMaker(name, category, year)(arts[i]);
      MapSeqSnoc(arts, i, EntryMaker(name, category, year));
      r := r + [e];
      i := i + 1;
    }
    assert arts[..i] == arts;
  }

  // ---------------------------------------------------------------------
  // The conference table

  /** The row of one conference-year: its year, its artifact count and its badge counts. */
  datatype YearRow = YearRow(year: nat, total: nat, functional: nat, reproducible: nat, available: nat, reusable: nat)

  /** One conference of `by_conference`. */
  datatype ConfData = ConfData(years: seq<YearRow>, total: nat, category: string, venueType: string)

  type Conferences = d: Dict<string, ConfData> | d.Valid() witness Dict([], map[])

  /** The running state of the conference-year loop. */
  datatype Tables = Tables(byConference: Conferences, artifacts: seq<Entry>, years: set<nat>,
                           conferences: set<string>, systems: nat, security: nat)

  function NoTables(): Tables
  {
    Tables(Dict([], map[]), [], {}, {}, 0, 0)
  }

  /** `WORKSHOPS` */
  const Workshops: set<string> := {"woot", "systex"}

  function VenueType(letters: string): string
  {
    if Lower(letters) in Workshops then "workshop" else "conference"
  }

  function RowOf(year: nat, arts: seq<Record>): (row: YearRow)
    ensures row.year == year && row.total == |arts|
  {
    var c := CountBadges(arts);
    YearRow(year, |arts|, c.functional, c.reproducible, c.available, c.reusable)
  }

  /** The entry a conference starts with in the default dict. */
  function Prior(d: Conferences, name: string): ConfData
  {
    if name in d.values then d.values[name] else ConfData([], 0, "unknown", "conference")
  }

  /** The conference-year's addition to its conference: one more row, its artifacts, its category and venue type. */
  function AddYear(d: Conferences, name: string, row: YearRow, category: string, venue: string): Conferences
  {
    var p := Prior(d, name);
    Put(d, name, ConfData(p.years + [row], p.total + row.total, category, venue))
  }

  /** The counters of a conference-year: systems when its category is systems, security otherwise. */
  function CountArtifacts(t: Tables, category: string, n: nat): (r: Tables)
    ensures r.systems + r.security == t.systems + t.security + n
  {
    if category == "systems" then t.(systems := t.systems + n) else t.(security := t.security + n)
  }

  /** A conference-year with a year: its year, its conference's new row and its entries. */
  function Dated(t: Tables, name: string, year: nat, row: YearRow, venue: string, category: string, es: seq<Entry>): Tables
  {
    t.(years := t.years + {year}, conferences := t.conferences + {name},
       byConference := AddYear(t.byConference, name, row, category, venue),
       artifacts := t.artifacts + es)
  }

  /** One conference-year of the loop; keys without a year only count. */
  function TabulateOne(t: Tables, k: string, arts: seq<Record>, o: Origins): Tables
  {
    var category := CategoryOf(k, o);
    var counted := CountArtifacts(t, category, |arts|);
    match SplitConfYear(k)
    case None => counted
    case Some((letters, digits)) =>
      var name := Upper(letters);
      var year := YearValue(digits);
      Dated(counted, name, year, RowOf(year, arts), VenueType(letters), category, Entries(name, category, year, arts))
  }

  /** The artifacts of a key, none when absent. */
  function ArtsOf(all: Results, k: string): seq<Record>
  {
    if k in all.values then all.values[k] else []
  }

  /** The loop over the keys `ks` of the merged results. */
  function Tabulate(all: Results, ks: seq<string>, o: Origins): Tables
    decreases |ks|
  {
    if |ks| == 0 then NoTables()
    else TabulateOne(Tabulate(all, ks[..|ks| - 1], o), ks[|ks| - 1], ArtsOf(all, ks[|ks| - 1]), o)
  }

  function SystemsShare(all: Results, o: Origins): string -> int
  {
    k => if CategoryOf(k, o) == "systems" then |ArtsOf(all, k)| else 0
  }

  function SecurityShare(all: Results, o: Origins): string -> int
  {
    k => if CategoryOf(k, o) == "systems" then 0 else |ArtsOf(all, k)|
  }

  function DatedShare(all: Results): string -> int
  {
    k => if SplitConfYear(k).Some? then |ArtsOf(all, k)| else 0
  }

  function Size(all: Results): string -> int
  {
    k => |ArtsOf(all, k)|
  }

  lemma TabulateOneCounts(t: Tables, k: string, arts: seq<Record>, o: Origins)
    ensures TabulateOne(t, k, arts, o).systems == t.systems + (if CategoryOf(k, o) == "systems" then |arts| else 0)
    ensures TabulateOne(t, k, arts, o).security == t.security + (if CategoryOf(k, o) == "systems" then 0 else |arts|)
    ensures |TabulateOne(t, k, arts, o).artifacts| == |t.artifacts| + (if SplitConfYear(k).Some? then |arts| else 0)
  {
  }

  /** The systems counter sums the lengths of the systems conference-years, the security counter those of all others. */
  lemma {:induction false} TabulateCounts(all: Results, ks: seq<string>, o: Origins)
    ensures Tabulate(all, ks, o).systems == Sum(ks, SystemsShare(all, o))
    ensures Tabulate(all, ks, o).security == Sum(ks, SecurityShare(all, o))
    decreases |ks|
  {
    if |ks| > 0 {
      var k := ks[|ks| - 1];
      var init := ks[..|ks| - 1];
      TabulateCounts(all, init, o);
      TabulateOneCounts(Tabulate(all, init, o), k, ArtsOf(all, k), o);
    }
  }

  /** The artifact list holds one entry per artifact of a key with a year. */
  lemma {:induction false} TabulateEntryCount(all: Results, ks: seq<string>, o: Origins)
    ensures |Tabulate(all, ks, o).artifacts| == Sum(ks, DatedShare(all))
    decreases |ks|
  {
    if |ks| > 0 {
      var k := ks[|ks| - 1];
      var init := ks[..|ks| - 1];
      TabulateEntryCount(all, init, o);
      TabulateOneCounts(Tabulate(all, init, o), k, ArtsOf(all, k), o);
    }
  }

  lemma {:induction false} SharesAddUp(all: Results, ks: seq<string>, o: Origins)
    ensures Sum(ks, SystemsShare(all, o)) + Sum(ks, SecurityShare(all, o)) == Sum(ks, Size(all))
    decreases |ks|
  {
    if |ks| > 0 {
      SharesAddUp(all, ks[..|ks| - 1], o);
    }
  }

  /** Every conference-year adds its artifacts to exactly one of the two counters. */
  lemma CountersCoverAll(all: Results, ks: seq<string>, o: Origins)
    ensures Tabulate(all, ks, o).systems + Tabulate(all, ks, o).security == Sum(ks, Size(all))
  {
    TabulateCounts(all, ks, o);
    SharesAddUp(all, ks, o);
  }

  function RowTotal(): YearRow -> int
  {
    (row: YearRow) => row.total
  }

  /** The conference table and the conference set name the same conferences. */
  ghost predicate KeysAgree(t: Tables)
  {
    t.byConference.values.Keys == t.conferences
  }

  /** Each conference's total is the sum of its rows. */
  ghost predicate TotalsAgree(d: Conferences)
  {
    forall c | c in d.values :: d.values[c].total == Sum(d.values[c].years, RowTotal())
  }

  /** Every row's year is in the year set. */
  ghost predicate RowsDated(t: Tables)
  {
    forall c, i | c in t.byConference.values && 0 <= i < |t.byConference.values[c].years| ::
      t.byConference.values[c].years[i].year in t.years
  }

  /** Every entry names a known conference and year. */
  ghost predicate EntriesKnown(t: Tables)
  {
    forall i | 0 <= i < |t.artifacts| :: t.artifacts[i].conference in t.conferences && t.artifacts[i].year in t.years
  }

  /** The shape the loop keeps. */
  ghost predicate Formed(t: Tables)
  {
    KeysAgree(t) && TotalsAgree(t.byConference) && RowsDated(t) && EntriesKnown(t)
  }

  lemma SumSnoc<T>(s: seq<T>, x: T, f: T -> int)
    ensures Sum(s + [x], f) == Sum(s, f) + f(x)
  {
    assert (s + [x])[..|s|] == s;
  }

  lemma AddYearTotals(d: Conferences, name: string, row: YearRow, category: string, venue: string)
    requires TotalsAgree(d)
    ensures TotalsAgree(AddYear(d, name, row, category, venue))
  {
    var p := Prior(d, name);
    SumSnoc(p.years, row, RowTotal());
  }

  lemma {:induction false} DatedRows(t: Tables, name: string, year: nat, row: YearRow, venue: string, category: string, es: seq<Entry>)
    requires RowsDated(t) && row.year == year
    ensures RowsDated(Dated(t, name, year, row, venue, category, es))
  {
    var r := Dated(t, name, year, row, venue, category, es);
    var p := Prior(t.byConference, name);
    assert r.byConference.values[name].years == p.years + [row];
    forall c, i | c in r.byConference.values && 0 <= i < |r.byConference.values[c].years|
      ensures r.byConference.values[c].years[i].year in r.years
    {
      if c != name {
        assert r.byConference.values[c] == t.byConference.values[c];
      } else if i < |p.years| {
        assert r.byConference.values[c].years[i] == p.years[i];
      }
    }
  }

  lemma {:induction false} DatedEntries(t: Tables, name: string, year: nat, row: YearRow, venue: string, category: string, es: seq<Entry>)
    requires EntriesKnown(t) && forall i | 0 <= i < |es| :: es[i].conference == name && es[i].year == year
    ensures EntriesKnown(Dated(t, name, year, row, venue, category, es))
  {
    var r := Dated(t, name, year, row, venue, category, es);
    assert r.artifacts == t.artifacts + es;
    forall i | 0 <= i < |r.artifacts|
      ensures r.artifacts[i].conference in r.conferences && r.artifacts[i].year in r.years
    {
      if i >= |t.artifacts| {
        assert r.artifacts[i] == es[i - |t.artifacts|];
      } else {
        assert r.artifacts[i] == t.artifacts[i];
      }
    }
  }

  lemma DatedFormed(t: Tables, name: string, year: nat, row: YearRow, venue: string, category: string, es: seq<Entry>)
    requires Formed(t) && row.year == year && forall i | 0 <= i < |es| :: es[i].conference == name && es[i].year == year
    ensures Formed(Dated(t, name, year, row, venue, category, es))
  {
    DatedRows(t, name, year, row, venue, category, es);
    DatedEntries(t, name, year, row, venue, category, es);
    AddYearTotals(t.byConference, name, row, category, venue);
  }

  lemma CountedFormed(t: Tables, category: string, n: nat)
    requires Formed(t)
    ensures Formed(CountArtifacts(t, category, n))
  {
    var r := CountArtifacts(t, category, n);
    assert r.byConference == t.byConference && r.artifacts == t.artifacts;
    assert r.years == t.years && r.conferences == t.conferences;
  }

  lemma TabulateOneFormed(t: Tables, k: string, arts: seq<Record>, o: Origins)
    requires Formed(t)
    ensures Formed(TabulateOne(t, k, arts, o))
  {
    var category := CategoryOf(k, o);
    var counted := CountArtifacts(t, category, |arts|);
    CountedFormed(t, category, |arts|);
    if SplitConfYear(k).Some? {
      var (letters, digits) := SplitConfYear(k).value;
      var name := Upper(letters);
      var year := YearValue(digits);
      var es := Entries(name, category, year, arts);
      forall i | 0 <= i < |es|
        ensures es[i].conference == name && es[i].year == year
      {
        assert es[i] == EntryOf(name, category, year, arts[i]);
      }
      DatedFormed(counted, name, year, RowOf(year, arts), VenueType(letters), category, es);
    }
  }

  /** The loop keeps the table's shape. */
  lemma {:induction false} TabulateFormed(all: Results, ks: seq<string>, o: Origins)
    ensures Formed(Tabulate(all, ks, o))
    decreases |ks|
  {
    if |ks| > 0 {
      var k := ks[|ks| - 1];
      TabulateFormed(all, ks[..|ks| - 1], o);
      TabulateOneFormed(Tabulate(all, ks[..|ks| - 1], o), k, ArtsOf(all, k), o);
    }
  }

  /** The part of the loop body that runs for a key with a year, once its name, year and venue type are known. */
  method AddDated(t: Tables, name: string, year: nat, venue: string, arts: seq<Record>, category: string) returns (r: Tables)
    ensures r == Dated(t, name, year, RowOf(year, arts), venue, category, Entries(name, category, year, arts))
  {
    var row := RowFor(year, arts);
    var bc := AddConfYear(t.byConference, name, row, category, venue);
    var es := AppendEntries(t.artifacts, name, category, year, arts);
    r := t.(years := t.years + {year}, conferences := t.conferences + {name}, byConference := bc, artifacts := es);
  }

  /** The year's row: its artifact count and its badge counters. */
  method RowFor(year: nat, arts: seq<Record>) returns (row: YearRow)
    ensures row == RowOf(year, arts)
  {
    var c := CountBadges(arts);
    row := YearRow(year, |arts|, c.functional, c.reproducible, c.available, c.reusable);
  }

  /** The conference's entry after the year is added to it. */
  method AddConfYear(d: Conferences, name: string, row: YearRow, category: string, venue: string) returns (bc: Conferences)
    ensures bc == AddYear(d, name, row, category, venue)
  {
    var p := Prior(d, name);
    bc := Put(d, name, ConfData(p.years + [row], p.total + row.total, category, venue));
  }

  /** One conference-year of the loop. */
  method TabulateStep(t: Tables, k: string, arts: seq<Record>, o: Origins) returns (r: Tables)
    ensures r == TabulateOne(t, k, arts, o)
  {
    var category := CategoryOf(k, o);
    r := t;
    if category == "systems" {
      r := r.(systems := r.systems + |arts|);
    } else {
      r := r.(security := r.security + |arts|);
    }
    assert r == CountArtifacts(t, category, |arts|);
    var split := SplitConfYear(k);
    if split.Some? {
      var (letters, digits) := split.value;
      r := AddDated(r, Upper(letters), YearValue(digits), VenueType(letters), arts, category);
    }
  }

  lemma TabulateSnoc(all: Results, ks: seq<string>, i: nat, o: Origins)
    requires i < |ks|
    ensures Tabulate(all, ks[..i + 1], o) == TabulateOne(Tabulate(all, ks[..i], o), ks[i], ArtsOf(all, ks[i]), o)
  {
    assert ks[..i + 1][..i] == ks[..i];
  }

  /** The loop over the merged results, in their order. */
  method TabulateAll(all: Results, o: Origins) returns (t: Tables)
    ensures t == Tabulate(all, all.keys, o)
  {
    var ks := all.keys;
    t := NoTables();
    var i := 0;
    while i < |ks|
      invariant 0 <= i <= |ks|
      invariant t == Tabulate(all, ks[..i], o)
    {
      TabulateSnoc(all, ks, i, o);
      assert ks[i] in all.values;
      t := TabulateStep(t, ks[i], all.values[ks[i]], o);
      i := i + 1;
    }
    assert ks[..i] == ks;
  }
}
