/**
 * `generate_area_authors.py`: the authors of one research area (systems,
 * security, or a single conference), each with their artifact count, badge
 * counts, yearly counts over the area's artifact-evaluation years, weighted
 * artifact score and competition rank.
 */
module AreaAuthors {
  import opened Wrappers
  import opened Strings
  import opened Seqs
  import opened Json
  import opened Ordering

  // ---------------------------------------------------------------------
  // Inputs

  /** One paper of an author: its conference, its year (0 when absent) and its badges. */
  datatype Paper = Paper(conference: string, year: int, badges: seq<Json>)

  /**
   * One entry of the author list: name, papers, and the author's paper
   * totals per conference and year (as year-count pairs in dict order) and
   * per conference.
   */
  datatype Author = Author(name: string, papers: seq<Paper>, byConfYear: map<string, seq<(int, int)>>,
                           byConf: map<string, int>)

  /**
   * The area: its conferences, the artifact-evaluation years of each
   * conference, and the overall first and last years used when none of the
   * area's conferences has any.
   */
  datatype Area = Area(confs: set<string>, aeYears: map<string, set<int>>, minYear: int, maxYear: int)

  // ---------------------------------------------------------------------
  // The artifact-evaluation years of each conference

  /** One conference of `artifacts_by_conference.yml`: its name and the years listed for it. */
  datatype ConfYears = ConfYears(name: string, years: seq<int>)

  function YearSet(c: ConfYears): set<int>
  {
    set i | 0 <= i < |c.years| :: c.years[i]
  }

  /** The body of the loop filling `conf_ae_years`. */
  function NoteConf(m: map<string, set<int>>, c: ConfYears): map<string, set<int>>
  {
    if |c.years| > 0 then m[c.name := YearSet(c)] else m
  }

  /** `conf_ae_years` */
  function ConfAeYears(cs: seq<ConfYears>): map<string, set<int>>
  {
    Fold(map[], cs, NoteConf)
  }

  predicate ListedWithYears(name: string, c: ConfYears)
  {
    c.name == name && |c.years| > 0
  }

  function Listed(name: string): ConfYears -> bool
  {
    (c: ConfYears) => ListedWithYears(name, c)
  }

  /** A conference has AE years exactly when some entry lists it with years, and the last such entry gives them. */
  lemma {:induction false} ConfAeYearsMeaning(cs: seq<ConfYears>, name: string)
    ensures var m := ConfAeYears(cs);
      var last := LastIndex(cs, Listed(name));
      && (name in m <==> last.Some?)
      && (last.Some? ==> m[name] == YearSet(cs[last.value]) && |m[name]| > 0)
    decreases |cs|
  {
    if |cs| > 0 {
      var n := |cs| - 1;
      ConfAeYearsMeaning(cs[..n], name);
      LastIndexSnoc(cs, n, Listed(name));
      assert cs[..n + 1] == cs;
      if ListedWithYears(name, cs[n]) {
        assert cs[n].years[0] in YearSet(cs[n]);
      }
    }
  }

  /** The loop filling `conf_ae_years`. */
  method BuildConfAeYears(cs: seq<ConfYears>) returns (m: map<string, set<int>>)
    ensures m == ConfAeYears(cs)
  {
    m := map[];
    for i := 0 to |cs|
      invariant m == ConfAeYears(cs[..i])
    {
      assert cs[..i + 1][..i] == cs[..i];
      var years: set<int> := {};
      for j := 0 to |cs[i].years|
        invariant years == set k | 0 <= k < j :: cs[i].years[k]
      {
        years := years + {cs[i].years[j]};
      }
      assert |years| > 0 <==> |cs[i].years| > 0 by {
        if |cs[i].years| > 0 {
          assert cs[i].years[0] in years;
        }
      }
      if |years| > 0 {
        m := m[cs[i].name := years];
      }
    }
    assert cs[..|cs|] == cs;
  }

  // ---------------------------------------------------------------------
  // The area's year range

  function YearsAt(ae: map<string, set<int>>, c: string): set<int>
  {
    if c in ae then ae[c] else {}
  }

  /** The union of the AE years of the conferences `cs`. */
  function UnionOver(cs: seq<string>, ae: map<string, set<int>>): set<int>
    decreases |cs|
  {
    if |cs| == 0 then {} else UnionOver(cs[..|cs| - 1], ae) + YearsAt(ae, cs[|cs| - 1])
  }

  lemma {:induction false} UnionMembers(cs: seq<string>, ae: map<string, set<int>>, y: int)
    ensures y in UnionOver(cs, ae) <==> exists i :: 0 <= i < |cs| && y in YearsAt(ae, cs[i])
    decreases |cs|
  {
    if |cs| > 0 {
      var n := |cs| - 1;
      UnionMembers(cs[..n], ae, y);
      if exists i :: 0 <= i < |cs| && y in YearsAt(ae, cs[i]) {
        var i :| 0 <= i < |cs| && y in YearsAt(ae, cs[i]);
        if i < n {
          assert cs[..n][i] == cs[i];
        }
      }
      if exists i :: 0 <= i < n && y in YearsAt(ae, cs[..n][i]) {
        var i :| 0 <= i < n && y in YearsAt(ae, cs[..n][i]);
        assert cs[i] == cs[..n][i];
      }
    }
  }

  /** `area_ae_years`: the union of the AE years of the area's conferences. */
  ghost function AreaYears(area: Area): set<int>
  {
    UnionOver(SortedStrings(area.confs), area.aeYears)
  }

  /** A year is an area AE year exactly when it is an AE year of one of the area's conferences. */
  lemma AreaYearsMeaning(area: Area, y: int)
    ensures y in AreaYears(area) <==> exists c :: c in area.confs && y in YearsAt(area.aeYears, c)
  {
    var cs := SortedStrings(area.confs);
    UnionMembers(cs, area.aeYears, y);
    if exists c :: c in area.confs && y in YearsAt(area.aeYears, c) {
      var c :| c in area.confs && y in YearsAt(area.aeYears, c);
      var i :| 0 <= i < |cs| && cs[i] == c;
    }
  }

  /** `(area_min_year, area_max_year)`: the range of the area's AE years, or the overall range when it has none. */
  ghost function RangeOf(area: Area): (int, int)
  {
    var ys := SortedInts(AreaYears(area));
    if |ys| > 0 then (ys[0], ys[|ys| - 1]) else (area.minYear, area.maxYear)
  }

  /** The range runs from the least to the greatest AE year of the area. */
  lemma RangeMeaning(area: Area)
    ensures AreaYears(area) != {} ==>
      && RangeOf(area).0 in AreaYears(area) && RangeOf(area).1 in AreaYears(area)
      && forall y :: y in AreaYears(area) ==> RangeOf(area).0 <= y <= RangeOf(area).1
    ensures AreaYears(area) == {} ==> RangeOf(area) == (area.minYear, area.maxYear)
  {
    var ys := SortedInts(AreaYears(area));
    if AreaYears(area) != {} {
      var y :| y in AreaYears(area);
      assert y in ys;
      forall x | x in AreaYears(area)
        ensures ys[0] <= x <= ys[|ys| - 1]
      {
        var i :| 0 <= i < |ys| && ys[i] == x;
        assert i == 0 || IntOrder()(ys[0], ys[i]);
        assert i == |ys| - 1 || IntOrder()(ys[i], ys[|ys| - 1]);
      }
    }
  }

  /** The loop union of the AE years over the area's conferences, then `min` and `max`. */
  method AreaRange(area: Area) returns (lo: int, hi: int)
    ensures (lo, hi) == RangeOf(area)
  {
    var confs := SortStrings(area.confs);
    var years: set<int> := {};
    for i := 0 to |confs|
      invariant years == UnionOver(confs[..i], area.aeYears)
    {
      assert confs[..i + 1][..i] == confs[..i];
      years := years + YearsAt(area.aeYears, confs[i]);
    }
    assert confs[..|confs|] == confs;
    var ys := SortInts(years);
    if |ys| > 0 {
      lo, hi := ys[0], ys[|ys| - 1];
    } else {
      lo, hi := area.minYear, area.maxYear;
    }
  }

  // ---------------------------------------------------------------------
  // Counting an author's area papers

  function InArea(area: Area): Paper -> bool
  {
    (p: Paper) => p.conference in area.confs
  }

  /** `area_papers`: the author's papers at the area's conferences, in order. */
  function AreaPapers(a: Author, area: Area): seq<Paper>
  {
    Filter(a.papers, InArea(area))
  }

  /** The papers counted under year `y` in `year_counts`; a paper without a year is under none. */
  function CountedYear(y: int): Paper -> bool
  {
    (p: Paper) => p.year != 0 && p.year == y
  }

  /** The number of the author's area papers of year `y`, 0 for a year without one. */
  function YearCount(ps: seq<Paper>, y: int): nat
  {
    Count(ps, CountedYear(y))
  }

  function YearCountOf(ps: seq<Paper>): int -> int
  {
    (y: int) => YearCount(ps, y)
  }

  /** The sum of `f` over the years from `lo` to `hi`, both included. */
  function SumRange(f: int -> int, lo: int, hi: int): int
    decreases hi - lo
  {
    if hi < lo then 0 else SumRange(f, lo, hi - 1) + f(hi)
  }

  /** The papers whose year lies in `[lo, hi]`. */
  function InWindow(lo: int, hi: int): Paper -> bool
  {
    (p: Paper) => p.year != 0 && lo <= p.year <= hi
  }

  /** Summing the yearly counts over a window counts the papers of that window. */
  lemma {:induction false} WindowCount(ps: seq<Paper>, lo: int, hi: int)
    ensures SumRange(YearCountOf(ps), lo, hi) == Count(ps, InWindow(lo, hi))
    decreases hi - lo
  {
    if hi < lo {
      CountNone(ps, InWindow(lo, hi));
    } else {
      WindowCount(ps, lo, hi - 1);
      CountSplit(ps, InWindow(lo, hi), InWindow(lo, hi - 1), CountedYear(hi));
    }
  }

  /** `last_5_years`: the area papers of the five years up to the area's last year. */
  function LastFive(ps: seq<Paper>, hi: int): int
  {
    SumRange(YearCountOf(ps), hi - 4, hi)
  }

  /** The last-five count is the number of area papers dated in `[hi - 4, hi]`, so at most the total. */
  lemma LastFiveMeaning(ps: seq<Paper>, hi: int)
    ensures LastFive(ps, hi) == Count(ps, InWindow(hi - 4, hi))
    ensures 0 <= LastFive(ps, hi) <= |ps|
  {
    WindowCount(ps, hi - 4, hi);
  }

  /** `years_data`: one (year, count) pair per year from `hi` down to `lo`. */
  function YearsData(ps: seq<Paper>, lo: int, hi: int): seq<(int, nat)>
    decreases hi - lo
  {
    if hi < lo then [] else [(hi, YearCount(ps, hi))] + YearsData(ps, lo, hi - 1)
  }

  /** The years run from `hi` down to `lo`, one each, with that year's count. */
  lemma {:induction false} YearsDataMeaning(ps: seq<Paper>, lo: int, hi: int)
    ensures |YearsData(ps, lo, hi)| == if hi < lo then 0 else hi - lo + 1
    ensures forall i :: 0 <= i < |YearsData(ps, lo, hi)| ==>
      YearsData(ps, lo, hi)[i] == (hi - i, YearCount(ps, hi - i))
    decreases hi - lo
  {
    if hi >= lo {
      YearsDataMeaning(ps, lo, hi - 1);
    }
  }

  /** The count a per-year map keeps for `y`, 0 when it has none. */
  function CountAt(m: map<int, nat>, y: int): nat
  {
    if y in m then m[y] else 0
  }

  /** The loop filling `year_counts`. */
  method CountYears(ps: seq<Paper>) returns (counts: map<int, nat>)
    ensures forall y :: CountAt(counts, y) == YearCount(ps, y)
  {
    counts := map[];
    for i := 0 to |ps|
      invariant forall y :: CountAt(counts, y) == YearCount(ps[..i], y)
    {
      assert ps[..i + 1][..i] == ps[..i];
      ghost var before := counts;
      var yr := ps[i].year;
      if yr != 0 {
        counts := counts[yr := CountAt(counts, yr) + 1];
      }
      forall y ensures CountAt(counts, y) == YearCount(ps[..i + 1], y) {
        assert CountAt(before, y) == YearCount(ps[..i], y);
      }
    }
    assert ps[..|ps|] == ps;
  }

  /** The loop filling `years_data`, from the last year down. */
  method BuildYears(counts: map<int, nat>, ghost ps: seq<Paper>, lo: int, hi: int) returns (years: seq<(int, nat)>)
    requires forall y :: CountAt(counts, y) == YearCount(ps, y)
    ensures years == YearsData(ps, lo, hi)
  {
    years := [];
    var y := hi;
    while y >= lo
      invariant y < lo ==> y == lo - 1 || hi < lo
      invariant y <= hi
      invariant years + YearsData(ps, lo, y) == YearsData(ps, lo, hi)
      decreases y - lo
    {
      years := years + [(y, CountAt(counts, y))];
      y := y - 1;
    }
  }

  // ---------------------------------------------------------------------
  // Badges and the score

  /** The three badge counters. */
  datatype Kind = Available | Functional | Reproducible

  /** A badge in lower case, or the empty text when the badge is not a string. */
  function BadgeText(b: Json): string
  {
    if b.Str? then Lower(b.s) else ""
  }

  /** The badge tests on the lower-cased badge: it contains `available`, `functional`, or `reproduc` respectively. */
  predicate Marks(k: Kind, b: Json)
  {
    var bl := BadgeText(b);
    match k
    case Available => Contains(bl, "available")
    case Functional => Contains(bl, "functional")
    case Reproducible => Contains(bl, "reproduc") || Contains(bl, "reproduced")
  }

  function MarksAs(k: Kind): Json -> bool
  {
    (b: Json) => Marks(k, b)
  }

  function PaperHits(k: Kind): Paper -> int
  {
    (p: Paper) => Count(p.badges, MarksAs(k))
  }

  /** A counter: the badges of all area papers that pass its test, one per badge. */
  function Hits(ps: seq<Paper>, k: Kind): int
  {
    Sum(ps, PaperHits(k))
  }

  lemma HitsSnoc(ps: seq<Paper>, i: nat, k: Kind)
    requires i < |ps|
    ensures Hits(ps[..i + 1], k) == Hits(ps[..i], k) + Count(ps[i].badges, MarksAs(k))
  {
    assert ps[..i + 1][..i] == ps[..i];
  }

  /** The badge loops: every badge of every area paper, one test per counter. */
  method CountBadges(ps: seq<Paper>) returns (available: int, functional: int, reproducible: int)
    ensures available == Hits(ps, Available)
    ensures functional == Hits(ps, Functional)
    ensures reproducible == Hits(ps, Reproducible)
  {
    available, functional, reproducible := 0, 0, 0;
    for i := 0 to |ps|
      invariant available == Hits(ps[..i], Available)
      invariant functional == Hits(ps[..i], Functional)
      invariant reproducible == Hits(ps[..i], Reproducible)
    {
      HitsSnoc(ps, i, Available);
      HitsSnoc(ps, i, Functional);
      HitsSnoc(ps, i, Reproducible);
      var bs := ps[i].badges;
      var a0, f0, r0 := available, functional, reproducible;
      for j := 0 to |bs|
        invariant available == a0 + Count(bs[..j], MarksAs(Available))
        invariant functional == f0 + Count(bs[..j], MarksAs(Functional))
        invariant reproducible == r0 + Count(bs[..j], MarksAs(Reproducible))
      {
        assert bs[..j + 1][..j] == bs[..j];
        var bl := BadgeText(bs[j]);
        if Contains(bl, "available") {
          available := available + 1;
        }
        if Contains(bl, "functional") {
          functional := functional + 1;
        }
        if Contains(bl, "reproduc") || Contains(bl, "reproduced") {
          reproducible := reproducible + 1;
        }
      }
      assert bs[..|bs|] == bs;
    }
    assert ps[..|ps|] == ps;
  }

  function Max0(x: int): int
  {
    if x > 0 then x else 0
  }

  /** `artifact_score`: 3 points per reproduced badge, 2 per functional one beyond those, 1 per paper beyond those. */
  function Score(total: int, functional: int, reproducible: int): int
  {
    reproducible * 3 + Max0(functional - reproducible) * 2 + Max0(total - functional)
  }

  /** The score is never negative, and counts each badge level once when the counts are nested. */
  lemma ScoreMeaning(total: int, functional: int, reproducible: int)
    requires reproducible >= 0
    ensures Score(total, functional, reproducible) >= 0
    ensures 0 <= reproducible <= functional <= total ==>
      Score(total, functional, reproducible) == total + functional + reproducible
  {
  }

  // ---------------------------------------------------------------------
  // Paper totals at the area's conferences

  function AeCount(ae: set<int>, yc: (int, int)): int
  {
    if yc.0 in ae then yc.1 else 0
  }

  function AeCountIn(ae: set<int>): ((int, int)) -> int
  {
    (yc: (int, int)) => AeCount(ae, yc)
  }

  /** One conference's share of `area_total_papers`: its AE-year counts when both are known, else its total. */
  function ConfTotal(a: Author, area: Area, conf: string): int
  {
    var ae := if conf in area.aeYears then area.aeYears[conf] else {};
    var perYear := if conf in a.byConfYear then a.byConfYear[conf] else [];
    if |perYear| > 0 && |ae| > 0 then Sum(perYear, AeCountIn(ae))
    else if conf in a.byConf then a.byConf[conf] else 0
  }

  function ConfTotalOf(a: Author, area: Area): string -> int
  {
    (conf: string) => ConfTotal(a, area, conf)
  }

  /** `area_total_papers`: the shares of all of the area's conferences. */
  ghost function AreaTotal(a: Author, area: Area): int
  {
    Sum(SortedStrings(area.confs), ConfTotalOf(a, area))
  }

  /** The share of a conference with year data and AE years counts only the years with AE, otherwise its total. */
  lemma ConfTotalMeaning(a: Author, area: Area, conf: string)
    ensures conf in a.byConfYear && |a.byConfYear[conf]| > 0 && conf in area.aeYears && |area.aeYears[conf]| > 0 ==>
      ConfTotal(a, area, conf) == Sum(a.byConfYear[conf], AeCountIn(area.aeYears[conf]))
    ensures !(conf in a.byConfYear && |a.byConfYear[conf]| > 0) || !(conf in area.aeYears && |area.aeYears[conf]| > 0) ==>
      ConfTotal(a, area, conf) == if conf in a.byConf then a.byConf[conf] else 0
  {
  }

  /** The inner loop over the per-year paper counts of one conference. */
  method SumAeYears(perYear: seq<(int, int)>, ae: set<int>) returns (s: int)
    ensures s == Sum(perYear, AeCountIn(ae))
  {
    s := 0;
    for i := 0 to |perYear|
      invariant s == Sum(perYear[..i], AeCountIn(ae))
    {
      assert perYear[..i + 1][..i] == perYear[..i];
      var (yr, cnt) := perYear[i];
      if yr in ae {
        s := s + cnt;
      }
    }
    assert perYear[..|perYear|] == perYear;
  }

  /** The body of the loop over the area's conferences: one conference's share. */
  method ConfShare(a: Author, area: Area, conf: string) returns (share: int)
    ensures share == ConfTotal(a, area, conf)
  {
    var ae := if conf in area.aeYears then area.aeYears[conf] else {};
    var perYear := if conf in a.byConfYear then a.byConfYear[conf] else [];
    if |perYear| > 0 && |ae| > 0 {
      share := SumAeYears(perYear, ae);
    } else if |ae| > 0 {
      share := if conf in a.byConf then a.byConf[conf] else 0;
    } else {
      share := if conf in a.byConf then a.byConf[conf] else 0;
    }
  }

  /** The loop over the area's conferences summing `area_total_papers`. */
  method AreaTotalPapers(a: Author, area: Area) returns (total: int)
    ensures total == AreaTotal(a, area)
  {
    var confs := SortStrings(area.confs);
    total := 0;
    for i := 0 to |confs|
      invariant total == Sum(confs[..i], ConfTotalOf(a, area))
    {
      assert confs[..i + 1][..i] == confs[..i];
      var share := ConfShare(a, area, confs[i]);
      total := total + share;
    }
    assert confs[..|confs|] == confs;
  }

  // ---------------------------------------------------------------------
  // One author's entry

  /** An entry of the area's author list, before ranking. */
  datatype Entry = Entry(name: string, score: int, total: nat, totalPapers: int, lastFive: int,
                         available: int, functional: int, reproducible: int,
                         conferences: seq<string>, years: seq<(int, nat)>)

  ghost function ConfsOf(ps: seq<Paper>): set<string>
  {
    set i | 0 <= i < |ps| :: ps[i].conference
  }

  /** The entry of author `a`, or none when the author has no paper in the area. */
  ghost function EntryOf(area: Area, a: Author): Option<Entry>
  {
    var ps := AreaPapers(a, area);
    if |ps| == 0 then None
    else
      var range := RangeOf(area);
      var functional := Hits(ps, Functional);
      var reproducible := Hits(ps, Reproducible);
      Some(Entry(a.name, Score(|ps|, functional, reproducible), |ps|, AreaTotal(a, area),
                 LastFive(ps, range.1), Hits(ps, Available), functional, reproducible,
                 SortedStrings(ConfsOf(ps)), YearsData(ps, range.0, range.1)))
  }

  /** The author has area papers exactly when one of their papers is at an area conference. */
  lemma AreaPapersNonEmpty(a: Author, area: Area)
    ensures |AreaPapers(a, area)| > 0 <==> exists i :: 0 <= i < |a.papers| && a.papers[i].conference in area.confs
  {
    var ps := AreaPapers(a, area);
    if exists i :: 0 <= i < |a.papers| && a.papers[i].conference in area.confs {
      var i :| 0 <= i < |a.papers| && a.papers[i].conference in area.confs;
      FilterMembers(a.papers, InArea(area), a.papers[i]);
    }
    if |ps| > 0 {
      FilterMembers(a.papers, InArea(area), ps[0]);
      var i :| 0 <= i < |a.papers| && a.papers[i] == ps[0];
    }
  }

  /** A conference is one of the area papers' conferences exactly when it is in the area and the author has a paper there. */
  lemma AreaPapersConf(a: Author, area: Area, c: string)
    ensures c in ConfsOf(AreaPapers(a, area)) <==>
      exists i :: 0 <= i < |a.papers| && a.papers[i].conference == c && c in area.confs
  {
    var ps := AreaPapers(a, area);
    if c in ConfsOf(ps) {
      var k :| 0 <= k < |ps| && ps[k].conference == c;
      FilterMembers(a.papers, InArea(area), ps[k]);
      var i :| 0 <= i < |a.papers| && a.papers[i] == ps[k];
    }
    if exists i :: 0 <= i < |a.papers| && a.papers[i].conference == c && c in area.confs {
      var i :| 0 <= i < |a.papers| && a.papers[i].conference == c && c in area.confs;
      FilterMembers(a.papers, InArea(area), a.papers[i]);
      var k :| 0 <= k < |ps| && ps[k] == a.papers[i];
    }
  }

  /**
   * An author is listed exactly when they have a paper in the area; the
   * entry then counts exactly those papers, at most all of them in the last
   * five years, and lists exactly their conferences.
   */
  lemma EntryOfMeaning(area: Area, a: Author)
    ensures EntryOf(area, a).Some? <==> exists i :: 0 <= i < |a.papers| && a.papers[i].conference in area.confs
    ensures EntryOf(area, a).Some? ==>
      var e := EntryOf(area, a).value;
      && e.name == a.name && e.total == |AreaPapers(a, area)| > 0
      && 0 <= e.lastFive <= e.total
      && forall c :: c in e.conferences <==> exists i :: 0 <= i < |a.papers| && a.papers[i].conference == c && c in area.confs
  {
    var ps := AreaPapers(a, area);
    AreaPapersNonEmpty(a, area);
    forall c ensures c in ConfsOf(ps) <==> exists i :: 0 <= i < |a.papers| && a.papers[i].conference == c && c in area.confs {
      AreaPapersConf(a, area, c);
    }
    if |ps| > 0 {
      var e := EntryOf(area, a).value;
      LastFiveMeaning(ps, RangeOf(area).1);
      assert e.lastFive == LastFive(ps, RangeOf(area).1);
      assert e.conferences == SortedStrings(ConfsOf(ps));
    }
  }

  /** The loop summing `last_5_years`. */
  method SumLastFive(counts: map<int, nat>, ghost ps: seq<Paper>, hi: int) returns (lastFive: int)
    requires forall y :: CountAt(counts, y) == YearCount(ps, y)
    ensures lastFive == LastFive(ps, hi)
  {
    lastFive := 0;
    for y := hi - 4 to hi + 1
      invariant lastFive == SumRange(YearCountOf(ps), hi - 4, y - 1)
    {
      lastFive := lastFive + CountAt(counts, y);
    }
  }

  /** The body of the loop over the authors: the entry of one author. */
  method AuthorEntry(area: Area, a: Author, lo: int, hi: int) returns (e: Option<Entry>)
    requires (lo, hi) == RangeOf(area)
    ensures e == EntryOf(area, a)
  {
    var ps := Filter(a.papers, InArea(area));
    if |ps| == 0 {
      return None;
    }
    var counts := CountYears(ps);
    var lastFive := SumLastFive(counts, ps, hi);
    var years := BuildYears(counts, ps, lo, hi);
    var available, functional, reproducible := CountBadges(ps);
    var totalPapers := AreaTotalPapers(a, area);
    var repro := reproducible;
    var funcOnly := Max0(functional - reproducible);
    var remainder := Max0(|ps| - functional);
    var score := repro * 3 + funcOnly * 2 + remainder * 1;
    var confs := SortStrings(set i | 0 <= i < |ps| :: ps[i].conference);
    assert score == Score(|ps|, functional, reproducible);
    e := Some(Entry(a.name, score, |ps|, totalPapers, lastFive, available, functional, reproducible, confs, years));
  }

  // ---------------------------------------------------------------------
  // Ordering and ranks

  /** The ranking order: a higher score first, then more papers, then the name in ascending order. */
  predicate Outranks(x: Entry, y: Entry)
  {
    x.score > y.score || (x.score == y.score && (x.total > y.total || (x.total == y.total && StrLt(x.name, y.name))))
  }

  function ByRank(): (Entry, Entry) -> bool
  {
    (x: Entry, y: Entry) => Outranks(x, y)
  }

  lemma ByRankStrict()
    ensures StrictOrder(ByRank())
  {
    forall x: Entry ensures !Outranks(x, x) {
      StrLtIrreflexive(x.name);
    }
    forall x: Entry, y: Entry, z: Entry | Outranks(x, y) && Outranks(y, z)
      ensures Outranks(x, z)
    {
      if x.score == y.score == z.score && x.total == y.total == z.total {
        StrLtTransitive(x.name, y.name, z.name);
      }
    }
  }

  /** The authors sorted by the ranking order. */
  function SortAuthors(es: seq<Entry>): (r: seq<Entry>)
    ensures multiset(r) == multiset(es) && SortedBy(r, ByRank())
  {
    ByRankStrict();
    SortBy(es, ByRank())
  }

  /** The rank the loop gives position `i`: a drop in score starts a new rank at `i + 1`, a tie keeps the rank before. */
  function LoopRank(s: seq<Entry>, i: nat): nat
    requires i < |s|
  {
    if i == 0 then 1
    else if s[i].score < s[i - 1].score then i + 1
    else LoopRank(s, i - 1)
  }

  function ScoreAbove(x: int): Entry -> bool
  {
    (e: Entry) => e.score > x
  }

  lemma CountAboveSplit(s: seq<Entry>, x: int, k: nat)
    requires k <= |s|
    requires forall j :: 0 <= j < k ==> s[j].score > x
    requires forall j :: k <= j < |s| ==> s[j].score <= x
    ensures Count(s, ScoreAbove(x)) == k
  {
    CountPrefix(s, ScoreAbove(x), k);
  }

  /**
   * In a list sorted by the key, the loop's ranks are competition ranks:
   * one more than the number of authors with a strictly higher score.
   */
  lemma {:induction false} CompetitionRank(s: seq<Entry>, i: nat)
    requires SortedBy(s, ByRank()) && i < |s|
    ensures LoopRank(s, i) == 1 + Count(s, ScoreAbove(s[i].score))
    decreases i
  {
    assert forall j, k :: 0 <= j < k < |s| ==> s[k].score <= s[j].score by {
      forall j, k | 0 <= j < k < |s| ensures s[k].score <= s[j].score {
        assert !Outranks(s[k], s[j]);
      }
    }
    if i == 0 {
      CountAboveSplit(s, s[0].score, 0);
    } else if s[i].score < s[i - 1].score {
      CountAboveSplit(s, s[i].score, i);
    } else {
      CompetitionRank(s, i - 1);
    }
  }

  /** An entry with its rank. */
  datatype Ranked = Ranked(entry: Entry, rank: nat)

  function RankedAt(s: seq<Entry>, i: nat): Ranked
    requires i < |s|
  {
    Ranked(s[i], LoopRank(s, i))
  }

  /** The ranking loop over the sorted list. */
  method AssignRanks(s: seq<Entry>) returns (r: seq<Ranked>)
    ensures |r| == |s| && forall i :: 0 <= i < |s| ==> r[i] == RankedAt(s, i)
  {
    r := [];
    var rank := 1;
    for i := 0 to |s|
      invariant |r| == i
      invariant forall j :: 0 <= j < i ==> r[j] == RankedAt(s, j)
      invariant i == 0 ==> rank == 1
      invariant i > 0 ==> rank == LoopRank(s, i - 1)
    {
      if i > 0 && s[i].score < s[i - 1].score {
        rank := i + 1;
      }
      assert rank == LoopRank(s, i);
      r := r + [Ranked(s[i], rank)];
    }
  }

  // ---------------------------------------------------------------------
  // The area's author list

  ghost function EntryIn(area: Area): Author -> Option<Entry>
  {
    (a: Author) => EntryOf(area, a)
  }

  /** The entries of the authors with area papers, sorted by score, total and name. */
  ghost function SortedEntries(authors: seq<Author>, area: Area): seq<Entry>
  {
    SortAuthors(FilterMap(authors, EntryIn(area)))
  }

  /** `process_authors_for_area`: the sorted entries, ranked. */
  ghost function AreaAuthorList(authors: seq<Author>, area: Area): (r: seq<Ranked>)
    ensures var sorted := SortedEntries(authors, area);
      |r| == |sorted| && forall i :: 0 <= i < |r| ==> r[i] == RankedAt(sorted, i)
  {
    var sorted := SortedEntries(authors, area);
    seq(|sorted|, (i: int) requires 0 <= i < |sorted| => RankedAt(sorted, i))
  }

  /**
   * On a list sorted by the key, the first rank is 1, a tie keeps the rank,
   * a lower score takes its position plus one, and every rank is one more
   * than the number of higher scores.
   */
  lemma RanksMeaning(s: seq<Entry>)
    requires SortedBy(s, ByRank())
    ensures |s| > 0 ==> LoopRank(s, 0) == 1
    ensures forall i :: 0 < i < |s| ==> s[i].score <= s[i - 1].score
    ensures forall i :: 0 < i < |s| && s[i].score == s[i - 1].score ==> LoopRank(s, i) == LoopRank(s, i - 1)
    ensures forall i :: 0 < i < |s| && s[i].score < s[i - 1].score ==> LoopRank(s, i) == i + 1
    ensures forall i :: 0 <= i < |s| ==> LoopRank(s, i) == 1 + Count(s, ScoreAbove(s[i].score))
  {
    forall i | 0 < i < |s| ensures s[i].score <= s[i - 1].score {
      assert !Outranks(s[i], s[i - 1]);
    }
    forall i | 0 <= i < |s| ensures LoopRank(s, i) == 1 + Count(s, ScoreAbove(s[i].score)) {
      CompetitionRank(s, i);
    }
  }

  /**
   * The list holds the entries of exactly the authors with area papers,
   * sorted by score, total and name, each ranked one more than the number
   * of entries with a higher score.
   */
  lemma AreaAuthorListMeaning(authors: seq<Author>, area: Area)
    ensures var sorted := SortedEntries(authors, area);
      && multiset(sorted) == multiset(FilterMap(authors, EntryIn(area)))
      && SortedBy(sorted, ByRank())
    ensures var sorted := SortedEntries(authors, area);
      var r := AreaAuthorList(authors, area);
      && |r| == |sorted|
      && forall i :: 0 <= i < |r| ==> r[i].entry == sorted[i] && r[i].rank == 1 + Count(sorted, ScoreAbove(sorted[i].score))
  {
    var sorted := SortedEntries(authors, area);
    RanksMeaning(sorted);
  }

  /** `process_authors_for_area` */
  method ProcessArea(authors: seq<Author>, area: Area) returns (r: seq<Ranked>)
    ensures r == AreaAuthorList(authors, area)
  {
    var lo, hi := AreaRange(area);
    var entries: seq<Entry> := [];
    for i := 0 to |authors|
      invariant entries == FilterMap(authors[..i], EntryIn(area))
    {
      FilterMapSnoc(authors, i, EntryIn(area));
      var e := AuthorEntry(area, authors[i], lo, hi);
      if e.Some? {
        entries := entries + [e.value];
      }
    }
    assert authors[..|authors|] == authors;
    var sorted := SortAuthors(entries);
    r := AssignRanks(sorted);
  }
}
