/**
 * The integer part of the prolific-author statistics
 * (`aggregate_author_statistics` in generate_author_stats.py): for every
 * author of the matched artifact papers, the artifact count, the paper
 * list, conferences, years and exclusive badge counts; the tracked-venue
 * paper totals; the author's category; the category breakdown; and the
 * output order by artifact count. The clock is the `now` parameter.
 */
module AuthorStats {
  import opened Wrappers
  import opened Strings
  import opened Seqs
  import opened Dicts
  import opened Json
  import opened Ordering
  import Statistics
  import opened AuthorDblp

  // ---- exclusive badge counting ----

  datatype Grade = Available | Functional | Reproducible

  /** The one counter a badge raises: the first of available, functional, reproducible it mentions. */
  function GradeOf(badge: string): Option<Grade>
  {
    var b := Lower(badge);
    if Contains(b, "available") then Some(Available)
    else if Contains(b, "functional") then Some(Functional)
    else if Contains(b, "reproduc") then Some(Reproducible)
    else None
  }

  /** The three badge counters of an author. */
  datatype Tally = Tally(available: nat, functional: nat, reproducible: nat)

  const NoTally := Tally(0, 0, 0)

  function CounterOf(t: Tally, g: Grade): nat
  {
    match g
    case Available => t.available
    case Functional => t.functional
    case Reproducible => t.reproducible
  }

  function Credit(t: Tally, badge: string): Tally
  {
    match GradeOf(badge)
    case Some(Available) => t.(available := t.available + 1)
    case Some(Functional) => t.(functional := t.functional + 1)
    case Some(Reproducible) => t.(reproducible := t.reproducible + 1)
    case None => t
  }

  /** The badge loop of one paper: every badge in turn. */
  function CreditAll(t: Tally, bs: seq<string>): Tally
    decreases |bs|
  {
    if |bs| == 0 then t else Credit(CreditAll(t, bs[..|bs| - 1]), bs[|bs| - 1])
  }

  function Graded(g: Grade): string -> bool
  {
    (b: string) => GradeOf(b) == Some(g)
  }

  function IsGraded(b: string): bool
  {
    GradeOf(b).Some?
  }

  /** Each counter grows by the number of badges of its grade. */
  lemma {:induction false} CreditAllCounts(t: Tally, bs: seq<string>, g: Grade)
    ensures CounterOf(CreditAll(t, bs), g) == CounterOf(t, g) + Count(bs, Graded(g))
    decreases |bs|
  {
    if |bs| > 0 {
      CreditAllCounts(t, bs[..|bs| - 1], g);
    }
  }

  /**
   * The counting is exclusive: the three counts together are the number
   * of badges that mention any of the three, so no badge is counted twice.
   */
  lemma {:induction false} GradesExclusive(bs: seq<string>)
    ensures Count(bs, Graded(Available)) + Count(bs, Graded(Functional)) + Count(bs, Graded(Reproducible))
            == Count(bs, IsGraded)
    decreases |bs|
  {
    if |bs| > 0 {
      GradesExclusive(bs[..|bs| - 1]);
    }
  }

  lemma {:induction false} CreditAppend(t: Tally, a: seq<string>, b: seq<string>)
    ensures CreditAll(t, a + b) == CreditAll(CreditAll(t, a), b)
    decreases |b|
  {
    if |b| > 0 {
      assert (a + b)[..|a + b| - 1] == a + b[..|b| - 1];
      CreditAppend(t, a, b[..|b| - 1]);
    } else {
      assert a + b == a;
    }
  }

  // ---- papers and listings ----

  /** One entry of an author's `papers` list. */
  datatype PaperRef = PaperRef(title: string, conference: string, year: int, badges: Json, category: Json)

  /** Badges the loop can read: a comma-separated text or a list of texts. */
  predicate BadgesText(j: Json)
  {
    j.Str? || (j.List? && forall i :: 0 <= i < |j.items| ==> j.items[i].Str?)
  }

  /**
   * What the aggregation needs of a paper with authors: a text conference
   * and an integer year, which it sorts and compares, and badges it can
   * lower-case.
   */
  predicate Usable(p: Paper)
  {
    |p.authors| > 0 ==> p.conference.Str? && p.year.Int? && BadgesText(p.badges)
  }

  function RefOf(p: Paper): PaperRef
  {
    PaperRef(p.title, if p.conference.Str? then p.conference.s else "", if p.year.Int? then p.year.i else 0,
             p.badges, p.category)
  }

  /** The badges of a paper as the loop reads them. */
  function BadgesOf(r: PaperRef): seq<string>
  {
    Statistics.BadgeTexts(r.badges)
  }

  /** A paper listed under one of its authors. */
  type Listing = (PaperRef, string)

  function ListingMaker(r: PaperRef): string -> Listing
  {
    (a: string) => (r, a)
  }

  /** One listing per author of each paper, papers in order and authors in order within a paper. */
  function Listings(papers: seq<Paper>): seq<Listing>
    decreases |papers|
  {
    if |papers| == 0 then []
    else
      var p := papers[|papers| - 1];
      Listings(papers[..|papers| - 1]) + MapSeq(p.authors, ListingMaker(RefOf(p)))
  }

  // ---- per-author records ----

  /** The record kept for one author. */
  datatype Stats = Stats(name: string, artifactCount: nat, papers: seq<PaperRef>, conferences: set<string>,
                         years: set<int>, badges: Tally)

  /** The default record of the `defaultdict`. */
  const Fresh := Stats("", 0, [], {}, {}, NoTally)

  /** One more paper for an author. */
  function Listed(st: Stats, a: string, r: PaperRef): Stats
  {
    Stats(a, st.artifactCount + 1, st.papers + [r], st.conferences + {r.conference}, st.years + {r.year},
          CreditAll(st.badges, BadgesOf(r)))
  }

  type Authors = d: Dict<string, Stats> | d.Valid() witness Dict([], map[])

  function StatsOf(d: Authors, a: string): Stats
  {
    if a in d.values then d.values[a] else Fresh
  }

  /** `author_stats` after the given listings, authors in order of first appearance. */
  function AuthorMap(ls: seq<Listing>): Authors
    decreases |ls|
  {
    if |ls| == 0 then Empty()
    else
      var d := AuthorMap(ls[..|ls| - 1]);
      var l := ls[|ls| - 1];
      Put(d, l.1, Listed(StatsOf(d, l.1), l.1, l.0))
  }

  function Pick(a: string): Listing -> Option<PaperRef>
  {
    (l: Listing) => if l.1 == a then Some(l.0) else None
  }

  /** The papers listing `a`, once per listing, in order. */
  function RefsOf(ls: seq<Listing>, a: string): seq<PaperRef>
  {
    FilterMap(ls, Pick(a))
  }

  /** All badges of the given papers, in order. */
  function AllBadges(rs: seq<PaperRef>): seq<string>
    decreases |rs|
  {
    if |rs| == 0 then [] else AllBadges(rs[..|rs| - 1]) + BadgesOf(rs[|rs| - 1])
  }

  function ConfsOf(rs: seq<PaperRef>): set<string>
  {
    set r | r in rs :: r.conference
  }

  function YearsOf(rs: seq<PaperRef>): set<int>
  {
    set r | r in rs :: r.year
  }

  /** The record of author `a` from the list of their papers. */
  function RecordOf(a: string, rs: seq<PaperRef>): Stats
  {
    Stats(a, |rs|, rs, ConfsOf(rs), YearsOf(rs), CreditAll(NoTally, AllBadges(rs)))
  }

  lemma ConfsYearsSnoc(rs: seq<PaperRef>, r: PaperRef)
    ensures ConfsOf(rs + [r]) == ConfsOf(rs) + {r.conference}
    ensures YearsOf(rs + [r]) == YearsOf(rs) + {r.year}
  {
    assert forall x :: x in rs + [r] <==> x in rs || x == r;
  }

  lemma ListedRecord(a: string, rs: seq<PaperRef>, r: PaperRef)
    ensures Listed(if |rs| == 0 then Fresh else RecordOf(a, rs), a, r) == RecordOf(a, rs + [r])
  {
    var rs' := rs + [r];
    assert rs'[..|rs'| - 1] == rs;
    assert AllBadges(rs') == AllBadges(rs) + BadgesOf(r);
    ConfsYearsSnoc(rs, r);
    CreditAppend(NoTally, AllBadges(rs), BadgesOf(r));
    if |rs| == 0 {
      assert AllBadges(rs) == [] && ConfsOf(rs) == {} && YearsOf(rs) == {};
      assert RecordOf(a, rs) == Fresh.(name := a);
    }
  }

  /**
   * An author has a record exactly when some paper lists them, and the
   * record is the one built from all the papers listing them, in order:
   * the artifact count is their number, conferences and years are theirs,
   * and the badge counters count the badges of those papers.
   */
  lemma {:induction false} AuthorMapMeaning(ls: seq<Listing>, a: string)
    ensures a in AuthorMap(ls).values <==> |RefsOf(ls, a)| > 0
    ensures a in AuthorMap(ls).values ==> AuthorMap(ls).values[a] == RecordOf(a, RefsOf(ls, a))
    decreases |ls|
  {
    if |ls| > 0 {
      var n := |ls| - 1;
      var init := ls[..n];
      var l := ls[n];
      AuthorMapMeaning(init, a);
      FilterMapSnoc(ls, n, Pick(a));
      assert ls[..n + 1] == ls;
      var d := AuthorMap(init);
      assert AuthorMap(ls).values == d.values[l.1 := Listed(StatsOf(d, l.1), l.1, l.0)];
      if l.1 == a {
        assert RefsOf(ls, a) == RefsOf(init, a) + [l.0];
        ListedRecord(a, RefsOf(init, a), l.0);
      } else {
        assert RefsOf(ls, a) == RefsOf(init, a);
      }
    }
  }

  function NameOf(l: Listing): string
  {
    l.1
  }

  /** Authors appear in the order of their first listing. */
  lemma {:induction false} AuthorOrder(ls: seq<Listing>)
    ensures AuthorMap(ls).keys == Dedup(MapSeq(ls, NameOf))
    decreases |ls|
  {
    if |ls| > 0 {
      var n := |ls| - 1;
      var init := ls[..n];
      var l := ls[n];
      AuthorOrder(init);
      MapSeqSnoc(ls, n, NameOf);
      assert ls[..n + 1] == ls;
      var d := AuthorMap(init);
      PutKeysDedup(d, MapSeq(init, NameOf), l.1, Listed(StatsOf(d, l.1), l.1, l.0));
    }
  }


  lemma RefsOfMap(r: PaperRef, authors: seq<string>, a: string)
    ensures |RefsOf(MapSeq(authors, ListingMaker(r)), a)| == Count(authors, (b: string) => b == a)
    decreases |authors|
  {
    if |authors| > 0 {
      var k := |authors| - 1;
      MapSeqSnoc(authors, k, ListingMaker(r));
      assert authors[..k + 1] == authors;
      RefsOfMap(r, authors[..k], a);
      var ms := MapSeq(authors, ListingMaker(r));
      assert ms[..|ms| - 1] == MapSeq(authors[..k], ListingMaker(r));
    }
  }

  /** How often `a` appears in the author list of `p`. */
  function Occurrences(a: string): Paper -> int
  {
    (p: Paper) => Count(p.authors, (b: string) => b == a)
  }

  /** An author's paper count is the number of times they are listed, over all papers. */
  lemma {:induction false} ListingsCount(papers: seq<Paper>, a: string)
    ensures |RefsOf(Listings(papers), a)| == Sum(papers, Occurrences(a))
    decreases |papers|
  {
    if |papers| > 0 {
      var init := papers[..|papers| - 1];
      var p := papers[|papers| - 1];
      ListingsCount(init, a);
      FilterMapAppend(Listings(init), MapSeq(p.authors, ListingMaker(RefOf(p))), Pick(a));
      RefsOfMap(RefOf(p), p.authors, a);
    }
  }

  // ---- per-author entries ----

  /** One entry of the output list (the rates are not modelled). */
  datatype AuthorEntry = AuthorEntry(
    name: string, affiliation: string, artifactCount: nat, totalPapers: nat,
    byConf: map<string, nat>, byConfYear: map<string, map<nat, nat>>, category: Category,
    conferences: seq<string>, years: seq<int>, yearRange: string, recentCount: nat,
    available: nat, functional: nat, reproducible: nat, papers: seq<PaperRef>)

  /** The tracked conferences an author published at, from the venue scan. */
  function VenueConfs(v: Venues, a: string): set<string>
  {
    set k | k in v && k.0 == a :: k.1
  }

  /** The distinct titles filed under (`a`, `c`), over all years. */
  function TitlesAt(v: Venues, a: string, c: string): set<string>
  {
    if (a, c) in v then set y, n | y in v[(a, c)] && n in v[(a, c)][y] :: n else {}
  }

  /** The number of titles filed under (`a`, `c`) per year. */
  function YearCountsAt(v: Venues, a: string, c: string): map<nat, nat>
  {
    if (a, c) in v then map y | y in v[(a, c)] :: |v[(a, c)][y]| else map[]
  }

  /** The union of the titles at the given conferences. */
  function TitlesIn(v: Venues, a: string, confs: set<string>): set<string>
  {
    set c, n | c in confs && n in TitlesAt(v, a, c) :: n
  }

  /** Every title filed under `a` at any tracked conference. */
  function AllTitles(v: Venues, a: string): set<string>
  {
    set k, y, n | k in v && k.0 == a && y in v[k] && n in v[k][y] :: n
  }

  /** An author's research area, written `both`, `systems`, `security` or `unknown` in the output. */
  datatype Category = Both | Systems | Security | Unknown

  /** The category from those of the author's papers. */
  function CategoryOf(rs: seq<PaperRef>): Category
  {
    var cats := set r | r in rs :: r.category;
    var sys := Str("systems") in cats;
    var sec := Str("security") in cats;
    if sys && sec then Both else if sys then Systems else if sec then Security else Unknown
  }


  /** The number of years from `now - 3` on. */
  function RecentCount(years: set<int>, now: int): nat
  {
    |set y | y in years && y >= now - 3|
  }

  /** The first and last of ascending years joined by a dash, the empty text for none. */
  function YearRange(ys: seq<int>): string
  {
    if |ys| == 0 then "" else IntToString(ys[0]) + "-" + IntToString(ys[|ys| - 1])
  }

  /** The conferences of an author's venue counts: those of their artifacts and of their tracked papers. */
  function ConfKeys(a: string, st: Stats, v: Venues): set<string>
  {
    st.conferences + VenueConfs(v, a)
  }

  /** `papers_by_conference` */
  function ByConf(v: Venues, a: string, confs: set<string>): map<string, nat>
  {
    map c | c in confs :: |TitlesAt(v, a, c)|
  }

  /** `papers_by_conf_year` */
  function ByConfYear(v: Venues, a: string, confs: set<string>): map<string, map<nat, nat>>
  {
    map c | c in confs :: YearCountsAt(v, a, c)
  }

  /** The entry of author `a` with record `st`. */
  ghost function EntryOf(a: string, st: Stats, v: Venues, affs: map<string, string>, now: int): AuthorEntry
  {
    var confs := ConfKeys(a, st, v);
    var ys := SortedInts(st.years);
    AuthorEntry(a, if a in affs then affs[a] else "", st.artifactCount,
                |TitlesIn(v, a, confs)|, ByConf(v, a, confs), ByConfYear(v, a, confs), CategoryOf(st.papers),
                SortedStrings(st.conferences), ys, YearRange(ys), RecentCount(st.years, now),
                st.badges.available, st.badges.functional, st.badges.reproducible, st.papers)
  }


  /**
   * An author's paper total counts every distinct title filed under them
   * at any tracked conference, whether or not they have an artifact there.
   */
  lemma TotalPapersMeaning(v: Venues, a: string, confs: set<string>)
    requires VenueConfs(v, a) <= confs
    ensures TitlesIn(v, a, confs) == AllTitles(v, a)
  {
    forall n | n in AllTitles(v, a) ensures n in TitlesIn(v, a, confs) {
      var k, y :| k in v && k.0 == a && y in v[k] && n in v[k][y];
      assert k == (a, k.1) && k.1 in VenueConfs(v, a);
      assert n in TitlesAt(v, a, k.1);
    }
    forall n | n in TitlesIn(v, a, confs) ensures n in AllTitles(v, a) {
      var c :| c in confs && n in TitlesAt(v, a, c);
      var y :| y in v[(a, c)] && n in v[(a, c)][y];
    }
  }

  /** The total is at least the count of each conference. */
  lemma TotalBound(v: Venues, a: string, confs: set<string>, c: string)
    requires c in confs
    ensures |TitlesAt(v, a, c)| <= |TitlesIn(v, a, confs)|
  {
    assert TitlesAt(v, a, c) <= TitlesIn(v, a, confs);
    SubsetSize(TitlesAt(v, a, c), TitlesIn(v, a, confs));
  }

  lemma SubsetSize<T>(a: set<T>, b: set<T>)
    requires a <= b
    ensures |a| <= |b|
  {
    assert b == a + (b - a);
  }

  /** Counted from zero, the badge counters add up to the number of graded badges, none counted twice. */
  lemma TallyCounts(bs: seq<string>)
    ensures var t := CreditAll(NoTally, bs);
      t.available == Count(bs, Graded(Available))
      && t.functional == Count(bs, Graded(Functional))
      && t.reproducible == Count(bs, Graded(Reproducible))
      && t.available + t.functional + t.reproducible == Count(bs, IsGraded)
  {
    CreditAllCounts(NoTally, bs, Available);
    CreditAllCounts(NoTally, bs, Functional);
    CreditAllCounts(NoTally, bs, Reproducible);
    GradesExclusive(bs);
  }

  /**
   * The conferences and years of an entry are ascending and exactly those
   * of the author's record; the recent count is at most the number of
   * years, and a record with a year has a year range.
   */
  lemma EntryLists(a: string, st: Stats, v: Venues, affs: map<string, string>, now: int)
    ensures var e := EntryOf(a, st, v, affs, now);
      AscendingBy(e.conferences, StrOrder()) && (forall c :: c in e.conferences <==> c in st.conferences)
      && AscendingBy(e.years, IntOrder()) && (forall y :: y in e.years <==> y in st.years)
      && e.recentCount <= |e.years| && (e.yearRange != "" <==> |st.years| > 0)
  {
    var ys := SortedInts(st.years);
    var recent := set y | y in st.years && y >= now - 3;
    SubsetSize(recent, st.years);
    SetSeqSize(ys, st.years);
  }

  /** An entry built from an author's papers counts those papers and names the author. */
  lemma EntryCounts(a: string, rs: seq<PaperRef>, v: Venues, affs: map<string, string>, now: int)
    ensures var e := EntryOf(a, RecordOf(a, rs), v, affs, now);
      e.name == a && e.artifactCount == |e.papers| == |rs| && e.papers == rs
      && (forall c :: c in e.conferences <==> exists r :: r in rs && r.conference == c)
      && (forall y :: y in e.years <==> exists r :: r in rs && r.year == y)
  {
    EntryLists(a, RecordOf(a, rs), v, affs, now);
  }

  /** An ascending sequence of exactly the members of a set has one element per member. */
  lemma {:induction false} SetSeqSize(ys: seq<int>, s: set<int>)
    requires AscendingBy(ys, IntOrder()) && forall y :: y in ys <==> y in s
    ensures |ys| == |s|
    decreases |ys|
  {
    if |ys| == 0 {
      assert forall y :: y !in s;
    } else {
      var t := ys[1..];
      var s' := s - {ys[0]};
      assert forall i :: 0 <= i < |t| ==> t[i] == ys[i + 1];
      assert AscendingBy(t, IntOrder()) by {
        forall i, j | 0 <= i < j < |t| ensures IntOrder()(t[i], t[j]) {
          assert IntOrder()(ys[i + 1], ys[j + 1]);
        }
      }
      forall y ensures y in t <==> y in s' {
        if y in t {
          var i :| 0 <= i < |t| && t[i] == y;
          assert IntOrder()(ys[0], ys[i + 1]);
        }
        if y in s' {
          var i :| 0 <= i < |ys| && ys[i] == y;
          assert i != 0;
          assert t[i - 1] == y;
        }
      }
      SetSeqSize(t, s');
      assert ys[0] in s;
    }
  }

  // ---- the output list and the breakdown ----

  function ByCount(): (AuthorEntry, AuthorEntry) -> bool
  {
    Desc((e: AuthorEntry) => e.artifactCount)
  }

  function ItemMaker(d: Authors): string -> (string, Stats)
  {
    (a: string) => (a, StatsOf(d, a))
  }

  /** The entries of the author map, in insertion order. */
  function Items(d: Authors): seq<(string, Stats)>
  {
    MapSeq(d.keys, ItemMaker(d))
  }

  ghost function ItemEntry(v: Venues, affs: map<string, string>, now: int): ((string, Stats)) -> AuthorEntry
  {
    (it: (string, Stats)) => EntryOf(it.0, it.1, v, affs, now)
  }

  /** The entries of all authors, in order of first appearance. */
  ghost function Entries(d: Authors, v: Venues, affs: map<string, string>, now: int): seq<AuthorEntry>
  {
    MapSeq(Items(d), ItemEntry(v, affs, now))
  }

  lemma EntryName(a: string, st: Stats, v: Venues, affs: map<string, string>, now: int)
    ensures EntryOf(a, st, v, affs, now).name == a
  {
  }

  /** The output list: the entries in order of first appearance, then stably sorted by artifact count, highest first. */
  ghost function Ranked(d: Authors, v: Venues, affs: map<string, string>, now: int): seq<AuthorEntry>
  {
    DescStrict((e: AuthorEntry) => e.artifactCount);
    SortBy(Entries(d, v, affs, now), ByCount())
  }

  /** The names of the entries whose category is one of `cats`. */
  function InCategories(es: seq<AuthorEntry>, cats: set<Category>): set<string>
  {
    set e | e in es && e.category in cats :: e.name
  }

  /** `category_breakdown` */
  datatype Breakdown = Breakdown(systems: nat, security: nat, crossDomain: nat)

  function BreakdownOf(es: seq<AuthorEntry>): Breakdown
  {
    Breakdown(|InCategories(es, {Both, Systems})|, |InCategories(es, {Both, Security})|,
              |InCategories(es, {Both})|)
  }

  /**
   * With one entry per name, the cross-domain authors are exactly those
   * counted both as systems and as security authors.
   */
  lemma CrossDomain(es: seq<AuthorEntry>)
    requires forall i, j :: 0 <= i < j < |es| ==> es[i].name != es[j].name
    ensures InCategories(es, {Both}) == InCategories(es, {Both, Systems}) * InCategories(es, {Both, Security})
    ensures BreakdownOf(es).crossDomain <= BreakdownOf(es).systems
    ensures BreakdownOf(es).crossDomain <= BreakdownOf(es).security
  {
    var both, sys, sec := InCategories(es, {Both}), InCategories(es, {Both, Systems}), InCategories(es, {Both, Security});
    forall n | n in sys && n in sec ensures n in both {
      var e1 :| e1 in es && e1.category in {Both, Systems} && e1.name == n;
      var e2 :| e2 in es && e2.category in {Both, Security} && e2.name == n;
      var i :| 0 <= i < |es| && es[i] == e1;
      var j :| 0 <= j < |es| && es[j] == e2;
      assert i == j;
    }
    SubsetSize(both, sys);
    SubsetSize(both, sec);
  }

  /**
   * The output is sorted by artifact count, highest first, with the same
   * entries as the authors' records, one per author.
   */
  lemma RankedFacts(d: Authors, v: Venues, affs: map<string, string>, now: int)
    ensures SortedBy(Ranked(d, v, affs, now), ByCount())
    ensures multiset(Ranked(d, v, affs, now)) == multiset(Entries(d, v, affs, now))
    ensures |Ranked(d, v, affs, now)| == |d.keys|
  {
    DescStrict((e: AuthorEntry) => e.artifactCount);
  }

  /**
   * The entry of every author of the papers: their artifact count is the
   * number of times the papers list them, their papers are those listings
   * in order, and their paper total is the number of distinct titles filed
   * under them at the tracked conferences.
   */
  lemma AuthorEntryFacts(papers: seq<Paper>, v: Venues, affs: map<string, string>, now: int, a: string)
    requires a in AuthorMap(Listings(papers)).values
    ensures var e := EntryOf(a, StatsOf(AuthorMap(Listings(papers)), a), v, affs, now);
      e.name == a && e.artifactCount == Sum(papers, Occurrences(a)) > 0
      && e.papers == RefsOf(Listings(papers), a)
      && e.totalPapers == |AllTitles(v, a)|
      && e.affiliation == (if a in affs then affs[a] else "")
  {
    var ls := Listings(papers);
    AuthorMapMeaning(ls, a);
    ListingsCount(papers, a);
    var st := StatsOf(AuthorMap(ls), a);
    TotalPapersMeaning(v, a, st.conferences + VenueConfs(v, a));
  }

  lemma EntryNames(d: Authors, v: Venues, affs: map<string, string>, now: int)
    ensures var es := Entries(d, v, affs, now);
      forall i, j :: 0 <= i < j < |es| ==> es[i].name != es[j].name
  {
    var es := Entries(d, v, affs, now);
    var items := Items(d);
    forall i | 0 <= i < |es| ensures es[i].name == d.keys[i] {
      assert items[i] == (d.keys[i], StatsOf(d, d.keys[i]));
      EntryName(d.keys[i], StatsOf(d, d.keys[i]), v, affs, now);
    }
  }

  /** The entries name each author once, so the breakdown's cross-domain set is the intersection. */
  lemma BreakdownFacts(d: Authors, v: Venues, affs: map<string, string>, now: int)
    ensures var es := Entries(d, v, affs, now);
      InCategories(es, {Both}) == InCategories(es, {Both, Systems}) * InCategories(es, {Both, Security})
      && BreakdownOf(es).crossDomain <= BreakdownOf(es).systems
      && BreakdownOf(es).crossDomain <= BreakdownOf(es).security
  {
    EntryNames(d, v, affs, now);
    CrossDomain(Entries(d, v, affs, now));
  }

  // ---- methods ----

  /** The badge loop: the `if`/`elif` chain for each badge. */
  method CreditBadges(t: Tally, bs: seq<string>) returns (r: Tally)
    ensures r == CreditAll(t, bs)
  {
    r := t;
    for i := 0 to |bs|
      invariant r == CreditAll(t, bs[..i])
    {
      assert bs[..i + 1][..i] == bs[..i];
      var b := Lower(bs[i]);
      if Contains(b, "available") {
        r := r.(available := r.available + 1);
      } else if Contains(b, "functional") {
        r := r.(functional := r.functional + 1);
      } else if Contains(b, "reproduc") {
        r := r.(reproducible := r.reproducible + 1);
      }
    }
    assert bs[..|bs|] == bs;
  }

  /** One paper for one of its authors. */
  method ListPaper(d: Authors, a: string, r: PaperRef) returns (d': Authors)
    ensures d' == Put(d, a, Listed(StatsOf(d, a), a, r))
  {
    var st := ListStats(StatsOf(d, a), a, r);
    d' := Put(d, a, st);
  }

  /** The record of `a` after one more paper. */
  method ListStats(st: Stats, a: string, r: PaperRef) returns (st': Stats)
    ensures st' == Listed(st, a, r)
  {
    var badges := CreditBadges(st.badges, BadgesOf(r));
    st' := Stats(a, st.artifactCount + 1, st.papers + [r], st.conferences + {r.conference}, st.years + {r.year}, badges);
  }

  lemma ListingsSnoc(papers: seq<Paper>, i: nat)
    requires i < |papers|
    ensures Listings(papers[..i + 1]) == Listings(papers[..i]) + MapSeq(papers[i].authors, ListingMaker(RefOf(papers[i])))
  {
    assert papers[..i + 1][..i] == papers[..i];
  }

  lemma AuthorMapSnoc(ls: seq<Listing>, l: Listing)
    ensures AuthorMap(ls + [l]) == Put(AuthorMap(ls), l.1, Listed(StatsOf(AuthorMap(ls), l.1), l.1, l.0))
  {
    assert (ls + [l])[..|ls|] == ls;
  }

  lemma CollectSnoc(done: seq<Listing>, r: PaperRef, authors: seq<string>, j: nat)
    requires j < |authors|
    ensures var before := AuthorMap(done + MapSeq(authors[..j], ListingMaker(r)));
      AuthorMap(done + MapSeq(authors[..j + 1], ListingMaker(r)))
        == Put(before, authors[j], Listed(StatsOf(before, authors[j]), authors[j], r))
  {
    MapSeqSnoc(authors, j, ListingMaker(r));
    var before := done + MapSeq(authors[..j], ListingMaker(r));
    AuthorMapSnoc(before, (r, authors[j]));
    assert done + MapSeq(authors[..j + 1], ListingMaker(r)) == before + [(r, authors[j])];
  }

  /** The author loop of one paper. */
  method CollectPaper(d: Authors, ghost done: seq<Listing>, p: Paper) returns (r: Authors)
    requires d == AuthorMap(done)
    ensures r == AuthorMap(done + MapSeq(p.authors, ListingMaker(RefOf(p))))
  {
    r := d;
    var ref := RefOf(p);
    assert done + MapSeq(p.authors[..0], ListingMaker(ref)) == done;
    for j := 0 to |p.authors|
      invariant r == AuthorMap(done + MapSeq(p.authors[..j], ListingMaker(ref)))
    {
      CollectSnoc(done, ref, p.authors, j);
      r := ListPaper(r, p.authors[j], ref);
    }
    assert p.authors[..|p.authors|] == p.authors;
  }

  /** The paper loop of `aggregate_author_statistics`. */
  method CollectAuthors(papers: seq<Paper>) returns (d: Authors)
    ensures d == AuthorMap(Listings(papers))
  {
    d := Empty();
    for i := 0 to |papers|
      invariant d == AuthorMap(Listings(papers[..i]))
    {
      ListingsSnoc(papers, i);
      d := CollectPaper(d, Listings(papers[..i]), papers[i]);
    }
    assert papers[..|papers|] == papers;
  }

  /** The entry of one author. */
  method BuildEntry(a: string, st: Stats, v: Venues, affs: map<string, string>, now: int) returns (e: AuthorEntry)
    ensures e == EntryOf(a, st, v, affs, now)
  {
    var ys := SortInts(st.years);
    var cs := SortStrings(st.conferences);
    var confs := ConfKeys(a, st, v);
    var affiliation := if a in affs then affs[a] else "";
    e := AuthorEntry(a, affiliation, st.artifactCount, |TitlesIn(v, a, confs)|, ByConf(v, a, confs),
                     ByConfYear(v, a, confs), CategoryOf(st.papers), cs, ys, YearRange(ys), RecentCount(st.years, now),
                     st.badges.available, st.badges.functional, st.badges.reproducible, st.papers);
  }


  lemma InCategoriesSnoc(es: seq<AuthorEntry>, e: AuthorEntry, cats: set<Category>)
    ensures InCategories(es + [e], cats) == InCategories(es, cats) + (if e.category in cats then {e.name} else {})
  {
    assert forall x :: x in es + [e] <==> x in es || x == e;
  }

  /** The three category sets of `category_breakdown` for the entries so far. */
  predicate Categorised(es: seq<AuthorEntry>, systems: set<string>, security: set<string>, cross: set<string>)
  {
    systems == InCategories(es, {Both, Systems})
    && security == InCategories(es, {Both, Security})
    && cross == InCategories(es, {Both})
  }

  /** Files one entry under the category sets it belongs to. */
  method FileCategory(systems: set<string>, security: set<string>, cross: set<string>, e: AuthorEntry)
    returns (systems': set<string>, security': set<string>, cross': set<string>)
    ensures systems' == systems + (if e.category in {Both, Systems} then {e.name} else {})
    ensures security' == security + (if e.category in {Both, Security} then {e.name} else {})
    ensures cross' == cross + (if e.category in {Both} then {e.name} else {})
  {
    systems', security', cross' := systems, security, cross;
    if e.category == Both {
      cross' := cross' + {e.name};
      systems' := systems' + {e.name};
      security' := security' + {e.name};
    } else if e.category == Systems {
      systems' := systems' + {e.name};
    } else if e.category == Security {
      security' := security' + {e.name};
    }
  }

  /** Files one entry under the category sets it belongs to. */
  method FileEntry(es: seq<AuthorEntry>, systems: set<string>, security: set<string>, cross: set<string>, e: AuthorEntry)
    returns (systems': set<string>, security': set<string>, cross': set<string>)
    requires Categorised(es, systems, security, cross)
    ensures Categorised(es + [e], systems', security', cross')
  {
    InCategoriesSnoc(es, e, {Both, Systems});
    InCategoriesSnoc(es, e, {Both, Security});
    InCategoriesSnoc(es, e, {Both});
    systems', security', cross' := FileCategory(systems, security, cross, e);
  }

  /** The entry loop: every author in order of first appearance, with the three category sets. */
  method BuildEntries(items: seq<(string, Stats)>, v: Venues, affs: map<string, string>, now: int)
    returns (es: seq<AuthorEntry>, systems: set<string>, security: set<string>, cross: set<string>)
    ensures es == MapSeq(items, ItemEntry(v, affs, now))
    ensures Categorised(es, systems, security, cross)
  {
    ghost var maker := ItemEntry(v, affs, now);
    es, systems, security, cross := [], {}, {}, {};
    for i := 0 to |items|
      invariant es == MapSeq(items[..i], maker)
      invariant Categorised(es, systems, security, cross)
    {
      var (a, st) := items[i];
      var e := BuildEntry(a, st, v, affs, now);
      MapSeqSnoc(items, i, maker);
      systems, security, cross := FileEntry(es, systems, security, cross, e);
      es := es + [e];
    }
    assert items[..|items|] == items;
  }

  /**
   * `aggregate_author_statistics` without the rates: the author entries
   * sorted by artifact count and the category breakdown.
   */
  method AggregateAuthorStatistics(papers: seq<Paper>, v: Venues, affs: map<string, string>, now: int)
    returns (authors: seq<AuthorEntry>, breakdown: Breakdown)
    requires forall i :: 0 <= i < |papers| ==> Usable(papers[i])
    ensures authors == Ranked(AuthorMap(Listings(papers)), v, affs, now)
    ensures breakdown == BreakdownOf(Entries(AuthorMap(Listings(papers)), v, affs, now))
  {
    var d := CollectAuthors(papers);
    var es, systems, security, cross := BuildEntries(Items(d), v, affs, now);
    DescStrict((e: AuthorEntry) => e.artifactCount);
    authors := SortBy(es, ByCount());
    breakdown := Breakdown(|systems|, |security|, |cross|);
  }
}
