/**
 * The website statistics: conference-name splitting, badge counting, the
 * merge of the four result sources, the USENIX and ACM fallback
 * decisions, the category of each conference-year, the per-conference
 * and per-year tables, and URL resolution for the artifact list.
 *
 * Fetching results, scraping and the conference regular expression are
 * parameters: the results of each source are given, a scraper is a
 * function from a conference and year to its records (`None` when it
 * raises), and the regular expression is a predicate on keys.
 */
module Statistics {
  import opened Wrappers
  import opened Strings
  import opened Seqs
  import opened Dicts
  import opened Json
  import opened Ordering
  import opened ConfYears

  // ---------------------------------------------------------------------
  // Conference names

  /** `extract_conference_name`: the letters and the year digits of a key, or the key itself and no year. */
  function ExtractConferenceName(s: string): (r: (string, Option<string>))
    ensures r.1.Some? ==> Letters(r.0) && FourDigits(r.1.value) && Body(s) == r.0 + r.1.value
    ensures r.1.None? ==> r.0 == s
  {
    match SplitConfYear(s)
    case Some((letters, digits)) => (letters, Some(digits))
    case None => (s, None)
  }

  /** Letters followed by four digits are split back into them. */
  lemma ExtractJoined(letters: string, digits: string)
    requires Letters(letters) && FourDigits(digits)
    ensures ExtractConferenceName(letters + digits) == (letters, Some(digits))
  {
    SplitJoined(letters, digits, false);
    assert letters + digits + "" == letters + digits;
  }

  /** The value of the four year digits. */
  function YearValue(digits: string): nat
    requires FourDigits(digits)
  {
    ParseDigits(digits)
  }

  // ---------------------------------------------------------------------
  // Badge counting

  /** The comma-separated pieces of a text, each stripped. */
  function SplitBadges(s: string): (bs: seq<string>)
    ensures |bs| == |SplitOn(s, ",")|
    ensures forall i :: 0 <= i < |bs| ==> bs[i] == Strip(SplitOn(s, ",")[i])
  {
    var parts := SplitOn(s, ",");
    seq(|parts|, i requires 0 <= i < |parts| => Strip(parts[i]))
  }

  /** The badge texts of a truthy `badges` value: a comma-separated text, or a list's text items. */
  function BadgeTexts(j: Json): seq<string>
  {
    match j
    case Str(s) => SplitBadges(s)
    case List(items) => FilterMap(items, AsStr)
    case _ => []
  }

  /** The badges `count_badges` looks at in one artifact: none unless it has a truthy `badges` value. */
  function ArtifactBadges(a: Record): seq<string>
  {
    if "badges" in a && Truthy(a["badges"]) then BadgeTexts(a["badges"]) else []
  }

  /** The four counters `count_badges` can raise. */
  datatype Kind = Available | Functional | Reproducible | Reusable

  /** The test of each counter on one badge, each made on its own. */
  predicate Mentions(kind: Kind, badge: string)
  {
    var b := Lower(badge);
    match kind
    case Available => Contains(b, "available")
    case Functional => Contains(b, "functional")
    case Reproducible => Contains(b, "reproduc") || Contains(b, "replicated")
    case Reusable => Contains(b, "reusable")
  }

  /** The counters of `count_badges`; `replicated` is among them. */
  datatype BadgeCounts = BadgeCounts(available: nat, functional: nat, reproducible: nat, reusable: nat, replicated: nat)

  function NoBadges(): BadgeCounts
  {
    BadgeCounts(0, 0, 0, 0, 0)
  }

  function CounterOf(c: BadgeCounts, kind: Kind): nat
  {
    match kind
    case Available => c.available
    case Functional => c.functional
    case Reproducible => c.reproducible
    case Reusable => c.reusable
  }

  function Bump(n: nat, hit: bool): nat
  {
    if hit then n + 1 else n
  }

  /** One badge raises every counter whose test it passes. */
  function CountBadge(c: BadgeCounts, badge: string): BadgeCounts
  {
    BadgeCounts(Bump(c.available, Mentions(Available, badge)), Bump(c.functional, Mentions(Functional, badge)),
                Bump(c.reproducible, Mentions(Reproducible, badge)), Bump(c.reusable, Mentions(Reusable, badge)),
                c.replicated)
  }

  /** The counters after the badges of `bs` in turn. */
  function CountList(c: BadgeCounts, bs: seq<string>): BadgeCounts
    decreases |bs|
  {
    if |bs| == 0 then c else CountBadge(CountList(c, bs[..|bs| - 1]), bs[|bs| - 1])
  }

  /** `count_badges` */
  function CountBadges(arts: seq<Record>): BadgeCounts
    decreases |arts|
  {
    if |arts| == 0 then NoBadges()
    else CountList(CountBadges(arts[..|arts| - 1]), ArtifactBadges(arts[|arts| - 1]))
  }

  /** Every badge looked at, artifact by artifact. */
  function AllBadges(arts: seq<Record>): seq<string>
    decreases |arts|
  {
    if |arts| == 0 then [] else AllBadges(arts[..|arts| - 1]) + ArtifactBadges(arts[|arts| - 1])
  }

  /** One badge raises each counter exactly when it passes that counter's test, whatever the others do. */
  lemma CountBadgeField(c: BadgeCounts, badge: string, kind: Kind)
    ensures CounterOf(CountBadge(c, badge), kind) == CounterOf(c, kind) + (if Mentions(kind, badge) then 1 else 0)
    ensures CountBadge(c, badge).replicated == c.replicated
  {
  }

  lemma {:induction false} CountListField(c: BadgeCounts, bs: seq<string>, kind: Kind)
    ensures CounterOf(CountList(c, bs), kind) == CounterOf(c, kind) + Count(bs, b => Mentions(kind, b))
    ensures CountList(c, bs).replicated == c.replicated
    decreases |bs|
  {
    if |bs| > 0 {
      var init := bs[..|bs| - 1];
      CountListField(c, init, kind);
      CountBadgeField(CountList(c, init), bs[|bs| - 1], kind);
    }
  }

  lemma {:induction false} CountAppend(a: seq<string>, b: seq<string>, p: string -> bool)
    ensures Count(a + b, p) == Count(a, p) + Count(b, p)
    decreases |b|
  {
    if |b| == 0 {
      assert a + b == a;
    } else {
      assert (a + b)[..|a + b| - 1] == a + b[..|b| - 1];
      CountAppend(a, b[..|b| - 1], p);
    }
  }

  /**
   * Each counter holds the number of badges that pass its test (so one
   * badge can raise several), and `replicated` stays 0.
   */
  lemma {:induction false} CountBadgesMeaning(arts: seq<Record>, kind: Kind)
    ensures CounterOf(CountBadges(arts), kind) == Count(AllBadges(arts), b => Mentions(kind, b))
    ensures CountBadges(arts).replicated == 0
    decreases |arts|
  {
    if |arts| > 0 {
      var init := arts[..|arts| - 1];
      var last := ArtifactBadges(arts[|arts| - 1]);
      CountBadgesMeaning(init, kind);
      CountListField(CountBadges(init), last, kind);
      CountAppend(AllBadges(init), last, b => Mentions(kind, b));
    }
  }

  /** The badge loop of one artifact. */
  method AddBadges(c: BadgeCounts, bs: seq<string>) returns (r: BadgeCounts)
    ensures r == CountList(c, bs)
  {
    r := c;
    var i := 0;
    while i < |bs|
      invariant 0 <= i <= |bs|
      invariant r == CountList(c, bs[..i])
    {
      assert bs[..i + 1][..i] == bs[..i];
      var badge := bs[i];
      if Mentions(Available, badge) {
        r := r.(available := r.available + 1);
      }
      if Mentions(Functional, badge) {
        r := r.(functional := r.functional + 1);
      }
      if Mentions(Reproducible, badge) {
        r := r.(reproducible := r.reproducible + 1);
      }
      if Mentions(Reusable, badge) {
        r := r.(reusable := r.reusable + 1);
      }
      i := i + 1;
    }
    assert bs[..i] == bs;
  }

  /** `count_badges`: the badges of every artifact with a truthy `badges` value. */
  method CountArtifactBadges(arts: seq<Record>) returns (c: BadgeCounts)
    ensures c == CountBadges(arts)
  {
    c := NoBadges();
    var i := 0;
    while i < |arts|
      invariant 0 <= i <= |arts|
      invariant c == CountBadges(arts[..i])
    {
      CountBadgesSnoc(arts, i);
      var bs := BadgesOf(arts[i]);
      c := AddBadges(c, bs);
      i := i + 1;
    }
    assert arts[..i] == arts;
  }

  lemma CountBadgesSnoc(arts: seq<Record>, i: nat)
    requires i < |arts|
    ensures CountBadges(arts[..i + 1]) == CountList(CountBadges(arts[..i]), ArtifactBadges(arts[i]))
  {
    assert arts[..i + 1][..i] == arts[..i];
  }

  /** The badges the loop looks at for one artifact. */
  method BadgesOf(a: Record) returns (bs: seq<string>)
    ensures bs == ArtifactBadges(a)
  {
    bs := [];
    if "badges" in a && Truthy(a["badges"]) {
      bs := BadgeTexts(a["badges"]);
    }
  }

  // ---------------------------------------------------------------------
  // Sources and their merge

  /** Conference-year key to artifact list, in insertion order. */
  type Results = d: Dict<string, seq<Record>> | d.Valid() witness Dict([], map[])

  /** The union of the four sources: every key of any source, the value of the last source that has it. */
  function CombineResults(sys: Results, sec: Results, usenix: Results, acm: Results): (r: Results)
    ensures r.values.Keys == sys.values.Keys + sec.values.Keys + usenix.values.Keys + acm.values.Keys
    ensures forall k :: k in r.values ==>
      r.values[k] == if k in acm.values then acm.values[k]
                     else if k in usenix.values then usenix.values[k]
                     else if k in sec.values then sec.values[k]
                     else sys.values[k]
  {
    Merge(Merge(Merge(sys, sec), usenix), acm)
  }

  /** The results a scraping pass found, and the category of each. */
  datatype Scraped = Scraped(results: Results, categories: map<string, string>)
  {
    /** Every result has a category and every category a result. */
    predicate Matched()
    {
      categories.Keys == results.values.Keys
    }
  }

  function NothingScraped(): (s: Scraped)
    ensures s.Matched() && s.results.values == map[]
  {
    Scraped(Dict([], map[]), map[])
  }

  /** Record the artifacts of `key` and its category. */
  function Keep(s: Scraped, key: string, arts: seq<Record>, category: string): (r: Scraped)
    ensures r.results.values == s.results.values[key := arts]
    ensures r.categories == s.categories[key := category]
  {
    Scraped(Put(s.results, key, arts), s.categories[key := category])
  }

  /** A scraper run on a conference short name and year: its records, or `None` when it raises. */
  type Scraper = (string, nat) -> Option<seq<Record>>

  // ---------------------------------------------------------------------
  // USENIX fallback

  /** `USENIX_CONF_MAP`: conference prefix to USENIX short name and category. */
  const UsenixConfMap: map<string, (string, string)> :=
    map["fast" := ("fast", "systems"), "osdi" := ("osdi", "systems"), "atc" := ("atc", "systems"),
        "usenixsec" := ("usenixsecurity", "security")]

  /** The USENIX short name, year and category a directory is scraped under. */
  datatype Target = Target(short: string, year: nat, category: string)

  /**
   * The fallback of one discovered directory: tried only when it has no
   * parsed results, splits into letters and a year, has letters in
   * `USENIX_CONF_MAP` (case-blind) and matches the conference pattern.
   */
  function FallbackTarget(dir: string, parsed: set<string>, matches: string -> bool): Option<Target>
  {
    if dir in parsed then None
    else
      var (conf, year) := ExtractConferenceName(dir);
      if year.None? then None
      else if Lower(conf) !in UsenixConfMap then None
      else if !matches(dir) then None
      else
        var (short, category) := UsenixConfMap[Lower(conf)];
        Some(Target(short, YearValue(year.value), category))
  }

  /** The fallback is tried exactly for those directories, with the USENIX name, year and category of the table. */
  lemma FallbackTargetMeaning(dir: string, parsed: set<string>, matches: string -> bool)
    ensures FallbackTarget(dir, parsed, matches).Some? <==>
      dir !in parsed && SplitConfYear(dir).Some? && Lower(SplitConfYear(dir).value.0) in UsenixConfMap && matches(dir)
    ensures FallbackTarget(dir, parsed, matches).Some? ==>
      var t := FallbackTarget(dir, parsed, matches).value;
      var (letters, digits) := SplitConfYear(dir).value;
      (t.short, t.category) == UsenixConfMap[Lower(letters)] && t.year == YearValue(digits)
  {
  }

  /** A directory the fallback records: a target whose scrape returns at least one artifact. */
  predicate Fetched(dir: string, parsed: set<string>, matches: string -> bool, scrape: Scraper)
  {
    var t := FallbackTarget(dir, parsed, matches);
    t.Some? && var arts := scrape(t.value.short, t.value.year); arts.Some? && |arts.value| > 0
  }

  function FallbackStep(s: Scraped, dir: string, parsed: set<string>, matches: string -> bool, scrape: Scraper): Scraped
  {
    if Fetched(dir, parsed, matches, scrape) then
      var t := FallbackTarget(dir, parsed, matches).value;
      Keep(s, dir, scrape(t.short, t.year).value, t.category)
    else s
  }

  /** The fallback over the directories `dirs` in turn. */
  function Fallback(dirs: seq<string>, parsed: set<string>, matches: string -> bool, scrape: Scraper): Scraped
    decreases |dirs|
  {
    if |dirs| == 0 then NothingScraped()
    else FallbackStep(Fallback(dirs[..|dirs| - 1], parsed, matches, scrape), dirs[|dirs| - 1], parsed, matches, scrape)
  }

  /** One directory changes only its own entry, and only when fetched. */
  lemma FallbackStepMeaning(s: Scraped, dir: string, parsed: set<string>, matches: string -> bool, scrape: Scraper, k: string)
    requires s.Matched()
    ensures FallbackStep(s, dir, parsed, matches, scrape).Matched()
    ensures var r := FallbackStep(s, dir, parsed, matches, scrape);
      k != dir || !Fetched(dir, parsed, matches, scrape) ==>
        (k in r.results.values <==> k in s.results.values)
        && (k in s.results.values ==> r.results.values[k] == s.results.values[k] && r.categories[k] == s.categories[k])
    ensures Fetched(dir, parsed, matches, scrape) ==>
      var t := FallbackTarget(dir, parsed, matches).value;
      var r := FallbackStep(s, dir, parsed, matches, scrape);
      dir in r.results.values && r.results.values[dir] == scrape(t.short, t.year).value && r.categories[dir] == t.category
  {
  }

  /** What the fallback records for a directory it fetched. */
  ghost predicate FallbackEntry(s: Scraped, k: string, parsed: set<string>, matches: string -> bool, scrape: Scraper)
    requires Fetched(k, parsed, matches, scrape) && s.Matched() && k in s.results.values
  {
    var t := FallbackTarget(k, parsed, matches).value;
    s.results.values[k] == scrape(t.short, t.year).value && s.categories[k] == t.category
  }

  /**
   * The fallback keeps exactly the listed directories it fetched, each
   * with its scraped artifacts and the category of its conference.
   */
  lemma {:induction false} FallbackMeaning(dirs: seq<string>, parsed: set<string>, matches: string -> bool, scrape: Scraper, k: string)
    ensures Fallback(dirs, parsed, matches, scrape).Matched()
    ensures k in Fallback(dirs, parsed, matches, scrape).results.values <==> k in dirs && Fetched(k, parsed, matches, scrape)
    ensures k in Fallback(dirs, parsed, matches, scrape).results.values ==>
      FallbackEntry(Fallback(dirs, parsed, matches, scrape), k, parsed, matches, scrape)
    decreases |dirs|
  {
    if |dirs| > 0 {
      var init := dirs[..|dirs| - 1];
      FallbackMeaning(init, parsed, matches, scrape, k);
      FallbackStepMeaning(Fallback(init, parsed, matches, scrape), dirs[|dirs| - 1], parsed, matches, scrape, k);
      SnocMember(dirs, k);
    }
  }

  /** The directories in ascending order. */
  ghost function SortedDirs(dirs: set<string>): (r: seq<string>)
  {
    StrOrderStrictTotal();
    SortedSet(dirs, StrOrder())
  }

  /** One directory of the fallback loop. */
  method TryFallback(s: Scraped, dir: string, parsed: set<string>, matches: string -> bool, scrape: Scraper) returns (r: Scraped)
    ensures r == FallbackStep(s, dir, parsed, matches, scrape)
  {
    r := s;
    var t := FallbackTarget(dir, parsed, matches);
    if t.Some? {
      var arts := scrape(t.value.short, t.value.year);
      if arts.Some? && |arts.value| > 0 {
        r := Keep(s, dir, arts.value, t.value.category);
      }
    }
  }

  lemma FallbackSnoc(dirs: seq<string>, i: nat, parsed: set<string>, matches: string -> bool, scrape: Scraper)
    requires i < |dirs|
    ensures Fallback(dirs[..i + 1], parsed, matches, scrape) == FallbackStep(Fallback(dirs[..i], parsed, matches, scrape), dirs[i], parsed, matches, scrape)
  {
    assert dirs[..i + 1][..i] == dirs[..i];
  }

  method SortDirs(dirs: set<string>) returns (sorted: seq<string>)
    ensures sorted == SortedDirs(dirs)
  {
    StrOrderStrictTotal();
    sorted := SortSet(dirs, StrOrder());
  }

  /** The fallback loop over the discovered directories, in sorted order. */
  method UsenixFallback(dirs: set<string>, parsed: set<string>, matches: string -> bool, scrape: Scraper)
    returns (s: Scraped)
    ensures s == Fallback(SortedDirs(dirs), parsed, matches, scrape)
  {
    var sorted := SortDirs(dirs);
    s := NothingScraped();
    var i := 0;
    while i < |sorted|
      invariant 0 <= i <= |sorted|
      invariant s == Fallback(sorted[..i], parsed, matches, scrape)
    {
      FallbackSnoc(sorted, i, parsed, matches, scrape);
      s := TryFallback(s, sorted[i], parsed, matches, scrape);
      i := i + 1;
    }
    assert sorted[..i] == sorted;
  }

  // ---------------------------------------------------------------------
  // ACM conferences

  /** One entry of the ACM conference table: its key, category and proceedings years. */
  datatype AcmConf = AcmConf(key: string, category: string, years: set<nat>)

  /** The lower-cased conference names of the directories already handled. */
  function HandledConfs(dirs: set<string>): set<string>
  {
    set d | d in dirs && ExtractConferenceName(d).0 != "" :: Lower(ExtractConferenceName(d).0)
  }

  /** The loop that collects the handled conferences. */
  method CollectHandled(dirs: set<string>) returns (handled: set<string>)
    ensures handled == HandledConfs(dirs)
  {
    handled := {};
    var rest := dirs;
    while rest != {}
      invariant rest <= dirs
      invariant handled == HandledConfs(dirs - rest)
      decreases |rest|
    {
      var d :| d in rest;
      var (cn, _) := ExtractConferenceName(d);
      if cn != "" {
        handled := handled + {Lower(cn)};
      }
      rest := rest - {d};
      assert dirs - rest == (dirs - (rest + {d})) + {d};
    }
    assert dirs - rest == dirs;
  }

  /** The conference key followed by the year's digits. */
  function ConfYearKey(key: string, year: nat): string
  {
    key + NatToString(year)
  }

  /** One proceedings year: recorded when its key matches and the scrape returns, even with no artifacts. */
  function AcmYear(s: Scraped, c: AcmConf, year: nat, matches: string -> bool, scrape: Scraper): Scraped
  {
    var k := ConfYearKey(c.key, year);
    if matches(k) && scrape(c.key, year).Some? then Keep(s, k, scrape(c.key, year).value, c.category) else s
  }

  /** The years `ys` of one conference in turn. */
  function AcmYears(s: Scraped, c: AcmConf, ys: seq<nat>, matches: string -> bool, scrape: Scraper): Scraped
    decreases |ys|
  {
    if |ys| == 0 then s else AcmYear(AcmYears(s, c, ys[..|ys| - 1], matches, scrape), c, ys[|ys| - 1], matches, scrape)
  }

  /** One conference of the table: skipped when handled, else its proceedings years in ascending order. */
  ghost function AcmConference(s: Scraped, c: AcmConf, handled: set<string>, matches: string -> bool, scrape: Scraper): Scraped
  {
    NatOrderStrictTotal();
    if c.key in handled then s else AcmYears(s, c, SortedSet(c.years, NatOrder()), matches, scrape)
  }

  /** The ACM pass over the conference table in its order. */
  ghost function Acm(confs: seq<AcmConf>, handled: set<string>, matches: string -> bool, scrape: Scraper): Scraped
    decreases |confs|
  {
    if |confs| == 0 then NothingScraped()
    else AcmConference(Acm(confs[..|confs| - 1], handled, matches, scrape), confs[|confs| - 1], handled, matches, scrape)
  }

  /** A key the ACM pass tries and records: an unhandled conference, one of its years, a matching key and a scrape that returns. */
  ghost predicate AcmFetched(k: string, confs: seq<AcmConf>, handled: set<string>, matches: string -> bool, scrape: Scraper)
  {
    exists i, y :: 0 <= i < |confs| && y in confs[i].years && k == ConfYearKey(confs[i].key, y)
      && confs[i].key !in handled && matches(k) && scrape(confs[i].key, y).Some?
  }

  lemma {:induction false} AcmYearsMeaning(s: Scraped, c: AcmConf, ys: seq<nat>, matches: string -> bool, scrape: Scraper, k: string)
    requires s.Matched()
    ensures AcmYears(s, c, ys, matches, scrape).Matched()
    ensures k in AcmYears(s, c, ys, matches, scrape).results.values <==>
      k in s.results.values || exists y :: y in ys && k == ConfYearKey(c.key, y) && matches(k) && scrape(c.key, y).Some?
    decreases |ys|
  {
    if |ys| > 0 {
      var init := ys[..|ys| - 1];
      AcmYearsMeaning(s, c, init, matches, scrape, k);
      forall y
        ensures y in ys <==> y in init || y == ys[|ys| - 1]
      {
        SnocMember(ys, y);
      }
    }
  }

  lemma AcmConferenceMeaning(s: Scraped, c: AcmConf, handled: set<string>, matches: string -> bool, scrape: Scraper, k: string)
    requires s.Matched()
    ensures AcmConference(s, c, handled, matches, scrape).Matched()
    ensures k in AcmConference(s, c, handled, matches, scrape).results.values <==>
      k in s.results.values || (c.key !in handled && exists y :: y in c.years && k == ConfYearKey(c.key, y) && matches(k) && scrape(c.key, y).Some?)
  {
    NatOrderStrictTotal();
    if c.key !in handled {
      AcmYearsMeaning(s, c, SortedSet(c.years, NatOrder()), matches, scrape, k);
    }
  }

  /**
   * The ACM pass records exactly the keys of unhandled conferences whose
   * year key matches and whose scrape returns, with or without artifacts:
   * a conference already handled elsewhere is never scraped.
   */
  lemma {:induction false} AcmMeaning(confs: seq<AcmConf>, handled: set<string>, matches: string -> bool, scrape: Scraper, k: string)
    ensures Acm(confs, handled, matches, scrape).Matched()
    ensures k in Acm(confs, handled, matches, scrape).results.values <==> AcmFetched(k, confs, handled, matches, scrape)
    decreases |confs|
  {
    if |confs| > 0 {
      var init := confs[..|confs| - 1];
      var c := confs[|confs| - 1];
      AcmMeaning(init, handled, matches, scrape, k);
      AcmConferenceMeaning(Acm(init, handled, matches, scrape), c, handled, matches, scrape, k);
      if AcmFetched(k, confs, handled, matches, scrape) {
        var i, y :| 0 <= i < |confs| && y in confs[i].years && k == ConfYearKey(confs[i].key, y)
          && confs[i].key !in handled && matches(k) && scrape(confs[i].key, y).Some?;
        if i < |init| {
          assert init[i] == confs[i];
        }
      }
      if AcmFetched(k, init, handled, matches, scrape) {
        var i, y :| 0 <= i < |init| && y in init[i].years && k == ConfYearKey(init[i].key, y)
          && init[i].key !in handled && matches(k) && scrape(init[i].key, y).Some?;
        assert confs[i] == init[i];
      }
    }
  }

  lemma AcmYearsSnoc(s: Scraped, c: AcmConf, ys: seq<nat>, i: nat, matches: string -> bool, scrape: Scraper)
    requires i < |ys|
    ensures AcmYears(s, c, ys[..i + 1], matches, scrape) == AcmYear(AcmYears(s, c, ys[..i], matches, scrape), c, ys[i], matches, scrape)
  {
    assert ys[..i + 1][..i] == ys[..i];
  }

  /** One proceedings year of the ACM loop. */
  method TryAcmYear(s: Scraped, c: AcmConf, year: nat, matches: string -> bool, scrape: Scraper) returns (r: Scraped)
    ensures r == AcmYear(s, c, year, matches, scrape)
  {
    r := s;
    var k := ConfYearKey(c.key, year);
    if matches(k) {
      var arts := scrape(c.key, year);
      if arts.Some? {
        r := Keep(s, k, arts.value, c.category);
      }
    }
  }

  method SortYears(years: set<nat>) returns (sorted: seq<nat>)
    ensures sorted == SortedSet(years, NatOrder())
  {
    NatOrderStrictTotal();
    sorted := SortSet(years, NatOrder());
  }

  /** The year loop of one ACM conference. */
  method ScrapeAcmYears(s: Scraped, c: AcmConf, matches: string -> bool, scrape: Scraper) returns (r: Scraped)
    ensures r == AcmYears(s, c, SortedSet(c.years, NatOrder()), matches, scrape)
  {
    var ys := SortYears(c.years);
    r := s;
    var i := 0;
    while i < |ys|
      invariant 0 <= i <= |ys|
      invariant r == AcmYears(s, c, ys[..i], matches, scrape)
    {
      AcmYearsSnoc(s, c, ys, i, matches, scrape);
      r := TryAcmYear(r, c, ys[i], matches, scrape);
      i := i + 1;
    }
    assert ys[..i] == ys;
  }

  /** The ACM loop over the conference table. */
  method ScrapeAcm(confs: seq<AcmConf>, handled: set<string>, matches: string -> bool, scrape: Scraper) returns (s: Scraped)
    ensures s == Acm(confs, handled, matches, scrape)
  {
    s := NothingScraped();
    var i := 0;
    while i < |confs|
      invariant 0 <= i <= |confs|
      invariant s == Acm(confs[..i], handled, matches, scrape)
    {
      assert confs[..i + 1][..i] == confs[..i];
      var c := confs[i];
      if c.key !in handled {
        s := ScrapeAcmYears(s, c, matches, scrape);
      }
      i := i + 1;
    }
    assert confs[..i] == confs;
  }
}
