/**
 * The ACM Digital Library scraper: the badge-name normaliser, the badges
 * read off the `<img>` tags of a paper page, the cached page fetch, the
 * circuit breaker over a proceedings volume, the DBLP hit normalisation
 * and the conversion to the pipeline's record format.
 *
 * The HTML parser is an oracle from a page to its images; the network is
 * an oracle from a URL to its answer; the clock is the `now` parameter.
 */
module AcmScrape {
  import opened Wrappers
  import opened Strings
  import opened Json
  import opened Seqs
  import opened DiskCache

  // ---------------------------------------------------------------------
  // Conference metadata

  datatype AcmConference = AcmConference(dblpKey: string, category: string, displayName: string,
                                         proceedingsDois: map<int, string>)

  /** The ACM conferences the scraper knows, by internal key. */
  const AcmConferences: map<string, AcmConference> := map[
    "sosp" := AcmConference("sosp", "systems", "SOSP", map[2023 := "10.1145/3600006", 2024 := "10.1145/3694715"])
  ]

  // ---------------------------------------------------------------------
  // Badge names

  /** The four badge names of the pipeline. */
  predicate Canonical(b: string)
  {
    b == "available" || b == "functional" || b == "reusable" || b == "reproduced"
  }

  /** The badge-name table: spaced and underscored spellings of the ACM badges. */
  const BadgeMap: map<string, string> := map[
    "artifacts_available" := "available",
    "artifacts available" := "available",
    "available" := "available",
    "artifacts_evaluated_functional" := "functional",
    "artifacts evaluated functional" := "functional",
    "artifacts_evaluated" := "functional",
    "functional" := "functional",
    "artifacts_evaluated_reusable" := "reusable",
    "artifacts evaluated reusable" := "reusable",
    "reusable" := "reusable",
    "results_reproduced" := "reproduced",
    "results reproduced" := "reproduced",
    "reproduced" := "reproduced",
    "results_replicated" := "reproduced",
    "results replicated" := "reproduced",
    "replicated" := "reproduced"
  ]

  /** A character a cleaned key may hold: a lower-case letter, a blank and, if `underscore`, `_`. */
  predicate KeyChar(c: char, underscore: bool)
  {
    ('a' <= c <= 'z') || c == ' ' || (underscore && c == '_')
  }

  predicate KeyChars(s: string, underscore: bool)
  {
    forall i :: 0 <= i < |s| ==> KeyChar(s[i], underscore)
  }

  /** Deletes every character other than a lower-case letter and a blank (and `_`, when `underscore` is set). */
  function KeepKeyChars(s: string, underscore: bool): (r: string)
    decreases |s|
  {
    if |s| == 0 then ""
    else (if KeyChar(s[0], underscore) then [s[0]] else []) + KeepKeyChars(s[1..], underscore)
  }

  /** What is kept is made of key characters. */
  lemma {:induction false} KeepKeyCharsShape(s: string, underscore: bool)
    ensures KeyChars(KeepKeyChars(s, underscore), underscore)
    decreases |s|
  {
    if |s| > 0 {
      KeepKeyCharsShape(s[1..], underscore);
      var head := if KeyChar(s[0], underscore) then [s[0]] else [];
      var rest := KeepKeyChars(s[1..], underscore);
      assert forall i :: |head| <= i < |head + rest| ==> (head + rest)[i] == rest[i - |head|];
    }
  }

  /** The lookup key of `_normalise_badge`: lower-cased, other characters deleted, stripped, blanks squashed. */
  function BadgeKey(text: string, underscore: bool): string
  {
    Squash(Strip(KeepKeyChars(Lower(text), underscore)))
  }

  /** `_normalise_badge`: the table's badge for the cleaned key, else the cleaned key itself. */
  function NormaliseBadge(text: string): string
  {
    var key := BadgeKey(text, false);
    if key in BadgeMap then BadgeMap[key] else key
  }

  /** The normaliser with `_` kept in the key, so the table's underscored spellings are found. */
  function NormaliseBadgeKeepingUnderscores(text: string): string
  {
    var key := BadgeKey(text, true);
    if key in BadgeMap then BadgeMap[key] else key
  }

  lemma {:induction false} DropSpacesLast(s: string)
    requires |s| > 0 && !IsSpace(s[|s| - 1])
    ensures |DropSpaces(s)| > 0
    decreases |s|
  {
    if IsSpace(s[0]) {
      assert |s| > 1;
      assert s[1..][|s[1..]| - 1] == s[|s| - 1];
      DropSpacesLast(s[1..]);
    }
  }

  /** Squashing keeps the last character when it is not white space. */
  lemma {:induction false} SquashLast(s: string)
    requires |s| > 0 && !IsSpace(s[|s| - 1])
    ensures |Squash(s)| > 0 && Squash(s)[|Squash(s)| - 1] == s[|s| - 1]
    decreases |s|
  {
    if IsSpace(s[0]) {
      var t := s[1..];
      assert |t| > 0 && t[|t| - 1] == s[|s| - 1];
      DropSpacesLast(t);
      var rest := DropSpaces(t);
      assert rest[|rest| - 1] == t[|t| - 1];
      SquashLast(rest);
    } else if |s| > 1 {
      assert s[1..][|s[1..]| - 1] == s[|s| - 1];
      SquashLast(s[1..]);
    }
  }

  /** Squashing a text of key characters leaves a text of key characters. */
  lemma SquashKeyChars(s: string, underscore: bool)
    requires KeyChars(s, underscore)
    ensures KeyChars(Squash(s), underscore)
  {
    SquashChars(s);
    var r := Squash(s);
    forall i | 0 <= i < |r| ensures KeyChar(r[i], underscore) {
      assert r[i] in r;
      if r[i] != ' ' {
        var j :| 0 <= j < |s| && s[j] == r[i];
      }
    }
  }

  /** Stripping a text of key characters leaves a text of key characters. */
  lemma StripKeyChars(kept: string, underscore: bool)
    requires KeyChars(kept, underscore)
    ensures KeyChars(Strip(kept), underscore)
  {
    var v := Strip(kept);
    var l := LStrip(kept);
    assert v == RStrip(l) && v <= l && l == kept[|kept| - |l|..];
    forall i | 0 <= i < |v| ensures KeyChar(v[i], underscore) {
      assert v[i] == l[i] == kept[|kept| - |l| + i];
    }
  }

  /** Every cleaned key is tidy and made of key characters. */
  lemma BadgeKeyShape(text: string, underscore: bool)
    ensures Tidy(BadgeKey(text, underscore)) && KeyChars(BadgeKey(text, underscore), underscore)
  {
    var kept := KeepKeyChars(Lower(text), underscore);
    var v := Strip(kept);
    var r := Squash(v);
    assert BadgeKey(text, underscore) == r;
    assert KeyChars(v, underscore) by {
      KeepKeyCharsShape(Lower(text), underscore);
      StripKeyChars(kept, underscore);
    }
    assert KeyChars(r, underscore) by {
      SquashKeyChars(v, underscore);
    }
    assert Tidy(r) by {
      StripEnds(kept);
      if |v| > 0 {
        SquashLast(v);
      }
    }
  }

  /** A tidy text of key characters is its own key. */
  lemma KeyFixed(s: string, underscore: bool)
    requires Tidy(s) && KeyChars(s, underscore)
    ensures BadgeKey(s, underscore) == s
  {
    assert Lower(s) == s;
    KeepAllKeyChars(s, underscore);
    StripFixed(s);
    SquashTidy(s);
  }

  lemma {:induction false} KeepAllKeyChars(s: string, underscore: bool)
    requires KeyChars(s, underscore)
    ensures KeepKeyChars(s, underscore) == s
    decreases |s|
  {
    if |s| > 0 {
      assert KeyChars(s[1..], underscore) by {
        forall i | 0 <= i < |s[1..]| ensures KeyChar(s[1..][i], underscore) {
          assert s[1..][i] == s[i + 1];
        }
      }
      KeepAllKeyChars(s[1..], underscore);
    }
  }

  /** Blanks only between words, one at a time. */
  predicate Spaced(s: string)
  {
    (forall i :: 0 <= i < |s| - 1 && s[i] == ' ' ==> s[i + 1] != ' ')
    && (|s| > 0 ==> s[0] != ' ' && s[|s| - 1] != ' ')
  }

  lemma SpacedKeyTidy(s: string, underscore: bool)
    requires KeyChars(s, underscore) && Spaced(s)
    ensures Tidy(s)
  {
    forall i | 0 <= i < |s| && IsSpace(s[i]) ensures s[i] == ' ' {
      assert KeyChar(s[i], underscore);
    }
    forall i | 0 <= i < |s| - 1 ensures BlankNotDoubled(s, i) {
    }
  }

  /** The single-word spellings are letters and `_` without blanks. */
  lemma WordKeys()
    ensures KeyChars("available", true) && Spaced("available")
    ensures KeyChars("functional", true) && Spaced("functional")
    ensures KeyChars("reusable", true) && Spaced("reusable")
    ensures KeyChars("reproduced", true) && Spaced("reproduced")
    ensures KeyChars("replicated", true) && Spaced("replicated")
    ensures KeyChars("artifacts_evaluated", true) && Spaced("artifacts_evaluated")
  {
  }

  /** The two spellings of the "artifacts available" badge. */
  lemma AvailableKeys()
    ensures KeyChars("artifacts_available", true) && Spaced("artifacts_available")
    ensures KeyChars("artifacts available", true) && Spaced("artifacts available")
  {
  }

  /** The two spellings of the "artifacts evaluated functional" badge. */
  lemma FunctionalKeys()
    ensures KeyChars("artifacts_evaluated_functional", true) && Spaced("artifacts_evaluated_functional")
    ensures KeyChars("artifacts evaluated functional", true) && Spaced("artifacts evaluated functional")
  {
  }

  /** The two spellings of the "artifacts evaluated reusable" badge. */
  lemma ReusableKeys()
    ensures KeyChars("artifacts_evaluated_reusable", true) && Spaced("artifacts_evaluated_reusable")
    ensures KeyChars("artifacts evaluated reusable", true) && Spaced("artifacts evaluated reusable")
  {
  }

  /** The two spellings of the "results reproduced" badge. */
  lemma ReproducedKeys()
    ensures KeyChars("results_reproduced", true) && Spaced("results_reproduced")
    ensures KeyChars("results reproduced", true) && Spaced("results reproduced")
  {
  }

  /** The two spellings of the "results replicated" badge. */
  lemma ReplicatedKeys()
    ensures KeyChars("results_replicated", true) && Spaced("results_replicated")
    ensures KeyChars("results replicated", true) && Spaced("results replicated")
  {
  }

  /** Every spelling in the table is a tidy text of letters, blanks and `_`. */
  lemma TableKeyShape(k: string)
    requires k in BadgeMap
    ensures Tidy(k) && KeyChars(k, true)
  {
    WordKeys();
    AvailableKeys();
    FunctionalKeys();
    ReusableKeys();
    ReproducedKeys();
    ReplicatedKeys();
    SpacedKeyTidy(k, true);
  }

  /** Each badge name is its own entry in the table and a single lower-case word. */
  lemma CanonicalShape(b: string)
    requires Canonical(b)
    ensures b in BadgeMap && BadgeMap[b] == b && KeyChars(b, false) && Spaced(b)
  {
  }

  /** The four badge names normalise to themselves, with or without `_` kept. */
  lemma CanonicalFixed(b: string)
    requires Canonical(b)
    ensures NormaliseBadge(b) == b && NormaliseBadgeKeepingUnderscores(b) == b
  {
    CanonicalShape(b);
    assert KeyChars(b, true);
    SpacedKeyTidy(b, false);
    KeyFixed(b, false);
    KeyFixed(b, true);
  }

  /** Every value of the table is one of the four badge names. */
  lemma BadgeMapValues(k: string)
    requires k in BadgeMap
    ensures Canonical(BadgeMap[k])
  {
  }

  /** `_normalise_badge` is idempotent. */
  lemma NormaliseIdempotent(text: string)
    ensures NormaliseBadge(NormaliseBadge(text)) == NormaliseBadge(text)
  {
    var key := BadgeKey(text, false);
    if key in BadgeMap {
      BadgeMapValues(key);
      CanonicalFixed(BadgeMap[key]);
    } else {
      BadgeKeyShape(text, false);
      KeyFixed(key, false);
    }
  }

  /** The normaliser's result is a badge name or a tidy key of letters and blanks not in the table. */
  lemma NormaliseShape(text: string)
    ensures var r := NormaliseBadge(text); Canonical(r) || (Tidy(r) && KeyChars(r, false) && r !in BadgeMap)
  {
    var key := BadgeKey(text, false);
    if key in BadgeMap {
      BadgeMapValues(key);
    } else {
      BadgeKeyShape(text, false);
    }
  }

  /** No cleaned key holds `_`, so the underscored spellings of the table are never looked up. */
  lemma UnderscoreKeysUnreachable(text: string, k: string)
    requires k in BadgeMap && '_' in k
    ensures BadgeKey(text, false) != k
  {
    BadgeKeyShape(text, false);
  }

  /** Keeping `_` in the key, every spelling in the table normalises to its badge. */
  lemma EveryTableKeyReached(k: string)
    requires k in BadgeMap
    ensures NormaliseBadgeKeepingUnderscores(k) == BadgeMap[k]
  {
    TableKeyShape(k);
    KeyFixed(k, true);
  }

  /** The corrected normaliser is idempotent too. */
  lemma NormaliseKeepingUnderscoresIdempotent(text: string)
    ensures NormaliseBadgeKeepingUnderscores(NormaliseBadgeKeepingUnderscores(text))
      == NormaliseBadgeKeepingUnderscores(text)
  {
    var key := BadgeKey(text, true);
    if key in BadgeMap {
      BadgeMapValues(key);
      CanonicalFixed(BadgeMap[key]);
    } else {
      BadgeKeyShape(text, true);
      KeyFixed(key, true);
    }
  }

  // ---------------------------------------------------------------------
  // Badges of one paper page

  /** An `<img>` tag: its `alt` and `src` attributes (`None` when absent or empty). */
  datatype Img = Img(alt: Option<string>, src: Option<string>)

  /** The badge one image shows: the first keyword found, in the order available, functional, reusable, reproduced/replicated. */
  function ImgBadge(img: Img): (r: Option<string>)
    ensures r.Some? ==> Canonical(r.value)
  {
    var combined := Lower(img.alt.UnwrapOr("")) + " " + Lower(img.src.UnwrapOr(""));
    if Contains(combined, "available") then Some("available")
    else if Contains(combined, "functional") then Some("functional")
    else if Contains(combined, "reusable") then Some("reusable")
    else if Contains(combined, "reproduced") || Contains(combined, "replicated") then Some("reproduced")
    else None
  }

  /** The badges of a page: one per image at most, repeats dropped, first occurrences in order. */
  function PageBadges(imgs: seq<Img>): seq<string>
  {
    Dedup(FilterMap(imgs, ImgBadge))
  }

  /** A page's badges are distinct badge names, each shown by some image. */
  lemma PageBadgesShape(imgs: seq<Img>)
    ensures var b := PageBadges(imgs);
      (forall i :: 0 <= i < |b| ==> Canonical(b[i]))
      && (forall i, j :: 0 <= i < j < |b| ==> b[i] != b[j])
      && (forall i :: 0 <= i < |b| ==> exists k :: 0 <= k < |imgs| && ImgBadge(imgs[k]) == Some(b[i]))
  {
    var found := FilterMap(imgs, ImgBadge);
    forall i | 0 <= i < |PageBadges(imgs)|
      ensures Canonical(PageBadges(imgs)[i])
      ensures exists k :: 0 <= k < |imgs| && ImgBadge(imgs[k]) == Some(PageBadges(imgs)[i])
    {
      FilterMapMember(imgs, ImgBadge, PageBadges(imgs)[i]);
    }
  }

  /** The badge-collection loop: a badge per matching image. */
  method CollectBadges(imgs: seq<Img>) returns (badges: seq<string>)
    ensures badges == FilterMap(imgs, ImgBadge)
  {
    badges := [];
    var i := 0;
    while i < |imgs|
      invariant 0 <= i <= |imgs|
      invariant badges == FilterMap(imgs[..i], ImgBadge)
    {
      assert imgs[..i + 1][..i] == imgs[..i];
      var b := ImgBadge(imgs[i]);
      if b.Some? {
        badges := badges + [b.value];
      }
      i := i + 1;
    }
    assert imgs[..i] == imgs;
  }

  /** The order-preserving de-duplication loop with its `seen` set. */
  method DedupBadges(badges: seq<string>) returns (deduped: seq<string>)
    ensures deduped == Dedup(badges)
  {
    var seen: set<string> := {};
    deduped := [];
    var i := 0;
    while i < |badges|
      invariant 0 <= i <= |badges|
      invariant deduped == Dedup(badges[..i])
      invariant seen == set x | x in deduped
    {
      assert badges[..i + 1][..i] == badges[..i];
      if badges[i] !in seen {
        seen := seen + {badges[i]};
        deduped := deduped + [badges[i]];
      }
      i := i + 1;
    }
    assert badges[..i] == badges;
  }

  /** The cache encoding of a badge list. */
  function BadgesJson(badges: seq<string>): (j: Json)
    ensures j.List? && |j.items| == |badges|
  {
    List(seq(|badges|, i requires 0 <= i < |badges| => Str(badges[i])))
  }

  /** The badge list a cached value holds: its string items. */
  function BadgesOf(j: Json): seq<string>
    decreases if j.List? then |j.items| else 0
  {
    if !j.List? || |j.items| == 0 then []
    else
      var init := BadgesOf(List(j.items[..|j.items| - 1]));
      var last := j.items[|j.items| - 1];
      if last.Str? then init + [last.s] else init
  }

  /** A badge list read back from the cache is the list written. */
  lemma {:induction false} BadgesRoundTrip(badges: seq<string>)
    ensures BadgesOf(BadgesJson(badges)) == badges
    decreases |badges|
  {
    if |badges| > 0 {
      var n := |badges| - 1;
      assert BadgesJson(badges).items[..n] == BadgesJson(badges[..n]).items;
      BadgesRoundTrip(badges[..n]);
    }
  }

  /** The answer to a page request. */
  datatype PageAnswer = PageRaised | Page(status: int, text: string)

  const BadgeNamespace: string := "acm_badges"

  function BadgeCacheKey(doi: string): string
  {
    "acm_badges:" + doi
  }

  function PaperUrl(doi: string): string
  {
    "https://dl.acm.org/doi/" + doi
  }

  /**
   * `_scrape_acm_paper_badges`: `None` for an empty DOI, a failed request,
   * a 403 (not cached) or another non-200 status (caches `None`); a fresh
   * cached value is returned as is; a page's badges are cached and returned.
   */
  method ScrapePaperBadges(cache: Cache, doi: string, now: int, get: string -> PageAnswer,
                           imgs: string -> seq<Img>)
    returns (r: Option<seq<string>>)
    modifies cache
    ensures doi == "" ==> r == None && cache.files == old(cache.files)
    ensures doi != "" && old(cache.Read(BadgeCacheKey(doi), CacheTtl, BadgeNamespace, now)) != Null ==>
      r == Some(BadgesOf(old(cache.Read(BadgeCacheKey(doi), CacheTtl, BadgeNamespace, now))))
      && cache.files == old(cache.files)
    ensures doi != "" && old(cache.Read(BadgeCacheKey(doi), CacheTtl, BadgeNamespace, now)) == Null ==>
      var slot := cache.SlotOf(BadgeCacheKey(doi), BadgeNamespace);
      var answer := get(PaperUrl(doi));
      && (answer.PageRaised? || answer.status == 403 ==> r == None && cache.files == old(cache.files))
      && (answer.Page? && answer.status != 403 && answer.status != 200 ==>
            r == None && cache.files == Written(old(cache.files), slot, Null, None, now))
      && (answer.Page? && answer.status == 200 ==>
            r == Some(PageBadges(imgs(answer.text)))
            && cache.files == Written(old(cache.files), slot, BadgesJson(PageBadges(imgs(answer.text))), None, now))
  {
    if doi == "" {
      return None;
    }
    var key := BadgeCacheKey(doi);
    var cached := cache.Read(key, CacheTtl, BadgeNamespace, now);
    if cached != Null {
      return Some(BadgesOf(cached));
    }
    var answer := get(PaperUrl(doi));
    if answer.PageRaised? {
      return None;
    }
    if answer.status == 403 {
      return None;
    }
    if answer.status != 200 {
      cache.Write(key, Null, BadgeNamespace, None, now);
      return None;
    }
    var badges := CollectBadges(imgs(answer.text));
    var deduped := DedupBadges(badges);
    cache.Write(key, BadgesJson(deduped), BadgeNamespace, None, now);
    r := Some(deduped);
  }

  /** A cached `None` reads back as a miss, so a failed page is requested again on the next call. */
  lemma CachedFailureIsMiss(files: Files, slot: Slot, written: int, ttl: int, now: int)
    ensures ReadFresh(Written(files, slot, Null, None, written), slot, ttl, now) == Null
  {
  }

  /** Badges written to the cache are returned unchanged while the entry is fresh. */
  lemma CachedBadgesReturned(files: Files, slot: Slot, badges: seq<string>, written: int, now: int)
    requires now - written < CacheTtl
    ensures BadgesOf(ReadFresh(Written(files, slot, BadgesJson(badges), None, written), slot, CacheTtl, now)) == badges
  {
    BadgesRoundTrip(badges);
  }

  // ---------------------------------------------------------------------
  // A proceedings volume and its circuit breaker

  /** A paper as DBLP lists it. */
  datatype Paper = Paper(title: string, doi: string, authors: string, dblpUrl: string)

  /** A paper with the badges scraped for it. */
  datatype PaperOut = PaperOut(title: string, doi: string, authors: string, badges: seq<string>)

  /** The closure state of `_fetch_badges`: whether ACM DL is still tried, and the failures so far. */
  datatype Breaker = Breaker(accessible: bool, blocked: nat)

  /** Failures that switch the breaker off. */
  const BlockLimit: nat := 3

  /**
   * `_fetch_badges` for one paper, given what `_scrape_acm_paper_badges`
   * answers for its DOI: nothing is tried once the breaker is off; a
   * failure counts (the count is never reset) and the third switches it off.
   */
  function FetchStep(b: Breaker, outcome: Option<seq<string>>): (Breaker, seq<string>)
  {
    if !b.accessible then (b, [])
    else if outcome.None? then
      (Breaker(b.blocked + 1 < BlockLimit, b.blocked + 1), [])
    else (b, outcome.value)
  }

  /** The breaker and the outputs after the papers, in order. */
  function Proceedings(papers: seq<Paper>, scrape: string -> Option<seq<string>>): (Breaker, seq<PaperOut>)
    decreases |papers|
  {
    if |papers| == 0 then (Breaker(true, 0), [])
    else
      var (b, outs) := Proceedings(papers[..|papers| - 1], scrape);
      var p := papers[|papers| - 1];
      var (b', badges) := FetchStep(b, scrape(p.doi));
      (b', outs + [PaperOut(p.title, p.doi, p.authors, badges)])
  }

  predicate Fails(scrape: string -> Option<seq<string>>, p: Paper)
  {
    scrape(p.doi).None?
  }

  /** How many of the papers fail to scrape. */
  function Failed(papers: seq<Paper>, scrape: string -> Option<seq<string>>): nat
  {
    Count(papers, p => Fails(scrape, p))
  }

  /**
   * The breaker counts failing papers cumulatively: it stays on exactly
   * while fewer than three papers failed, and its count stops at three.
   */
  lemma {:induction false} BreakerCounts(papers: seq<Paper>, scrape: string -> Option<seq<string>>)
    ensures var b := Proceedings(papers, scrape).0;
      var failed := Failed(papers, scrape);
      b.blocked == (if failed < BlockLimit then failed else BlockLimit)
      && (b.accessible <==> failed < BlockLimit)
    decreases |papers|
  {
    if |papers| > 0 {
      BreakerCounts(papers[..|papers| - 1], scrape);
    }
  }

  /**
   * Every paper gives one output, in order, with its own title, DOI and
   * authors; its badges are the scraped ones while fewer than three
   * earlier papers had failed, and none otherwise.
   */
  lemma {:induction false} ProceedingsOutputs(papers: seq<Paper>, scrape: string -> Option<seq<string>>)
    ensures var outs := Proceedings(papers, scrape).1;
      |outs| == |papers|
      && (forall i :: 0 <= i < |papers| ==>
            outs[i].title == papers[i].title && outs[i].doi == papers[i].doi
            && outs[i].authors == papers[i].authors
            && outs[i].badges ==
               if Failed(papers[..i], scrape) < BlockLimit && scrape(papers[i].doi).Some?
               then scrape(papers[i].doi).value else [])
    decreases |papers|
  {
    if |papers| > 0 {
      var n := |papers| - 1;
      var prefix := papers[..n];
      ProceedingsOutputs(prefix, scrape);
      BreakerCounts(prefix, scrape);
      var (b, outs) := Proceedings(prefix, scrape);
      var p := papers[n];
      var badges := FetchStep(b, scrape(p.doi)).1;
      var all := outs + [PaperOut(p.title, p.doi, p.authors, badges)];
      assert Proceedings(papers, scrape).1 == all;
      forall i | 0 <= i < |papers|
        ensures all[i].title == papers[i].title && all[i].doi == papers[i].doi
          && all[i].authors == papers[i].authors
          && all[i].badges ==
             if Failed(papers[..i], scrape) < BlockLimit && scrape(papers[i].doi).Some?
             then scrape(papers[i].doi).value else []
      {
        if i < n {
          assert papers[..i] == prefix[..i] && papers[i] == prefix[i] && all[i] == outs[i];
        } else {
          assert papers[..i] == prefix;
        }
      }
    }
  }

  /** A success between two failures does not reset the count (the log message speaks of consecutive failures). */
  lemma CumulativeNotConsecutive(a: Paper, ok: Paper, c: Paper, d: Paper, e: Paper,
                                 scrape: string -> Option<seq<string>>)
    requires Fails(scrape, a) && Fails(scrape, c) && Fails(scrape, e)
    requires !Fails(scrape, ok) && !Fails(scrape, d)
    ensures !Proceedings([a, ok, c, d, e], scrape).0.accessible
  {
    var s := [a, ok, c, d, e];
    assert s[..4] == [a, ok, c, d] && [a, ok, c, d][..3] == [a, ok, c];
    assert [a, ok, c][..2] == [a, ok] && [a, ok][..1] == [a] && [a][..0] == [];
    assert Failed([a], scrape) == 1;
    assert Failed([a, ok], scrape) == 1;
    assert Failed([a, ok, c], scrape) == 2;
    assert Failed([a, ok, c, d], scrape) == 2;
    assert Failed(s, scrape) == 3;
    BreakerCounts(s, scrape);
  }

  /**
   * `scrape_acm_proceedings`, sequentially: nothing for an unknown
   * conference or an empty DBLP listing; otherwise one output per paper in
   * listing order, with the breaker's verdict on ACM DL.
   */
  method ScrapeProceedings(conference: string, papers: seq<Paper>, scrape: string -> Option<seq<string>>)
    returns (results: seq<PaperOut>, accessible: bool)
    ensures conference !in AcmConferences || papers == [] ==> results == [] && !accessible
    ensures conference in AcmConferences && papers != [] ==>
      (Breaker(accessible, Proceedings(papers, scrape).0.blocked), results) == Proceedings(papers, scrape)
  {
    if conference !in AcmConferences || papers == [] {
      return [], false;
    }
    var breaker := Breaker(true, 0);
    results := [];
    var i := 0;
    while i < |papers|
      invariant 0 <= i <= |papers|
      invariant (breaker, results) == Proceedings(papers[..i], scrape)
    {
      assert papers[..i + 1][..i] == papers[..i];
      var p := papers[i];
      var badges: seq<string> := [];
      if breaker.accessible {
        var outcome := scrape(p.doi);
        if outcome.None? {
          breaker := Breaker(breaker.blocked + 1 < BlockLimit, breaker.blocked + 1);
        } else {
          badges := outcome.value;
        }
      }
      results := results + [PaperOut(p.title, p.doi, p.authors, badges)];
      i := i + 1;
    }
    assert papers[..i] == papers;
    accessible := breaker.accessible;
  }

  /** `scrape_acm_proceedings` output as dicts. */
  function PaperRecord(p: PaperOut): Record
  {
    map["title" := Str(p.title), "doi" := Str(p.doi), "authors" := Str(p.authors),
        "badges" := BadgesJson(p.badges)]
  }

  // ---------------------------------------------------------------------
  // DBLP hits

  /** The text Python's string conversion gives for the scalar values DBLP sends. */
  function JsonText(j: Json): string
  {
    match j
    case Str(s) => s
    case Int(i) => IntToString(i)
    case Bool(b) => if b then "True" else "False"
    case Null => "None"
    case _ => ""
  }

  /** The name of one author entry: a dict's `text` (else its `@pid`), or the value itself. */
  function AuthorName(a: Json): string
  {
    if a.Object? then JsonText(GetOr(a.fields, "text", GetOr(a.fields, "@pid", Str(""))))
    else JsonText(a)
  }

  /** The author entries of a hit: a single dict is a one-element list. */
  function AuthorEntries(info: Json): seq<Json>
  {
    var raw := Field(Field(info, "authors", Object(map[])), "author", List([]));
    if raw.Object? then [raw] else if raw.List? then raw.items else []
  }

  /** The title of a hit: the `text` of a dict title, without trailing periods. */
  function HitTitle(info: Json): (t: string)
    ensures |t| > 0 ==> t[|t| - 1] != '.'
  {
    var raw := Field(info, "title", Str(""));
    var title := if raw.Object? then JsonText(GetOr(raw.fields, "text", Str(""))) else JsonText(raw);
    RStripSet(title, {'.'})
  }

  /** The author-name loop of `_dblp_papers`. */
  method AuthorNames(entries: seq<Json>) returns (names: seq<string>)
    ensures |names| == |entries| && forall i :: 0 <= i < |entries| ==> names[i] == AuthorName(entries[i])
  {
    names := [];
    var i := 0;
    while i < |entries|
      invariant 0 <= i <= |entries|
      invariant |names| == i && forall k :: 0 <= k < i ==> names[k] == AuthorName(entries[k])
    {
      names := names + [AuthorName(entries[i])];
      i := i + 1;
    }
  }

  function AuthorList(entries: seq<Json>): seq<string>
  {
    seq(|entries|, i requires 0 <= i < |entries| => AuthorName(entries[i]))
  }

  /** One DBLP hit as a paper. */
  function HitPaper(hit: Json): Paper
  {
    var info := Field(hit, "info", Object(map[]));
    Paper(HitTitle(info), JsonText(Field(info, "doi", Str(""))), Join(", ", AuthorList(AuthorEntries(info))),
          JsonText(Field(info, "url", Str(""))))
  }

  /** A lone author dict gives the same paper as a one-element author list. */
  lemma SingleAuthorIsList(info: map<string, Json>, authors: map<string, Json>, a: map<string, Json>)
    requires "authors" in info && info["authors"] == Object(authors)
    requires "author" in authors && authors["author"] == Object(a)
    ensures HitPaper(Object(map["info" := Object(info)]))
      == HitPaper(Object(map["info" := Object(info["authors" := Object(authors["author" := List([Object(a)])])])]))
  {
    var info2 := info["authors" := Object(authors["author" := List([Object(a)])])];
    assert AuthorEntries(Object(info)) == [Object(a)] == AuthorEntries(Object(info2));
    assert Field(Object(info2), "title", Str("")) == Field(Object(info), "title", Str(""));
    assert Field(Object(info2), "doi", Str("")) == Field(Object(info), "doi", Str(""));
    assert Field(Object(info2), "url", Str("")) == Field(Object(info), "url", Str(""));
  }

  /** The hit list of a DBLP search answer, nested under its result and hits objects. */
  function Hits(data: Json): seq<Json>
  {
    var hit := Field(Field(Field(data, "result", Object(map[])), "hits", Object(map[])), "hit", List([]));
    if hit.List? then hit.items else []
  }

  /** The body of the hit loop of `_dblp_papers`, with its author loop. */
  method ReadHit(hit: Json) returns (paper: Paper)
    ensures paper == HitPaper(hit)
  {
    var info := Field(hit, "info", Object(map[]));
    var names := AuthorNames(AuthorEntries(info));
    assert names == AuthorList(AuthorEntries(info));
    paper := Paper(HitTitle(info), JsonText(Field(info, "doi", Str(""))), Join(", ", names),
                   JsonText(Field(info, "url", Str(""))));
  }

  /** The hit loop of `_dblp_papers`: one paper per hit, in order. */
  method DblpPapers(data: Json) returns (papers: seq<Paper>)
    ensures |papers| == |Hits(data)|
    ensures forall i :: 0 <= i < |papers| ==> papers[i] == HitPaper(Hits(data)[i])
  {
    var hits := Hits(data);
    papers := [];
    var i := 0;
    while i < |hits|
      invariant 0 <= i <= |hits|
      invariant papers == MapSeq(hits[..i], HitPaper)
    {
      var paper := ReadHit(hits[i]);
      papers := papers + [paper];
      MapSeqSnoc(hits, i, HitPaper);
      i := i + 1;
    }
    assert hits[..i] == hits;
  }

  // ---------------------------------------------------------------------
  // Pipeline format

  /** The string items of a badge list, joined with commas. */
  function BadgeText(j: Json): string
  {
    Join(",", BadgesOf(j))
  }

  /** The pipeline entry of one artifact, `None` when it has no badges. */
  function PipelineEntry(a: Record): (r: Option<Record>)
  {
    var badges := GetOr(a, "badges", List([]));
    if !Truthy(badges) then None
    else
      var base := map["title" := GetOr(a, "title", Str("Unknown")), "badges" := Str(BadgeText(badges))];
      var withDoi := if Truthy(Get(a, "doi")) then base["doi" := a["doi"]] else base;
      var withRepo := if Truthy(Get(a, "repository_url")) then withDoi["repository_url" := a["repository_url"]] else withDoi;
      Some(if Truthy(Get(a, "artifact_url")) then withRepo["artifact_url" := a["artifact_url"]] else withRepo)
  }

  /** The entry has the artifact's field `k` exactly when it is truthy there, and then unchanged. */
  predicate CopiedWhenTruthy(a: Record, e: Record, k: string)
  {
    (k in e <==> Truthy(Get(a, k))) && (k in e ==> k in a && e[k] == a[k])
  }

  /**
   * An artifact gives an entry exactly when its badges are truthy; the
   * entry has its title (default `Unknown`) and comma-joined badges, and
   * each of `doi`, `repository_url`, `artifact_url` exactly when the
   * artifact's value is truthy, copied unchanged.
   */
  lemma PipelineEntryMeaning(a: Record)
    ensures PipelineEntry(a).Some? <==> Truthy(GetOr(a, "badges", List([])))
    ensures PipelineEntry(a).Some? ==>
      var e := PipelineEntry(a).value;
      "title" in e && e["title"] == GetOr(a, "title", Str("Unknown"))
      && "badges" in e && e["badges"] == Str(BadgeText(a["badges"]))
      && e.Keys <= {"title", "badges", "doi", "repository_url", "artifact_url"}
      && CopiedWhenTruthy(a, e, "doi") && CopiedWhenTruthy(a, e, "repository_url")
      && CopiedWhenTruthy(a, e, "artifact_url")
  {
  }

  /** `to_pipeline_format`: the entries of the artifacts with badges, in order. */
  method ToPipelineFormat(artifacts: seq<Record>) returns (pipeline: seq<Record>)
    ensures pipeline == FilterMap(artifacts, PipelineEntry)
  {
    pipeline := [];
    var i := 0;
    while i < |artifacts|
      invariant 0 <= i <= |artifacts|
      invariant pipeline == FilterMap(artifacts[..i], PipelineEntry)
    {
      assert artifacts[..i + 1][..i] == artifacts[..i];
      var entry := PipelineEntry(artifacts[i]);
      if entry.Some? {
        pipeline := pipeline + [entry.value];
      }
      i := i + 1;
    }
    assert artifacts[..i] == artifacts;
  }

  /** Only artifacts with badges reach the pipeline, and each of them does. */
  lemma PipelineKeepsBadged(artifacts: seq<Record>)
    ensures |FilterMap(artifacts, PipelineEntry)| == Count(artifacts, a => Truthy(GetOr(a, "badges", List([]))))
    decreases |artifacts|
  {
    if |artifacts| > 0 {
      PipelineKeepsBadged(artifacts[..|artifacts| - 1]);
      PipelineEntryMeaning(artifacts[|artifacts| - 1]);
    }
  }
}
