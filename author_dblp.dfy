/**
 * The bookkeeping of the DBLP scan in generate_author_stats.py
 * (`parse_dblp_for_authors`): person records give affiliations, first
 * write wins; every publication at a tracked venue is filed under each of
 * its authors, the venue and the year; a publication whose normalised
 * title is still wanted becomes an artifact paper and the title is no
 * longer wanted. The XML stream is a sequence of abstract elements.
 */
module AuthorDblp {
  import opened Wrappers
  import opened Strings
  import opened Seqs
  import opened Json
  import opened AuthorTitles

  /** A `<note>` of a person record: its `type` attribute and its text. */
  datatype Note = Note(kind: Option<string>, text: Option<string>)

  /** The text of a `<year>` element: absent or empty, a number Python's integer parse reads, or one it rejects. */
  datatype YearText = NoYear | Year(n: nat) | BadYear

  /**
   * A record of the stream, in file order: a `<www>` person record with
   * the texts of its `<author>` elements and its notes, or an
   * `<inproceedings>` / `<article>` with the texts of its children
   * (`None` for a missing one).
   */
  datatype Element =
    | Person(names: seq<Option<string>>, notes: seq<Note>)
    | Publication(title: Option<string>, booktitle: Option<string>, journal: Option<string>,
                  year: YearText, authors: seq<Option<string>>)

  /** An element's text, `''` when it is missing. */
  function Text(t: Option<string>): string
  {
    t.UnwrapOr("")
  }

  /** One artifact paper found in DBLP: `paper_info`. */
  datatype Paper = Paper(title: string, normalized: string, authors: seq<string>, year: Json,
                         venue: string, conference: Json, category: Json, badges: Json)

  /** `venue_papers`: (author, conference) to year to the normalised titles. */
  type Venues = map<(string, string), map<nat, set<string>>>

  /**
   * What the scan consults besides the stream: the artifact metadata by
   * normalised title and the venue table (`DBLP_VENUE_MAP`).
   */
  datatype Context = Context(meta: map<string, Record>, table: seq<(string, string)>)

  /** The scan's state: papers found, titles still wanted, venue papers, affiliations, and whether it stopped on an error. */
  datatype Scan = Scan(papers: seq<Paper>, toFind: set<string>, venues: Venues,
                       affiliations: map<string, string>, failed: bool)

  // ---- person records ----

  predicate IsAffiliation(n: Note)
  {
    n.kind == Some("affiliation") && Text(n.text) != ""
  }

  /** The stripped text of the first affiliation note, `''` when there is none. */
  function Affiliation(notes: seq<Note>): string
  {
    match FirstIndex(notes, IsAffiliation)
    case None => ""
    case Some(i) => Strip(Text(notes[i].text))
  }

  /** Record `affil` under each non-empty name that has no affiliation yet. */
  function AddNames(affs: map<string, string>, names: seq<Option<string>>, affil: string): map<string, string>
    decreases |names|
  {
    if |names| == 0 then affs
    else
      var m := AddNames(affs, names[..|names| - 1], affil);
      var name := Text(names[|names| - 1]);
      if name != "" && name !in m then m[name := affil] else m
  }

  /** Names already present keep their affiliation; new non-empty names get `affil`. */
  lemma {:induction false} AddNamesMeaning(affs: map<string, string>, names: seq<Option<string>>, affil: string, k: string)
    ensures k in AddNames(affs, names, affil) <==> k in affs || (k != "" && Some(k) in names)
    ensures k in AddNames(affs, names, affil) ==> AddNames(affs, names, affil)[k] == if k in affs then affs[k] else affil
    decreases |names|
  {
    if |names| > 0 {
      AddNamesMeaning(affs, names[..|names| - 1], affil, k);
      SnocMember(names, Some(k));
    }
  }

  function PersonStep(s: Scan, names: seq<Option<string>>, notes: seq<Note>): Scan
  {
    var affil := Affiliation(notes);
    if |names| > 0 && affil != "" then s.(affiliations := AddNames(s.affiliations, names, affil)) else s
  }

  // ---- publications ----

  /** The venue of a publication: its non-empty booktitle, else its journal, else the empty text. */
  function Booktitle(booktitle: Option<string>, journal: Option<string>): string
  {
    if Text(booktitle) != "" then Text(booktitle) else Text(journal)
  }

  function NonEmpty(t: Option<string>): Option<string>
  {
    if Text(t) != "" then t else None
  }

  /** The texts of the author elements of a publication, without the missing and empty ones. */
  function AuthorTexts(authors: seq<Option<string>>): seq<string>
  {
    FilterMap(authors, NonEmpty)
  }

  /** The year a venue paper is filed under: `0` when there is none. */
  function YearKey(y: YearText): nat
  {
    if y.Year? then y.n else 0
  }

  /** The normalised form of a DBLP title: trailing dots removed first. */
  function DblpTitle(t: string): string
  {
    NormalizeTitle(RStripSet(t, {'.'}))
  }

  /** File the title `n` under (author, `conf`) and year `y`. */
  function AddTitle(v: Venues, key: (string, string), y: nat, n: string): Venues
  {
    var years := if key in v then v[key] else map[];
    var titles := if y in years then years[y] else {};
    v[key := years[y := titles + {n}]]
  }

  /** File the title `n` under every author in turn. */
  function AddVenue(v: Venues, authors: seq<string>, conf: string, y: nat, n: string): Venues
    decreases |authors|
  {
    if |authors| == 0 then v
    else AddTitle(AddVenue(v, authors[..|authors| - 1], conf, y, n), (authors[|authors| - 1], conf), y, n)
  }

  /** Whether `n` is filed under (`a`, `c`) and year `y`. */
  predicate Filed(v: Venues, a: string, c: string, y: nat, n: string)
  {
    (a, c) in v && y in v[(a, c)] && n in v[(a, c)][y]
  }

  lemma {:induction false} AddVenueMeaning(v: Venues, authors: seq<string>, conf: string, y: nat, n: string,
                                           a: string, c: string, y': nat, n': string)
    ensures Filed(AddVenue(v, authors, conf, y, n), a, c, y', n') <==>
      Filed(v, a, c, y', n') || (a in authors && c == conf && y' == y && n' == n)
    decreases |authors|
  {
    if |authors| > 0 {
      AddVenueMeaning(v, authors[..|authors| - 1], conf, y, n, a, c, y', n');
      SnocMember(authors, a);
    }
  }

  /** The artifact metadata of a title, `{}` when there is none. */
  function MetaOf(meta: map<string, Record>, n: string): Record
  {
    if n in meta then meta[n] else map[]
  }

  /** `paper_info`: DBLP's title, authors, year and venue with the artifact's conference, category and badges. */
  function PaperOf(title: string, n: string, authors: seq<string>, year: YearText, venue: string, m: Record): Paper
    requires !year.BadYear?
  {
    Paper(title, n, authors, if year.Year? then Int(year.n) else Get(m, "year"), venue,
          GetOr(m, "conference", Str("")), GetOr(m, "category", Str("unknown")), GetOr(m, "badges", List([])))
  }

  /** The normalised title of a publication. */
  function PubTitle(e: Element): string
    requires e.Publication?
  {
    DblpTitle(Text(e.title))
  }

  /** The tracked conference of a publication's booktitle or journal. */
  function PubConf(e: Element, table: seq<(string, string)>): Option<string>
    requires e.Publication?
  {
    VenueOf(table, Booktitle(e.booktitle, e.journal))
  }

  /** A publication at a tracked venue is filed under each of its authors. */
  function FileVenue(v: Venues, e: Element, table: seq<(string, string)>): Venues
    requires e.Publication?
  {
    var conf := PubConf(e, table);
    if conf.Some? then AddVenue(v, AuthorTexts(e.authors), conf.value, YearKey(e.year), PubTitle(e)) else v
  }

  /** A titled publication whose normalised title is still wanted. */
  predicate Wanted(e: Element, toFind: set<string>)
    requires e.Publication?
  {
    Text(e.title) != "" && PubTitle(e) in toFind
  }

  /**
   * A rejected year stops the scan where the integer parse is reached: at a tracked
   * venue, and for a wanted title elsewhere.
   */
  predicate Stops(e: Element, toFind: set<string>, table: seq<(string, string)>)
    requires e.Publication?
  {
    Text(e.title) != "" && e.year.BadYear? && (PubConf(e, table).Some? || PubTitle(e) in toFind)
  }

  /** The paper a wanted publication contributes. */
  function Found(e: Element, cx: Context): Paper
    requires e.Publication? && !e.year.BadYear?
  {
    var n := PubTitle(e);
    PaperOf(Text(e.title), n, AuthorTexts(e.authors), e.year, Booktitle(e.booktitle, e.journal), MetaOf(cx.meta, n))
  }

  /** One publication: filed at a tracked venue, recorded when its title is wanted. */
  function PublicationStep(s: Scan, e: Element, cx: Context): Scan
    requires e.Publication?
  {
    if Text(e.title) == "" then s
    else if Stops(e, s.toFind, cx.table) then s.(failed := true)
    else if Wanted(e, s.toFind) then
      s.(papers := s.papers + [Found(e, cx)], toFind := s.toFind - {PubTitle(e)}, venues := FileVenue(s.venues, e, cx.table))
    else s.(venues := FileVenue(s.venues, e, cx.table))
  }

  function Step(s: Scan, e: Element, cx: Context): Scan
  {
    if s.failed then s
    else match e
      case Person(names, notes) => PersonStep(s, names, notes)
      case Publication(_, _, _, _, _) => PublicationStep(s, e, cx)
  }

  /** The state after scanning `es` for the titles `titles`. */
  function ScanOf(es: seq<Element>, titles: set<string>, cx: Context): Scan
    decreases |es|
  {
    if |es| == 0 then Scan([], titles, map[], map[], false)
    else Step(ScanOf(es[..|es| - 1], titles, cx), es[|es| - 1], cx)
  }

  lemma ScanSnoc(es: seq<Element>, i: nat, titles: set<string>, cx: Context)
    requires i < |es|
    ensures ScanOf(es[..i + 1], titles, cx) == Step(ScanOf(es[..i], titles, cx), es[i], cx)
  {
    assert es[..i + 1][..i] == es[..i];
  }

  /** Once the scan has stopped, the rest of the stream changes nothing. */
  lemma {:induction false} StoppedFinal(es: seq<Element>, i: nat, titles: set<string>, cx: Context)
    requires i <= |es| && ScanOf(es[..i], titles, cx).failed
    ensures ScanOf(es, titles, cx) == ScanOf(es[..i], titles, cx)
    decreases |es| - i
  {
    if i < |es| {
      ScanSnoc(es, i, titles, cx);
      StoppedFinal(es, i + 1, titles, cx);
    } else {
      assert es[..i] == es;
    }
  }

  // ---- title matching ----

  /**
   * Every paper found is the match of a distinct wanted title, its
   * normalised title is that of its DBLP title, and the titles still
   * wanted are the others.
   */
  predicate Matching(s: Scan, titles: set<string>)
  {
    s.toFind <= titles && MatchedWanted(s.papers, titles, s.toFind) && MatchedNormalized(s.papers)
    && MatchedDistinct(s.papers) && |s.papers| + |s.toFind| == |titles|
  }

  predicate MatchedWanted(ps: seq<Paper>, titles: set<string>, toFind: set<string>)
  {
    forall i :: 0 <= i < |ps| ==> ps[i].normalized in titles && ps[i].normalized !in toFind
  }

  predicate MatchedNormalized(ps: seq<Paper>)
  {
    forall i :: 0 <= i < |ps| ==> ps[i].normalized == DblpTitle(ps[i].title)
  }

  predicate MatchedDistinct(ps: seq<Paper>)
  {
    forall i, j :: 0 <= i < j < |ps| ==> ps[i].normalized != ps[j].normalized
  }

  /** What one step does to the papers and the wanted titles. */
  lemma StepPapers(s: Scan, e: Element, cx: Context)
    ensures var r := Step(s, e, cx);
      (r.papers == s.papers && r.toFind == s.toFind)
      || (e.Publication? && !e.year.BadYear? && Wanted(e, s.toFind)
          && r.papers == s.papers + [Found(e, cx)] && r.toFind == s.toFind - {PubTitle(e)})
  {
  }

  lemma WantedAppend(ps: seq<Paper>, p: Paper, titles: set<string>, toFind: set<string>)
    requires MatchedWanted(ps, titles, toFind) && p.normalized in toFind && toFind <= titles
    ensures MatchedWanted(ps + [p], titles, toFind - {p.normalized})
  {
    assert forall i :: 0 <= i < |ps| ==> (ps + [p])[i] == ps[i];
  }

  lemma NormalizedAppend(ps: seq<Paper>, p: Paper)
    requires MatchedNormalized(ps) && p.normalized == DblpTitle(p.title)
    ensures MatchedNormalized(ps + [p])
  {
    assert forall i :: 0 <= i < |ps| ==> (ps + [p])[i] == ps[i];
  }

  lemma DistinctAppend(ps: seq<Paper>, p: Paper, titles: set<string>, toFind: set<string>)
    requires MatchedDistinct(ps) && MatchedWanted(ps, titles, toFind) && p.normalized in toFind
    ensures MatchedDistinct(ps + [p])
  {
    assert forall i :: 0 <= i < |ps| ==> (ps + [p])[i] == ps[i] && ps[i].normalized != p.normalized;
  }

  /** Recording one more match of a wanted title keeps the matching invariant. */
  lemma MatchingAppend(s: Scan, r: Scan, p: Paper, titles: set<string>)
    requires Matching(s, titles)
    requires p.normalized in s.toFind && p.normalized == DblpTitle(p.title)
    requires r.papers == s.papers + [p] && r.toFind == s.toFind - {p.normalized}
    ensures Matching(r, titles)
  {
    WantedAppend(s.papers, p, titles, s.toFind);
    NormalizedAppend(s.papers, p);
    DistinctAppend(s.papers, p, titles, s.toFind);
    assert |r.toFind| == |s.toFind| - 1;
  }

  lemma StepMatching(s: Scan, e: Element, cx: Context, titles: set<string>)
    requires Matching(s, titles)
    ensures Matching(Step(s, e, cx), titles)
  {
    var r := Step(s, e, cx);
    StepPapers(s, e, cx);
    if r.papers != s.papers {
      var p := Found(e, cx);
      assert p.normalized == PubTitle(e) && p.title == Text(e.title);
      MatchingAppend(s, r, p, titles);
    }
  }

  /** Each wanted title is matched at most once; found and still-wanted titles partition the wanted ones. */
  lemma {:induction false} MatchedOnce(es: seq<Element>, titles: set<string>, cx: Context)
    ensures Matching(ScanOf(es, titles, cx), titles)
    decreases |es|
  {
    if |es| > 0 {
      MatchedOnce(es[..|es| - 1], titles, cx);
      StepMatching(ScanOf(es[..|es| - 1], titles, cx), es[|es| - 1], cx, titles);
    }
  }

  // ---- affiliations ----

  /** A person record that gives `k` an affiliation. */
  function Lists(k: string): Element -> bool
  {
    (e: Element) => e.Person? && Affiliation(e.notes) != "" && k != "" && Some(k) in e.names
  }

  lemma ScanKeepsGoing(es: seq<Element>, titles: set<string>, cx: Context)
    requires |es| > 0 && !ScanOf(es, titles, cx).failed
    ensures !ScanOf(es[..|es| - 1], titles, cx).failed
  {
  }

  /** What one step does to the affiliations. */
  lemma StepAffiliations(s: Scan, e: Element, cx: Context)
    ensures Step(s, e, cx).affiliations ==
      if !s.failed && e.Person? && |e.names| > 0 && Affiliation(e.notes) != ""
      then AddNames(s.affiliations, e.names, Affiliation(e.notes)) else s.affiliations
  {
  }

  /**
   * First write wins: for a scan that did not stop, a name has an
   * affiliation exactly when some person record lists it with one, and
   * it is the affiliation of the first such record.
   */
  lemma {:induction false} AffiliationsMeaning(es: seq<Element>, titles: set<string>, cx: Context, k: string)
    requires !ScanOf(es, titles, cx).failed
    ensures k in ScanOf(es, titles, cx).affiliations <==> FirstIndex(es, Lists(k)).Some?
    ensures k in ScanOf(es, titles, cx).affiliations ==>
      ScanOf(es, titles, cx).affiliations[k] == Affiliation(es[FirstIndex(es, Lists(k)).value].notes)
    decreases |es|
  {
    if |es| > 0 {
      var last := |es| - 1;
      var init := es[..last];
      ScanKeepsGoing(es, titles, cx);
      AffiliationsMeaning(init, titles, cx, k);
      FirstIndexSnoc(es, last, Lists(k));
      assert es[..last + 1] == es;
      var s := ScanOf(init, titles, cx);
      var e := es[last];
      StepAffiliations(s, e, cx);
      if e.Person? {
        AddNamesMeaning(s.affiliations, e.names, Affiliation(e.notes), k);
      }
      var f := FirstIndex(init, Lists(k));
      if f.Some? {
        assert init[f.value] == es[f.value];
      }
    }
  }

  /** An affiliation, once recorded, is never replaced. */
  lemma StepKeepsAffiliations(s: Scan, e: Element, cx: Context, k: string)
    requires k in s.affiliations
    ensures k in Step(s, e, cx).affiliations && Step(s, e, cx).affiliations[k] == s.affiliations[k]
  {
    if !s.failed && e.Person? {
      AddNamesMeaning(s.affiliations, e.names, Affiliation(e.notes), k);
    }
  }

  // ---- venue papers ----

  /** A publication that files the title `n` under (`a`, `c`) and year `y`. */
  predicate Files(e: Element, table: seq<(string, string)>, a: string, c: string, y: nat, n: string)
  {
    e.Publication? && Text(e.title) != "" && PubTitle(e) == n && PubConf(e, table) == Some(c)
    && !e.year.BadYear? && YearKey(e.year) == y && a in AuthorTexts(e.authors)
  }

  function Filing(table: seq<(string, string)>, a: string, c: string, y: nat, n: string): Element -> bool
  {
    (e: Element) => Files(e, table, a, c, y, n)
  }

  /** What one step that does not stop the scan does to the venue papers. */
  lemma StepVenues(s: Scan, e: Element, cx: Context)
    requires !Step(s, e, cx).failed
    ensures Step(s, e, cx).venues ==
      if e.Publication? && Text(e.title) != "" then FileVenue(s.venues, e, cx.table) else s.venues
  {
    if e.Publication? && Text(e.title) != "" {
      assert !s.failed && !Stops(e, s.toFind, cx.table);
      var r := PublicationStep(s, e, cx);
      assert r.venues == FileVenue(s.venues, e, cx.table);
    }
  }

  lemma StepFiles(s: Scan, e: Element, cx: Context, a: string, c: string, y: nat, n: string)
    requires !Step(s, e, cx).failed
    ensures Filed(Step(s, e, cx).venues, a, c, y, n) <==> Filed(s.venues, a, c, y, n) || Files(e, cx.table, a, c, y, n)
  {
    StepVenues(s, e, cx);
    if e.Publication? && Text(e.title) != "" {
      var conf := PubConf(e, cx.table);
      if conf.Some? {
        AddVenueMeaning(s.venues, AuthorTexts(e.authors), conf.value, YearKey(e.year), PubTitle(e), a, c, y, n);
        assert !e.year.BadYear?;
      }
    }
  }

  /**
   * For a scan that did not stop, a title is filed under an author, a
   * conference and a year exactly when some publication at that tracked
   * venue, by that author, in that year, has that normalised title.
   */
  lemma {:induction false} VenuesMeaning(es: seq<Element>, titles: set<string>, cx: Context,
                                         a: string, c: string, y: nat, n: string)
    requires !ScanOf(es, titles, cx).failed
    ensures Filed(ScanOf(es, titles, cx).venues, a, c, y, n) <==> Count(es, Filing(cx.table, a, c, y, n)) > 0
    ensures Filed(ScanOf(es, titles, cx).venues, a, c, y, n) <==>
      exists i :: 0 <= i < |es| && Files(es[i], cx.table, a, c, y, n)
    decreases |es|
  {
    if |es| > 0 {
      var last := |es| - 1;
      var init := es[..last];
      ScanKeepsGoing(es, titles, cx);
      VenuesMeaning(init, titles, cx, a, c, y, n);
      StepFiles(ScanOf(init, titles, cx), es[last], cx, a, c, y, n);
    }
    CountPositive(es, Filing(cx.table, a, c, y, n));
  }

  // ---- the scan loop ----

  /** The alias loop of a person record. */
  method RecordAffiliation(affs: map<string, string>, names: seq<Option<string>>, affil: string)
    returns (r: map<string, string>)
    ensures r == AddNames(affs, names, affil)
  {
    r := affs;
    for j := 0 to |names|
      invariant r == AddNames(affs, names[..j], affil)
    {
      assert names[..j + 1][..j] == names[..j];
      var name := names[j];
      if name.Some? && name.value != "" && name.value !in r {
        r := r[name.value := affil];
      }
    }
    assert names[..|names|] == names;
  }

  /** The filing loop of a publication at a tracked venue. */
  method RecordVenue(v: Venues, authors: seq<string>, conf: string, y: nat, n: string) returns (r: Venues)
    ensures r == AddVenue(v, authors, conf, y, n)
  {
    r := v;
    for j := 0 to |authors|
      invariant r == AddVenue(v, authors[..j], conf, y, n)
    {
      assert authors[..j + 1][..j] == authors[..j];
      r := AddTitle(r, (authors[j], conf), y, n);
    }
    assert authors[..|authors|] == authors;
  }

  method ScanPerson(s: Scan, names: seq<Option<string>>, notes: seq<Note>) returns (affs: map<string, string>)
    ensures affs == PersonStep(s, names, notes).affiliations
  {
    affs := s.affiliations;
    if |names| > 0 {
      var found := FindFirst(notes, IsAffiliation);
      var affil := if found.Some? then Strip(Text(notes[found.value].text)) else "";
      if affil != "" {
        affs := RecordAffiliation(affs, names, affil);
      }
    }
  }

  method ScanPublication(s: Scan, e: Element, cx: Context) returns (r: Scan)
    requires e.Publication? && !s.failed
    ensures r == PublicationStep(s, e, cx)
  {
    r := s;
    var t := Text(e.title);
    if t != "" {
      var n := DblpTitle(t);
      var b := Booktitle(e.booktitle, e.journal);
      var conf := VenueOf(cx.table, b);
      var authors := AuthorTexts(e.authors);
      if conf.Some? {
        if e.year.BadYear? {
          return s.(failed := true);
        }
        var v := RecordVenue(r.venues, authors, conf.value, YearKey(e.year), n);
        r := r.(venues := v);
      }
      assert r.venues == FileVenue(s.venues, e, cx.table);
      if n in s.toFind {
        if e.year.BadYear? {
          return s.(failed := true);
        }
        var paper := PaperOf(t, n, authors, e.year, b, MetaOf(cx.meta, n));
        assert paper == Found(e, cx);
        r := r.(papers := r.papers + [paper], toFind := r.toFind - {n});
      }
    }
  }

  /** The element loop, for any metadata and venue table. */
  method ScanStream(es: seq<Element>, titles: set<string>, cx: Context)
    returns (papers: seq<Paper>, venues: Venues, affs: map<string, string>)
    ensures papers == ScanOf(es, titles, cx).papers
    ensures venues == ScanOf(es, titles, cx).venues
    ensures affs == ScanOf(es, titles, cx).affiliations
  {
    var s := Scan([], titles, map[], map[], false);
    var i := 0;
    while i < |es|
      invariant 0 <= i <= |es|
      invariant s == ScanOf(es[..i], titles, cx) && !s.failed
    {
      ScanSnoc(es, i, titles, cx);
      var e := es[i];
      if e.Person? {
        var affs' := ScanPerson(s, e.names, e.notes);
        s := s.(affiliations := affs');
      } else {
        s := ScanPublication(s, e, cx);
        if s.failed {
          StoppedFinal(es, i + 1, titles, cx);
          return s.papers, s.venues, s.affiliations;
        }
      }
      i := i + 1;
    }
    assert es[..i] == es;
    papers, venues, affs := s.papers, s.venues, s.affiliations;
  }

  /**
   * `parse_dblp_for_authors` over the element stream: the artifact papers
   * found, the venue papers and the affiliations, as gathered up to the
   * end of the stream or up to the error that stops it.
   */
  method ParseDblpForAuthors(es: seq<Element>, titles: set<string>, meta: map<string, Record>)
    returns (papers: seq<Paper>, venues: Venues, affs: map<string, string>)
    ensures var s := ScanOf(es, titles, Context(meta, VenueMap));
      papers == s.papers && venues == s.venues && affs == s.affiliations
  {
    papers, venues, affs := ScanStream(es, titles, Context(meta, VenueMap));
  }
}
