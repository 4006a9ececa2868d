/**
 * Artifact-evaluation committees from the conference web sites when the
 * artifact sites have none: the USENIX call-for-artifacts pages, the CHES
 * artifact pages and the PETS calls for papers, and the dispatch over
 * conference-year keys.
 *
 * A page is given as what the HTML parser finds on it: the headings in
 * document order with the block that follows each, the children of a
 * paragraph as text pieces and line breaks, the items of a list.
 */
module AltCommittee {
  import opened Wrappers
  import opened Strings
  import opened Seqs
  import opened ConfYears
  import C = CommitteeScrape
  import UsenixScrape

  // ---------------------------------------------------------------------
  // Cleaning

  /** Collapses white space, then strips blanks, then markup asterisks and underscores, then blanks again. */
  function CleanText(s: string): string
  {
    Strip(C.StripMarkup(Collapse(s)))
  }

  /** The cleaning of the views-row format: white space collapsed, markup asterisks and underscores stripped, then blanks. */
  function CleanViews(s: string): string
  {
    Strip(C.StripMarkup(Squash(s)))
  }

  /** The stripped texts before and after the first comma; the whole line and nothing without a comma. */
  function CommaSplit(line: string): (r: (string, string))
    ensures ',' !in line ==> r == (line, "")
    ensures ',' in line ==> ',' !in r.0
  {
    match FindChar(line, ',')
    case Some(c) =>
      assert forall i :: 0 <= i < c ==> line[..c][i] == line[i];
      (Strip(line[..c]), Strip(line[c + 1..]))
    case None => (line, "")
  }

  // ---------------------------------------------------------------------
  // Paragraph lines: text pieces separated by <br/>

  /** A child of a paragraph: a line break, or the text of anything else (text, `<em>`, `<a>`). */
  datatype Child = Br | Piece(text: string)

  /** The lines finished so far and the pieces of the current one. */
  datatype LineScan = LineScan(lines: seq<string>, parts: seq<string>)

  function LineStep(st: LineScan, c: Child): LineScan
  {
    match c
    case Br => if |st.parts| > 0 then LineScan(st.lines + [Strip(Join("", st.parts))], []) else st
    case Piece(t) => LineScan(st.lines, st.parts + [t])
  }

  function ScanChildren(children: seq<Child>): LineScan
    decreases |children|
  {
    if |children| == 0 then LineScan([], [])
    else LineStep(ScanChildren(children[..|children| - 1]), children[|children| - 1])
  }

  /**
   * The lines of a paragraph: each `<br/>` ends the current line, if it
   * has pieces; the pieces after the last one make a line when their text
   * is not blank.
   */
  function ParagraphLines(children: seq<Child>): seq<string>
  {
    var st := ScanChildren(children);
    if |st.parts| > 0 && Strip(Join("", st.parts)) != "" then st.lines + [Strip(Join("", st.parts))]
    else st.lines
  }

  /** The accumulator loop over the children of the paragraph. */
  method SplitParagraph(children: seq<Child>) returns (lines: seq<string>)
    ensures lines == ParagraphLines(children)
  {
    lines := [];
    var parts: seq<string> := [];
    var i := 0;
    while i < |children|
      invariant 0 <= i <= |children|
      invariant LineScan(lines, parts) == ScanChildren(children[..i])
    {
      assert children[..i + 1][..i] == children[..i];
      if children[i].Br? {
        if |parts| > 0 {
          lines := lines + [Strip(Join("", parts))];
          parts := [];
        }
      } else {
        parts := parts + [children[i].text];
      }
      i := i + 1;
    }
    assert children[..i] == children;
    if |parts| > 0 {
      var last := Strip(Join("", parts));
      if last != "" {
        lines := lines + [last];
      }
    }
  }

  function Breaks(children: seq<Child>): nat
  {
    Count(children, (c: Child) => c.Br?)
  }

  /** Lines are stripped, and every finished line used up one `<br/>`. */
  lemma {:induction false} ScanShape(children: seq<Child>)
    ensures var st := ScanChildren(children);
      |st.lines| <= Breaks(children)
      && forall i :: 0 <= i < |st.lines| ==> Strip(st.lines[i]) == st.lines[i]
    decreases |children|
  {
    if |children| > 0 {
      var prefix := children[..|children| - 1];
      ScanShape(prefix);
      var st := ScanChildren(prefix);
      if children[|children| - 1].Br? && |st.parts| > 0 {
        StripIdempotent(Join("", st.parts));
      }
    }
  }

  /** A paragraph gives at most one line more than it has line breaks, each of them stripped and not empty when last. */
  lemma ParagraphShape(children: seq<Child>)
    ensures |ParagraphLines(children)| <= Breaks(children) + 1
    ensures forall l :: l in ParagraphLines(children) ==> Strip(l) == l
  {
    ScanShape(children);
    var st := ScanChildren(children);
    if |st.parts| > 0 {
      StripIdempotent(Join("", st.parts));
    }
  }

  // ---------------------------------------------------------------------
  // One committee line

  /** Links, e-mail addresses and bracketed notes are not member lines (the co-chair parser skips only addresses). */
  predicate UsenixSkipped(line: string, strict: bool)
  {
    '@' in line || (strict && ("http" <= line || "[" <= line))
  }

  /**
   * A "Name, Affiliation" line of a USENIX paragraph: skipped when blank or
   * when `UsenixSkipped`; split at the first comma; a cleaned name of two
   * characters or more is kept.
   */
  function UsenixLine(raw: string, role: C.Role, strict: bool): (r: Option<C.CommitteeMember>)
    ensures r.Some? ==> |r.value.name| > 1 && r.value.role == role
  {
    var line := Strip(raw);
    if line == "" || UsenixSkipped(line, strict) then None
    else
      var (n, a) := CommaSplit(line);
      var name := CleanText(n);
      if |name| > 1 then Some(C.CommitteeMember(name, CleanText(a), role)) else None
  }

  /** Skipped lines give nothing; any other with a long enough cleaned name gives a member. */
  lemma UsenixLineMeaning(raw: string, role: C.Role, strict: bool)
    ensures var line := Strip(raw);
      UsenixLine(raw, role, strict).Some? <==>
        line != "" && !UsenixSkipped(line, strict) && |CleanText(CommaSplit(line).0)| > 1
    ensures var line := Strip(raw);
      UsenixLine(raw, role, strict).Some? ==>
        UsenixLine(raw, role, strict).value.affiliation == CleanText(CommaSplit(line).1)
  {
  }

  /** The members of the lines of a paragraph. */
  function ParagraphMembers(children: seq<Child>, role: C.Role, strict: bool): seq<C.CommitteeMember>
  {
    FilterMap(ParagraphLines(children), (l: string) => UsenixLine(l, role, strict))
  }

  /** The member loop over the lines of a paragraph. */
  method ParseParagraph(children: seq<Child>, role: C.Role, strict: bool) returns (members: seq<C.CommitteeMember>)
    ensures members == ParagraphMembers(children, role, strict)
  {
    var lines := SplitParagraph(children);
    members := CollectSome(lines, (l: string) => UsenixLine(l, role, strict));
  }

  // ---------------------------------------------------------------------
  // The views-row format

  /** A `views-row` div: the texts before the `<em>` of its field content and the `<em>`'s text. */
  datatype ViewsRow = FieldContent(before: seq<string>, em: Option<string>) | NoFieldContent

  /** `_parse_usenix_views_rows` for one row: the name before the `<em>`, without a trailing comma. */
  function ViewsRowMember(row: ViewsRow): (r: Option<C.CommitteeMember>)
    ensures r.Some? ==> |r.value.name| > 1 && r.value.role == C.Member
  {
    match row
    case NoFieldContent => None
    case FieldContent(before, em) =>
      var name := CleanViews(Strip(RStripSet(Strip(Join("", before)), {','})));
      var affiliation := if em.Some? then CleanViews(Strip(em.value)) else "";
      if |name| > 1 then Some(C.CommitteeMember(name, affiliation, C.Member)) else None
  }

  method ParseViewsRows(rows: seq<ViewsRow>) returns (members: seq<C.CommitteeMember>)
    ensures members == FilterMap(rows, ViewsRowMember)
  {
    members := CollectSome(rows, ViewsRowMember);
  }

  // ---------------------------------------------------------------------
  // A USENIX call-for-artifacts page

  /** What follows a heading: `views-row` divs, a paragraph, or neither. */
  datatype Block = ViewsRows(rows: seq<ViewsRow>) | Paragraph(children: seq<Child>) | NoBlock

  datatype Heading = Heading(text: string, block: Block)

  /** The member heading: exactly "artifact evaluation committee", optionally with " (aec)". */
  predicate AecHeading(h: Heading)
  {
    AecTitle(HeadingText(h.text))
  }

  /** The text a heading is matched on: stripped and lower-cased. */
  function HeadingText(text: string): string
  {
    Lower(Strip(text))
  }

  predicate AecTitle(t: string)
  {
    t == "artifact evaluation committee" || t == "artifact evaluation committee (aec)"
  }

  /** A co-chair heading of the artifact evaluation. */
  predicate CoChairHeading(h: Heading)
  {
    var t := HeadingText(h.text);
    Contains(t, "co-chair") && Contains(t, "artifact")
  }

  /** The members of a block; lines of a paragraph with the given skipping rule and role. */
  function BlockMembers(b: Block, role: C.Role, strict: bool): seq<C.CommitteeMember>
  {
    match b
    case ViewsRows(rows) => FilterMap(rows, ViewsRowMember)
    case Paragraph(children) => ParagraphMembers(children, role, strict)
    case NoBlock => []
  }

  method ParseBlock(b: Block, role: C.Role, strict: bool) returns (members: seq<C.CommitteeMember>)
    ensures members == BlockMembers(b, role, strict)
  {
    match b
    case ViewsRows(rows) => members := ParseViewsRows(rows);
    case Paragraph(children) => members := ParseParagraph(children, role, strict);
    case NoBlock => members := [];
  }

  /** `_parse_usenix_committee_html`: the members under the last member heading. */
  function AecMembers(hs: seq<Heading>): seq<C.CommitteeMember>
  {
    match LastIndex(hs, AecHeading)
    case None => []
    case Some(i) => BlockMembers(hs[i].block, C.Member, true)
  }

  /** `_parse_usenix_cochairs_html`: the chairs under the first co-chair heading only. */
  function CoChairs(hs: seq<Heading>): seq<C.CommitteeMember>
  {
    match FirstIndex(hs, CoChairHeading)
    case None => []
    case Some(i) => BlockMembers(hs[i].block, C.Chair, false)
  }

  /** Every member has the given role. */
  function WithRole(ms: seq<C.CommitteeMember>, role: C.Role): (r: seq<C.CommitteeMember>)
    ensures |r| == |ms|
    ensures forall i :: 0 <= i < |ms| ==> r[i] == ms[i].(role := role)
  {
    seq(|ms|, i requires 0 <= i < |ms| => ms[i].(role := role))
  }

  // ---------------------------------------------------------------------
  // Chairs first, one entry per lower-cased name

  function NameKey(m: C.CommitteeMember): string
  {
    Lower(m.name)
  }

  function NameKeys(ms: seq<C.CommitteeMember>): set<string>
  {
    set i | 0 <= i < |ms| :: NameKey(ms[i])
  }

  lemma NameKeysSnoc(ms: seq<C.CommitteeMember>, m: C.CommitteeMember)
    ensures NameKeys(ms + [m]) == NameKeys(ms) + {NameKey(m)}
  {
    var all := ms + [m];
    forall x | x in NameKeys(all) ensures x in NameKeys(ms) + {NameKey(m)} {
      var i :| 0 <= i < |all| && NameKey(all[i]) == x;
      if i < |ms| {
        assert all[i] == ms[i];
      }
    }
    forall x | x in NameKeys(ms) ensures x in NameKeys(all) {
      var i :| 0 <= i < |ms| && NameKey(ms[i]) == x;
      assert all[i] == ms[i];
    }
    assert all[|ms|] == m;
  }

  /** The members in order, an entry dropped when an earlier one has the same lower-cased name. */
  function DedupByName(ms: seq<C.CommitteeMember>): seq<C.CommitteeMember>
    decreases |ms|
  {
    if |ms| == 0 then []
    else
      var init := DedupByName(ms[..|ms| - 1]);
      if NameKey(ms[|ms| - 1]) in NameKeys(init) then init else init + [ms[|ms| - 1]]
  }

  /** The `seen` / `deduped` loop. */
  method DedupMembers(ms: seq<C.CommitteeMember>) returns (deduped: seq<C.CommitteeMember>)
    ensures deduped == DedupByName(ms)
  {
    var seen: set<string> := {};
    deduped := [];
    var i := 0;
    while i < |ms|
      invariant 0 <= i <= |ms|
      invariant deduped == DedupByName(ms[..i]) && seen == NameKeys(deduped)
    {
      assert ms[..i + 1][..i] == ms[..i];
      var key := Lower(ms[i].name);
      if key !in seen {
        seen := seen + {key};
        NameKeysSnoc(deduped, ms[i]);
        deduped := deduped + [ms[i]];
      }
      i := i + 1;
    }
    assert ms[..i] == ms;
  }

  predicate FirstOfItsName(ms: seq<C.CommitteeMember>, j: nat)
    requires j < |ms|
  {
    forall l :: 0 <= l < j ==> NameKey(ms[l]) != NameKey(ms[j])
  }

  /**
   * The kept entries are exactly the first entry of each name: the names
   * are those of the input, no two kept entries share a name, and each is
   * the first input entry with its name.
   */
  lemma {:induction false} DedupMeaning(ms: seq<C.CommitteeMember>)
    ensures NameKeys(DedupByName(ms)) == NameKeys(ms)
    ensures var r := DedupByName(ms);
      forall i, j :: 0 <= i < j < |r| ==> NameKey(r[i]) != NameKey(r[j])
    ensures var r := DedupByName(ms);
      forall i :: 0 <= i < |r| ==> exists j :: 0 <= j < |ms| && ms[j] == r[i] && FirstOfItsName(ms, j)
    decreases |ms|
  {
    if |ms| > 0 {
      var n := |ms| - 1;
      var prefix := ms[..n];
      DedupMeaning(prefix);
      var init := DedupByName(prefix);
      var r := DedupByName(ms);
      var m := ms[n];
      assert ms == prefix + [m];
      NameKeysSnoc(prefix, m);
      forall i | 0 <= i < |init|
        ensures exists j :: 0 <= j < |ms| && ms[j] == init[i] && FirstOfItsName(ms, j)
      {
        var j :| 0 <= j < |prefix| && prefix[j] == init[i] && FirstOfItsName(prefix, j);
        assert ms[j] == prefix[j];
        assert forall l :: 0 <= l < j ==> ms[l] == prefix[l];
      }
      if NameKey(m) !in NameKeys(init) {
        assert r == init + [m];
        NameKeysSnoc(init, m);
        assert FirstOfItsName(ms, n) by {
          forall l | 0 <= l < n ensures NameKey(ms[l]) != NameKey(m) {
            assert ms[l] == prefix[l];
            assert NameKey(prefix[l]) in NameKeys(prefix);
          }
        }
        forall i | 0 <= i < |init| ensures NameKey(r[i]) != NameKey(m) {
          assert r[i] == init[i];
          assert NameKey(init[i]) in NameKeys(init);
        }
      }
    }
  }

  /** All chairs come before all members. */
  predicate ChairsBeforeMembers(ms: seq<C.CommitteeMember>)
  {
    forall i, j :: 0 <= i < j < |ms| && ms[j].role == C.Chair ==> ms[i].role == C.Chair
  }

  lemma {:induction false} DedupKeepsChairsFirst(ms: seq<C.CommitteeMember>)
    requires ChairsBeforeMembers(ms)
    ensures ChairsBeforeMembers(DedupByName(ms))
    decreases |ms|
  {
    if |ms| > 0 {
      var n := |ms| - 1;
      var prefix := ms[..n];
      assert ChairsBeforeMembers(prefix) by {
        assert forall j :: 0 <= j < n ==> prefix[j] == ms[j];
      }
      DedupKeepsChairsFirst(prefix);
      var init := DedupByName(prefix);
      if NameKey(ms[n]) !in NameKeys(init) && ms[n].role == C.Chair {
        DedupMeaning(prefix);
        forall i | 0 <= i < |init| ensures init[i].role == C.Chair {
          var j :| 0 <= j < |prefix| && prefix[j] == init[i] && FirstOfItsName(prefix, j);
          assert prefix[j] == ms[j];
        }
      }
    }
  }

  /**
   * Chairs first, de-duplicated by lower-cased name: the output lists its
   * chairs before its members, no name twice, every input name once, and a
   * member who is also a chair is listed as a chair.
   */
  lemma ChairWins(chairs: seq<C.CommitteeMember>, members: seq<C.CommitteeMember>)
    requires forall i :: 0 <= i < |chairs| ==> chairs[i].role == C.Chair
    requires forall i :: 0 <= i < |members| ==> members[i].role == C.Member
    ensures var r := DedupByName(chairs + members);
      ChairsBeforeMembers(r)
      && NameKeys(r) == NameKeys(chairs + members)
      && (forall i, j :: 0 <= i < j < |r| ==> NameKey(r[i]) != NameKey(r[j]))
      && (forall i :: 0 <= i < |r| && NameKey(r[i]) in NameKeys(chairs) ==> r[i].role == C.Chair)
  {
    var all := chairs + members;
    var r := DedupByName(all);
    assert ChairsBeforeMembers(all) by {
      forall i, j | 0 <= i < j < |all| && all[j].role == C.Chair ensures all[i].role == C.Chair {
        assert j < |chairs|;
      }
    }
    DedupKeepsChairsFirst(all);
    DedupMeaning(all);
    forall i | 0 <= i < |r| && NameKey(r[i]) in NameKeys(chairs) ensures r[i].role == C.Chair {
      var j :| 0 <= j < |all| && all[j] == r[i] && FirstOfItsName(all, j);
      var c :| 0 <= c < |chairs| && NameKey(chairs[c]) == NameKey(r[i]);
      assert all[c] == chairs[c];
      assert j <= c;
    }
  }

  // ---------------------------------------------------------------------
  // USENIX

  /** `USENIX_CONF_SLUGS`: internal conference name to its USENIX URL slug. */
  const UsenixSlugs: map<string, string> := map[
    "fast" := "fast", "osdi" := "osdi", "atc" := "atc", "usenixsec" := "usenixsecurity", "woot" := "woot"
  ]

  /** The call-for-artifacts URL of a conference, `None` for a conference USENIX does not host. */
  function CallForArtifactsUrl(conference: string, year: int): (url: Option<string>)
    ensures url.Some? <==> Lower(conference) in UsenixSlugs
  {
    var key := Lower(conference);
    if key in UsenixSlugs then
      Some("https://www.usenix.org/conference/" + UsenixSlugs[key] + UsenixScrape.YearSuffix(year) + "/call-for-artifacts")
    else None
  }

  /** The committee of a fetched call-for-artifacts page, before the empty check. */
  function UsenixPageCommittee(hs: seq<Heading>): seq<C.CommitteeMember>
  {
    DedupByName(WithRole(CoChairs(hs), C.Chair) + WithRole(AecMembers(hs), C.Member))
  }

  /**
   * `scrape_usenix_committee`: `None` for an unknown conference, a page
   * that is missing or fails to load, or a page without members; otherwise
   * the chairs and then the members, one entry per lower-cased name.
   */
  method ScrapeUsenixCommittee(conference: string, year: int, fetch: string -> Option<seq<Heading>>)
    returns (committee: Option<seq<C.CommitteeMember>>)
    ensures CallForArtifactsUrl(conference, year).None? ==> committee.None?
    ensures CallForArtifactsUrl(conference, year).Some? ==>
      var page := fetch(CallForArtifactsUrl(conference, year).value);
      committee == if page.None? || UsenixPageCommittee(page.value) == [] then None
                   else Some(UsenixPageCommittee(page.value))
  {
    var url := CallForArtifactsUrl(conference, year);
    if url.None? {
      return None;
    }
    var page := fetch(url.value);
    if page.None? {
      return None;
    }
    var hs := page.value;
    var first := FindFirst(hs, CoChairHeading);
    var chairs: seq<C.CommitteeMember> := [];
    if first.Some? {
      chairs := ParseBlock(hs[first.value].block, C.Chair, false);
    }
    var target := FindLast(hs, AecHeading);
    var members: seq<C.CommitteeMember> := [];
    if target.Some? {
      members := ParseBlock(hs[target.value].block, C.Member, true);
    }
    var deduped := DedupMembers(WithRole(chairs, C.Chair) + WithRole(members, C.Member));
    if deduped == [] {
      return None;
    }
    committee := Some(deduped);
  }

  /** A USENIX committee lists its chairs first, each lower-cased name once, a chair who is also a member as a chair. */
  lemma UsenixCommitteeShape(hs: seq<Heading>)
    ensures var r := UsenixPageCommittee(hs);
      ChairsBeforeMembers(r)
      && (forall i, j :: 0 <= i < j < |r| ==> NameKey(r[i]) != NameKey(r[j]))
      && (forall i :: 0 <= i < |r| && NameKey(r[i]) in NameKeys(CoChairs(hs)) ==> r[i].role == C.Chair)
  {
    var chairs := WithRole(CoChairs(hs), C.Chair);
    assert NameKeys(chairs) == NameKeys(CoChairs(hs));
    ChairWins(chairs, WithRole(AecMembers(hs), C.Member));
  }

  // ---------------------------------------------------------------------
  // CHES

  /** An `<aside>` of the chairs' row: its `<h4>` and `<p>` texts. */
  datatype Aside = Aside(h4: Option<string>, p: Option<string>)

  /** An `<h3>` of a CHES page with the chairs' row div and the list that follow it, when present. */
  datatype ChesHeading = ChesHeading(text: string, asides: Option<seq<Aside>>, items: Option<seq<string>>)

  predicate ChesChairHeading(h: ChesHeading)
  {
    var t := Lower(Strip(h.text));
    Contains(t, "chair") && Contains(t, "artifact")
  }

  predicate ChesMemberHeading(h: ChesHeading)
  {
    var t := Lower(Strip(h.text));
    Contains(t, "committee member") && Contains(t, "artifact")
  }

  function AsideChair(a: Aside): (r: Option<C.CommitteeMember>)
    ensures r.Some? ==> |r.value.name| > 1 && r.value.role == C.Chair
  {
    if a.h4.None? then None
    else
      var name := Collapse(a.h4.value);
      var affiliation := if a.p.Some? then Collapse(a.p.value) else "";
      if |name| > 1 then Some(C.CommitteeMember(name, affiliation, C.Chair)) else None
  }

  /** `_scrape_ches_chairs_html`: the asides under the first chair heading only. */
  function ChesChairs(hs: seq<ChesHeading>): (r: seq<C.CommitteeMember>)
    ensures forall i :: 0 <= i < |r| ==> r[i].role == C.Chair
  {
    match FirstIndex(hs, ChesChairHeading)
    case None => []
    case Some(i) =>
      FilterMapAll(hs[i].asides.UnwrapOr([]), AsideChair, (m: C.CommitteeMember) => m.role == C.Chair);
      FilterMap(hs[i].asides.UnwrapOr([]), AsideChair)
  }

  /**
   * The name group of the pattern when its `(` is at `q`: the lazy name
   * stops where the white space before the `(` begins, and holds at least
   * one character.
   */
  function ChesName(text: string, q: nat): (r: string)
    requires 1 <= q <= |text|
    ensures 0 < |r| <= q && r == text[..|r|]
  {
    var n := RStrip(text[..q]);
    if |n| > 0 then n else text[..1]
  }

  /**
   * The pattern "name, optional white space, `(`, inside, `)`, optional
   * white space, end" matches with its `(` at `q`, where `.` stops at line
   * breaks: the `)` is the last character before the trailing white
   * space, the inside between them is not empty, and neither the name
   * nor the inside holds a line break.
   */
  predicate ChesSplitAt(text: string, q: nat)
  {
    var close := |RStrip(text)| - 1;
    1 <= q && q + 1 < close && text[close] == ')' && text[q] == '('
    && '\n' !in ChesName(text, q) && '\n' !in text[q + 1..close]
  }

  /** The first position from `q` on where the pattern matches. */
  function ChesSplitFrom(text: string, q: nat): (r: Option<nat>)
    requires 1 <= q <= |text|
    ensures r.Some? ==> q <= r.value < |text| && ChesSplitAt(text, r.value)
    decreases |text| - q
  {
    if q == |text| then None
    else if ChesSplitAt(text, q) then Some(q)
    else ChesSplitFrom(text, q + 1)
  }

  /** The position found is the first where the pattern matches, and none is found only when it matches nowhere. */
  lemma {:induction false} ChesSplitFromFirst(text: string, q: nat)
    requires 1 <= q <= |text|
    ensures var r := ChesSplitFrom(text, q);
      r.Some? ==> forall j :: q <= j < r.value ==> !ChesSplitAt(text, j)
    ensures ChesSplitFrom(text, q).None? ==> forall j :: q <= j < |text| ==> !ChesSplitAt(text, j)
    decreases |text| - q
  {
    if q < |text| && !ChesSplitAt(text, q) {
      ChesSplitFromFirst(text, q + 1);
    }
  }

  /**
   * How the pattern splits a list item into its name and affiliation
   * groups: at the first `(` where the pattern matches (the lazy name
   * tries each `(` in turn), and not at all when it matches nowhere.
   */
  function ChesSplit(text: string): Option<(string, string)>
  {
    if |text| == 0 then None
    else match ChesSplitFrom(text, 1)
      case None => None
      case Some(q) => Some((ChesName(text, q), text[q + 1..|RStrip(text)| - 1]))
  }

  /**
   * A split is the name and inside groups of the first position where the
   * pattern matches; there is no split exactly when it matches nowhere.
   */
  lemma ChesSplitMeaning(text: string)
    ensures ChesSplit(text).None? ==> forall q :: 1 <= q < |text| ==> !ChesSplitAt(text, q)
    ensures var r := ChesSplit(text);
      r.Some? ==>
        var q := |RStrip(text)| - |r.value.1| - 2;
        && 1 <= q < |text| && ChesSplitAt(text, q)
        && r.value == (ChesName(text, q), text[q + 1..|RStrip(text)| - 1])
        && forall j :: 1 <= j < q ==> !ChesSplitAt(text, j)
  {
    if |text| > 0 {
      ChesSplitFromFirst(text, 1);
    }
  }

  /** The first position where the pattern matches decides the split. */
  lemma ChesSplitFirst(text: string, q: nat)
    requires 1 <= q < |text| && ChesSplitAt(text, q)
    requires forall j :: 1 <= j < q ==> !ChesSplitAt(text, j)
    ensures ChesSplit(text) == Some((ChesName(text, q), text[q + 1..|RStrip(text)| - 1]))
  {
    ChesSplitFromFirst(text, 1);
    var r := ChesSplitFrom(text, 1);
    assert r.Some?;
    assert r.value == q;
  }

  /** `name(inside)` matches at the `(` after the name when neither part holds a line break. */
  lemma ChesSplitAtParen(name: string, inside: string)
    requires |RStrip(name)| > 0 && |inside| > 0
    requires '\n' !in name && '\n' !in inside
    ensures ChesSplitAt(name + "(" + inside + ")", |name|)
  {
    var text := name + "(" + inside + ")";
    var q := |name|;
    assert RStrip(text) == text by {
      assert text[|text| - 1] == ')';
    }
    assert '\n' !in ChesName(text, q) by {
      assert text[..q] == name;
      assert RStrip(name) == name[..|RStrip(name)|];
    }
    assert '\n' !in text[q + 1..|text| - 1] by {
      assert text[q + 1..|text| - 1] == inside;
    }
    ChesSplitAtIntro(text, q);
  }

  /** The match conditions at `q` once the closing position is known. */
  lemma ChesSplitAtIntro(text: string, q: nat)
    requires RStrip(text) == text && 1 <= q && q + 2 < |text|
    requires text[|text| - 1] == ')' && text[q] == '('
    requires '\n' !in ChesName(text, q) && '\n' !in text[q + 1..|text| - 1]
    ensures ChesSplitAt(text, q)
  {
  }

  /** No `(` inside the name after its first character, so no earlier match. */
  lemma ChesNoEarlierParen(name: string, inside: string)
    requires |name| > 0 && '(' !in name[1..]
    ensures forall j :: 1 <= j < |name| ==> !ChesSplitAt(name + "(" + inside + ")", j)
  {
    var text := name + "(" + inside + ")";
    forall j | 1 <= j < |name| ensures !ChesSplitAt(text, j) {
      assert text[j] == name[1..][j - 1];
    }
  }

  /**
   * An item of the form `name(inside)` splits into the name without its
   * trailing white space and the inside, when the name holds no `(` after
   * its first character and neither part holds a line break.
   */
  lemma ChesSplitExample(name: string, inside: string)
    requires |RStrip(name)| > 0 && '(' !in name[1..] && |inside| > 0
    requires '\n' !in name && '\n' !in inside
    ensures ChesSplit(name + "(" + inside + ")") == Some((RStrip(name), inside))
  {
    var text := name + "(" + inside + ")";
    ChesSplitAtParen(name, inside);
    ChesNoEarlierParen(name, inside);
    ChesSplitFirst(text, |name|);
    assert RStrip(text) == text;
    assert text[..|name|] == name;
    assert text[|name| + 1..|text| - 1] == inside;
  }

  /**
   * A line break inside the parentheses stops the split when no other `(`
   * follows: the item is kept whole.
   */
  lemma ChesSplitBreakInside(name: string, inside: string)
    requires |name| > 0 && '(' !in name[1..] && '(' !in inside
    requires '\n' in inside
    ensures ChesSplit(name + "(" + inside + ")") == None
  {
    var text := name + "(" + inside + ")";
    assert RStrip(text) == text;
    assert text[|name| + 1..|text| - 1] == inside;
    forall q | 1 <= q < |text| ensures !ChesSplitAt(text, q) {
      if q < |name| {
        assert text[q] == name[1..][q - 1];
      } else if |name| < q < |text| - 1 {
        assert text[q] == inside[q - |name| - 1];
      }
    }
  }

  /**
   * A line break inside the first parentheses moves the split to a later
   * `(`: the first parenthesised part stays in the name.
   */
  lemma ChesSplitLaterParen()
    ensures ChesSplit("Ann (X)\n(Z)") == Some(("Ann (X)", "Z"))
  {
    var text := "Ann (X)\n(Z)";
    assert RStrip(text) == text;
    assert RStrip(text[..8]) == "Ann (X)" by {
      assert text[..8] == "Ann (X)\n";
      assert RStrip("Ann (X)\n") == RStrip("Ann (X)");
    }
    assert ChesSplitAt(text, 8);
    forall j | 1 <= j < 8 ensures !ChesSplitAt(text, j) {
      if j == 4 {
        assert text[5..10][2] == '\n';
      }
    }
    ChesSplitFirst(text, 8);
    assert text[9..10] == "Z";
  }

  /** An unclosed `(` before a line break is part of the name when a later `(` closes the item. */
  lemma ChesSplitUnclosedParen()
    ensures ChesSplit("Ann (X\n(Z)") == Some(("Ann (X", "Z"))
  {
    var text := "Ann (X\n(Z)";
    assert RStrip(text) == text;
    assert RStrip(text[..7]) == "Ann (X" by {
      assert text[..7] == "Ann (X\n";
      assert RStrip("Ann (X\n") == RStrip("Ann (X");
    }
    assert ChesSplitAt(text, 7);
    forall j | 1 <= j < 7 ensures !ChesSplitAt(text, j) {
      if j == 4 {
        assert text[5..9][1] == '\n';
      }
    }
    ChesSplitFirst(text, 7);
    assert text[8..9] == "Z";
  }

  function ChesItemMember(raw: string): (r: Option<C.CommitteeMember>)
    ensures r.Some? ==> |r.value.name| > 1 && r.value.role == C.Member
  {
    var text := Strip(raw);
    var (name, affiliation) := match ChesSplit(text)
      case Some((n, a)) => (Collapse(n), Collapse(a))
      case None => (Collapse(text), "");
    if |name| > 1 then Some(C.CommitteeMember(name, affiliation, C.Member)) else None
  }

  /** `_scrape_ches_members_html`: the items of the list under the first member heading only. */
  function ChesHtmlMembers(hs: seq<ChesHeading>): (r: seq<C.CommitteeMember>)
    ensures forall i :: 0 <= i < |r| ==> r[i].role == C.Member
  {
    match FirstIndex(hs, ChesMemberHeading)
    case None => []
    case Some(i) =>
      FilterMapAll(hs[i].items.UnwrapOr([]), ChesItemMember, (m: C.CommitteeMember) => m.role == C.Member);
      FilterMap(hs[i].items.UnwrapOr([]), ChesItemMember)
  }

  /** One entry of the CHES committee JSON. */
  function JsonMember(entry: (string, string)): (r: Option<C.CommitteeMember>)
    ensures r.Some? ==> |r.value.name| > 1 && r.value.role == C.Member
  {
    var name := Collapse(entry.0);
    if |name| > 1 then Some(C.CommitteeMember(name, Collapse(entry.1), C.Member)) else None
  }

  function ChesJsonUrl(year: int): string
  {
    "https://ches.iacr.org/" + IntToString(year) + "/json/artifact.json"
  }

  function ChesHtmlUrl(year: int): string
  {
    "https://ches.iacr.org/" + IntToString(year) + "/artifacts.php"
  }

  /**
   * `scrape_ches_committee`: the JSON members (the committee entries of a
   * 200 answer); with the HTML page, its chairs first and the JSON members,
   * or the page's own list when the JSON gave none, de-duplicated by name;
   * without it, the JSON members as they are; `None` when that is empty.
   */
  function ChesCommittee(json: Option<seq<(string, string)>>, html: Option<seq<ChesHeading>>)
    : Option<seq<C.CommitteeMember>>
  {
    var fromJson := FilterMap(json.UnwrapOr([]), JsonMember);
    match html
    case Some(hs) =>
      var members := if fromJson == [] then ChesHtmlMembers(hs) else fromJson;
      var deduped := DedupByName(ChesChairs(hs) + members);
      if deduped == [] then None else Some(deduped)
    case None => if fromJson == [] then None else Some(fromJson)
  }

  /** Without the HTML page the JSON members are returned as they are, repeated names included. */
  lemma ChesJsonOnlyKeepsRepeats(json: seq<(string, string)>)
    requires FilterMap(json, JsonMember) != []
    ensures ChesCommittee(Some(json), None) == Some(FilterMap(json, JsonMember))
  {
  }

  /** With the HTML page, chairs come first and each lower-cased name once. */
  lemma ChesCommitteeShape(json: Option<seq<(string, string)>>, hs: seq<ChesHeading>)
    ensures ChesCommittee(json, Some(hs)).Some? ==>
      var r := ChesCommittee(json, Some(hs)).value;
      ChairsBeforeMembers(r) && forall i, j :: 0 <= i < j < |r| ==> NameKey(r[i]) != NameKey(r[j])
  {
    var fromJson := FilterMap(json.UnwrapOr([]), JsonMember);
    var members := if fromJson == [] then ChesHtmlMembers(hs) else fromJson;
    var chairs := ChesChairs(hs);
    FilterMapAll(json.UnwrapOr([]), JsonMember, (m: C.CommitteeMember) => m.role == C.Member);
    ChairWins(chairs, members);
  }

  // ---------------------------------------------------------------------
  // PETS

  /** A `<dt>` of the call for papers with the `<dd>` texts that follow it up to the next `<dt>`. */
  datatype Dt = Dt(text: string, dds: seq<string>)

  predicate CommitteeDt(dt: Dt)
  {
    var t := Lower(dt.text);
    Contains(t, "artifact") && Contains(t, "committee")
  }

  /** One `<dd>`: at least three characters, split at the first comma, a cleaned name longer than two. */
  function PetsEntry(raw: string): (r: Option<C.CommitteeMember>)
    ensures r.Some? ==> |r.value.name| > 2 && |Strip(raw)| >= 3
  {
    var text := Strip(raw);
    if |text| < 3 then None
    else
      var (n, a) := CommaSplit(text);
      var name := CleanText(n);
      if |name| > 2 then Some(C.CommitteeMember(name, CleanText(a), C.Member)) else None
  }

  function PetsUrl(year: int): string
  {
    "https://petsymposium.org/cfp" + UsenixScrape.YearSuffix(year) + ".php"
  }

  /** `scrape_pets_committee` on a fetched page: the entries under the first committee term, `None` if there are none. */
  function PetsCommittee(dts: seq<Dt>): (r: Option<seq<C.CommitteeMember>>)
    ensures r.Some? ==> r.value != []
  {
    match FirstIndex(dts, CommitteeDt)
    case None => None
    case Some(i) =>
      var members := FilterMap(dts[i].dds, PetsEntry);
      if members == [] then None else Some(members)
  }

  // ---------------------------------------------------------------------
  // Dispatch

  /** What the sites answer: `None` for a page that is missing or fails to load. */
  datatype Sites = Sites(usenix: string -> Option<seq<Heading>>,
                         chesJson: string -> Option<seq<(string, string)>>,
                         chesHtml: string -> Option<seq<ChesHeading>>,
                         pets: string -> Option<seq<Dt>>)

  function UsenixCommittee(conference: string, year: int, fetch: string -> Option<seq<Heading>>)
    : Option<seq<C.CommitteeMember>>
  {
    match CallForArtifactsUrl(conference, year)
    case None => None
    case Some(url) =>
      match fetch(url)
      case None => None
      case Some(hs) => if UsenixPageCommittee(hs) == [] then None else Some(UsenixPageCommittee(hs))
  }

  /**
   * The committee `get_alternative_committees` stores for a key: keys that
   * are not letters and four digits are skipped; a USENIX conference, then
   * `ches`, then `pets` is asked; only a non-empty committee is stored.
   */
  function AlternativeCommittee(key: string, sites: Sites): Option<seq<C.CommitteeMember>>
  {
    match SplitConfYear(key)
    case None => None
    case Some((letters, digits)) =>
      var conf := Lower(letters);
      var year := ParseDigits(digits);
      var committee :=
        if conf in UsenixSlugs then UsenixCommittee(conf, year, sites.usenix)
        else if conf == "ches" then
          ChesCommittee(sites.chesJson(ChesJsonUrl(year)), sites.chesHtml(ChesHtmlUrl(year)))
        else if conf == "pets" then
          match sites.pets(PetsUrl(year))
          case None => None
          case Some(dts) => PetsCommittee(dts)
        else None;
      if committee.Some? && committee.value != [] then committee else None
  }

  /** `get_alternative_committees`: the committees found, by key. */
  method GetAlternativeCommittees(needed: seq<string>, sites: Sites)
    returns (results: map<string, seq<C.CommitteeMember>>)
    ensures forall k :: k in results <==> k in needed && AlternativeCommittee(k, sites).Some?
    ensures forall k :: k in results ==> results[k] == AlternativeCommittee(k, sites).value
  {
    results := CollectFound(needed, (k: string) => AlternativeCommittee(k, sites));
  }

  /** Stored committees are never empty, and keys that are not a conference and a year are never stored. */
  lemma StoredCommittees(key: string, sites: Sites)
    ensures AlternativeCommittee(key, sites).Some? ==> AlternativeCommittee(key, sites).value != []
    ensures SplitConfYear(key).None? ==> AlternativeCommittee(key, sites).None?
  {
  }
}
