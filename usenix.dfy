/**
 * The USENIX technical-sessions scraper: the year suffix of a program URL,
 * the presentation links of a program page, the fields and badges of one
 * presentation page, and the conversion to the pipeline's record format.
 *
 * A parsed page is given as the values the HTML parser would find on it:
 * the `href`s of its links, its title text, its authors text, the `src`
 * attributes of the badge images and the PDF link.
 */
module UsenixScrape {
  import opened Wrappers
  import opened Strings
  import opened Json
  import opened Seqs
  import opened Ordering

  const BaseUrl: string := "https://www.usenix.org"

  /** `_year_suffix`: the decimal text of the year without its first two characters. */
  function YearSuffix(year: int): string
  {
    var s := IntToString(year);
    if |s| >= 2 then s[2..] else ""
  }

  /** For a four-digit year the suffix is its last two digits, as in 2025 and `25`. */
  lemma FourDigitYearSuffix(year: int)
    requires 1000 <= year <= 9999
    ensures YearSuffix(year) == [DigitChar(year / 10 % 10), DigitChar(year % 10)]
  {
    var s := NatToString(year);
    assert s == NatToString(year / 10) + [DigitChar(year % 10)];
    assert NatToString(year / 10) == NatToString(year / 100) + [DigitChar(year / 10 % 10)];
    assert NatToString(year / 100) == NatToString(year / 1000) + [DigitChar(year / 100 % 10)];
    assert |NatToString(year / 1000)| == 1;
    assert |s| == 4;
  }

  /** The path prefix of a presentation page of `conference` in `year`. */
  function PresentationPrefix(conference: string, year: int): string
  {
    "/conference/" + conference + YearSuffix(year) + "/presentation/"
  }

  /**
   * The link filter of `scrape_presentation_links`: the `href`s that start
   * with the presentation prefix, each once, in ascending order.
   */
  method PresentationLinks(conference: string, year: int, hrefs: seq<string>) returns (links: seq<string>)
    ensures AscendingBy(links, StrOrder())
    ensures forall h :: h in links <==> h in hrefs && PresentationPrefix(conference, year) <= h
  {
    var prefix := PresentationPrefix(conference, year);
    var found: set<string> := {};
    var i := 0;
    while i < |hrefs|
      invariant 0 <= i <= |hrefs|
      invariant forall h :: h in found <==> h in hrefs[..i] && prefix <= h
    {
      if prefix <= hrefs[i] {
        found := found + {hrefs[i]};
      }
      i := i + 1;
    }
    assert hrefs[..i] == hrefs;
    StrOrderStrictTotal();
    links := SortSet(found, StrOrder());
  }

  /** What the parser finds on a presentation page; `None` for an element that is absent. */
  datatype PaperPage = PaperPage(title: Option<string>, authors: Option<string>,
                                 badgeSrcs: Option<seq<string>>, pdfHref: Option<string>)

  /** A scraped presentation. */
  datatype UsenixPaper = UsenixPaper(title: string, authors: string, badges: seq<string>,
                                     paperUrl: string, presentationUrl: string)

  /** Title prefixes of sessions that are not papers. */
  const SkipPrefixes: seq<string> := ["keynote", "panel", "workshop", "tutorial", "honoring",
    "break", "lunch", "closing", "opening", "reception", "poster session", "work-in-progress"]

  /** A title whose lower-cased text starts with one of the skip prefixes. */
  predicate Skipped(title: string)
  {
    exists i :: 0 <= i < |SkipPrefixes| && SkipPrefixes[i] <= Lower(title)
  }

  /** The badge one image shows: the first of available, functional, reproduced/replicated in its `src`. */
  function SrcBadge(src: string): (r: Option<string>)
    ensures r.Some? ==> r.value in ["available", "functional", "reproduced"]
  {
    var s := Lower(src);
    if Contains(s, "available") then Some("available")
    else if Contains(s, "functional") then Some("functional")
    else if Contains(s, "reproduced") || Contains(s, "replicated") then Some("reproduced")
    else None
  }

  /** The badge loop of `scrape_paper_page`: one badge per recognised image, repeats kept. */
  method PageBadges(srcs: seq<string>) returns (badges: seq<string>)
    ensures badges == FilterMap(srcs, SrcBadge)
  {
    badges := [];
    var i := 0;
    while i < |srcs|
      invariant 0 <= i <= |srcs|
      invariant badges == FilterMap(srcs[..i], SrcBadge)
    {
      assert srcs[..i + 1][..i] == srcs[..i];
      var src := Lower(srcs[i]);
      if Contains(src, "available") {
        badges := badges + ["available"];
      } else if Contains(src, "functional") {
        badges := badges + ["functional"];
      } else if Contains(src, "reproduced") || Contains(src, "replicated") {
        badges := badges + ["reproduced"];
      }
      i := i + 1;
    }
    assert srcs[..i] == srcs;
  }

  /** Every recognised image gives exactly one badge: nothing is merged or dropped. */
  lemma {:induction false} BadgeCount(srcs: seq<string>)
    ensures |FilterMap(srcs, SrcBadge)| == Count(srcs, s => SrcBadge(s).Some?)
    decreases |srcs|
  {
    if |srcs| > 0 {
      BadgeCount(srcs[..|srcs| - 1]);
    }
  }

  /** The USENIX scraper never reports `reusable`. */
  lemma {:induction false} NeverReusable(srcs: seq<string>)
    ensures "reusable" !in FilterMap(srcs, SrcBadge)
    decreases |srcs|
  {
    if |srcs| > 0 {
      NeverReusable(srcs[..|srcs| - 1]);
      var last := SrcBadge(srcs[|srcs| - 1]);
      assert last.Some? ==> last.value != "reusable";
    }
  }

  /** An image shown twice gives its badge twice. */
  lemma RepeatsKept(src: string)
    requires SrcBadge(src).Some?
    ensures FilterMap([src, src], SrcBadge) == [SrcBadge(src).value, SrcBadge(src).value]
  {
    assert [src, src][..1] == [src];
    assert [src][..0] == [];
  }

  /** A site-relative PDF link is made absolute; any other link is kept. */
  function PdfUrl(href: string): (url: string)
    ensures "/" <= href ==> url == BaseUrl + href
    ensures !("/" <= href) ==> url == href
  {
    if "/" <= href then BaseUrl + href else href
  }

  /**
   * `scrape_paper_page` on a parsed page: `None` without a title or for a
   * skipped session; otherwise the title, the authors (empty when absent),
   * the badges of the images, the PDF link and the page's own URL.
   */
  method ScrapePaperPage(path: string, page: PaperPage) returns (paper: Option<UsenixPaper>)
    ensures paper.None? <==> page.title.None? || Skipped(page.title.value)
    ensures paper.Some? ==>
      paper.value.title == page.title.value
      && paper.value.authors == page.authors.UnwrapOr("")
      && paper.value.badges == FilterMap(page.badgeSrcs.UnwrapOr([]), SrcBadge)
      && paper.value.paperUrl == (if page.pdfHref.Some? then PdfUrl(page.pdfHref.value) else "")
      && paper.value.presentationUrl == BaseUrl + path
  {
    if page.title.None? {
      return None;
    }
    var title := page.title.value;
    if Skipped(title) {
      return None;
    }
    var authors := "";
    if page.authors.Some? {
      authors := page.authors.value;
    }
    var badges: seq<string> := [];
    if page.badgeSrcs.Some? {
      badges := PageBadges(page.badgeSrcs.value);
    }
    var paperUrl := "";
    if page.pdfHref.Some? {
      paperUrl := page.pdfHref.value;
      if "/" <= paperUrl {
        paperUrl := BaseUrl + paperUrl;
      }
    }
    paper := Some(UsenixPaper(title, authors, badges, paperUrl, BaseUrl + path));
  }

  /** The pipeline entry of a paper, `None` when it has no badges. */
  function PipelineEntry(p: UsenixPaper): Option<Record>
  {
    if |p.badges| == 0 then None
    else
      var entry := map["title" := Str(p.title), "badges" := Str(Join(",", p.badges))];
      Some(if p.paperUrl != "" then entry["paper_url" := Str(p.paperUrl)] else entry)
  }

  /**
   * A paper gives an entry exactly when it has badges; the entry holds its
   * title and the comma-joined badges, and its `paper_url` exactly when that is non-empty.
   */
  lemma PipelineEntryMeaning(p: UsenixPaper)
    ensures PipelineEntry(p).Some? <==> |p.badges| > 0
    ensures PipelineEntry(p).Some? ==>
      var e := PipelineEntry(p).value;
      e.Keys <= {"title", "badges", "paper_url"}
      && "title" in e && e["title"] == Str(p.title)
      && "badges" in e && e["badges"] == Str(Join(",", p.badges))
      && ("paper_url" in e <==> p.paperUrl != "")
      && ("paper_url" in e ==> e["paper_url"] == Str(p.paperUrl))
  {
  }

  /** `to_pipeline_format`: the entries of the papers with badges, in order. */
  method ToPipelineFormat(papers: seq<UsenixPaper>) returns (pipeline: seq<Record>)
    ensures pipeline == FilterMap(papers, PipelineEntry)
  {
    pipeline := [];
    var i := 0;
    while i < |papers|
      invariant 0 <= i <= |papers|
      invariant pipeline == FilterMap(papers[..i], PipelineEntry)
    {
      assert papers[..i + 1][..i] == papers[..i];
      var p := papers[i];
      if |p.badges| == 0 {
        i := i + 1;
        continue;
      }
      var entry := map["title" := Str(p.title), "badges" := Str(Join(",", p.badges))];
      if p.paperUrl != "" {
        entry := entry["paper_url" := Str(p.paperUrl)];
      }
      pipeline := pipeline + [entry];
      i := i + 1;
    }
    assert papers[..i] == papers;
  }

  /** Exactly the papers with badges reach the pipeline. */
  lemma {:induction false} PipelineKeepsBadged(papers: seq<UsenixPaper>)
    ensures |FilterMap(papers, PipelineEntry)| == Count(papers, (p: UsenixPaper) => |p.badges| > 0)
    decreases |papers|
  {
    if |papers| > 0 {
      PipelineKeepsBadged(papers[..|papers| - 1]);
      PipelineEntryMeaning(papers[|papers| - 1]);
    }
  }
}
