/**
 * `generate_sysartifacts_results.py`: the sysartifacts `results.md` page of
 * one USENIX conference year, built from its scraped papers: YAML front
 * matter listing every badged paper, the badge totals, then a Liquid table
 * that renders the list.
 */
module ResultsMd {
  import opened Wrappers
  import opened Strings
  import opened Seqs
  import opened UsenixScrape

  // ---------------------------------------------------------------------
  // Badge totals

  predicate HasBadge(b: string, p: UsenixPaper)
  {
    b in p.badges
  }

  function Holds(b: string): UsenixPaper -> bool
  {
    (p: UsenixPaper) => HasBadge(b, p)
  }

  /** The number of papers that carry badge `b`. */
  function BadgeTotal(papers: seq<UsenixPaper>, b: string): nat
  {
    Count(papers, Holds(b))
  }

  /**
   * A total counts the papers whose badge list holds exactly the string
   * `b`: it is the number of such papers, zero exactly when there is none,
   * and the number of papers exactly when every paper has the badge.
   */
  lemma BadgeTotalMeaning(papers: seq<UsenixPaper>, b: string)
    ensures BadgeTotal(papers, b) == |Filter(papers, Holds(b))|
    ensures BadgeTotal(papers, b) > 0 <==> exists i :: 0 <= i < |papers| && b in papers[i].badges
    ensures (forall i :: 0 <= i < |papers| ==> b in papers[i].badges) ==> BadgeTotal(papers, b) == |papers|
  {
    CountIsFilterLength(papers, Holds(b));
    CountPositive(papers, Holds(b));
    if forall i :: 0 <= i < |papers| ==> b in papers[i].badges {
      CountAll(papers, Holds(b));
    }
  }

  // ---------------------------------------------------------------------
  // Titles in double-quoted YAML scalars

  /** The escaping as the program writes it: each double quote gets a backslash before it, and nothing else changes. */
  function EscapeQuotes(t: string): string
  {
    ReplaceChar(t, '"', "\\\"")
  }

  /**
   * The escape of a single-character escape sequence `\c` in a YAML 1.2
   * double-quoted scalar (section 5.7 of the YAML 1.2 specification); the
   * hexadecimal escapes `\x`, `\u` and `\U` are not decoded here.
   */
  function YamlEscape(c: char): Option<char>
  {
    match c
    case '0' => Some('\0')
    case 'a' => Some('\U{7}')
    case 'b' => Some('\U{8}')
    case 't' => Some('\t')
    case '\t' => Some('\t')
    case 'n' => Some('\n')
    case 'v' => Some('\U{B}')
    case 'f' => Some('\U{C}')
    case 'r' => Some('\r')
    case 'e' => Some('\U{1B}')
    case ' ' => Some(' ')
    case '"' => Some('"')
    case '/' => Some('/')
    case '\\' => Some('\\')
    case 'N' => Some('\U{85}')
    case '_' => Some('\U{A0}')
    case 'L' => Some('\U{2028}')
    case 'P' => Some('\U{2029}')
    case _ => None
  }

  /** A character a one-line double-quoted scalar may hold as itself (tab or from U+0020 on). */
  predicate Plain(c: char)
  {
    c == '\t' || c >= ' '
  }

  /**
   * The value a YAML reader takes from the text `s` written between the
   * quotes of a one-line double-quoted scalar; `None` when the scalar would
   * not end at the closing quote (an unescaped `"` inside, or a `\` that
   * escapes the closing quote), or holds what it may not (a control
   * character, an unknown escape).
   */
  function DecodeQuoted(s: string): (r: Option<string>)
    decreases |s|
  {
    if |s| == 0 then Some("")
    else if s[0] == '"' || !Plain(s[0]) then None
    else if s[0] == '\\' then
      if |s| == 1 then None
      else match YamlEscape(s[1])
        case None => None
        case Some(c) =>
          match DecodeQuoted(s[2..])
          case None => None
          case Some(rest) => Some([c] + rest)
    else
      match DecodeQuoted(s[1..])
      case None => None
      case Some(rest) => Some([s[0]] + rest)
  }

  /**
   * A backslash in a title followed by a letter YAML reads as an escape
   * comes back as that escape: the title made of `\` and `n` reads as a
   * line break.
   */
  lemma BackslashEscapeMisreads(c: char)
    requires c != '"' && c != '\\' && YamlEscape(c).Some?
    ensures DecodeQuoted(EscapeQuotes(['\\', c])) == Some([YamlEscape(c).value])
    ensures DecodeQuoted(EscapeQuotes(['\\', c])) != Some(['\\', c])
  {
    var t := ['\\', c];
    assert ReplaceChar(t[1..], '"', "\\\"") == [c];
    assert EscapeQuotes(t) == t;
    assert t[2..] == [] && DecodeQuoted(t[2..]) == Some([]);
    assert t[0] == '\\' && Plain(t[0]) && t[1] == c;
    assert DecodeQuoted(t) == Some([YamlEscape(c).value] + []);
    assert [YamlEscape(c).value] + [] == [YamlEscape(c).value];
    assert |[YamlEscape(c).value]| != |t|;
  }

  /** A title ending in a backslash escapes the closing quote: the title `\` leaves the scalar unclosed. */
  lemma TrailingBackslashUnclosed()
    ensures DecodeQuoted(EscapeQuotes("\\")) == None
  {
    assert EscapeQuotes("\\") == "\\";
  }

  /** The escaping evidently intended: backslashes doubled, then quotes escaped. */
  function EscapeTitle(t: string): (r: string)
    decreases |t|
  {
    if |t| == 0 then ""
    else (if t[0] == '\\' then "\\\\" else if t[0] == '"' then "\\\"" else [t[0]]) + EscapeTitle(t[1..])
  }

  lemma {:induction false} ReplaceCharAppend(a: string, b: string, c: char, repl: string)
    ensures ReplaceChar(a + b, c, repl) == ReplaceChar(a, c, repl) + ReplaceChar(b, c, repl)
    decreases |a|
  {
    if |a| > 0 {
      assert (a + b)[1..] == a[1..] + b;
      ReplaceCharAppend(a[1..], b, c, repl);
    } else {
      assert a + b == b;
    }
  }

  /** `EscapeTitle` is the replacement of each backslash by two, followed by the quote escaping. */
  lemma {:induction false} EscapeTitleReplaces(t: string)
    ensures EscapeTitle(t) == ReplaceChar(ReplaceChar(t, '\\', "\\\\"), '"', "\\\"")
    decreases |t|
  {
    if |t| > 0 {
      EscapeTitleReplaces(t[1..]);
      var head := if t[0] == '\\' then "\\\\" else [t[0]];
      assert ReplaceChar(t, '\\', "\\\\") == head + ReplaceChar(t[1..], '\\', "\\\\");
      ReplaceCharAppend(head, ReplaceChar(t[1..], '\\', "\\\\"), '"', "\\\"");
      if t[0] == '\\' {
        assert ReplaceChar(head, '"', "\\\"") == "\\\\";
      } else {
        assert ReplaceChar(head, '"', "\\\"") == if t[0] == '"' then "\\\"" else [t[0]];
      }
    }
  }

  /** Every title without control characters reads back from its escaped form unchanged. */
  lemma {:induction false} EscapeTitleRoundTrip(t: string)
    requires forall i :: 0 <= i < |t| ==> Plain(t[i])
    ensures DecodeQuoted(EscapeTitle(t)) == Some(t)
    decreases |t|
  {
    if |t| > 0 {
      EscapeTitleRoundTrip(t[1..]);
      var e := EscapeTitle(t);
      var rest := EscapeTitle(t[1..]);
      if t[0] == '\\' || t[0] == '"' {
        assert e == ['\\', t[0]] + rest;
        assert e[2..] == rest;
      } else {
        assert e == [t[0]] + rest;
        assert e[1..] == rest;
      }
      assert [t[0]] + t[1..] == t;
    }
  }

  // ---------------------------------------------------------------------
  // The artifacts list of the front matter

  function TitleLine(p: UsenixPaper): string
  {
    "  - title: \"" + EscapeQuotes(p.title) + "\""
  }

  function UrlLine(p: UsenixPaper): string
  {
    "    paper_url: \"" + p.paperUrl + "\""
  }

  function BadgesLine(p: UsenixPaper): string
  {
    "    badges: \"" + Join(",", p.badges) + "\""
  }

  /** The four (or three, without a paper URL) lines one paper contributes. */
  function PaperLines(p: UsenixPaper): seq<string>
  {
    [TitleLine(p)] + (if p.paperUrl != "" then [UrlLine(p)] else []) + [BadgesLine(p), ""]
  }

  /** `artifact_lines`: the lines of every paper, in input order. */
  function ArtifactLines(papers: seq<UsenixPaper>): seq<string>
    decreases |papers|
  {
    if |papers| == 0 then [] else PaperLines(papers[0]) + ArtifactLines(papers[1..])
  }

  lemma {:induction false} ArtifactLinesSnoc(papers: seq<UsenixPaper>, i: nat)
    requires i < |papers|
    ensures ArtifactLines(papers[..i + 1]) == ArtifactLines(papers[..i]) + PaperLines(papers[i])
    decreases i
  {
    if i > 0 {
      ArtifactLinesSnoc(papers[1..], i - 1);
      assert papers[1..][..i] == papers[..i + 1][1..];
      assert papers[1..][..i - 1] == papers[..i][1..];
      assert papers[1..][i - 1] == papers[i];
    } else {
      assert papers[..1] == [papers[0]];
      assert papers[..1][1..] == [];
    }
  }

  /** What a reader of the list takes from one paper: the quoted title text, the URL or `""`, the badges text. */
  datatype Entry = Entry(title: string, paperUrl: string, badges: string)

  function EntryOf(p: UsenixPaper): Entry
  {
    Entry(EscapeQuotes(p.title), p.paperUrl, Join(",", p.badges))
  }

  const TitleOpen: string := "  - title: \""
  const UrlOpen: string := "    paper_url: \""
  const BadgesOpen: string := "    badges: \""

  /** The text of a line `open + text + "\""`, if it has that shape. */
  function Quoted(line: string, open: string): Option<string>
  {
    if |line| >= |open| + 1 && line[..|open|] == open && line[|line| - 1] == '"' then Some(line[|open|..|line| - 1])
    else None
  }

  /**
   * Reads the list back line by line: a title line, an optional URL line,
   * a badges line and a blank line per entry.
   */
  function ReadEntries(lines: seq<string>): (r: Option<seq<Entry>>)
    decreases |lines|
  {
    if |lines| == 0 then Some([])
    else
      match Quoted(lines[0], TitleOpen)
      case None => None
      case Some(title) =>
        var url := if |lines| > 1 then Quoted(lines[1], UrlOpen) else None;
        var at := if url.Some? then 2 else 1;
        if at + 1 < |lines| && Quoted(lines[at], BadgesOpen).Some? && lines[at + 1] == "" then
          match ReadEntries(lines[at + 2..])
          case None => None
          case Some(rest) =>
            Some([Entry(title, url.UnwrapOr(""), Quoted(lines[at], BadgesOpen).value)] + rest)
        else None
  }

  lemma QuotedLine(open: string, text: string)
    ensures Quoted(open + text + "\"", open) == Some(text)
  {
    var line := open + text + "\"";
    assert line[..|open|] == open;
    assert line[|open|..|line| - 1] == text;
  }

  /** A badges line is never read as a URL line: they differ at their fifth character. */
  lemma BadgesNotUrl(p: UsenixPaper)
    ensures Quoted(BadgesLine(p), UrlOpen).None?
  {
    var line := BadgesLine(p);
    assert line[4] == 'b';
    assert UrlOpen[4] == 'p';
    if |line| >= |UrlOpen| + 1 {
      assert line[..|UrlOpen|][4] == 'b';
    }
  }

  lemma PaperRead(p: UsenixPaper, rest: seq<string>)
    ensures ReadEntries(PaperLines(p) + rest) ==
      match ReadEntries(rest) case None => None case Some(es) => Some([EntryOf(p)] + es)
  {
    var lines := PaperLines(p) + rest;
    QuotedLine(TitleOpen, EscapeQuotes(p.title));
    QuotedLine(BadgesOpen, Join(",", p.badges));
    if p.paperUrl != "" {
      QuotedLine(UrlOpen, p.paperUrl);
      assert lines[0] == TitleLine(p) && lines[1] == UrlLine(p) && lines[2] == BadgesLine(p) && lines[3] == "";
      assert lines[4..] == rest;
    } else {
      BadgesNotUrl(p);
      assert lines[0] == TitleLine(p) && lines[1] == BadgesLine(p) && lines[2] == "";
      assert lines[3..] == rest;
    }
  }

  /**
   * The list reads back as one entry per paper, in order: its escaped
   * title, its URL exactly when it has one, and its comma-joined badges.
   */
  lemma {:induction false} ArtifactLinesRead(papers: seq<UsenixPaper>)
    ensures ReadEntries(ArtifactLines(papers)) == Some(MapSeq(papers, EntryOf))
    decreases |papers|
  {
    if |papers| > 0 {
      ArtifactLinesRead(papers[1..]);
      PaperRead(papers[0], ArtifactLines(papers[1..]));
      MapSeqCons(papers, EntryOf);
    }
  }

  lemma {:induction false} MapSeqCons<A, B>(s: seq<A>, f: A -> B)
    requires |s| > 0
    ensures MapSeq(s, f) == [f(s[0])] + MapSeq(s[1..], f)
  {
    MapSeqPointwise(s, [f(s[0])] + MapSeq(s[1..], f), f);
  }

  /** The loop filling `artifact_lines`. */
  method BuildArtifactLines(papers: seq<UsenixPaper>) returns (lines: seq<string>)
    ensures lines == ArtifactLines(papers)
  {
    lines := [];
    for i := 0 to |papers|
      invariant lines == ArtifactLines(papers[..i])
    {
      ArtifactLinesSnoc(papers, i);
      var p := papers[i];
      var title := EscapeQuotes(p.title);
      var badges := Join(",", p.badges);
      lines := lines + ["  - title: \"" + title + "\""];
      if p.paperUrl != "" {
        lines := lines + ["    paper_url: \"" + p.paperUrl + "\""];
      }
      lines := lines + ["    badges: \"" + badges + "\""];
      lines := lines + [""];
    }
    assert papers[..|papers|] == papers;
  }

  /** The artifact lines joined by line breaks, trailing white space removed. */
  function ArtifactsYaml(papers: seq<UsenixPaper>): string
  {
    RStrip(Join("\n", ArtifactLines(papers)))
  }

  lemma {:induction false} JoinSnoc(sep: string, parts: seq<string>, x: string)
    requires |parts| > 0
    ensures Join(sep, parts + [x]) == Join(sep, parts) + sep + x
    decreases |parts|
  {
    if |parts| > 1 {
      assert (parts + [x])[1..] == parts[1..] + [x];
      JoinSnoc(sep, parts[1..], x);
    } else {
      assert parts + [x] == [parts[0], x];
      assert [parts[0], x][1..] == [x];
    }
  }

  lemma {:induction false} JoinEndsWith(sep: string, parts: seq<string>)
    requires |parts| > 0 && |parts[|parts| - 1]| > 0
    ensures var j := Join(sep, parts); |j| > 0 && j[|j| - 1] == parts[|parts| - 1][|parts[|parts| - 1]| - 1]
    decreases |parts|
  {
    if |parts| > 1 {
      JoinEndsWith(sep, parts[1..]);
    }
  }

  lemma ArtifactLinesShape(papers: seq<UsenixPaper>)
    requires |papers| > 0
    ensures var lines := ArtifactLines(papers);
      |lines| >= 2 && lines[|lines| - 1] == "" && lines[|lines| - 2] == BadgesLine(papers[|papers| - 1])
  {
    var n := |papers| - 1;
    ArtifactLinesSnoc(papers, n);
    assert papers[..n + 1] == papers;
  }

  /** Stripping a text that ends in a quote and a line break removes only the line break. */
  lemma RStripLineBreak(j: string)
    requires |j| > 0 && j[|j| - 1] == '"'
    ensures RStrip(j + "\n" + "") == j
  {
    var t := j + "\n" + "";
    assert t[..|t| - 1] == j;
  }

  /**
   * Stripping the joined list removes exactly the blank line after the last
   * paper, so the block ends with its last badges line; with no papers the
   * block is empty. Either way it has no trailing white space.
   */
  lemma ArtifactsYamlTrim(papers: seq<UsenixPaper>)
    ensures |papers| == 0 ==> ArtifactsYaml(papers) == ""
    ensures |papers| > 0 ==> var lines := ArtifactLines(papers);
      ArtifactsYaml(papers) == Join("\n", lines[..|lines| - 1])
    ensures var y := ArtifactsYaml(papers); |y| > 0 ==> !IsSpace(y[|y| - 1])
  {
    if |papers| > 0 {
      ArtifactsYamlLast(papers);
    } else {
      RStripEnd(Join("\n", ArtifactLines(papers)));
    }
  }

  /** With at least one paper the block is the list without its last, blank line, and ends with a quote. */
  lemma ArtifactsYamlLast(papers: seq<UsenixPaper>)
    requires |papers| > 0
    ensures var lines := ArtifactLines(papers); ArtifactsYaml(papers) == Join("\n", lines[..|lines| - 1])
    ensures var y := ArtifactsYaml(papers); |y| > 0 && y[|y| - 1] == '"'
  {
    ArtifactLinesShape(papers);
    var lines := ArtifactLines(papers);
    var init := lines[..|lines| - 1];
    assert lines == init + [""];
    JoinSnoc("\n", init, "");
    JoinEndsWith("\n", init);
    RStripLineBreak(Join("\n", init));
  }

  // ---------------------------------------------------------------------
  // The document

  /** The fixed fields of the front matter, before `artifacts:`. */
  const FrontFields: string :=
    "title: Results\n"
    + "order: 50\n"
    + "available_img: \"usenix_available.svg\"\n"
    + "available_name: \"Artifacts Available\"\n"
    + "functional_img: \"usenix_functional.svg\"\n"
    + "functional_name: \"Artifacts Evaluated - Functional\"\n"
    + "reproduced_img: \"usenix_reproduced.svg\"\n"
    + "reproduced_name: \"Results Reproduced\"\n"
    + "\n"

  /** The Liquid table after the totals, with the f-string's doubled braces single. */
  const Table: string :=
    "<table>\n"
    + "  <thead>\n"
    + "    <tr>\n"
    + "      <th>Paper title</th>\n"
    + "      <th>Avail.</th>\n"
    + "      <th>Funct.</th>\n"
    + "      <th>Repro.</th>\n"
    + "    </tr>\n"
    + "  </thead>\n"
    + "  <tbody>\n"
    + "  {% for artifact in page.artifacts %}\n"
    + "    <tr>\n"
    + "      <td>\n"
    + "        {% if artifact.paper_url %}\n"
    + "          <a href=\"{{artifact.paper_url}}\" target=\"_blank\">{{artifact.title}}</a>\n"
    + "        {% else %}\n"
    + "          {{ artifact.title }}\n"
    + "        {% endif %}\n"
    + "      </td>\n"
    + "      <td>\n"
    + "        {% if artifact.badges contains \"available\" %}\n"
    + "          <img src=\"{{ site.baseurl }}/images/{{ page.available_img }}\" alt=\"{{ page.available_name }}\" width=\"50px\">\n"
    + "        {% endif %}\n"
    + "      </td>\n"
    + "      <td>\n"
    + "        {% if artifact.badges contains \"functional\" %}\n"
    + "          <img src=\"{{ site.baseurl }}/images/{{ page.functional_img }}\" alt=\"{{ page.functional_name }}\" width=\"50px\">\n"
    + "        {% endif %}\n"
    + "      </td>\n"
    + "      <td>\n"
    + "        {% if artifact.badges contains \"reproduced\" %}\n"
    + "          <img src=\"{{ site.baseurl }}/images/{{ page.reproduced_img }}\" alt=\"{{ page.reproduced_name }}\" width=\"50px\">\n"
    + "        {% endif %}\n"
    + "      </td>\n"
    + "    </tr>\n"
    + "  {% endfor %}\n"
    + "  </tbody>\n"
    + "</table>\n"

  /** `body` between two lines `---`. */
  function Fenced(body: string): string
  {
    "---\n" + body + "\n---\n"
  }

  /** The front matter: the fixed fields and the artifacts block, fenced. */
  function FrontMatter(papers: seq<UsenixPaper>): string
  {
    Fenced(FrontFields + "artifacts:\n" + ArtifactsYaml(papers))
  }

  /** The totals paragraph under the front matter. */
  function Totals(papers: seq<UsenixPaper>): string
  {
    "\n**Evaluation Results**:\n\n"
    + "* " + NatToString(BadgeTotal(papers, "available")) + " Artifacts Available\n"
    + "* " + NatToString(BadgeTotal(papers, "functional")) + " Artifacts Functional\n"
    + "* " + NatToString(BadgeTotal(papers, "reproduced")) + " Results Reproduced\n\n"
  }

  /** `generate_results_md`: the whole page (the conference and year are not used). */
  function Document(papers: seq<UsenixPaper>): string
  {
    FrontMatter(papers) + Totals(papers) + Table
  }

  lemma {:induction false} FencedShape(body: string)
    ensures var f := Fenced(body);
      && |f| == |body| + 9
      && f[..4] == "---\n" && f[4..|f| - 5] == body && f[|f| - 5..] == "\n---\n"
  {
    var f := Fenced(body);
    assert f == "---\n" + body + "\n---\n";
    assert f[..4] == "---\n";
    assert f[4..|f| - 5] == body;
  }

  lemma {:induction false} EndsWithPart(head: string, y: string)
    ensures (head + y)[|head|..] == y
  {
  }

  /**
   * The page opens with a `---` line and its front matter closes with a
   * `---` line right after the artifacts block, which itself ends without
   * white space, so the closing `---` stands on a line of its own.
   */
  lemma FrontMatterDelimited(papers: seq<UsenixPaper>)
    ensures var f := FrontMatter(papers); var y := ArtifactsYaml(papers);
      && f[..4] == "---\n"
      && f[|f| - 5..] == "\n---\n"
      && f[4..|f| - 5][|f| - 9 - |y|..] == y
      && (|y| > 0 ==> !IsSpace(y[|y| - 1]))
  {
    var y := ArtifactsYaml(papers);
    var head := FrontFields + "artifacts:\n";
    FencedShape(head + y);
    EndsWithPart(head, y);
    ArtifactsYamlTrim(papers);
  }

  // ---------------------------------------------------------------------
  // main: the pages written

  /** The paper has at least one badge. */
  predicate Badged(p: UsenixPaper)
  {
    |p.badges| > 0
  }

  function IsBadged(): UsenixPaper -> bool
  {
    (p: UsenixPaper) => Badged(p)
  }

  /** The directory prefix given, or else the conference name, in lower case (the conference is already lower-cased). */
  function DirPrefix(conference: string, dirPrefix: Option<string>): string
  {
    if dirPrefix.Some? && dirPrefix.value != "" then Lower(dirPrefix.value) else Lower(Lower(conference))
  }

  /** One page to write: its path under the output directory and the papers it lists. */
  datatype Page = Page(path: string, papers: seq<UsenixPaper>)

  /** The page of one year, or `None` when none of its papers has a badge. */
  function YearPage(prefix: string, scrape: int -> seq<UsenixPaper>, year: int): Option<Page>
  {
    var papers := Filter(scrape(year), IsBadged());
    if |papers| == 0 then None else Some(Page(prefix + YearSuffix(year) + "/results.md", papers))
  }

  function YearPageOf(prefix: string, scrape: int -> seq<UsenixPaper>): int -> Option<Page>
  {
    (year: int) => YearPage(prefix, scrape, year)
  }

  /**
   * A year gets a page exactly when one of its scraped papers has a badge;
   * the page lists exactly the badged papers, in scraped order, and for a
   * four-digit year goes to `<prefix><last two digits>/results.md`.
   */
  lemma YearPageMeaning(prefix: string, scrape: int -> seq<UsenixPaper>, year: int)
    ensures var all := scrape(year);
      YearPage(prefix, scrape, year).Some? <==> exists i :: 0 <= i < |all| && |all[i].badges| > 0
    ensures var page := YearPage(prefix, scrape, year);
      page.Some? ==> page.value.papers == Filter(scrape(year), IsBadged())
    ensures forall p :: p in Filter(scrape(year), IsBadged()) <==> p in scrape(year) && |p.badges| > 0
    ensures 1000 <= year <= 9999 && YearPage(prefix, scrape, year).Some? ==>
      YearPage(prefix, scrape, year).value.path
        == prefix + [DigitChar(year / 10 % 10), DigitChar(year % 10)] + "/results.md"
  {
    var all := scrape(year);
    CountIsFilterLength(all, IsBadged());
    CountPositive(all, IsBadged());
    forall p ensures p in Filter(all, IsBadged()) <==> p in all && |p.badges| > 0 {
      FilterMembers(all, IsBadged(), p);
    }
    if 1000 <= year <= 9999 {
      FourDigitYearSuffix(year);
    }
  }

  /** A file written: its path and its text. */
  datatype File = File(path: string, content: string)

  function Render(page: Page): File
  {
    File(page.path, Document(page.papers))
  }

  /** `generate_results_md` as the loop computes it: the artifact lines first, then the page text. */
  method RenderPage(papers: seq<UsenixPaper>) returns (content: string)
    ensures content == Document(papers)
  {
    var lines := BuildArtifactLines(papers);
    var yaml := RStrip(Join("\n", lines));
    assert yaml == ArtifactsYaml(papers);
    content := Fenced(FrontFields + "artifacts:\n" + yaml) + Totals(papers) + Table;
  }

  /** The file of one page. */
  method WritePage(page: Page) returns (file: File)
    ensures file == Render(page)
  {
    var content := RenderPage(page.papers);
    file := File(page.path, content);
  }

  /** The year loop of `main`: one file per year with badged papers, in year order. */
  method WritePages(conference: string, dirPrefix: Option<string>, years: seq<int>, scrape: int -> seq<UsenixPaper>)
    returns (files: seq<File>)
    ensures files == MapSeq(FilterMap(years, YearPageOf(DirPrefix(conference, dirPrefix), scrape)), Render)
  {
    var conf := Lower(conference);
    var prefix := if dirPrefix.Some? && dirPrefix.value != "" then Lower(dirPrefix.value) else Lower(conf);
    ghost var pages: seq<Page> := [];
    files := [];
    for i := 0 to |years|
      invariant pages == FilterMap(years[..i], YearPageOf(prefix, scrape))
      invariant files == MapSeq(pages, Render)
    {
      FilterMapSnoc(years, i, YearPageOf(prefix, scrape));
      var year := years[i];
      var papers := Filter(scrape(year), IsBadged());
      if |papers| == 0 {
        continue;
      }
      var page := Page(prefix + YearSuffix(year) + "/results.md", papers);
      var file := WritePage(page);
      MapSeqSnocAt(pages, page, Render);
      pages := pages + [page];
      files := files + [file];
    }
    assert years[..|years|] == years;
  }

  lemma MapSeqSnocAt<A, B>(s: seq<A>, x: A, f: A -> B)
    ensures MapSeq(s + [x], f) == MapSeq(s, f) + [f(x)]
  {
    assert (s + [x])[..|s|] == s;
  }
}
