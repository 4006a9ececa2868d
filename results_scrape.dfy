/**
 * Artifact-evaluation results of the sysartifacts / secartifacts sites:
 * which results file is downloaded, and how a results document becomes a
 * list of artifact records (YAML front matter first, then HTML table rows,
 * then raw markdown table rows).
 *
 * The YAML loader and the HTML parser are oracles: `yaml` maps the front
 * matter text to the loaded document, `dom` maps a document to its table
 * rows (cells with their text, links and spans, as BeautifulSoup sees them).
 */
module ResultsScrape {
  import opened Wrappers
  import opened Strings
  import opened Json
  import opened Seqs
  import opened Dicts

  /** The results file names tried, in order. */
  const ResultsFilenames: seq<string> := ["results.md", "result.md"]

  // ---------------------------------------------------------------------
  // Link classification, shared by the HTML and markdown parsers

  datatype LinkKind = RepoLink | ArtifactLink | OtherLink

  /** A link of the URL cell: its kind and its target. */
  datatype ClassifiedLink = ClassifiedLink(kind: LinkKind, href: string)

  /** One step of the link loop: repository links override, other links only fill a gap. */
  function LinkStep(acc: (string, string), link: ClassifiedLink): (string, string)
  {
    match link.kind
    case RepoLink => (link.href, acc.1)
    case ArtifactLink => (acc.0, link.href)
    case OtherLink => if acc.0 == "" then (link.href, acc.1) else acc
  }

  /** The (repository URL, artifact URL) pair the link loop ends with. */
  function ResolvedLinks(links: seq<ClassifiedLink>): (string, string)
    decreases |links|
  {
    if |links| == 0 then ("", "")
    else LinkStep(ResolvedLinks(links[..|links| - 1]), links[|links| - 1])
  }

  /** The target of the last link of the given kind, `""` if there is none. */
  function LastOfKind(links: seq<ClassifiedLink>, kind: LinkKind): string
    decreases |links|
  {
    if |links| == 0 then ""
    else if links[|links| - 1].kind == kind then links[|links| - 1].href
    else LastOfKind(links[..|links| - 1], kind)
  }

  /** The target of the first link of the given kind, `""` if there is none. */
  function FirstOfKind(links: seq<ClassifiedLink>, kind: LinkKind): string
    decreases |links|
  {
    if |links| == 0 then ""
    else if links[0].kind == kind then links[0].href
    else FirstOfKind(links[1..], kind)
  }

  lemma {:induction false} FirstOfKindAppend(links: seq<ClassifiedLink>, x: ClassifiedLink, kind: LinkKind)
    ensures FirstOfKind(links + [x], kind)
            == if FirstOfKind(links, kind) != "" then FirstOfKind(links, kind)
               else if x.kind == kind && (forall i :: 0 <= i < |links| ==> links[i].kind != kind) then x.href
               else FirstOfKind(links, kind)
    decreases |links|
  {
    if |links| > 0 {
      assert (links + [x])[1..] == links[1..] + [x];
      FirstOfKindAppend(links[1..], x, kind);
    }
  }

  /** With non-empty targets, the first link of a kind is empty exactly when no link is of that kind. */
  lemma {:induction false} FirstNoneOfKind(links: seq<ClassifiedLink>, kind: LinkKind)
    requires forall i :: 0 <= i < |links| ==> links[i].href != ""
    ensures FirstOfKind(links, kind) == "" <==> forall i :: 0 <= i < |links| ==> links[i].kind != kind
    decreases |links|
  {
    if |links| > 0 {
      FirstNoneOfKind(links[1..], kind);
      assert forall i :: 1 <= i < |links| ==> links[i] == links[1..][i - 1];
    }
  }

  /** With non-empty targets, the last link of a kind is empty exactly when no link is of that kind. */
  lemma {:induction false} LastNoneOfKind(links: seq<ClassifiedLink>, kind: LinkKind)
    requires forall i :: 0 <= i < |links| ==> links[i].href != ""
    ensures LastOfKind(links, kind) == "" <==> forall i :: 0 <= i < |links| ==> links[i].kind != kind
    decreases |links|
  {
    if |links| > 0 {
      LastNoneOfKind(links[..|links| - 1], kind);
      assert forall i :: 0 <= i < |links| - 1 ==> links[i] == links[..|links| - 1][i];
    }
  }

  /** Both ends at once: the first and the last link of a kind are empty exactly when none is of that kind. */
  lemma NoneOfKind(links: seq<ClassifiedLink>, kind: LinkKind)
    requires forall i :: 0 <= i < |links| ==> links[i].href != ""
    ensures FirstOfKind(links, kind) == "" <==> forall i :: 0 <= i < |links| ==> links[i].kind != kind
    ensures LastOfKind(links, kind) == "" <==> forall i :: 0 <= i < |links| ==> links[i].kind != kind
  {
    FirstNoneOfKind(links, kind);
    LastNoneOfKind(links, kind);
  }

  /**
   * With non-empty targets, the loop's outcome is: the artifact URL is the
   * last artifact-host link; the repository URL is the last repository-host
   * link, or failing that the first other link.
   */
  lemma {:induction false} ResolvedLinksMeaning(links: seq<ClassifiedLink>)
    requires forall i :: 0 <= i < |links| ==> links[i].href != ""
    ensures ResolvedLinks(links).1 == LastOfKind(links, ArtifactLink)
    ensures ResolvedLinks(links).0 ==
      if LastOfKind(links, RepoLink) != "" then LastOfKind(links, RepoLink) else FirstOfKind(links, OtherLink)
    decreases |links|
  {
    if |links| > 0 {
      var init := links[..|links| - 1];
      var x := links[|links| - 1];
      assert links == init + [x];
      ResolvedLinksMeaning(init);
      FirstOfKindAppend(init, x, OtherLink);
      NoneOfKind(init, OtherLink);
      NoneOfKind(init, RepoLink);
    }
  }

  /** The link loop of both parsers. */
  method ResolveLinks(links: seq<ClassifiedLink>) returns (repoUrl: string, artifactUrl: string)
    ensures (repoUrl, artifactUrl) == ResolvedLinks(links)
  {
    repoUrl, artifactUrl := "", "";
    var i := 0;
    while i < |links|
      invariant 0 <= i <= |links|
      invariant (repoUrl, artifactUrl) == ResolvedLinks(links[..i])
    {
      var link := links[i];
      match link.kind {
        case RepoLink => repoUrl := link.href;
        case ArtifactLink => artifactUrl := link.href;
        case OtherLink =>
          if repoUrl == "" {
            repoUrl := link.href;
          }
      }
      assert links[..i + 1][..i] == links[..i];
      i := i + 1;
    }
    assert links[..i] == links;
  }

  /** The artifact record both table parsers emit. */
  function ResultRecord(title: string, badges: seq<string>, paperUrl: string,
                        repoUrl: string, artifactUrl: string): (r: Record)
    ensures "title" in r && r["title"] == Str(title)
    ensures "badges" in r && r["badges"] == Str(Join(",", badges))
    ensures "paper_url" in r <==> paperUrl != ""
    ensures "repository_url" in r <==> repoUrl != ""
    ensures "artifact_url" in r <==> artifactUrl != ""
  {
    map["title" := Str(title), "badges" := Str(Join(",", badges))]
    + (if paperUrl != "" then map["paper_url" := Str(paperUrl)] else map[])
    + (if repoUrl != "" then map["repository_url" := Str(repoUrl)] else map[])
    + (if artifactUrl != "" then map["artifact_url" := Str(artifactUrl)] else map[])
  }

  /** A title the parsers accept: not empty and not the header cell. */
  predicate AcceptedTitle(title: string)
  {
    title != "" && Lower(title) != "paper title"
  }

  // ---------------------------------------------------------------------
  // HTML tables

  datatype HtmlLink = HtmlLink(href: Option<string>, text: string)
  datatype HtmlSpan = HtmlSpan(id: Option<string>, text: string)
  /** A table cell: its stripped text, its links and its spans, in document order. */
  datatype HtmlCell = HtmlCell(text: string, links: seq<HtmlLink>, spans: seq<HtmlSpan>)

  /** The badge one `<span>` stands for: by id first, then by its text. */
  function SpanBadge(span: HtmlSpan): Option<string>
  {
    var id := span.id.UnwrapOr("");
    var t := Lower(span.text);
    if id == "aa" || Contains(t, "available") then Some("available")
    else if id == "af" || Contains(t, "functional") then Some("functional")
    else if id == "rr" || Contains(t, "reproduc") || Contains(t, "replicated") then Some("reproduced")
    else None
  }

  /** The kind of a link in the URL cell of an HTML row, by its text or its target. */
  function HtmlLinkKind(link: HtmlLink): ClassifiedLink
  {
    var href := link.href.UnwrapOr("");
    var t := Lower(link.text);
    var kind :=
      if Contains(t, "github") || Contains(href, "github.com") || Contains(t, "gitlab")
         || Contains(href, "gitlab") || Contains(t, "bitbucket") then RepoLink
      else if Contains(t, "zenodo") || Contains(href, "zenodo.org") || Contains(t, "figshare")
         || Contains(href, "doi.org") then ArtifactLink
      else OtherLink;
    ClassifiedLink(kind, href)
  }

  function HtmlLinkKinds(links: seq<HtmlLink>): (r: seq<ClassifiedLink>)
    ensures |r| == |links|
    ensures forall i :: 0 <= i < |links| ==> r[i] == HtmlLinkKind(links[i])
  {
    seq(|links|, i requires 0 <= i < |links| => HtmlLinkKind(links[i]))
  }

  /** The title of an HTML row: the first link's text, else the cell's text. */
  function HtmlTitle(cell: HtmlCell): string
  {
    if |cell.links| > 0 then cell.links[0].text else cell.text
  }

  /** The record an HTML table row yields, if any. */
  function HtmlRow(cells: seq<HtmlCell>): Option<Record>
  {
    if |cells| < 2 then None
    else
      var title := HtmlTitle(cells[0]);
      if !AcceptedTitle(title) then None
      else
        var paperUrl := if |cells[0].links| > 0 then cells[0].links[0].href.UnwrapOr("") else "";
        var badges := FilterMap(cells[1].spans, SpanBadge);
        var (repoUrl, artifactUrl) :=
          if |cells| > 2 then ResolvedLinks(HtmlLinkKinds(cells[2].links)) else ("", "");
        if |badges| > 0 || repoUrl != "" || artifactUrl != "" then
          Some(ResultRecord(title, badges, paperUrl, repoUrl, artifactUrl))
        else None
  }

  /** The body of `parse_html_results` for one row. */
  method ParseHtmlRow(cells: seq<HtmlCell>) returns (rec: Option<Record>)
    ensures rec == HtmlRow(cells)
  {
    if |cells| < 2 {
      return None;
    }
    var title := HtmlTitle(cells[0]);
    if !AcceptedTitle(title) {
      return None;
    }
    var paperUrl := "";
    if |cells[0].links| > 0 && cells[0].links[0].href.Some? {
      paperUrl := cells[0].links[0].href.value;
    }
    var spans := cells[1].spans;
    var badges: seq<string> := [];
    var i := 0;
    while i < |spans|
      invariant 0 <= i <= |spans|
      invariant badges == FilterMap(spans[..i], SpanBadge)
    {
      var b := SpanBadge(spans[i]);
      if b.Some? {
        badges := badges + [b.value];
      }
      assert spans[..i + 1][..i] == spans[..i];
      i := i + 1;
    }
    assert spans[..i] == spans;
    var repoUrl, artifactUrl := "", "";
    if |cells| > 2 {
      repoUrl, artifactUrl := ResolveLinks(HtmlLinkKinds(cells[2].links));
    }
    if |badges| > 0 || repoUrl != "" || artifactUrl != "" {
      rec := Some(ResultRecord(title, badges, paperUrl, repoUrl, artifactUrl));
    } else {
      rec := None;
    }
  }

  /** `parse_html_results`: one record per accepted row, in document order. */
  method ParseHtmlResults(rows: seq<seq<HtmlCell>>) returns (artifacts: seq<Record>)
    ensures artifacts == FilterMap(rows, HtmlRow)
  {
    artifacts := [];
    var i := 0;
    while i < |rows|
      invariant 0 <= i <= |rows|
      invariant artifacts == FilterMap(rows[..i], HtmlRow)
    {
      var rec := ParseHtmlRow(rows[i]);
      if rec.Some? {
        artifacts := artifacts + [rec.value];
      }
      FilterMapSnoc(rows, i, HtmlRow);
      i := i + 1;
    }
    assert rows[..i] == rows;
  }

  /** An HTML record always has an accepted title and a badge, a repository or an artifact. */
  lemma HtmlRowShape(cells: seq<HtmlCell>)
    requires HtmlRow(cells).Some?
    ensures var r := HtmlRow(cells).value;
      |cells| >= 2 && r["title"] == Str(HtmlTitle(cells[0])) && AcceptedTitle(HtmlTitle(cells[0]))
      && (r["badges"] != Str("") || "repository_url" in r || "artifact_url" in r)
  {
    var badges := FilterMap(cells[1].spans, SpanBadge);
    if |badges| > 0 {
      FilterMapMember(cells[1].spans, SpanBadge, badges[0]);
      JoinNonEmpty(badges);
    }
  }

  lemma JoinNonEmpty(parts: seq<string>)
    requires |parts| > 0 && parts[0] != ""
    ensures Join(",", parts) != ""
  {
    if |parts| > 1 {
      assert |Join(",", parts)| >= |parts[0]|;
    }
  }

  /** HTML badges are not de-duplicated: two available spans give the badge twice. */
  lemma HtmlBadgesKeepRepeats()
    ensures FilterMap([HtmlSpan(Some("aa"), "AVAILABLE"), HtmlSpan(Some("aa"), "")], SpanBadge)
            == ["available", "available"]
  {
    var spans := [HtmlSpan(Some("aa"), "AVAILABLE"), HtmlSpan(Some("aa"), "")];
    assert spans[..1][..0] == [];
    assert spans[..1] == [spans[0]];
  }

  // ---------------------------------------------------------------------
  // Raw markdown tables

  /** The text of the first bracket pair with non-empty text. */
  function BracketText(s: string): (r: Option<string>)
    ensures r.Some? ==> |r.value| > 0 && ']' !in r.value
    decreases |s|
  {
    if |s| == 0 then None
    else if s[0] == '[' then
      match IndexOf(s[1..], "]")
      case Some(j) =>
        if j > 0 then
          IndexOfMeaning(s[1..], "]");
          assert ']' !in s[1..][..j] by {
            forall k | 0 <= k < j ensures s[1..][k] != ']' {
              assert !("]" <= s[1..][k..]);
            }
          }
          Some(s[1..][..j])
        else BracketText(s[1..])
      case None => BracketText(s[1..])
    else BracketText(s[1..])
  }

  /**
   * A markdown link with a non-empty target at the front of `s`: the link
   * text, the target and the length of the link.
   */
  function LinkAtFront(s: string): (r: Option<(string, string, nat)>)
    ensures r.Some? ==> 0 < r.value.2 <= |s| && r.value.1 != ""
  {
    if |s| == 0 || s[0] != '[' then None
    else match FindChar(s[1..], ']')
      case None => None
      case Some(j) =>
        var afterText := 1 + j + 1;
        if afterText < |s| && s[afterText] == '(' then
          match FindChar(s[afterText + 1..], ')')
          case None => None
          case Some(k) =>
            if k > 0 then Some((s[1..1 + j], s[afterText + 1..afterText + 1 + k], afterText + 1 + k + 1))
            else None
        else None
  }

  /** All markdown links with a non-empty target, left to right, without overlap. */
  function MarkdownLinks(s: string): (r: seq<(string, string)>)
    ensures forall i :: 0 <= i < |r| ==> r[i].1 != ""
    decreases |s|
  {
    if |s| == 0 then []
    else match LinkAtFront(s)
      case Some((text, href, n)) => [(text, href)] + MarkdownLinks(s[n..])
      case None => MarkdownLinks(s[1..])
  }

  /** The kind of a markdown link, by its text alone. */
  function MarkdownLinkKind(link: (string, string)): ClassifiedLink
  {
    var t := Lower(link.0);
    var kind :=
      if Contains(t, "github") || Contains(t, "gitlab") || Contains(t, "bitbucket") then RepoLink
      else if Contains(t, "zenodo") || Contains(t, "figshare") || Contains(t, "doi") then ArtifactLink
      else OtherLink;
    ClassifiedLink(kind, link.1)
  }

  function MarkdownLinkKinds(links: seq<(string, string)>): (r: seq<ClassifiedLink>)
    ensures |r| == |links|
    ensures forall i :: 0 <= i < |links| ==> r[i] == MarkdownLinkKind(links[i])
  {
    seq(|links|, i requires 0 <= i < |links| => MarkdownLinkKind(links[i]))
  }

  /** A character that ends a bare GitHub URL: white space, `<` or `|`. */
  predicate EndsBareUrl(c: char)
  {
    IsSpace(c) || c == '<' || c == '|'
  }

  /** The length of the run of URL characters at the front of `s`. */
  function UrlRun(s: string): (n: nat)
    ensures n <= |s|
    decreases |s|
  {
    if |s| > 0 && !EndsBareUrl(s[0]) then 1 + UrlRun(s[1..]) else 0
  }

  /** The first bare GitHub URL: the scheme and host, then characters up to white space, `<` or `|`. */
  function BareGithubUrl(s: string): (r: Option<string>)
    decreases |s|
  {
    if |s| == 0 then None
    else
      var scheme :=
        if "https://github.com/" <= s then 19
        else if "http://github.com/" <= s then 18
        else 0;
      if scheme > 0 && UrlRun(s[scheme..]) > 0 then Some(s[..scheme + UrlRun(s[scheme..])])
      else BareGithubUrl(s[1..])
  }

  /** The badges of a markdown badge cell, in fixed order, each at most once. */
  function MarkdownBadges(cell: string): (r: seq<string>)
    ensures forall i, j :: 0 <= i < j < |r| ==> r[i] != r[j]
    ensures forall b :: b in r ==> b in ["available", "functional", "reproduced"]
  {
    (if Contains(cell, "id=\"aa\"") || Contains(cell, ">AVAILABLE<") then ["available"] else [])
    + (if Contains(cell, "id=\"af\"") || Contains(cell, ">FUNCTIONAL<") then ["functional"] else [])
    + (if Contains(cell, "id=\"rr\"") || Contains(cell, ">REPRODUCED<") || Contains(cell, ">REPLICATED<")
       then ["reproduced"] else [])
  }

  /** The stripped cells of a table row: the pieces between the first and the last `|`. */
  function MarkdownCells(line: string): (cells: seq<string>)
  {
    var pieces := SplitOn(line, "|");
    var inner := if |pieces| >= 2 then pieces[1..|pieces| - 1] else [];
    seq(|inner|, i requires 0 <= i < |inner| => Strip(inner[i]))
  }

  /** A markdown line the parser looks at: a table row that is not the `:-` separator. */
  predicate MarkdownRowLine(line: string)
  {
    "|" <= line && !Contains(line, ":-")
  }

  /** The repository URL of a markdown row, before and after the bare-URL fallback. */
  function MarkdownUrls(cells: seq<string>): (string, string)
  {
    if |cells| > 2 then
      var (repo, art) := ResolvedLinks(MarkdownLinkKinds(MarkdownLinks(cells[2])));
      if repo == "" && BareGithubUrl(cells[2]).Some? then (BareGithubUrl(cells[2]).value, art)
      else (repo, art)
    else ("", "")
  }

  /** The record the cells of a markdown table row yield, if any. */
  function MarkdownCellsRow(cells: seq<string>): Option<Record>
  {
    if |cells| < 2 then None
    else match BracketText(cells[0])
      case None => None
      case Some(t) =>
        var title := Strip(t);
        if !AcceptedTitle(title) then None
        else
          var badges := MarkdownBadges(cells[1]);
          var (repoUrl, artifactUrl) := MarkdownUrls(cells);
          if |badges| > 0 || repoUrl != "" || artifactUrl != "" then
            Some(ResultRecord(title, badges, "", repoUrl, artifactUrl))
          else None
  }

  /** The record a markdown line yields, if any. */
  function MarkdownRow(rawLine: string): Option<Record>
  {
    var line := Strip(rawLine);
    if MarkdownRowLine(line) then MarkdownCellsRow(MarkdownCells(line)) else None
  }

  /** The body of `parse_markdown_table_results` for the cells of one row. */
  method ParseMarkdownCells(cells: seq<string>) returns (rec: Option<Record>)
    ensures rec == MarkdownCellsRow(cells)
  {
    if |cells| < 2 {
      return None;
    }
    var t := BracketText(cells[0]);
    if t.None? {
      return None;
    }
    var title := Strip(t.value);
    if !AcceptedTitle(title) {
      return None;
    }
    var badges := MarkdownBadges(cells[1]);
    var repoUrl, artifactUrl := "", "";
    if |cells| > 2 {
      repoUrl, artifactUrl := ResolveLinks(MarkdownLinkKinds(MarkdownLinks(cells[2])));
      if repoUrl == "" {
        var bare := BareGithubUrl(cells[2]);
        if bare.Some? {
          repoUrl := bare.value;
        }
      }
    }
    if |badges| > 0 || repoUrl != "" || artifactUrl != "" {
      rec := Some(ResultRecord(title, badges, "", repoUrl, artifactUrl));
    } else {
      rec := None;
    }
  }

  /** The body of `parse_markdown_table_results` for one line. */
  method ParseMarkdownRow(rawLine: string) returns (rec: Option<Record>)
    ensures rec == MarkdownRow(rawLine)
  {
    var line := Strip(rawLine);
    if !MarkdownRowLine(line) {
      return None;
    }
    rec := ParseMarkdownCells(MarkdownCells(line));
  }

  /** The line loop of `parse_markdown_table_results`. */
  method ParseMarkdownLines(lines: seq<string>) returns (artifacts: seq<Record>)
    ensures artifacts == FilterMap(lines, MarkdownRow)
  {
    artifacts := [];
    var i := 0;
    while i < |lines|
      invariant 0 <= i <= |lines|
      invariant artifacts == FilterMap(lines[..i], MarkdownRow)
    {
      var rec := ParseMarkdownRow(lines[i]);
      assert lines[..i + 1][..i] == lines[..i];
      assert FilterMap(lines[..i + 1], MarkdownRow)
        == FilterMap(lines[..i], MarkdownRow) + (if rec.Some? then [rec.value] else []);
      if rec.Some? {
        artifacts := artifacts + [rec.value];
      }
      i := i + 1;
    }
    assert lines[..i] == lines;
  }

  /** `parse_markdown_table_results`: one record per accepted line, in order. */
  method ParseMarkdownTableResults(content: string) returns (artifacts: seq<Record>)
    ensures artifacts == FilterMap(SplitOn(content, "\n"), MarkdownRow)
  {
    artifacts := ParseMarkdownLines(SplitOn(content, "\n"));
  }

  /**
   * A markdown record never carries a paper URL, and its repository URL is
   * the last repository-host link, else the first other link, else the
   * first bare GitHub URL of the URL cell; its artifact URL is the last
   * artifact-host link.
   */
  lemma MarkdownRowMeaning(cells: seq<string>)
    requires MarkdownCellsRow(cells).Some? && |cells| > 2
    ensures var r := MarkdownCellsRow(cells).value;
      var links := MarkdownLinkKinds(MarkdownLinks(cells[2]));
      var hosted := if LastOfKind(links, RepoLink) != "" then LastOfKind(links, RepoLink)
                    else FirstOfKind(links, OtherLink);
      var repo := if hosted != "" then hosted
                  else if BareGithubUrl(cells[2]).Some? then BareGithubUrl(cells[2]).value else "";
      "paper_url" !in r
      && (repo != "" ==> "repository_url" in r && r["repository_url"] == Str(repo))
      && (LastOfKind(links, ArtifactLink) != "" ==>
          "artifact_url" in r && r["artifact_url"] == Str(LastOfKind(links, ArtifactLink)))
  {
    ResolvedLinksMeaning(MarkdownLinkKinds(MarkdownLinks(cells[2])));
  }

  /** Lines that are not table rows, and the `|:-` separator row, yield nothing. */
  lemma MarkdownSkipsNonRows(rawLine: string)
    requires !MarkdownRowLine(Strip(rawLine))
    ensures MarkdownRow(rawLine).None?
  {
  }

  // ---------------------------------------------------------------------
  // YAML front matter

  /** The length of the run of white space starting at `j`. */
  function SpaceRun(s: string, j: nat): (n: nat)
    requires j <= |s|
    ensures j + n <= |s|
    ensures forall k :: j <= k < j + n ==> IsSpace(s[k])
    ensures j + n < |s| ==> !IsSpace(s[j + n])
    decreases |s| - j
  {
    if j < |s| && IsSpace(s[j]) then 1 + SpaceRun(s, j + 1) else 0
  }

  /** The last position in `lo..hi` that ends the text or precedes a line break. */
  function LineEndAtOrBefore(s: string, lo: nat, hi: nat): (r: Option<nat>)
    requires lo <= hi <= |s|
    ensures r.Some? ==> lo <= r.value <= hi && (r.value == |s| || s[r.value] == '\n')
    ensures r.Some? ==> forall k :: r.value < k <= hi ==> k < |s| && s[k] != '\n'
    ensures r.None? ==> forall k :: lo <= k <= hi ==> k < |s| && s[k] != '\n'
    decreases hi - lo
  {
    if hi == |s| || s[hi] == '\n' then Some(hi)
    else if hi == lo then None
    else LineEndAtOrBefore(s, lo, hi - 1)
  }

  /** A front-matter delimiter line tried at position `i`: three dashes, then white space to the end of a line; where the match ends. */
  function SeparatorEnd(s: string, i: nat): (r: Option<nat>)
    requires i <= |s|
    ensures r.Some? ==> i + 3 <= r.value <= |s|
  {
    if (i == 0 || s[i - 1] == '\n') && i + 3 <= |s| && s[i..i + 3] == "---" then
      LineEndAtOrBefore(s, i + 3, i + 3 + SpaceRun(s, i + 3))
    else None
  }

  /** The first separator match at or after `from`: its start and its end. */
  function NextSeparator(s: string, from: nat): (r: Option<(nat, nat)>)
    requires from <= |s|
    ensures r.Some? ==> from <= r.value.0 && r.value.0 + 3 <= r.value.1 <= |s|
    ensures r.Some? ==> SeparatorEnd(s, r.value.0) == Some(r.value.1)
    decreases |s| - from
  {
    match SeparatorEnd(s, from)
    case Some(e) => Some((from, e))
    case None => if from == |s| then None else NextSeparator(s, from + 1)
  }

  /** The match `NextSeparator` finds is the first: no position before it matches. */
  lemma {:induction false} NextSeparatorFirst(s: string, from: nat)
    requires from <= |s|
    ensures var r := NextSeparator(s, from);
      r.Some? ==> forall k :: from <= k < r.value.0 ==> SeparatorEnd(s, k).None?
    decreases |s| - from
  {
    if SeparatorEnd(s, from).None? && from < |s| {
      NextSeparatorFirst(s, from + 1);
    }
  }

  /** `NextSeparator` finds no match only when no position from `from` on matches. */
  lemma {:induction false} NextSeparatorNone(s: string, from: nat)
    requires from <= |s|
    ensures NextSeparator(s, from).None? ==> forall k :: from <= k <= |s| ==> SeparatorEnd(s, k).None?
    decreases |s| - from
  {
    if SeparatorEnd(s, from).None? && from < |s| {
      NextSeparatorNone(s, from + 1);
    }
  }

  /** The text split at its first two front-matter delimiter lines. */
  function FrontMatterSplit(s: string): (parts: seq<string>)
    ensures 1 <= |parts| <= 3
    ensures |parts| >= 2 <==> NextSeparator(s, 0).Some?
  {
    match NextSeparator(s, 0)
    case None => [s]
    case Some((i1, e1)) =>
      match NextSeparator(s, e1)
      case None => [s[..i1], s[e1..]]
      case Some((i2, e2)) => [s[..i1], s[e1..i2], s[e2..]]
  }

  /** What the YAML loader makes of a text. */
  datatype YamlOutcome = YamlError | Loaded(doc: Json)

  /** The artifact lists of the `issues` of a PETS-style document, concatenated. */
  function IssueArtifacts(issues: seq<Json>): seq<Json>
    decreases |issues|
  {
    if |issues| == 0 then []
    else
      var a := Field(issues[|issues| - 1], "artifacts", List([]));
      IssueArtifacts(issues[..|issues| - 1]) + (if a.List? then a.items else [])
  }

  /** The issue loop of `get_ae_results`. */
  method FlattenIssues(issues: seq<Json>) returns (all: seq<Json>)
    ensures all == IssueArtifacts(issues)
  {
    all := [];
    var i := 0;
    while i < |issues|
      invariant 0 <= i <= |issues|
      invariant all == IssueArtifacts(issues[..i])
    {
      var a := Field(issues[i], "artifacts", List([]));
      if a.List? {
        all := all + a.items;
      }
      assert issues[..i + 1][..i] == issues[..i];
      i := i + 1;
    }
    assert issues[..i] == issues;
  }

  /** The front matter handed to the YAML loader: the second part, tabs widened. */
  function FrontMatterText(content: string): Option<string>
  {
    var parts := FrontMatterSplit(content);
    if |parts| >= 2 then Some(ReplaceChar(parts[1], '\t', "  ")) else None
  }

  /**
   * The artifacts of the front matter, if it provides them: the
   * `artifacts` value of a non-empty mapping, else the non-empty
   * concatenation of its issues' artifacts.
   */
  function FrontMatterArtifacts(content: string, yaml: string -> YamlOutcome): Option<Json>
  {
    match FrontMatterText(content)
    case None => None
    case Some(text) =>
      match yaml(text)
      case YamlError => None
      case Loaded(doc) =>
        if Truthy(doc) && doc.Object? && "artifacts" in doc.fields then Some(doc.fields["artifacts"])
        else if Truthy(doc) && doc.Object? && "issues" in doc.fields then
          var issues := doc.fields["issues"];
          var all := if issues.List? then IssueArtifacts(issues.items) else [];
          if |all| > 0 then Some(List(all)) else None
        else None
  }

  /**
   * A front-matter result needs a delimiter line and a truthy mapping loaded
   * from the front matter: a mapping with `artifacts` gives exactly that
   * value, any other the non-empty concatenation of its issues' artifacts.
   */
  lemma FrontMatterArtifactsMeaning(content: string, yaml: string -> YamlOutcome)
    ensures var r := FrontMatterArtifacts(content, yaml);
      r.Some? ==>
        && NextSeparator(content, 0).Some?
        && yaml(FrontMatterText(content).value).Loaded?
        && var doc := yaml(FrontMatterText(content).value).doc;
           && Truthy(doc) && doc.Object?
           && ("artifacts" in doc.fields ==> r.value == doc.fields["artifacts"])
           && ("artifacts" !in doc.fields ==>
                 && "issues" in doc.fields && doc.fields["issues"].List?
                 && r.value == List(IssueArtifacts(doc.fields["issues"].items)) && |r.value.items| > 0)
    ensures NextSeparator(content, 0).Some? && yaml(FrontMatterText(content).value).Loaded? ==>
              var doc := yaml(FrontMatterText(content).value).doc;
              Truthy(doc) && doc.Object? && "artifacts" in doc.fields ==>
                FrontMatterArtifacts(content, yaml) == Some(doc.fields["artifacts"])
  {
  }

  function RecordsJson(rs: seq<Record>): (j: Json)
    ensures j.List? && |j.items| == |rs|
  {
    List(seq(|rs|, i requires 0 <= i < |rs| => Object(rs[i])))
  }

  /**
   * The artifacts of one results document: front matter first, then HTML
   * rows, then markdown rows; `None` when no strategy finds any.
   */
  function ParsedDocument(content: string, yaml: string -> YamlOutcome,
                          dom: string -> seq<seq<HtmlCell>>): (r: Option<Json>)
    ensures FrontMatterArtifacts(content, yaml).Some? ==> r == FrontMatterArtifacts(content, yaml)
    ensures FrontMatterArtifacts(content, yaml).None? && r.Some? ==> r.value.List? && |r.value.items| > 0
  {
    match FrontMatterArtifacts(content, yaml)
    case Some(a) => Some(a)
    case None =>
      var html := FilterMap(dom(content), HtmlRow);
      if |html| > 0 then Some(RecordsJson(html))
      else
        var md := FilterMap(SplitOn(content, "\n"), MarkdownRow);
        if |md| > 0 then Some(RecordsJson(md)) else None
  }

  /** The parsing step of `get_ae_results` for one document. */
  method ParseResultsDocument(content: string, yaml: string -> YamlOutcome,
                              dom: string -> seq<seq<HtmlCell>>) returns (r: Option<Json>)
    ensures r == ParsedDocument(content, yaml, dom)
  {
    var front: Option<Json> := None;
    var text := FrontMatterText(content);
    if text.Some? {
      var loaded := yaml(text.value);
      if loaded.Loaded? {
        var doc := loaded.doc;
        if Truthy(doc) && doc.Object? && "artifacts" in doc.fields {
          front := Some(doc.fields["artifacts"]);
        } else if Truthy(doc) && doc.Object? && "issues" in doc.fields {
          var issues := doc.fields["issues"];
          var all: seq<Json> := [];
          if issues.List? {
            all := FlattenIssues(issues.items);
          }
          if |all| > 0 {
            front := Some(List(all));
          }
        }
      }
    }
    assert front == FrontMatterArtifacts(content, yaml);
    if front.Some? {
      return front;
    }
    var artifacts := ParseHtmlResults(dom(content));
    if |artifacts| == 0 {
      artifacts := ParseMarkdownTableResults(content);
    }
    if |artifacts| > 0 {
      r := Some(RecordsJson(artifacts));
    } else {
      r := None;
    }
  }

  // ---------------------------------------------------------------------
  // Downloading and the whole run

  /** The answer to a download: the text, an HTTP error, or a connection error. */
  datatype Download = Downloaded(text: string) | HttpFailed | ConnectionFailed

  /** The first results file of a conference that downloads. */
  function FirstDownload(rawBase: string, name: string, download: string -> Download): (r: Option<string>)
    ensures r.Some? ==>
      download(rawBase + name + "/" + ResultsFilenames[0]) == Downloaded(r.value)
      || (!download(rawBase + name + "/" + ResultsFilenames[0]).Downloaded?
          && download(rawBase + name + "/" + ResultsFilenames[1]) == Downloaded(r.value))
    ensures r.None? ==> forall f :: f in ResultsFilenames ==> !download(rawBase + name + "/" + f).Downloaded?
  {
    var first := download(rawBase + name + "/" + ResultsFilenames[0]);
    var second := download(rawBase + name + "/" + ResultsFilenames[1]);
    if first.Downloaded? then Some(first.text)
    else if second.Downloaded? then Some(second.text)
    else None
  }

  /** A conference the download loop keeps: its name matches and one of its results files downloads. */
  function Fetched(matches: string -> bool, rawBase: string, download: string -> Download): string -> bool
  {
    n => matches(n) && FirstDownload(rawBase, n, download).Some?
  }

  /** The text the download loop stores for a conference it keeps. */
  function FetchedText(rawBase: string, download: string -> Download): string -> string
  {
    n => FirstDownload(rawBase, n, download).UnwrapOr("")
  }

  /** A downloaded conference whose document some strategy finds artifacts in. */
  function Parses(results: Dict<string, string>, yaml: string -> YamlOutcome,
                  dom: string -> seq<seq<HtmlCell>>): string -> bool
  {
    n => n in results.values && ParsedDocument(results.values[n], yaml, dom).Some?
  }

  /** The artifacts the parsing loop stores for a document it keeps. */
  function ParsedValue(results: Dict<string, string>, yaml: string -> YamlOutcome,
                       dom: string -> seq<seq<HtmlCell>>): string -> Json
  {
    n => if n in results.values then ParsedDocument(results.values[n], yaml, dom).UnwrapOr(Null) else Null
  }

  /** A conference whose first downloaded results file parses. */
  function ParsesDownload(rawBase: string, download: string -> Download, yaml: string -> YamlOutcome,
                          dom: string -> seq<seq<HtmlCell>>): string -> bool
  {
    n => FirstDownload(rawBase, n, download).Some?
      && ParsedDocument(FirstDownload(rawBase, n, download).value, yaml, dom).Some?
  }

  /** The inner loop of `get_ae_results`: the results files of one conference in turn, stopping at the first that downloads. */
  method DownloadFirst(rawBase: string, name: string, download: string -> Download) returns (got: Option<string>)
    ensures got == FirstDownload(rawBase, name, download)
  {
    got := None;
    var j := 0;
    while j < |ResultsFilenames|
      invariant 0 <= j <= |ResultsFilenames|
      invariant got.None? ==> forall k :: 0 <= k < j ==> !download(rawBase + name + "/" + ResultsFilenames[k]).Downloaded?
      invariant got.Some? ==> got == FirstDownload(rawBase, name, download)
    {
      var file := download(rawBase + name + "/" + ResultsFilenames[j]);
      if file.Downloaded? {
        got := Some(file.text);
        break;
      }
      j := j + 1;
    }
  }

  /** The download loop of `get_ae_results`: names matching the pattern, with the first file found. */
  method DownloadResults(conferences: seq<string>, matches: string -> bool, rawBase: string,
                         download: string -> Download)
    returns (results: Dict<string, string>)
    ensures results.Valid()
    ensures forall n :: n in results.values <==>
      n in conferences && matches(n) && FirstDownload(rawBase, n, download).Some?
    ensures forall n :: n in results.values ==> results.values[n] == FirstDownload(rawBase, n, download).value
    ensures results.keys == Dedup(Filter(conferences, Fetched(matches, rawBase, download)))
  {
    results := Empty();
    var i := 0;
    while i < |conferences|
      invariant 0 <= i <= |conferences|
      invariant results == PutEach(conferences[..i], Fetched(matches, rawBase, download), FetchedText(rawBase, download))
    {
      var name := conferences[i];
      TakeSnoc(conferences, i);
      assert conferences[..i + 1][..i] == conferences[..i];
      if matches(name) {
        var got := DownloadFirst(rawBase, name, download);
        if got.Some? {
          results := Put(results, name, got.value);
        }
      }
      i := i + 1;
    }
    assert conferences[..i] == conferences;
    PutEachValues(conferences, Fetched(matches, rawBase, download), FetchedText(rawBase, download));
    PutEachKeys(conferences, Fetched(matches, rawBase, download), FetchedText(rawBase, download));
  }

  /** The parsing loop of `get_ae_results`: the documents any strategy finds artifacts in. */
  method ParseResults(results: Dict<string, string>, yaml: string -> YamlOutcome,
                      dom: string -> seq<seq<HtmlCell>>)
    returns (parsed: Dict<string, Json>)
    requires results.Valid()
    ensures parsed.Valid()
    ensures forall n :: n in parsed.values <==>
      n in results.values && ParsedDocument(results.values[n], yaml, dom).Some?
    ensures forall n :: n in parsed.values ==>
      parsed.values[n] == ParsedDocument(results.values[n], yaml, dom).value
    ensures parsed.keys == Filter(results.keys, Parses(results, yaml, dom))
  {
    parsed := Empty();
    var i := 0;
    while i < |results.keys|
      invariant 0 <= i <= |results.keys|
      invariant parsed == PutEach(results.keys[..i], Parses(results, yaml, dom), ParsedValue(results, yaml, dom))
    {
      var name := results.keys[i];
      TakeSnoc(results.keys, i);
      assert results.keys[..i + 1][..i] == results.keys[..i];
      var artifacts := ParseResultsDocument(results.values[name], yaml, dom);
      if artifacts.Some? {
        parsed := Put(parsed, name, artifacts.value);
      }
      i := i + 1;
    }
    assert results.keys[..i] == results.keys;
    PutEachValues(results.keys, Parses(results, yaml, dom), ParsedValue(results, yaml, dom));
    PutEachDistinctKeys(results.keys, Parses(results, yaml, dom), ParsedValue(results, yaml, dom));
  }

  /**
   * `get_ae_results`: for every conference whose name matches, the
   * artifacts of the first results file that downloads and parses.
   */
  method GetAeResults(conferences: seq<string>, matches: string -> bool, rawBase: string,
                      download: string -> Download, yaml: string -> YamlOutcome,
                      dom: string -> seq<seq<HtmlCell>>)
    returns (parsed: Dict<string, Json>)
    ensures parsed.Valid()
    ensures forall n :: n in parsed.values <==>
      n in conferences && matches(n) && FirstDownload(rawBase, n, download).Some?
      && ParsedDocument(FirstDownload(rawBase, n, download).value, yaml, dom).Some?
    ensures forall n :: n in parsed.values ==>
      parsed.values[n] == ParsedDocument(FirstDownload(rawBase, n, download).value, yaml, dom).value
    ensures parsed.keys == Filter(Dedup(Filter(conferences, Fetched(matches, rawBase, download))),
                                  ParsesDownload(rawBase, download, yaml, dom))
  {
    var results := DownloadResults(conferences, matches, rawBase, download);
    parsed := ParseResults(results, yaml, dom);
    FilterAgree(results.keys, Parses(results, yaml, dom), ParsesDownload(rawBase, download, yaml, dom));
  }
}
