/**
 * Artifact-evaluation committees of the sysartifacts / secartifacts sites:
 * the parser of one member line, the chair / member section state machine
 * over a committee page, and the per-conference collection.
 */
module CommitteeScrape {
  import opened Wrappers
  import opened Strings
  import opened Dicts
  import opened Seqs

  datatype Role = Chair | Member

  datatype CommitteeMember = CommitteeMember(name: string, affiliation: string, role: Role)

  // ---------------------------------------------------------------------
  // One member line

  /** Names that stand for an open seat rather than a person (compared lower-cased). */
  const Placeholders: set<string> := {"you?", "you", "tba", "tbd", ""}

  /** A name the parser keeps. */
  predicate AcceptedName(name: string)
  {
    Lower(name) !in Placeholders && |name| > 1
  }

  /** Headings, separators and contact sentences are not member lines. */
  predicate SkippedLine(line: string)
  {
    line == "" || "#" <= line || "---" <= line
    || Contains(Lower(line), "reach the") || (Contains(Lower(line), "contact") && Contains(line, "@"))
  }

  /** The line without one leading `-` or `*` marker and the space after it. */
  function StripListMarker(line: string): string
  {
    var start :=
      if "-" <= line || "*" <= line then (if |line| > 1 && line[1] == ' ' then 2 else 1)
      else 0;
    Strip(line[start..])
  }

  /** A markdown link at the front of `s`, with non-empty text: the link text and the length of the link. */
  function LeadingLink(s: string): (r: Option<(string, nat)>)
    ensures r.Some? ==> 0 < r.value.1 <= |s| && |r.value.0| > 0
  {
    if |s| == 0 || s[0] != '[' then None
    else match FindChar(s[1..], ']')
      case None => None
      case Some(j) =>
        if j > 0 && 1 + j + 1 < |s| && s[1 + j + 1] == '(' then
          match FindChar(s[1 + j + 2..], ')')
          case None => None
          case Some(k) => Some((s[1..1 + j], 1 + j + 2 + k + 1))
        else None
  }

  /** A leading `[text](url)` replaced by `text`; the rest of the line is kept. */
  function UnlinkFront(s: string): string
  {
    match LeadingLink(s)
    case None => s
    case Some((text, n)) => text + s[n..]
  }

  /** The length of the white-space run that ends `s`. */
  function TrailingSpaces(s: string): (n: nat)
    ensures n <= |s|
    decreases |s|
  {
    if |s| > 0 && IsSpace(s[|s| - 1]) then 1 + TrailingSpaces(s[..|s| - 1]) else 0
  }

  /** Where a closing `<br>`, `<br/>` or `<br />` starts, if `s` ends with one. */
  function TrailingBr(s: string): (r: Option<nat>)
    ensures r.Some? ==> r.value + 4 <= |s| && s[r.value..r.value + 3] == "<br" && s[|s| - 1] == '>'
  {
    if |s| == 0 || s[|s| - 1] != '>' then None
    else
      var j := if |s| >= 2 && s[|s| - 2] == '/' then |s| - 2 else |s| - 1;
      var i := j - TrailingSpaces(s[..j]);
      if i >= 3 && s[i - 3..i] == "<br" then Some(i - 3) else None
  }

  /** The text without a final line-break tag and the white space before it, then stripped. */
  function StripTrailingBr(s: string): string
  {
    match TrailingBr(s)
    case None => Strip(s)
    case Some(i) => Strip(s[..i])
  }

  predicate IsMarkup(c: char) { c == '*' || c == '_' }

  function LStripMarkup(s: string): (r: string)
    decreases |s|
  {
    if |s| > 0 && IsMarkup(s[0]) then LStripMarkup(s[1..]) else s
  }

  function RStripMarkup(s: string): (r: string)
    decreases |s|
  {
    if |s| > 0 && IsMarkup(s[|s| - 1]) then RStripMarkup(s[..|s| - 1]) else s
  }

  function StripMarkup(s: string): string
  {
    RStripMarkup(LStripMarkup(s))
  }

  /** The text a member line is split into name and affiliation from, or `None` if skipped. */
  function CleanedLine(raw: string): Option<string>
  {
    var line := Strip(raw);
    if SkippedLine(line) then None
    else
      var unmarked := StripListMarker(line);
      if unmarked == "" then None
      else
        var unbroken := StripTrailingBr(UnlinkFront(unmarked));
        if unbroken == "" then None
        else Some(Strip(StripMarkup(unbroken)))
  }

  /**
   * The name and affiliation of a cleaned line: parentheses first, then the
   * first comma, else the whole line with no affiliation.
   */
  function SplitNameAffiliation(line: string): (string, string)
  {
    match (FindChar(line, '('), FindChar(line, ')'))
    case (Some(p), Some(q)) =>
      (Strip(line[..p]), if p + 1 <= q then Strip(line[p + 1..q]) else "")
    case _ =>
      match FindChar(line, ',')
      case Some(c) => (Strip(line[..c]), Strip(line[c + 1..]))
      case None => (line, "")
  }

  /** `_parse_member_line`: the name and affiliation of a committee line, or `None`. */
  function ParseMemberLine(raw: string): (r: Option<(string, string)>)
    ensures r.Some? ==> AcceptedName(r.value.0)
  {
    match CleanedLine(raw)
    case None => None
    case Some(line) =>
      var (name, affiliation) := SplitNameAffiliation(line);
      if AcceptedName(name) then Some((name, affiliation)) else None
  }

  /** Empty lines, headings, separators and contact sentences give no member. */
  lemma SkippedLinesGiveNothing(raw: string)
    requires SkippedLine(Strip(raw))
    ensures ParseMemberLine(raw).None?
  {
  }

  /**
   * When the cleaned line has both parentheses, the name is the text before
   * the first `(` and the affiliation the text up to the first `)`, even if
   * the line also has a comma.
   */
  lemma ParenthesesBeforeComma(line: string)
    requires '(' in line && ')' in line
    ensures exists p ::
      0 <= p < |line| && line[p] == '(' && '(' !in line[..p] && SplitNameAffiliation(line).0 == Strip(line[..p])
  {
    var p := FindChar(line, '(').value;
    assert line[p] == '(' && '(' !in line[..p];
  }

  /** Without parentheses, a comma separates the name from the affiliation. */
  lemma CommaSplit(line: string)
    requires !('(' in line && ')' in line)
    ensures ',' in line ==> exists c ::
      0 <= c < |line| && line[c] == ',' && ',' !in line[..c]
      && SplitNameAffiliation(line) == (Strip(line[..c]), Strip(line[c + 1..]))
    ensures ',' !in line ==> SplitNameAffiliation(line) == (line, "")
  {
    if FindChar(line, '(').Some? {
      assert FindChar(line, ')').None?;
    }
    if ',' in line {
      var c := FindChar(line, ',').value;
      assert line[c] == ',' && ',' !in line[..c];
    }
  }

  // ---------------------------------------------------------------------
  // Headings and the section state machine

  /** The text after the leading `#` of a heading, up to the end of its line. */
  function HeadingRest(s: string): string
    requires |s| > 0
  {
    Before(s[1..], "\n")
  }

  /** A heading line that mentions `chair` after its leading `#`. */
  predicate HashHeadingChair(s: string)
  {
    |s| > 0 && s[0] == '#' && Contains(HeadingRest(s), "chair")
  }

  /** The words artifact, evaluation and committee at the front of `t`, with optional blanks between them. */
  predicate AecPhraseAt(t: string)
  {
    "artifact" <= t
    && var u := LStrip(t[8..]);
    "evaluation" <= u && "committee" <= LStrip(u[10..])
  }

  predicate HasAecPhrase(t: string)
    decreases |t|
  {
    AecPhraseAt(t) || (|t| > 0 && HasAecPhrase(t[1..]))
  }

  /** `w` at position `i` of `t` as a whole word, with a word boundary on both sides (`t` follows a `#`). */
  predicate WordAt(t: string, i: nat, w: string)
  {
    i + |w| <= |t| && t[i..i + |w|] == w
    && (i == 0 || !IsWordChar(t[i - 1]))
    && (i + |w| == |t| || !IsWordChar(t[i + |w|]))
  }

  predicate HasWord(t: string, w: string)
  {
    exists i :: 0 <= i <= |t| && WordAt(t, i, w)
  }

  /** A chair heading, tested on the stripped, lower-cased line. */
  predicate ChairHeading(s: string)
  {
    (Contains(s, "chair") && Contains(s, "artifact"))
    || ("**chair" <= s && EndsWith(s, "**:"))
    || HashHeadingChair(s)
    || "**chair" <= s
  }

  /** A member heading, tested on the stripped, lower-cased line. */
  predicate MemberHeading(s: string)
  {
    (|s| > 0 && s[0] == '#' && HasAecPhrase(HeadingRest(s)))
    || (|s| > 0 && s[0] == '#' && (HasWord(HeadingRest(s), "member") || HasWord(HeadingRest(s), "members")))
    || ("**member" <= s && EndsWith(s, "**:"))
  }

  datatype Section = NoSection | ChairSection | MemberSection

  /** The section a heading line opens (chair headings are tested first), `NoSection` for other lines. */
  function HeadingKind(line: string): Section
  {
    var key := Lower(Strip(line));
    if ChairHeading(key) then ChairSection
    else if MemberHeading(key) then MemberSection
    else NoSection
  }

  /** The heading kind of every line. */
  function Classify(lines: seq<string>): (kinds: seq<Section>)
    ensures |kinds| == |lines|
    decreases |lines|
  {
    if |lines| == 0 then [] else Classify(lines[..|lines| - 1]) + [HeadingKind(lines[|lines| - 1])]
  }

  lemma ClassifySnoc(prefix: seq<string>, line: string)
    ensures Classify(prefix + [line]) == Classify(prefix) + [HeadingKind(line)]
  {
    assert (prefix + [line])[..|prefix|] == prefix;
  }

  /** The state of the heading scan: the current section and the lines collected so far. */
  datatype Scan = Scan(section: Section, chairLines: seq<string>, memberLines: seq<string>)

  /** One line of the heading scan: a heading switches section, other lines go to the current one. */
  function ScanStep(st: Scan, kind: Section, line: string): Scan
  {
    match kind
    case ChairSection => st.(section := ChairSection)
    case MemberSection => st.(section := MemberSection)
    case NoSection =>
      match st.section
      case ChairSection => st.(chairLines := st.chairLines + [line])
      case MemberSection => st.(memberLines := st.memberLines + [line])
      case NoSection => st
  }

  /** The scan over lines of the given heading kinds. */
  function ScanFrom(kinds: seq<Section>, lines: seq<string>): Scan
    requires |kinds| == |lines|
    decreases |lines|
  {
    if |lines| == 0 then Scan(NoSection, [], [])
    else ScanStep(ScanFrom(kinds[..|kinds| - 1], lines[..|lines| - 1]), kinds[|kinds| - 1], lines[|lines| - 1])
  }

  /** The section loop of `get_committee_for_conference`, as a function of the page's lines. */
  function ScanLines(lines: seq<string>): Scan
  {
    ScanFrom(Classify(lines), lines)
  }

  lemma ScanLinesSnoc(prefix: seq<string>, line: string)
    ensures ScanLines(prefix + [line]) == ScanStep(ScanLines(prefix), HeadingKind(line), line)
  {
    ClassifySnoc(prefix, line);
    var kinds := Classify(prefix + [line]);
    assert kinds[..|prefix|] == Classify(prefix);
    assert (prefix + [line])[..|prefix|] == prefix;
  }

  /** A collected line of the scan: a line of the page that is not a heading. */
  ghost predicate BodyLineOf(kinds: seq<Section>, lines: seq<string>, x: string)
    requires |kinds| == |lines|
  {
    exists j :: 0 <= j < |lines| && lines[j] == x && kinds[j] == NoSection
  }

  /**
   * Headings are dropped and every collected line is a non-heading line of
   * the page; lines before the first heading are ignored, so a page with no
   * heading collects nothing.
   */
  lemma {:induction false} ScanCollectsBodyLines(kinds: seq<Section>, lines: seq<string>)
    requires |kinds| == |lines|
    ensures var st := ScanFrom(kinds, lines);
      (forall i :: 0 <= i < |st.chairLines| ==> BodyLineOf(kinds, lines, st.chairLines[i]))
      && (forall i :: 0 <= i < |st.memberLines| ==> BodyLineOf(kinds, lines, st.memberLines[i]))
    ensures (forall i :: 0 <= i < |kinds| ==> kinds[i] != ChairSection && kinds[i] != MemberSection)
      ==> ScanFrom(kinds, lines) == Scan(NoSection, [], [])
    decreases |lines|
  {
    if |lines| > 0 {
      var n := |lines| - 1;
      ScanCollectsBodyLines(kinds[..n], lines[..n]);
      var st := ScanFrom(kinds, lines);
      forall x | BodyLineOf(kinds[..n], lines[..n], x) ensures BodyLineOf(kinds, lines, x) {
        var j :| 0 <= j < n && lines[..n][j] == x && kinds[..n][j] == NoSection;
        assert lines[j] == x && kinds[j] == NoSection;
      }
      var init := ScanFrom(kinds[..n], lines[..n]);
      assert st == ScanStep(init, kinds[n], lines[n]);
      if kinds[n] == NoSection {
        assert BodyLineOf(kinds, lines, lines[n]);
      }
      forall i | 0 <= i < |st.chairLines| ensures BodyLineOf(kinds, lines, st.chairLines[i]) {
        if i < |init.chairLines| {
          assert st.chairLines[i] == init.chairLines[i];
          assert BodyLineOf(kinds[..n], lines[..n], init.chairLines[i]);
        } else {
          assert kinds[n] == NoSection && st.chairLines[i] == lines[n];
        }
      }
      forall i | 0 <= i < |st.memberLines| ensures BodyLineOf(kinds, lines, st.memberLines[i]) {
        if i < |init.memberLines| {
          assert st.memberLines[i] == init.memberLines[i];
          assert BodyLineOf(kinds[..n], lines[..n], init.memberLines[i]);
        } else {
          assert kinds[n] == NoSection && st.memberLines[i] == lines[n];
        }
      }
      if forall i :: 0 <= i < |kinds| ==> kinds[i] != ChairSection && kinds[i] != MemberSection {
        assert forall i :: 0 <= i < n ==> kinds[..n][i] != ChairSection && kinds[..n][i] != MemberSection;
        assert ScanFrom(kinds[..n], lines[..n]) == Scan(NoSection, [], []);
        assert kinds[n] == NoSection;
      }
    }
  }

  /** One iteration of the section loop. */
  method ScanLine(section: Section, chairLines: seq<string>, memberLines: seq<string>, line: string)
    returns (section': Section, chairLines': seq<string>, memberLines': seq<string>)
    ensures Scan(section', chairLines', memberLines')
      == ScanStep(Scan(section, chairLines, memberLines), HeadingKind(line), line)
  {
    section', chairLines', memberLines' := section, chairLines, memberLines;
    var kind := HeadingKind(line);
    if kind == ChairSection {
      section' := ChairSection;
    } else if kind == MemberSection {
      section' := MemberSection;
    } else if section == ChairSection {
      chairLines' := chairLines + [line];
    } else if section == MemberSection {
      memberLines' := memberLines + [line];
    }
  }

  /** The section loop of `get_committee_for_conference`. */
  method ScanSections(lines: seq<string>) returns (chairLines: seq<string>, memberLines: seq<string>)
    ensures ScanLines(lines) == Scan(ScanLines(lines).section, chairLines, memberLines)
  {
    var section := NoSection;
    chairLines, memberLines := [], [];
    var i := 0;
    while i < |lines|
      invariant 0 <= i <= |lines|
      invariant ScanLines(lines[..i]) == Scan(section, chairLines, memberLines)
    {
      assert lines[..i + 1] == lines[..i] + [lines[i]];
      ScanLinesSnoc(lines[..i], lines[i]);
      section, chairLines, memberLines := ScanLine(section, chairLines, memberLines, lines[i]);
      i := i + 1;
    }
    assert lines[..i] == lines;
  }

  // ---------------------------------------------------------------------
  // The committee of one page

  /** What `_parse_member_line` makes of a line. */
  type Parsed = Option<(string, string)>

  /** The parse of every line. */
  function ParseAll(lines: seq<string>): (r: seq<Parsed>)
    ensures |r| == |lines|
  {
    seq(|lines|, i requires 0 <= i < |lines| => ParseMemberLine(lines[i]))
  }

  lemma ParseAllSnoc(prefix: seq<string>, line: string)
    ensures ParseAll(prefix + [line]) == ParseAll(prefix) + [ParseMemberLine(line)]
  {
    var a, b := ParseAll(prefix + [line]), ParseAll(prefix) + [ParseMemberLine(line)];
    forall i | 0 <= i < |a| ensures a[i] == b[i] {
      if i < |prefix| {
        assert (prefix + [line])[i] == prefix[i];
      }
    }
  }

  /** Every parse that names somebody names a real person. */
  lemma ParseAllAccepted(lines: seq<string>)
    ensures AllAccepted(ParseAll(lines))
  {
  }

  /** The members the parsed lines name, in order, all with the given role. */
  function Members(parsed: seq<Parsed>, role: Role): (r: seq<CommitteeMember>)
    ensures forall i :: 0 <= i < |r| ==> r[i].role == role
    decreases |parsed|
  {
    if |parsed| == 0 then []
    else
      var init := Members(parsed[..|parsed| - 1], role);
      var p := parsed[|parsed| - 1];
      if p.Some? then init + [CommitteeMember(p.value.0, p.value.1, role)] else init
  }

  lemma {:induction false} MembersAppend(a: seq<Parsed>, b: seq<Parsed>, role: Role)
    ensures Members(a + b, role) == Members(a, role) + Members(b, role)
    decreases |b|
  {
    if |b| == 0 {
      assert a + b == a;
    } else {
      assert (a + b)[..|a + b| - 1] == a + b[..|b| - 1];
      MembersAppend(a, b[..|b| - 1], role);
    }
  }

  /** Members keep exactly the names of the parses that have one. */
  lemma {:induction false} MembersAccepted(parsed: seq<Parsed>, role: Role)
    requires AllAccepted(parsed)
    ensures forall i :: 0 <= i < |Members(parsed, role)| ==> AcceptedName(Members(parsed, role)[i].name)
    decreases |parsed|
  {
    if |parsed| > 0 {
      MembersAccepted(parsed[..|parsed| - 1], role);
    }
  }

  /** Whether some member of `c` has exactly this name. */
  predicate HasName(c: seq<CommitteeMember>, name: string)
  {
    exists i :: 0 <= i < |c| && c[i].name == name
  }

  /** The member a parse names appended to `acc`, unless `acc` already has that name. */
  function AddIfNew(acc: seq<CommitteeMember>, p: Parsed): (r: seq<CommitteeMember>)
    ensures |acc| <= |r| <= |acc| + 1 && r[..|acc|] == acc
    ensures |r| > |acc| ==> p.Some? && r[|acc|] == CommitteeMember(p.value.0, p.value.1, Member)
    ensures |r| > |acc| ==> !HasName(acc, r[|acc|].name)
  {
    if p.None? || HasName(acc, p.value.0) then acc
    else
      var r := acc + [CommitteeMember(p.value.0, p.value.1, Member)];
      assert r[..|acc|] == acc;
      r
  }

  /** The members the parses name appended to `c`, skipping names already present. */
  function AddNew(c: seq<CommitteeMember>, parsed: seq<Parsed>): (r: seq<CommitteeMember>)
    ensures |c| <= |r| && r[..|c|] == c
    decreases |parsed|
  {
    if |parsed| == 0 then c
    else
      var init := AddNew(c, parsed[..|parsed| - 1]);
      var r := AddIfNew(init, parsed[|parsed| - 1]);
      assert r[..|c|] == init[..|c|];
      r
  }

  lemma AddNewSnoc(c: seq<CommitteeMember>, parsed: seq<Parsed>, p: Parsed)
    ensures AddNew(c, parsed + [p]) == AddIfNew(AddNew(c, parsed), p)
  {
    assert (parsed + [p])[..|parsed|] == parsed;
  }

  /** Entry `i` of `r` is a member not named earlier in `r`, from some parse of `parsed`. */
  ghost predicate NewEntry(r: seq<CommitteeMember>, i: nat, parsed: seq<Parsed>)
    requires i < |r|
  {
    r[i].role == Member && !HasName(r[..i], r[i].name)
    && exists j :: 0 <= j < |parsed| && parsed[j] == Some((r[i].name, r[i].affiliation))
  }

  /**
   * The AEC part adds members only, only names not already present, and
   * only names some parse gave.
   */
  lemma {:induction false} AddNewOnlyNew(c: seq<CommitteeMember>, parsed: seq<Parsed>)
    ensures forall i :: |c| <= i < |AddNew(c, parsed)| ==> NewEntry(AddNew(c, parsed), i, parsed)
    decreases |parsed|
  {
    if |parsed| > 0 {
      var n := |parsed| - 1;
      var init := AddNew(c, parsed[..n]);
      AddNewOnlyNew(c, parsed[..n]);
      var r := AddNew(c, parsed);
      assert r == AddIfNew(init, parsed[n]);
      assert r[..|init|] == init;
      forall i | |c| <= i < |r| ensures NewEntry(r, i, parsed) {
        if i < |init| {
          assert NewEntry(init, i, parsed[..n]);
          assert r[..i] == init[..i];
          assert r[i] == init[i];
          var j :| 0 <= j < |parsed[..n]| && parsed[..n][j] == Some((init[i].name, init[i].affiliation));
          assert parsed[j] == parsed[..n][j];
        } else {
          assert r[..i] == init;
          assert parsed[n] == Some((r[i].name, r[i].affiliation));
        }
      }
    }
  }

  const AecMarker := "Artifact Evaluation Committee"

  /** The stripped lines after the last "Artifact Evaluation Committee" of the page. */
  function AecLines(page: string): seq<string>
  {
    SplitLines(Strip(AfterLast(page, AecMarker)))
  }

  /**
   * The committee assembled from the parsed chair lines, member lines and
   * AEC-part lines: with no section content the AEC part alone; otherwise
   * chairs then members, topped up from the AEC part when there were no
   * member lines and the page has the marker.
   */
  function Assemble(chairs: seq<Parsed>, members: seq<Parsed>, aec: seq<Parsed>, sectioned: bool, topUp: bool)
    : seq<CommitteeMember>
  {
    if !sectioned then Members(aec, Member)
    else
      var listed := Members(chairs, Chair) + Members(members, Member);
      if topUp then AddNew(listed, aec) else listed
  }

  /** The parses name only real people. */
  ghost predicate AllAccepted(parsed: seq<Parsed>)
  {
    forall i :: 0 <= i < |parsed| && parsed[i].Some? ==> AcceptedName(parsed[i].value.0)
  }

  /** The committee one page lists. */
  function CommitteeOf(page: string): seq<CommitteeMember>
  {
    var st := ScanLines(SplitLines(page));
    Assemble(ParseAll(st.chairLines), ParseAll(st.memberLines), ParseAll(AecLines(page)),
      !(st.chairLines == [] && st.memberLines == []), st.memberLines == [] && Contains(page, AecMarker))
  }

  /** Every chair comes before every member, and every name is a real one. */
  lemma ChairsFirst(chairs: seq<Parsed>, members: seq<Parsed>, aec: seq<Parsed>, sectioned: bool, topUp: bool)
    requires AllAccepted(chairs) && AllAccepted(members) && AllAccepted(aec)
    ensures var c := Assemble(chairs, members, aec, sectioned, topUp);
      (forall i, j :: 0 <= i < j < |c| && c[j].role == Chair ==> c[i].role == Chair)
      && (forall i :: 0 <= i < |c| ==> AcceptedName(c[i].name))
  {
    MembersAccepted(aec, Member);
    MembersAccepted(chairs, Chair);
    MembersAccepted(members, Member);
    var listed := Members(chairs, Chair) + Members(members, Member);
    if sectioned && topUp {
      var c := AddNew(listed, aec);
      AddNewOnlyNew(listed, aec);
      forall i | 0 <= i < |listed| ensures c[i] == listed[i] {
        assert c[..|listed|][i] == c[i];
      }
      forall i | |listed| <= i < |c| ensures c[i].role == Member && AcceptedName(c[i].name) {
        assert NewEntry(c, i, aec);
        var j :| 0 <= j < |aec| && aec[j] == Some((c[i].name, c[i].affiliation));
      }
      var nc := |Members(chairs, Chair)|;
      assert forall i :: 0 <= i < nc ==> listed[i] == Members(chairs, Chair)[i];
      assert forall i :: nc <= i < |listed| ==> listed[i] == Members(members, Member)[i - nc];
    }
  }

  /** The parses of a page's lines name only real people, so its committee has chairs first. */
  lemma PageChairsFirst(page: string)
    ensures var c := CommitteeOf(page);
      (forall i, j :: 0 <= i < j < |c| && c[j].role == Chair ==> c[i].role == Chair)
      && (forall i :: 0 <= i < |c| ==> AcceptedName(c[i].name))
  {
    var st := ScanLines(SplitLines(page));
    ParseAllAccepted(st.chairLines);
    ParseAllAccepted(st.memberLines);
    ParseAllAccepted(AecLines(page));
    ChairsFirst(ParseAll(st.chairLines), ParseAll(st.memberLines), ParseAll(AecLines(page)),
      !(st.chairLines == [] && st.memberLines == []), st.memberLines == [] && Contains(page, AecMarker));
  }

  lemma {:induction false} ClassifyAt(lines: seq<string>, i: nat)
    requires i < |lines|
    ensures Classify(lines)[i] == HeadingKind(lines[i])
    decreases |lines|
  {
    if i < |lines| - 1 {
      ClassifyAt(lines[..|lines| - 1], i);
    }
  }

  /** With no section headings at all, the scan collects nothing, so the committee is the AEC part alone. */
  lemma NoHeadingsFallback(lines: seq<string>)
    requires forall i :: 0 <= i < |lines| ==> HeadingKind(lines[i]) == NoSection
    ensures ScanLines(lines) == Scan(NoSection, [], [])
  {
    forall i | 0 <= i < |lines| ensures Classify(lines)[i] == NoSection {
      ClassifyAt(lines, i);
    }
    ScanCollectsBodyLines(Classify(lines), lines);
  }

  /** In the AEC part, a name is added only when no earlier entry has it. */
  lemma AecPartAddsNoDuplicates(chairs: seq<Parsed>, aec: seq<Parsed>, topUp: bool)
    ensures var c := Assemble(chairs, [], aec, true, topUp);
      forall i :: |Members(chairs, Chair)| <= i < |c| ==> c[i].role == Member && !HasName(c[..i], c[i].name)
  {
    var listed := Members(chairs, Chair);
    assert Members([], Member) == [];
    assert listed + [] == listed;
    if topUp {
      AddNewOnlyNew(listed, aec);
      var c := AddNew(listed, aec);
      forall i | |listed| <= i < |c| ensures c[i].role == Member && !HasName(c[..i], c[i].name) {
        assert NewEntry(c, i, aec);
      }
    }
  }

  /** The membership test of the AEC-part loop. */
  method AnyNamed(c: seq<CommitteeMember>, name: string) returns (found: bool)
    ensures found == HasName(c, name)
  {
    found := false;
    var i := 0;
    while i < |c|
      invariant 0 <= i <= |c|
      invariant found == HasName(c[..i], name)
    {
      if c[i].name == name {
        found := true;
      }
      assert c[..i + 1] == c[..i] + [c[i]];
      i := i + 1;
    }
    assert c[..i] == c;
  }

  /** `ParseAll` parses each line with `ParseMemberLine`. */
  lemma ParseAllIsMap(lines: seq<string>)
    ensures ParseAll(lines) == MapSeq(lines, ParseMemberLine)
  {
    MapSeqPointwise(lines, ParseAll(lines), ParseMemberLine);
  }

  lemma AddNewParseSnoc(c: seq<CommitteeMember>, lines: seq<string>, i: nat)
    requires i < |lines|
    ensures AddNew(c, ParseAll(lines[..i + 1])) == AddIfNew(AddNew(c, ParseAll(lines[..i])), ParseMemberLine(lines[i]))
  {
    assert lines[..i + 1] == lines[..i] + [lines[i]];
    ParseAllSnoc(lines[..i], lines[i]);
    AddNewSnoc(c, ParseAll(lines[..i]), ParseMemberLine(lines[i]));
  }

  /** One iteration of the parse loops: the member a parsed line names, if any, appended. */
  method AppendLine(r: seq<CommitteeMember>, parsed: Parsed, role: Role) returns (r': seq<CommitteeMember>)
    ensures r' == r + Members([parsed], role)
  {
    assert [parsed][..0] == [];
    r' := r;
    if parsed.Some? {
      r' := r + [CommitteeMember(parsed.value.0, parsed.value.1, role)];
    }
  }

  /** One iteration of the parse loops, on the `i`-th line, for the line parser `parse`. */
  method AppendParsedLine(c: seq<CommitteeMember>, r: seq<CommitteeMember>, lines: seq<string>, i: nat,
                          parse: string -> Parsed, role: Role)
    returns (r': seq<CommitteeMember>)
    requires i < |lines| && r == c + Members(MapSeq(lines[..i], parse), role)
    ensures r' == c + Members(MapSeq(lines[..i + 1], parse), role)
  {
    ghost var done := Members(MapSeq(lines[..i], parse), role);
    MapSeqSnoc(lines, i, parse);
    MembersAppend(MapSeq(lines[..i], parse), [parse(lines[i])], role);
    var parsed := parse(lines[i]);
    r' := AppendLine(r, parsed, role);
    assert r' == c + (done + Members([parsed], role));
  }

  /** The parse loops over `lines`, for the line parser `parse`. */
  method AppendParsedWith(c: seq<CommitteeMember>, lines: seq<string>, parse: string -> Parsed, role: Role)
    returns (r: seq<CommitteeMember>)
    ensures r == c + Members(MapSeq(lines, parse), role)
  {
    r := c;
    var i := 0;
    while i < |lines|
      invariant 0 <= i <= |lines|
      invariant r == c + Members(MapSeq(lines[..i], parse), role)
    {
      r := AppendParsedLine(c, r, lines, i, parse, role);
      i := i + 1;
    }
    assert lines[..i] == lines;
  }

  /** Appends the members of `lines` with the given role (the parse loops). */
  method AppendParsed(c: seq<CommitteeMember>, lines: seq<string>, role: Role) returns (r: seq<CommitteeMember>)
    ensures r == c + Members(ParseAll(lines), role)
  {
    r := AppendParsedWith(c, lines, ParseMemberLine, role);
    ParseAllIsMap(lines);
  }

  /** One iteration of the AEC-part loop. */
  method AppendIfNew(r: seq<CommitteeMember>, parsed: Parsed) returns (r': seq<CommitteeMember>)
    ensures r' == AddIfNew(r, parsed)
  {
    r' := r;
    if parsed.Some? {
      var present := AnyNamed(r, parsed.value.0);
      if !present {
        r' := r + [CommitteeMember(parsed.value.0, parsed.value.1, Member)];
      }
    }
  }

  /** The AEC-part loop: members not already present are appended. */
  method AppendNew(c: seq<CommitteeMember>, lines: seq<string>) returns (r: seq<CommitteeMember>)
    ensures r == AddNew(c, ParseAll(lines))
  {
    r := c;
    var i := 0;
    while i < |lines|
      invariant 0 <= i <= |lines|
      invariant r == AddNew(c, ParseAll(lines[..i]))
    {
      AddNewParseSnoc(c, lines, i);
      var parsed := ParseMemberLine(lines[i]);
      r := AppendIfNew(r, parsed);
      i := i + 1;
    }
    assert lines[..i] == lines;
  }

  /** The parsing part of `get_committee_for_conference`. */
  method ParseCommittee(page: string) returns (committee: seq<CommitteeMember>)
    ensures committee == CommitteeOf(page)
  {
    var chairLines, memberLines := ScanSections(SplitLines(page));
    ghost var aec := ParseAll(AecLines(page));
    if chairLines == [] && memberLines == [] {
      committee := AppendParsed([], AecLines(page), Member);
      assert committee == Members(aec, Member);
      return;
    }
    committee := AppendParsed([], chairLines, Chair);
    assert committee == Members(ParseAll(chairLines), Chair);
    committee := AppendParsed(committee, memberLines, Member);
    ghost var listed := committee;
    assert listed == Members(ParseAll(chairLines), Chair) + Members(ParseAll(memberLines), Member);
    if memberLines == [] {
      var parts := SplitOn(page, AecMarker);
      SplitOnFirst(page, AecMarker);
      if |parts| > 1 {
        committee := AppendNew(committee, AecLines(page));
        assert committee == AddNew(listed, aec);
      }
    }
  }

  // ---------------------------------------------------------------------
  // Downloading and the per-conference collection

  /** The page of a conference: `committee.md`, else `organizers.md`; `None` if neither downloads. */
  function CommitteePage(rawBase: string, conference: string, download: string -> Option<string>): Option<string>
  {
    var first := download(rawBase + conference + "/committee.md");
    if first.Some? then first else download(rawBase + conference + "/organizers.md")
  }

  /** `get_committee_for_conference` */
  function CommitteeFor(rawBase: string, conference: string, download: string -> Option<string>)
    : Option<seq<CommitteeMember>>
  {
    match CommitteePage(rawBase, conference, download)
    case None => None
    case Some(page) => Some(CommitteeOf(page))
  }

  /** A committee `get_committees` stores: one that downloaded and lists somebody. */
  predicate Stored(rawBase: string, conference: string, download: string -> Option<string>)
  {
    CommitteeFor(rawBase, conference, download).Some? && |CommitteeFor(rawBase, conference, download).value| > 0
  }

  /** A conference `get_committees` keeps: its name matches and its committee is stored. */
  function Kept(matches: string -> bool, rawBase: string, download: string -> Option<string>): string -> bool
  {
    n => matches(n) && Stored(rawBase, n, download)
  }

  /** The committee stored for a conference that is kept. */
  function KeptCommittee(rawBase: string, download: string -> Option<string>): string -> seq<CommitteeMember>
  {
    n => CommitteeFor(rawBase, n, download).UnwrapOr([])
  }

  /** `get_committees`: the non-empty committees of the matching conferences, each fetched once. */
  method GetCommittees(conferences: seq<string>, matches: string -> bool, rawBase: string,
                       download: string -> Option<string>)
    returns (results: Dict<string, seq<CommitteeMember>>)
    ensures results.Valid()
    ensures forall n :: n in results.values <==> n in conferences && matches(n) && Stored(rawBase, n, download)
    ensures forall n :: n in results.values ==>
      CommitteeFor(rawBase, n, download).Some? && results.values[n] == CommitteeFor(rawBase, n, download).value
    ensures results.keys == Dedup(Filter(conferences, Kept(matches, rawBase, download)))
  {
    results := Empty();
    var i := 0;
    while i < |conferences|
      invariant 0 <= i <= |conferences|
      invariant results == PutEach(conferences[..i], Kept(matches, rawBase, download), KeptCommittee(rawBase, download))
    {
      var name := conferences[i];
      assert conferences[..i + 1][..i] == conferences[..i];
      if matches(name) && results.Has(name) {
        PutEachValues(conferences[..i], Kept(matches, rawBase, download), KeptCommittee(rawBase, download));
        PutSame(results, name);
      }
      if matches(name) && !results.Has(name) {
        var page := CommitteePage(rawBase, name, download);
        if page.Some? {
          var committee := ParseCommittee(page.value);
          if |committee| > 0 {
            results := Put(results, name, committee);
          }
        }
      }
      i := i + 1;
    }
    assert conferences[..i] == conferences;
    PutEachValues(conferences, Kept(matches, rawBase, download), KeptCommittee(rawBase, download));
    PutEachKeys(conferences, Kept(matches, rawBase, download), KeptCommittee(rawBase, download));
  }
}
