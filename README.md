# artifact_analysis in Dafny

A model of the core of the research-artifacts analysis pipeline. The
pipeline scrapes artifact-evaluation (AE) results and committees from the
sysartifacts and secartifacts sites, the ACM Digital Library, USENIX and
other conference sites. It caches every fetch on disk and aggregates the
results into the statistics, rankings and pages of the research-artifacts
website. The model covers these parts: the disk cache and its fetch
decisions; the document parsers; the badge rules; the ACM circuit
breaker; the committee affiliation resolver; the aggregators; and the
`results.md` serializer. Each part is stated in Dafny and proved against
contracts.

Each Python script is modelled by one or more Dafny modules:

| module (file) | script |
|---|---|
| `DiskCache` (cache.dfy) | sys_sec_scrape.py: cache slots, read / write / refresh, conditional GET, URL check, GitHub / Zenodo / Figshare ids |
| `ResultsScrape` (results_scrape.dfy) | sys_sec_artifacts_results_scrape.py |
| `CommitteeScrape` (committee_scrape.dfy) | sys_sec_committee_scrape.py |
| `AcmScrape` (acm.dfy) | acm_scrape.py |
| `UsenixScrape` (usenix.dfy) | usenix_scrape.py |
| `AltCommittee` (alt_committee.dfy) | alternative_committee_scrape.py |
| `ConfYears`, `CommitteeStats`, `Recurring`, `RecurringLists` | generate_committee_stats.py |
| `Statistics`, `StatisticsTables`, `StatisticsReport` | generate_statistics.py |
| `AuthorTitles`, `AuthorDblp`, `AuthorStats` | generate_author_stats.py |
| `RepoStats`, `RepoAggregate` | generate_repo_stats.py |
| `RepoCheck` (repo_check.dfy) | test_artifact_repositories.py |
| `CollectStats` (collect_stats.dfy) | collect_artifact_stats.py |
| `TopRepos` (top_repos.dfy) | add_top_repos.py |
| `AreaAuthors` (area_authors.dfy) | generate_area_authors.py |
| `Institutions` (institutions.dfy) | generate_institution_rankings.py |
| `Profiles` (profiles.dfy) | generate_author_profiles.py |
| `ResultsMd` (results_md.dfy) | generate_sysartifacts_results.py |

The shared foundations are these modules:
- `Wrappers`: `Option`, which stands for Python's `None`-or-value results.
- `Strings`: the string methods the scripts use.
- `Seqs`: list comprehensions and counters.
- `Dicts`: Python dicts whose insertion order is observed.
- `Groups`: `defaultdict` tallies.
- `Ordering`: Python's string order and its stable `sorted`.
- `Json`: the values read from and written to JSON and YAML files.

The model works on values the program cannot compute itself. Each of these
is a parameter or an oracle:
- the clock (`now`, one reading per call);
- HTTP responses (an oracle from an attempt to its status, headers and body);
- the YAML loader (`yaml`) and the HTML and XML parsers, whose output is
  given as abstract rows, cells, headings and elements;
- `fuzz.ratio` (`ratio`) and the order in which the university trie lists
  its prefix matches (`pick`);
- the Unicode decomposition and combining-mark tables of the committee
  name key;
- the SHA-256 digest that names a cache file;
- the cached GitHub / Zenodo / Figshare fetchers and the repository
  existence check (`fetch`, `present`).

The thread pools are modelled as sequential loops over their task lists.

Where a comment, a log message or a name suggests other behaviour, the
model follows the code:
- The ACM `blocked_count` is cumulative and is never reset on success
  (acm_scrape.py:262-266).
- An unrecognised badge normalises to its cleaned key, not to the
  original text (acm_scrape.py:96).
- `artifacts_available` is not normalised to `available`. The
  underscored spellings are unreachable; see Findings.
- On equal years the later committee record's affiliation wins
  (generate_committee_stats.py:505-508).

## Model

| member | source | states |
|---|---|---|
| AcmScrape.BadgeKeyShape | acm_scrape.py:92-95 | every cleaned badge key is lower-case letters and single blanks, with no blank at either end |
| AcmScrape.KeyFixed | acm_scrape.py:92-95 | a text that is already a tidy key of letters and blanks is its own cleaned key |
| AcmScrape.TableKeyShape | acm_scrape.py:71-89 | every spelling in the badge table is a tidy text of letters, blanks and underscores |
| AcmScrape.CanonicalShape | acm_scrape.py:71-89 | each of the four badge names maps to itself in the table and is one lower-case word |
| AcmScrape.CanonicalFixed | acm_scrape.py:92-96 | available, functional, reusable and reproduced normalise to themselves |
| AcmScrape.BadgeMapValues | acm_scrape.py:71-89 | every value of the badge table is one of the four badge names |
| AcmScrape.NormaliseIdempotent | acm_scrape.py:92-96 | normalising a badge twice gives the same result as normalising it once |
| AcmScrape.NormaliseShape | acm_scrape.py:92-96 | a normalised badge is one of the four names, or a tidy key that is not in the table (returned unchanged) |
| AcmScrape.UnderscoreKeysUnreachable | acm_scrape.py:71-95 | no cleaned key contains an underscore, so the seven underscored spellings of the table are never looked up |
| AcmScrape.EveryTableKeyReached | acm_scrape.py:71-96 | when underscores are kept in the key, every spelling in the table normalises to its badge |
| AcmScrape.NormaliseKeepingUnderscoresIdempotent | acm_scrape.py:92-96 | the normaliser that keeps underscores is idempotent too |
| AcmScrape.ImgBadge | acm_scrape.py:199-210 | an image yields at most one badge, always one of the four names |
| AcmScrape.PageBadgesShape | acm_scrape.py:199-220 | a page's badges are distinct badge names, and each is shown by some image on the page |
| AcmScrape.CollectBadges | acm_scrape.py:199-210 | the image loop yields, in page order, the badge of each image that shows one |
| AcmScrape.DedupBadges | acm_scrape.py:213-218 | the de-duplication loop keeps the first occurrence of each badge, in order |
| AcmScrape.BadgesRoundTrip | acm_scrape.py:220-221 | a badge list written to the cache reads back as the same list |
| AcmScrape.ScrapePaperBadges | acm_scrape.py:163-221 | an empty DOI gives None; a fresh cache entry is returned as stored; a request error or a 403 gives None and leaves the cache alone; another non-200 status caches None and returns None; a 200 page caches and returns its de-duplicated badges |
| AcmScrape.CachedFailureIsMiss | acm_scrape.py:187-190 | a cached None reads back as a miss, so the page is requested again on the next call |
| AcmScrape.CachedBadgesReturned | acm_scrape.py:175-178 | badges written to the cache come back unchanged while the entry is fresh |
| AcmScrape.BreakerCounts | acm_scrape.py:256-268 | the failure counter counts every failed paper: scraping stays on exactly while fewer than three papers failed, and the count stops at three |
| AcmScrape.ProceedingsOutputs | acm_scrape.py:256-281 | every paper gives one output with its own title, DOI and authors; its badges are the scraped ones while fewer than three earlier papers failed, and empty otherwise |
| AcmScrape.CumulativeNotConsecutive | acm_scrape.py:260-266 | a success between failures does not reset the counter: three failures in all switch scraping off, even when they are not consecutive |
| AcmScrape.ScrapeProceedings | acm_scrape.py:229-295 | an unknown conference or an empty DBLP listing gives no papers and "not accessible"; otherwise the outputs and the accessibility flag are those of the sequential breaker fold |
| AcmScrape.HitTitle | acm_scrape.py:133-137 | a paper title never ends in a period |
| AcmScrape.AuthorNames | acm_scrape.py:141-145 | one name per author entry, in order: a dict's text (else its pid), or the value as text |
| AcmScrape.SingleAuthorIsList | acm_scrape.py:138-140 | a single author dict gives the same paper as a one-element list holding it |
| AcmScrape.ReadHit | acm_scrape.py:130-152 | one DBLP hit gives the paper with its cleaned title, DOI, comma-joined authors and DBLP URL |
| AcmScrape.DblpPapers | acm_scrape.py:128-152 | one paper per DBLP hit, in hit order |
| AcmScrape.PipelineEntryMeaning | acm_scrape.py:311-330 | an artifact gives an entry exactly when its badge list is non-empty; the entry has the title (default Unknown), the comma-joined badges, and each of doi, repository_url and artifact_url exactly when that field is truthy |
| AcmScrape.ToPipelineFormat | acm_scrape.py:311-331 | the pipeline lists the entries of the artifacts with badges, in input order |
| AcmScrape.PipelineKeepsBadged | acm_scrape.py:311-331 | the pipeline has exactly as many entries as there are artifacts with badges |
| UsenixScrape.FourDigitYearSuffix | usenix_scrape.py:43-44 | for a four-digit year the URL suffix is its last two digits (2025 gives 25) |
| UsenixScrape.PresentationLinks | usenix_scrape.py:79-87 | the links kept are exactly the hrefs that start with the conference's presentation prefix, each once, in ascending order |
| UsenixScrape.SrcBadge | usenix_scrape.py:140-148 | an image gives at most one badge: available, functional or reproduced |
| UsenixScrape.PageBadges | usenix_scrape.py:136-148 | one badge per recognised image, in page order, repeats kept |
| UsenixScrape.BadgeCount | usenix_scrape.py:136-148 | the number of badges equals the number of recognised images |
| UsenixScrape.NeverReusable | usenix_scrape.py:140-148 | the USENIX scraper never reports reusable |
| UsenixScrape.RepeatsKept | usenix_scrape.py:136-148 | an image shown twice gives its badge twice |
| UsenixScrape.PdfUrl | usenix_scrape.py:151-158 | a PDF link that starts with a slash gets the site's base URL in front; any other link is kept as is |
| UsenixScrape.ScrapePaperPage | usenix_scrape.py:93-168 | a page gives no paper exactly when it has no title or its lower-cased title starts with a skip prefix; otherwise the paper has the title, the authors (empty when absent), the page's badges, the PDF URL and the presentation URL |
| UsenixScrape.PipelineEntryMeaning | usenix_scrape.py:220-236 | a paper gives an entry exactly when it has badges; the entry holds the title, the comma-joined badges, and paper_url exactly when that is non-empty |
| UsenixScrape.ToPipelineFormat | usenix_scrape.py:220-237 | the pipeline lists the entries of the papers with badges, in input order |
| UsenixScrape.PipelineKeepsBadged | usenix_scrape.py:220-237 | exactly as many entries as there are papers with badges |
| DiskCache.ReadFresh | sys_sec_scrape.py:63-75 | a fresh read returns the body only when the slot holds a well-formed entry younger than the TTL (strictly); a missing or malformed entry reads as a miss |
| DiskCache.ReadEntry | sys_sec_scrape.py:77-86 | the full entry is returned, whatever its age, exactly when the slot holds a well-formed entry |
| DiskCache.ReadAfterWrite | sys_sec_scrape.py:63-95 | reading back a written entry gives its body while it is younger than the TTL and a miss after that; the entry keeps the ETag only when it is truthy |
| DiskCache.WriteLeavesOtherSlots | sys_sec_scrape.py:88-95 | writing one slot leaves every other slot as it was |
| DiskCache.RefreshKeepsData | sys_sec_scrape.py:97-107 | re-stamping keeps the body and the ETag, makes the entry fresh, and does nothing to a missing or malformed entry |
| DiskCache.Cache.Write | sys_sec_scrape.py:88-95 | the whole entry of the key's slot is replaced by the body, the current time and the ETag (if given); nothing else changes |
| DiskCache.Cache.Refresh | sys_sec_scrape.py:97-107 | only the timestamp of the key's slot changes |
| DiskCache.NamespacesSeparate | sys_sec_scrape.py:56-61 | keys in two different namespaces never share a cache slot |
| DiskCache.HeadVerdict | sys_sec_scrape.py:124-133 | one HEAD request, repeated once after a 429; the URL exists exactly when the last answer is a 200 |
| DiskCache.VerdictReuse | sys_sec_scrape.py:116-122 | a cached positive verdict is reused while younger than the TTL, a cached negative one while younger than seven days |
| DiskCache.CheckUrlCached | sys_sec_scrape.py:109-135 | a trusted cached verdict is returned without a request and with no cache change; otherwise the result is the network's verdict, and that verdict is written to the cache |
| DiskCache.RateLimitWait | sys_sec_scrape.py:163-166 | the wait before the retry is never less than five seconds, exactly five when the reset time has passed, and otherwise ends five seconds after the reset |
| DiskCache.ConditionalHeader | sys_sec_scrape.py:155-158 | the If-None-Match header is sent only for a non-empty stored entry with a non-empty ETag, and carries that ETag |
| DiskCache.FinalAnswer | sys_sec_scrape.py:160-169 | the answer acted on is the first response, or the single retry when the first one was a rate-limited 403 |
| DiskCache.SendConditional | sys_sec_scrape.py:153-169 | the request is conditional on the stored entry, is retried once after a rate limit, and waits the rate-limit time before that retry |
| DiskCache.CutAll | sys_sec_scrape.py:148-150 | the cut text is a prefix of the input and contains none of the markers |
| DiskCache.SlugShape | sys_sec_scrape.py:146-151 | a repository slug exists exactly when the URL contains github.com/; it is a prefix of the text after it and contains none of /tree/, /blob/ and /pkgs/ |
| DiskCache.GithubSlug | sys_sec_scrape.py:146-151 | the slug loop computes the same slug as the slug function |
| DiskCache.RepoStats | sys_sec_scrape.py:175-187 | a 200 answer of the repository API gives a statistics record |
| DiskCache.RepoStatsFields | sys_sec_scrape.py:175-187 | the statistics record has exactly the ten fields the pipeline reads |
| DiskCache.RepoStatsDefaults | sys_sec_scrape.py:176-177 | missing star and fork counts become zero |
| DiskCache.CachedGithubStats | sys_sec_scrape.py:137-196 | a fresh cached value is returned with no request; a URL without github.com/ raises; otherwise a 304 on a stored entry re-stamps it and returns its body, a 200 stores and returns the statistics with the ETag, and any other status stores and returns None |
| DiskCache.CachedGet | sys_sec_scrape.py:273-311 | a fresh cached body is returned with no request; otherwise a 304 on a stored entry re-stamps it and returns its body, an error status raises without writing, and any other answer stores and returns the text with its ETag |
| DiskCache.DownloadIsReused | sys_sec_scrape.py:273-276 | after a download, the same URL is answered from the cache for 30 days |
| DiskCache.ZenodoRecordId | sys_sec_scrape.py:205-212 | a record id exists exactly when the URL contains /records/ or zenodo.; it is the text after the last /records/, else after the last zenodo.: a suffix of the URL that the marker precedes and that does not contain the marker again |
| DiskCache.FigshareArticleId | sys_sec_scrape.py:238-241 | the version suffix .v1 to .v9 is dropped first; a URL without figshare. is its own id; otherwise the id is a suffix that figshare. precedes and that contains no further figshare. |
| AltCommittee.CommaSplit | alternative_committee_scrape.py:175-181 | a line without a comma is all name and no affiliation; otherwise the name is the stripped text before the first comma (so it holds no comma) |
| AltCommittee.SplitParagraph | alternative_committee_scrape.py:145-165 | the accumulator loop over a paragraph's children computes the paragraph's lines |
| AltCommittee.ScanShape | alternative_committee_scrape.py:145-160 | the finished lines are stripped, and each one used up a line break |
| AltCommittee.ParagraphShape | alternative_committee_scrape.py:145-165 | a paragraph gives at most one line more than it has line breaks; every line is stripped |
| AltCommittee.UsenixLine | alternative_committee_scrape.py:167-189 | a kept line gives a member of the requested role whose cleaned name is longer than one character |
| AltCommittee.UsenixLineMeaning | alternative_committee_scrape.py:167-189 | a line gives a member exactly when it is not blank, not skipped (starts with http or [, or holds @; chairs only skip @) and its cleaned name is longer than one character; the affiliation is the cleaned text after the first comma |
| AltCommittee.ParseParagraph | alternative_committee_scrape.py:167-189 | the member loop gives the members of the paragraph's lines, in order |
| AltCommittee.ViewsRowMember | alternative_committee_scrape.py:68-83 | a views row gives a member, with a name longer than one character, built from the text before its em without a trailing comma |
| AltCommittee.ParseViewsRows | alternative_committee_scrape.py:51-84 | one member per views row that yields one, in order |
| AltCommittee.ParseBlock | alternative_committee_scrape.py:119-137 | the block after a heading is read as views rows or as a paragraph, and nothing else gives members |
| AltCommittee.WithRole | alternative_committee_scrape.py:284-288 | the same members in the same order, each with the given role |
| AltCommittee.DedupMembers | alternative_committee_scrape.py:291-297 | the seen-set loop keeps the first entry of each lower-cased name |
| AltCommittee.DedupMeaning | alternative_committee_scrape.py:291-297 | the kept names are those of the input, no two kept entries share a lower-cased name, and each kept entry is the first input entry with its name |
| AltCommittee.DedupKeepsChairsFirst | alternative_committee_scrape.py:290-297 | de-duplicating a list with its chairs first keeps the chairs first |
| AltCommittee.ChairWins | alternative_committee_scrape.py:290-297 | chairs then members, de-duplicated: the chairs come first, no name twice, every input name once, and a person who is both chair and member is listed as a chair |
| AltCommittee.CallForArtifactsUrl | alternative_committee_scrape.py:263-268 | a call-for-artifacts URL exists exactly for the five USENIX conferences in the slug table |
| AltCommittee.ScrapeUsenixCommittee | alternative_committee_scrape.py:248-301 | an unknown conference, a missing page or a page without members gives None; otherwise the committee is the co-chairs as chairs then the members of the last committee heading as members, de-duplicated by lower-cased name |
| AltCommittee.UsenixCommitteeShape | alternative_committee_scrape.py:280-301 | a USENIX committee lists its chairs first, each lower-cased name once, and a co-chair who is also listed as a member appears as a chair |
| AltCommittee.AsideChair | alternative_committee_scrape.py:330-341 | an aside with an h4 gives a chair whose collapsed name is longer than one character |
| AltCommittee.ChesChairs | alternative_committee_scrape.py:314-343 | only the first chair heading is read, and every entry found is a chair |
| AltCommittee.ChesSplitMeaning | alternative_committee_scrape.py:366-373 | the item is split at the first `(` where the pattern matches, because the lazy name group tries each `(` in turn: the `)` is the last character before the trailing white space, the inside is not empty, and neither the name nor the inside holds a line break since `.` stops there; the result is the name without its trailing white space and the inside; with no matching `(` the item is not split |
| AltCommittee.ChesSplitFirst | alternative_committee_scrape.py:366-369 | any `(` where the pattern matches, with no match at an earlier position, gives the split |
| AltCommittee.ChesSplitAtParen | alternative_committee_scrape.py:366 | `name(inside)` matches at the `(` right after the name when the name is not blank, the inside is not empty and neither holds a line break |
| AltCommittee.ChesNoEarlierParen | alternative_committee_scrape.py:366 | with no `(` in the name after its first character, the pattern matches at no position inside the name |
| AltCommittee.ChesSplitExample | alternative_committee_scrape.py:366-369 | an item of the form name(inside) splits into the name without its trailing white space and the inside, when the name has no `(` after its first character and neither part holds a line break |
| AltCommittee.ChesSplitBreakInside | alternative_committee_scrape.py:366-373 | a line break inside the only parentheses defeats the pattern, so the item is not split and is kept whole as the name |
| AltCommittee.ChesSplitLaterParen | alternative_committee_scrape.py:366-369 | with a line break inside the first parentheses, a later `(` on the next line gives the split, and the first parenthesised part stays in the name |
| AltCommittee.ChesSplitUnclosedParen | alternative_committee_scrape.py:366-369 | an unclosed `(` before a line break stays in the name when a later `(` closes the item |
| AltCommittee.ChesItemMember | alternative_committee_scrape.py:364-377 | a list item gives a member whose name is longer than one character |
| AltCommittee.ChesHtmlMembers | alternative_committee_scrape.py:345-381 | only the list under the first member heading is read, and every entry found is a member |
| AltCommittee.JsonMember | alternative_committee_scrape.py:403-407 | a JSON entry gives a member whose collapsed name is longer than one character |
| AltCommittee.ChesJsonOnlyKeepsRepeats | alternative_committee_scrape.py:437-440 | when the HTML page is not available, the JSON members are returned as they are, repeated names included |
| AltCommittee.ChesCommitteeShape | alternative_committee_scrape.py:412-433 | with the HTML page, chairs come first and each lower-cased name appears once |
| AltCommittee.PetsEntry | alternative_committee_scrape.py:496-511 | a dd entry gives a member only when the entry has at least three characters and the cleaned name is longer than two |
| AltCommittee.PetsCommittee | alternative_committee_scrape.py:482-515 | only the entries under the first committee term are read; a committee that is found is never empty |
| AltCommittee.GetAlternativeCommittees | alternative_committee_scrape.py:529-569 | a key is in the result exactly when it is needed and its site gives a committee, and it maps to that committee |
| AltCommittee.StoredCommittees | alternative_committee_scrape.py:547-569 | stored committees are never empty, and a key that is not letters followed by four digits is never stored |
| CommitteeScrape.LeadingLink | sys_sec_committee_scrape.py:31-33 | a markdown link at the front of a line is recognised only with non-empty link text, and its length lies within the line |
| CommitteeScrape.TrailingSpaces | sys_sec_committee_scrape.py:35 | the white-space run before a closing br tag lies within the text |
| CommitteeScrape.TrailingBr | sys_sec_committee_scrape.py:35 | a closing br tag (with or without a slash and blanks) is recognised only at the very end of the line |
| CommitteeScrape.ParseMemberLine | sys_sec_committee_scrape.py:7-57 | a parsed line names a real person: longer than one character and not a placeholder (you?, you, tba, tbd) |
| CommitteeScrape.SkippedLinesGiveNothing | sys_sec_committee_scrape.py:12-20 | empty lines, headings, separators and contact sentences give no member |
| CommitteeScrape.ParenthesesBeforeComma | sys_sec_committee_scrape.py:41-43 | when the cleaned line has both parentheses, the name is the text before the first opening parenthesis, even when the line also has a comma |
| CommitteeScrape.CommaSplit | sys_sec_committee_scrape.py:44-49 | without both parentheses, the first comma separates the name from the affiliation; without a comma the whole line is the name |
| CommitteeScrape.Classify | sys_sec_committee_scrape.py:82-96 | every line gets one heading kind |
| CommitteeScrape.ScanCollectsBodyLines | sys_sec_committee_scrape.py:82-100 | heading lines are never collected, every collected line is a non-heading line of the page, and a page with no heading collects nothing |
| CommitteeScrape.ScanLine | sys_sec_committee_scrape.py:83-100 | one iteration of the section loop: a heading switches the section, any other line goes to the current section's list |
| CommitteeScrape.ScanSections | sys_sec_committee_scrape.py:78-100 | the section loop collects the chair lines and the member lines of the scan |
| CommitteeScrape.ParseAll | sys_sec_committee_scrape.py:113-122 | every line gets one parse |
| CommitteeScrape.ParseAllAccepted | sys_sec_committee_scrape.py:7-57 | every parse that names somebody names a real person |
| CommitteeScrape.Members | sys_sec_committee_scrape.py:113-122 | the members the parses name, in order, all with the given role |
| CommitteeScrape.MembersAccepted | sys_sec_committee_scrape.py:113-122 | the members have exactly the names of the parses that name somebody |
| CommitteeScrape.AddIfNew | sys_sec_committee_scrape.py:130-134 | a member is appended only when the list has no entry of that name, and nothing before it changes |
| CommitteeScrape.AddNew | sys_sec_committee_scrape.py:129-134 | the AEC part only appends to the committee |
| CommitteeScrape.AddNewOnlyNew | sys_sec_committee_scrape.py:125-134 | the AEC part adds only members, only names not already present, and only names some parse gave |
| CommitteeScrape.ChairsFirst | sys_sec_committee_scrape.py:102-136 | in the assembled committee every chair comes before every member, and every name is a real one |
| CommitteeScrape.PageChairsFirst | sys_sec_committee_scrape.py:72-136 | the committee of any page lists its chairs first and only real names |
| CommitteeScrape.NoHeadingsFallback | sys_sec_committee_scrape.py:102-110 | with no section heading on the page, the scan collects nothing, so the committee is the AEC part alone |
| CommitteeScrape.AecPartAddsNoDuplicates | sys_sec_committee_scrape.py:125-134 | in the AEC top-up, a member is added only when no earlier entry has their name |
| CommitteeScrape.AnyNamed | sys_sec_committee_scrape.py:133 | the membership test is true exactly when some entry has the name |
| CommitteeScrape.AppendParsed | sys_sec_committee_scrape.py:113-122 | the parse loops append the members of the lines with the given role |
| CommitteeScrape.AppendNew | sys_sec_committee_scrape.py:129-134 | the AEC-part loop appends the members not already present |
| CommitteeScrape.ParseCommittee | sys_sec_committee_scrape.py:72-136 | the parsing part of the per-conference scrape computes the page's committee: the AEC part alone without sections, else chairs then members, topped up from the AEC part when there were no member lines and the page has the marker |
| CommitteeScrape.GetCommittees | sys_sec_committee_scrape.py:138-156 | a conference is in the result exactly when it is listed, matches, and its page downloads (committee.md, else organizers.md) and lists somebody; it maps to that committee, and the conferences run in the order they are listed, each once |
| CommitteeStats.ExtractConfYear | generate_committee_stats.py:93-98 | a key that is not letters followed by four digits gives the whole key upper-cased and no year |
| CommitteeStats.ExtractSplit | generate_committee_stats.py:93-98 | letters followed by four digits give the letters upper-cased and the digits' value (osdi2024 gives OSDI and 2024) |
| CommitteeStats.ConfArea | generate_committee_stats.py:389-398 | the area of a conference-year is systems, security or unknown |
| CommitteeStats.ConfAreaOfLetters | generate_committee_stats.py:389-398 | the area depends only on the lower-cased letters of the key: systems for the six systems conferences, security for the seven security ones |
| CommitteeStats.Words | generate_committee_stats.py:223 | splitting a name at single blanks gives at least one piece |
| CommitteeStats.WordKeys | generate_committee_stats.py:225-226 | one key per word, the word lower-cased |
| CommitteeStats.SuffixKeys | generate_committee_stats.py:227-229 | one key per inner suffix: the words from position one up to the last but one, joined by blanks and lower-cased |
| CommitteeStats.KeysOfMeaning | generate_committee_stats.py:220-229 | a university is indexed under its lower-cased full name, under each word when there are several, and under each inner suffix when there are more than two, and under nothing else |
| CommitteeStats.PutKeys | generate_committee_stats.py:221-229 | assigning a value to each key in turn adds exactly those keys, each giving that value, and leaves the other keys alone |
| CommitteeStats.NameIndex | generate_committee_stats.py:220-231 | the index built university by university is a well-formed dictionary |
| CommitteeStats.NameIndexKeys | generate_committee_stats.py:220-231 | a key is in the index exactly when some university is indexed under it |
| CommitteeStats.NameIndexLast | generate_committee_stats.py:220-231 | a key names the last university indexed under it: later universities overwrite earlier ones |
| CommitteeStats.OverridesWin | generate_committee_stats.py:103-231 | the manual overrides are appended after the downloaded list, so a key that an override has names an override |
| CommitteeStats.BuildIndex | generate_committee_stats.py:220-231 | the loops over the universities and their words and suffixes build the name index |
| CommitteeStats.IndexUni | generate_committee_stats.py:221-229 | one university's keys are assigned in order: the full name, the words, the suffixes |
| CommitteeStats.KeysAssembled | generate_committee_stats.py:221-229 | the keys of one university are assigned in three runs that compose to one |
| CommitteeStats.PutWords | generate_committee_stats.py:224-226 | the word loop indexes the university under each lower-cased word of its name |
| CommitteeStats.PutSuffixes | generate_committee_stats.py:227-229 | the suffix loop indexes the university under each inner suffix |
| CommitteeStats.RemoveTags | generate_committee_stats.py:237 | removing tags never makes the text longer |
| CommitteeStats.NoTagUnchanged | generate_committee_stats.py:237 | a text without an opening angle bracket has no tag to remove |
| CommitteeStats.TagRemoved | generate_committee_stats.py:237 | a leading tag such as br is removed and the rest is handled the same way |
| CommitteeStats.CleanAffiliation | generate_committee_stats.py:234-240 | the cleaned affiliation has no blank at either end and no run of white space |
| CommitteeStats.CleanAffiliationIdempotentOnTidy | generate_committee_stats.py:234-240 | cleaning leaves an already clean affiliation unchanged |
| CommitteeStats.PrefixMatches | generate_committee_stats.py:253-256 | every prefix match is an index key that starts with the affiliation |
| CommitteeStats.BestMatch | generate_committee_stats.py:259-265 | the best key, when there is one, is a position in the key list |
| CommitteeStats.BestMatchMeaning | generate_committee_stats.py:259-265 | the best key has the highest ratio, every key before it has a strictly lower one (the first key wins ties), and there is no best key when no ratio is positive |
| CommitteeStats.FuzzyBest | generate_committee_stats.py:259-265 | the best-ratio loop computes the best match |
| CommitteeStats.Classification | generate_committee_stats.py:243-270 | an empty affiliation is never classified |
| CommitteeStats.ClassifyByPrefix | generate_committee_stats.py:253-256 | when some key starts with the affiliation, the result is the university of such a key |
| CommitteeStats.ClassifyByRatio | generate_committee_stats.py:258-268 | without a prefix match, the affiliation is classified exactly when some key's ratio is above 80, and then as the university of the first key with the highest ratio |
| CommitteeStats.ClassifyMember | generate_committee_stats.py:243-270 | the classification with its fuzzy loop gives the classification above |
| CommitteeStats.Continent | generate_committee_stats.py:36-90 | a country not in the table has continent Unknown |
| CommitteeStats.AddTo | generate_committee_stats.py:303-307 | adding to a counter raises only that key's count, and a new key goes last |
| CommitteeStats.TallyMeaning | generate_committee_stats.py:303-307 | each key is counted as often as it occurs, and a key is present exactly when it occurs |
| CommitteeStats.Located | generate_committee_stats.py:299-302 | a member is located only when the classification of the cleaned affiliation gives a non-empty country |
| CommitteeStats.Partition | generate_committee_stats.py:302-313 | within a conference-year, every member is either counted or listed as failed, never both |
| CommitteeStats.CountedOnce | generate_committee_stats.py:303-307 | every located member is counted once in each of the country, continent and institution counters, so each counter's total is the number of located members |
| CommitteeStats.IncrementTotal | generate_committee_stats.py:304-307 | one more count raises a counter's total by one |
| CommitteeStats.CountMember | generate_committee_stats.py:298-313 | one member bumps all three counters when located, and otherwise is listed as failed with its cleaned affiliation |
| CommitteeStats.ClassifyConference | generate_committee_stats.py:293-313 | the member loop of a conference-year gives its counts and its failures |
| CommitteeStats.ByConfMeaning | generate_committee_stats.py:293-322 | every listed conference-year has its own counts, and no other key appears |
| CommitteeStats.ClassifyCommittees | generate_committee_stats.py:273-322 | the counts of every conference-year and the members that could not be classified, conference by conference in key order |
| CommitteeStats.AddCountsMeaning | generate_committee_stats.py:341-346 | adding a conference-year's counts raises each key by that key's count |
| CommitteeStats.AggregateMeaning | generate_committee_stats.py:325-350 | each aggregated count is the sum of that key's counts over the conference-years the area accepts |
| CommitteeStats.AreaTotals | generate_committee_stats.py:341-349 | the systems and security totals of a key add up to at most its overall total, and to exactly that total when every conference-year is systems or security |
| CommitteeStats.AggregateAcrossConferences | generate_committee_stats.py:325-350 | the overall, systems and security totals are the aggregates over all conference-years, over the systems ones and over the security ones |
| CommitteeStats.AddConference | generate_committee_stats.py:340-349 | one conference-year's counts are added to the overall totals and to its own area's totals only |
| CommitteeStats.LinkText | generate_committee_stats.py:684-686 | a leading markdown link with non-empty text gives that text, which holds no closing bracket |
| CommitteeStats.DropBr | generate_committee_stats.py:688 | removing a final br tag leaves a prefix of the text |
| CommitteeStats.CleanName | generate_committee_stats.py:682-688 | the cleaned name is stripped |
| CommitteeStats.CleanEntry | generate_committee_stats.py:679-702 | a kept entry has a real name (not a placeholder, longer than one character), no contact text, and the member's role |
| CommitteeStats.CleanCommittee | generate_committee_stats.py:679-703 | the cleaning loop keeps the cleaned entries in order |
| CommitteeStats.CleanedValid | generate_committee_stats.py:666-676 | a cleaned committee is valid exactly when it has at least five entries |
| Recurring.NormalizeAsWritten | generate_committee_stats.py:409-424 | the name key as the program computes it (strip, lower-case, decompose, drop combining marks and dots, collapse white space) is tidy: no leading, trailing or doubled blank |
| Recurring.AsWrittenNotIdempotent | generate_committee_stats.py:416-418 | lower-casing before the decomposition is not idempotent: the black-letter H keys to "H", whose own key is "h" |
| Recurring.NormalizeName | generate_committee_stats.py:416-423 | the key with lower-casing after the decomposition is tidy too |
| Recurring.NormalizeIdempotent | generate_committee_stats.py:416-423 | the corrected key is its own key: normalising twice changes nothing |
| Recurring.SettledKey | generate_committee_stats.py:416-423 | a tidy text made of characters that no step changes is its own key |
| Recurring.KeySettled | generate_committee_stats.py:416-423 | every character of a corrected key is one that no step of the key changes |
| Recurring.AttendServed | generate_committee_stats.py:460-526 | one member entry with a non-empty name stores the updated record under its name key |
| Recurring.AttendElsewhere | generate_committee_stats.py:460-526 | one member entry leaves the records of every other key as they were |
| Recurring.KeyStep | generate_committee_stats.py:460-470 | after one entry a key has a record exactly when it had one before or the entry is counted under it |
| Recurring.KeyPresent | generate_committee_stats.py:454-470 | a key has a record exactly when at least one entry with a non-empty name was counted under it |
| Recurring.ReadingStep | generate_committee_stats.py:493-526 | one entry adds 1 to each counter of the key that counts it (overall, systems or security; memberships, chairs, the entry's year) and leaves every other counter |
| Recurring.TenureCounted | generate_committee_stats.py:493-526 | every counter of every scope of a record equals the number of entries counted under its key for that scope: memberships, chair roles, the entries of each year; 0 for a key with no record |
| Recurring.TrackStep | generate_committee_stats.py:493-526 | the track one entry leaves under its key: the old track credited with the entry's conference, year and role when the scope counts it |
| Recurring.YearsSeen | generate_committee_stats.py:497-499 | the years of a record's track are exactly the years of the entries it counts |
| Recurring.NameKeyed | generate_committee_stats.py:468-470 | the display name stored under a key is a name whose key it is |
| Recurring.AffiliationRule | generate_committee_stats.py:505-508 | an entry with a non-empty affiliation replaces the stored affiliation and display name when the stored one is empty or its year is at least every year seen before (on equal years the later entry wins); otherwise both stay |
| Recurring.LatestSeen | generate_committee_stats.py:505-508 | the "latest year" test on the stored years holds exactly when no earlier entry under the key has a later year |
| Recurring.UpdateRecord | generate_committee_stats.py:493-526 | the in-place counter, set and affiliation updates of one membership give the record `Update` describes |
| Recurring.AddRecord | generate_committee_stats.py:460-526 | the loop body for one member entry yields the member map after that entry |
| Recurring.CollectConference | generate_committee_stats.py:459-526 | the inner loop over one conference-year's members extends the member map by those entries in order |
| Recurring.CollectMembers | generate_committee_stats.py:454-526 | the member loop builds the member map of every entry of every conference-year in the results' order, keyed by the program's name key |
| RecurringLists.UpdateFormed | generate_committee_stats.py:493-526 | one membership keeps a record's invariants: the areas set names exactly the areas with memberships, and the systems and security counters together are at most the overall ones |
| RecurringLists.MemberMapFormed | generate_committee_stats.py:454-526 | every record of the member map satisfies those invariants |
| RecurringLists.RecurringMeaning | generate_committee_stats.py:528-529 | a key passes the recurring filter exactly when at least two entries were counted under it or at least one as chair |
| RecurringLists.RecurringKeysMember | generate_committee_stats.py:528-529 | a key is in the filtered list exactly when it is a map key whose record has two or more memberships or a chair role |
| RecurringLists.FilterRecurring | generate_committee_stats.py:528-529 | the filter loop keeps the recurring keys in the member map's order |
| RecurringLists.AreaActive | generate_committee_stats.py:563-565 | whoever passes an area's filter passes the overall one |
| RecurringLists.AreaListsComplete | generate_committee_stats.py:562-596 | building the area lists from the recurring records only loses nobody: the same entries as from all records |
| RecurringLists.AreaLabelMeaning | generate_committee_stats.py:531-540 | the label is both, systems or security exactly when the corresponding area counters are non-zero, unknown when neither is |
| RecurringLists.YearPairs | generate_committee_stats.py:550 | one pair per listed year, carrying that year and its count |
| RecurringLists.ProfileFields | generate_committee_stats.py:543-554 | the entry carries the record's name, affiliation, counters of the scope and label, and its conferences in strictly ascending order without losing or adding one |
| RecurringLists.ProfileYears | generate_committee_stats.py:550 | the per-year part of an entry lists exactly the track's years in strictly ascending order, each with its positive count |
| RecurringLists.ProfileSpan | generate_committee_stats.py:551-552 | the first year is the least year of the track and the last the greatest; both are absent exactly when there is no year |
| RecurringLists.ProfileOrderStrict | generate_committee_stats.py:559 | the entry order (more memberships, then more chair roles, then the name) is a strict order |
| RecurringLists.ProfileOrderTotal | generate_committee_stats.py:559 | two entries with different names are always ordered one way or the other |
| RecurringLists.SortProfiles | generate_committee_stats.py:559 | the sorted list is a permutation of the entries, ordered by more memberships, then more chair roles, then the name |
| RecurringLists.ListingMember | generate_committee_stats.py:543-556 | every listed entry is the entry of a listed key that passes the scope's filter |
| RecurringLists.ListingComplete | generate_committee_stats.py:543-556 | every listed key that passes the scope's filter has its entry listed |
| RecurringLists.KeyEntry | generate_committee_stats.py:468-526 | the entry of a key has a display name with that key and the numbers of memberships and chair roles counted under it |
| RecurringLists.ListedCounts | generate_committee_stats.py:529-596 | every entry of a list speaks for the key of its display name: its counters are the numbers of entries counted under that key, and they pass the scope's filter |
| RecurringLists.BuildProfile | generate_committee_stats.py:543-554 | the entry built for one record and scope is that record's profile |
| RecurringLists.ListProfiles | generate_committee_stats.py:562-577 | one list loop gives the entries of the recurring keys that pass the scope's filter, in order |
| RecurringLists.MaxMemberships | generate_committee_stats.py:603 | the largest membership count of a list is at least every entry's, attained by one entry, and 0 for an empty list |
| RecurringLists.MaxIsFirst | generate_committee_stats.py:559-603 | in a sorted non-empty list the first entry has the most memberships |
| RecurringLists.SummarizeLists | generate_committee_stats.py:598-604 | the summary gives the three list lengths, the number of entries with a chair role and the largest membership count |
| RecurringLists.RecurringMembers | generate_committee_stats.py:427-606 | the sorted combined, systems and security lists and their summary, as the report function describes them |
| Statistics.ExtractConferenceName | generate_statistics.py:38-43 | a key of letters followed by four digits splits into the letters and the digits; any other key is returned whole with no year |
| Statistics.ExtractJoined | generate_statistics.py:38-43 | letters followed by four digits are split back into exactly those letters and digits |
| Statistics.SplitBadges | generate_statistics.py:57-58 | a comma-separated badge text gives one stripped piece per comma-separated part |
| Statistics.CountBadgeField | generate_statistics.py:59-68 | one badge raises each counter exactly when its lower-cased text contains that counter's word, independently of the other counters |
| Statistics.CountListField | generate_statistics.py:59-68 | a badge list raises each counter by the number of badges that pass its test |
| Statistics.CountBadgesMeaning | generate_statistics.py:45-70 | each counter holds the number of badges of all artifacts that pass its test (one badge can raise several), and `replicated` stays 0 |
| Statistics.AddBadges | generate_statistics.py:59-68 | the badge loop of one artifact adds its badges to the counters |
| Statistics.CountArtifactBadges | generate_statistics.py:45-70 | the artifact loop counts the badges of every artifact with a truthy badges value |
| Statistics.BadgesOf | generate_statistics.py:56-58 | the badges looked at for one artifact: none for a missing or falsy value, the stripped comma pieces of a text, the text items of a list, and none for any other value |
| Dicts.Merge | generate_statistics.py:171 | the union keeps every key of either dict, a key of the second takes the second's value, and the keys run in the first's order followed by the second's new keys in the second's order |
| Dicts.PutAllKeys | generate_statistics.py:171 | writing distinct keys one after another lists the old keys first, then the keys that were new, in the order written |
| Statistics.CombineResults | generate_statistics.py:171 | the combined results hold every key of any of the four sources, with the value of the last source that has it |
| Statistics.FallbackTargetMeaning | generate_statistics.py:102-115 | the USENIX fallback is tried exactly for a directory without parsed results whose letters name a USENIX conference and whose year parses and matches, with that conference's short name, year and category |
| Statistics.FallbackStepMeaning | generate_statistics.py:102-126 | one directory changes only its own entry, and only when the scrape returns artifacts with badges |
| Statistics.FallbackMeaning | generate_statistics.py:102-126 | the fallback keeps exactly the listed directories it fetched, each with its scraped artifacts and its conference's category |
| Statistics.TryFallback | generate_statistics.py:103-126 | one iteration of the fallback loop performs that directory's step |
| Statistics.UsenixFallback | generate_statistics.py:102-126 | the fallback loop runs over the discovered directories in sorted order |
| Statistics.CollectHandled | generate_statistics.py:135-139 | the handled set is the lower-cased conference names of every discovered or fallback directory |
| Statistics.AcmMeaning | generate_statistics.py:141-166 | the ACM pass records exactly the keys of conferences not already handled whose year key matches and whose scrape returns, with an empty list when no artifact has badges |
| Statistics.TryAcmYear | generate_statistics.py:146-166 | one proceedings year of the ACM loop performs that year's step |
| Statistics.ScrapeAcmYears | generate_statistics.py:145-166 | the year loop of one ACM conference visits its proceedings years in ascending order |
| Statistics.ScrapeAcm | generate_statistics.py:141-166 | the ACM loop over the conference table performs the pass the ACM function describes |
| StatisticsTables.CategoryOf | generate_statistics.py:193-210 | systems for a sysartifacts key; otherwise the category the USENIX pass recorded (systems by default), else the one the ACM pass recorded (security by default), else security |
| StatisticsTables.FallbackDisjoint | generate_statistics.py:102-104 | the USENIX fallback never scrapes a key that sysartifacts or secartifacts parsed |
| StatisticsTables.UsenixEntry | generate_statistics.py:171-202 | a key scraped by the USENIX fallback and not by ACM keeps the USENIX artifacts in the merged results and is counted under the category recorded for it |
| StatisticsTables.FirstTruthyMeaning | generate_statistics.py:240-243 | a chain of `or` gives the first truthy value when there is one, and the last value otherwise |
| StatisticsTables.ArtifactUrlMeaning | generate_statistics.py:245-247 | a truthy artifact URL is kept; any other truthy result is the first item of a list-valued artifact URL list |
| StatisticsTables.AppendEntries | generate_statistics.py:235-257 | the entry loop of one conference-year appends one entry per artifact, in order |
| StatisticsTables.RowOf | generate_statistics.py:218-225 | a year's row carries its year and the number of its artifacts |
| StatisticsTables.CountArtifacts | generate_statistics.py:193-210 | the artifacts of a conference-year are added to exactly one of the two counters |
| StatisticsTables.TabulateOneCounts | generate_statistics.py:190-257 | one conference-year adds its length to the systems counter when its category is systems and to the security counter otherwise, and one entry per artifact when it has a year |
| StatisticsTables.TabulateCounts | generate_statistics.py:190-210 | the systems counter sums the lengths of the systems conference-years, the security counter those of all others |
| StatisticsTables.TabulateEntryCount | generate_statistics.py:235-257 | the artifact list holds one entry per artifact of a key with a year |
| StatisticsTables.SharesAddUp | generate_statistics.py:190-210 | the systems and security shares of the keys add up to their total length |
| StatisticsTables.CountersCoverAll | generate_statistics.py:190-210 | every artifact of every conference-year is counted by exactly one of the two counters |
| StatisticsTables.AddYearTotals | generate_statistics.py:229-232 | adding a year's row keeps each conference's total equal to the sum of its rows |
| StatisticsTables.DatedRows | generate_statistics.py:212-232 | after a dated key every conference row carries a year of that conference |
| StatisticsTables.DatedEntries | generate_statistics.py:212-257 | after a dated key every listed entry names a conference of the table with a year and category |
| StatisticsTables.DatedFormed | generate_statistics.py:212-257 | a dated key keeps the table's shape: totals agree with rows, rows are dated, entries are known |
| StatisticsTables.TabulateFormed | generate_statistics.py:190-257 | the whole loop keeps that shape |
| StatisticsTables.AddDated | generate_statistics.py:212-257 | the part of the loop body for a key with a year performs the dated update |
| StatisticsTables.RowFor | generate_statistics.py:216-225 | the year's row: its artifact count and its badge counters |
| StatisticsTables.AddConfYear | generate_statistics.py:227-232 | the conference's entry after the year's row, total, category and venue type are recorded |
| StatisticsTables.TabulateStep | generate_statistics.py:191-257 | one conference-year of the loop performs that key's step |
| StatisticsTables.TabulateAll | generate_statistics.py:190-257 | the loop over the merged results, in their order, builds the table the fold describes |
| StatisticsReport.YearTotalsMeaning | generate_statistics.py:295-303 | a year has a tally exactly when some entry has that year; its total is the number of its entries and its systems and security counts the numbers of its entries of each category |
| StatisticsReport.CategoriesWithinTotal | generate_statistics.py:295-303 | a year's systems and security counts never add up to more than its total |
| StatisticsReport.YearlyTotals | generate_statistics.py:295-303 | the yearly-totals loop over the artifact list builds that tally |
| StatisticsReport.YearCounts | generate_statistics.py:305-313 | one row per listed year, each with that year's counts |
| StatisticsReport.ByYearMeaning | generate_statistics.py:305-313 | the yearly rows list every year of the tally exactly once, in strictly ascending order, each with its counts |
| StatisticsReport.YearlyRows | generate_statistics.py:305-313 | the loop builds the rows of `artifacts_by_year` |
| StatisticsReport.ConferenceRowOf | generate_statistics.py:262-292 | a conference's row keeps its name, category, venue type and total, and lists its year rows sorted by year without losing or adding one |
| StatisticsReport.ConferenceRows | generate_statistics.py:284-292 | one row per listed conference, each that conference's row |
| StatisticsReport.ConferenceTable | generate_statistics.py:284-292 | the loop gives the rows of `artifacts_by_conference` in ascending order of name |
| StatisticsReport.RangeBounds | generate_statistics.py:277 | the first and last of the sorted years are their minimum and maximum |
| StatisticsReport.Summarize | generate_statistics.py:269-279 | the summary: the numbers of entries and conferences, the two counters, the conference names sorted, the systems and the security conferences sorted, and the year range text |
| StatisticsReport.BuildOutput | generate_statistics.py:356-362 | the output: the summary, the conference rows, the yearly rows and the artifact list of the tables |
| StatisticsReport.GenerateStatistics | generate_statistics.py:73-362 | the output is that of the tables of the merged results of sysartifacts, secartifacts, the USENIX fallback over the sorted discovered directories and the ACM pass over the conferences not already handled |
| StatisticsReport.SummaryCounts | generate_statistics.py:190-273 | the summary's systems and security counters share out every artifact of every merged conference-year; the total counts the entries of the dated keys |
| StatisticsReport.YearRowsCount | generate_statistics.py:295-313 | every yearly row counts exactly the listed artifacts of its year, and the rows ascend by year |
| ResultsScrape.FirstNoneOfKind | sys_sec_artifacts_results_scrape.py:64-73 | with non-empty targets, the first link of a kind is empty exactly when no link is of that kind |
| ResultsScrape.LastNoneOfKind | sys_sec_artifacts_results_scrape.py:64-73 | with non-empty targets, the last link of a kind is empty exactly when no link is of that kind |
| ResultsScrape.NoneOfKind | sys_sec_artifacts_results_scrape.py:64-73 | the first and the last link of a kind are empty exactly when no link is of that kind |
| ResultsScrape.ResolvedLinksMeaning | sys_sec_artifacts_results_scrape.py:64-139 | with non-empty targets the link loop's artifact URL is the last artifact-host link, and its repository URL is the last repository-host link, else the first other link |
| ResultsScrape.ResolveLinks | sys_sec_artifacts_results_scrape.py:64-139 | the link loop of both parsers computes that pair |
| ResultsScrape.ResultRecord | sys_sec_artifacts_results_scrape.py:75-153 | the record carries the title and the comma-joined badges, and a paper, repository or artifact URL exactly when that URL is non-empty |
| ResultsScrape.HtmlLinkKinds | sys_sec_artifacts_results_scrape.py:65-73 | one classified link per link of the URL cell, each classified by its text and target |
| ResultsScrape.ParseHtmlRow | sys_sec_artifacts_results_scrape.py:28-84 | the body of the HTML parser for one row gives that row's record or nothing |
| ResultsScrape.ParseHtmlResults | sys_sec_artifacts_results_scrape.py:12-87 | one record per accepted table row, in document order |
| ResultsScrape.HtmlRowShape | sys_sec_artifacts_results_scrape.py:35-75 | an HTML record always has an accepted title (not empty, not the header) and a badge, a repository or an artifact |
| ResultsScrape.HtmlBadgesKeepRepeats | sys_sec_artifacts_results_scrape.py:47-57 | HTML badges are not de-duplicated: two available spans give the badge twice |
| ResultsScrape.BracketText | sys_sec_artifacts_results_scrape.py:109-112 | the title text is non-empty and holds no closing bracket |
| ResultsScrape.LinkAtFront | sys_sec_artifacts_results_scrape.py:131 | a markdown link at the front has a non-empty target and a length within the text |
| ResultsScrape.MarkdownLinks | sys_sec_artifacts_results_scrape.py:131 | every markdown link found has a non-empty target |
| ResultsScrape.MarkdownLinkKinds | sys_sec_artifacts_results_scrape.py:132-139 | one classified link per markdown link, each classified by its text |
| ResultsScrape.UrlRun | sys_sec_artifacts_results_scrape.py:142 | the URL run at the front is no longer than the text |
| ResultsScrape.MarkdownBadges | sys_sec_artifacts_results_scrape.py:117-124 | the markdown badges are distinct and drawn from available, functional and reproduced |
| ResultsScrape.ParseMarkdownCells | sys_sec_artifacts_results_scrape.py:105-153 | the body of the markdown parser for the cells of one row gives that row's record or nothing |
| ResultsScrape.ParseMarkdownRow | sys_sec_artifacts_results_scrape.py:101-153 | the body of the markdown parser for one line gives that line's record or nothing |
| ResultsScrape.ParseMarkdownLines | sys_sec_artifacts_results_scrape.py:100-153 | one record per accepted line, in order |
| ResultsScrape.ParseMarkdownTableResults | sys_sec_artifacts_results_scrape.py:90-157 | the lines of the text at line breaks give one record per accepted line, in order |
| ResultsScrape.MarkdownRowMeaning | sys_sec_artifacts_results_scrape.py:127-153 | a markdown record never carries a paper URL; its repository URL is the last repository-host link, else the first other link, else the first bare GitHub URL; its artifact URL is the last artifact-host link |
| ResultsScrape.MarkdownSkipsNonRows | sys_sec_artifacts_results_scrape.py:101-103 | lines that are not table rows, and separator rows, yield nothing |
| ResultsScrape.SpaceRun | sys_sec_artifacts_results_scrape.py:195 | the white-space run starting at a position is all white space and maximal |
| ResultsScrape.LineEndAtOrBefore | sys_sec_artifacts_results_scrape.py:195 | the last position of a range that ends the text or precedes a line break, and none when no position does |
| ResultsScrape.SeparatorEnd | sys_sec_artifacts_results_scrape.py:195 | a delimiter match at a position spans at least its three dashes and ends within the text |
| ResultsScrape.NextSeparator | sys_sec_artifacts_results_scrape.py:195 | a match found at or after a position is a delimiter line there: three dashes at a line start, then white space up to a line end |
| ResultsScrape.NextSeparatorFirst | sys_sec_artifacts_results_scrape.py:195 | the match found is the first: no earlier position from the start point matches |
| ResultsScrape.NextSeparatorNone | sys_sec_artifacts_results_scrape.py:195 | no match is found only when no position from the start point matches |
| ResultsScrape.FrontMatterSplit | sys_sec_artifacts_results_scrape.py:195-196 | the split gives one to three parts, and at least two exactly when the text has a delimiter line |
| ResultsScrape.FlattenIssues | sys_sec_artifacts_results_scrape.py:207-209 | the issue loop concatenates the artifact lists of the issues in order |
| ResultsScrape.FrontMatterArtifactsMeaning | sys_sec_artifacts_results_scrape.py:195-211 | a front-matter result needs a delimiter line and a truthy mapping loaded from the front matter; a mapping with `artifacts` gives exactly that value, and otherwise the result is the non-empty concatenation, in order, of the artifact lists of its `issues` list |
| ResultsScrape.ParsedDocument | sys_sec_artifacts_results_scrape.py:192-228 | a front-matter result wins; otherwise any result is a non-empty list of records |
| ResultsScrape.ParseResultsDocument | sys_sec_artifacts_results_scrape.py:192-228 | the parsing step for one document: front matter, then HTML rows, then markdown rows |
| ResultsScrape.FirstDownload | sys_sec_artifacts_results_scrape.py:174-186 | the first results file name that downloads gives the text; none when no file name does |
| ResultsScrape.DownloadFirst | sys_sec_artifacts_results_scrape.py:172-185 | the results files are tried in order and the text of the first that downloads is returned; `None` only when neither downloads |
| ResultsScrape.DownloadResults | sys_sec_artifacts_results_scrape.py:168-189 | the downloaded texts are exactly those of the matching conferences with a file that downloads, each the first such file, and the keys run in the order the conferences are listed, each once |
| ResultsScrape.ParseResults | sys_sec_artifacts_results_scrape.py:190-230 | the parsed results hold exactly the documents in which some strategy finds artifacts, each with those artifacts, in the order of the downloaded results |
| ResultsScrape.GetAeResults | sys_sec_artifacts_results_scrape.py:160-230 | for every matching conference, the artifacts of the first results file that downloads and parses, and no other conference; the conferences run in the order they are listed, each once |
| ResultsMd.BadgeTotalMeaning | generate_sysartifacts_results.py:55-57 | a badge total is the number of papers whose badge list holds that badge, positive exactly when some paper holds it, and the number of papers when all do |
| ResultsMd.BackslashEscapeMisreads | generate_sysartifacts_results.py:63 | escaping only the quotes lets a backslash followed by an escape letter read back as that escape, not as the title written |
| ResultsMd.TrailingBackslashUnclosed | generate_sysartifacts_results.py:63-67 | a title that ends in a backslash escapes the closing quote and leaves the double-quoted scalar unclosed |
| ResultsMd.EscapeTitleReplaces | generate_sysartifacts_results.py:63 | the corrected escape doubles every backslash and then escapes every quote |
| ResultsMd.EscapeTitleRoundTrip | generate_sysartifacts_results.py:63-67 | with the corrected escape every title without control characters reads back from the double-quoted scalar unchanged |
| ResultsMd.QuotedLine | generate_sysartifacts_results.py:67-70 | a line made of an opening, any text and a closing quote reads back as that text |
| ResultsMd.BadgesNotUrl | generate_sysartifacts_results.py:69-70 | a badges line is never read as a paper URL line |
| ResultsMd.PaperRead | generate_sysartifacts_results.py:61-71 | the lines of one paper read back as its entry, followed by whatever the rest reads as |
| ResultsMd.ArtifactLinesRead | generate_sysartifacts_results.py:60-71 | the artifact lines read back as one entry per paper, in order: the quote-escaped title, the paper URL exactly when there is one, and the comma-joined badges |
| ResultsMd.BuildArtifactLines | generate_sysartifacts_results.py:60-71 | the loop fills the artifact lines of every paper, in order |
| ResultsMd.ArtifactsYamlTrim | generate_sysartifacts_results.py:73 | stripping the joined lines removes exactly the blank line after the last paper; with no papers the block is empty; the block never ends in white space |
| ResultsMd.ArtifactsYamlLast | generate_sysartifacts_results.py:73 | with at least one paper the block is the lines without the last, blank one, joined, and ends with a quote |
| ResultsMd.FrontMatterDelimited | generate_sysartifacts_results.py:75-87 | the page opens with a delimiter line and its front matter closes with a delimiter line right after the artifacts block, on a line of its own |
| ResultsMd.YearPageMeaning | generate_sysartifacts_results.py:176-212 | a year gets a page exactly when one of its scraped papers has a badge; the page lists exactly the badged papers in scraped order, and a four-digit year's page goes to the prefix, its last two digits and `/results.md` |
| ResultsMd.RenderPage | generate_sysartifacts_results.py:41-134 | the page text computed by the loop is the document of the papers: front matter, badge totals, the fixed table |
| ResultsMd.WritePage | generate_sysartifacts_results.py:205-211 | the file of one page carries its path and rendered text |
| ResultsMd.WritePages | generate_sysartifacts_results.py:172-212 | the year loop writes one file per year with badged papers, in year order, under the lower-cased directory prefix (the conference when none is given) |
| AuthorTitles.FirstFragmentMeaning | generate_author_stats.py:42-49 | a fragment is found exactly when the booktitle contains one of the table's fragments, and it is the first such in table order |
| AuthorTitles.VenueOfMeaning | generate_author_stats.py:42-49 | a venue is found exactly when the booktitle is non-empty and contains a fragment, and it is the conference of the first such fragment |
| AuthorTitles.VenueToConferenceMeaning | generate_author_stats.py:22-49 | with the program's sixteen-fragment table, a conference is given exactly when the booktitle is non-empty and contains a fragment, and it is that of the first one |
| AuthorTitles.NormalizeShape | generate_author_stats.py:51-59 | a normalised title has single blanks between words, none at either end, and only lower-case word characters |
| AuthorTitles.PlainFixed | generate_author_stats.py:56 | a text of lower-case word characters and blanks is left alone by lowering and by the punctuation filter |
| AuthorTitles.NormalizeIdempotent | generate_author_stats.py:51-59 | normalising a normalised title changes nothing |
| AuthorTitles.FirstByTitleMeaning | generate_author_stats.py:74-89 | a normalised title is collected exactly when some artifact with a usable title has it; the table has an entry for exactly the collected titles, and it is the first artifact with that title |
| AuthorTitles.ExtractPaperTitles | generate_author_stats.py:74-89 | the loop gives the set of collected titles and the first artifact of each |
| AuthorDblp.AddNamesMeaning | generate_author_stats.py:147-151 | a name already present keeps its affiliation; a new non-empty name gets the record's affiliation; no other name is added |
| AuthorDblp.AddVenueMeaning | generate_author_stats.py:166-171 | after filing one publication a title is filed under an author, conference and year exactly when it was before or this publication files it there |
| AuthorDblp.StoppedFinal | generate_author_stats.py:165-200 | once a year that does not parse as an integer stops the scan, the rest of the stream changes nothing |
| AuthorDblp.StepPapers | generate_author_stats.py:174-193 | one element either leaves the papers and the wanted titles alone, or is a wanted publication that appends its paper and removes its title from the wanted set |
| AuthorDblp.MatchedOnce | generate_author_stats.py:174-193 | the found papers carry their normalised titles, each wanted title is matched at most once, and the found and still-wanted titles partition the wanted ones |
| AuthorDblp.AffiliationsMeaning | generate_author_stats.py:135-153 | first write wins: a name has an affiliation exactly when some person record lists it with one, and it is the affiliation of the first such record |
| AuthorDblp.StepKeepsAffiliations | generate_author_stats.py:150-151 | an affiliation, once recorded, is never replaced |
| AuthorDblp.StepVenues | generate_author_stats.py:155-171 | one step that does not stop the scan files a titled publication and leaves the venue papers alone otherwise |
| AuthorDblp.VenuesMeaning | generate_author_stats.py:155-171 | a title is filed under an author, a conference and a year exactly when some publication at that tracked venue, by that author, in that year (0 when none is given), has that normalised title |
| AuthorDblp.RecordAffiliation | generate_author_stats.py:149-151 | the alias loop of a person record adds the affiliation to its new names |
| AuthorDblp.RecordVenue | generate_author_stats.py:167-171 | the filing loop of a publication files its title under each of its authors |
| AuthorDblp.ScanPerson | generate_author_stats.py:135-153 | the body for a person record gives the person step's affiliations |
| AuthorDblp.ScanPublication | generate_author_stats.py:155-195 | the body for a publication gives the publication step |
| AuthorDblp.ScanStream | generate_author_stats.py:128-197 | the element loop gathers the papers, venue papers and affiliations of the scan |
| AuthorDblp.ParseDblpForAuthors | generate_author_stats.py:91-213 | the artifact papers found, the venue papers and the affiliations, as gathered up to the end of the stream or up to the error that stops it |
| AuthorStats.CreditAllCounts | generate_author_stats.py:256-267 | each badge counter grows by the number of badges of its grade (the first of available, functional, reproduc the lower-cased badge contains) |
| AuthorStats.GradesExclusive | generate_author_stats.py:262-267 | the `if`/`elif` chain counts a badge at most once: the three counts add up to the number of badges that mention any of the three |
| AuthorStats.TallyCounts | generate_author_stats.py:256-267 | counted from zero, the three counters add up to the number of graded badges |
| AuthorStats.ListedRecord | generate_author_stats.py:243-255 | one more listing of an author gives the record built from all the author's listings so far |
| AuthorStats.AuthorMapMeaning | generate_author_stats.py:242-267 | an author has a record exactly when some paper lists them, and the record is the one built from all the papers listing them, in order |
| AuthorStats.AuthorOrder | generate_author_stats.py:242-278 | authors appear in the order of their first listing |
| AuthorStats.ListingsCount | generate_author_stats.py:242-246 | an author's listing count is the total number of times the papers list them |
| AuthorStats.TotalPapersMeaning | generate_author_stats.py:303-329 | an author's paper total counts every distinct title filed under them at any tracked conference, whether or not they have an artifact there |
| AuthorStats.TotalBound | generate_author_stats.py:303-329 | the total is at least the count of each single conference |
| AuthorStats.EntryLists | generate_author_stats.py:279-358 | an entry's conferences and years are ascending and exactly those of the author's record; the recent count is at most the number of years; the year range is non-empty exactly when there is a year |
| AuthorStats.EntryCounts | generate_author_stats.py:241-364 | an entry built from an author's papers names the author, counts those papers and lists them in order, with exactly their conferences and years |
| AuthorStats.EntryName | generate_author_stats.py:345-348 | an entry carries the author's name |
| AuthorStats.CrossDomain | generate_author_stats.py:288-374 | with one entry per name, the cross-domain authors are exactly those counted both as systems and as security authors, so that count is at most each of the other two |
| AuthorStats.RankedFacts | generate_author_stats.py:367 | the output is sorted by artifact count, highest first, a permutation of the entries, one per author |
| AuthorStats.AuthorEntryFacts | generate_author_stats.py:241-364 | the entry of every listed author: the artifact count is the number of listings, the papers are those listings in order, the paper total is the number of distinct titles filed under the author, and the affiliation is the recorded one or empty |
| AuthorStats.EntryNames | generate_author_stats.py:278 | the entries name each author at most once: no two entries share a name |
| AuthorStats.BreakdownFacts | generate_author_stats.py:370-374 | the breakdown's cross-domain count is that of the intersection of the systems and security authors |
| AuthorStats.CreditBadges | generate_author_stats.py:260-267 | the badge loop computes the graded credit of the badges |
| AuthorStats.ListPaper | generate_author_stats.py:244-255 | one paper for one of its authors updates that author's record and no other |
| AuthorStats.ListStats | generate_author_stats.py:245-255 | the record of an author after one more paper |
| AuthorStats.CollectPaper | generate_author_stats.py:243-267 | the author loop of one paper extends the record map by its listings |
| AuthorStats.CollectAuthors | generate_author_stats.py:242-267 | the paper loop builds the record map of all listings |
| AuthorStats.BuildEntry | generate_author_stats.py:279-364 | the entry of one author |
| AuthorStats.FileCategory | generate_author_stats.py:288-299 | an entry of category both joins all three sets, systems and security only their own set, unknown none |
| AuthorStats.FileEntry | generate_author_stats.py:288-299 | filing one more entry keeps the three sets equal to those of the entries so far |
| AuthorStats.BuildEntries | generate_author_stats.py:278-365 | the entry loop gives every author's entry in order of first appearance, with the three category sets |
| AuthorStats.AggregateAuthorStatistics | generate_author_stats.py:215-377 | the author entries sorted by artifact count and the category breakdown of all entries |
| AreaAuthors.ConfAeYearsMeaning | generate_area_authors.py:45-53 | a conference has AE years exactly when some entry lists it with years; the last such entry gives them, and they are non-empty |
| AreaAuthors.BuildConfAeYears | generate_area_authors.py:45-53 | the loop builds that map |
| AreaAuthors.UnionMembers | generate_area_authors.py:58-59 | a year is in the union exactly when it is an AE year of one of the conferences |
| AreaAuthors.AreaYearsMeaning | generate_area_authors.py:57-59 | a year is an area AE year exactly when it is an AE year of one of the area's conferences |
| AreaAuthors.RangeMeaning | generate_area_authors.py:60-61 | with AE years the range runs from their least to their greatest, both attained; without, it is the overall range |
| AreaAuthors.AreaRange | generate_area_authors.py:57-61 | the union loop followed by `min` and `max` gives that range |
| AreaAuthors.WindowCount | generate_area_authors.py:74-81 | summing the yearly counts over a window counts the dated papers in that window |
| AreaAuthors.LastFiveMeaning | generate_area_authors.py:62-81 | the last-five count is the number of area papers dated in the five years up to the area's last year, so at most the total |
| AreaAuthors.YearsDataMeaning | generate_area_authors.py:84-86 | the per-year data runs from the last year down to the first, one entry per year, each with that year's count |
| AreaAuthors.CountYears | generate_area_authors.py:74-78 | the counting loop gives each year the number of area papers with that (truthy) year |
| AreaAuthors.BuildYears | generate_area_authors.py:84-86 | the loop fills the per-year data from the last year down |
| AreaAuthors.CountBadges | generate_area_authors.py:88-99 | the badge loops count, for each level, every badge of every area paper that passes its test |
| AreaAuthors.ScoreMeaning | generate_area_authors.py:126-131 | the score is never negative, and when reproduced is at most functional, which is at most the total, it is total plus functional plus reproduced |
| AreaAuthors.ConfTotalMeaning | generate_area_authors.py:107-121 | a conference with per-year data and AE years contributes only the counts of its AE years; otherwise its per-conference total, 0 when absent |
| AreaAuthors.SumAeYears | generate_area_authors.py:112-115 | the inner loop sums the counts of the AE years |
| AreaAuthors.ConfShare | generate_area_authors.py:108-121 | the loop body gives one conference's share |
| AreaAuthors.AreaTotalPapers | generate_area_authors.py:104-121 | the loop over the area's conferences sums their shares |
| AreaAuthors.AreaPapersNonEmpty | generate_area_authors.py:69-71 | the author has area papers exactly when one of their papers is at an area conference |
| AreaAuthors.AreaPapersConf | generate_area_authors.py:148 | a conference is one of the area papers' conferences exactly when it is in the area and the author has a paper there |
| AreaAuthors.EntryOfMeaning | generate_area_authors.py:66-151 | an author is listed exactly when they have a paper in the area; the entry then counts exactly those papers, at most that many in the last five years, and lists exactly their area conferences |
| AreaAuthors.SumLastFive | generate_area_authors.py:81 | the loop sums the last-five count |
| AreaAuthors.AuthorEntry | generate_area_authors.py:67-151 | the loop body gives the entry of one author |
| AreaAuthors.ByRankStrict | generate_area_authors.py:154 | the ranking order (higher score, then higher total, then name) is a strict order |
| AreaAuthors.SortAuthors | generate_area_authors.py:154 | the sorted list is a permutation of the entries, in ranking order |
| AreaAuthors.CompetitionRank | generate_area_authors.py:156-161 | in a list sorted by the key the loop's rank of an entry is one more than the number of entries with a strictly higher score |
| AreaAuthors.AssignRanks | generate_area_authors.py:156-161 | the ranking loop gives each position its loop rank |
| AreaAuthors.AreaAuthorList | generate_area_authors.py:55-163 | one ranked entry per sorted entry, in order |
| AreaAuthors.RanksMeaning | generate_area_authors.py:156-161 | on a sorted list the first rank is 1, scores never rise, a tie keeps the rank, a lower score takes its position plus one, and every rank is one more than the number of higher scores |
| AreaAuthors.AreaAuthorListMeaning | generate_area_authors.py:55-163 | the list holds the entries of exactly the authors with area papers, sorted by score, total and name, each ranked one more than the number of entries with a higher score |
| AreaAuthors.ProcessArea | generate_area_authors.py:55-163 | the method computes that list |
| Institutions.InstitutionOfMeaning | generate_institution_rankings.py:33-37 | an empty, `Unknown` or `_`-prefixed stripped affiliation is pooled under `Unknown`; any other stands for itself, stripped |
| Institutions.InstitutionKey | generate_institution_rankings.py:33-37 | the key computed for a person is the pooled institution of the model |
| Institutions.MergeYearsMeaning | generate_institution_rankings.py:63-65 | merging a person's years adds each year's count to the institution's; the merged years are those of either side |
| Institutions.MergeKeysCounts | generate_institution_rankings.py:64-65 | after adding the counts of a list of years, a year's count grows by its value exactly when it is listed |
| Institutions.MergeYearsLoop | generate_institution_rankings.py:64-65 | the loop over `person['years'].items()` yields the merged counts |
| Institutions.AbsorbedTotals | generate_institution_rankings.py:41-47 | each of the seven counters of an institution is the sum of that counter over its people |
| Institutions.AbsorbedSnoc | generate_institution_rankings.py:39-65 | the record after the last person is that person absorbed into the record of those before |
| Institutions.AbsorbedAuthors | generate_institution_rankings.py:40-56 | the record lists one author row per person, in input order, under the institution's name |
| Institutions.AbsorbedConferences | generate_institution_rankings.py:59-60 | a conference is recorded exactly when one of the institution's people lists it |
| Institutions.AbsorbedYears | generate_institution_rankings.py:63-65 | the count of a year is the sum of its people's counts of that year |
| Institutions.AggregateAt | generate_institution_rankings.py:18-65 | `inst_data` has a record for an institution exactly when some person belongs to it, and it is that of its people absorbed in input order |
| Institutions.AggregateKeys | generate_institution_rankings.py:39-69 | institutions are visited in the order of their first person |
| Institutions.AddPerson | generate_institution_rankings.py:32-65 | one person is added to `inst_data` as the fold step of the model |
| Institutions.RowTotals | generate_institution_rankings.py:80-90 | the row of an institution with people names it, each counter is the sum over its people and `num_authors` is their number |
| Institutions.RowTop | generate_institution_rankings.py:76-91 | `top_authors` is at most 20 author rows of the institution's people, at most as many as it has, sorted by score descending, drawn from them, none left out scoring higher than one kept, and of equal-score rows the earliest in input order |
| Institutions.RowMerges | generate_institution_rankings.py:92-93 | the row's conferences are, sorted, those of any of its people, and its count of each year is the sum of theirs |
| Institutions.ListRow | generate_institution_rankings.py:69-94 | one iteration yields the row of the institution exactly when its combined score is at least 3 |
| Institutions.ListRows | generate_institution_rankings.py:68-94 | the conversion loop keeps, in `inst_data` order, the rows scoring at least 3 |
| Institutions.RowListed | generate_institution_rankings.py:79-94 | a kept row is that of a recorded institution with a combined score of at least 3 |
| Institutions.InstitutionsSorted | generate_institution_rankings.py:97 | the output is sorted by combined score descending, is a permutation of the kept rows, and rows of equal score keep their `inst_data` order |
| Institutions.InstitutionsComplete | generate_institution_rankings.py:79-97 | every institution whose people sum to a combined score of at least 3 has its row in the output |
| Institutions.InstitutionsSound | generate_institution_rankings.py:79-97 | every output row is that of an institution with people, scoring at least 3 |
| Institutions.AggregateByInstitution | generate_institution_rankings.py:16-99 | the method returns the sorted, filtered row list the lemmas above describe |
| Profiles.CleanMeaning | generate_author_profiles.py:36-38 | a cleaned name has single blanks as its only white space and none at either end, keeps only characters of its input, and cleaning it again changes nothing |
| Profiles.CleanIdempotent | generate_author_profiles.py:36-38 | cleaning twice is cleaning once, for every text |
| Profiles.IndexMeaning | generate_author_profiles.py:40-41 | a cleaned name is in the index exactly when some entry cleans to it, and it maps to the last such entry |
| Profiles.AffiliationMeaning | generate_author_profiles.py:53-55 | the affiliation is the author's own when non-empty, else the ranking's when non-empty, else the AE record's, else empty, always cleaned |
| Profiles.AuthorProfilesAt | generate_author_profiles.py:46-80 | after the first loop a cleaned name has a profile exactly when some author cleans to it, and it is built from the last such author |
| Profiles.AuthorProfileMeaning | generate_author_profiles.py:46-112 | after both loops every artifact author's cleaned name keeps the profile built from the last author with it, named by it, with scores exactly when a ranking cleans to it and service exactly when an AE member does |
| Profiles.MemberProfileMeaning | generate_author_profiles.py:87-111 | an AE-only profile has the cleaned name, no papers, zero artifact counts, the member's years in strictly increasing order and each of them, and the member's service record |
| Profiles.MemberStepKeeps | generate_author_profiles.py:84-86 | the second loop's step leaves the profile under a clean key untouched |
| Profiles.MembersKeep | generate_author_profiles.py:83-86 | the whole second loop never replaces the profile under a clean key |
| Profiles.MemberStepFormed | generate_author_profiles.py:83-112 | one step keeps the dict well formed and every profile named by its cleaned key, drops no key, and gives the member a profile under their cleaned or raw name |
| Profiles.MembersAdded | generate_author_profiles.py:83-112 | after both loops every AE member has a profile under their cleaned or their raw name |
| Profiles.RawKeysRepeatNames | generate_author_profiles.py:85-112 | since the presence test cleans the name but the insert uses the raw one, two AE-only members whose raw names differ but clean alike both get a profile, with the same name |
| Profiles.ByKeyStrict | generate_author_profiles.py:115-120 | the order (combined score descending, artifact count descending, name ascending) is a strict order |
| Profiles.SortProfiles | generate_author_profiles.py:115-120 | the sorted list is a permutation of the profiles and is ordered by that key |
| Profiles.ProfileListMeaning | generate_author_profiles.py:115-120 | the written list is ordered, has one entry per profile key, and holds every artifact author's profile |
| Profiles.ValuesAll | generate_author_profiles.py:116 | `profiles.values()` has one value per key |
| Profiles.BuildMemberProfile | generate_author_profiles.py:88-111 | the method builds the AE-only profile of the model, with the years sorted |
| Profiles.AddAuthors | generate_author_profiles.py:46-80 | the first loop computes the fold of the author step |
| Profiles.AddMemberStep | generate_author_profiles.py:84-112 | one member step computes the model's step |
| Profiles.AddMembers | generate_author_profiles.py:83-112 | the second loop computes the fold of the member step |
| Profiles.GenerateProfiles | generate_author_profiles.py:21-124 | the method returns the sorted profile list the lemmas above describe |
| RepoStats.FlatKeys | generate_repo_stats.py:43-47 | `rstrip('s')` turns the two list keys into `artifact_url` and `additional_url` |
| RepoStats.FirstUrl | generate_repo_stats.py:45-46 | a URL the list yields is a non-empty text |
| RepoStats.FirstUrlMeaning | generate_repo_stats.py:45-49 | the value written is the non-empty text at the smallest index, and there is none exactly when the list holds no non-empty text |
| RepoStats.FillFold | generate_repo_stats.py:45-49 | the element loop fills the single-valued key with the list's first URL, and only when that key was absent or falsy |
| RepoStats.FlattenedMeaning | generate_repo_stats.py:43-49 | flattening a list key sets its single-valued key to the list's first URL only when the value is a list and the key is absent or falsy; no other key changes |
| RepoStats.FlattenList | generate_repo_stats.py:45-49 | the element loop computes the flattened artifact of the model |
| RepoStats.FlattenResults | generate_repo_stats.py:41-49 | the flattening loops keep the conference-year keys and flatten every artifact of every list |
| RepoStats.ArtKeysMeaning | generate_repo_stats.py:55-57 | a key is noted for an artifact exactly when it is one of the URL keys and the artifact has a truthy value under it |
| RepoStats.TableKeysMeaning | generate_repo_stats.py:52-57 | a URL key is present exactly when it is one of the keys and some artifact of some conference-year has a truthy value under it |
| RepoStats.PresentKeys | generate_repo_stats.py:52-57 | the scan computes that set |
| RepoStats.KeptKeysMeaning | generate_repo_stats.py:58 | the kept keys are the present ones among the URL keys, in the URL keys' order |
| RepoStats.UrlSourceMeaning | generate_repo_stats.py:91-99 | a URL mentioning `github` goes to GitHub whatever else it mentions; Zenodo only without `github`; Figshare only without either; none otherwise |
| RepoStats.FirstPerUrlNorms | generate_repo_stats.py:83-86 | the kept candidates cover every normalised URL of the candidates |
| RepoStats.FirstPerUrlDistinct | generate_repo_stats.py:83-86 | no two kept candidates share a normalised URL |
| RepoStats.FirstPerUrlFirst | generate_repo_stats.py:83-86 | each kept candidate is the first candidate with its normalised URL |
| RepoStats.RaisedStays | generate_repo_stats.py:83 | once a walk has raised, further visits leave it raised |
| RepoStats.WalkedRaised | generate_repo_stats.py:75-86 | the walk raises exactly when a visit whose exists flag and URL are truthy has a URL that is not text, so `rstrip` fails |
| RepoStats.WalkedMeaning | generate_repo_stats.py:67-115 | a walk that does not raise has seen exactly the normalised URLs of its candidates, and its entries are those of the first candidate per normalised URL, in order, whose statistics were fetched |
| RepoStats.AllSlotsShape | generate_repo_stats.py:70-77 | every visit is of a conference-year key with a year: its conference and year are that key's, its artifact one of that key's and its URL key one of the kept keys |
| RepoStats.RaisedPrefix | generate_repo_stats.py:75-86 | a walk that raises on a prefix of the visits raises on all of them |
| RepoStats.VisitUrl | generate_repo_stats.py:77-113 | the body of the URL-key loop computes the model's visit |
| RepoStats.Walk | generate_repo_stats.py:70-115 | the loop over the results computes the walk over all visits |
| RepoStats.CollectStatsForResults | generate_repo_stats.py:33-115 | flattening, narrowing to the present keys (an empty result when none are), the existence check and the walk compose to the collection of the model; an exception is `None` |
| RepoAggregate.Cut | generate_repo_stats.py:164 | the description is at most 120 characters, a prefix of the text, the whole text when it is no longer; a falsy one reads as empty |
| RepoAggregate.TotalsMeaning | generate_repo_stats.py:142-196 | every counter of a tally is the sum of what its entries contribute (stars and forks of GitHub entries, views and downloads of Zenodo entries) |
| RepoAggregate.ReposCount | generate_repo_stats.py:150-194 | `github_repos` and `zenodo_repos` count the entries of their source |
| RepoAggregate.PeakMeaning | generate_repo_stats.py:153-180 | `max_stars` and `max_forks` are non-negative bounds on every GitHub entry; a positive one is attained by one, and with no GitHub entry they are 0 |
| RepoAggregate.AccFold | generate_repo_stats.py:121-168 | the per-conference accumulator is the counters, the per-year counters and the GitHub entry list side by side |
| RepoAggregate.ByConfAt | generate_repo_stats.py:121-196 | `by_conf` has a conference exactly when a GitHub or Zenodo entry belongs to it, and holds the tallies of those entries |
| RepoAggregate.ByYearAt | generate_repo_stats.py:129-192 | `by_year` has a year exactly when a GitHub or Zenodo entry has it, and holds the tally of those entries |
| RepoAggregate.RowKeys | generate_repo_stats.py:204-235 | the conference rows are in strictly ascending name order and name exactly the conferences with a counted entry; likewise the year rows and years |
| RepoAggregate.ConfRowMeaning | generate_repo_stats.py:204-232 | each conference row carries the sums and maxima over its entries, the year rows of its GitHub entries, and the top five of its GitHub entries by stars |
| RepoAggregate.YearRowMeaning | generate_repo_stats.py:235-248 | each year row carries the sums and maxima over that year's entries |
| RepoAggregate.ConfRowsSum | generate_repo_stats.py:176-232 | `github_repos`, `total_stars` and `total_forks` of the conference rows add up to the overall ones |
| RepoAggregate.ConfRowsByGroup | generate_repo_stats.py:204-232 | the conference rows' counter, summed, is the sum of the per-conference sums |
| RepoAggregate.ConfGroupsCover | generate_repo_stats.py:142-196 | the per-conference sums over the listed conferences add up to the total |
| RepoAggregate.YearRowsSum | generate_repo_stats.py:176-248 | `github_repos`, `total_stars` and `total_forks` of the year rows add up to the overall ones |
| RepoAggregate.TallySnoc | generate_repo_stats.py:142-196 | one more entry updates its conference and its year (created with zero counters when new) when it is a GitHub or Zenodo entry, and always goes through the overall tally |
| RepoAggregate.Tally | generate_repo_stats.py:142-196 | the loop computes `by_conf`, `by_year` and `overall` of the model |
| RepoAggregate.BuildYearRows | generate_repo_stats.py:208-218 | the per-year list of one conference is that of the model |
| RepoAggregate.BuildConfRows | generate_repo_stats.py:203-232 | `conf_stats` is one row per conference, in sorted order |
| RepoAggregate.BuildYearStats | generate_repo_stats.py:234-248 | `year_stats` is one row per year, in sorted order |
| RepoAggregate.AggregateStats | generate_repo_stats.py:118-256 | the output is the aggregation of the model, which the lemmas above describe |
| RepoCheck.NormaliseUrlCases | test_artifact_repositories.py:16-24 | a non-empty text is kept, with `https://doi.org/` in front when it starts with `10.`; a list stands for its first element; anything else, an empty text or an empty list gives `None` |
| RepoCheck.NormaliseUrlStable | test_artifact_repositories.py:16-24 | a normalised URL is non-empty text, and normalising it again keeps it |
| RepoCheck.CheckedMeaning | test_artifact_repositories.py:38-66 | checking an artifact touches only the key and its `_exists` flag; the key then holds the normalised URL and the flag the check's answer; an artifact with no usable URL is left as it was |
| RepoCheck.TallyOne | test_artifact_repositories.py:38-70 | every counted artifact either lacks the key or was checked, and every check either found its URL or failed it, so `exists <= total` |
| RepoCheck.TallyBalance | test_artifact_repositories.py:38-70 | the found count, the failures and the artifacts without the key add up to `total` |
| RepoCheck.FlagAllChecks | test_artifact_repositories.py:64-66 | applying the jobs of every conference to the rewritten artifacts gives the checked artifacts of the model |
| RepoCheck.FlagAllShape | test_artifact_repositories.py:64-66 | the jobs change neither the conferences nor the number of their artifacts |
| RepoCheck.JobsOfFound | test_artifact_repositories.py:64-68 | a conference's `exists` count is the number of its jobs whose URL exists, 0 for a conference not listed |
| RepoCheck.JobsOfFailed | test_artifact_repositories.py:64-70 | the failures of the second pass are those of the conferences, in conference order and artifact order |
| RepoCheck.FailedOfMember | test_artifact_repositories.py:64-70 | every failed URL is the normalised URL of an artifact of one of the conferences, and its check failed |
| RepoCheck.FoundsTotals | test_artifact_repositories.py:36-68 | the first pass's totals with the found jobs added are the counts of every conference |
| RepoCheck.RewriteConference | test_artifact_repositories.py:38-47 | the first pass over one conference normalises each value in place, appends one job per usable URL, and counts the artifacts lacking the key or having a usable URL |
| RepoCheck.Gather | test_artifact_repositories.py:35-47 | the first pass over all conferences gives the rewritten table, the jobs in order and a zero-`exists` count per conference |
| RepoCheck.Apply | test_artifact_repositories.py:64-70 | the second pass sets every job's flag, counts the found URLs per conference and appends the others to `failed` |
| RepoCheck.CheckKey | test_artifact_repositories.py:32-70 | both passes over one URL key check every artifact, give the counts of every conference and append the failed URLs in conference order |
| RepoCheck.CheckArtifactExists | test_artifact_repositories.py:27-72 | the results keep their conference keys with every artifact checked key by key; `counts` and `failed` are those of the model |
| RepoCheck.CountsAllBounded | test_artifact_repositories.py:37-68 | for every URL key and conference, `exists <= total` |
| CollectStats.SourceOfMeaning | collect_artifact_stats.py:27-35 | a URL mentioning `zenodo` goes to Zenodo, else one mentioning `figshare` to Figshare, else one mentioning `github` to GitHub; one naming none has no source |
| CollectStats.CollectedMeaning | collect_artifact_stats.py:26-38 | collecting changes only `stats`, and only for a flagged artifact whose URL has a source and whose fetched statistics are non-empty; then `stats` holds the fetched values overridden by those already there |
| CollectStats.ReadyKept | collect_artifact_stats.py:23-38 | collecting for one key leaves an artifact fit for the next key |
| CollectStats.CollectedAllReady | collect_artifact_stats.py:23-38 | an artifact fit for a key stays fit after collecting for any keys |
| CollectStats.CollectedAllKeeps | collect_artifact_stats.py:23-38 | flags, URLs and every field but `stats` survive collecting for any keys, and so do the statistics already there |
| CollectStats.CollectOne | collect_artifact_stats.py:26-38 | the loop body computes `Collected` for one artifact and key |
| CollectStats.CollectForKey | collect_artifact_stats.py:25-38 | the artifact loop updates each artifact of the conference, in place, for the key |
| CollectStats.CollectConference | collect_artifact_stats.py:23-38 | the URL-key loop collects each artifact for every key in order |
| CollectStats.CollectTable | collect_artifact_stats.py:22-38 | the conference loop collects every conference of the table |
| CollectStats.GetAllArtifactStats | collect_artifact_stats.py:21-42 | the results keep their keys and every conference's artifacts are collected for every URL key |
| TopRepos.CleanMeaning | add_top_repos.py:51 | the cleaned title is a prefix of the stripped title, what it drops is dots, and it ends in no dot |
| TopRepos.TitleAuthorsCredits | add_top_repos.py:48-53 | building the map author by author enters every (title, author) credit in turn |
| TopRepos.EnteredAt | add_top_repos.py:51-53 | a title has an entry exactly when someone is credited with it, and its list is every credited author in credit order |
| TopRepos.EnteredKeys | add_top_repos.py:51-53 | the map's keys are the non-empty titles in the order they were first met |
| TopRepos.TitleAuthorsMeaning | add_top_repos.py:43-54 | every title credited to someone maps to the list of authors credited with it |
| TopRepos.TitlesHaveAuthors | add_top_repos.py:52-53 | a title appears exactly when it is non-empty and someone is credited with it |
| TopRepos.BuildTitleAuthorMap | add_top_repos.py:47-54 | the loops build that map |
| TopRepos.TitleBadgesMeaning | add_top_repos.py:57-66 | a title has badges exactly when some artifact with truthy badges cleans to it, and the last such artifact wins |
| TopRepos.NoteArtifacts | add_top_repos.py:61-65 | the inner loop folds one conference-year's artifacts into the map |
| TopRepos.BuildTitleBadgesMap | add_top_repos.py:59-66 | the outer loop builds the map over all conference-years in order |
| TopRepos.FindAuthors | add_top_repos.py:69-79 | a non-empty exact match on the cleaned title is the answer; without one, a cleaned title shorter than 25 characters gets no authors |
| TopRepos.FindByPrefix | add_top_repos.py:73-78 | without an exact match, a title of at least 25 characters takes the authors of the first key, in the map's order, starting with its first 25 characters, and none when no key does |
| TopRepos.FindRecorded | add_top_repos.py:71-72 | a paper someone is credited with gets exactly the authors credited with it |
| TopRepos.FindUnrecorded | add_top_repos.py:73-79 | a title shorter than 25 characters that no one is credited with gets no authors |
| TopRepos.ExtractGithubOrg | add_top_repos.py:82-93 | the owner never contains a `/` |
| TopRepos.OrgFromName | add_top_repos.py:84-87 | with an `owner/repo` name cached, the owner is the text before its first `/` |
| TopRepos.OrgFromUrl | add_top_repos.py:89-93 | otherwise the owner is the text after the first `github.com/` up to the next `/`; a URL without `github.com/` gives `''` |
| TopRepos.AuthorsTextMeaning | add_top_repos.py:161 | up to five authors are joined by commas; beyond five, the first five are joined and followed by ` et al.` |
| TopRepos.DescribeMeaning | add_top_repos.py:147-165 | a description of at most 120 characters is kept; a longer one is its first 120 characters followed by `...` |
| TopRepos.LastActiveMeaning | add_top_repos.py:146-153 | a push date gives its first seven characters, and nothing exactly when it is empty or `NA` |
| TopRepos.WalkedInv | add_top_repos.py:117-167 | every conference's list is non-empty, each entry has a GitHub URL, and the normalised URLs are distinct, whatever the cache holds |
| TopRepos.WalkedSeen | add_top_repos.py:126-134 | every GitHub URL the walk passes is marked seen, whether or not its statistics are cached |
| TopRepos.VisitMeaning | add_top_repos.py:126-167 | one URL key keeps the account: an unseen GitHub URL is marked seen and, when its cached statistics are a non-empty object, adds its entry to the end of its own conference's list; any other key changes nothing |
| TopRepos.WalkedMeaning | add_top_repos.py:117-167 | the walk has seen exactly the normalised GitHub URLs of the visits, and each conference's list holds, in visit order, the entry of every first visit per normalised URL that is of that conference and whose statistics are a non-empty object; a conference is listed exactly when it has one |
| TopRepos.VisitUrl | add_top_repos.py:127-167 | the loop body computes the model's visit |
| TopRepos.WalkResults | add_top_repos.py:120-167 | the loop over the results, skipping keys without a year, computes the walk over all visits |
| TopRepos.WithTopMeaning | add_top_repos.py:178-191 | a row keeps every other field and gets `top_repos` as the list of its entries |
| TopRepos.TopOfMeaning | add_top_repos.py:180-190 | a known conference gets at most five entries, by stars descending, drawn from its entries, none outranked by one left out and, among equal stars, the earliest; an unknown one gets none |
| TopRepos.TopFromWalk | add_top_repos.py:117-184 | after the walk a row whose name is text is listed exactly when its conference has an entry by the independent account, and its top repositories are the five most-starred of those entries: at least one, each with a GitHub URL |
| TopRepos.TopWalked | add_top_repos.py:117-181 | a listed conference's row names at least one repository, each with a GitHub URL |
| TopRepos.FillTopRepos | add_top_repos.py:177-191 | the loop fills every row and `updated` counts the rows of known conferences |
| TopRepos.AddTopRepos | add_top_repos.py:96-197 | the method builds both maps, walks the results and fills the rows as the model says |
| ConfYears.SplitConfYear | generate_repo_stats.py:26-30 | a key that matches gives letters and four digits which, joined, are the key without a final line break |
| ConfYears.SplitJoined | generate_repo_stats.py:27 | every key of letters followed by four digits, with or without a final line break (which `$` admits), is split back into them |
| ConfYears.SplitUnique | generate_repo_stats.py:27 | a split key is exactly its letters followed by its digits, possibly with a final line break |
| Ordering.StrLtIrreflexive | generate_repo_stats.py:204 | Python's string comparison never puts a string below itself |
| Ordering.StrLtTransitive | generate_repo_stats.py:204 | it is transitive |
| Ordering.StrLtTotal | generate_repo_stats.py:204 | of two different strings one is below the other |
| Ordering.SortBy | generate_institution_rankings.py:97 | `sort(key=..., reverse=True)` returns a permutation of its input, sorted by the strict order |
| Ordering.SortByStable | generate_institution_rankings.py:97 | the sort is stable: the elements of a tie class come out in their input order |
| Ordering.SortDescStable | generate_institution_rankings.py:97 | sorting by descending key keeps the elements of each key value in their input order |
| Ordering.SortByMembers | generate_institution_rankings.py:97 | the sorted output holds exactly the elements of its input |
| Ordering.InsertFilter | generate_institution_rankings.py:97 | inserting an element places it after every element tied with it |
| Ordering.TopByMeaning | generate_institution_rankings.py:76 | `sorted(..., reverse=True)[:n]` keeps `n` elements or all when there are fewer, sorted by descending key, drawn from the input, none left out with a larger key than a kept one, and of equal keys the earliest in the input |
| Ordering.TopTies | generate_institution_rankings.py:76 | among the elements of one key, the cut keeps a prefix of them in input order |
| Ordering.SortedSet | generate_institution_rankings.py:92 | `sorted(set)` lists each element of the set once, in strictly ascending order |
| Ordering.AscendingUnique | generate_institution_rankings.py:92 | two strictly ascending sequences with the same elements are equal, so the sorted list of a set is determined by the set |
| Ordering.SortStrings | generate_repo_stats.py:204 | `sorted(by_conf.keys())` is the sorted list of the set |
| Ordering.SortInts | generate_repo_stats.py:235 | `sorted(by_year.keys())` is the sorted list of the set |

## Left out

- File I/O, the command-line `main` functions, `print`/logging, and the YAML and JSON writers. Their inputs and outputs are values here.
- Network sessions, urllib3 `Retry`, back-off and `time.sleep` (sys_sec_scrape.py:15-41). Responses come from oracles, and sleeping is not observable.
- The thread pools (acm_scrape.py:272, usenix_scrape.py:200, test_artifact_repositories.py:53). Each is a sequential loop over its task list, so completion order and the racy `nonlocal` counters are not modelled.
- BeautifulSoup and lxml tree walking. Pages and DBLP streams are abstract sequences of headings, rows, cells, images and elements.
- Floating-point rates and averages are not modelled:
  - `artifact_rate`, `repro_rate` and `functional_rate` in generate_author_stats.py;
  - the repository averages in generate_repo_stats.py:198-218;
  - the area rates in generate_area_authors.py:125-127;
  - `artifact_rate` and its rounding in generate_institution_rankings.py:72-73.
- The charts: all of generate_visualizations.py, and generate_committee_stats.py:963-1235.
- sys_sec_scrape_no_api.py (plain HTTP plus substring scraping of the DOM) and parse_dlbp.py (XML streaming).
- The remaining committee statistics functions: `_build_yearly_series`, `_top_n`, `_compute_institution_timeline` and `generate_committee_data` (generate_committee_stats.py:353-706). They only reshape tallies that are modelled for chart and JSON output.
- CommitteeStats.NameIndex: the country-to-continent table and the override list are partial (generate_committee_stats.py:36-218), with a few representative entries each. The index rules are modelled over any table.
- The helpers that only delegate are not separate members: `get_conferences_from_prefix` / `download_file` (sys_sec_scrape.py:313-319), `get_acm_conferences` and acm `scrape_conference_year` (acm_scrape.py:298-337), `get_all_usenix_committees` (alternative_committee_scrape.py:572-591) and `load_artifacts` (generate_author_stats.py:61-72). The functions they call are modelled.
- usenix `scrape_conference_year` (usenix_scrape.py:171-217): its thread pool appends results in completion order, so only the per-page function and the link list are modelled.
- UsenixScrape.PresentationLinks, UsenixScrape.ScrapePaperPage: the `usenix` and `usenix_paper` cache namespaces (usenix_scrape.py:68-88, 106-167) are not modelled. Each starts from a fetched page, as on a cache miss.
- AcmScrape.DblpPapers: the `acm_dblp` cache (acm_scrape.py:109-125, 155) is not modelled. The DBLP hits are given. The `acm_badges` cache of the badge scraper is modelled. The title and author conversions of the hits are those of AcmScrape.HitTitle, AcmScrape.AuthorNames and AcmScrape.ReadHit below, with the error paths named there.
- Strings.IsWordChar, Strings.LowerChar, Strings.Lower: the model folds case, and treats characters as word characters or digits, for ASCII only. Python's `str.lower()` and the regex classes `\w`, `\d` and `\s` are Unicode. So AuthorTitles.NormalizeTitle maps "Déjà Vu" to "dj vu" where the program gives "déjà vu", and "naïve" and "nave" collide. The same ASCII folding holds in the committee name-index keys (CommitteeStats.NameIndex) and in the digit test that splits conference-year keys (ConfYears.SplitConfYear, CommitteeStats.ExtractConfYear).
- Json.Json: there is no floating-point variant, so averages and scores read from JSON are not represented. `Object` is an unordered map, so the key order of dicts read from or dumped to JSON files is not modelled.
  - Dicts whose iteration order the code observes are `Dicts.Dict`, which keeps keys in first-insertion order. These are the result tables keyed by conference-year, the tallies iterated in order, and the indexes built with "last one wins".
  - `Object` is used only where no order is observed.
- AuthorStats.AggregateAuthorStatistics: requires `Usable` papers, meaning a text conference, an integer year and text badges. On other inputs the program raises TypeError, and that error path is not modelled.
- AuthorTitles.ExtractPaperTitles: requires each truthy title to be text (`TitleText`). The program raises when `lower()` is called on a non-text title.
- TopRepos.AddTopRepos: requires `FormedArtifact` / `FormedStats` and a `name` in every author row. The program raises TypeError or KeyError on the malformed inputs.
- RepoAggregate.AggregateStats: requires `WellFormed` entries. The KeyError and TypeError paths of malformed statistics are not modelled.
- CollectStats.GetAllArtifactStats: requires `Ready` artifacts. `Ready` does not ask for a `title`, so the KeyError that `artifact["title"]` raises in the two logging branches (collect_artifact_stats.py:34, 40) on an artifact without a title is not modelled.
- AreaAuthors.ConfTotal: the years of `total_papers_by_conf_year` are integers in the model. The `int(yr)` conversion of a text key, and its ValueError on a malformed one (generate_area_authors.py:113), are not modelled.
- AcmScrape.HitTitle: a title that is not text after the `text` of a dict is taken (a number, null, a boolean or a list) makes `rstrip` raise AttributeError (acm_scrape.py:137). The model prints the value as Python's `str` would and strips that, so the error path is not modelled.
- AcmScrape.AuthorNames: a dict entry whose `text` (or `@pid`) is not text makes the join raise TypeError (acm_scrape.py:144, 150), and a list entry is printed by `str` as a Python list. The model prints scalar values as `str` would and gives "" for a list, so neither is modelled.
- AcmScrape.ReadHit: besides the conversions of HitTitle and AuthorNames, a hit or an `authors` value that is not a dict raises AttributeError (acm_scrape.py:131, 138), and a text `author` value is iterated one character per author (acm_scrape.py:142). The model reads a missing field there and gives no authors for a text value, so these paths are not modelled.
- AcmScrape.PipelineEntryMeaning: a truthy text `badges` value is joined one character per badge, a dict contributes its keys, and a list with an item that is not text makes the join raise TypeError (acm_scrape.py:323). The model joins only the text items of a list and gives "" for any other value, so these paths are not modelled.
- AcmScrape.ToPipelineFormat: its entries are those of PipelineEntryMeaning, with the same badge conversion left out.
- DiskCache.RepoStats: a 200 answer whose payload is not a dict, or whose truthy `license` is not a dict, raises AttributeError (sys_sec_scrape.py:177, 186). The model reads such a payload as empty and such a license as having no `spdx_id`, so the error path is not modelled.
- DiskCache.RepoStatsFields: the ten fields are those of RepoStats, with the same error path left out.
- DiskCache.RepoStatsDefaults: the zero defaults are those of RepoStats, with the same error path left out.
- Statistics.BadgesOf: a list item that is not text makes `lower()` raise AttributeError, a dict value is iterated over its keys, and a truthy number or `True` makes the loop raise TypeError (generate_statistics.py:60-61). The model keeps only the text items of a list and gives no badges for any other value that is not text, so these paths are not modelled.
- Statistics.CountBadgesMeaning: the badges counted are those of Statistics.BadgesOf, with the same conversion left out.
- Statistics.CountArtifactBadges: the badges counted are those of Statistics.BadgesOf, with the same conversion left out.
- ResultsScrape.FrontMatterArtifactsMeaning: this lemma, and the function FrontMatterArtifacts it describes, read a truthy mapping document, its `artifacts` value, or its `issues` list whose issues are mappings holding artifact lists. Several inputs make the program raise where the model gives a value or none, and none of these error paths is modelled:
  - a null, number or boolean `artifacts` value makes the `len` of the log line raise TypeError (sys_sec_artifacts_results_scrape.py:203);
  - a text or list document that contains "artifacts" or "issues" raises TypeError when it is indexed (:202, :208), and a truthy number document raises TypeError at the membership test (:201);
  - an `issues` value that is not a list, or an issue that is not a dict, raises TypeError or AttributeError (:208-209);
  - a text or dict `artifacts` inside an issue is added one character or one key at a time (:209), where the model skips it.
- ResultsScrape.FlattenIssues: an issue that is not a dict raises AttributeError, and a text or dict `artifacts` value is added one character or one key at a time (sys_sec_artifacts_results_scrape.py:209). The model skips both, as FrontMatterArtifacts describes.
- ResultsScrape.ParsedDocument: its front-matter result is that of FrontMatterArtifacts, with the same error paths left out.
- ResultsScrape.ParseResultsDocument: its front-matter result is that of FrontMatterArtifacts, with the same error paths left out.
- ResultsScrape.ParseResults: its front-matter results are those of FrontMatterArtifacts, with the same error paths left out.
- ResultsScrape.GetAeResults: its front-matter results are those of FrontMatterArtifacts, with the same error paths left out.
- ResultsScrape.DownloadFirst: a download answers with the text, an HTTP error or a connection error only. A ReadTimeout, which is a Timeout and not a ConnectionError, or any other request exception raised by the request at sys_sec_scrape.py:291 is not caught by the loop, which catches only HTTPError and ConnectionError (sys_sec_artifacts_results_scrape.py:181-185). That exception ends the whole run, and the model has no answer for it.
- ResultsScrape.DownloadResults: covers only runs in which no request raises a ReadTimeout or another uncaught request exception; such an exception ends `get_ae_results` (sys_sec_artifacts_results_scrape.py:181-185) where the model would go on.
- ResultsScrape.GetAeResults: the same runs only, for the same reason as DownloadResults.
- CommitteeScrape.CommitteePage: a download answers with the page or an HTTP error (`None`) only. A ConnectionError or Timeout raised by the request at sys_sec_scrape.py:291 is not caught by `get_committee_for_conference`, which catches only HTTPError (sys_sec_committee_scrape.py:63-70). That exception ends the whole run, and the model has no answer for it.
- CommitteeScrape.GetCommittees: covers only runs in which no request raises a ConnectionError, a Timeout or another exception that is not an HTTPError; such an exception ends `get_committees` (sys_sec_committee_scrape.py:63-70) where the model would go on.
- Profiles.MemberProfileMeaning: the years of a member are integer keys in the model. The program converts each text key with `int(y)` (generate_author_profiles.py:94), which raises ValueError on a malformed key and gives the same year for keys such as "2020" and " 2020", so that year is listed twice. Neither path is modelled, and the strictly increasing years hold only for the integer keys of the model.
- Profiles.BuildMemberProfile: its years are those of MemberProfileMeaning, with the same `int(y)` conversion left out.
- RepoAggregate.AggregateStats: the `last_updated` stamp of the overall totals (generate_repo_stats.py:250) is not modelled, because it reads the clock.
- StatisticsReport.GenerateStatistics: the coverage table (generate_statistics.py:315-353), the `last_updated` stamp and the YAML cache write are not modelled.
- Recurring.CollectMembers keys people by the program's name key `NormalizeAsWritten`. The corrected key `NormalizeName` is proved idempotent (see Findings) but is not used by the member loop.
- ResultsMd.WritePages renders titles with the program's quote-only escape `EscapeQuotes`. The corrected `EscapeTitle` and its round trip stand beside it (see Findings).
- AcmScrape.NormaliseBadge is the program's normaliser. The corrected `NormaliseBadgeKeepingUnderscores` is proved to reach every table key (see Findings) but is not used by the scraper model.

## Findings

| source | as written | input that shows it | evidently intended | confidence | as-written member | corrected member |
|---|---|---|---|---|---|---|
| acm_scrape.py:71-96 | `_normalise_badge` deletes every character other than letters and blanks before the table lookup, so the seven underscored spellings in the table (such as `artifacts_available`) can never match | `artifacts_available` becomes `artifactsavailable`, which is not in the table and is returned as is | the underscored spellings map to their badge (`available` and so on) | not executed | AcmScrape.UnderscoreKeysUnreachable | AcmScrape.EveryTableKeyReached |
| generate_committee_stats.py:416-418 | `_normalize_name` lower-cases before the NFKD decomposition, so a capital produced by the decomposition survives in the key, and the key is not idempotent | the black-letter capital H (U+210C) keys to `H`, whose own key is `h`; "ℌello" and "Hello" are counted as two people | lower-casing after the decomposition, giving a key that is its own key | not executed | Recurring.AsWrittenNotIdempotent | Recurring.NormalizeIdempotent |
| generate_sysartifacts_results.py:63 | the title is escaped for a YAML double-quoted scalar by escaping quotes only, so backslashes are left as they are | the title `a\nb` reads back with a line break, and a title ending in `\` leaves the scalar unclosed | backslashes doubled before the quotes are escaped, so every title reads back unchanged | not executed | ResultsMd.BackslashEscapeMisreads | ResultsMd.EscapeTitleRoundTrip |
