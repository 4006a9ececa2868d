/**
 * `add_top_repos.py`: the five most-starred GitHub repositories of every
 * conference, each enriched with its paper's authors, the repository's
 * owner, the paper's badges, the month of its last push, its description
 * and its language. The inputs are the conference-year results table, the
 * author list, the conference rows of the repository statistics and the
 * cached GitHub statistics, which are read through an oracle.
 */
module TopRepos {
  import opened Wrappers
  import opened Strings
  import opened Seqs
  import opened Dicts
  import opened Json
  import opened Ordering
  import RepoStats

  type Table = RepoStats.Table
  type Slot = RepoStats.Slot

  // ---------------------------------------------------------------------
  // Titles and their authors

  /** The title stripped of white space, then of trailing periods. */
  function Clean(title: string): (r: string)
  {
    RStripSet(Strip(title), {'.'})
  }

  /** The cleaned title is the stripped title less its trailing dots, and ends in no dot. */
  lemma CleanMeaning(title: string)
    ensures Clean(title) <= Strip(title)
    ensures forall i :: |Clean(title)| <= i < |Strip(title)| ==> Strip(title)[i] == '.'
    ensures |Clean(title)| > 0 ==> Clean(title)[|Clean(title)| - 1] != '.'
  {
    RStripSetDropped(Strip(title), {'.'});
  }

  /** One entry of the author list: the author's name and the titles of their papers, `''` for a paper without one. */
  datatype Author = Author(name: string, titles: seq<string>)

  /** The title-to-authors map, in the order the titles were first met. */
  type TitleMap = Dict<string, seq<string>>

  /** A title credited to an author, after cleaning. */
  datatype Credit = Credit(title: string, author: string)

  function ListAt(d: TitleMap, c: string): seq<string>
  {
    if c in d.values then d.values[c] else []
  }

  /** Appends the author's name to the list of the title, starting a new list for a new title; an empty title is skipped. */
  function Enter(d: TitleMap, p: Credit): TitleMap
  {
    if p.title == "" then d else Put(d, p.title, ListAt(d, p.title) + [p.author])
  }

  function CreditOf(name: string): string -> Credit
  {
    (t: string) => Credit(Clean(t), name)
  }

  function EnterTitle(name: string): (TitleMap, string) -> TitleMap
  {
    (d: TitleMap, t: string) => Enter(d, Credit(Clean(t), name))
  }

  /** The inner loop of `build_title_author_map`: one author's papers. */
  function EnterAuthor(d: TitleMap, a: Author): TitleMap
  {
    Fold(d, a.titles, EnterTitle(a.name))
  }

  /** `build_title_author_map` */
  function TitleAuthors(authors: seq<Author>): TitleMap
  {
    Fold(Empty(), authors, EnterAuthor)
  }

  /** Every (title, author) credit, author by author and paper by paper. */
  function Credits(authors: seq<Author>): seq<Credit>
    decreases |authors|
  {
    if |authors| == 0 then []
    else
      var a := authors[|authors| - 1];
      Credits(authors[..|authors| - 1]) + MapSeq(a.titles, CreditOf(a.name))
  }

  /** The non-empty titles of the credits, repeats included. */
  function Titles(ps: seq<Credit>): seq<string>
    decreases |ps|
  {
    if |ps| == 0 then []
    else
      var p := ps[|ps| - 1];
      Titles(ps[..|ps| - 1]) + (if p.title == "" then [] else [p.title])
  }

  /** The authors credited with title `c`, in order, repeats included. */
  function AuthorsOf(ps: seq<Credit>, c: string): seq<string>
    decreases |ps|
  {
    if |ps| == 0 then []
    else
      var p := ps[|ps| - 1];
      AuthorsOf(ps[..|ps| - 1], c) + (if p.title == c then [p.author] else [])
  }

  lemma {:induction false} EnterTitles(d: TitleMap, name: string, ts: seq<string>)
    ensures Fold(d, ts, EnterTitle(name)) == Fold(d, MapSeq(ts, CreditOf(name)), Enter)
    decreases |ts|
  {
    if |ts| > 0 {
      var n := |ts| - 1;
      EnterTitles(d, name, ts[..n]);
      MapSeqSnoc(ts, n, CreditOf(name));
      assert ts[..n + 1] == ts;
      FoldSnoc(d, MapSeq(ts[..n], CreditOf(name)), CreditOf(name)(ts[n]), Enter);
    }
  }

  /** Building the map author by author enters every credit in turn. */
  lemma {:induction false} TitleAuthorsCredits(authors: seq<Author>)
    ensures TitleAuthors(authors) == Fold(Empty(), Credits(authors), Enter)
    decreases |authors|
  {
    if |authors| > 0 {
      var init := authors[..|authors| - 1];
      var a := authors[|authors| - 1];
      TitleAuthorsCredits(init);
      EnterTitles(TitleAuthors(init), a.name, a.titles);
      FoldAppend(Empty(), Credits(init), MapSeq(a.titles, CreditOf(a.name)), Enter);
    }
  }

  /**
   * Entering credits one by one leaves a valid dict in which a title has
   * authors exactly when someone is credited with it, and they are every
   * author credited with it, in encounter order with repeats.
   */
  lemma {:induction false} EnteredAt(ps: seq<Credit>, c: string)
    ensures var d := Fold(Empty(), ps, Enter);
      && d.Valid()
      && (c in d.values <==> c in Titles(ps))
      && (c in d.values ==> d.values[c] == AuthorsOf(ps, c))
    decreases |ps|
  {
    if |ps| > 0 {
      var init := ps[..|ps| - 1];
      var p := ps[|ps| - 1];
      EnteredAt(init, c);
      TitlesHaveAuthors(init, c);
      if p.title != "" && c != p.title {
        assert c in Titles(ps) <==> c in Titles(init);
      }
    }
  }

  /** The keys are the non-empty titles in the order they were first met. */
  lemma {:induction false} EnteredKeys(ps: seq<Credit>)
    ensures Fold(Empty(), ps, Enter).keys == Dedup(Titles(ps))
    decreases |ps|
  {
    if |ps| > 0 {
      var init := ps[..|ps| - 1];
      var p := ps[|ps| - 1];
      EnteredKeys(init);
      EnteredAt(init, p.title);
      var d := Fold(Empty(), init, Enter);
      var x := Titles(init);
      assert Fold(Empty(), ps, Enter) == Enter(d, p);
      if p.title == "" {
        assert Titles(ps) == x;
      } else {
        assert Titles(ps) == x + [p.title];
        assert (x + [p.title])[..|x|] == x;
        assert Dedup(x + [p.title]) == if p.title in Dedup(x) then Dedup(x) else Dedup(x) + [p.title];
        assert p.title in Dedup(x) <==> p.title in x;
      }
    }
  }

  /** Where every title credited to someone lands in the map built from the author list. */
  lemma TitleAuthorsMeaning(authors: seq<Author>, c: string)
    ensures var d := TitleAuthors(authors);
      && d.Valid()
      && d.keys == Dedup(Titles(Credits(authors)))
      && (c in d.values <==> c in Titles(Credits(authors)))
      && (c in d.values ==> d.values[c] == AuthorsOf(Credits(authors), c))
  {
    TitleAuthorsCredits(authors);
    EnteredAt(Credits(authors), c);
    EnteredKeys(Credits(authors));
  }

  /** A title appears exactly when it is non-empty and someone is credited with it. */
  lemma {:induction false} TitlesHaveAuthors(ps: seq<Credit>, c: string)
    ensures c in Titles(ps) <==> c != "" && |AuthorsOf(ps, c)| > 0
    decreases |ps|
  {
    if |ps| > 0 {
      TitlesHaveAuthors(ps[..|ps| - 1], c);
    }
  }

  /** The loops of `build_title_author_map` over the authors and their papers. */
  method BuildTitleAuthorMap(authors: seq<Author>) returns (d: TitleMap)
    ensures d == TitleAuthors(authors)
  {
    d := Empty();
    for i := 0 to |authors|
      invariant d == TitleAuthors(authors[..i])
    {
      var a := authors[i];
      assert authors[..i + 1][..i] == authors[..i];
      var d0 := d;
      for j := 0 to |a.titles|
        invariant d == Fold(d0, a.titles[..j], EnterTitle(a.name))
      {
        assert a.titles[..j + 1][..j] == a.titles[..j];
        var title := Clean(a.titles[j]);
        if title != "" {
          d := Put(d, title, ListAt(d, title) + [a.name]);
        }
      }
      assert a.titles[..|a.titles|] == a.titles;
    }
    assert authors[..|authors|] == authors;
  }

  // ---------------------------------------------------------------------
  // Titles and their badges

  /** The title of a record, `default` when it has none; a title, if any, is text. */
  function TitleOr(a: Record, default: string): string
  {
    var t := GetOr(a, "title", Str(default));
    if t.Str? then t.s else default
  }

  /** The badges of a record, the empty text when absent. */
  function BadgesOf(a: Record): Json
  {
    GetOr(a, "badges", Str(""))
  }

  /** The artifacts `build_title_badges_map` records under title `c`. */
  predicate BadgedAs(c: string, a: Record)
  {
    c != "" && Clean(TitleOr(a, "")) == c && Truthy(BadgesOf(a))
  }

  function Badged(c: string): Record -> bool
  {
    (a: Record) => BadgedAs(c, a)
  }

  /** The body of `build_title_badges_map`'s inner loop. */
  function NoteBadges(m: map<string, Json>, a: Record): map<string, Json>
  {
    var c := Clean(TitleOr(a, ""));
    var b := BadgesOf(a);
    if c != "" && Truthy(b) then m[c := b] else m
  }

  /** `build_title_badges_map` over the artifacts in order. */
  function TitleBadges(arts: seq<Record>): map<string, Json>
  {
    Fold(map[], arts, NoteBadges)
  }

  /** The artifacts of the conference-years `names`, one list after another. */
  function AllArts(t: Table, names: seq<string>): seq<Record>
    decreases |names|
  {
    if |names| == 0 then []
    else AllArts(t, names[..|names| - 1]) + (if names[|names| - 1] in t then t[names[|names| - 1]] else [])
  }

  /** A title has badges exactly when some artifact with badges cleans to it, and the last such artifact wins. */
  lemma {:induction false} TitleBadgesMeaning(arts: seq<Record>, c: string)
    ensures var m := TitleBadges(arts);
      var last := LastIndex(arts, Badged(c));
      && (c in m <==> last.Some?)
      && (last.Some? ==> m[c] == BadgesOf(arts[last.value]))
    decreases |arts|
  {
    if |arts| > 0 {
      var n := |arts| - 1;
      TitleBadgesMeaning(arts[..n], c);
      LastIndexSnoc(arts, n, Badged(c));
      assert arts[..n + 1] == arts;
      assert TitleBadges(arts) == NoteBadges(TitleBadges(arts[..n]), arts[n]);
      assert Badged(c)(arts[n]) == BadgedAs(c, arts[n]);
    }
  }

  /** The inner loop of `build_title_badges_map`: the artifacts of one conference-year. */
  method NoteArtifacts(m0: map<string, Json>, arts: seq<Record>) returns (m: map<string, Json>)
    ensures m == Fold(m0, arts, NoteBadges)
  {
    m := m0;
    for i := 0 to |arts|
      invariant m == Fold(m0, arts[..i], NoteBadges)
    {
      assert arts[..i + 1][..i] == arts[..i];
      var title := Clean(TitleOr(arts[i], ""));
      var badges := BadgesOf(arts[i]);
      if title != "" && Truthy(badges) {
        m := m[title := badges];
      }
    }
    assert arts[..|arts|] == arts;
  }

  /** The outer loop of `build_title_badges_map`, over the conference-years. */
  method BuildTitleBadgesMap(t: Table, names: seq<string>) returns (m: map<string, Json>)
    requires forall j :: 0 <= j < |names| ==> names[j] in t
    ensures m == TitleBadges(AllArts(t, names))
  {
    m := map[];
    for j := 0 to |names|
      invariant m == TitleBadges(AllArts(t, names[..j]))
    {
      assert names[..j + 1][..j] == names[..j];
      FoldAppend(map[], AllArts(t, names[..j]), t[names[j]], NoteBadges);
      m := NoteArtifacts(m, t[names[j]]);
    }
    assert names[..|names|] == names;
  }

  // ---------------------------------------------------------------------
  // Finding a paper's authors and a repository's owner

  /** The titles the prefix search accepts for the cleaned title `c`. */
  predicate Extends(c: string, t: string)
  {
    |c| >= 25 && c[..25] <= t
  }

  function ExtendsFrom(c: string): string -> bool
  {
    (t: string) => Extends(c, t)
  }

  /** `find_authors_for_title` */
  function FindAuthors(title: string, d: TitleMap): (r: seq<string>)
    ensures var c := Clean(title);
      && (c in d.values && |d.values[c]| > 0 ==> r == d.values[c])
      && (!(c in d.values && |d.values[c]| > 0) && |c| < 25 ==> r == [])
  {
    var c := Clean(title);
    var exact := ListAt(d, c);
    if |exact| > 0 then exact
    else match FirstIndex(d.keys, ExtendsFrom(c))
      case Some(i) => ListAt(d, d.keys[i])
      case None => []
  }

  /**
   * Without an exact match, a title of 25 characters or more takes the
   * authors of the first title, in the map's order, that starts with its
   * first 25 characters, and none when there is no such title.
   */
  lemma FindByPrefix(title: string, d: TitleMap)
    requires d.Valid()
    ensures var c := Clean(title);
      var r := FindAuthors(title, d);
      !(c in d.values && |d.values[c]| > 0) && |c| >= 25 ==>
        || (r == [] && forall i :: 0 <= i < |d.keys| ==> !(c[..25] <= d.keys[i]))
        || exists i :: 0 <= i < |d.keys| && c[..25] <= d.keys[i] && r == d.values[d.keys[i]]
             && forall j :: 0 <= j < i ==> !(c[..25] <= d.keys[j])
  {
    var c := Clean(title);
    var f := FirstIndex(d.keys, ExtendsFrom(c));
    if f.Some? {
      assert Extends(c, d.keys[f.value]);
      assert forall j :: 0 <= j < f.value ==> !Extends(c, d.keys[j]);
    }
  }

  /** A paper someone is credited with gets exactly the authors credited with it. */
  lemma FindRecorded(authors: seq<Author>, title: string)
    requires |AuthorsOf(Credits(authors), Clean(title))| > 0 && Clean(title) != ""
    ensures FindAuthors(title, TitleAuthors(authors)) == AuthorsOf(Credits(authors), Clean(title))
  {
    TitleAuthorsMeaning(authors, Clean(title));
    TitlesHaveAuthors(Credits(authors), Clean(title));
  }

  /** A title shorter than 25 characters that no one is credited with gets no authors. */
  lemma FindUnrecorded(authors: seq<Author>, title: string)
    requires |AuthorsOf(Credits(authors), Clean(title))| == 0 && |Clean(title)| < 25
    ensures FindAuthors(title, TitleAuthors(authors)) == []
  {
    TitleAuthorsMeaning(authors, Clean(title));
  }

  const GithubHost := "github.com/"

  /** `extract_github_org`: the owner in a cached `owner/repo` name, else the path segment after `github.com/`. */
  function ExtractGithubOrg(url: string, stats: Json): (org: string)
    ensures !Contains(org, "/")
  {
    var name := Field(stats, "name", Str(""));
    if Truthy(stats) && stats.Object? && name.Str? && Contains(name.s, "/") then Before(name.s, "/")
    else if Contains(url, GithubHost) then
      SplitOnFirst(url, GithubHost);
      Before(SplitOn(url, GithubHost)[1], "/")
    else ""
  }

  /** The cached `owner/repo` name, when there is one. */
  predicate NamedOwner(stats: Json)
  {
    var name := Field(stats, "name", Str(""));
    Truthy(stats) && stats.Object? && name.Str? && Contains(name.s, "/")
  }

  /** With an `owner/repo` name cached, the owner is the text before its first `/`. */
  lemma OrgFromName(url: string, stats: Json)
    requires NamedOwner(stats)
    ensures ExtractGithubOrg(url, stats) + "/" <= Field(stats, "name", Str("")).s
  {
    var org := ExtractGithubOrg(url, stats);
    var name := Field(stats, "name", Str("")).s;
    BeforeStops(name, "/");
    assert name[|org|..][..1] == "/";
  }

  /**
   * Otherwise the owner is read from the text after the first `github.com/`,
   * up to the next `/` (or the next `github.com/`, or the end); a URL
   * without `github.com/` has none.
   */
  lemma OrgFromUrl(url: string, stats: Json)
    requires !NamedOwner(stats)
    ensures var org := ExtractGithubOrg(url, stats);
      match IndexOf(url, GithubHost)
      case Some(i) =>
        var rest := url[i + |GithubHost|..];
        org <= rest && (org == rest || rest[|org|] == '/' || GithubHost <= rest[|org|..])
      case None => org == ""
  {
    var org := ExtractGithubOrg(url, stats);
    IndexOfMeaning(url, GithubHost);
    if Contains(url, GithubHost) {
      var rest := url[IndexOf(url, GithubHost).value + |GithubHost|..];
      SplitSecond(url, GithubHost);
      var segment := Before(rest, GithubHost);
      assert org == Before(segment, "/");
      BeforeStops(rest, GithubHost);
      BeforeStops(segment, "/");
      if org != segment {
        assert segment[|org|..][0] == '/';
      }
    }
  }

  // ---------------------------------------------------------------------
  // One repository entry

  function Min(a: int, b: int): int
  {
    if a < b then a else b
  }

  /** The first five authors joined by commas, followed by `et al.` when there are more. */
  function AuthorsText(names: seq<string>): string
  {
    Join(", ", names[..Min(5, |names|)]) + (if |names| > 5 then " et al." else "")
  }

  /** Up to five authors are all named; beyond five, the first five are named and marked " et al.". */
  lemma AuthorsTextMeaning(names: seq<string>)
    ensures |names| <= 5 ==> AuthorsText(names) == Join(", ", names)
    ensures |names| > 5 ==> Join(", ", names[..5]) <= AuthorsText(names) && EndsWith(AuthorsText(names), " et al.")
  {
    if |names| <= 5 {
      assert names[..|names|] == names;
    }
  }

  /** The description cut to 120 characters, with an ellipsis when it was longer. */
  function Describe(d: string): string
  {
    d[..Min(120, |d|)] + (if |d| > 120 then "..." else "")
  }

  /** A description of at most 120 characters is kept whole; a longer one is cut to 120 and marked "...". */
  lemma DescribeMeaning(d: string)
    ensures |d| <= 120 ==> Describe(d) == d
    ensures |d| > 120 ==> |Describe(d)| == 123 && d[..120] <= Describe(d) && EndsWith(Describe(d), "...")
  {
    if |d| <= 120 {
      assert d[..|d|] == d;
    }
  }

  /** The month of the last push: the first seven characters of the push date, unless that date is empty or `NA`. */
  function LastActive(p: Json): string
  {
    if p.Str? && p.s != "" && p.s != "NA" then p.s[..Min(7, |p.s|)] else ""
  }

  /** A push date gives its first seven characters, and nothing exactly when it is empty or "NA". */
  lemma LastActiveMeaning(p: Json)
    ensures p.Str? ==> LastActive(p) <= p.s && |LastActive(p)| == (if p.s == "NA" then 0 else Min(7, |p.s|))
    ensures p.Str? ==> (LastActive(p) == "" <==> p.s == "" || p.s == "NA")
    ensures !Truthy(p) ==> LastActive(p) == ""
  {
  }

  /** A text field that holds text or nothing, missing read as the empty text. */
  function TextOf(j: Json): string
  {
    if j.Str? then j.s else ""
  }

  /** One entry of `by_conf`. */
  datatype Entry = Entry(title: string, url: string, year: nat, stars: int, forks: int, authors: string,
                         org: string, badges: Json, lastActive: string, description: string, language: Json)

  /** What the walk consults: the cached statistics by URL, the author map and the badge map. */
  datatype Lookups = Lookups(cached: string -> Json, authors: TitleMap, badges: map<string, Json>)

  /** The entry for URL `url` of the artifact of visit `x`, from its cached statistics. */
  function EntryOf(x: Slot, url: string, stats: Record, env: Lookups): Entry
  {
    var title := TitleOr(x.art, "Unknown");
    Entry(title, url, x.year,
          NumOf(GetOr(stats, "github_stars", Int(0))), NumOf(GetOr(stats, "github_forks", Int(0))),
          AuthorsText(FindAuthors(title, env.authors)), ExtractGithubOrg(url, Object(stats)),
          GetOr(env.badges, Clean(title), Str("")), LastActive(GetOr(stats, "pushed_at", Str(""))),
          Describe(TextOf(GetOr(stats, "description", Str("")))), OrEmpty(GetOr(stats, "language", Str(""))))
  }

  // ---------------------------------------------------------------------
  // The walk over the results

  /** `url_keys` in `main` */
  const UrlKeys: seq<string> := ["repository_url", "artifact_url", "github_url", "second_repository_url"]

  /** The URLs already met, rstripped of `/`, and the entries found per conference. */
  datatype Walk = Walk(seen: set<string>, byConf: map<string, seq<Entry>>)

  function EntriesAt(m: map<string, seq<Entry>>, c: string): seq<Entry>
  {
    if c in m then m[c] else []
  }

  /** Appends the entry to the list of its conference. */
  function AddEntry(m: map<string, seq<Entry>>, c: string, e: Entry): map<string, seq<Entry>>
  {
    m[c := EntriesAt(m, c) + [e]]
  }

  /** A URL the walk looks at: non-empty text containing "github". */
  predicate GithubUrl(url: Json)
  {
    url.Str? && url.s != "" && Contains(url.s, "github")
  }

  /** The body of the loop over the URL keys. */
  function Visit(env: Lookups, w: Walk, x: Slot): Walk
  {
    var url := GetOr(x.art, x.key, Str(""));
    if !GithubUrl(url) || RepoStats.Norm(url.s) in w.seen then w
    else
      var stats := env.cached(url.s);
      var seen := w.seen + {RepoStats.Norm(url.s)};
      if Truthy(stats) && stats.Object? then Walk(seen, AddEntry(w.byConf, x.conf, EntryOf(x, url.s, stats.fields, env)))
      else Walk(seen, w.byConf)
  }

  function VisitWith(env: Lookups): (Walk, Slot) -> Walk
  {
    (w: Walk, x: Slot) => Visit(env, w, x)
  }

  function Walked(env: Lookups, slots: seq<Slot>): Walk
  {
    Fold(Walk({}, map[]), slots, VisitWith(env))
  }

  /**
   * What the walk keeps true: every conference it lists has an entry, every
   * entry's URL contains "github" and has been seen, and no two entries
   * share a URL once trailing `/` are dropped.
   */
  ghost predicate Inv(w: Walk)
  {
    && (forall c :: c in w.byConf ==> |w.byConf[c]| > 0)
    && (forall c, i :: c in w.byConf && 0 <= i < |w.byConf[c]| ==>
          Contains(w.byConf[c][i].url, "github") && RepoStats.Norm(w.byConf[c][i].url) in w.seen)
    && (forall c, i, c', i' ::
          (c in w.byConf && c' in w.byConf && 0 <= i < |w.byConf[c]| && 0 <= i' < |w.byConf[c']| && (c != c' || i != i'))
          ==> RepoStats.Norm(w.byConf[c][i].url) != RepoStats.Norm(w.byConf[c'][i'].url))
  }

  lemma AddKeeps(w: Walk, c: string, e: Entry)
    requires Inv(w) && Contains(e.url, "github") && RepoStats.Norm(e.url) !in w.seen
    ensures Inv(Walk(w.seen + {RepoStats.Norm(e.url)}, AddEntry(w.byConf, c, e)))
  {
    var w' := Walk(w.seen + {RepoStats.Norm(e.url)}, AddEntry(w.byConf, c, e));
    forall d, i | d in w'.byConf && 0 <= i < |w'.byConf[d]|
      ensures w'.byConf[d][i] == e || (d in w.byConf && i < |w.byConf[d]| && w'.byConf[d][i] == w.byConf[d][i])
      ensures w'.byConf[d][i] == e ==> d == c && i == |EntriesAt(w.byConf, c)|
    {
      if d == c && i == |EntriesAt(w.byConf, c)| {
      } else {
        assert d in w.byConf && w'.byConf[d][i] == w.byConf[d][i];
      }
    }
  }

  lemma VisitKeeps(env: Lookups, w: Walk, x: Slot)
    requires Inv(w)
    ensures Inv(Visit(env, w, x))
    ensures w.seen <= Visit(env, w, x).seen
  {
    var url := GetOr(x.art, x.key, Str(""));
    if GithubUrl(url) && RepoStats.Norm(url.s) !in w.seen {
      var stats := env.cached(url.s);
      if Truthy(stats) && stats.Object? {
        AddKeeps(w, x.conf, EntryOf(x, url.s, stats.fields, env));
      }
    }
  }

  /** The walk keeps its invariant, whatever the cache holds. */
  lemma {:induction false} WalkedInv(env: Lookups, slots: seq<Slot>)
    ensures Inv(Walked(env, slots))
    decreases |slots|
  {
    if |slots| > 0 {
      var n := |slots| - 1;
      WalkedInv(env, slots[..n]);
      VisitKeeps(env, Walked(env, slots[..n]), slots[n]);
    }
  }

  /** Every GitHub URL the walk passes is marked seen, whether or not its statistics are cached. */
  lemma {:induction false} WalkedSeen(env: Lookups, slots: seq<Slot>, k: nat)
    requires k < |slots| && GithubUrl(GetOr(slots[k].art, slots[k].key, Str("")))
    ensures RepoStats.Norm(GetOr(slots[k].art, slots[k].key, Str("")).s) in Walked(env, slots).seen
    decreases |slots|
  {
    var n := |slots| - 1;
    WalkedInv(env, slots[..n]);
    VisitKeeps(env, Walked(env, slots[..n]), slots[n]);
    if k < n {
      assert slots[..n][k] == slots[k];
      WalkedSeen(env, slots[..n], k);
    }
  }

  // ---- an independent account of the walk ----

  /** A visit whose URL the walk looks at, with that URL. */
  function GithubCand(x: Slot): Option<RepoStats.Cand>
  {
    var url := GetOr(x.art, x.key, Str(""));
    if GithubUrl(url) then Some(RepoStats.Cand(x, url.s)) else None
  }

  /** The entry a candidate gives conference `c`: one of that conference whose cached statistics are a non-empty object. */
  function ConfEntry(env: Lookups, c: string): RepoStats.Cand -> Option<Entry>
  {
    (k: RepoStats.Cand) =>
      var stats := env.cached(k.url);
      if k.slot.conf == c && Truthy(stats) && stats.Object? then Some(EntryOf(k.slot, k.url, stats.fields, env))
      else None
  }

  /**
   * The entries of conference `c`: of the GitHub URLs of the visits, the
   * first visit per URL once trailing `/` are dropped, in visit order,
   * when that visit is of `c` and the URL's statistics are cached.
   */
  function ConfEntries(env: Lookups, slots: seq<Slot>, c: string): seq<Entry>
  {
    FilterMap(RepoStats.FirstPerUrl(FilterMap(slots, GithubCand)), ConfEntry(env, c))
  }

  /** One more candidate, told through the kept candidates. */
  lemma FirstPerUrlSnoc(cs: seq<RepoStats.Cand>, k: RepoStats.Cand)
    ensures RepoStats.NormsOf(cs + [k]) == RepoStats.NormsOf(cs) + {RepoStats.Norm(k.url)}
    ensures RepoStats.FirstPerUrl(cs + [k]) ==
      if RepoStats.Norm(k.url) in RepoStats.NormsOf(cs) then RepoStats.FirstPerUrl(cs)
      else RepoStats.FirstPerUrl(cs) + [k]
  {
    assert (cs + [k])[..|cs|] == cs;
  }

  /** The candidates of the visits, with one more visit. */
  function CandsAfter(cs: seq<RepoStats.Cand>, x: Slot): seq<RepoStats.Cand>
  {
    cs + (if GithubCand(x).Some? then [GithubCand(x).value] else [])
  }

  /** Appending to one conference's list leaves the others alone. */
  lemma AddEntryAt(m: map<string, seq<Entry>>, d: string, e: Entry, c: string)
    ensures EntriesAt(AddEntry(m, d, e), c) == EntriesAt(m, c) + (if d == c then [e] else [])
  {
  }

  /** A visit to a GitHub URL not yet seen: the walk changes as the new candidate's entry says. */
  lemma VisitNew(env: Lookups, p: Walk, x: Slot, c: string)
    requires GithubCand(x).Some? && RepoStats.Norm(GithubCand(x).value.url) !in p.seen
    ensures var k := GithubCand(x).value;
      var e := ConfEntry(env, c)(k);
      && Visit(env, p, x).seen == p.seen + {RepoStats.Norm(k.url)}
      && EntriesAt(Visit(env, p, x).byConf, c) == EntriesAt(p.byConf, c) + (if e.Some? then [e.value] else [])
  {
    var url := GetOr(x.art, x.key, Str(""));
    var stats := env.cached(url.s);
    if Truthy(stats) && stats.Object? {
      AddEntryAt(p.byConf, x.conf, EntryOf(x, url.s, stats.fields, env), c);
    }
  }

  /** A visit to a URL that is not GitHub's, or already seen, leaves the walk as it was. */
  lemma VisitOld(env: Lookups, p: Walk, x: Slot)
    requires GithubCand(x).None? || RepoStats.Norm(GithubCand(x).value.url) in p.seen
    ensures Visit(env, p, x) == p
  {
  }

  /** One visit keeps the account of the walk. */
  lemma VisitMeaning(env: Lookups, p: Walk, x: Slot, cs: seq<RepoStats.Cand>, c: string)
    requires p.seen == RepoStats.NormsOf(cs)
    requires EntriesAt(p.byConf, c) == FilterMap(RepoStats.FirstPerUrl(cs), ConfEntry(env, c))
    ensures Visit(env, p, x).seen == RepoStats.NormsOf(CandsAfter(cs, x))
    ensures EntriesAt(Visit(env, p, x).byConf, c) == FilterMap(RepoStats.FirstPerUrl(CandsAfter(cs, x)), ConfEntry(env, c))
  {
    if GithubCand(x).Some? {
      var k := GithubCand(x).value;
      assert CandsAfter(cs, x) == cs + [k];
      FirstPerUrlSnoc(cs, k);
      if RepoStats.Norm(k.url) !in p.seen {
        var kept := RepoStats.FirstPerUrl(cs);
        var f := ConfEntry(env, c);
        assert FilterMap(kept + [k], f) == FilterMap(kept, f) + (if f(k).Some? then [f(k).value] else []) by {
          assert (kept + [k])[..|kept|] == kept;
        }
        VisitNew(env, p, x, c);
      } else {
        VisitOld(env, p, x);
      }
    } else {
      assert CandsAfter(cs, x) == cs;
      VisitOld(env, p, x);
    }
  }

  /**
   * The walk has seen exactly the normalised GitHub URLs of the visits, and
   * every conference's list holds exactly its entries by the account above;
   * a conference is listed exactly when it has one.
   */
  lemma {:induction false} WalkedMeaning(env: Lookups, slots: seq<Slot>, c: string)
    ensures Walked(env, slots).seen == RepoStats.NormsOf(FilterMap(slots, GithubCand))
    ensures EntriesAt(Walked(env, slots).byConf, c) == ConfEntries(env, slots, c)
    ensures c in Walked(env, slots).byConf <==> |ConfEntries(env, slots, c)| > 0
    decreases |slots|
  {
    WalkedInv(env, slots);
    if |slots| > 0 {
      var init := slots[..|slots| - 1];
      var x := slots[|slots| - 1];
      WalkedMeaning(env, init, c);
      assert Walked(env, slots) == Visit(env, Walked(env, init), x);
      assert FilterMap(slots, GithubCand) == CandsAfter(FilterMap(init, GithubCand), x);
      VisitMeaning(env, Walked(env, init), x, FilterMap(init, GithubCand), c);
    }
  }

  /** The body of the loop over the URL keys, from a running walk. */
  method VisitUrl(env: Lookups, seen: set<string>, byConf: map<string, seq<Entry>>, x: Slot) returns (w: Walk)
    ensures w == Visit(env, Walk(seen, byConf), x)
  {
    var url := GetOr(x.art, x.key, Str(""));
    if !GithubUrl(url) {
      return Walk(seen, byConf);
    }
    var normalized := RStripSet(url.s, {'/'});
    if normalized in seen {
      return Walk(seen, byConf);
    }
    var stats := env.cached(url.s);
    if Truthy(stats) && stats.Object? {
      var e := EntryOf(x, url.s, stats.fields, env);
      w := Walk(seen + {normalized}, byConf[x.conf := EntriesAt(byConf, x.conf) + [e]]);
    } else {
      w := Walk(seen + {normalized}, byConf);
    }
  }

  /** The loop over the URL keys of one artifact. */
  method WalkArtifact(env: Lookups, w0: Walk, conf: string, year: nat, a: Record, keys: seq<string>)
    returns (w: Walk)
    ensures w == Fold(w0, RepoStats.ArtSlots(conf, year, a, keys), VisitWith(env))
  {
    w := w0;
    for m := 0 to |keys|
      invariant w == Fold(w0, RepoStats.ArtSlots(conf, year, a, keys[..m]), VisitWith(env))
    {
      var x := RepoStats.Slot(conf, year, a, keys[m]);
      MapSeqSnoc(keys, m, RepoStats.SlotOf(conf, year, a));
      FoldSnoc(w0, RepoStats.ArtSlots(conf, year, a, keys[..m]), x, VisitWith(env));
      w := VisitUrl(env, w.seen, w.byConf, x);
    }
    assert keys[..|keys|] == keys;
  }

  /** The loop over the artifacts of one conference-year. */
  method WalkConference(env: Lookups, w0: Walk, conf: string, year: nat, arts: seq<Record>, keys: seq<string>)
    returns (w: Walk)
    ensures w == Fold(w0, RepoStats.ConfSlots(conf, year, arts, keys), VisitWith(env))
  {
    w := w0;
    for i := 0 to |arts|
      invariant w == Fold(w0, RepoStats.ConfSlots(conf, year, arts[..i], keys), VisitWith(env))
    {
      assert arts[..i + 1][..i] == arts[..i];
      FoldAppend(w0, RepoStats.ConfSlots(conf, year, arts[..i], keys), RepoStats.ArtSlots(conf, year, arts[i], keys), VisitWith(env));
      w := WalkArtifact(env, w, conf, year, arts[i], keys);
    }
    assert arts[..|arts|] == arts;
  }

  /** The loop over all results, skipping a key that carries no year. */
  method WalkResults(env: Lookups, t: Table, names: seq<string>, keys: seq<string>) returns (w: Walk)
    requires forall j :: 0 <= j < |names| ==> names[j] in t
    ensures w == Walked(env, RepoStats.AllSlots(t, names, keys))
  {
    w := Walk({}, map[]);
    for j := 0 to |names|
      invariant w == Walked(env, RepoStats.AllSlots(t, names[..j], keys))
    {
      assert names[..j + 1][..j] == names[..j];
      FoldAppend(Walk({}, map[]), RepoStats.AllSlots(t, names[..j], keys), RepoStats.NameSlots(t, names[j], keys), VisitWith(env));
      var (conf, year) := RepoStats.ConferenceName(names[j]);
      if year.Some? {
        w := WalkConference(env, w, conf, year.value, t[names[j]], keys);
      }
    }
    assert names[..|names|] == names;
  }

  // ---------------------------------------------------------------------
  // The conference rows

  function Stars(e: Entry): int
  {
    e.stars
  }

  /** The five entries with the most stars, ties in input order. */
  function TopFive(es: seq<Entry>): seq<Entry>
  {
    TopBy(es, Stars, 5)
  }

  /** An entry as the dict written back. */
  function EntryJson(e: Entry): Json
  {
    Object(map["title" := Str(e.title), "url" := Str(e.url), "year" := Int(e.year), "stars" := Int(e.stars),
               "forks" := Int(e.forks), "authors" := Str(e.authors), "github_org" := Str(e.org),
               "badges" := e.badges, "last_active" := Str(e.lastActive), "description" := Str(e.description),
               "language" := e.language])
  }

  /** The conference of the row has entries. */
  predicate Known(byConf: map<string, seq<Entry>>, row: Record)
  {
    var n := GetOr(row, "name", Null);
    n.Str? && n.s in byConf
  }

  function KnownIn(byConf: map<string, seq<Entry>>): Record -> bool
  {
    (row: Record) => Known(byConf, row)
  }

  /** The entries a conference row gets: its top five, or none when it has no entry. */
  function TopOf(byConf: map<string, seq<Entry>>, row: Record): seq<Entry>
  {
    if Known(byConf, row) then TopFive(byConf[GetOr(row, "name", Null).s]) else []
  }

  /** The row with its top repositories set. */
  function WithTop(byConf: map<string, seq<Entry>>, row: Record): Record
  {
    row["top_repos" := List(MapSeq(TopOf(byConf, row), EntryJson))]
  }

  function WithTopIn(byConf: map<string, seq<Entry>>): Record -> Record
  {
    (row: Record) => WithTop(byConf, row)
  }

  /** A row keeps every other field and gets a `top_repos` list of its entries. */
  lemma WithTopMeaning(byConf: map<string, seq<Entry>>, row: Record)
    ensures var r := WithTop(byConf, row);
      && (forall k :: k != "top_repos" ==> (k in r <==> k in row) && (k in row ==> r[k] == row[k]))
      && "top_repos" in r && r["top_repos"] == List(MapSeq(TopOf(byConf, row), EntryJson))
  {
  }

  /**
   * The entries of a row's conference: at most five, by stars descending,
   * none outranked by one left out, and of equal-star entries the earliest;
   * none for a conference without entries.
   */
  lemma TopOfMeaning(byConf: map<string, seq<Entry>>, row: Record)
    ensures !Known(byConf, row) ==> TopOf(byConf, row) == []
    ensures Known(byConf, row) ==>
      var all := byConf[GetOr(row, "name", Null).s];
      var top := TopOf(byConf, row);
      && |top| == Min(5, |all|)
      && SortedBy(top, Desc(Stars))
      && multiset(top) <= multiset(all)
      && (forall e, k :: e in multiset(all) - multiset(top) && k in top ==> e.stars <= k.stars)
      && forall v :: Filter(top, KeyIs(Stars, v)) <= Filter(all, KeyIs(Stars, v))
  {
    if Known(byConf, row) {
      TopByMeaning(byConf[GetOr(row, "name", Null).s], Stars, 5);
    }
  }

  /**
   * After the walk, a row whose name is text is listed exactly when its
   * conference has entries by the independent account, and its top
   * repositories are the top five of those entries: at least one, each with
   * a GitHub URL.
   */
  lemma TopFromWalk(env: Lookups, slots: seq<Slot>, row: Record)
    ensures var n := GetOr(row, "name", Null);
      n.Str? ==> (Known(Walked(env, slots).byConf, row) <==> |ConfEntries(env, slots, n.s)| > 0)
    ensures Known(Walked(env, slots).byConf, row) ==>
      var top := TopOf(Walked(env, slots).byConf, row);
      && top == TopFive(ConfEntries(env, slots, GetOr(row, "name", Null).s))
      && |top| > 0 && forall i :: 0 <= i < |top| ==> Contains(top[i].url, "github")
  {
    var n := GetOr(row, "name", Null);
    if n.Str? {
      WalkedMeaning(env, slots, n.s);
    }
    if Known(Walked(env, slots).byConf, row) {
      TopWalked(env, slots, row);
    }
  }

  /** A listed conference's row names at least one repository, each with a GitHub URL. */
  lemma TopWalked(env: Lookups, slots: seq<Slot>, row: Record)
    requires Known(Walked(env, slots).byConf, row)
    ensures var top := TopOf(Walked(env, slots).byConf, row);
      |top| > 0 && forall i :: 0 <= i < |top| ==> Contains(top[i].url, "github")
  {
    var byConf := Walked(env, slots).byConf;
    var all := byConf[GetOr(row, "name", Null).s];
    var top := TopFive(all);
    WalkedInv(env, slots);
    assert |all| > 0;
    TopByMeaning(all, Stars, 5);
    forall i | 0 <= i < |top|
      ensures Contains(top[i].url, "github")
    {
      assert top[i] in multiset(all);
      var j :| 0 <= j < |all| && all[j] == top[i];
    }
  }

  /** The loop over the per-conference rows: fills each row and counts the conferences found. */
  method FillTopRepos(rows: seq<Record>, byConf: map<string, seq<Entry>>) returns (out: seq<Record>, updated: nat)
    requires forall i :: 0 <= i < |rows| ==> "name" in rows[i]
    ensures out == MapSeq(rows, WithTopIn(byConf))
    ensures updated == Count(rows, KnownIn(byConf))
  {
    out := [];
    updated := 0;
    for i := 0 to |rows|
      invariant out == MapSeq(rows[..i], WithTopIn(byConf))
      invariant updated == Count(rows[..i], KnownIn(byConf))
    {
      MapSeqSnoc(rows, i, WithTopIn(byConf));
      assert rows[..i + 1][..i] == rows[..i];
      var name := rows[i]["name"];
      var top: seq<Entry> := [];
      if name.Str? && name.s in byConf {
        top := TopFive(byConf[name.s]);
        updated := updated + 1;
      }
      out := out + [rows[i]["top_repos" := List(MapSeq(top, EntryJson))]];
    }
    assert rows[..|rows|] == rows;
  }

  // ---------------------------------------------------------------------
  // The whole script

  /** The artifact fields `main` reads hold text or nothing. */
  predicate FormedArtifact(a: Record)
  {
    && (forall k :: k in UrlKeys && k in a ==> a[k].Str? || !Truthy(a[k]))
    && ("title" in a ==> a["title"].Str?)
  }

  /** The cached fields `main` reads: counts for stars and forks, text or nothing for the rest. */
  predicate FormedStats(j: Json)
  {
    j.Object? ==>
      && (forall k :: k in ["github_stars", "github_forks"] && k in j.fields ==> j.fields[k].Int? || !Truthy(j.fields[k]))
      && (forall k :: k in ["pushed_at", "description", "name"] && k in j.fields ==> j.fields[k].Str? || !Truthy(j.fields[k]))
  }

  /** `main`'s result: the conference rows with their top repositories, and how many conferences had entries. */
  function AddedTopRepos(t: Table, names: seq<string>, authors: seq<Author>, rows: seq<Record>,
                         cached: string -> Json): (seq<Record>, nat)
  {
    var env := Lookups(cached, TitleAuthors(authors), TitleBadges(AllArts(t, names)));
    var byConf := Walked(env, RepoStats.AllSlots(t, names, UrlKeys)).byConf;
    (MapSeq(rows, WithTopIn(byConf)), Count(rows, KnownIn(byConf)))
  }

  /** `main`, without the files: builds both maps, walks the results and fills the rows. */
  method AddTopRepos(t: Table, names: seq<string>, authors: seq<Author>, rows: seq<Record>, cached: string -> Json)
    returns (out: seq<Record>, updated: nat)
    requires forall j :: 0 <= j < |names| ==> names[j] in t
    requires forall n, a :: n in t && a in t[n] ==> FormedArtifact(a)
    requires forall u :: FormedStats(cached(u))
    requires forall i :: 0 <= i < |rows| ==> "name" in rows[i]
    ensures (out, updated) == AddedTopRepos(t, names, authors, rows, cached)
  {
    var titleAuthors := BuildTitleAuthorMap(authors);
    var titleBadges := BuildTitleBadgesMap(t, names);
    var env := Lookups(cached, titleAuthors, titleBadges);
    var w := WalkResults(env, t, names, UrlKeys);
    out, updated := FillTopRepos(rows, w.byConf);
  }
}
