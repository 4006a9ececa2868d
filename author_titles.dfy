/**
 * Titles and venues for the prolific-author statistics
 * (generate_author_stats.py): the DBLP venue table and its first-match
 * lookup, the title normalisation used to match artifact papers with
 * DBLP records, and the table of unique artifact titles.
 */
module AuthorTitles {
  import opened Wrappers
  import opened Strings
  import opened Seqs
  import opened Json

  /** DBLP booktitle fragments and the conference each stands for, in the table's order. */
  const VenueMap: seq<(string, string)> := [
    ("EuroSys", "EUROSYS"), ("SOSP", "SOSP"), ("SC ", "SC"), ("Supercomputing", "SC"),
    ("FAST", "FAST"), ("USENIX Security", "USENIXSEC"), ("ACSAC", "ACSAC"), ("PoPETs", "PETS"),
    ("Privacy Enhancing", "PETS"), ("CHES", "CHES"), ("NDSS", "NDSS"), ("WOOT", "WOOT"),
    ("SysTEX", "SYSTEX"), ("OSDI", "OSDI"), ("ATC", "ATC"), ("NSDI", "NSDI")
  ]

  /** The conference of the first entry of `table` whose fragment occurs in `booktitle`. */
  function FirstFragment(table: seq<(string, string)>, booktitle: string): Option<string>
    decreases |table|
  {
    if |table| == 0 then None
    else if Contains(booktitle, table[0].0) then Some(table[0].1)
    else FirstFragment(table[1..], booktitle)
  }

  /** The lookup of a non-empty booktitle in `table`. */
  function VenueOf(table: seq<(string, string)>, booktitle: string): Option<string>
  {
    if booktitle == "" then None else FirstFragment(table, booktitle)
  }

  /** `venue_to_conference` */
  function VenueToConference(booktitle: string): Option<string>
  {
    VenueOf(VenueMap, booktitle)
  }

  lemma {:induction false} FirstFragmentMeaning(table: seq<(string, string)>, b: string)
    ensures FirstFragment(table, b).Some? <==> exists i :: 0 <= i < |table| && Contains(b, table[i].0)
    ensures FirstFragment(table, b).Some? ==>
      exists i :: 0 <= i < |table| && Contains(b, table[i].0) && FirstFragment(table, b).value == table[i].1
        && forall j :: 0 <= j < i ==> !Contains(b, table[j].0)
    decreases |table|
  {
    if |table| > 0 && !Contains(b, table[0].0) {
      var t := table[1..];
      FirstFragmentMeaning(t, b);
      assert forall i :: 0 <= i < |t| ==> t[i] == table[i + 1];
      if FirstFragment(t, b).Some? {
        var i :| 0 <= i < |t| && Contains(b, t[i].0) && FirstFragment(t, b).value == t[i].1
          && forall j :: 0 <= j < i ==> !Contains(b, t[j].0);
        assert Contains(b, table[i + 1].0);
        assert forall j :: 0 <= j < i + 1 ==> !Contains(b, table[j].0) by {
          assert forall j :: 1 <= j < i + 1 ==> table[j] == t[j - 1];
        }
      } else {
        assert forall i :: 1 <= i < |table| ==> table[i] == t[i - 1];
      }
    }
    if |table| > 0 && Contains(b, table[0].0) {
      assert Contains(b, table[0].0) && FirstFragment(table, b).value == table[0].1;
    }
  }

  lemma VenueOfMeaning(table: seq<(string, string)>, b: string)
    ensures VenueOf(table, b).Some? <==>
      b != "" && exists i :: 0 <= i < |table| && Contains(b, table[i].0)
    ensures VenueOf(table, b).Some? ==>
      exists i :: 0 <= i < |table| && Contains(b, table[i].0) && VenueOf(table, b).value == table[i].1
        && forall j :: 0 <= j < i ==> !Contains(b, table[j].0)
  {
    FirstFragmentMeaning(table, b);
  }

  /**
   * `venue_to_conference` gives a conference exactly when the booktitle is
   * non-empty and contains one of the table's fragments; the conference is
   * that of the first such fragment in the table's order.
   */
  lemma VenueToConferenceMeaning(b: string)
    ensures VenueToConference(b).Some? <==>
      b != "" && exists i :: 0 <= i < |VenueMap| && Contains(b, VenueMap[i].0)
    ensures VenueToConference(b).Some? ==>
      exists i :: 0 <= i < |VenueMap| && Contains(b, VenueMap[i].0) && VenueToConference(b).value == VenueMap[i].1
        && forall j :: 0 <= j < i ==> !Contains(b, VenueMap[j].0)
  {
    VenueOfMeaning(VenueMap, b);
  }

  /** The characters the title cleaning keeps: word characters and white space. */
  predicate Kept(c: char)
  {
    IsWordChar(c) || IsSpace(c)
  }

  /** Only kept characters and no upper-case letter. */
  predicate Plain(s: string)
  {
    forall c :: c in s ==> Kept(c) && !('A' <= c <= 'Z')
  }

  /** `normalize_title`: lower case, punctuation removed, white space collapsed. */
  function NormalizeTitle(title: string): string
  {
    if title == "" then "" else Collapse(Filter(Lower(title), Kept))
  }

  /** A normalised title has canonical white space and only lower-case word characters. */
  lemma NormalizeShape(title: string)
    ensures Tidy(NormalizeTitle(title)) && Plain(NormalizeTitle(title))
  {
    if title != "" {
      var f := Filter(Lower(title), Kept);
      assert Plain(f);
      CollapseChars(f);
    }
  }

  /** A plain text is left alone by lowering and by the punctuation filter. */
  lemma PlainFixed(s: string)
    requires Plain(s)
    ensures Filter(Lower(s), Kept) == s
  {
    assert forall i :: 0 <= i < |s| ==> s[i] in s;
    assert Lower(s) == s;
    FilterKeepsAll(s, Kept);
  }

  /** Normalising a normalised title changes nothing. */
  lemma NormalizeIdempotent(title: string)
    ensures NormalizeTitle(NormalizeTitle(title)) == NormalizeTitle(title)
  {
    var n := NormalizeTitle(title);
    if n != "" {
      NormalizeShape(title);
      PlainFixed(n);
      TidyFixed(n);
    }
  }

  /** The `title` value of an artifact, `''` when it has none. */
  function TitleValue(a: Record): Json
  {
    GetOr(a, "title", Str(""))
  }

  /** A truthy title is text, since the title normaliser lower-cases it. */
  predicate TitleText(a: Record)
  {
    Truthy(TitleValue(a)) ==> TitleValue(a).Str?
  }

  /** The normalised title an artifact contributes: none for a missing, empty or "Unknown" title. */
  function KeptTitle(a: Record): Option<string>
  {
    var t := TitleValue(a);
    if t.Str? && t.s != "" && t.s != "Unknown" then Some(NormalizeTitle(t.s)) else None
  }

  /** The unique normalised titles of `arts`. */
  function Titles(arts: seq<Record>): set<string>
  {
    KeysOf(arts, KeptTitle)
  }

  /** The first artifact under each normalised title: later ones never replace it. */
  function FirstByTitle(arts: seq<Record>): map<string, Record>
  {
    FirstByKey(arts, KeptTitle)
  }

  /** Whether an artifact has the normalised title `n`. */
  function HasTitle(n: string): Record -> bool
  {
    HasKey(KeptTitle, n)
  }

  /**
   * A title is collected exactly when some artifact has it; the table has
   * an entry for exactly the collected titles, and the artifact recorded
   * for a title is the first one with that title.
   */
  lemma FirstByTitleMeaning(arts: seq<Record>, n: string)
    ensures n in Titles(arts) <==> FirstIndex(arts, HasTitle(n)).Some?
    ensures n in FirstByTitle(arts) <==> n in Titles(arts)
    ensures n in FirstByTitle(arts) ==> FirstByTitle(arts)[n] == arts[FirstIndex(arts, HasTitle(n)).value]
  {
    KeysOfMeaning(arts, KeptTitle, n);
    FirstByKeyMeaning(arts, KeptTitle, n);
  }

  /** `extract_paper_titles`: the unique normalised titles and the first artifact of each. */
  method ExtractPaperTitles(arts: seq<Record>) returns (titles: set<string>, first: map<string, Record>)
    requires forall i :: 0 <= i < |arts| ==> TitleText(arts[i])
    ensures titles == Titles(arts)
    ensures first == FirstByTitle(arts)
  {
    titles := {};
    first := map[];
    for i := 0 to |arts|
      invariant titles == Titles(arts[..i])
      invariant first == FirstByTitle(arts[..i])
    {
      var a := arts[i];
      var title := TitleValue(a);
      KeysSnoc(arts, i, KeptTitle);
      if Truthy(title) && title != Str("Unknown") {
        assert TitleText(a);
        var n := NormalizeTitle(title.s);
        assert KeptTitle(a) == Some(n);
        titles := titles + {n};
        if n !in first {
          first := first[n := a];
        }
      }
    }
    assert arts[..|arts|] == arts;
  }
}
