/**
 * The affiliation resolver and the per-conference tallies of the committee
 * statistics: conference-year keys, the university name index with its
 * manual overrides, the cleaning of affiliations, the prefix-then-fuzzy
 * classification of one affiliation, the per-conference country, continent
 * and institution counts, and their totals per research area.
 *
 * The university list, the trie's order of prefix matches and the fuzzy
 * similarity ratio cannot be seen here; they are parameters.
 */
module CommitteeStats {
  import opened Wrappers
  import opened Strings
  import opened Seqs
  import opened Dicts
  import opened ConfYears

  /** A committee entry as the scrapers deliver it; `role` may be absent. */
  datatype Entry = Entry(name: string, affiliation: string, role: Option<string>)

  // ---------------------------------------------------------------------
  // Conference-year keys and areas

  /** `_extract_conf_year`: the upper-cased letters and the year, or the upper-cased key and no year. */
  function ExtractConfYear(key: string): (r: (string, Option<nat>))
    ensures SplitConfYear(key).None? ==> r == (Upper(key), None)
  {
    match SplitConfYear(key)
    case Some((letters, digits)) => (Upper(letters), Some(ParseDigits(digits)))
    case None => (Upper(key), None)
  }

  /** A key of letters and four digits gives its letters upper-cased and the digits' value, as `osdi2024` gives `OSDI` and 2024. */
  lemma ExtractSplit(letters: string, digits: string)
    requires Letters(letters) && FourDigits(digits)
    ensures ExtractConfYear(letters + digits) == (Upper(letters), Some(ParseDigits(digits)))
  {
    SplitJoined(letters, digits, false);
    assert letters + digits + "" == letters + digits;
  }

  const SystemsConfs: set<string> := {"atc", "eurosys", "fast", "osdi", "sc", "sosp"}
  const SecurityConfs: set<string> := {"acsac", "ches", "ndss", "pets", "systex", "usenixsec", "woot"}

  /** `_conf_area`: systems, security or unknown, from the lower-cased conference name. */
  function ConfArea(key: string): (area: string)
    ensures area == "systems" || area == "security" || area == "unknown"
  {
    var name := Lower(ExtractConfYear(key).0);
    if name in SystemsConfs then "systems"
    else if name in SecurityConfs then "security"
    else "unknown"
  }

  /** The area depends only on the letters of a key, whatever their case. */
  lemma ConfAreaOfLetters(letters: string, digits: string)
    requires Letters(letters) && FourDigits(digits)
    ensures ConfArea(letters + digits) ==
      if Lower(letters) in SystemsConfs then "systems"
      else if Lower(letters) in SecurityConfs then "security"
      else "unknown"
  {
    ExtractSplit(letters, digits);
    assert Lower(Upper(letters)) == Lower(letters);
  }

  // ---------------------------------------------------------------------
  // The university name index

  /** A university record: its name and its country. */
  datatype Uni = Uni(name: string, country: string)

  /** The pieces of a name split at each single blank. */
  function Words(name: string): (w: seq<string>)
    ensures |w| >= 1
  {
    SplitOn(name, " ")
  }

  /**
   * The keys one university is indexed under, in the order they are
   * assigned: its lower-cased name; with more than one word, each word;
   * with more than two, each suffix of the words from the second word to
   * the next-to-last.
   */
  function IndexKeys(name: string): (keys: seq<string>)
  {
    KeysOf(Lower(name), Words(name))
  }

  /** The keys for a lower-cased full name and its words. */
  function KeysOf(full: string, w: seq<string>): (keys: seq<string>)
  {
    [full]
    + (if |w| > 1 then WordKeys(w) else [])
    + (if |w| > 2 then SuffixKeys(w) else [])
  }

  function WordKeys(w: seq<string>): (keys: seq<string>)
    ensures |keys| == |w|
    ensures forall i :: 0 <= i < |w| ==> keys[i] == Lower(w[i])
  {
    seq(|w|, i requires 0 <= i < |w| => Lower(w[i]))
  }

  /** The lower-cased words from `s` on, joined by spaces. */
  function SuffixKey(w: seq<string>, s: nat): string
    requires s <= |w|
  {
    Lower(Join(" ", w[s..]))
  }

  function SuffixKeys(w: seq<string>): (keys: seq<string>)
    requires |w| > 2
    ensures |keys| == |w| - 2
    ensures forall i :: 0 <= i < |w| - 2 ==> keys[i] == SuffixKey(w, i + 1)
  {
    seq(|w| - 2, i requires 0 <= i < |w| - 2 => SuffixKey(w, i + 1))
  }

  /** The keys are exactly the full name, the words when there are several, and the inner suffixes when there are more than two. */
  lemma KeysOfMeaning(full: string, w: seq<string>, k: string)
    ensures k in KeysOf(full, w) <==>
        k == full
        || (|w| > 1 && exists i :: 0 <= i < |w| && k == Lower(w[i]))
        || (|w| > 2 && exists s :: 1 <= s < |w| - 1 && k == SuffixKey(w, s))
  {
    var words := if |w| > 1 then WordKeys(w) else [];
    var suffixes := if |w| > 2 then SuffixKeys(w) else [];
    assert KeysOf(full, w) == [full] + words + suffixes;
    if |w| > 1 {
      InWordKeys(w, k);
    }
    if |w| > 2 {
      InSuffixKeys(w, k);
    }
  }

  lemma InWordKeys(w: seq<string>, k: string)
    ensures k in WordKeys(w) <==> exists i :: 0 <= i < |w| && k == Lower(w[i])
  {
    if exists i :: 0 <= i < |w| && k == Lower(w[i]) {
      var i :| 0 <= i < |w| && k == Lower(w[i]);
      assert WordKeys(w)[i] == k;
    }
  }

  lemma InSuffixKeys(w: seq<string>, k: string)
    requires |w| > 2
    ensures k in SuffixKeys(w) <==> exists s :: 1 <= s < |w| - 1 && k == SuffixKey(w, s)
  {
    var suffixes := SuffixKeys(w);
    if exists s :: 1 <= s < |w| - 1 && k == SuffixKey(w, s) {
      var s :| 1 <= s < |w| - 1 && k == SuffixKey(w, s);
      assert suffixes[s - 1] == k;
    }
    if k in suffixes {
      var i :| 0 <= i < |suffixes| && suffixes[i] == k;
      assert k == SuffixKey(w, i + 1);
    }
  }

  /** Assigns `v` to each key in turn: the keys gain exactly `keys`, each now giving `v`. */
  function PutKeys(d: Dict<string, Uni>, keys: seq<string>, v: Uni): (r: Dict<string, Uni>)
    requires d.Valid()
    ensures r.Valid()
    ensures forall k :: k in r.values <==> k in d.values || k in keys
    ensures forall k :: k in keys ==> r.values[k] == v
    ensures forall k :: k !in keys && k in d.values ==> r.values[k] == d.values[k]
    decreases |keys|
  {
    if |keys| == 0 then d
    else
      var init := keys[..|keys| - 1];
      assert keys == init + [keys[|keys| - 1]];
      Put(PutKeys(d, init, v), keys[|keys| - 1], v)
  }

  lemma PutKeysSnoc(d: Dict<string, Uni>, keys: seq<string>, i: nat, v: Uni)
    requires d.Valid() && i < |keys|
    ensures PutKeys(d, keys[..i + 1], v) == Put(PutKeys(d, keys[..i], v), keys[i], v)
  {
    assert keys[..i + 1][..i] == keys[..i];
  }

  lemma {:induction false} PutKeysAppend(d: Dict<string, Uni>, a: seq<string>, b: seq<string>, v: Uni)
    requires d.Valid()
    ensures PutKeys(d, a + b, v) == PutKeys(PutKeys(d, a, v), b, v)
    decreases |b|
  {
    if |b| == 0 {
      assert a + b == a;
    } else {
      var front := b[..|b| - 1];
      var last := b[|b| - 1];
      assert (a + b)[..|a + b| - 1] == a + front;
      assert (a + b)[|a + b| - 1] == last;
      PutKeysAppend(d, a, front, v);
      assert PutKeys(d, a + b, v) == Put(PutKeys(d, a + front, v), last, v);
      assert PutKeys(PutKeys(d, a, v), b, v) == Put(PutKeys(PutKeys(d, a, v), front, v), last, v);
    }
  }

  /** The index after assigning the keys `keysOf` gives each university's name, university by university. */
  function NameIndex(unis: seq<Uni>, keysOf: string -> seq<string>): (d: Dict<string, Uni>)
    ensures d.Valid()
    decreases |unis|
  {
    if |unis| == 0 then Empty()
    else
      var last := unis[|unis| - 1];
      PutKeys(NameIndex(unis[..|unis| - 1], keysOf), keysOf(last.name), last)
  }

  /** Some university from position `from` on is indexed under `k`. */
  predicate IndexedFrom(unis: seq<Uni>, keysOf: string -> seq<string>, k: string, from: int)
  {
    exists j :: from <= j < |unis| && 0 <= j && k in keysOf(unis[j].name)
  }

  /** The i-th university is indexed under `k` and none after it is. */
  predicate LastIndexedBy(unis: seq<Uni>, keysOf: string -> seq<string>, k: string, i: int)
  {
    0 <= i < |unis| && k in keysOf(unis[i].name) && !IndexedFrom(unis, keysOf, k, i + 1)
  }

  /** A key is in the index exactly when some university is indexed under it. */
  lemma {:induction false} NameIndexKeys(unis: seq<Uni>, keysOf: string -> seq<string>, k: string)
    ensures k in NameIndex(unis, keysOf).values <==> IndexedFrom(unis, keysOf, k, 0)
    decreases |unis|
  {
    if |unis| > 0 {
      var n := |unis| - 1;
      var prefix := unis[..n];
      NameIndexKeys(prefix, keysOf, k);
      if k in keysOf(unis[n].name) {
        assert IndexedFrom(unis, keysOf, k, 0);
      } else {
        if IndexedFrom(prefix, keysOf, k, 0) {
          var j :| 0 <= j < n && k in keysOf(prefix[j].name);
          assert unis[j] == prefix[j];
        }
        if IndexedFrom(unis, keysOf, k, 0) {
          var j :| 0 <= j < |unis| && k in keysOf(unis[j].name);
          assert prefix[j] == unis[j];
        }
      }
    }
  }

  /** A key names the last university indexed under it: later records overwrite earlier ones. */
  lemma {:induction false} NameIndexLast(unis: seq<Uni>, keysOf: string -> seq<string>, k: string, i: int)
    requires LastIndexedBy(unis, keysOf, k, i)
    ensures k in NameIndex(unis, keysOf).values && NameIndex(unis, keysOf).values[k] == unis[i]
    decreases |unis|
  {
    var n := |unis| - 1;
    if i < n {
      var prefix := unis[..n];
      assert forall j :: 0 <= j < n ==> prefix[j] == unis[j];
      assert k !in keysOf(unis[n].name);
      NameIndexLast(prefix, keysOf, k, i);
    }
  }

  /** The manual overrides are appended after the downloaded list, so a key an override has names an override. */
  lemma OverridesWin(downloaded: seq<Uni>, overrides: seq<Uni>, keysOf: string -> seq<string>, k: string, i: int)
    requires LastIndexedBy(overrides, keysOf, k, i)
    ensures k in NameIndex(downloaded + overrides, keysOf).values
    ensures NameIndex(downloaded + overrides, keysOf).values[k] == overrides[i]
  {
    var all := downloaded + overrides;
    var m := |downloaded|;
    assert all[m + i] == overrides[i];
    forall j | m + i + 1 <= j < |all| ensures k !in keysOf(all[j].name) {
      assert all[j] == overrides[j - m];
    }
    NameIndexLast(all, keysOf, k, m + i);
  }

  /** `_build_university_index`: the loops over the universities and over their words and suffixes. */
  method BuildIndex(unis: seq<Uni>) returns (index: Dict<string, Uni>)
    ensures index == NameIndex(unis, IndexKeys)
  {
    index := Empty();
    var u := 0;
    while u < |unis|
      invariant 0 <= u <= |unis|
      invariant index == NameIndex(unis[..u], IndexKeys)
    {
      assert unis[..u + 1][..u] == unis[..u];
      index := IndexUni(index, unis[u]);
      u := u + 1;
    }
    assert unis[..u] == unis;
  }

  /** The keys of one university: its name, then its words, then its suffixes. */
  method IndexUni(d: Dict<string, Uni>, uni: Uni) returns (index: Dict<string, Uni>)
    requires d.Valid()
    ensures index == PutKeys(d, IndexKeys(uni.name), uni)
  {
    var full := Lower(uni.name);
    var w := Words(uni.name);
    index := Put(d, full, uni);
    if |w| > 1 {
      index := PutWords(index, w, uni);
      if |w| > 2 {
        index := PutSuffixes(index, w, uni);
      }
    }
    KeysAssembled(d, full, w, uni);
  }

  /** The keys of a university are assigned in three runs: the name, the words, the suffixes. */
  lemma KeysAssembled(d: Dict<string, Uni>, full: string, w: seq<string>, v: Uni)
    requires d.Valid()
    ensures var d1 := Put(d, full, v);
      var d2 := if |w| > 1 then PutKeys(d1, WordKeys(w), v) else d1;
      PutKeys(d, KeysOf(full, w), v) == if |w| > 2 then PutKeys(d2, SuffixKeys(w), v) else d2
  {
    var words := if |w| > 1 then WordKeys(w) else [];
    var suffixes := if |w| > 2 then SuffixKeys(w) else [];
    assert KeysOf(full, w) == [full] + words + suffixes;
    PutKeysAppend(d, [full] + words, suffixes, v);
    PutKeysAppend(d, [full], words, v);
    assert PutKeys(d, [full], v) == Put(d, full, v) by {
      assert [full][..0] == [];
    }
  }

  /** Indexes the university under each word of its name, lower-cased. */
  method PutWords(d: Dict<string, Uni>, w: seq<string>, uni: Uni) returns (index: Dict<string, Uni>)
    requires d.Valid()
    ensures index == PutKeys(d, WordKeys(w), uni)
  {
    index := d;
    var i := 0;
    while i < |w|
      invariant 0 <= i <= |w|
      invariant index == PutKeys(d, WordKeys(w)[..i], uni)
    {
      PutKeysSnoc(d, WordKeys(w), i, uni);
      index := Put(index, Lower(w[i]), uni);
      i := i + 1;
    }
    assert WordKeys(w)[..i] == WordKeys(w);
  }

  /** Indexes the university under each proper suffix of its words that drops at least one and keeps at least two, joined by blanks and lower-cased. */
  method PutSuffixes(d: Dict<string, Uni>, w: seq<string>, uni: Uni) returns (index: Dict<string, Uni>)
    requires d.Valid() && |w| > 2
    ensures index == PutKeys(d, SuffixKeys(w), uni)
  {
    index := d;
    var s := 1;
    while s < |w| - 1
      invariant 1 <= s <= |w| - 1
      invariant index == PutKeys(d, SuffixKeys(w)[..s - 1], uni)
    {
      PutKeysSnoc(d, SuffixKeys(w), s - 1, uni);
      index := Put(index, SuffixKey(w, s), uni);
      s := s + 1;
    }
    assert SuffixKeys(w)[..s - 1] == SuffixKeys(w);
  }

  // ---------------------------------------------------------------------
  // Cleaning an affiliation

  /** Removes every tag: a `<`, one or more characters other than `>`, and the `>`, left to right. */
  function RemoveTags(s: string): (r: string)
    ensures |r| <= |s|
    decreases |s|
  {
    if |s| == 0 then ""
    else if s[0] != '<' then [s[0]] + RemoveTags(s[1..])
    else match FindChar(s[1..], '>')
      case None => s
      case Some(k) => if k >= 1 then RemoveTags(s[k + 2..]) else [s[0]] + RemoveTags(s[1..])
  }

  /** A text without `<` has no tag to remove. */
  lemma {:induction false} NoTagUnchanged(s: string)
    requires '<' !in s
    ensures RemoveTags(s) == s
    decreases |s|
  {
    if |s| > 0 {
      assert s == [s[0]] + s[1..];
      NoTagUnchanged(s[1..]);
    }
  }

  /** A leading tag such as `<br>` is removed and nothing else is touched at that point. */
  lemma TagRemoved(t: string, rest: string)
    requires |t| > 0 && '>' !in t
    ensures RemoveTags("<" + t + ">" + rest) == RemoveTags(rest)
  {
    var s := "<" + t + ">" + rest;
    var after := s[1..];
    assert after == t + ">" + rest;
    assert after[|t|] == '>';
    assert forall i :: 0 <= i < |t| ==> after[i] == t[i];
    assert '>' in after;
    var k := FindChar(after, '>').value;
    forall i | 0 <= i < k ensures after[i] != '>' {
      assert after[..k][i] == after[i];
    }
    assert k == |t|;
    assert s[|t| + 2..] == rest;
  }

  const AffiliationMarks: set<char> := {'_', '*', ' ', '\t', '\n', '\r'}

  /** `_clean_affiliation`: tags removed, markup and blanks stripped from both ends, white space collapsed. */
  function CleanAffiliation(aff: string): (r: string)
    ensures Tidy(r)
  {
    Collapse(StripSet(RemoveTags(aff), AffiliationMarks))
  }

  lemma CleanAffiliationIdempotentOnTidy(aff: string)
    requires Tidy(aff) && '<' !in aff
    requires |aff| > 0 ==> aff[0] !in AffiliationMarks && aff[|aff| - 1] !in AffiliationMarks
    ensures CleanAffiliation(aff) == aff
  {
    NoTagUnchanged(aff);
    StripSetFixed(aff, AffiliationMarks);
    TidyFixed(aff);
  }

  // ---------------------------------------------------------------------
  // Classifying one affiliation

  /** The index keys that start with `aff`, in index order. */
  function PrefixMatches(index: UniIndex, aff: string): (ms: seq<string>)
    ensures forall k :: k in ms ==> aff <= k && k in index.values
  {
    Filter(index.keys, (k: string) => aff <= k)
  }

  /**
   * The fuzzy search: the position of the first key with the highest ratio
   * above 0, and that ratio (0 and none when no ratio is positive).
   */
  function BestMatch(keys: seq<string>, aff: string, ratio: (string, string) -> int): (r: (Option<nat>, int))
    ensures r.0.Some? ==> r.0.value < |keys|
    decreases |keys|
  {
    if |keys| == 0 then (None, 0)
    else
      var (best, bestRatio) := BestMatch(keys[..|keys| - 1], aff, ratio);
      var score := ratio(keys[|keys| - 1], aff);
      if score > bestRatio then (Some(|keys| - 1), score) else (best, bestRatio)
  }

  /** The best key has the highest ratio, and every key before it a strictly lower one: the first key wins ties. */
  lemma {:induction false} BestMatchMeaning(keys: seq<string>, aff: string, ratio: (string, string) -> int)
    ensures var (best, bestRatio) := BestMatch(keys, aff, ratio);
      bestRatio >= 0
      && (forall j :: 0 <= j < |keys| ==> ratio(keys[j], aff) <= bestRatio)
      && (best.None? <==> bestRatio == 0)
      && (best.Some? ==>
            ratio(keys[best.value], aff) == bestRatio && forall j :: 0 <= j < best.value ==> ratio(keys[j], aff) < bestRatio)
    decreases |keys|
  {
    if |keys| > 0 {
      var n := |keys| - 1;
      BestMatchMeaning(keys[..n], aff, ratio);
      assert forall j :: 0 <= j < n ==> keys[..n][j] == keys[j];
    }
  }

  /** The `best_ratio` / `best_match` loop. */
  method FuzzyBest(keys: seq<string>, aff: string, ratio: (string, string) -> int)
    returns (best: Option<nat>, bestRatio: int)
    ensures (best, bestRatio) == BestMatch(keys, aff, ratio)
  {
    best := None;
    bestRatio := 0;
    var i := 0;
    while i < |keys|
      invariant 0 <= i <= |keys|
      invariant (best, bestRatio) == BestMatch(keys[..i], aff, ratio)
    {
      assert keys[..i + 1][..i] == keys[..i];
      var score := ratio(keys[i], aff);
      if score > bestRatio {
        bestRatio := score;
        best := Some(i);
      }
      i := i + 1;
    }
    assert keys[..i] == keys;
  }

  /** The affiliation as the index is searched with: lower-cased and stripped. */
  function SearchKey(affiliation: string): string
  {
    Strip(Lower(affiliation))
  }

  /** A well-formed name index. */
  type UniIndex = d: Dict<string, Uni> | d.Valid() witness Dict([], map[])

  /**
   * What classifying an affiliation depends on: the name index, the trie's
   * choice among the keys that start with the affiliation, and the fuzzy
   * similarity ratio of a key and the affiliation.
   */
  datatype Resolver = Resolver(index: UniIndex, pick: seq<string> -> nat, ratio: (string, string) -> int)

  /** `classify_member`: the university of an affiliation, standing for its country and name. */
  function Classification(affiliation: string, r: Resolver): (u: Option<Uni>)
    ensures SearchKey(affiliation) == "" ==> u.None?
  {
    var aff := SearchKey(affiliation);
    if aff == "" then None
    else
      var ms := PrefixMatches(r.index, aff);
      if |ms| > 0 then Some(r.index.values[ms[r.pick(ms) % |ms|]])
      else
        var (best, bestRatio) := BestMatch(r.index.keys, aff, r.ratio);
        if bestRatio > 80 && best.Some? then Some(r.index.values[r.index.keys[best.value]]) else None
  }

  /** The i-th key has the highest ratio of all keys and a strictly higher one than every key before it. */
  predicate FirstBest(keys: seq<string>, aff: string, ratio: (string, string) -> int, i: int)
  {
    0 <= i < |keys|
    && (forall j :: 0 <= j < |keys| ==> ratio(keys[j], aff) <= ratio(keys[i], aff))
    && (forall j :: 0 <= j < i ==> ratio(keys[j], aff) < ratio(keys[i], aff))
  }

  /** A key starting with the affiliation decides: the result is the university of such a key. */
  lemma ClassifyByPrefix(affiliation: string, r: Resolver)
    requires SearchKey(affiliation) != "" && |PrefixMatches(r.index, SearchKey(affiliation))| > 0
    ensures var u := Classification(affiliation, r);
      u.Some? && exists k :: k in r.index.values && SearchKey(affiliation) <= k && u.value == r.index.values[k]
  {
    var aff := SearchKey(affiliation);
    var ms := PrefixMatches(r.index, aff);
    var k := ms[r.pick(ms) % |ms|];
    assert k in ms;
  }

  /**
   * Without a prefix match the affiliation is classified exactly when some
   * key's ratio exceeds 80, and then as the university of the first key of
   * highest ratio.
   */
  lemma ClassifyByRatio(affiliation: string, r: Resolver)
    requires SearchKey(affiliation) != "" && |PrefixMatches(r.index, SearchKey(affiliation))| == 0
    ensures var u := Classification(affiliation, r); var aff := SearchKey(affiliation); var keys := r.index.keys;
      (u.Some? <==> exists i :: 0 <= i < |keys| && r.ratio(keys[i], aff) > 80)
      && (u.Some? ==> exists i :: FirstBest(keys, aff, r.ratio, i) && u.value == r.index.values[keys[i]])
  {
    var aff := SearchKey(affiliation);
    BestMatchMeaning(r.index.keys, aff, r.ratio);
    var (best, bestRatio) := BestMatch(r.index.keys, aff, r.ratio);
    if best.Some? {
      assert FirstBest(r.index.keys, aff, r.ratio, best.value);
    }
  }

  /** `classify_member` with its fuzzy loop. */
  method ClassifyMember(affiliation: string, r: Resolver) returns (u: Option<Uni>)
    ensures u == Classification(affiliation, r)
  {
    var aff := SearchKey(affiliation);
    if aff == "" {
      return None;
    }
    var ms := PrefixMatches(r.index, aff);
    if |ms| > 0 {
      return Some(r.index.values[ms[r.pick(ms) % |ms|]]);
    }
    var best, bestRatio := FuzzyBest(r.index.keys, aff, r.ratio);
    if bestRatio > 80 && best.Some? {
      return Some(r.index.values[r.index.keys[best.value]]);
    }
    return None;
  }

  // ---------------------------------------------------------------------
  // Per-conference counts

  /** A few entries of the country-to-continent table. */
  const ContinentOf: map<string, string> := map[
    "China" := "Asia", "India" := "Asia", "France" := "Europe", "Germany" := "Europe",
    "United States" := "North America", "Canada" := "North America",
    "Brazil" := "South America", "Australia" := "Oceania", "Kenya" := "Africa"
  ]

  /** The continent of a country, `Unknown` for a country the table does not list. */
  function Continent(country: string): (c: string)
    ensures country !in ContinentOf ==> c == "Unknown"
  {
    if country in ContinentOf then ContinentOf[country] else "Unknown"
  }

  /** A counter with integer counts, keys in first-insertion order. */
  type Counter = d: Dict<string, nat> | d.Valid() witness Dict([], map[])

  /** The count of `k`, 0 when absent. */
  function Get0(d: Counter, k: string): nat
  {
    if k in d.values then d.values[k] else 0
  }

  /** Adds `n` to the count of `k`. */
  function AddTo(d: Counter, k: string, n: nat): (r: Counter)
    ensures Get0(r, k) == Get0(d, k) + n
    ensures forall j :: j != k ==> Get0(r, j) == Get0(d, j)
    ensures r.keys == if k in d.values then d.keys else d.keys + [k]
    ensures r.values.Keys == d.values.Keys + {k}
  {
    Put(d, k, Get0(d, k) + n)
  }

  function Occurrences(ks: seq<string>, k: string): nat
    decreases |ks|
  {
    if |ks| == 0 then 0
    else Occurrences(ks[..|ks| - 1], k) + (if ks[|ks| - 1] == k then 1 else 0)
  }

  /** A counter after one more count for each key in turn. */
  function Tally(ks: seq<string>): (d: Counter)
    decreases |ks|
  {
    if |ks| == 0 then Empty() else AddTo(Tally(ks[..|ks| - 1]), ks[|ks| - 1], 1)
  }

  /** Each key is counted as often as it occurs, and a key is present exactly when it occurs. */
  lemma TallyMeaning(ks: seq<string>, k: string)
    ensures Get0(Tally(ks), k) == Occurrences(ks, k)
    ensures k in Tally(ks).values <==> k in ks
  {
    TallyCounts(ks, k);
    TallyKeys(ks, k);
  }

  lemma {:induction false} TallyCounts(ks: seq<string>, k: string)
    ensures Get0(Tally(ks), k) == Occurrences(ks, k)
    decreases |ks|
  {
    if |ks| > 0 {
      TallyCounts(ks[..|ks| - 1], k);
    }
  }

  lemma {:induction false} TallyKeys(ks: seq<string>, k: string)
    ensures k in Tally(ks).values <==> k in ks
    decreases |ks|
  {
    if |ks| > 0 {
      var init := ks[..|ks| - 1];
      var last := ks[|ks| - 1];
      TallyKeys(init, k);
      var d := Tally(init);
      assert Tally(ks) == AddTo(d, last, 1);
      assert Tally(ks).values.Keys == d.values.Keys + {last};
      SnocMember(ks, k);
    }
  }

  /** The university of a member's cleaned affiliation, when it has a non-empty country. */
  function Located(e: Entry, r: Resolver): (u: Option<Uni>)
    ensures u.Some? ==> u.value.country != ""
    ensures u.Some? ==> u == Classification(CleanAffiliation(e.affiliation), r)
  {
    var u := Classification(CleanAffiliation(e.affiliation), r);
    if u.Some? && u.value.country != "" then u else None
  }

  /** The institution a classified member counts for: the university's name, or the raw affiliation when that is empty. */
  function InstitutionKey(e: Entry, u: Uni): string
  {
    if u.name != "" then u.name else e.affiliation
  }

  /** A member that was not classified, as listed in `failed`. */
  datatype Failure = Failure(conference: string, name: string, affiliation: string)

  /** What one conference-year contributes. */
  datatype ConfCounts = ConfCounts(countries: Counter, continents: Counter, institutions: Counter)

  /** The counts after one more member: all three bumped when it is located, none otherwise. */
  function CountStep(c: ConfCounts, e: Entry, u: Option<Uni>): ConfCounts
  {
    if u.Some? then
      ConfCounts(AddTo(c.countries, u.value.country, 1), AddTo(c.continents, Continent(u.value.country), 1),
                 AddTo(c.institutions, InstitutionKey(e, u.value), 1))
    else c
  }

  /** The counts of a conference-year's members, with `locate` picking each member's university. */
  function Counts(ms: seq<Entry>, locate: Entry -> Option<Uni>): ConfCounts
    decreases |ms|
  {
    if |ms| == 0 then ConfCounts(Empty(), Empty(), Empty())
    else CountStep(Counts(ms[..|ms| - 1], locate), ms[|ms| - 1], locate(ms[|ms| - 1]))
  }

  /** The members `locate` finds no university for, in order. */
  function Failures(conf: string, ms: seq<Entry>, locate: Entry -> Option<Uni>): seq<Failure>
    decreases |ms|
  {
    if |ms| == 0 then []
    else
      var e := ms[|ms| - 1];
      Failures(conf, ms[..|ms| - 1], locate)
      + (if locate(e).Some? then [] else [Failure(conf, e.name, CleanAffiliation(e.affiliation))])
  }

  /** The members that are located. */
  function LocatedCount(ms: seq<Entry>, locate: Entry -> Option<Uni>): nat
  {
    Count(ms, (e: Entry) => locate(e).Some?)
  }

  /** The total of a counter's counts. */
  function Total(d: Counter): nat
  {
    SumOver(d, d.keys)
  }

  function SumOver(d: Counter, ks: seq<string>): nat
    decreases |ks|
  {
    if |ks| == 0 then 0 else SumOver(d, ks[..|ks| - 1]) + Get0(d, ks[|ks| - 1])
  }

  /** Every member is either located or listed as failed, never both. */
  lemma {:induction false} Partition(conf: string, ms: seq<Entry>, locate: Entry -> Option<Uni>)
    ensures LocatedCount(ms, locate) + |Failures(conf, ms, locate)| == |ms|
    decreases |ms|
  {
    if |ms| > 0 {
      Partition(conf, ms[..|ms| - 1], locate);
    }
  }

  /** The three things a conference-year's members are counted by. */
  datatype Tallied = Countries | Continents | Institutions

  function Field(c: ConfCounts, t: Tallied): Counter
  {
    match t
    case Countries => c.countries
    case Continents => c.continents
    case Institutions => c.institutions
  }

  /** The key a located member is counted under in each counter. */
  function FieldKey(t: Tallied, e: Entry, u: Uni): string
  {
    match t
    case Countries => u.country
    case Continents => Continent(u.country)
    case Institutions => InstitutionKey(e, u)
  }

  /** Every located member is counted exactly once in each counter: a counter's total is the number of located members. */
  lemma {:induction false} CountedOnce(ms: seq<Entry>, locate: Entry -> Option<Uni>, t: Tallied)
    ensures Total(Field(Counts(ms, locate), t)) == LocatedCount(ms, locate)
    decreases |ms|
  {
    if |ms| > 0 {
      var init := ms[..|ms| - 1];
      var e := ms[|ms| - 1];
      CountedOnce(init, locate, t);
      var c := Counts(init, locate);
      if locate(e).Some? {
        var u := locate(e).value;
        IncrementTotal(Field(c, t), FieldKey(t, e, u));
      }
    }
  }

  /** One more count raises the total by one. */
  lemma IncrementTotal(d: Counter, k: string)
    ensures Total(AddTo(d, k, 1)) == Total(d) + 1
  {
    var r := AddTo(d, k, 1);
    if k in d.values {
      SumOverChanged(d, r, d.keys, k);
    } else {
      assert r.keys == d.keys + [k];
      assert r.keys[..|r.keys| - 1] == d.keys;
      SumOverChanged(d, r, d.keys, k);
      assert k !in d.keys;
    }
  }

  /** Summing over keys where only `k` changed, by one. */
  lemma {:induction false} SumOverChanged(d: Counter, r: Counter, ks: seq<string>, k: string)
    requires Get0(r, k) == Get0(d, k) + 1 && forall j :: j != k ==> Get0(r, j) == Get0(d, j)
    requires forall i, j :: 0 <= i < j < |ks| ==> ks[i] != ks[j]
    ensures SumOver(r, ks) == SumOver(d, ks) + (if k in ks then 1 else 0)
    decreases |ks|
  {
    if |ks| > 0 {
      var init := ks[..|ks| - 1];
      SumOverChanged(d, r, init, k);
      assert ks == init + [ks[|ks| - 1]];
    }
  }

  /** The per-member step of `classify_committees`. */
  method CountMember(c: ConfCounts, e: Entry, r: Resolver, conf: string)
    returns (next: ConfCounts, failure: Option<Failure>)
    ensures next == CountStep(c, e, Located(e, r))
    ensures failure == if Located(e, r).Some? then None else Some(Failure(conf, e.name, CleanAffiliation(e.affiliation)))
  {
    var affiliation := CleanAffiliation(e.affiliation);
    var u := ClassifyMember(affiliation, r);
    if u.Some? && u.value.country != "" {
      var country := u.value.country;
      next := ConfCounts(AddTo(c.countries, country, 1), AddTo(c.continents, Continent(country), 1),
                         AddTo(c.institutions, InstitutionKey(e, u.value), 1));
      failure := None;
    } else {
      next := c;
      failure := Some(Failure(conf, e.name, affiliation));
    }
  }

  /** Locating with a resolver, as a function value. */
  function Locate(r: Resolver): Entry -> Option<Uni>
  {
    (e: Entry) => Located(e, r)
  }

  /** The results keyed by conference-year, in their dict order. */
  type Results = d: Dict<string, seq<Entry>> | d.Valid() witness Dict([], map[])

  /** The members listed for a conference-year (every key listed has them). */
  function MembersOf(results: Results, c: string): seq<Entry>
  {
    if c in results.values then results.values[c] else []
  }

  /** The failures of the conference-years `confs`, conference by conference. */
  function AllFailures(results: Results, confs: seq<string>, locate: Entry -> Option<Uni>): seq<Failure>
    decreases |confs|
  {
    if |confs| == 0 then []
    else
      var c := confs[|confs| - 1];
      AllFailures(results, confs[..|confs| - 1], locate) + Failures(c, MembersOf(results, c), locate)
  }

  lemma AllFailuresSnoc(results: Results, confs: seq<string>, i: nat, locate: Entry -> Option<Uni>)
    requires i < |confs|
    ensures AllFailures(results, confs[..i + 1], locate)
      == AllFailures(results, confs[..i], locate) + Failures(confs[i], MembersOf(results, confs[i]), locate)
  {
    assert confs[..i + 1][..i] == confs[..i];
  }

  /** The member loop of one conference-year. */
  method ClassifyConference(conf: string, members: seq<Entry>, r: Resolver)
    returns (counts: ConfCounts, failed: seq<Failure>)
    ensures counts == Counts(members, Locate(r))
    ensures failed == Failures(conf, members, Locate(r))
  {
    counts := ConfCounts(Empty(), Empty(), Empty());
    failed := [];
    var j := 0;
    while j < |members|
      invariant 0 <= j <= |members|
      invariant counts == Counts(members[..j], Locate(r))
      invariant failed == Failures(conf, members[..j], Locate(r))
    {
      CountsSnoc(conf, members, j, Locate(r));
      assert Locate(r)(members[j]) == Located(members[j], r);
      var failure;
      counts, failure := CountMember(counts, members[j], r, conf);
      if failure.Some? {
        failed := failed + [failure.value];
      }
      j := j + 1;
    }
    assert members[..j] == members;
  }

  lemma CountsSnoc(conf: string, ms: seq<Entry>, j: nat, locate: Entry -> Option<Uni>)
    requires j < |ms|
    ensures Counts(ms[..j + 1], locate) == CountStep(Counts(ms[..j], locate), ms[j], locate(ms[j]))
    ensures Failures(conf, ms[..j + 1], locate) == Failures(conf, ms[..j], locate)
      + (if locate(ms[j]).Some? then [] else [Failure(conf, ms[j].name, CleanAffiliation(ms[j].affiliation))])
  {
    assert ms[..j + 1][..j] == ms[..j];
  }

  /** The counts of the conference-years `confs`, keyed by conference-year. */
  function ByConf(results: Results, confs: seq<string>, locate: Entry -> Option<Uni>): map<string, ConfCounts>
    decreases |confs|
  {
    if |confs| == 0 then map[]
    else
      var c := confs[|confs| - 1];
      ByConf(results, confs[..|confs| - 1], locate)[c := Counts(MembersOf(results, c), locate)]
  }

  lemma ByConfSnoc(results: Results, confs: seq<string>, i: nat, locate: Entry -> Option<Uni>)
    requires i < |confs|
    ensures ByConf(results, confs[..i + 1], locate)
      == ByConf(results, confs[..i], locate)[confs[i] := Counts(MembersOf(results, confs[i]), locate)]
  {
    assert confs[..i + 1][..i] == confs[..i];
  }

  /** Every listed conference-year has its own counts, and no other key appears. */
  lemma {:induction false} ByConfMeaning(results: Results, confs: seq<string>, locate: Entry -> Option<Uni>, c: string)
    ensures c in ByConf(results, confs, locate) <==> c in confs
    ensures c in confs ==> ByConf(results, confs, locate)[c] == Counts(MembersOf(results, c), locate)
    decreases |confs|
  {
    if |confs| > 0 {
      var init := confs[..|confs| - 1];
      ByConfMeaning(results, init, locate, c);
      assert confs == init + [confs[|confs| - 1]];
    }
  }

  /**
   * `classify_committees`: the counts of each conference-year and the
   * members that could not be classified, conference by conference.
   */
  method ClassifyCommittees(results: Results, r: Resolver)
    returns (byConf: map<string, ConfCounts>, failed: seq<Failure>)
    ensures byConf == ByConf(results, results.keys, Locate(r))
    ensures failed == AllFailures(results, results.keys, Locate(r))
  {
    byConf := map[];
    failed := [];
    var confs := results.keys;
    var i := 0;
    while i < |confs|
      invariant 0 <= i <= |confs|
      invariant byConf == ByConf(results, confs[..i], Locate(r))
      invariant failed == AllFailures(results, confs[..i], Locate(r))
    {
      var conf := confs[i];
      ByConfSnoc(results, confs, i, Locate(r));
      AllFailuresSnoc(results, confs, i, Locate(r));
      var counts, confFailed := ClassifyConference(conf, MembersOf(results, conf), r);
      byConf := byConf[conf := counts];
      failed := failed + confFailed;
      i := i + 1;
    }
    assert confs[..i] == confs;
  }

  // ---------------------------------------------------------------------
  // Totals across conferences

  /** Adds the count of each key of `ks` in `counts` to that key's count in `acc`. */
  function AddCounts(acc: Counter, counts: Counter, ks: seq<string>): (r: Counter)
    decreases |ks|
  {
    if |ks| == 0 then acc
    else
      var r := AddCounts(acc, counts, ks[..|ks| - 1]);
      var k := ks[|ks| - 1];
      AddTo(r, k, Get0(counts, k))
  }

  lemma {:induction false} AddCountsMeaning(acc: Counter, counts: Counter, ks: seq<string>, k: string)
    requires forall i, j :: 0 <= i < j < |ks| ==> ks[i] != ks[j]
    ensures Get0(AddCounts(acc, counts, ks), k) == Get0(acc, k) + (if k in ks then Get0(counts, k) else 0)
    decreases |ks|
  {
    if |ks| > 0 {
      var init := ks[..|ks| - 1];
      AddCountsMeaning(acc, counts, init, k);
      assert ks == init + [ks[|ks| - 1]];
    }
  }

  lemma AddCountsSnoc(acc: Counter, counts: Counter, ks: seq<string>, j: nat)
    requires j < |ks|
    ensures var r := AddCounts(acc, counts, ks[..j]);
      AddCounts(acc, counts, ks[..j + 1]) == AddTo(r, ks[j], Get0(counts, ks[j]))
  {
    assert ks[..j + 1][..j] == ks[..j];
  }

  /** The area of a conference-year, `unknown` when it has none. */
  function AreaOf(area: map<string, string>, c: string): string
  {
    if c in area then area[c] else "unknown"
  }

  /** The per-conference-year counters, in conference order. */
  type PerConf = d: Dict<string, Counter> | d.Valid() witness Dict([], map[])

  /** The counters of a conference-year (every key listed has them). */
  function CountsOf(perConf: PerConf, c: string): Counter
  {
    if c in perConf.values then perConf.values[c] else Empty()
  }

  /** One conference-year's contribution to a total that accepts the areas `keep` accepts. */
  function AggStep(acc: Counter, counts: Counter, a: string, keep: string -> bool): Counter
  {
    if keep(a) then AddCounts(acc, counts, counts.keys) else acc
  }

  /** The totals over the conference-years of `confs` whose area `keep` accepts. */
  function Aggregate(perConf: PerConf, confs: seq<string>, area: map<string, string>, keep: string -> bool): Counter
    decreases |confs|
  {
    if |confs| == 0 then Empty()
    else
      var c := confs[|confs| - 1];
      AggStep(Aggregate(perConf, confs[..|confs| - 1], area, keep), CountsOf(perConf, c), AreaOf(area, c), keep)
  }

  lemma AggregateSnoc(perConf: PerConf, confs: seq<string>, i: nat, area: map<string, string>, keep: string -> bool)
    requires i < |confs|
    ensures Aggregate(perConf, confs[..i + 1], area, keep)
      == AggStep(Aggregate(perConf, confs[..i], area, keep), CountsOf(perConf, confs[i]), AreaOf(area, confs[i]), keep)
  {
    assert confs[..i + 1][..i] == confs[..i];
  }

  /** The sum of a key's counts over the conference-years of `confs` whose area `keep` accepts. */
  function KeyTotal(perConf: PerConf, confs: seq<string>, area: map<string, string>, keep: string -> bool, k: string): nat
    decreases |confs|
  {
    if |confs| == 0 then 0
    else
      var c := confs[|confs| - 1];
      KeyTotal(perConf, confs[..|confs| - 1], area, keep, k) + (if keep(AreaOf(area, c)) then Get0(CountsOf(perConf, c), k) else 0)
  }

  /** Each aggregated count is the sum of that key's counts over the accepted conference-years. */
  lemma {:induction false} AggregateMeaning(perConf: PerConf, confs: seq<string>, area: map<string, string>,
                                            keep: string -> bool, k: string)
    ensures Get0(Aggregate(perConf, confs, area, keep), k) == KeyTotal(perConf, confs, area, keep, k)
    decreases |confs|
  {
    if |confs| > 0 {
      var c := confs[|confs| - 1];
      AggregateMeaning(perConf, confs[..|confs| - 1], area, keep, k);
      var counts := CountsOf(perConf, c);
      if keep(AreaOf(area, c)) {
        AddCountsMeaning(Aggregate(perConf, confs[..|confs| - 1], area, keep), counts, counts.keys, k);
        assert k in counts.keys <==> k in counts.values;
      }
    }
  }

  function IsSystems(a: string): bool { a == "systems" }
  function IsSecurity(a: string): bool { a == "security" }
  function AnyArea(a: string): bool { true }

  /**
   * Every count reaches the overall total and at most one of the two area
   * totals; when every conference-year is systems or security, the two
   * area totals add up to the overall one.
   */
  lemma {:induction false} AreaTotals(perConf: PerConf, confs: seq<string>, area: map<string, string>, k: string)
    ensures KeyTotal(perConf, confs, area, IsSystems, k) + KeyTotal(perConf, confs, area, IsSecurity, k)
            <= KeyTotal(perConf, confs, area, AnyArea, k)
    ensures (forall i :: 0 <= i < |confs| ==> IsSystems(AreaOf(area, confs[i])) || IsSecurity(AreaOf(area, confs[i]))) ==>
      KeyTotal(perConf, confs, area, IsSystems, k) + KeyTotal(perConf, confs, area, IsSecurity, k)
      == KeyTotal(perConf, confs, area, AnyArea, k)
    decreases |confs|
  {
    if |confs| > 0 {
      AreaTotals(perConf, confs[..|confs| - 1], area, k);
    }
  }

  /** `_aggregate_across_conferences`: overall, systems and security totals. */
  method AggregateAcrossConferences(perConf: PerConf, area: map<string, string>)
    returns (overall: Counter, systems: Counter, security: Counter)
    ensures overall == Aggregate(perConf, perConf.keys, area, AnyArea)
    ensures systems == Aggregate(perConf, perConf.keys, area, IsSystems)
    ensures security == Aggregate(perConf, perConf.keys, area, IsSecurity)
  {
    overall, systems, security := Empty(), Empty(), Empty();
    var confs := perConf.keys;
    var i := 0;
    while i < |confs|
      invariant 0 <= i <= |confs|
      invariant overall == Aggregate(perConf, confs[..i], area, AnyArea)
      invariant systems == Aggregate(perConf, confs[..i], area, IsSystems)
      invariant security == Aggregate(perConf, confs[..i], area, IsSecurity)
    {
      var c := confs[i];
      AggregateSnoc(perConf, confs, i, area, AnyArea);
      AggregateSnoc(perConf, confs, i, area, IsSystems);
      AggregateSnoc(perConf, confs, i, area, IsSecurity);
      overall, systems, security := AddConference(overall, systems, security, CountsOf(perConf, c), AreaOf(area, c));
      i := i + 1;
    }
    assert confs[..i] == confs;
  }

  /** The inner loop: one conference-year's counts added overall and to its area. */
  method AddConference(overall0: Counter, systems0: Counter, security0: Counter, counts: Counter, a: string)
    returns (overall: Counter, systems: Counter, security: Counter)
    ensures overall == AggStep(overall0, counts, a, AnyArea)
    ensures systems == AggStep(systems0, counts, a, IsSystems)
    ensures security == AggStep(security0, counts, a, IsSecurity)
  {
    overall, systems, security := overall0, systems0, security0;
    var keys := counts.keys;
    var j := 0;
    while j < |keys|
      invariant 0 <= j <= |keys|
      invariant overall == AddCounts(overall0, counts, keys[..j])
      invariant systems == if IsSystems(a) then AddCounts(systems0, counts, keys[..j]) else systems0
      invariant security == if IsSecurity(a) then AddCounts(security0, counts, keys[..j]) else security0
    {
      var k := keys[j];
      var count := Get0(counts, k);
      AddCountsSnoc(overall0, counts, keys, j);
      overall := AddTo(overall, k, count);
      if a == "systems" {
        AddCountsSnoc(systems0, counts, keys, j);
        systems := AddTo(systems, k, count);
      } else if a == "security" {
        AddCountsSnoc(security0, counts, keys, j);
        security := AddTo(security, k, count);
      }
      j := j + 1;
    }
    assert keys[..j] == keys;
  }

  // ---------------------------------------------------------------------
  // Validating and cleaning a committee

  const PlaceholderNames: set<string> := {"you?", "you", "tba", "tbd", "n/a", "", "title: organizers"}

  const MinCommitteeSize: nat := 5

  /** A name that is not a placeholder and longer than one character. */
  predicate RealName(name: string)
  {
    Lower(Strip(name)) !in PlaceholderNames && |Strip(name)| > 1
  }

  /** `_is_valid_committee`: at least five real names. */
  predicate IsValidCommittee(ms: seq<Entry>)
  {
    |ms| > 0 && Count(ms, (e: Entry) => RealName(e.name)) >= MinCommitteeSize
  }

  /**
   * A markdown link at the front of a name with non-empty text gives
   * that text; what follows the link is dropped.
   */
  function LinkText(name: string): (r: Option<string>)
    ensures r.Some? ==> |r.value| > 0 && ']' !in r.value
  {
    if |name| == 0 || name[0] != '[' then None
    else match FindChar(name[1..], ']')
      case None => None
      case Some(k) =>
        var rest := name[k + 2..];
        if k >= 1 && |rest| > 0 && rest[0] == '(' && FindChar(rest[1..], ')').Some? then Some(name[1..k + 1])
        else None
  }

  // A final line-break tag (with or without a slash and blanks) removed,
  // also just before one final line break.
  function RemoveFinalBr(s: string): string
  {
    if |s| > 0 && s[|s| - 1] == '\n' then DropBr(s[..|s| - 1]) + "\n" else DropBr(s)
  }

  /** The text without a final `<br`, white space, an optional slash and `>`. */
  function DropBr(s: string): (r: string)
    ensures r <= s
  {
    if |s| == 0 || s[|s| - 1] != '>' then s
    else
      var t := s[..|s| - 1];
      var u := if |t| > 0 && t[|t| - 1] == '/' then t[..|t| - 1] else t;
      var v := RStripSpaces(u);
      if EndsWith(v, "<br") then v[..|v| - 3] else s
  }

  /** The text without its trailing white space. */
  function RStripSpaces(s: string): (r: string)
    ensures r <= s
    decreases |s|
  {
    if |s| > 0 && IsSpace(s[|s| - 1]) then RStripSpaces(s[..|s| - 1]) else s
  }

  /** A name that reads as contact information rather than as a person. */
  predicate ContactLine(name: string)
  {
    var l := Lower(name);
    Contains(l, "contact") || Contains(l, "reach") || Contains(l, "mailto:")
  }

  /** The name `_clean_committee` keeps: link text, final `<br>` removed, stripped. */
  function CleanName(raw: string): (r: string)
    ensures Strip(r) == r
  {
    var name := Strip(raw);
    var linked := match LinkText(name) case Some(t) => t case None => name;
    StripIdempotent(RemoveFinalBr(linked));
    Strip(RemoveFinalBr(linked))
  }

  /** `_clean_committee` for one member: `None` for a placeholder, a one-letter name or contact text. */
  function CleanEntry(m: Entry): (r: Option<Entry>)
    ensures r.Some? ==> RealName(r.value.name) && !ContactLine(r.value.name) && r.value.role == m.role
  {
    var name := CleanName(m.name);
    if Lower(name) in PlaceholderNames || |name| <= 1 then None
    else if ContactLine(name) then None
    else
      var affiliation := Strip(StripSet(Strip(RemoveFinalBr(Strip(m.affiliation))), {'*', '_'}));
      Some(Entry(name, affiliation, m.role))
  }

  /** The cleaning loop of `_clean_committee`. */
  method CleanCommittee(ms: seq<Entry>) returns (cleaned: seq<Entry>)
    ensures cleaned == FilterMap(ms, CleanEntry)
  {
    cleaned := CollectSome(ms, CleanEntry);
  }

  /** After cleaning, every entry counts as a real name: a cleaned committee is valid exactly when it has five entries. */
  lemma {:induction false} CleanedValid(ms: seq<Entry>)
    ensures IsValidCommittee(FilterMap(ms, CleanEntry)) <==> |FilterMap(ms, CleanEntry)| >= MinCommitteeSize
  {
    var c := FilterMap(ms, CleanEntry);
    FilterMapAll(ms, CleanEntry, (e: Entry) => RealName(e.name));
    AllCounted(c);
  }

  lemma {:induction false} AllCounted(c: seq<Entry>)
    requires forall i :: 0 <= i < |c| ==> RealName(c[i].name)
    ensures Count(c, (e: Entry) => RealName(e.name)) == |c|
    decreases |c|
  {
    if |c| > 0 {
      AllCounted(c[..|c| - 1]);
    }
  }
}
