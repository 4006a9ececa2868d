/**
 * The collection pass of the repository statistics
 * (generate_repo_stats.py, `collect_stats_for_results`): list-valued URL
 * fields flattened into their single-valued key, the URL keys narrowed to
 * those the data uses, the existence check, and the walk over every
 * conference-year, artifact and URL key that fetches the statistics of each
 * normalised URL at most once.
 *
 * The hosting APIs are the parameter `fetch` (`None` for an API error or an
 * empty answer); the existence check's HTTP probe is the parameter
 * `present` of RepoCheck.
 */
module RepoStats {
  import opened Wrappers
  import opened Strings
  import opened Seqs
  import opened Dicts
  import opened Json
  import Statistics
  import RepoCheck
  import CommitteeStats
  import CollectStats

  type Results = Statistics.Results
  type Table = RepoCheck.Table
  type Source = CollectStats.Source

  /** The statistics of a URL from the API of a source, if it answers. */
  type Fetch = (Source, string) -> Option<Record>

  /** The URL keys scanned when the caller names none. */
  const DefaultUrlKeys: seq<string> :=
    ["repository_url", "artifact_url", "github_url", "second_repository_url", "bitbucket_url"]

  /** The list-valued URL fields, in the order they are flattened. */
  const ListKeys: seq<string> := ["artifact_urls", "additional_urls"]

  // ---------------------------------------------------------------------
  // Flattening list-valued URL fields

  /** The list key without its trailing `s` characters: the single-valued key a list is flattened into. */
  function FlatKey(listKey: string): string
  {
    RStripSet(listKey, {'s'})
  }

  /** The two list keys flatten into `artifact_url` and `additional_url`. */
  lemma FlatKeys()
    ensures FlatKey(ListKeys[0]) == "artifact_url" && FlatKey(ListKeys[1]) == "additional_url"
  {
    assert "artifact_urls"[..12] == "artifact_url";
    assert "additional_urls"[..14] == "additional_url";
  }

  /** A URL the flattening takes: non-empty text. */
  predicate IsUrl(u: Json)
  {
    u.Str? && u.s != ""
  }

  /** The artifact has key `k` and its value is truthy. */
  predicate Filled(a: Record, k: string)
  {
    k in a && Truthy(a[k])
  }

  /** One element of the list: a URL fills `flat` when that key is absent or empty. */
  function FillStep(flat: string): (Record, Json) -> Record
  {
    (a: Record, u: Json) => if IsUrl(u) && !Filled(a, flat) then a[flat := u] else a
  }

  /** The first URL of a list, if it has one. */
  function FirstUrl(items: seq<Json>): (r: Option<Json>)
    ensures r.Some? ==> IsUrl(r.value)
    decreases |items|
  {
    if |items| == 0 then None
    else if FirstUrl(items[..|items| - 1]).Some? then FirstUrl(items[..|items| - 1])
    else if IsUrl(items[|items| - 1]) then Some(items[|items| - 1])
    else None
  }

  /** `FirstUrl` is the URL at the smallest index holding one, and there is none exactly when no element is a URL. */
  lemma {:induction false} FirstUrlMeaning(items: seq<Json>)
    ensures FirstUrl(items).None? <==> forall i :: 0 <= i < |items| ==> !IsUrl(items[i])
    ensures FirstUrl(items).Some? ==>
      exists i :: 0 <= i < |items| && items[i] == FirstUrl(items).value && forall j :: 0 <= j < i ==> !IsUrl(items[j])
    decreases |items|
  {
    if |items| > 0 {
      var init := items[..|items| - 1];
      FirstUrlMeaning(init);
      assert forall i :: 0 <= i < |init| ==> init[i] == items[i];
      if FirstUrl(init).Some? {
        var i :| 0 <= i < |init| && init[i] == FirstUrl(init).value && forall j :: 0 <= j < i ==> !IsUrl(init[j]);
        assert items[i] == FirstUrl(items).value;
      }
    }
  }

  /** The list loop fills `flat` with the list's first URL, and only when `flat` was absent or empty. */
  lemma {:induction false} FillFold(a: Record, items: seq<Json>, flat: string)
    ensures Fold(a, items, FillStep(flat)) ==
      if FirstUrl(items).Some? && !Filled(a, flat) then a[flat := FirstUrl(items).value] else a
    decreases |items|
  {
    if |items| > 0 {
      FillFold(a, items[..|items| - 1], flat);
    }
  }

  /** The list field of an artifact flattened, when it is a list. */
  function Flattened(a: Record, listKey: string): Record
  {
    if listKey in a && a[listKey].List? then Fold(a, a[listKey].items, FillStep(FlatKey(listKey))) else a
  }

  /**
   * Flattening a list key sets its single-valued key to the list's first
   * non-empty text, only when the list is there and the key is absent or
   * empty; nothing else changes.
   */
  lemma FlattenedMeaning(a: Record, listKey: string)
    ensures Flattened(a, listKey) ==
      if listKey in a && a[listKey].List? && FirstUrl(a[listKey].items).Some? && !Filled(a, FlatKey(listKey))
      then a[FlatKey(listKey) := FirstUrl(a[listKey].items).value]
      else a
  {
    if listKey in a && a[listKey].List? {
      FillFold(a, a[listKey].items, FlatKey(listKey));
    }
  }

  function FlattenStep(): (Record, string) -> Record
  {
    (a: Record, listKey: string) => Flattened(a, listKey)
  }

  /** One artifact with both list keys flattened, in order. */
  function FlattenAll(a: Record): Record
  {
    Fold(a, ListKeys, FlattenStep())
  }

  /** The loop over the elements of one list. */
  method FlattenList(a: Record, listKey: string) returns (r: Record)
    ensures r == Flattened(a, listKey)
  {
    r := a;
    if listKey in a && a[listKey].List? {
      var items := a[listKey].items;
      var flat := FlatKey(listKey);
      for i := 0 to |items|
        invariant r == Fold(a, items[..i], FillStep(flat))
      {
        assert items[..i + 1] == items[..i] + [items[i]];
        FoldSnoc(a, items[..i], items[i], FillStep(flat));
        var url := items[i];
        ghost var before := r;
        if url.Str? && url.s != "" {
          if flat !in r || !Truthy(r[flat]) {
            r := r[flat := url];
          }
        }
        assert FillStep(flat)(before, url) == if IsUrl(url) && !Filled(before, flat) then before[flat := url] else before;
        assert r == FillStep(flat)(before, url);
      }
      assert items[..|items|] == items;
    }
  }

  /** The loop over the list keys of one artifact. */
  method FlattenArtifact(a: Record) returns (r: Record)
    ensures r == FlattenAll(a)
  {
    r := a;
    for k := 0 to |ListKeys|
      invariant r == Fold(a, ListKeys[..k], FlattenStep())
    {
      assert ListKeys[..k + 1] == ListKeys[..k] + [ListKeys[k]];
      FoldSnoc(a, ListKeys[..k], ListKeys[k], FlattenStep());
      r := FlattenList(r, ListKeys[k]);
    }
    assert ListKeys[..|ListKeys|] == ListKeys;
  }

  function FlattenBy(): Record -> Record
  {
    (a: Record) => FlattenAll(a)
  }

  function FlattenArts(): seq<Record> -> seq<Record>
  {
    (arts: seq<Record>) => MapSeq(arts, FlattenBy())
  }

  /** Every artifact of every conference flattened. */
  function FlattenTable(t: Table): Table
  {
    MapValues(t, FlattenArts())
  }

  /** The loop over the artifacts of one conference. */
  method FlattenConference(arts: seq<Record>) returns (out: seq<Record>)
    ensures out == MapSeq(arts, FlattenBy())
  {
    out := [];
    for i := 0 to |arts|
      invariant out == MapSeq(arts[..i], FlattenBy())
    {
      MapSeqSnoc(arts, i, FlattenBy());
      var a := FlattenArtifact(arts[i]);
      out := out + [a];
    }
    assert arts[..|arts|] == arts;
  }

  lemma FlattenedStep(names: seq<string>, t: Table, i: nat, out: Table)
    requires i < |names| && (forall a, b :: 0 <= a < b < |names| ==> names[a] != names[b])
    requires RepoCheck.KeySet(names) == t.Keys
    requires out == Pick(t, RepoCheck.KeySet(names[..i]), FlattenArts(), Id())
    ensures names[i] in out && out[names[i]] == t[names[i]]
    ensures out[names[i] := MapSeq(t[names[i]], FlattenBy())]
            == Pick(t, RepoCheck.KeySet(names[..i + 1]), FlattenArts(), Id())
  {
    var name := names[i];
    var done := RepoCheck.KeySet(names[..i]);
    assert name in RepoCheck.KeySet(names);
    assert name !in done;
    PickStep(t, done, FlattenArts(), Id(), name);
    RepoCheck.KeySetSnoc(names, i);
  }

  /** The loop over the conferences `names` of `t`, in order. */
  method FlattenTableLoop(names: seq<string>, t: Table) returns (out: Table)
    requires forall a, b :: 0 <= a < b < |names| ==> names[a] != names[b]
    requires RepoCheck.KeySet(names) == t.Keys
    ensures out == FlattenTable(t)
  {
    out := t;
    PickNoneSame(t, FlattenArts());
    assert RepoCheck.KeySet(names[..0]) == {};
    for i := 0 to |names|
      invariant out == Pick(t, RepoCheck.KeySet(names[..i]), FlattenArts(), Id())
    {
      FlattenedStep(names, t, i, out);
      var arts := FlattenConference(out[names[i]]);
      out := out[names[i] := arts];
    }
    assert names[..|names|] == names;
    PickAll(t, FlattenArts(), Id());
  }

  /** The flattening loops over the artifact lists of the results, each artifact updated in place. */
  method FlattenResults(results: Results) returns (out: Results)
    ensures out.keys == results.keys && out.values == FlattenTable(results.values)
  {
    assert results.Valid();
    assert RepoCheck.KeySet(results.keys) == results.values.Keys;
    var t := FlattenTableLoop(results.keys, results.values);
    out := RepoCheck.WithValues(results, t);
  }

  // ---------------------------------------------------------------------
  // The URL keys present in the data

  /** The keys of `keys` that `a` has a truthy value for. */
  function ArtKeys(a: Record, keys: seq<string>): set<string>
    decreases |keys|
  {
    if |keys| == 0 then {}
    else ArtKeys(a, keys[..|keys| - 1]) + (if Filled(a, keys[|keys| - 1]) then {keys[|keys| - 1]} else {})
  }

  /** The keys some artifact of `arts` has a truthy value for. */
  function ArtsKeys(arts: seq<Record>, keys: seq<string>): set<string>
    decreases |arts|
  {
    if |arts| == 0 then {} else ArtsKeys(arts[..|arts| - 1], keys) + ArtKeys(arts[|arts| - 1], keys)
  }

  /** `present_keys` after the conferences `names` of `t`. */
  function TableKeys(t: Table, names: seq<string>, keys: seq<string>): set<string>
    decreases |names|
  {
    if |names| == 0 then {}
    else
      var n := names[|names| - 1];
      TableKeys(t, names[..|names| - 1], keys) + (if n in t then ArtsKeys(t[n], keys) else {})
  }

  lemma {:induction false} ArtKeysMeaning(a: Record, keys: seq<string>, k: string)
    ensures k in ArtKeys(a, keys) <==> k in keys && Filled(a, k)
    decreases |keys|
  {
    if |keys| > 0 {
      ArtKeysMeaning(a, keys[..|keys| - 1], k);
      assert keys == keys[..|keys| - 1] + [keys[|keys| - 1]];
    }
  }

  lemma {:induction false} ArtsKeysMeaning(arts: seq<Record>, keys: seq<string>, k: string)
    ensures k in ArtsKeys(arts, keys) <==> k in keys && exists i :: 0 <= i < |arts| && Filled(arts[i], k)
    decreases |arts|
  {
    if |arts| > 0 {
      var init := arts[..|arts| - 1];
      ArtsKeysMeaning(init, keys, k);
      ArtKeysMeaning(arts[|arts| - 1], keys, k);
      assert forall i :: 0 <= i < |init| ==> init[i] == arts[i];
    }
  }

  /**
   * A URL key is present exactly when it is one of `keys` and some
   * artifact of one of the conferences has a truthy value under it.
   */
  lemma {:induction false} TableKeysMeaning(t: Table, names: seq<string>, keys: seq<string>, k: string)
    ensures k in TableKeys(t, names, keys) <==>
      k in keys && exists j, i :: 0 <= j < |names| && names[j] in t && 0 <= i < |t[names[j]]| && Filled(t[names[j]][i], k)
    decreases |names|
  {
    if |names| > 0 {
      var init := names[..|names| - 1];
      var n := names[|names| - 1];
      TableKeysMeaning(t, init, keys, k);
      if n in t {
        ArtsKeysMeaning(t[n], keys, k);
      }
      assert forall j :: 0 <= j < |init| ==> init[j] == names[j];
      if k in TableKeys(t, names, keys) && k !in TableKeys(t, init, keys) {
        var i :| 0 <= i < |t[n]| && Filled(t[n][i], k);
        assert names[|names| - 1] in t && Filled(t[names[|names| - 1]][i], k);
      }
    }
  }

  /** The scan for `present_keys` over every conference, artifact and key. */
  method PresentKeys(results: Results, keys: seq<string>) returns (present: set<string>)
    ensures present == TableKeys(results.values, results.keys, keys)
  {
    assert results.Valid();
    var names := results.keys;
    var t := results.values;
    present := {};
    for j := 0 to |names|
      invariant present == TableKeys(t, names[..j], keys)
    {
      assert names[..j + 1][..j] == names[..j];
      var arts := t[names[j]];
      var before := present;
      for i := 0 to |arts|
        invariant present == before + ArtsKeys(arts[..i], keys)
      {
        assert arts[..i + 1][..i] == arts[..i];
        var a := arts[i];
        var mid := present;
        for m := 0 to |keys|
          invariant present == mid + ArtKeys(a, keys[..m])
        {
          assert keys[..m + 1][..m] == keys[..m];
          if keys[m] in a && Truthy(a[keys[m]]) {
            present := present + {keys[m]};
          }
        }
        assert keys[..|keys|] == keys;
      }
      assert arts[..|arts|] == arts;
    }
    assert names[..|names|] == names;
  }

  function InSet(s: set<string>): string -> bool
  {
    (k: string) => k in s
  }

  /** The URL keys that occur in the data, in their given order. */
  function KeptKeys(keys: seq<string>, present: set<string>): (r: seq<string>)
  {
    Filter(keys, InSet(present))
  }

  /** The kept keys are those of `keys` that are present, in their order. */
  lemma KeptKeysMeaning(keys: seq<string>, present: set<string>, k: string)
    ensures k in KeptKeys(keys, present) <==> k in keys && k in present
  {
    FilterMembers(keys, InSet(present), k);
  }

  // ---------------------------------------------------------------------
  // The walk over conference-years, artifacts and URL keys

  /** `extract_conference_name`: the same reading as the committee statistics give a conference-year key. */
  function ConferenceName(confYear: string): (string, Option<nat>)
  {
    CommitteeStats.ExtractConfYear(confYear)
  }

  /** One visit of the walk: a conference and its year, an artifact and one of the URL keys. */
  datatype Slot = Slot(conf: string, year: nat, art: Record, key: string)

  function SlotOf(conf: string, year: nat, a: Record): string -> Slot
  {
    (k: string) => Slot(conf, year, a, k)
  }

  /** The visits of one artifact: one per URL key, in order. */
  function ArtSlots(conf: string, year: nat, a: Record, keys: seq<string>): seq<Slot>
  {
    MapSeq(keys, SlotOf(conf, year, a))
  }

  /** The visits of one conference-year, artifact by artifact. */
  function ConfSlots(conf: string, year: nat, arts: seq<Record>, keys: seq<string>): seq<Slot>
    decreases |arts|
  {
    if |arts| == 0 then []
    else ConfSlots(conf, year, arts[..|arts| - 1], keys) + ArtSlots(conf, year, arts[|arts| - 1], keys)
  }

  /** The visits of conference-year `n`: none when its key carries no year. */
  function NameSlots(t: Table, n: string, keys: seq<string>): seq<Slot>
  {
    var (conf, year) := ConferenceName(n);
    if n in t && year.Some? then ConfSlots(conf, year.value, t[n], keys) else []
  }

  /** The visits of the conference-years `names`, in order. */
  function AllSlots(t: Table, names: seq<string>, keys: seq<string>): seq<Slot>
    decreases |names|
  {
    if |names| == 0 then []
    else AllSlots(t, names[..|names| - 1], keys) + NameSlots(t, names[|names| - 1], keys)
  }

  /** The walk's state: the normalised URLs seen and the entries collected, or the exception a URL that is not text raises. */
  datatype Pass = Going(seen: set<string>, stats: seq<Record>) | Raised

  /** The URL without trailing slashes: the form the walk de-duplicates URLs in. */
  function Norm(url: string): string
  {
    RStripSet(url, {'/'})
  }

  /** The dispatch on the URL's text: GitHub first, then Zenodo, then Figshare. */
  function UrlSource(url: string): Option<Source>
  {
    if Contains(url, "github") then Some(CollectStats.Github)
    else if Contains(url, "zenodo") then Some(CollectStats.Zenodo)
    else if Contains(url, "figshare") then Some(CollectStats.Figshare)
    else None
  }

  /** A URL mentioning GitHub goes to GitHub whatever else it mentions; Zenodo is asked only when GitHub is not mentioned, Figshare only when neither is. */
  lemma UrlSourceMeaning(url: string)
    ensures UrlSource(url) == Some(CollectStats.Github) <==> Contains(url, "github")
    ensures UrlSource(url) == Some(CollectStats.Zenodo) <==> !Contains(url, "github") && Contains(url, "zenodo")
    ensures UrlSource(url) == Some(CollectStats.Figshare) <==>
      !Contains(url, "github") && !Contains(url, "zenodo") && Contains(url, "figshare")
    ensures UrlSource(url).None? <==> !Contains(url, "github") && !Contains(url, "zenodo") && !Contains(url, "figshare")
  {
  }

  /** The `source` an entry records. */
  function SourceName(src: Source): string
  {
    match src
    case Github => "github"
    case Zenodo => "zenodo"
    case Figshare => "figshare"
  }

  /** The source and statistics of a URL, when it has a source and its statistics are non-empty. */
  function Fetched(url: string, fetch: Fetch): Option<(Source, Record)>
  {
    match UrlSource(url)
    case None => None
    case Some(src) =>
      var stats := fetch(src, url);
      if stats.Some? && |stats.value| > 0 then Some((src, stats.value)) else None
  }

  /** The entry of a visit: its fixed fields, then the fetched stats over them. */
  function EntryOf(s: Slot, url: string, src: Source, stats: Record): Record
  {
    map["conference" := Str(s.conf), "year" := Int(s.year), "title" := GetOr(s.art, "title", Str("Unknown")),
        "url" := Str(url), "source" := Str(SourceName(src))] + stats
  }

  /** The entries a first visit of `url` adds: one when its statistics are fetched, none otherwise. */
  function EntriesFor(s: Slot, url: string, fetch: Fetch): seq<Record>
  {
    match Fetched(url, fetch)
    case None => []
    case Some((src, stats)) => [EntryOf(s, url, src, stats)]
  }

  /** The URL of the artifact under `url_key`, the empty text when absent. */
  function UrlOf(s: Slot): Json
  {
    GetOr(s.art, s.key, Str(""))
  }

  /** A visit the walk takes up: its `<key>_exists` flag is truthy and so is its URL. */
  predicate Taken(s: Slot)
  {
    Truthy(GetOr(s.art, RepoCheck.ExistsKey(s.key), Bool(false))) && Truthy(UrlOf(s))
  }

  /** A visit that raises: taken, but its URL is not text. */
  predicate Bad(s: Slot)
  {
    Taken(s) && !UrlOf(s).Str?
  }

  /** One visit: skipped when not taken or already seen; otherwise its URL is marked seen and its entry, if any, added. */
  function Visit(fetch: Fetch): (Pass, Slot) -> Pass
  {
    (p: Pass, s: Slot) =>
      if p.Raised? || !Taken(s) then p
      else if !UrlOf(s).Str? then Raised
      else if Norm(UrlOf(s).s) in p.seen then p
      else Going(p.seen + {Norm(UrlOf(s).s)}, p.stats + EntriesFor(s, UrlOf(s).s, fetch))
  }

  /** The walk over `slots` from the empty state. */
  function Walked(slots: seq<Slot>, fetch: Fetch): Pass
  {
    Fold(Going({}, []), slots, Visit(fetch))
  }

  /**
   * `collect_stats_for_results` on the conference-years `names` of `t`:
   * `Some` of the entries, `[]` when no URL key is present in the data,
   * `None` when a flagged URL is not text.
   */
  function Collected(t: Table, names: seq<string>, urlKeys: seq<string>, present: string -> bool, fetch: Fetch)
    : Option<seq<Record>>
  {
    var f := FlattenTable(t);
    var keys := KeptKeys(urlKeys, TableKeys(f, names, urlKeys));
    if keys == [] then Some([])
    else
      match Walked(AllSlots(RepoCheck.CheckedAll(f, keys, present), names, keys), fetch)
      case Going(_, stats) => Some(stats)
      case Raised => None
  }

  // ---- an independent account of the walk ----

  /** A taken visit with a text URL. */
  datatype Cand = Cand(slot: Slot, url: string)

  function CandOf(s: Slot): Option<Cand>
  {
    if Taken(s) && UrlOf(s).Str? then Some(Cand(s, UrlOf(s).s)) else None
  }

  /** The normalised URLs of `cs`. */
  function NormsOf(cs: seq<Cand>): set<string>
    decreases |cs|
  {
    if |cs| == 0 then {} else NormsOf(cs[..|cs| - 1]) + {Norm(cs[|cs| - 1].url)}
  }

  /** The candidates whose normalised URL no earlier candidate has. */
  function FirstPerUrl(cs: seq<Cand>): seq<Cand>
    decreases |cs|
  {
    if |cs| == 0 then []
    else if Norm(cs[|cs| - 1].url) in NormsOf(cs[..|cs| - 1]) then FirstPerUrl(cs[..|cs| - 1])
    else FirstPerUrl(cs[..|cs| - 1]) + [cs[|cs| - 1]]
  }

  function CandEntry(fetch: Fetch): Cand -> Option<Record>
  {
    (c: Cand) => var e := EntriesFor(c.slot, c.url, fetch); if |e| == 1 then Some(e[0]) else None
  }

  lemma {:induction false} NormsOfMeaning(cs: seq<Cand>, u: string)
    ensures u in NormsOf(cs) <==> exists i :: 0 <= i < |cs| && Norm(cs[i].url) == u
    decreases |cs|
  {
    if |cs| > 0 {
      var init := cs[..|cs| - 1];
      NormsOfMeaning(init, u);
      assert forall i :: 0 <= i < |init| ==> init[i] == cs[i];
    }
  }

  /** The kept candidates cover every normalised URL. */
  lemma {:induction false} FirstPerUrlNorms(cs: seq<Cand>)
    ensures NormsOf(FirstPerUrl(cs)) == NormsOf(cs)
    decreases |cs|
  {
    if |cs| > 0 {
      var init := cs[..|cs| - 1];
      FirstPerUrlNorms(init);
      var r := FirstPerUrl(init);
      if Norm(cs[|cs| - 1].url) !in NormsOf(init) {
        assert (r + [cs[|cs| - 1]])[..|r|] == r;
      }
    }
  }

  /** Each kept candidate is a candidate no earlier one of which has its normalised URL. */
  predicate FirstOfUrl(cs: seq<Cand>, c: Cand)
  {
    exists i :: 0 <= i < |cs| && cs[i] == c && forall j :: 0 <= j < i ==> Norm(cs[j].url) != Norm(cs[i].url)
  }

  lemma FirstOfUrlLonger(cs: seq<Cand>, c: Cand, d: Cand)
    requires FirstOfUrl(cs, c)
    ensures FirstOfUrl(cs + [d], c)
  {
    var i :| 0 <= i < |cs| && cs[i] == c && forall j :: 0 <= j < i ==> Norm(cs[j].url) != Norm(cs[i].url);
    assert (cs + [d])[i] == c;
    assert forall j :: 0 <= j < i ==> (cs + [d])[j] == cs[j];
  }

  /** No two kept candidates share a normalised URL. */
  lemma {:induction false} FirstPerUrlDistinct(cs: seq<Cand>)
    ensures forall i, j :: 0 <= i < j < |FirstPerUrl(cs)| ==> Norm(FirstPerUrl(cs)[i].url) != Norm(FirstPerUrl(cs)[j].url)
    decreases |cs|
  {
    if |cs| > 0 {
      var init := cs[..|cs| - 1];
      var c := cs[|cs| - 1];
      FirstPerUrlDistinct(init);
      var r := FirstPerUrl(init);
      if Norm(c.url) !in NormsOf(init) {
        FirstPerUrlNorms(init);
        forall i | 0 <= i < |r|
          ensures Norm(r[i].url) != Norm(c.url)
        {
          NormsOfMeaning(r, Norm(r[i].url));
        }
        assert FirstPerUrl(cs) == r + [c];
      }
    }
  }

  /** Each kept candidate is a candidate no earlier one of which has its normalised URL. */
  lemma {:induction false} FirstPerUrlFirst(cs: seq<Cand>)
    ensures forall k :: 0 <= k < |FirstPerUrl(cs)| ==> FirstOfUrl(cs, FirstPerUrl(cs)[k])
    decreases |cs|
  {
    if |cs| > 0 {
      var init := cs[..|cs| - 1];
      var c := cs[|cs| - 1];
      assert cs == init + [c];
      FirstPerUrlFirst(init);
      var r := FirstPerUrl(init);
      forall k | 0 <= k < |r|
        ensures FirstOfUrl(cs, r[k])
      {
        FirstOfUrlLonger(init, r[k], c);
      }
      if Norm(c.url) !in NormsOf(init) {
        forall j | 0 <= j < |cs| - 1
          ensures Norm(cs[j].url) != Norm(c.url)
        {
          NormsOfMeaning(init, Norm(cs[j].url));
          assert cs[j] == init[j];
        }
        assert FirstOfUrl(cs, c) by {
          assert cs[|cs| - 1] == c;
        }
        assert FirstPerUrl(cs) == r + [c];
        assert forall k :: 0 <= k < |r| ==> (r + [c])[k] == r[k];
      }
    }
  }

  /** A raised walk stays raised. */
  lemma {:induction false} RaisedStays(xs: seq<Slot>, fetch: Fetch)
    ensures Fold(Raised, xs, Visit(fetch)) == Raised
    decreases |xs|
  {
    if |xs| > 0 {
      RaisedStays(xs[..|xs| - 1], fetch);
    }
  }

  lemma VisitRaised(p: Pass, x: Slot, fetch: Fetch)
    ensures Visit(fetch)(p, x).Raised? <==> p.Raised? || Bad(x)
  {
  }

  /** The walk raises exactly when one of its visits is taken with a URL that is not text. */
  lemma {:induction false} WalkedRaised(slots: seq<Slot>, fetch: Fetch)
    ensures Walked(slots, fetch).Raised? <==> exists i :: 0 <= i < |slots| && Bad(slots[i])
    decreases |slots|
  {
    if |slots| > 0 {
      var init := slots[..|slots| - 1];
      var x := slots[|slots| - 1];
      var p := Walked(init, fetch);
      WalkedRaised(init, fetch);
      assert Walked(slots, fetch) == Visit(fetch)(p, x);
      VisitRaised(p, x, fetch);
      if p.Raised? {
        var i :| 0 <= i < |init| && Bad(init[i]);
        assert slots[i] == init[i];
      } else if Bad(x) {
        assert Bad(slots[|slots| - 1]);
      } else {
        forall i | 0 <= i < |slots|
          ensures !Bad(slots[i])
        {
          if i < |init| {
            assert slots[i] == init[i];
          }
        }
      }
    }
  }

  /** One visit from a running walk, told through the visit's candidate. */
  lemma VisitStep(p: Pass, x: Slot, fetch: Fetch)
    requires p.Going? && !Bad(x)
    ensures Visit(fetch)(p, x) ==
      if CandOf(x).None? then p
      else if Norm(CandOf(x).value.url) in p.seen then p
      else Going(p.seen + {Norm(CandOf(x).value.url)}, p.stats + EntriesFor(x, CandOf(x).value.url, fetch))
  {
  }

  /** A visit that leaves the walk running started from a running walk, and did not raise. */
  lemma VisitGoing(p: Pass, x: Slot, fetch: Fetch)
    requires Visit(fetch)(p, x).Going?
    ensures p.Going? && !Bad(x)
  {
  }

  /** One more candidate, told through the kept candidates and their entries. */
  lemma KeepStep(cs: seq<Cand>, c: Cand, fetch: Fetch)
    ensures NormsOf(cs + [c]) == NormsOf(cs) + {Norm(c.url)}
    ensures FilterMap(FirstPerUrl(cs + [c]), CandEntry(fetch)) ==
      if Norm(c.url) in NormsOf(cs) then FilterMap(FirstPerUrl(cs), CandEntry(fetch))
      else FilterMap(FirstPerUrl(cs), CandEntry(fetch)) + EntriesFor(c.slot, c.url, fetch)
  {
    assert (cs + [c])[..|cs|] == cs;
    if Norm(c.url) !in NormsOf(cs) {
      var r := FirstPerUrl(cs);
      assert FirstPerUrl(cs + [c]) == r + [c];
      assert (r + [c])[..|r|] == r;
    }
  }

  /**
   * A walk that does not raise has seen exactly the normalised URLs of its
   * candidates, and its entries are those of the first candidate for each
   * normalised URL, in order, whose statistics were fetched.
   */
  lemma {:induction false} WalkedMeaning(slots: seq<Slot>, fetch: Fetch)
    requires Walked(slots, fetch).Going?
    ensures Walked(slots, fetch) ==
      Going(NormsOf(FilterMap(slots, CandOf)), FilterMap(FirstPerUrl(FilterMap(slots, CandOf)), CandEntry(fetch)))
    decreases |slots|
  {
    if |slots| > 0 {
      var init := slots[..|slots| - 1];
      var x := slots[|slots| - 1];
      var p := Walked(init, fetch);
      assert Walked(slots, fetch) == Visit(fetch)(p, x);
      VisitGoing(p, x, fetch);
      WalkedMeaning(init, fetch);
      VisitStep(p, x, fetch);
      var cs := FilterMap(init, CandOf);
      if CandOf(x).Some? {
        assert FilterMap(slots, CandOf) == cs + [CandOf(x).value];
        KeepStep(cs, CandOf(x).value, fetch);
      } else {
        assert FilterMap(slots, CandOf) == cs;
      }
    }
  }

  // ---- where the visits come from ----

  lemma {:induction false} ConfSlotsShape(conf: string, year: nat, arts: seq<Record>, keys: seq<string>)
    ensures forall x :: x in ConfSlots(conf, year, arts, keys) ==>
      x.conf == conf && x.year == year && x.art in arts && x.key in keys
    decreases |arts|
  {
    if |arts| > 0 {
      ConfSlotsShape(conf, year, arts[..|arts| - 1], keys);
      forall x | x in ConfSlots(conf, year, arts, keys)
        ensures x.conf == conf && x.year == year && x.art in arts && x.key in keys
      {
        if x !in ConfSlots(conf, year, arts[..|arts| - 1], keys) {
          var m :| 0 <= m < |keys| && ArtSlots(conf, year, arts[|arts| - 1], keys)[m] == x;
        }
      }
    }
  }

  /**
   * Every visit belongs to a conference-year key with a year: its
   * conference and year are that key's, its artifact is one of that
   * conference's and its key one of the URL keys; keys without a year are
   * never visited.
   */
  lemma {:induction false} AllSlotsShape(t: Table, names: seq<string>, keys: seq<string>)
    ensures forall x :: x in AllSlots(t, names, keys) ==>
      exists j :: 0 <= j < |names| && names[j] in t && ConferenceName(names[j]) == (x.conf, Some(x.year))
        && x.art in t[names[j]] && x.key in keys
    decreases |names|
  {
    if |names| > 0 {
      var init := names[..|names| - 1];
      var n := names[|names| - 1];
      AllSlotsShape(t, init, keys);
      var (conf, year) := ConferenceName(n);
      if n in t && year.Some? {
        ConfSlotsShape(conf, year.value, t[n], keys);
      }
      forall x | x in AllSlots(t, names, keys)
        ensures exists j :: 0 <= j < |names| && names[j] in t && ConferenceName(names[j]) == (x.conf, Some(x.year))
                            && x.art in t[names[j]] && x.key in keys
      {
        if x in AllSlots(t, init, keys) {
          var j :| 0 <= j < |init| && init[j] in t && ConferenceName(init[j]) == (x.conf, Some(x.year))
            && x.art in t[init[j]] && x.key in keys;
          assert names[j] == init[j];
        } else {
          assert names[|names| - 1] == n;
        }
      }
    }
  }

  // ---- the walk as the source runs it ----

  /** A walk that raises on a prefix of the visits raises on all of them. */
  lemma RaisedPrefix(p0: Pass, xs: seq<Slot>, ys: seq<Slot>, fetch: Fetch)
    requires xs <= ys && Fold(p0, xs, Visit(fetch)).Raised?
    ensures Fold(p0, ys, Visit(fetch)) == Raised
  {
    assert ys == xs + ys[|xs|..];
    FoldAppend(p0, xs, ys[|xs|..], Visit(fetch));
    RaisedStays(ys[|xs|..], fetch);
  }

  lemma ArtSlotsPrefix(conf: string, year: nat, a: Record, keys: seq<string>, n: nat)
    requires n <= |keys|
    ensures ArtSlots(conf, year, a, keys[..n]) <= ArtSlots(conf, year, a, keys)
  {
    var xs := ArtSlots(conf, year, a, keys[..n]);
    var ys := ArtSlots(conf, year, a, keys);
    assert xs == ys[..n];
  }

  lemma {:induction false} ConfSlotsPrefix(conf: string, year: nat, arts: seq<Record>, keys: seq<string>, n: nat)
    requires n <= |arts|
    ensures ConfSlots(conf, year, arts[..n], keys) <= ConfSlots(conf, year, arts, keys)
    decreases |arts|
  {
    if n < |arts| {
      var init := arts[..|arts| - 1];
      assert init[..n] == arts[..n];
      ConfSlotsPrefix(conf, year, init, keys, n);
    } else {
      assert arts[..n] == arts;
    }
  }

  lemma {:induction false} AllSlotsPrefix(t: Table, names: seq<string>, keys: seq<string>, n: nat)
    requires n <= |names|
    ensures AllSlots(t, names[..n], keys) <= AllSlots(t, names, keys)
    decreases |names|
  {
    if n < |names| {
      var init := names[..|names| - 1];
      assert init[..n] == names[..n];
      AllSlotsPrefix(t, init, keys, n);
    } else {
      assert names[..n] == names;
    }
  }

  /** The body of the loop over the URL keys: one visit from a running walk. */
  method VisitUrl(seenUrls: set<string>, allStats: seq<Record>, x: Slot, fetch: Fetch) returns (p: Pass)
    ensures p == Visit(fetch)(Going(seenUrls, allStats), x)
  {
    var a := x.art;
    var url := GetOr(a, x.key, Str(""));
    var flag := GetOr(a, RepoCheck.ExistsKey(x.key), Bool(false));
    if !Truthy(flag) || !Truthy(url) {
      return Going(seenUrls, allStats);
    }
    assert Taken(x);
    if !url.Str? {
      return Raised;
    }
    var normalized := RStripSet(url.s, {'/'});
    if normalized in seenUrls {
      return Going(seenUrls, allStats);
    }
    var stats: Option<Record> := None;
    var source: Option<Source> := None;
    if Contains(url.s, "github") {
      stats := fetch(CollectStats.Github, url.s);
      source := Some(CollectStats.Github);
    } else if Contains(url.s, "zenodo") {
      stats := fetch(CollectStats.Zenodo, url.s);
      source := Some(CollectStats.Zenodo);
    } else if Contains(url.s, "figshare") {
      stats := fetch(CollectStats.Figshare, url.s);
      source := Some(CollectStats.Figshare);
    }
    assert source == UrlSource(url.s);
    var entries := [];
    if stats.Some? && |stats.value| > 0 {
      var entry := map["conference" := Str(x.conf), "year" := Int(x.year), "title" := GetOr(a, "title", Str("Unknown")),
                       "url" := url, "source" := Str(SourceName(source.value))];
      entry := entry + stats.value;
      entries := [entry];
    }
    assert entries == EntriesFor(x, url.s, fetch);
    p := Going(seenUrls + {normalized}, allStats + entries);
  }

  /** The loop over the URL keys of one artifact, from a running walk. */
  method WalkArtifact(seen0: set<string>, stats0: seq<Record>, conf: string, year: nat, a: Record,
                      keys: seq<string>, fetch: Fetch)
    returns (p: Pass)
    ensures p == Fold(Going(seen0, stats0), ArtSlots(conf, year, a, keys), Visit(fetch))
  {
    p := Going(seen0, stats0);
    for m := 0 to |keys|
      invariant p.Going?
      invariant p == Fold(Going(seen0, stats0), ArtSlots(conf, year, a, keys[..m]), Visit(fetch))
    {
      var x := Slot(conf, year, a, keys[m]);
      MapSeqSnoc(keys, m, SlotOf(conf, year, a));
      FoldSnoc(Going(seen0, stats0), ArtSlots(conf, year, a, keys[..m]), x, Visit(fetch));
      p := VisitUrl(p.seen, p.stats, x, fetch);
      if p.Raised? {
        ArtSlotsPrefix(conf, year, a, keys, m + 1);
        RaisedPrefix(Going(seen0, stats0), ArtSlots(conf, year, a, keys[..m + 1]), ArtSlots(conf, year, a, keys), fetch);
        return;
      }
    }
    assert keys[..|keys|] == keys;
  }

  /** The loop over the artifacts of one conference-year, from a running walk. */
  method WalkConference(seen0: set<string>, stats0: seq<Record>, conf: string, year: nat, arts: seq<Record>,
                        keys: seq<string>, fetch: Fetch)
    returns (p: Pass)
    ensures p == Fold(Going(seen0, stats0), ConfSlots(conf, year, arts, keys), Visit(fetch))
  {
    p := Going(seen0, stats0);
    for i := 0 to |arts|
      invariant p.Going?
      invariant p == Fold(Going(seen0, stats0), ConfSlots(conf, year, arts[..i], keys), Visit(fetch))
    {
      assert arts[..i + 1][..i] == arts[..i];
      FoldAppend(Going(seen0, stats0), ConfSlots(conf, year, arts[..i], keys), ArtSlots(conf, year, arts[i], keys), Visit(fetch));
      p := WalkArtifact(p.seen, p.stats, conf, year, arts[i], keys, fetch);
      if p.Raised? {
        ConfSlotsPrefix(conf, year, arts, keys, i + 1);
        RaisedPrefix(Going(seen0, stats0), ConfSlots(conf, year, arts[..i + 1], keys), ConfSlots(conf, year, arts, keys), fetch);
        return;
      }
    }
    assert arts[..|arts|] == arts;
  }

  /** The body of the loop over the results: one conference-year, skipped when its key carries no year. */
  method WalkName(seen0: set<string>, stats0: seq<Record>, t: Table, n: string, keys: seq<string>, fetch: Fetch)
    returns (p: Pass)
    requires n in t
    ensures p == Fold(Going(seen0, stats0), NameSlots(t, n, keys), Visit(fetch))
  {
    var (conf, year) := ConferenceName(n);
    if year.None? {
      return Going(seen0, stats0);
    }
    p := WalkConference(seen0, stats0, conf, year.value, t[n], keys, fetch);
  }

  /** The loop over the results, in order. */
  method Walk(t: Table, names: seq<string>, keys: seq<string>, fetch: Fetch) returns (p: Pass)
    requires forall j :: 0 <= j < |names| ==> names[j] in t
    ensures p == Walked(AllSlots(t, names, keys), fetch)
  {
    p := Going({}, []);
    for j := 0 to |names|
      invariant p.Going?
      invariant p == Walked(AllSlots(t, names[..j], keys), fetch)
    {
      assert names[..j + 1][..j] == names[..j];
      FoldAppend(Going({}, []), AllSlots(t, names[..j], keys), NameSlots(t, names[j], keys), Visit(fetch));
      p := WalkName(p.seen, p.stats, t, names[j], keys, fetch);
      if p.Raised? {
        AllSlotsPrefix(t, names, keys, j + 1);
        RaisedPrefix(Going({}, []), AllSlots(t, names[..j + 1], keys), AllSlots(t, names, keys), fetch);
        return;
      }
    }
    assert names[..|names|] == names;
  }

  /**
   * The stats collection for the results: list fields flattened,
   * the URL keys narrowed to those present, the existence check run, then
   * the walk; `None` stands for the exception a flagged URL that is not
   * text raises.
   */
  method CollectStatsForResults(results: Results, urlKeys: seq<string>, present: string -> bool, fetch: Fetch)
    returns (r: Option<seq<Record>>)
    ensures r == Collected(results.values, results.keys, urlKeys, present, fetch)
  {
    var flat := FlattenResults(results);
    var presentKeys := PresentKeys(flat, urlKeys);
    var keys := KeptKeys(urlKeys, presentKeys);
    if |keys| == 0 {
      return Some([]);
    }
    var checked, _, _ := RepoCheck.CheckArtifactExists(flat, keys, present);
    assert checked.Valid();
    var p := Walk(checked.values, checked.keys, keys, fetch);
    r := if p.Going? then Some(p.stats) else None;
  }
}
