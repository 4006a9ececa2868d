/**
 * Repository and artifact-store statistics (`get_all_artifact_stats` in
 * collect_artifact_stats.py). For every conference, URL key and artifact
 * whose `<key>_exists` flag is set, the URL picks a source (Zenodo, then
 * Figshare, then GitHub) and the statistics fetched from it are merged
 * under the artifact's `stats`, entries already there taking precedence.
 * The cached fetchers are the `fetch` oracle: `None` for a `None` result.
 */
module CollectStats {
  import opened Wrappers
  import opened Strings
  import opened Seqs
  import opened Dicts
  import opened Json
  import Statistics
  import RepoCheck

  type Results = Statistics.Results
  type Table = RepoCheck.Table

  /** The services statistics are fetched from. */
  datatype Source = Zenodo | Figshare | Github

  /** The source of a URL: the first of `zenodo`, `figshare`, `github` it contains. */
  function SourceOf(url: string): Option<Source>
  {
    if Contains(url, "zenodo") then Some(Zenodo)
    else if Contains(url, "figshare") then Some(Figshare)
    else if Contains(url, "github") then Some(Github)
    else None
  }

  /** Zenodo wins over Figshare and both over GitHub; a URL naming none of them has no source. */
  lemma SourceOfMeaning(url: string)
    ensures SourceOf(url) == Some(Zenodo) <==> Contains(url, "zenodo")
    ensures SourceOf(url) == Some(Figshare) <==> !Contains(url, "zenodo") && Contains(url, "figshare")
    ensures SourceOf(url) == Some(Github) <==> !Contains(url, "zenodo") && !Contains(url, "figshare") && Contains(url, "github")
    ensures SourceOf(url).None? <==> !Contains(url, "zenodo") && !Contains(url, "figshare") && !Contains(url, "github")
  {
  }

  /** The stats an artifact already carries, none when it has no stats object. */
  function ExistingStats(a: Record): map<string, Json>
  {
    if "stats" in a && a["stats"].Object? then a["stats"].fields else map[]
  }

  /** Whether the artifact's flag for `key` is set. */
  predicate Flagged(a: Record, key: string)
  {
    RepoCheck.ExistsKey(key) in a && Truthy(a[RepoCheck.ExistsKey(key)])
  }

  /**
   * What the loop body needs of an artifact: a flagged one has a text URL
   * for the key, and its `stats`, if any, is a dict.
   */
  predicate Ready(a: Record, key: string)
  {
    (Flagged(a, key) ==> key in a && a[key].Str?)
    && ("stats" in a ==> a["stats"].Object?)
  }

  /** The URL an artifact's statistics are fetched from for `key`, and its source. */
  function Target(a: Record, key: string): Option<(Source, string)>
  {
    if Flagged(a, key) && key in a && a[key].Str? && SourceOf(a[key].s).Some? then Some((SourceOf(a[key].s).value, a[key].s))
    else None
  }

  /** One artifact after the statistics for `key` are collected. */
  function Collected(a: Record, key: string, fetch: (Source, string) -> Option<map<string, Json>>): Record
  {
    if Target(a, key).Some? then
      var stats := fetch(Target(a, key).value.0, Target(a, key).value.1);
      if stats.Some? && |stats.value| > 0 then a["stats" := Object(stats.value + ExistingStats(a))] else a
    else a
  }

  lemma StatsKeyDistinct(key: string)
    ensures RepoCheck.ExistsKey(key) != "stats"
  {
    assert |RepoCheck.ExistsKey(key)| == |key| + 7;
  }

  /** The statistics fetched for `key`, when there are any. */
  function Fetched(a: Record, key: string, fetch: (Source, string) -> Option<map<string, Json>>): Option<map<string, Json>>
  {
    if Target(a, key).Some? then
      var stats := fetch(Target(a, key).value.0, Target(a, key).value.1);
      if stats.Some? && |stats.value| > 0 then stats else None
    else None
  }

  /**
   * Collecting touches only `stats`, and changes it only for a flagged
   * artifact whose URL has a source and whose fetched statistics are
   * non-empty: the new `stats` has every key fetched and every key it had,
   * and a key it had keeps its value.
   */
  lemma CollectedMeaning(a: Record, key: string, fetch: (Source, string) -> Option<map<string, Json>>)
    ensures forall k :: k != "stats" ==> (k in Collected(a, key, fetch) <==> k in a)
    ensures forall k :: k != "stats" && k in a ==> Collected(a, key, fetch)[k] == a[k]
    ensures Fetched(a, key, fetch).None? ==> Collected(a, key, fetch) == a
    ensures Fetched(a, key, fetch).Some? ==>
      Flagged(a, key) && key in a && a[key].Str? && SourceOf(a[key].s).Some?
      && Fetched(a, key, fetch) == fetch(SourceOf(a[key].s).value, a[key].s)
      && "stats" in Collected(a, key, fetch)
      && Collected(a, key, fetch)["stats"] == Object(Fetched(a, key, fetch).value + ExistingStats(a))
    ensures forall k :: k in ExistingStats(a) ==>
      k in ExistingStats(Collected(a, key, fetch)) && ExistingStats(Collected(a, key, fetch))[k] == ExistingStats(a)[k]
    ensures Fetched(a, key, fetch).Some? ==>
      ExistingStats(Collected(a, key, fetch)).Keys == Fetched(a, key, fetch).value.Keys + ExistingStats(a).Keys
  {
  }

  /** One artifact after the statistics for `keys` are collected, key by key. */
  function CollectedAll(a: Record, keys: seq<string>, fetch: (Source, string) -> Option<map<string, Json>>): Record
    decreases |keys|
  {
    if |keys| == 0 then a
    else Collected(CollectedAll(a, keys[..|keys| - 1], fetch), keys[|keys| - 1], fetch)
  }

  /** Collecting for one key leaves an artifact ready for another. */
  lemma ReadyKept(a: Record, key: string, other: string, fetch: (Source, string) -> Option<map<string, Json>>)
    requires Ready(a, other) && other != "stats"
    ensures Ready(Collected(a, key, fetch), other)
  {
    StatsKeyDistinct(other);
    CollectedMeaning(a, key, fetch);
  }

  /** An artifact ready for a key stays ready after collecting for any keys. */
  lemma {:induction false} CollectedAllReady(a: Record, keys: seq<string>, other: string, fetch: (Source, string) -> Option<map<string, Json>>)
    requires Ready(a, other) && other != "stats"
    ensures Ready(CollectedAll(a, keys, fetch), other)
    decreases |keys|
  {
    if |keys| > 0 {
      var init := keys[..|keys| - 1];
      CollectedAllReady(a, init, other, fetch);
      ReadyKept(CollectedAll(a, init, fetch), keys[|keys| - 1], other, fetch);
    }
  }

  /** Flags, URLs and everything but `stats` survive collecting for any keys, and so do the statistics already there. */
  lemma {:induction false} CollectedAllKeeps(a: Record, keys: seq<string>, fetch: (Source, string) -> Option<map<string, Json>>)
    ensures forall k :: k != "stats" ==> (k in CollectedAll(a, keys, fetch) <==> k in a)
    ensures forall k :: k != "stats" && k in a ==> CollectedAll(a, keys, fetch)[k] == a[k]
    ensures forall k :: k in ExistingStats(a) ==>
      k in ExistingStats(CollectedAll(a, keys, fetch)) && ExistingStats(CollectedAll(a, keys, fetch))[k] == ExistingStats(a)[k]
    decreases |keys|
  {
    if |keys| > 0 {
      var init := keys[..|keys| - 1];
      CollectedAllKeeps(a, init, fetch);
      CollectedMeaning(CollectedAll(a, init, fetch), keys[|keys| - 1], fetch);
    }
  }

  // ---- the loops ----

  function CollectBy(key: string, fetch: (Source, string) -> Option<map<string, Json>>): Record -> Record
  {
    (a: Record) => Collected(a, key, fetch)
  }

  function CollectAllBy(keys: seq<string>, fetch: (Source, string) -> Option<map<string, Json>>): Record -> Record
  {
    (a: Record) => CollectedAll(a, keys, fetch)
  }

  function CollectArts(keys: seq<string>, fetch: (Source, string) -> Option<map<string, Json>>): seq<Record> -> seq<Record>
  {
    (arts: seq<Record>) => MapSeq(arts, CollectAllBy(keys, fetch))
  }

  /** The body of the innermost loop: one artifact's statistics for `key`. */
  method CollectOne(artifact: Record, key: string, fetch: (Source, string) -> Option<map<string, Json>>)
    returns (out: Record)
    requires Ready(artifact, key)
    ensures out == Collected(artifact, key, fetch)
  {
    out := artifact;
    var flag := RepoCheck.ExistsKey(key);
    if flag in artifact && Truthy(artifact[flag]) {
      var url := artifact[key].s;
      var stats: Option<map<string, Json>>;
      if Contains(url, "zenodo") {
        stats := fetch(Zenodo, url);
      } else if Contains(url, "figshare") {
        stats := fetch(Figshare, url);
      } else if Contains(url, "github") {
        stats := fetch(Github, url);
      } else {
        return;
      }
      if stats.Some? && |stats.value| > 0 {
        out := artifact["stats" := Object(stats.value + ExistingStats(artifact))];
      }
    }
  }

  /** The innermost loop: the statistics for `key` collected for each artifact of one conference in place. */
  method CollectForKey(arts: seq<Record>, key: string, fetch: (Source, string) -> Option<map<string, Json>>)
    returns (out: seq<Record>)
    requires forall i :: 0 <= i < |arts| ==> Ready(arts[i], key)
    ensures out == MapSeq(arts, CollectBy(key, fetch))
  {
    out := arts;
    for j := 0 to |arts|
      invariant |out| == |arts|
      invariant forall i :: 0 <= i < j ==> out[i] == Collected(arts[i], key, fetch)
      invariant forall i :: j <= i < |arts| ==> out[i] == arts[i]
    {
      var a := CollectOne(out[j], key, fetch);
      out := out[j := a];
    }
    MapSeqPointwise(arts, out, CollectBy(key, fetch));
  }

  /** The loop over the URL keys for one conference. */
  method CollectConference(arts: seq<Record>, keys: seq<string>, fetch: (Source, string) -> Option<map<string, Json>>)
    returns (out: seq<Record>)
    requires forall i, k :: 0 <= i < |arts| && 0 <= k < |keys| ==> Ready(arts[i], keys[k]) && keys[k] != "stats"
    ensures out == MapSeq(arts, CollectAllBy(keys, fetch))
  {
    out := arts;
    assert out == MapSeq(arts, CollectAllBy(keys[..0], fetch)) by {
      MapSeqPointwise(arts, out, CollectAllBy(keys[..0], fetch));
    }
    for k := 0 to |keys|
      invariant out == MapSeq(arts, CollectAllBy(keys[..k], fetch))
    {
      forall i | 0 <= i < |out|
        ensures Ready(out[i], keys[k])
      {
        CollectedAllReady(arts[i], keys[..k], keys[k], fetch);
      }
      var next := CollectForKey(out, keys[k], fetch);
      assert keys[..k + 1][..k] == keys[..k];
      MapSeqPointwise(arts, next, CollectAllBy(keys[..k + 1], fetch));
      out := next;
    }
    assert keys[..|keys|] == keys;
  }

  /** The loop over the conferences `names` of `t`, in order. */
  method CollectTable(names: seq<string>, t: Table, keys: seq<string>, fetch: (Source, string) -> Option<map<string, Json>>)
    returns (out: Table)
    requires forall a, b :: 0 <= a < b < |names| ==> names[a] != names[b]
    requires RepoCheck.KeySet(names) == t.Keys
    requires forall n, i, k :: n in t && 0 <= i < |t[n]| && 0 <= k < |keys| ==> Ready(t[n][i], keys[k]) && keys[k] != "stats"
    ensures out == MapValues(t, CollectArts(keys, fetch))
  {
    out := t;
    PickNoneSame(t, CollectArts(keys, fetch));
    assert RepoCheck.KeySet(names[..0]) == {};
    for i := 0 to |names|
      invariant out == Pick(t, RepoCheck.KeySet(names[..i]), CollectArts(keys, fetch), Id())
    {
      var name := names[i];
      CollectedStep(names, t, keys, fetch, i, out);
      var arts := CollectConference(out[name], keys, fetch);
      out := out[name := arts];
    }
    assert names[..|names|] == names;
    PickAll(t, CollectArts(keys, fetch), Id());
  }

  lemma CollectedStep(names: seq<string>, t: Table, keys: seq<string>, fetch: (Source, string) -> Option<map<string, Json>>,
                      i: nat, out: Table)
    requires i < |names| && (forall a, b :: 0 <= a < b < |names| ==> names[a] != names[b])
    requires RepoCheck.KeySet(names) == t.Keys
    requires out == Pick(t, RepoCheck.KeySet(names[..i]), CollectArts(keys, fetch), Id())
    ensures names[i] in out && out[names[i]] == t[names[i]]
    ensures out[names[i] := MapSeq(t[names[i]], CollectAllBy(keys, fetch))]
            == Pick(t, RepoCheck.KeySet(names[..i + 1]), CollectArts(keys, fetch), Id())
  {
    var name := names[i];
    var done := RepoCheck.KeySet(names[..i]);
    assert name in RepoCheck.KeySet(names);
    assert name !in done;
    PickStep(t, done, CollectArts(keys, fetch), Id(), name);
    RepoCheck.KeySetSnoc(names, i);
  }

  /** `get_all_artifact_stats` */
  method GetAllArtifactStats(results: Results, keys: seq<string>, fetch: (Source, string) -> Option<map<string, Json>>)
    returns (out: Results)
    requires forall n, i, k :: n in results.values && 0 <= i < |results.values[n]| && 0 <= k < |keys| ==>
      Ready(results.values[n][i], keys[k]) && keys[k] != "stats"
    ensures out.keys == results.keys && out.values == MapValues(results.values, CollectArts(keys, fetch))
  {
    assert results.Valid();
    assert RepoCheck.KeySet(results.keys) == results.values.Keys;
    var t := CollectTable(results.keys, results.values, keys, fetch);
    out := RepoCheck.WithValues(results, t);
  }
}
