/**
 * Repository URL checks (`check_artifact_exists` in
 * test_artifact_repositories.py). For each URL key, a first pass
 * normalises every artifact's value for that key in place, lists one job
 * per normalisable URL and counts the artifacts; a second pass sets each
 * job's `<key>_exists` flag from the existence check, counts the URLs that
 * exist and lists those that do not. The existence check is the `present`
 * oracle (a raising check reads as `false`).
 */
module RepoCheck {
  import opened Wrappers
  import opened Seqs
  import opened Dicts
  import opened Json
  import Statistics

  /** Conference-year key to artifact list, in insertion order. */
  type Results = Statistics.Results

  // ---- URL values ----

  /** The value a raw field stands for: itself, or the first element of a list (`''` for an empty one). */
  function Candidate(val: Json): Json
  {
    if val.List? then (if |val.items| > 0 then val.items[0] else Str("")) else val
  }

  /** `_normalise_url` */
  function NormaliseUrl(val: Json): Option<string>
  {
    var v := Candidate(val);
    if !v.Str? || v.s == "" then None
    else if "10." <= v.s then Some("https://doi.org/" + v.s)
    else Some(v.s)
  }

  /**
   * A non-empty text is kept, with the DOI resolver in front when it is a
   * bare DOI; a list stands for its first element; anything else, and an
   * empty text or list, gives no URL.
   */
  lemma NormaliseUrlCases(val: Json)
    ensures val.Str? && val.s != "" && !("10." <= val.s) ==> NormaliseUrl(val) == Some(val.s)
    ensures val.Str? && "10." <= val.s ==> NormaliseUrl(val) == Some("https://doi.org/" + val.s)
    ensures val.List? && |val.items| > 0 && val.items[0].Str? ==> NormaliseUrl(val) == NormaliseUrl(val.items[0])
    ensures val == Str("") || val == List([]) || val.Null? || val.Bool? || val.Int? || val.Object? ==> NormaliseUrl(val) == None
  {
  }

  /** A normalised URL is non-empty and normalises to itself. */
  lemma NormaliseUrlStable(val: Json)
    ensures NormaliseUrl(val).Some? ==>
      NormaliseUrl(val).value != "" && NormaliseUrl(Str(NormaliseUrl(val).value)) == NormaliseUrl(val)
  {
    if NormaliseUrl(val).Some? {
      var u := NormaliseUrl(val).value;
      if "10." <= Candidate(val).s {
        assert u[0] == 'h';
        assert !("10." <= u);
      }
    }
  }

  // ---- one artifact, one key ----

  function ExistsKey(key: string): string
  {
    key + "_exists"
  }

  /** The URL an artifact is checked at for `key`: its normalised value, if it has one. */
  function JobUrl(a: Record, key: string): Option<string>
  {
    if key in a then NormaliseUrl(a[key]) else None
  }

  /** Counted in `total`: the key is absent, or its value normalises. */
  predicate Counted(a: Record, key: string)
  {
    key !in a || JobUrl(a, key).Some?
  }

  /** After the first pass: the value replaced by its normalised URL. */
  function Rewritten(a: Record, key: string): Record
  {
    if JobUrl(a, key).Some? then a[key := Str(JobUrl(a, key).value)] else a
  }

  /** After both passes: also flagged with the result of the check. */
  function Checked(a: Record, key: string, present: string -> bool): Record
  {
    if JobUrl(a, key).Some? then Rewritten(a, key)[ExistsKey(key) := Bool(present(JobUrl(a, key).value))] else a
  }

  /**
   * Checking touches only the key and its flag; the key then holds the
   * normalised URL and the flag the check's answer for it, and an artifact
   * without a URL for the key is left alone.
   */
  lemma CheckedMeaning(a: Record, key: string, present: string -> bool)
    ensures forall k :: k != key && k != ExistsKey(key) ==> (k in Checked(a, key, present) <==> k in a)
    ensures forall k :: k in a && k != key && k != ExistsKey(key) ==> Checked(a, key, present)[k] == a[k]
    ensures JobUrl(a, key).Some? ==>
      Checked(a, key, present)[key] == Str(JobUrl(a, key).value)
      && Checked(a, key, present)[ExistsKey(key)] == Bool(present(JobUrl(a, key).value))
    ensures JobUrl(a, key).None? ==> Checked(a, key, present) == a
  {
    assert key != ExistsKey(key) by {
      assert |ExistsKey(key)| == |key| + 7;
    }
  }

  function CountedBy(key: string): Record -> bool
  {
    (a: Record) => Counted(a, key)
  }

  function Found(key: string, present: string -> bool): Record -> bool
  {
    (a: Record) => JobUrl(a, key).Some? && present(JobUrl(a, key).value)
  }

  function Absent(key: string): Record -> bool
  {
    (a: Record) => key !in a
  }

  function FailedUrl(key: string, present: string -> bool): Record -> Option<string>
  {
    (a: Record) => if JobUrl(a, key).Some? && !present(JobUrl(a, key).value) then JobUrl(a, key) else None
  }

  /** The count for one URL key and conference: URLs that exist, and artifacts counted. */
  datatype Tally = Tally(found: nat, total: nat)

  /** The counts of one conference's artifacts. */
  function TallyOf(arts: seq<Record>, key: string, present: string -> bool): Tally
  {
    Tally(Count(arts, Found(key, present)), Count(arts, CountedBy(key)))
  }

  /** The URLs of one conference that do not exist, in artifact order. */
  function FailedIn(arts: seq<Record>, key: string, present: string -> bool): seq<string>
  {
    FilterMap(arts, FailedUrl(key, present))
  }

  /**
   * Every counted artifact either lacks the key or was checked, and every
   * check either found its URL or failed it: so `exists <= total`, and the
   * failures are the counted artifacts with a value whose URL was not found.
   */
  /** One artifact is absent, found, failed or not counted, and exactly one of these. */
  lemma TallyOne(a: Record, key: string, present: string -> bool)
    ensures var f := FailedUrl(key, present);
      (if Found(key, present)(a) then 1 else 0) + |if f(a).Some? then [f(a).value] else []|
        + (if Absent(key)(a) then 1 else 0) == (if CountedBy(key)(a) then 1 else 0)
  {
    var f := FailedUrl(key, present);
    if key !in a {
      assert JobUrl(a, key).None?;
      assert !Found(key, present)(a) && f(a).None?;
    } else if JobUrl(a, key).Some? {
      assert Found(key, present)(a) <==> f(a).None?;
    } else {
      assert !Found(key, present)(a) && f(a).None? && !CountedBy(key)(a);
    }
  }

  lemma {:induction false} TallyBalance(arts: seq<Record>, key: string, present: string -> bool)
    ensures TallyOf(arts, key, present).found + |FailedIn(arts, key, present)| + Count(arts, Absent(key))
            == TallyOf(arts, key, present).total
    ensures TallyOf(arts, key, present).found <= TallyOf(arts, key, present).total
    decreases |arts|
  {
    if |arts| > 0 {
      var n := |arts| - 1;
      var init := arts[..n];
      TallyBalance(init, key, present);
      var f := FailedUrl(key, present);
      assert FailedIn(arts, key, present) == FailedIn(init, key, present) + (if f(arts[n]).Some? then [f(arts[n]).value] else []);
      var a := arts[n];
      assert Count(arts, Found(key, present)) == Count(init, Found(key, present)) + (if Found(key, present)(a) then 1 else 0);
      assert Count(arts, CountedBy(key)) == Count(init, CountedBy(key)) + (if CountedBy(key)(a) then 1 else 0);
      assert Count(arts, Absent(key)) == Count(init, Absent(key)) + (if Absent(key)(a) then 1 else 0);
      TallyOne(a, key, present);
    }
  }

  // ---- jobs ----

  /** One existence check: the conference, the artifact's index in its list, and the URL. */
  datatype Job = Job(name: string, idx: nat, url: string)

  /** The jobs of conference `name`: one per artifact with a URL for the key, in artifact order. */
  function JobsIn(name: string, arts: seq<Record>, key: string): seq<Job>
    decreases |arts|
  {
    if |arts| == 0 then []
    else
      var i := |arts| - 1;
      JobsIn(name, arts[..i], key) + (if JobUrl(arts[i], key).Some? then [Job(name, i, JobUrl(arts[i], key).value)] else [])
  }

  /** A conference's artifact lists, without their order. */
  type Table = map<string, seq<Record>>

  function ArtsOf(t: Table, name: string): seq<Record>
  {
    if name in t then t[name] else []
  }

  /** The jobs of conferences `names`, conference by conference. */
  function JobsOf(t: Table, names: seq<string>, key: string): seq<Job>
    decreases |names|
  {
    if |names| == 0 then []
    else JobsOf(t, names[..|names| - 1], key) + JobsIn(names[|names| - 1], ArtsOf(t, names[|names| - 1]), key)
  }

  /** Each job of a conference points at an artifact of it with that URL. */
  lemma {:induction false} JobsInFacts(name: string, arts: seq<Record>, key: string)
    ensures forall j :: j in JobsIn(name, arts, key) ==>
      j.name == name && j.idx < |arts| && JobUrl(arts[j.idx], key) == Some(j.url)
    decreases |arts|
  {
    if |arts| > 0 {
      var i := |arts| - 1;
      JobsInFacts(name, arts[..i], key);
    }
  }

  lemma {:induction false} JobsOfFacts(t: Table, names: seq<string>, key: string)
    ensures forall j :: j in JobsOf(t, names, key) ==>
      j.name in names && j.idx < |ArtsOf(t, j.name)| && JobUrl(ArtsOf(t, j.name)[j.idx], key) == Some(j.url)
    decreases |names|
  {
    if |names| > 0 {
      var init := names[..|names| - 1];
      var last := names[|names| - 1];
      JobsOfFacts(t, init, key);
      JobsInFacts(last, ArtsOf(t, last), key);
      forall j | j in JobsOf(t, names, key)
        ensures j.name in names && j.idx < |ArtsOf(t, j.name)| && JobUrl(ArtsOf(t, j.name)[j.idx], key) == Some(j.url)
      {
        if j in JobsOf(t, init, key) {
          assert j.name in init;
        }
      }
    }
  }

  // ---- whole results ----

  function RewriteBy(key: string): Record -> Record
  {
    (a: Record) => Rewritten(a, key)
  }

  function CheckBy(key: string, present: string -> bool): Record -> Record
  {
    (a: Record) => Checked(a, key, present)
  }

  function RewriteArts(key: string): seq<Record> -> seq<Record>
  {
    (arts: seq<Record>) => MapSeq(arts, RewriteBy(key))
  }

  function CheckArts(key: string, present: string -> bool): seq<Record> -> seq<Record>
  {
    (arts: seq<Record>) => MapSeq(arts, CheckBy(key, present))
  }

  /** After the first pass over `key`: every artifact's value normalised. */
  function RewrittenTable(t: Table, key: string): Table
  {
    MapValues(t, RewriteArts(key))
  }

  /** After both passes over `key`: every artifact with a URL also flagged. */
  function CheckedTable(t: Table, key: string, present: string -> bool): Table
  {
    MapValues(t, CheckArts(key, present))
  }

  /** The failed URLs of conferences `names`, conference by conference. */
  function FailedOf(t: Table, names: seq<string>, key: string, present: string -> bool): seq<string>
    decreases |names|
  {
    if |names| == 0 then []
    else FailedOf(t, names[..|names| - 1], key, present) + FailedIn(ArtsOf(t, names[|names| - 1]), key, present)
  }

  // ---- the second pass ----

  /** Records the outcome of one job in its artifact's existence flag for the job's URL key. */
  function Flag(t: Table, j: Job, key: string, present: string -> bool): Table
  {
    if j.name in t && j.idx < |t[j.name]| then
      t[j.name := t[j.name][j.idx := t[j.name][j.idx][ExistsKey(key) := Bool(present(j.url))]]]
    else t
  }

  function FlagStep(key: string, present: string -> bool): (Table, Job) -> Table
  {
    (t: Table, j: Job) => Flag(t, j, key, present)
  }

  /** The jobs applied in order. */
  function FlagAll(t: Table, jobs: seq<Job>, key: string, present: string -> bool): Table
  {
    Fold(t, jobs, FlagStep(key, present))
  }

  function KeySet(ks: seq<string>): set<string>
  {
    set n | n in ks
  }

  /** Conferences in `done` checked, the others only rewritten. */
  function Partial(t: Table, key: string, present: string -> bool, done: set<string>): Table
  {
    Pick(t, done, CheckArts(key, present), RewriteArts(key))
  }

  /** One conference's artifacts, the first `m` checked and the rest only rewritten. */
  function Mixed(arts: seq<Record>, key: string, present: string -> bool, m: nat): (out: seq<Record>)
    ensures |out| == |arts|
  {
    seq(|arts|, i requires 0 <= i < |arts| => if i < m then Checked(arts[i], key, present) else Rewritten(arts[i], key))
  }

  /** The job of artifact `k` turns it from rewritten into checked. */
  lemma FlagChecks(p: Table, n: string, arts: seq<Record>, key: string, present: string -> bool, k: nat)
    requires k < |arts| && JobUrl(arts[k], key).Some?
    ensures Flag(p[n := Mixed(arts, key, present, k)], Job(n, k, JobUrl(arts[k], key).value), key, present)
            == p[n := Mixed(arts, key, present, k + 1)]
  {
    var mk := Mixed(arts, key, present, k);
    assert mk[k := Checked(arts[k], key, present)] == Mixed(arts, key, present, k + 1);
  }

  lemma MixedStart(arts: seq<Record>, key: string, present: string -> bool)
    ensures Mixed(arts, key, present, 0) == MapSeq(arts, RewriteBy(key))
  {
  }

  lemma MixedFull(arts: seq<Record>, key: string, present: string -> bool)
    ensures Mixed(arts, key, present, |arts|) == MapSeq(arts, CheckBy(key, present))
  {
  }

  /** An artifact without a URL for the key is the same checked or not. */
  lemma MixedSkip(arts: seq<Record>, key: string, present: string -> bool, k: nat)
    requires k < |arts| && JobUrl(arts[k], key).None?
    ensures Mixed(arts, key, present, k) == Mixed(arts, key, present, k + 1)
  {
    assert Checked(arts[k], key, present) == Rewritten(arts[k], key);
  }

  /** Applying a conference's first `m` jobs checks its first `m` artifacts. */
  lemma {:induction false} FlagName(p: Table, n: string, arts: seq<Record>, key: string, present: string -> bool, m: nat)
    requires n in p && p[n] == MapSeq(arts, RewriteBy(key)) && m <= |arts|
    ensures FlagAll(p, JobsIn(n, arts[..m], key), key, present) == p[n := Mixed(arts, key, present, m)]
    decreases m
  {
    if m == 0 {
      MixedStart(arts, key, present);
      assert p[n := p[n]] == p;
    } else {
      var k := m - 1;
      FlagName(p, n, arts, key, present, k);
      assert arts[..m][..k] == arts[..k];
      if JobUrl(arts[k], key).Some? {
        var j := Job(n, k, JobUrl(arts[k], key).value);
        var js := JobsIn(n, arts[..k], key);
        assert JobsIn(n, arts[..m], key) == js + [j];
        FoldSnoc(p, js, j, FlagStep(key, present));
        FlagChecks(p, n, arts, key, present, k);
        assert p[n := Mixed(arts, key, present, k)][n := Mixed(arts, key, present, m)] == p[n := Mixed(arts, key, present, m)];
      } else {
        assert JobsIn(n, arts[..m], key) == JobsIn(n, arts[..k], key);
        MixedSkip(arts, key, present, k);
      }
    }
  }

  lemma KeySetSnoc(ks: seq<string>, k: nat)
    requires k < |ks|
    ensures KeySet(ks[..k + 1]) == KeySet(ks[..k]) + {ks[k]}
  {
    assert ks[..k + 1] == ks[..k] + [ks[k]];
  }

  /**
   * Applying the jobs of the first `i` conferences to the rewritten results
   * checks exactly those conferences.
   */
  lemma {:induction false} FlagNames(t: Table, names: seq<string>, key: string, present: string -> bool, i: nat)
    requires i <= |names| && forall a, b :: 0 <= a < b < |names| ==> names[a] != names[b]
    requires forall n :: n in names ==> n in t
    ensures FlagAll(RewrittenTable(t, key), JobsOf(t, names[..i], key), key, present)
            == Partial(t, key, present, KeySet(names[..i]))
    decreases i
  {
    if i == 0 {
      PickNone(t, CheckArts(key, present), RewriteArts(key));
      assert KeySet(names[..0]) == {};
    } else {
      var k := i - 1;
      var n := names[k];
      var done := KeySet(names[..k]);
      var arts := t[n];
      var p := Partial(t, key, present, done);
      FlagNames(t, names, key, present, k);
      assert names[..i][..k] == names[..k];
      assert JobsOf(t, names[..i], key) == JobsOf(t, names[..k], key) + JobsIn(n, arts, key);
      FoldAppend(RewrittenTable(t, key), JobsOf(t, names[..k], key), JobsIn(n, arts, key), FlagStep(key, present));
      assert n !in done;
      assert p[n] == MapSeq(arts, RewriteBy(key));
      FlagName(p, n, arts, key, present, |arts|);
      assert arts[..|arts|] == arts;
      MixedFull(arts, key, present);
      KeySetSnoc(names, k);
      PickStep(t, done, CheckArts(key, present), RewriteArts(key), n);
    }
  }

  /** The second pass over the jobs of every conference completes the check. */
  lemma FlagAllChecks(t: Table, names: seq<string>, key: string, present: string -> bool)
    requires forall a, b :: 0 <= a < b < |names| ==> names[a] != names[b]
    requires KeySet(names) == t.Keys
    ensures FlagAll(RewrittenTable(t, key), JobsOf(t, names, key), key, present) == CheckedTable(t, key, present)
  {
    FlagNames(t, names, key, present, |names|);
    assert names[..|names|] == names;
    PickAll(t, CheckArts(key, present), RewriteArts(key));
  }

  // ---- counts and failures through the jobs ----

  /** A job of conference `n` whose URL exists. */
  function FoundJob(n: string, present: string -> bool): Job -> bool
  {
    (j: Job) => j.name == n && present(j.url)
  }

  /** The URL of a job whose check failed. */
  function FailedJob(present: string -> bool): Job -> Option<string>
  {
    (j: Job) => if present(j.url) then None else Some(j.url)
  }

  lemma {:induction false} JobsInFound(name: string, arts: seq<Record>, key: string, present: string -> bool, n: string)
    ensures Count(JobsIn(name, arts, key), FoundJob(n, present)) == if name == n then Count(arts, Found(key, present)) else 0
    decreases |arts|
  {
    if |arts| > 0 {
      var i := |arts| - 1;
      var js := JobsIn(name, arts[..i], key);
      var tail := if JobUrl(arts[i], key).Some? then [Job(name, i, JobUrl(arts[i], key).value)] else [];
      JobsInFound(name, arts[..i], key, present, n);
      CountAppend(js, tail, FoundJob(n, present));
      if JobUrl(arts[i], key).Some? {
        assert Count(tail, FoundJob(n, present)) == Count(tail[..0], FoundJob(n, present)) + (if FoundJob(n, present)(tail[0]) then 1 else 0);
      }
    }
  }

  /** The `exists` count of a conference is the number of its jobs whose URL exists. */
  lemma {:induction false} JobsOfFound(t: Table, names: seq<string>, key: string, present: string -> bool, n: string)
    requires forall a, b :: 0 <= a < b < |names| ==> names[a] != names[b]
    ensures Count(JobsOf(t, names, key), FoundJob(n, present)) == if n in names then Count(ArtsOf(t, n), Found(key, present)) else 0
    decreases |names|
  {
    if |names| > 0 {
      var init := names[..|names| - 1];
      var last := names[|names| - 1];
      JobsOfFound(t, init, key, present, n);
      JobsInFound(last, ArtsOf(t, last), key, present, n);
      CountAppend(JobsOf(t, init, key), JobsIn(last, ArtsOf(t, last), key), FoundJob(n, present));
      SnocMember(names, n);
      assert last !in init;
    }
  }

  lemma {:induction false} JobsInFailed(name: string, arts: seq<Record>, key: string, present: string -> bool)
    ensures FilterMap(JobsIn(name, arts, key), FailedJob(present)) == FailedIn(arts, key, present)
    decreases |arts|
  {
    if |arts| > 0 {
      var i := |arts| - 1;
      var js := JobsIn(name, arts[..i], key);
      var tail := if JobUrl(arts[i], key).Some? then [Job(name, i, JobUrl(arts[i], key).value)] else [];
      JobsInFailed(name, arts[..i], key, present);
      FilterMapAppend(js, tail, FailedJob(present));
      if JobUrl(arts[i], key).Some? {
        assert FilterMap(tail, FailedJob(present)) == FilterMap(tail[..0], FailedJob(present))
          + (if FailedJob(present)(tail[0]).Some? then [FailedJob(present)(tail[0]).value] else []);
      }
    }
  }

  /** The failures of the second pass are those of the conferences, in conference order. */
  lemma {:induction false} JobsOfFailed(t: Table, names: seq<string>, key: string, present: string -> bool)
    ensures FilterMap(JobsOf(t, names, key), FailedJob(present)) == FailedOf(t, names, key, present)
    decreases |names|
  {
    if |names| > 0 {
      var init := names[..|names| - 1];
      var last := names[|names| - 1];
      JobsOfFailed(t, init, key, present);
      JobsInFailed(last, ArtsOf(t, last), key, present);
      FilterMapAppend(JobsOf(t, init, key), JobsIn(last, ArtsOf(t, last), key), FailedJob(present));
    }
  }

  /** Every failed URL is the normalised URL of an artifact of one of the conferences, and its check failed. */
  lemma {:induction false} FailedOfMember(t: Table, names: seq<string>, key: string, present: string -> bool, u: string)
    requires u in FailedOf(t, names, key, present)
    ensures !present(u)
    ensures exists n, i :: n in names && 0 <= i < |ArtsOf(t, n)| && JobUrl(ArtsOf(t, n)[i], key) == Some(u)
    decreases |names|
  {
    var init := names[..|names| - 1];
    var last := names[|names| - 1];
    if u in FailedOf(t, init, key, present) {
      FailedOfMember(t, init, key, present, u);
      var n, i :| n in init && 0 <= i < |ArtsOf(t, n)| && JobUrl(ArtsOf(t, n)[i], key) == Some(u);
      assert n in names;
    } else {
      var arts := ArtsOf(t, last);
      FilterMapMember(arts, FailedUrl(key, present), u);
      var i :| 0 <= i < |arts| && FailedUrl(key, present)(arts[i]) == Some(u);
      assert last in names && JobUrl(arts[i], key) == Some(u);
    }
  }

  // ---- the passes as loops ----

  /** The counts after the first pass: nothing found yet, every counted artifact in `total`. */
  function Totals(t: Table, key: string): map<string, Tally>
  {
    map n | n in t :: Tally(0, Count(t[n], CountedBy(key)))
  }

  /**
   * The first pass over one conference's artifacts: each value for `key`
   * normalised in place, a job appended per normalisable value, and the
   * artifacts counted that lack the key or have such a value.
   */
  method RewriteConference(name: string, arts: seq<Record>, key: string, jobs: seq<Job>)
    returns (out: seq<Record>, jobs': seq<Job>, total: nat)
    ensures out == MapSeq(arts, RewriteBy(key))
    ensures jobs' == jobs + JobsIn(name, arts, key)
    ensures total == Count(arts, CountedBy(key))
  {
    out := arts;
    jobs' := jobs;
    total := 0;
    for idx := 0 to |arts|
      invariant |out| == |arts|
      invariant forall j :: 0 <= j < idx ==> out[j] == Rewritten(arts[j], key)
      invariant forall j :: idx <= j < |arts| ==> out[j] == arts[j]
      invariant jobs' == jobs + JobsIn(name, arts[..idx], key)
      invariant total == Count(arts[..idx], CountedBy(key))
    {
      assert arts[..idx + 1][..idx] == arts[..idx];
      var artifact := out[idx];
      if key in artifact {
        var val := NormaliseUrl(artifact[key]);
        if val.Some? {
          out := out[idx := artifact[key := Str(val.value)]];
          jobs' := jobs' + [Job(name, idx, val.value)];
          total := total + 1;
        }
      } else {
        total := total + 1;
      }
    }
    assert arts[..|arts|] == arts;
    MapSeqPointwise(arts, out, RewriteBy(key));
  }

  /** The state of the first pass after the first `i` conferences. */
  predicate GatheredUpTo(names: seq<string>, t: Table, key: string, i: nat, out: Table, jobs: seq<Job>, counts: Dict<string, Tally>)
    requires i <= |names|
  {
    out == Pick(t, KeySet(names[..i]), RewriteArts(key), Id())
    && jobs == JobsOf(t, names[..i], key)
    && counts.Valid() && counts.keys == names[..i]
    && counts.values == Restrict(Totals(t, key), KeySet(names[..i]))
  }

  lemma GatheredStart(names: seq<string>, t: Table, key: string)
    ensures GatheredUpTo(names, t, key, 0, t, [], Empty())
  {
    assert KeySet(names[..0]) == {};
    PickNoneSame(t, RewriteArts(key));
    RestrictNone(Totals(t, key));
  }

  /** One more conference gathered. */
  lemma GatheredStep(names: seq<string>, t: Table, key: string, i: nat, out: Table, jobs: seq<Job>, counts: Dict<string, Tally>)
    requires i < |names| && (forall a, b :: 0 <= a < b < |names| ==> names[a] != names[b]) && names[i] in t
    requires GatheredUpTo(names, t, key, i, out, jobs, counts)
    ensures out[names[i]] == t[names[i]]
    ensures GatheredUpTo(names, t, key, i + 1,
      out[names[i] := MapSeq(t[names[i]], RewriteBy(key))],
      jobs + JobsIn(names[i], t[names[i]], key),
      Put(counts, names[i], Tally(0, Count(t[names[i]], CountedBy(key)))))
  {
    var name := names[i];
    var done := KeySet(names[..i]);
    assert name !in done;
    KeySetSnoc(names, i);
    PickStepOne(t, done, key, name);
    JobsOfSnoc(t, names, key, i);
    TotalsStep(names, t, key, i, counts);
  }

  lemma TotalsStep(names: seq<string>, t: Table, key: string, i: nat, counts: Dict<string, Tally>)
    requires i < |names| && names[i] in t && names[i] !in KeySet(names[..i])
    requires counts.Valid() && counts.keys == names[..i] && counts.values == Restrict(Totals(t, key), KeySet(names[..i]))
    ensures var c := Put(counts, names[i], Tally(0, Count(t[names[i]], CountedBy(key))));
      c.Valid() && c.keys == names[..i + 1] && c.values == Restrict(Totals(t, key), KeySet(names[..i + 1]))
  {
    var name := names[i];
    KeySetSnoc(names, i);
    RestrictStep(Totals(t, key), KeySet(names[..i]), name);
    assert name !in counts.values;
    assert names[..i + 1] == names[..i] + [name];
  }

  lemma PickStepOne(t: Table, done: set<string>, key: string, name: string)
    requires name in t && name !in done
    ensures Pick(t, done, RewriteArts(key), Id())[name] == t[name]
    ensures Pick(t, done, RewriteArts(key), Id())[name := MapSeq(t[name], RewriteBy(key))] == Pick(t, done + {name}, RewriteArts(key), Id())
  {
    PickStep(t, done, RewriteArts(key), Id(), name);
  }

  lemma JobsOfSnoc(t: Table, names: seq<string>, key: string, i: nat)
    requires i < |names|
    ensures JobsOf(t, names[..i + 1], key) == JobsOf(t, names[..i], key) + JobsIn(names[i], ArtsOf(t, names[i]), key)
  {
    assert names[..i + 1][..i] == names[..i];
  }

  lemma GatheredEnd(names: seq<string>, t: Table, key: string, out: Table, jobs: seq<Job>, counts: Dict<string, Tally>)
    requires KeySet(names) == t.Keys
    requires GatheredUpTo(names, t, key, |names|, out, jobs, counts)
    ensures out == RewrittenTable(t, key)
    ensures jobs == JobsOf(t, names, key)
    ensures counts.Valid() && counts.keys == names && counts.values == Totals(t, key)
  {
    assert names[..|names|] == names;
    PickAll(t, RewriteArts(key), Id());
    RestrictAll(Totals(t, key));
  }

  /**
   * The first pass over `key` through the conferences `names` of `t`, in
   * order: every conference's values normalised in place, one job per
   * normalisable value and the counted artifacts of each conference.
   */
  method Gather(names: seq<string>, t: Table, key: string) returns (out: Table, jobs: seq<Job>, counts: Dict<string, Tally>)
    requires forall a, b :: 0 <= a < b < |names| ==> names[a] != names[b]
    requires KeySet(names) == t.Keys
    ensures out == RewrittenTable(t, key)
    ensures jobs == JobsOf(t, names, key)
    ensures counts.Valid() && counts.keys == names && counts.values == Totals(t, key)
  {
    out := t;
    jobs := [];
    counts := Empty();
    GatheredStart(names, t, key);
    for i := 0 to |names|
      invariant GatheredUpTo(names, t, key, i, out, jobs, counts)
    {
      var name := names[i];
      assert name in KeySet(names);
      GatheredStep(names, t, key, i, out, jobs, counts);
      var arts, total;
      arts, jobs, total := RewriteConference(name, out[name], key, jobs);
      out := out[name := arts];
      counts := Put(counts, name, Tally(0, total));
    }
    GatheredEnd(names, t, key, out, jobs, counts);
  }


  /** The counts after the jobs `jobs`: the jobs whose URL exists added to `found`. */
  function Founds(c: map<string, Tally>, jobs: seq<Job>, present: string -> bool): (r: map<string, Tally>)
    ensures r.Keys == c.Keys
  {
    map n | n in c :: Tally(c[n].found + Count(jobs, FoundJob(n, present)), c[n].total)
  }

  lemma FlagShape(t: Table, j: Job, key: string, present: string -> bool)
    ensures Flag(t, j, key, present).Keys == t.Keys
    ensures forall n :: n in t ==> |Flag(t, j, key, present)[n]| == |t[n]|
  {
  }

  /** The jobs change neither the conferences nor the number of their artifacts. */
  lemma {:induction false} FlagAllShape(t: Table, jobs: seq<Job>, key: string, present: string -> bool)
    ensures FlagAll(t, jobs, key, present).Keys == t.Keys
    ensures forall n :: n in t ==> |FlagAll(t, jobs, key, present)[n]| == |t[n]|
    decreases |jobs|
  {
    if |jobs| > 0 {
      var init := jobs[..|jobs| - 1];
      FlagAllShape(t, init, key, present);
      FlagShape(FlagAll(t, init, key, present), jobs[|jobs| - 1], key, present);
    }
  }

  /** The state of the second pass after the first `k` jobs. */
  predicate AppliedUpTo(t: Table, jobs: seq<Job>, c0: Dict<string, Tally>, f0: seq<string>, key: string, present: string -> bool,
                        k: nat, out: Table, counts: Dict<string, Tally>, failed: seq<string>)
    requires k <= |jobs|
  {
    out == FlagAll(t, jobs[..k], key, present)
    && counts.Valid() && counts.keys == c0.keys && counts.values == Founds(c0.values, jobs[..k], present)
    && failed == f0 + FilterMap(jobs[..k], FailedJob(present))
  }

  lemma AppliedStart(t: Table, jobs: seq<Job>, c0: Dict<string, Tally>, f0: seq<string>, key: string, present: string -> bool)
    requires c0.Valid()
    ensures AppliedUpTo(t, jobs, c0, f0, key, present, 0, t, c0, f0)
  {
    assert jobs[..0] == [];
    assert Founds(c0.values, [], present) == c0.values;
  }

  lemma FlagAllSnoc(t: Table, jobs: seq<Job>, key: string, present: string -> bool, k: nat)
    requires k < |jobs|
    ensures FlagAll(t, jobs[..k + 1], key, present) == Flag(FlagAll(t, jobs[..k], key, present), jobs[k], key, present)
  {
    assert jobs[..k + 1] == jobs[..k] + [jobs[k]];
    FoldSnoc(t, jobs[..k], jobs[k], FlagStep(key, present));
  }

  lemma FoundsSnoc(c: map<string, Tally>, jobs: seq<Job>, present: string -> bool, k: nat)
    requires k < |jobs| && jobs[k].name in c
    ensures var before := Founds(c, jobs[..k], present);
      Founds(c, jobs[..k + 1], present)
      == if present(jobs[k].url) then before[jobs[k].name := Tally(before[jobs[k].name].found + 1, before[jobs[k].name].total)]
         else before
  {
    assert jobs[..k + 1][..k] == jobs[..k];
  }

  lemma FailedSnoc(jobs: seq<Job>, present: string -> bool, k: nat)
    requires k < |jobs|
    ensures FilterMap(jobs[..k + 1], FailedJob(present))
            == FilterMap(jobs[..k], FailedJob(present)) + (if present(jobs[k].url) then [] else [jobs[k].url])
  {
    FilterMapSnoc(jobs, k, FailedJob(present));
  }

  /** Before job `k`, its conference and artifact are there to be flagged and counted. */
  lemma AppliedValid(t: Table, jobs: seq<Job>, c0: Dict<string, Tally>, f0: seq<string>, key: string, present: string -> bool,
                     k: nat, out: Table, counts: Dict<string, Tally>, failed: seq<string>)
    requires k < |jobs| && AppliedUpTo(t, jobs, c0, f0, key, present, k, out, counts, failed)
    requires jobs[k].name in t && jobs[k].idx < |t[jobs[k].name]| && jobs[k].name in c0.values
    ensures jobs[k].name in out && jobs[k].idx < |out[jobs[k].name]| && jobs[k].name in counts.values
  {
    FlagAllShape(t, jobs[..k], key, present);
  }

  /** Job `k` applied. */
  lemma AppliedStep(t: Table, jobs: seq<Job>, c0: Dict<string, Tally>, f0: seq<string>, key: string, present: string -> bool,
                    k: nat, out: Table, counts: Dict<string, Tally>, failed: seq<string>)
    requires k < |jobs| && AppliedUpTo(t, jobs, c0, f0, key, present, k, out, counts, failed)
    requires jobs[k].name in out && jobs[k].idx < |out[jobs[k].name]| && jobs[k].name in c0.values
    ensures var j := jobs[k];
      var arts := out[j.name];
      var c := counts.values[j.name];
      AppliedUpTo(t, jobs, c0, f0, key, present, k + 1,
        out[j.name := arts[j.idx := arts[j.idx][ExistsKey(key) := Bool(present(j.url))]]],
        if present(j.url) then Put(counts, j.name, Tally(c.found + 1, c.total)) else counts,
        if present(j.url) then failed else failed + [j.url])
  {
    FlaggedStep(t, jobs, key, present, k, out);
    CountsStep(jobs, c0, present, k, counts);
    FailedSnoc(jobs, present, k);
  }

  lemma FlaggedStep(t: Table, jobs: seq<Job>, key: string, present: string -> bool, k: nat, out: Table)
    requires k < |jobs| && out == FlagAll(t, jobs[..k], key, present)
    requires jobs[k].name in out && jobs[k].idx < |out[jobs[k].name]|
    ensures var j := jobs[k];
      var arts := out[j.name];
      out[j.name := arts[j.idx := arts[j.idx][ExistsKey(key) := Bool(present(j.url))]]] == FlagAll(t, jobs[..k + 1], key, present)
  {
    FlagAllSnoc(t, jobs, key, present, k);
  }

  lemma CountsStep(jobs: seq<Job>, c0: Dict<string, Tally>, present: string -> bool, k: nat, counts: Dict<string, Tally>)
    requires k < |jobs| && jobs[k].name in c0.values
    requires counts.Valid() && counts.keys == c0.keys && counts.values == Founds(c0.values, jobs[..k], present)
    ensures var j := jobs[k];
      var c := counts.values[j.name];
      var counts1 := if present(j.url) then Put(counts, j.name, Tally(c.found + 1, c.total)) else counts;
      counts1.Valid() && counts1.keys == c0.keys && counts1.values == Founds(c0.values, jobs[..k + 1], present)
  {
    FoundsSnoc(c0.values, jobs, present, k);
  }

  /**
   * The second pass: each job's flag set to the check's answer for its
   * URL, the URLs that exist counted in their conference's `exists` and
   * the others appended to `failed`.
   */
  method Apply(t: Table, jobs: seq<Job>, counts: Dict<string, Tally>, failed: seq<string>, key: string, present: string -> bool)
    returns (out: Table, counts': Dict<string, Tally>, failed': seq<string>)
    requires counts.Valid()
    requires forall j :: j in jobs ==> j.name in t && j.idx < |t[j.name]| && j.name in counts.values
    ensures out == FlagAll(t, jobs, key, present)
    ensures counts'.Valid() && counts'.keys == counts.keys && counts'.values == Founds(counts.values, jobs, present)
    ensures failed' == failed + FilterMap(jobs, FailedJob(present))
  {
    out, counts', failed' := t, counts, failed;
    AppliedStart(t, jobs, counts, failed, key, present);
    for k := 0 to |jobs|
      invariant AppliedUpTo(t, jobs, counts, failed, key, present, k, out, counts', failed')
    {
      var job := jobs[k];
      AppliedValid(t, jobs, counts, failed, key, present, k, out, counts', failed');
      var found := present(job.url);
      var arts := out[job.name];
      var out1 := out[job.name := arts[job.idx := arts[job.idx][ExistsKey(key) := Bool(found)]]];
      var counts1, failed1 := counts', failed';
      if found {
        var c := counts'.values[job.name];
        counts1 := Put(counts', job.name, Tally(c.found + 1, c.total));
      } else {
        failed1 := failed' + [job.url];
      }
      AppliedStep(t, jobs, counts, failed, key, present, k, out, counts', failed');
      out, counts', failed' := out1, counts1, failed1;
    }
    assert jobs[..|jobs|] == jobs;
  }

  /** The counts of every conference for `key`. */
  function TallyTable(t: Table, key: string, present: string -> bool): (r: map<string, Tally>)
    ensures r.Keys == t.Keys
  {
    map n | n in t :: TallyOf(t[n], key, present)
  }

  /** The counts of the second pass, from those of the first, are the counts of every conference. */
  lemma FoundsTotals(t: Table, names: seq<string>, key: string, present: string -> bool)
    requires forall a, b :: 0 <= a < b < |names| ==> names[a] != names[b]
    requires KeySet(names) == t.Keys
    ensures Founds(Totals(t, key), JobsOf(t, names, key), present) == TallyTable(t, key, present)
  {
    forall n | n in t
      ensures Founds(Totals(t, key), JobsOf(t, names, key), present)[n] == TallyTable(t, key, present)[n]
    {
      assert n in KeySet(names);
      JobsOfFound(t, names, key, present, n);
    }
  }

  /** The same conferences in the same order, with new artifact lists. */
  function WithValues(r: Results, t: Table): (out: Results)
    requires t.Keys == r.values.Keys
    ensures out.keys == r.keys && out.values == t
  {
    Dict(r.keys, t)
  }

  /** The jobs of the first pass point into the rewritten table and the first pass's counts. */
  lemma JobsInRange(r: Results, key: string)
    ensures forall j :: j in JobsOf(r.values, r.keys, key) ==>
      j.name in RewrittenTable(r.values, key) && j.idx < |RewrittenTable(r.values, key)[j.name]| && j.name in Totals(r.values, key)
  {
    JobsOfFacts(r.values, r.keys, key);
  }

  /**
   * Both passes over one URL key (the body of the loop over `url_keys`):
   * every artifact checked, the counts of every conference and the failed
   * URLs appended in conference and artifact order.
   */
  method CheckKey(r: Results, key: string, present: string -> bool, failed: seq<string>)
    returns (out: Results, counts: Dict<string, Tally>, failed': seq<string>)
    ensures out.keys == r.keys && out.values == CheckedTable(r.values, key, present)
    ensures counts.Valid() && counts.keys == r.keys && counts.values == TallyTable(r.values, key, present)
    ensures failed' == failed + FailedOf(r.values, r.keys, key, present)
  {
    assert r.Valid();
    assert KeySet(r.keys) == r.values.Keys;
    var t, jobs, totals := Gather(r.keys, r.values, key);
    JobsInRange(r, key);
    var t';
    t', counts, failed' := Apply(t, jobs, totals, failed, key, present);
    FlagAllChecks(r.values, r.keys, key, present);
    FoundsTotals(r.values, r.keys, key, present);
    JobsOfFailed(r.values, r.keys, key, present);
    out := WithValues(r, t');
  }

  // ---- all URL keys ----

  /** The artifacts after the checks of `keys`, key by key. */
  function CheckedAll(t: Table, keys: seq<string>, present: string -> bool): (out: Table)
    ensures out.Keys == t.Keys
    decreases |keys|
  {
    if |keys| == 0 then t
    else CheckedTable(CheckedAll(t, keys[..|keys| - 1], present), keys[|keys| - 1], present)
  }

  /** `counts`: for each URL key, the counts of every conference as the artifacts stood when that key was checked. */
  function CountsAll(names: seq<string>, t: Table, keys: seq<string>, present: string -> bool): (d: Dict<string, Dict<string, Tally>>)
    ensures d.Valid()
    decreases |keys|
  {
    if |keys| == 0 then Empty()
    else
      var init := keys[..|keys| - 1];
      Put(CountsAll(names, t, init, present), keys[|keys| - 1],
          Dict(names, TallyTable(CheckedAll(t, init, present), keys[|keys| - 1], present)))
  }

  /** `failed`: the failed URLs of every key in turn. */
  function FailedAll(names: seq<string>, t: Table, keys: seq<string>, present: string -> bool): seq<string>
    decreases |keys|
  {
    if |keys| == 0 then []
    else
      var init := keys[..|keys| - 1];
      FailedAll(names, t, init, present) + FailedOf(CheckedAll(t, init, present), names, keys[|keys| - 1], present)
  }

  /** `check_artifact_exists` */
  method CheckArtifactExists(results: Results, urlKeys: seq<string>, present: string -> bool)
    returns (out: Results, counts: Dict<string, Dict<string, Tally>>, failed: seq<string>)
    ensures out.keys == results.keys && out.values == CheckedAll(results.values, urlKeys, present)
    ensures counts == CountsAll(results.keys, results.values, urlKeys, present)
    ensures failed == FailedAll(results.keys, results.values, urlKeys, present)
  {
    out := results;
    counts := Empty();
    failed := [];
    for i := 0 to |urlKeys|
      invariant out.keys == results.keys && out.values == CheckedAll(results.values, urlKeys[..i], present)
      invariant counts == CountsAll(results.keys, results.values, urlKeys[..i], present)
      invariant failed == FailedAll(results.keys, results.values, urlKeys[..i], present)
    {
      assert urlKeys[..i + 1][..i] == urlKeys[..i];
      var keyCounts;
      out, keyCounts, failed := CheckKey(out, urlKeys[i], present, failed);
      counts := Put(counts, urlKeys[i], keyCounts);
    }
    assert urlKeys[..|urlKeys|] == urlKeys;
  }

  /** For every URL key and conference, `exists <= total`. */
  lemma {:induction false} CountsAllBounded(names: seq<string>, t: Table, keys: seq<string>, present: string -> bool)
    ensures forall k, n :: k in CountsAll(names, t, keys, present).values && n in CountsAll(names, t, keys, present).values[k].values ==>
      CountsAll(names, t, keys, present).values[k].values[n].found <= CountsAll(names, t, keys, present).values[k].values[n].total
    decreases |keys|
  {
    if |keys| > 0 {
      var init := keys[..|keys| - 1];
      var last := keys[|keys| - 1];
      var before := CheckedAll(t, init, present);
      CountsAllBounded(names, t, init, present);
      forall n | n in before
        ensures TallyTable(before, last, present)[n].found <= TallyTable(before, last, present)[n].total
      {
        TallyBalance(before[n], last, present);
      }
    }
  }
}
