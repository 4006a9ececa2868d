/**
 * The on-disk cache of the scrapers and the cached fetchers built on it.
 *
 * A cache file lives in directory `namespace` under the cache root and is
 * named by the SHA-256 digest of its key; the digest function is a
 * parameter of the cache. A file holds a JSON object with the write time
 * `ts`, the cached `body` and, when the server sent one, its `etag`.
 * The clock is the `now` parameter (one reading per call) and the network
 * is an oracle function from the request to its answer.
 */
module DiskCache {
  import opened Wrappers
  import opened Strings
  import opened Json

  const Day: int := 86400
  /** Conference listings and raw downloads. */
  const CacheTtl: int := Day * 30
  /** Positive URL existence checks. */
  const CacheTtlUrl: int := Day * 90
  /** Negative URL existence checks. */
  const CacheTtlUrlNeg: int := Day * 7
  /** GitHub, Zenodo and Figshare statistics. */
  const CacheTtlStats: int := Day * 30

  /** Cache file location: the namespace directory and the key's digest. */
  datatype Slot = Slot(namespace: string, digest: string)

  /** The fields of a cache file that decoded to a JSON object. */
  datatype Entry = Entry(ts: Option<int>, body: Option<Json>, etag: Option<string>)
  {
    /** A decoded dict is true in Python when it has any key. */
    predicate Truthy()
    {
      ts.Some? || body.Some? || etag.Some?
    }
  }

  /** A cache file that is not valid JSON (or cannot be read) is `Unreadable`. */
  datatype CacheFile = Unreadable | Decoded(entry: Entry)

  type Files = map<Slot, CacheFile>

  /** `_read_cache`: the body of an entry younger than `ttl`; `None` otherwise. */
  function ReadFresh(files: Files, slot: Slot, ttl: int, now: int): (r: Json)
    ensures r != Null ==>
      slot in files && files[slot].Decoded? && files[slot].entry.ts.Some?
      && now - files[slot].entry.ts.value < ttl && files[slot].entry.body == Some(r)
    ensures slot !in files || files[slot].Unreadable? ==> r == Null
  {
    if slot in files && files[slot].Decoded? then
      var e := files[slot].entry;
      if e.ts.Some? && e.body.Some? && now - e.ts.value < ttl then e.body.value else Null
    else Null
  }

  /** `_read_cache_entry`: the decoded entry, whatever its age. */
  function ReadEntry(files: Files, slot: Slot): (r: Option<Entry>)
    ensures r.Some? <==> slot in files && files[slot].Decoded?
  {
    if slot in files && files[slot].Decoded? then Some(files[slot].entry) else None
  }

  /** `_write_cache`: the files after storing `body` at time `now`. */
  function Written(files: Files, slot: Slot, body: Json, etag: Option<string>, now: int): Files
  {
    var kept := if etag.Some? && etag.value != "" then etag else None;
    files[slot := Decoded(Entry(Some(now), Some(body), kept))]
  }

  /** `_refresh_cache_ts`: the files after re-stamping a readable entry. */
  function Touched(files: Files, slot: Slot, now: int): Files
  {
    if slot in files && files[slot].Decoded? then
      files[slot := Decoded(files[slot].entry.(ts := Some(now)))]
    else files
  }

  /** Reading back what was written gives the body while it is fresh, a miss after. */
  lemma ReadAfterWrite(files: Files, slot: Slot, body: Json, etag: Option<string>,
                       written: int, ttl: int, now: int)
    ensures ReadFresh(Written(files, slot, body, etag, written), slot, ttl, now)
            == if now - written < ttl then body else Null
    ensures ReadEntry(Written(files, slot, body, etag, written), slot).value.etag
            == if etag.Some? && etag.value != "" then etag else None
  {
  }

  /** Writing one slot leaves every other slot as it was. */
  lemma WriteLeavesOtherSlots(files: Files, slot: Slot, other: Slot, body: Json,
                              etag: Option<string>, now: int, ttl: int, t: int)
    requires other != slot
    ensures ReadFresh(Written(files, slot, body, etag, now), other, ttl, t)
            == ReadFresh(files, other, ttl, t)
    ensures ReadEntry(Written(files, slot, body, etag, now), other) == ReadEntry(files, other)
  {
  }

  /** Re-stamping keeps the body and the ETag and makes the entry fresh again. */
  lemma RefreshKeepsData(files: Files, slot: Slot, now: int, ttl: int)
    requires ttl > 0
    ensures ReadEntry(Touched(files, slot, now), slot).Some? == ReadEntry(files, slot).Some?
    ensures ReadEntry(files, slot).Some? ==>
      var before := ReadEntry(files, slot).value;
      var after := ReadEntry(Touched(files, slot, now), slot).value;
      after.body == before.body && after.etag == before.etag && after.ts == Some(now)
      && ReadFresh(Touched(files, slot, now), slot, ttl, now) == before.body.UnwrapOr(Null)
  {
  }

  /** The cache: its files and the digest that names them. */
  class Cache {
    var files: Files
    const digest: string -> string

    constructor(digest: string -> string, files: Files)
      ensures this.digest == digest && this.files == files
    {
      this.digest := digest;
      this.files := files;
    }

    /** `_cache_path`: directory per namespace, file per key digest. */
    function SlotOf(key: string, namespace: string): Slot
    {
      Slot(namespace, digest(key))
    }

    function Read(key: string, ttl: int, namespace: string, now: int): Json
      reads this
    {
      ReadFresh(files, SlotOf(key, namespace), ttl, now)
    }

    function EntryOf(key: string, namespace: string): Option<Entry>
      reads this
    {
      ReadEntry(files, SlotOf(key, namespace))
    }

    method Write(key: string, body: Json, namespace: string, etag: Option<string>, now: int)
      modifies this
      ensures files == Written(old(files), SlotOf(key, namespace), body, etag, now)
    {
      files := Written(files, SlotOf(key, namespace), body, etag, now);
    }

    method Refresh(key: string, namespace: string, now: int)
      modifies this
      ensures files == Touched(old(files), SlotOf(key, namespace), now)
    {
      files := Touched(files, SlotOf(key, namespace), now);
    }
  }

  /** Two namespaces never share a cache file. */
  lemma NamespacesSeparate(c: Cache, k1: string, k2: string, ns1: string, ns2: string)
    requires ns1 != ns2
    ensures c.SlotOf(k1, ns1) != c.SlotOf(k2, ns2)
  {
  }

  // ---------------------------------------------------------------------
  // URL existence checks

  /** The answer to a HEAD request: a status code, or a request exception. */
  datatype HeadOutcome = HeadStatus(code: int) | HeadFailed

  const UrlNamespace: string := "url_exists"

  /** The verdict the cache already holds for a URL, if it is trusted. */
  function CachedVerdict(files: Files, slot: Slot, ttl: int, now: int): Option<bool>
  {
    if ReadFresh(files, slot, ttl, now) == Bool(true) then Some(true)
    else if ReadFresh(files, slot, CacheTtlUrlNeg, now) == Bool(false) then Some(false)
    else None
  }

  /** What the network says: one HEAD, repeated once after a 429; anything but 200 is absent. */
  function HeadVerdict(head: nat -> HeadOutcome): (r: (bool, nat))
    ensures 1 <= r.1 <= 2
    ensures r.1 == 2 <==> head(0) == HeadStatus(429)
    ensures r.0 <==> head(r.1 - 1) == HeadStatus(200)
  {
    if head(0) == HeadStatus(429) then (head(1) == HeadStatus(200), 2)
    else (head(0) == HeadStatus(200), 1)
  }

  /**
   * A cached positive verdict is reused while younger than `ttl`, a
   * cached negative one while younger than seven days.
   */
  lemma VerdictReuse(files: Files, slot: Slot, exists_: bool, written: int, ttl: int, now: int)
    ensures CachedVerdict(Written(files, slot, Bool(exists_), None, written), slot, ttl, now)
            == if exists_ then (if now - written < ttl then Some(true) else None)
               else (if now - written < CacheTtlUrlNeg then Some(false) else None)
  {
    ReadAfterWrite(files, slot, Bool(exists_), None, written, ttl, now);
    ReadAfterWrite(files, slot, Bool(exists_), None, written, CacheTtlUrlNeg, now);
  }

  /** `check_url_cached`: answer from the cache, else ask and record the answer. */
  method CheckUrlCached(cache: Cache, url: string, ttl: int, now: int, head: nat -> HeadOutcome)
    returns (exists_: bool, requests: nat)
    modifies cache
    ensures var slot := cache.SlotOf(url, UrlNamespace);
      match CachedVerdict(old(cache.files), slot, ttl, now)
      case Some(v) => exists_ == v && requests == 0 && cache.files == old(cache.files)
      case None =>
        (exists_, requests) == HeadVerdict(head)
        && cache.files == Written(old(cache.files), slot, Bool(exists_), None, now)
  {
    var cached := cache.Read(url, ttl, UrlNamespace, now);
    if cached == Bool(true) {
      return true, 0;
    }
    var cachedNeg := cache.Read(url, CacheTtlUrlNeg, UrlNamespace, now);
    if cachedNeg == Bool(false) {
      return false, 0;
    }
    var resp := head(0);
    requests := 1;
    if resp == HeadStatus(429) {
      resp := head(1);
      requests := 2;
    }
    exists_ := resp == HeadStatus(200);
    cache.Write(url, Bool(exists_), UrlNamespace, None, now);
  }

  // ---------------------------------------------------------------------
  // Conditional GET with rate-limit handling

  /** An HTTP response: status, text, the rate-limit reset and ETag headers, decoded JSON. */
  datatype Response = Response(status: int, text: string, rateLimitReset: Option<int>,
                               etag: Option<string>, payload: Json)

  /** The answer to a GET: a response, or a request exception. */
  datatype Sent = Answered(resp: Response) | Raised

  /** What a fetcher hands back to its caller: a value, or an exception it lets escape. */
  datatype Outcome = Returns(value: Json) | Raises

  /** A 403 whose text mentions the rate limit. */
  predicate RateLimited(r: Response)
  {
    r.status == 403 && Contains(Lower(r.text), "rate limit")
  }

  /** Seconds to sleep: until the reset time, never less than five. */
  function RateLimitWait(reset: int, now: int): (w: int)
    ensures w >= 5
    ensures w == 5 <==> reset <= now
    ensures reset > now ==> now + w == reset + 5
  {
    (if reset - now > 0 then reset - now else 0) + 5
  }

  /** The `If-None-Match` value: the stored ETag of a non-empty entry. */
  function ConditionalHeader(entry: Option<Entry>): (h: Option<string>)
    ensures h.Some? ==> entry.Some? && entry.value.etag == h && h.value != ""
  {
    if entry.Some? && entry.value.Truthy() && entry.value.etag.Some? && entry.value.etag.value != ""
    then entry.value.etag else None
  }

  /** The response the caller acts on: the first, or the retry after a rate-limit answer. */
  function FinalAnswer(get: (string, Option<string>, nat) -> Sent, url: string, header: Option<string>)
    : (r: (Sent, nat))
    ensures r.1 == 2 <==> get(url, header, 0).Answered? && RateLimited(get(url, header, 0).resp)
    ensures r.1 == 1 ==> r.0 == get(url, header, 0)
    ensures r.1 == 2 ==> r.0 == get(url, header, 1)
  {
    var first := get(url, header, 0);
    if first.Answered? && RateLimited(first.resp) then (get(url, header, 1), 2) else (first, 1)
  }

  /**
   * Send a GET for `url`, conditional on the ETag stored under `key`, and
   * repeat it once after a rate-limit answer.
   */
  method SendConditional(cache: Cache, key: string, namespace: string, url: string, now: int,
                         get: (string, Option<string>, nat) -> Sent)
    returns (sent: Sent, entry: Option<Entry>, requests: nat, wait: int)
    ensures entry == ReadEntry(cache.files, cache.SlotOf(key, namespace))
    ensures (sent, requests) == FinalAnswer(get, url, ConditionalHeader(entry))
    ensures var first := get(url, ConditionalHeader(entry), 0);
      wait == if requests == 2 then RateLimitWait(first.resp.rateLimitReset.UnwrapOr(0), now) else 0
  {
    entry := cache.EntryOf(key, namespace);
    var header := ConditionalHeader(entry);
    sent := get(url, header, 0);
    requests := 1;
    wait := 0;
    if sent.Answered? && RateLimited(sent.resp) {
      wait := RateLimitWait(sent.resp.rateLimitReset.UnwrapOr(0), now);
      sent := get(url, header, 1);
      requests := 2;
    }
  }

  // ---------------------------------------------------------------------
  // GitHub repository statistics

  const GithubNamespace: string := "github_stats"

  /** The path parts after which a GitHub URL no longer names the repository. */
  const SlugCutMarkers: seq<string> := ["/tree/", "/blob/", "/pkgs/"]

  /** Cut `p` before the first occurrence of each marker in turn. */
  function CutAll(p: string, markers: seq<string>): (r: string)
    requires forall i :: 0 <= i < |markers| ==> |markers[i]| > 0
    ensures r <= p
    ensures forall i :: 0 <= i < |markers| ==> !Contains(r, markers[i])
    decreases |markers|
  {
    if |markers| == 0 then p
    else
      var init := CutAll(p, markers[..|markers| - 1]);
      var m := markers[|markers| - 1];
      var r := if Contains(init, m) then Before(init, m) else init;
      forall i | 0 <= i < |markers| - 1 ensures !Contains(r, markers[i]) {
        NotContainsPrefix(init, r, markers[i]);
      }
      r
  }

  /**
   * The `owner/name` part of a GitHub URL: the text after the first
   * `github.com/` (up to a second one), cut before `/tree/`, `/blob/` and
   * `/pkgs/`, without trailing slashes and one trailing `.git`.
   * `None` where the source raises `IndexError`.
   */
  function SlugOf(url: string): Option<string>
  {
    var parts := SplitOn(url, "github.com/");
    if |parts| < 2 then None
    else Some(RemoveSuffix(RStripSet(CutAll(parts[1], SlugCutMarkers), {'/'}), ".git"))
  }

  /** A slug exists exactly for URLs naming github.com, and holds none of the markers. */
  lemma SlugShape(url: string)
    ensures SlugOf(url).Some? <==> Contains(url, "github.com/")
    ensures SlugOf(url).Some? ==>
      var piece := SplitOn(url, "github.com/")[1];
      SlugOf(url).value <= piece
      && forall m :: m in SlugCutMarkers ==> !Contains(SlugOf(url).value, m)
  {
    if Contains(url, "github.com/") {
      var piece := SplitOn(url, "github.com/")[1];
      var cut := CutAll(piece, SlugCutMarkers);
      var stripped := RStripSet(cut, {'/'});
      var slug := SlugOf(url).value;
      forall m | m in SlugCutMarkers ensures !Contains(slug, m) {
        NotContainsPrefix(cut, stripped, m);
        NotContainsPrefix(stripped, slug, m);
      }
    }
  }

  /** The repository-URL loop of `cached_github_stats`. */
  method GithubSlug(url: string) returns (slug: Option<string>)
    ensures slug == SlugOf(url)
  {
    var parts := SplitOn(url, "github.com/");
    if |parts| < 2 {
      return None;
    }
    var repo := parts[1];
    var i := 0;
    while i < |SlugCutMarkers|
      invariant 0 <= i <= |SlugCutMarkers|
      invariant repo == CutAll(parts[1], SlugCutMarkers[..i])
    {
      var marker := SlugCutMarkers[i];
      if Contains(repo, marker) {
        repo := Before(repo, marker);
      }
      assert SlugCutMarkers[..i + 1][..i] == SlugCutMarkers[..i];
      i := i + 1;
    }
    assert SlugCutMarkers[..i] == SlugCutMarkers;
    slug := Some(RemoveSuffix(RStripSet(repo, {'/'}), ".git"));
  }

  /** The SPDX identifier of a record's license, the empty text when the license or its identifier is missing or falsy. */
  function LicenseId(d: Record): Json
  {
    var lic := Get(d, "license");
    if Truthy(lic) && lic.Object? then GetOr(lic.fields, "spdx_id", Str("")) else Str("")
  }

  /** The statistics record built from a 200 answer of the repository API. */
  function RepoStats(payload: Json): (r: Json)
    ensures r.Object?
  {
    var d := if payload.Object? then payload.fields else map[];
    Object(map[
      "github_forks" := GetOr(d, "forks_count", Int(0)),
      "github_stars" := GetOr(d, "stargazers_count", Int(0)),
      "updated_at" := GetOr(d, "updated_at", Str("NA")),
      "created_at" := GetOr(d, "created_at", Str("NA")),
      "pushed_at" := GetOr(d, "pushed_at", Str("NA")),
      "name" := GetOr(d, "full_name", Str("NA")),
      "description" := GetOr(d, "description", Str("")),
      "language" := GetOr(d, "language", Str("")),
      "license" := LicenseId(d),
      "topics" := GetOr(d, "topics", List([]))
    ])
  }

  /** The statistics record has exactly the ten fields the pipeline reads. */
  lemma RepoStatsFields(payload: Json)
    ensures RepoStats(payload).fields.Keys == {"github_forks", "github_stars", "updated_at",
      "created_at", "pushed_at", "name", "description", "language", "license", "topics"}
  {
  }

  /** Missing star and fork counts default to zero. */
  lemma RepoStatsDefaults(payload: Json)
    ensures payload.Object? && "stargazers_count" !in payload.fields ==>
      "github_stars" in RepoStats(payload).fields && RepoStats(payload).fields["github_stars"] == Int(0)
    ensures payload.Object? && "forks_count" !in payload.fields ==>
      "github_forks" in RepoStats(payload).fields && RepoStats(payload).fields["github_forks"] == Int(0)
  {
  }

  /**
   * `cached_github_stats`: a fresh cached value is returned as is;
   * otherwise the repository API is asked (conditionally on the stored
   * ETag); a 304 re-stamps the entry and returns its body, a 200 stores
   * and returns the statistics, any other status stores and returns `None`.
   */
  method CachedGithubStats(cache: Cache, url: string, ttl: int, now: int,
                           get: (string, Option<string>, nat) -> Sent)
    returns (out: Outcome, requests: nat)
    modifies cache
    ensures var slot := cache.SlotOf(url, GithubNamespace);
      var cached := ReadFresh(old(cache.files), slot, ttl, now);
      if cached != Null then out == Returns(cached) && requests == 0 && cache.files == old(cache.files)
      else if SlugOf(url).None? then out == Raises && requests == 0 && cache.files == old(cache.files)
      else
        var entry := ReadEntry(old(cache.files), slot);
        var api := "https://api.github.com/repos/" + SlugOf(url).value;
        var (sent, n) := FinalAnswer(get, api, ConditionalHeader(entry));
        requests == n &&
        if sent.Raised? then out == Raises && cache.files == old(cache.files)
        else if sent.resp.status == 304 && entry.Some? && entry.value.Truthy() then
          out == Returns(entry.value.body.UnwrapOr(Null)) && cache.files == Touched(old(cache.files), slot, now)
        else if sent.resp.status == 200 then
          out == Returns(RepoStats(sent.resp.payload))
          && cache.files == Written(old(cache.files), slot, RepoStats(sent.resp.payload), sent.resp.etag, now)
        else out == Returns(Null) && cache.files == Written(old(cache.files), slot, Null, None, now)
  {
    var cached := cache.Read(url, ttl, GithubNamespace, now);
    if cached != Null {
      return Returns(cached), 0;
    }
    var slug := GithubSlug(url);
    if slug.None? {
      return Raises, 0;
    }
    var api := "https://api.github.com/repos/" + slug.value;
    var sent, entry, n, wait := SendConditional(cache, url, GithubNamespace, api, now, get);
    requests := n;
    if sent.Raised? {
      return Raises, requests;
    }
    var resp := sent.resp;
    if resp.status == 304 && entry.Some? && entry.value.Truthy() {
      cache.Refresh(url, GithubNamespace, now);
      out := Returns(entry.value.body.UnwrapOr(Null));
    } else if resp.status == 200 {
      var result := RepoStats(resp.payload);
      cache.Write(url, result, GithubNamespace, resp.etag, now);
      out := Returns(result);
    } else {
      cache.Write(url, Null, GithubNamespace, None, now);
      out := Returns(Null);
    }
  }

  // ---------------------------------------------------------------------
  // Raw downloads

  const HttpNamespace: string := "http_get"

  /** `raise_for_status`: client and server errors raise. */
  predicate IsHttpError(status: int)
  {
    400 <= status < 600
  }

  /**
   * `_cached_get`: a fresh cached body is returned as is; otherwise the URL
   * is fetched (conditionally on the stored ETag); a 304 with a stored
   * entry re-stamps it and returns its body; an error status raises;
   * anything else stores and returns the response text with its ETag.
   */
  method CachedGet(cache: Cache, url: string, now: int, get: (string, Option<string>, nat) -> Sent)
    returns (out: Outcome, requests: nat)
    modifies cache
    ensures var slot := cache.SlotOf(url, HttpNamespace);
      var cached := ReadFresh(old(cache.files), slot, CacheTtl, now);
      if cached != Null then out == Returns(cached) && requests == 0 && cache.files == old(cache.files)
      else
        var entry := ReadEntry(old(cache.files), slot);
        var (sent, n) := FinalAnswer(get, url, ConditionalHeader(entry));
        requests == n &&
        if sent.Raised? then out == Raises && cache.files == old(cache.files)
        else if sent.resp.status == 304 && entry.Some? && entry.value.Truthy() then
          out == Returns(entry.value.body.UnwrapOr(Null)) && cache.files == Touched(old(cache.files), slot, now)
        else if IsHttpError(sent.resp.status) then out == Raises && cache.files == old(cache.files)
        else
          out == Returns(Str(sent.resp.text))
          && cache.files == Written(old(cache.files), slot, Str(sent.resp.text), sent.resp.etag, now)
  {
    var cached := cache.Read(url, CacheTtl, HttpNamespace, now);
    if cached != Null {
      return Returns(cached), 0;
    }
    var sent, entry, n, wait := SendConditional(cache, url, HttpNamespace, url, now, get);
    requests := n;
    if sent.Raised? {
      return Raises, requests;
    }
    var resp := sent.resp;
    if resp.status == 304 && entry.Some? && entry.value.Truthy() {
      cache.Refresh(url, HttpNamespace, now);
      return Returns(entry.value.body.UnwrapOr(Null)), requests;
    }
    if IsHttpError(resp.status) {
      return Raises, requests;
    }
    cache.Write(url, Str(resp.text), HttpNamespace, resp.etag, now);
    out := Returns(Str(resp.text));
  }

  /** After a successful download the same URL is answered from the cache for 30 days. */
  lemma DownloadIsReused(files: Files, slot: Slot, text: string, etag: Option<string>,
                         written: int, now: int)
    requires written <= now < written + CacheTtl
    ensures ReadFresh(Written(files, slot, Str(text), etag, written), slot, CacheTtl, now) == Str(text)
  {
    ReadAfterWrite(files, slot, Str(text), etag, written, CacheTtl, now);
  }

  // ---------------------------------------------------------------------
  // Zenodo and Figshare record identifiers

  /**
   * The record id `cached_zenodo_stats` asks for: the text after the last
   * `/records/`, else after the last `zenodo.`; `None` when the URL has
   * neither (the source then gives up without caching).
   */
  function ZenodoRecordId(url: string): (r: Option<string>)
    ensures r.Some? <==> Contains(url, "/records/") || Contains(url, "zenodo.")
    ensures Contains(url, "/records/") ==> r == Some(AfterLast(url, "/records/"))
    ensures !Contains(url, "/records/") && Contains(url, "zenodo.") ==> r == Some(AfterLast(url, "zenodo."))
    ensures Contains(url, "/records/") ==>
              EndsWith(url, "/records/" + r.value) && !Contains(r.value, "/records/")
    ensures !Contains(url, "/records/") && Contains(url, "zenodo.") ==>
              EndsWith(url, "zenodo." + r.value) && !Contains(r.value, "zenodo.")
  {
    if Contains(url, "/records/") then Some(AfterLast(url, "/records/"))
    else if Contains(url, "zenodo.") then Some(AfterLast(url, "zenodo."))
    else None
  }

  /** The URL ends in a version suffix `.v1` to `.v9`. */
  predicate HasVersionSuffix(url: string)
  {
    |url| >= 3 && url[|url| - 3..|url| - 1] == ".v" && '1' <= url[|url| - 1] <= '9'
  }

  /**
   * The article id `cached_figshare_stats` asks for: a `.v1`..`.v9`
   * version suffix is dropped, then the text after the last `figshare.`.
   */
  function FigshareArticleId(url: string): (r: string)
    ensures var clean := if HasVersionSuffix(url) then url[..|url| - 3] else url;
      && (!Contains(clean, "figshare.") ==> r == clean)
      && (Contains(clean, "figshare.") ==> EndsWith(clean, "figshare." + r) && !Contains(r, "figshare."))
  {
    var clean := if HasVersionSuffix(url) then url[..|url| - 3] else url;
    AfterLast(clean, "figshare.")
  }
}
