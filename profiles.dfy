/**
 * `generate_author_profiles.py`: one profile per author, merging the
 * artifact authors with their combined-ranking scores and their AE
 * committee service, then adding the AE members who have no artifacts,
 * sorted by combined score, artifact count and name.
 */
module Profiles {
  import opened Wrappers
  import opened Strings
  import opened Seqs
  import opened Dicts
  import opened Json
  import opened Ordering

  // ---------------------------------------------------------------------
  // Names

  /** The name cleaning: white-space runs become single blanks, none at either end. */
  function Clean(s: string): string
  {
    Collapse(s)
  }

  /**
   * A cleaned name has single blanks as its only white space and none at
   * either end, keeps only characters of its input (and blanks), and
   * cleaning it again changes nothing.
   */
  lemma CleanMeaning(s: string)
    ensures Tidy(Clean(s))
    ensures forall c :: c in Clean(s) ==> c in s || c == ' '
    ensures Clean(Clean(s)) == Clean(s)
  {
    CollapseChars(s);
    CollapseIdempotent(s);
  }

  /**
   * The functions below take the name cleaner as a parameter `clean`: the
   * program uses `Clean`, and what the lemmas need of it is only that
   * cleaning twice is cleaning once.
   */
  ghost predicate Idempotent(clean: string -> string)
  {
    forall s :: clean(clean(s)) == clean(s)
  }

  lemma CleanIdempotent()
    ensures Idempotent(Clean)
  {
    forall s ensures Clean(Clean(s)) == Clean(s) {
      CollapseIdempotent(s);
    }
  }

  // ---------------------------------------------------------------------
  // Inputs

  /** One entry of `authors.json`; missing numbers read as 0, a missing category as `unknown`. */
  datatype ArtifactAuthor = ArtifactAuthor(name: string, affiliation: string, papers: Json, conferences: Json,
                                           years: Json, artifactCount: int, totalPapers: int, artifactRate: Json,
                                           available: int, functional: int, reproducible: int, category: string)

  /** One entry of `ae_members.json`: its `years` maps each year to that year's service record. */
  datatype AeMember = AeMember(name: string, affiliation: string, area: string, memberships: int, chairs: int,
                               conferences: Json, years: Dict<int, Json>)

  /** One entry of `combined_rankings.json`. */
  datatype Ranking = Ranking(name: string, affiliation: string, combinedScore: int, artifactScore: int,
                             aeScore: int, rank: int)

  function AuthorName(a: ArtifactAuthor): string
  {
    a.name
  }

  function MemberName(m: AeMember): string
  {
    m.name
  }

  function RankingName(c: Ranking): string
  {
    c.name
  }

  // ---------------------------------------------------------------------
  // The indexes by cleaned name

  function IndexPut<T>(m: map<string, T>, x: T, name: T -> string, clean: string -> string): map<string, T>
  {
    m[clean(name(x)) := x]
  }

  function IndexStep<T>(name: T -> string, clean: string -> string): (map<string, T>, T) -> map<string, T>
  {
    (m: map<string, T>, x: T) => IndexPut(m, x, name, clean)
  }

  /** The entries indexed by cleaned name; a later entry with the same cleaned name replaces an earlier one. */
  function Index<T>(xs: seq<T>, name: T -> string, clean: string -> string): map<string, T>
  {
    Fold(map[], xs, IndexStep(name, clean))
  }

  predicate CleansToName<T>(name: T -> string, clean: string -> string, k: string, x: T)
  {
    clean(name(x)) == k
  }

  function CleansTo<T>(name: T -> string, clean: string -> string, k: string): T -> bool
  {
    (x: T) => CleansToName(name, clean, k, x)
  }

  /** A cleaned name is indexed exactly when some entry cleans to it, and the last such entry wins. */
  lemma {:induction false} IndexMeaning<T>(xs: seq<T>, name: T -> string, clean: string -> string, k: string)
    ensures var last := LastIndex(xs, CleansTo(name, clean, k));
      && (k in Index(xs, name, clean) <==> last.Some?)
      && (last.Some? ==> Index(xs, name, clean)[k] == xs[last.value])
    decreases |xs|
  {
    if |xs| > 0 {
      var n := |xs| - 1;
      IndexMeaning(xs[..n], name, clean, k);
      LastIndexSnoc(xs, n, CleansTo(name, clean, k));
      assert xs[..n + 1] == xs;
    }
  }

  function Lookup<T>(m: map<string, T>, k: string): Option<T>
  {
    if k in m then Some(m[k]) else None
  }

  // ---------------------------------------------------------------------
  // Profiles

  /** The fields copied from the combined ranking. */
  datatype Scores = Scores(combined: int, artifact: int, ae: int, rank: int)

  /** The fields copied from the AE member record. */
  datatype Service = Service(memberships: int, chairs: int, conferences: Json, years: Dict<int, Json>)

  /** One profile; `scores` and `service` are the optional groups of fields. */
  datatype Profile = Profile(name: string, affiliation: string, papers: Json, conferences: Json, years: Json,
                             artifactCount: int, totalPapers: int, artifactRate: Json, available: int,
                             functional: int, reproducible: int, category: string,
                             scores: Option<Scores>, service: Option<Service>)

  function ScoresOf(cr: Option<Ranking>): Option<Scores>
  {
    if cr.Some? then Some(Scores(cr.value.combinedScore, cr.value.artifactScore, cr.value.aeScore, cr.value.rank))
    else None
  }

  function ServiceOf(ae: Option<AeMember>): Option<Service>
  {
    if ae.Some? then Some(Service(ae.value.memberships, ae.value.chairs, ae.value.conferences, ae.value.years))
    else None
  }

  /** The first non-empty affiliation, cleaned. */
  function Affiliation(own: string, cr: Option<Ranking>, ae: Option<AeMember>, clean: string -> string): string
  {
    clean(if own != "" then own
          else if cr.Some? && cr.value.affiliation != "" then cr.value.affiliation
          else if ae.Some? then ae.value.affiliation
          else "")
  }

  /**
   * The affiliation is the author's own when non-empty, else the ranking's,
   * else the AE record's, and always cleaned.
   */
  lemma AffiliationMeaning(own: string, cr: Option<Ranking>, ae: Option<AeMember>)
    ensures own != "" ==> Affiliation(own, cr, ae, Clean) == Clean(own)
    ensures own == "" && cr.Some? && cr.value.affiliation != "" ==>
      Affiliation(own, cr, ae, Clean) == Clean(cr.value.affiliation)
    ensures own == "" && !(cr.Some? && cr.value.affiliation != "") && ae.Some? ==>
      Affiliation(own, cr, ae, Clean) == Clean(ae.value.affiliation)
    ensures own == "" && !(cr.Some? && cr.value.affiliation != "") && ae.None? ==>
      Affiliation(own, cr, ae, Clean) == ""
    ensures Tidy(Affiliation(own, cr, ae, Clean))
  {
    var raw := if own != "" then own
               else if cr.Some? && cr.value.affiliation != "" then cr.value.affiliation
               else if ae.Some? then ae.value.affiliation
               else "";
    assert Affiliation(own, cr, ae, Clean) == Clean(raw);
    CleanMeaning(raw);
    if raw == "" {
      CleanEmpty();
    }
  }

  lemma CleanEmpty()
    ensures Clean("") == ""
  {
    assert Squash("") == "";
  }

  /** The profile built for artifact author `a`. */
  function AuthorProfile(a: ArtifactAuthor, crs: map<string, Ranking>, aes: map<string, AeMember>,
                         clean: string -> string): Profile
  {
    var name := clean(a.name);
    var cr := Lookup(crs, name);
    var ae := Lookup(aes, name);
    Profile(name, Affiliation(a.affiliation, cr, ae, clean), a.papers, a.conferences, a.years, a.artifactCount,
            a.totalPapers, a.artifactRate, a.available, a.functional, a.reproducible, a.category,
            ScoresOf(cr), ServiceOf(ae))
  }

  /** The service years of a member, ascending. */
  ghost function YearList(years: Dict<int, Json>): seq<Json>
  {
    MapSeq(SortedInts(set y | y in years.values), IntJson)
  }

  function IntJson(y: int): Json
  {
    Int(y)
  }

  /** The profile built for an AE member without artifacts. */
  ghost function MemberProfile(m: AeMember, crs: map<string, Ranking>, clean: string -> string): Profile
  {
    var name := clean(m.name);
    var cr := Lookup(crs, name);
    Profile(name, Affiliation(m.affiliation, cr, None, clean), List([]), m.conferences, List(YearList(m.years)), 0, 0,
            Int(0), 0, 0, 0, m.area, ScoresOf(cr), Some(Service(m.memberships, m.chairs, m.conferences, m.years)))
  }

  /**
   * An AE-only profile has no papers and zero artifact counts, lists the
   * member's years in increasing order, and carries their service record.
   */
  lemma MemberProfileMeaning(m: AeMember, crs: map<string, Ranking>, clean: string -> string)
    ensures var p := MemberProfile(m, crs, clean);
      && p.name == clean(m.name)
      && p.papers == List([]) && p.artifactCount == 0 && p.totalPapers == 0
      && p.available == 0 && p.functional == 0 && p.reproducible == 0
      && p.years.List?
      && (forall i, j :: 0 <= i < j < |p.years.items| ==> p.years.items[i].i < p.years.items[j].i)
      && (forall y :: Int(y) in p.years.items <==> y in m.years.values)
      && p.service == Some(Service(m.memberships, m.chairs, m.conferences, m.years))
  {
    var ys := SortedInts(set y | y in m.years.values);
    var items := MapSeq(ys, IntJson);
    forall y ensures Int(y) in items <==> y in m.years.values {
      if Int(y) in items {
        var i :| 0 <= i < |items| && items[i] == Int(y);
        assert IntJson(ys[i]) == Int(y);
        assert ys[i] in ys;
      }
      if y in m.years.values {
        assert y in (set y | y in m.years.values);
        assert y in ys;
        var i :| 0 <= i < |ys| && ys[i] == y;
        assert items[i] == Int(y);
      }
    }
  }

  // ---------------------------------------------------------------------
  // The two loops filling `profiles`

  function AddAuthor(d: Dict<string, Profile>, a: ArtifactAuthor, crs: map<string, Ranking>,
                     aes: map<string, AeMember>, clean: string -> string): Dict<string, Profile>
  {
    Put(d, clean(a.name), AuthorProfile(a, crs, aes, clean))
  }

  function AuthorStep(crs: map<string, Ranking>, aes: map<string, AeMember>, clean: string -> string)
    : (Dict<string, Profile>, ArtifactAuthor) -> Dict<string, Profile>
  {
    (d: Dict<string, Profile>, a: ArtifactAuthor) => AddAuthor(d, a, crs, aes, clean)
  }

  /** An AE member whose cleaned name has no profile yet is added under their raw name. */
  ghost function AddMember(d: Dict<string, Profile>, m: AeMember, crs: map<string, Ranking>,
                           clean: string -> string): Dict<string, Profile>
  {
    if clean(m.name) in d.values then d else Put(d, m.name, MemberProfile(m, crs, clean))
  }

  ghost function MemberStep(crs: map<string, Ranking>, clean: string -> string)
    : (Dict<string, Profile>, AeMember) -> Dict<string, Profile>
  {
    (d: Dict<string, Profile>, m: AeMember) => AddMember(d, m, crs, clean)
  }

  function Rankings(combined: seq<Ranking>, clean: string -> string): map<string, Ranking>
  {
    Index(combined, RankingName, clean)
  }

  function Members(members: seq<AeMember>, clean: string -> string): map<string, AeMember>
  {
    Index(members, MemberName, clean)
  }

  /** `profiles` after the loop over the artifact authors. */
  function AuthorProfiles(authors: seq<ArtifactAuthor>, members: seq<AeMember>, combined: seq<Ranking>,
                          clean: string -> string): Dict<string, Profile>
  {
    Fold(Empty(), authors, AuthorStep(Rankings(combined, clean), Members(members, clean), clean))
  }

  /** `profiles` after both loops. */
  ghost function AllProfiles(authors: seq<ArtifactAuthor>, members: seq<AeMember>, combined: seq<Ranking>,
                             clean: string -> string): Dict<string, Profile>
  {
    Fold(AuthorProfiles(authors, members, combined, clean), members, MemberStep(Rankings(combined, clean), clean))
  }

  /** Every key's profile is named by the cleaned key. */
  ghost predicate NamesAgree(d: Dict<string, Profile>, clean: string -> string)
  {
    forall k :: k in d.values ==> d.values[k].name == clean(k)
  }

  /**
   * After the first loop the profiles are keyed by cleaned author names,
   * one per cleaned name, from the last author with that name.
   */
  lemma {:induction false} AuthorProfilesAt(authors: seq<ArtifactAuthor>, members: seq<AeMember>,
                                            combined: seq<Ranking>, clean: string -> string, k: string)
    ensures var d := AuthorProfiles(authors, members, combined, clean);
      var last := LastIndex(authors, CleansTo(AuthorName, clean, k));
      && d.Valid()
      && (k in d.values <==> last.Some?)
      && (last.Some? ==> d.values[k] == AuthorProfile(authors[last.value], Rankings(combined, clean),
                                                      Members(members, clean), clean))
    decreases |authors|
  {
    if |authors| > 0 {
      var n := |authors| - 1;
      AuthorProfilesAt(authors[..n], members, combined, clean, k);
      LastIndexSnoc(authors, n, CleansTo(AuthorName, clean, k));
      assert authors[..n + 1] == authors;
    }
  }

  /** The step of the second loop keeps every cleaned key and agreeing names. */
  lemma MemberStepKeeps(d: Dict<string, Profile>, m: AeMember, crs: map<string, Ranking>, clean: string -> string,
                        k: string)
    requires k in d.values && clean(k) == k
    ensures k in AddMember(d, m, crs, clean).values && AddMember(d, m, crs, clean).values[k] == d.values[k]
  {
    if clean(m.name) !in d.values {
      assert m.name != k;
    }
  }

  /** The second loop never replaces the profile stored under a clean key. */
  lemma {:induction false} MembersKeep(d: Dict<string, Profile>, members: seq<AeMember>, crs: map<string, Ranking>,
                                       clean: string -> string, k: string)
    requires k in d.values && clean(k) == k
    ensures var r := Fold(d, members, MemberStep(crs, clean));
      k in r.values && r.values[k] == d.values[k]
    decreases |members|
  {
    if |members| > 0 {
      var n := |members| - 1;
      MembersKeep(d, members[..n], crs, clean, k);
      MemberStepKeeps(Fold(d, members[..n], MemberStep(crs, clean)), members[n], crs, clean, k);
    }
  }

  lemma {:induction false} AuthorNamesAgree(authors: seq<ArtifactAuthor>, members: seq<AeMember>,
                                            combined: seq<Ranking>, clean: string -> string)
    requires Idempotent(clean)
    ensures NamesAgree(AuthorProfiles(authors, members, combined, clean), clean)
    decreases |authors|
  {
    if |authors| > 0 {
      var n := |authors| - 1;
      AuthorNamesAgree(authors[..n], members, combined, clean);
      assert clean(clean(authors[n].name)) == clean(authors[n].name);
    }
  }

  /**
   * An artifact author's profile survives the second loop: it is built from
   * the last author with that cleaned name, and carries scores (or service)
   * exactly when some ranking (or AE) entry has that cleaned name, taken
   * from the last such entry.
   */
  lemma AuthorProfileMeaning(authors: seq<ArtifactAuthor>, members: seq<AeMember>, combined: seq<Ranking>,
                             clean: string -> string, i: nat)
    requires Idempotent(clean) && i < |authors|
    ensures var k := clean(authors[i].name);
      var d := AllProfiles(authors, members, combined, clean);
      var j := LastIndex(authors, CleansTo(AuthorName, clean, k));
      var c := LastIndex(combined, CleansTo(RankingName, clean, k));
      var e := LastIndex(members, CleansTo(MemberName, clean, k));
      && j.Some? && k in d.values
      && d.values[k].name == k
      && (d.values[k].scores.Some? <==> c.Some?)
      && (c.Some? ==> d.values[k].scores == ScoresOf(Some(combined[c.value])))
      && (d.values[k].service.Some? <==> e.Some?)
      && (e.Some? ==> d.values[k].service == ServiceOf(Some(members[e.value])))
      && d.values[k].artifactCount == authors[j.value].artifactCount
  {
    var k := clean(authors[i].name);
    assert CleansToName(AuthorName, clean, k, authors[i]);
    AuthorProfilesAt(authors, members, combined, clean, k);
    assert clean(k) == k;
    MembersKeep(AuthorProfiles(authors, members, combined, clean), members, Rankings(combined, clean), clean, k);
    IndexMeaning(combined, RankingName, clean, k);
    IndexMeaning(members, MemberName, clean, k);
    var j := LastIndex(authors, CleansTo(AuthorName, clean, k)).value;
    assert clean(authors[j].name) == k;
  }

  /** The step of the second loop keeps the dict well formed and the names agreeing. */
  lemma MemberStepFormed(d: Dict<string, Profile>, m: AeMember, crs: map<string, Ranking>, clean: string -> string)
    requires d.Valid() && NamesAgree(d, clean)
    ensures var r := AddMember(d, m, crs, clean);
      && r.Valid() && NamesAgree(r, clean)
      && (forall k :: k in d.values ==> k in r.values)
      && (clean(m.name) in r.values || m.name in r.values)
  {
  }

  /**
   * After both loops the dict is well formed, every profile is named by its
   * cleaned key, and every AE member has a profile named by their cleaned
   * name, stored under that name or under their raw name.
   */
  lemma MembersAdded(authors: seq<ArtifactAuthor>, members: seq<AeMember>, combined: seq<Ranking>,
                     clean: string -> string)
    requires Idempotent(clean)
    ensures var d := AllProfiles(authors, members, combined, clean);
      d.Valid() && NamesAgree(d, clean)
    ensures var d := AllProfiles(authors, members, combined, clean);
      forall i :: 0 <= i < |members| ==> clean(members[i].name) in d.values || members[i].name in d.values
  {
    AuthorProfilesAt(authors, members, combined, clean, "");
    AuthorNamesAgree(authors, members, combined, clean);
    MembersFold(AuthorProfiles(authors, members, combined, clean), members, Rankings(combined, clean), clean);
  }

  lemma {:induction false} MembersFold(d0: Dict<string, Profile>, members: seq<AeMember>, crs: map<string, Ranking>,
                                       clean: string -> string)
    requires d0.Valid() && NamesAgree(d0, clean)
    ensures var r := Fold(d0, members, MemberStep(crs, clean));
      && r.Valid() && NamesAgree(r, clean)
      && forall i :: 0 <= i < |members| ==> clean(members[i].name) in r.values || members[i].name in r.values
    decreases |members|
  {
    if |members| > 0 {
      var n := |members| - 1;
      MembersFold(d0, members[..n], crs, clean);
      var d := Fold(d0, members[..n], MemberStep(crs, clean));
      var m := members[n];
      assert Fold(d0, members, MemberStep(crs, clean)) == AddMember(d, m, crs, clean);
      MemberStepFormed(d, m, crs, clean);
      forall i | 0 <= i < n
        ensures clean(members[i].name) in d.values || members[i].name in d.values
      {
        assert members[..n][i] == members[i];
      }
    }
  }

  /**
   * Because the presence test cleans the name but the insert does not, two
   * AE-only members whose names clean alike are both kept, as two profiles
   * with the same name, when the first one's raw name is not clean.
   */
  lemma RawKeysRepeatNames(d: Dict<string, Profile>, m1: AeMember, m2: AeMember, crs: map<string, Ranking>,
                           clean: string -> string)
    requires clean(m1.name) !in d.values && m1.name != clean(m1.name)
    requires clean(m2.name) == clean(m1.name) && m2.name != m1.name
    ensures var r := AddMember(AddMember(d, m1, crs, clean), m2, crs, clean);
      && m1.name in r.values && m2.name in r.values
      && r.values[m1.name].name == r.values[m2.name].name == clean(m1.name)
  {
  }

  // ---------------------------------------------------------------------
  // The output order

  function ScoreOf(p: Profile): int
  {
    if p.scores.Some? then p.scores.value.combined else 0
  }

  /** The profile order: a higher combined score first, then more artifacts, then the name in ascending order. */
  predicate Precedes(x: Profile, y: Profile)
  {
    ScoreOf(x) > ScoreOf(y)
    || (ScoreOf(x) == ScoreOf(y)
        && (x.artifactCount > y.artifactCount || (x.artifactCount == y.artifactCount && StrLt(x.name, y.name))))
  }

  function ByKey(): (Profile, Profile) -> bool
  {
    (x: Profile, y: Profile) => Precedes(x, y)
  }

  lemma ByKeyStrict()
    ensures StrictOrder(ByKey())
  {
    forall x: Profile ensures !Precedes(x, x) {
      StrLtIrreflexive(x.name);
    }
    forall x: Profile, y: Profile, z: Profile | Precedes(x, y) && Precedes(y, z)
      ensures Precedes(x, z)
    {
      if ScoreOf(x) == ScoreOf(y) == ScoreOf(z) && x.artifactCount == y.artifactCount == z.artifactCount {
        StrLtTransitive(x.name, y.name, z.name);
      }
    }
  }

  function ValueAt(d: Dict<string, Profile>, k: string): Option<Profile>
  {
    Lookup(d.values, k)
  }

  function ValueIn(d: Dict<string, Profile>): string -> Option<Profile>
  {
    (k: string) => ValueAt(d, k)
  }

  /** The profiles in insertion order of their keys. */
  function Values(d: Dict<string, Profile>): seq<Profile>
  {
    FilterMap(d.keys, ValueIn(d))
  }

  /** The profiles sorted by the profile order. */
  function SortProfiles(ps: seq<Profile>): (r: seq<Profile>)
    ensures multiset(r) == multiset(ps) && SortedBy(r, ByKey())
  {
    ByKeyStrict();
    SortBy(ps, ByKey())
  }

  /** The profile list written to `author_profiles.json`. */
  ghost function ProfileList(authors: seq<ArtifactAuthor>, members: seq<AeMember>, combined: seq<Ranking>,
                             clean: string -> string): seq<Profile>
  {
    SortProfiles(Values(AllProfiles(authors, members, combined, clean)))
  }

  /**
   * The list holds one profile per key of `profiles`, sorted by the key; in
   * particular every artifact author's profile is in it.
   */
  lemma ProfileListMeaning(authors: seq<ArtifactAuthor>, members: seq<AeMember>, combined: seq<Ranking>,
                           clean: string -> string, i: nat)
    requires Idempotent(clean) && i < |authors|
    ensures var d := AllProfiles(authors, members, combined, clean);
      var r := ProfileList(authors, members, combined, clean);
      && SortedBy(r, ByKey())
      && |r| == |d.keys|
      && clean(authors[i].name) in d.values
      && d.values[clean(authors[i].name)] in r
  {
    var d := AllProfiles(authors, members, combined, clean);
    var k := clean(authors[i].name);
    MembersAdded(authors, members, combined, clean);
    AuthorProfileMeaning(authors, members, combined, clean, i);
    ValuesAll(d);
    var j :| 0 <= j < |d.keys| && d.keys[j] == k;
    FilterMapKeeps(d.keys, ValueIn(d), j);
    assert d.values[k] in multiset(Values(d));
  }

  lemma {:induction false} ValuesAllFrom(d: Dict<string, Profile>, ks: seq<string>)
    requires forall i :: 0 <= i < |ks| ==> ks[i] in d.values
    ensures |FilterMap(ks, ValueIn(d))| == |ks|
    decreases |ks|
  {
    if |ks| > 0 {
      var n := |ks| - 1;
      assert forall i :: 0 <= i < n ==> ks[..n][i] == ks[i];
      ValuesAllFrom(d, ks[..n]);
    }
  }

  /** A well-formed dict has one value per key. */
  lemma ValuesAll(d: Dict<string, Profile>)
    requires d.Valid()
    ensures |Values(d)| == |d.keys|
  {
    ValuesAllFrom(d, d.keys);
  }

  // ---------------------------------------------------------------------
  // The method

  /** The profile of an AE member without artifacts, with its years sorted. */
  method BuildMemberProfile(m: AeMember, crs: map<string, Ranking>, clean: string -> string, name: string)
    returns (p: Profile)
    requires name == clean(m.name)
    ensures p == MemberProfile(m, crs, clean)
  {
    var cr := Lookup(crs, name);
    var ys := SortInts(set y | y in m.years.values);
    var years := MapSeq(ys, IntJson);
    p := Profile(name, Affiliation(m.affiliation, cr, None, clean), List([]), m.conferences, List(years), 0, 0,
                 Int(0), 0, 0, 0, m.area, ScoresOf(cr), Some(Service(m.memberships, m.chairs, m.conferences, m.years)));
  }

  /** The loop over the artifact authors. */
  method AddAuthors(authors: seq<ArtifactAuthor>, crs: map<string, Ranking>, aes: map<string, AeMember>,
                    clean: string -> string) returns (profiles: Dict<string, Profile>)
    ensures profiles == Fold(Empty(), authors, AuthorStep(crs, aes, clean))
  {
    profiles := Empty();
    for i := 0 to |authors|
      invariant profiles == Fold(Empty(), authors[..i], AuthorStep(crs, aes, clean))
    {
      assert authors[..i + 1][..i] == authors[..i];
      profiles := AddAuthor(profiles, authors[i], crs, aes, clean);
    }
    assert authors[..|authors|] == authors;
  }

  /** One step of the loop over the AE members. */
  method AddMemberStep(d: Dict<string, Profile>, m: AeMember, crs: map<string, Ranking>, clean: string -> string)
    returns (r: Dict<string, Profile>)
    ensures r == AddMember(d, m, crs, clean)
  {
    r := d;
    var name := clean(m.name);
    if name !in d.values {
      var p := BuildMemberProfile(m, crs, clean, name);
      r := Put(d, m.name, p);
    }
  }

  /** The loop over the AE members. */
  method AddMembers(d: Dict<string, Profile>, members: seq<AeMember>, crs: map<string, Ranking>,
                    clean: string -> string) returns (profiles: Dict<string, Profile>)
    ensures profiles == Fold(d, members, MemberStep(crs, clean))
  {
    profiles := d;
    for i := 0 to |members|
      invariant profiles == Fold(d, members[..i], MemberStep(crs, clean))
    {
      assert members[..i + 1][..i] == members[..i];
      profiles := AddMemberStep(profiles, members[i], crs, clean);
    }
    assert members[..|members|] == members;
  }

  /** `generate_profiles`, without the file reads and the JSON write. */
  method GenerateProfiles(authors: seq<ArtifactAuthor>, members: seq<AeMember>, combined: seq<Ranking>)
    returns (r: seq<Profile>)
    ensures r == ProfileList(authors, members, combined, Clean)
  {
    var aes := Members(members, Clean);
    var crs := Rankings(combined, Clean);
    var profiles := AddAuthors(authors, crs, aes, Clean);
    profiles := AddMembers(profiles, members, crs, Clean);
    r := SortProfiles(Values(profiles));
  }
}
