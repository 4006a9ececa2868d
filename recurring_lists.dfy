/**
 * The output half of the recurring-member computation: the invariants the
 * member records keep, the "recurring" filter, the area label, the output
 * profile of a record (for all areas and for systems or security alone),
 * the order of the three lists, and the summary counts.
 */
module RecurringLists {
  import opened Wrappers
  import opened Strings
  import opened Seqs
  import opened Dicts
  import opened Ordering
  import opened CommitteeStats
  import opened Recurring

  // ---------------------------------------------------------------------
  // What every record of the member map keeps

  /** The years of a track are exactly its counted years, each counted at least once. */
  predicate TrackFormed(t: Track)
  {
    t.years == t.yearsCount.Keys && forall y :: y in t.yearsCount ==> t.yearsCount[y] > 0
  }

  /**
   * A record's invariants: formed tracks, an area set holding exactly the
   * areas with a membership, and area counters that never exceed the
   * overall ones.
   */
  predicate PersonFormed(p: Person)
  {
    TrackFormed(p.overall) && TrackFormed(p.systems) && TrackFormed(p.security)
    && p.areas <= {"systems", "security"}
    && ("systems" in p.areas <==> p.systems.memberships > 0)
    && ("security" in p.areas <==> p.security.memberships > 0)
    && p.systems.memberships + p.security.memberships <= p.overall.memberships
    && p.systems.chairs + p.security.chairs <= p.overall.chairs
  }

  lemma CreditFormed(t: Track, conf: string, year: Option<nat>, chair: bool)
    requires TrackFormed(t)
    ensures TrackFormed(Credit(t, conf, year, chair))
  {
  }

  /** One more membership keeps a record's invariants. */
  lemma UpdateFormed(p: Person, raw: string, aff: string, conf: string, year: Option<nat>, area: string, chair: bool)
    requires PersonFormed(p)
    ensures PersonFormed(Update(p, raw, aff, conf, year, area, chair))
  {
    CreditFormed(p.overall, conf, year, chair);
    CreditFormed(p.systems, conf, year, chair);
    CreditFormed(p.security, conf, year, chair);
  }

  /** Every record of a member map keeps the invariants. */
  ghost predicate MapFormed(d: People)
  {
    forall k :: k in d.values ==> PersonFormed(d.values[k])
  }

  lemma AttendFormed(d: People, s: Service, area: map<string, string>, rules: NameRules)
    requires MapFormed(d)
    ensures MapFormed(Attend(d, s, area, rules))
  {
    if RawName(s) != "" {
      var p := Prior(d, s, rules);
      assert PersonFormed(p);
      UpdateFormed(p, RawName(s), AffOf(s), ExtractConfYear(s.confYear).0, YearOf(s),
                   AreaOf(area, s.confYear), Role(s.member) == "chair");
      var r := Attend(d, s, area, rules);
      forall k | k in r.values
        ensures PersonFormed(r.values[k])
      {
        if ServedAs(s, rules, k) {
          AttendServed(d, s, area, rules, k);
        } else {
          AttendElsewhere(d, s, area, rules, k);
        }
      }
    }
  }

  lemma {:induction false} MemberMapFormed(ss: seq<Service>, area: map<string, string>, rules: NameRules)
    ensures MapFormed(MemberMap(ss, area, rules))
    decreases |ss|
  {
    if |ss| > 0 {
      MemberMapFormed(ss[..|ss| - 1], area, rules);
      AttendFormed(MemberMap(ss[..|ss| - 1], area, rules), ss[|ss| - 1], area, rules);
    }
  }

  // ---------------------------------------------------------------------
  // The recurring filter and the area label

  /** At least two memberships, or any chair role. */
  predicate Active(t: Track)
  {
    t.memberships >= 2 || t.chairs > 0
  }

  /** Whoever is recurring in one area is recurring overall. */
  lemma AreaActive(p: Person, scope: Scope)
    requires PersonFormed(p)
    ensures Active(TrackOf(p, scope)) ==> Active(p.overall)
  {
  }

  /** `both`, `systems`, `security` or `unknown`, from the areas seen. */
  function AreaLabel(areas: set<string>): string
  {
    if "systems" in areas && "security" in areas then "both"
    else if "systems" in areas then "systems"
    else if "security" in areas then "security"
    else "unknown"
  }

  /** The label of a record says which of its area counters are non-zero. */
  lemma AreaLabelMeaning(p: Person)
    requires PersonFormed(p)
    ensures AreaLabel(p.areas) == "both" <==> p.systems.memberships > 0 && p.security.memberships > 0
    ensures AreaLabel(p.areas) == "systems" <==> p.systems.memberships > 0 && p.security.memberships == 0
    ensures AreaLabel(p.areas) == "security" <==> p.systems.memberships == 0 && p.security.memberships > 0
    ensures AreaLabel(p.areas) == "unknown" <==> p.systems.memberships == 0 && p.security.memberships == 0
  {
  }

  // ---------------------------------------------------------------------
  // Output profiles

  /**
   * One output entry: display name, affiliation, the memberships and chair
   * roles of the scope, its conferences in ascending order, the area label,
   * the per-year counts in ascending year order, and the first and last year.
   */
  datatype Profile = Profile(name: string, affiliation: string, memberships: nat, chairs: nat,
                             conferences: seq<string>, area: string, years: seq<(nat, nat)>,
                             firstYear: Option<nat>, lastYear: Option<nat>)

  ghost function YearList(t: Track): (ys: seq<nat>)
  {
    NatOrderStrictTotal();
    SortedSet(t.years, NatOrder())
  }

  ghost function ConferenceList(t: Track): (cs: seq<string>)
  {
    StrOrderStrictTotal();
    SortedSet(t.conferences, StrOrder())
  }

  /** Each listed year with its count. */
  function YearPairs(ys: seq<nat>, t: Track): (r: seq<(nat, nat)>)
    ensures |r| == |ys|
  {
    seq(|ys|, i requires 0 <= i < |ys| => (ys[i], YearCount(t, ys[i])))
  }

  function First(ys: seq<nat>): Option<nat>
  {
    if |ys| == 0 then None else Some(ys[0])
  }

  function Last(ys: seq<nat>): Option<nat>
  {
    if |ys| == 0 then None else Some(ys[|ys| - 1])
  }

  /** The output entry of a record for one scope. */
  ghost function ProfileOf(p: Person, scope: Scope): Profile
  {
    var t := TrackOf(p, scope);
    var ys := YearList(t);
    Profile(p.name, p.affiliation, t.memberships, t.chairs, ConferenceList(t), AreaLabel(p.areas),
            YearPairs(ys, t), First(ys), Last(ys))
  }

  /** The entry carries the record's name, affiliation, counters and label, and its conferences in strictly ascending order. */
  lemma ProfileFields(p: Person, scope: Scope)
    ensures var pr := ProfileOf(p, scope); var t := TrackOf(p, scope);
      pr.name == p.name && pr.affiliation == p.affiliation && pr.area == AreaLabel(p.areas)
      && pr.memberships == t.memberships && pr.chairs == t.chairs
      && AscendingBy(pr.conferences, StrOrder())
      && forall c :: c in pr.conferences <==> c in t.conferences
  {
  }

  /**
   * The per-year part of an entry: the years in strictly ascending order,
   * exactly the track's years, each with its positive count.
   */
  lemma ProfileYears(p: Person, scope: Scope)
    requires TrackFormed(TrackOf(p, scope))
    ensures var pr := ProfileOf(p, scope); var t := TrackOf(p, scope);
      (forall i, j :: 0 <= i < j < |pr.years| ==> pr.years[i].0 < pr.years[j].0)
      && (forall i :: 0 <= i < |pr.years| ==> pr.years[i].0 in t.years && pr.years[i].1 == t.yearsCount[pr.years[i].0] > 0)
      && (forall y :: y in t.years ==> exists i :: 0 <= i < |pr.years| && pr.years[i].0 == y)
  {
    var t := TrackOf(p, scope);
    var ys := YearList(t);
    var pairs := YearPairs(ys, t);
    assert AscendingBy(ys, NatOrder());
    assert forall x :: x in ys <==> x in t.years;
    forall y | y in t.years
      ensures exists i :: 0 <= i < |pairs| && pairs[i].0 == y
    {
      var i :| 0 <= i < |ys| && ys[i] == y;
      assert pairs[i].0 == y;
    }
  }

  /**
   * The first year of an entry is the least year of the track and the last
   * the greatest; both are absent exactly when there is no year.
   */
  lemma ProfileSpan(p: Person, scope: Scope)
    ensures var pr := ProfileOf(p, scope); var t := TrackOf(p, scope);
      (pr.firstYear.None? <==> t.years == {}) && (pr.lastYear.None? <==> t.years == {})
      && (pr.firstYear.Some? ==> pr.firstYear.value in t.years && forall y :: y in t.years ==> pr.firstYear.value <= y)
      && (pr.lastYear.Some? ==> pr.lastYear.value in t.years && forall y :: y in t.years ==> y <= pr.lastYear.value)
  {
    var t := TrackOf(p, scope);
    var ys := YearList(t);
    assert AscendingBy(ys, NatOrder());
    assert forall x :: x in ys <==> x in t.years;
    if |ys| > 0 {
      forall y | y in t.years
        ensures ys[0] <= y <= ys[|ys| - 1]
      {
        var i :| 0 <= i < |ys| && ys[i] == y;
        assert i > 0 ==> NatOrder()(ys[0], ys[i]);
        assert i < |ys| - 1 ==> NatOrder()(ys[i], ys[|ys| - 1]);
      }
    } else {
      assert forall y :: y !in t.years;
    }
  }

  // ---------------------------------------------------------------------
  // The order of the lists

  /** More memberships first, then more chair roles, then the name in code-point order. */
  function ProfileOrder(): (Profile, Profile) -> bool
  {
    (a: Profile, b: Profile) =>
      a.memberships > b.memberships
      || (a.memberships == b.memberships
          && (a.chairs > b.chairs || (a.chairs == b.chairs && StrLt(a.name, b.name))))
  }

  lemma ProfileOrderStrict()
    ensures StrictOrder(ProfileOrder())
  {
    forall a: Profile
      ensures !ProfileOrder()(a, a)
    {
      StrLtIrreflexive(a.name);
    }
    forall a: Profile, b: Profile, c: Profile | ProfileOrder()(a, b) && ProfileOrder()(b, c)
      ensures ProfileOrder()(a, c)
    {
      if StrLt(a.name, b.name) && StrLt(b.name, c.name) {
        StrLtTransitive(a.name, b.name, c.name);
      }
    }
  }

  /** Two entries with different names are always ordered one way or the other. */
  lemma ProfileOrderTotal(a: Profile, b: Profile)
    requires a.name != b.name
    ensures ProfileOrder()(a, b) || ProfileOrder()(b, a)
  {
    StrLtTotal(a.name, b.name);
  }

  /** The list sorted by the entry order: more memberships first, then more chair roles, then the name. */
  function SortProfiles(ps: seq<Profile>): (r: seq<Profile>)
    ensures multiset(r) == multiset(ps)
    ensures SortedBy(r, ProfileOrder())
  {
    ProfileOrderStrict();
    SortBy(ps, ProfileOrder())
  }

  // ---------------------------------------------------------------------
  // The three lists

  /** The keys of `ks` whose records pass the recurring filter, in order. */
  function RecurringKeys(d: People, ks: seq<string>): seq<string>
    decreases |ks|
  {
    if |ks| == 0 then []
    else
      var k := ks[|ks| - 1];
      RecurringKeys(d, ks[..|ks| - 1]) + (if Active(PersonOf(d, k).overall) then [k] else [])
  }

  lemma {:induction false} RecurringKeysMember(d: People, ks: seq<string>, k: string)
    ensures k in RecurringKeys(d, ks) <==> k in ks && Active(PersonOf(d, k).overall)
    decreases |ks|
  {
    if |ks| > 0 {
      RecurringKeysMember(d, ks[..|ks| - 1], k);
      assert ks == ks[..|ks| - 1] + [ks[|ks| - 1]];
    }
  }

  /** The entries for `scope` of the keys of `ks` that pass that scope's filter, in order. */
  ghost function Listing(d: People, ks: seq<string>, scope: Scope): seq<Profile>
    decreases |ks|
  {
    if |ks| == 0 then []
    else
      var p := PersonOf(d, ks[|ks| - 1]);
      Listing(d, ks[..|ks| - 1], scope) + (if Active(TrackOf(p, scope)) then [ProfileOf(p, scope)] else [])
  }

  lemma PersonOfFormed(d: People, k: string)
    requires MapFormed(d)
    ensures PersonFormed(PersonOf(d, k))
  {
  }

  /**
   * The area lists are built from the recurring records only, and lose
   * nobody by it: whoever passes an area's filter passes the overall one.
   */
  lemma {:induction false} AreaListsComplete(d: People, ks: seq<string>, scope: Scope)
    requires MapFormed(d)
    ensures Listing(d, RecurringKeys(d, ks), scope) == Listing(d, ks, scope)
    decreases |ks|
  {
    if |ks| > 0 {
      var init := ks[..|ks| - 1];
      var k := ks[|ks| - 1];
      AreaListsComplete(d, init, scope);
      PersonOfFormed(d, k);
      AreaActive(PersonOf(d, k), scope);
      var rk := RecurringKeys(d, init);
      var p := PersonOf(d, k);
      var tail := if Active(TrackOf(p, scope)) then [ProfileOf(p, scope)] else [];
      assert Listing(d, ks, scope) == Listing(d, init, scope) + tail;
      if Active(p.overall) {
        assert RecurringKeys(d, ks) == rk + [k];
        assert (rk + [k])[..|rk|] == rk;
        assert Listing(d, rk + [k], scope) == Listing(d, rk, scope) + tail;
      } else {
        assert RecurringKeys(d, ks) == rk;
      }
    }
  }

  /** Every listed entry is the entry of a listed key that passes the filter. */
  lemma {:induction false} ListingMember(d: People, ks: seq<string>, scope: Scope, pr: Profile)
    requires pr in Listing(d, ks, scope)
    ensures exists k :: k in ks && Active(TrackOf(PersonOf(d, k), scope)) && pr == ProfileOf(PersonOf(d, k), scope)
    decreases |ks|
  {
    var init := ks[..|ks| - 1];
    var k := ks[|ks| - 1];
    if pr in Listing(d, init, scope) {
      ListingMember(d, init, scope, pr);
      var j :| j in init && Active(TrackOf(PersonOf(d, j), scope)) && pr == ProfileOf(PersonOf(d, j), scope);
      assert j in ks;
    } else {
      assert k in ks;
    }
  }

  /** Every key that passes the filter has its entry listed. */
  lemma {:induction false} ListingComplete(d: People, ks: seq<string>, scope: Scope, k: string)
    requires k in ks && Active(TrackOf(PersonOf(d, k), scope))
    ensures ProfileOf(PersonOf(d, k), scope) in Listing(d, ks, scope)
    decreases |ks|
  {
    var init := ks[..|ks| - 1];
    if k != ks[|ks| - 1] {
      assert k in init;
      ListingComplete(d, init, scope, k);
    }
  }

  // ---------------------------------------------------------------------
  // Summary and result

  /** The largest membership count of a list, 0 for an empty one. */
  function MaxMemberships(ps: seq<Profile>): (m: nat)
    ensures forall i :: 0 <= i < |ps| ==> ps[i].memberships <= m
    ensures |ps| == 0 ==> m == 0
    ensures |ps| > 0 ==> exists i :: 0 <= i < |ps| && ps[i].memberships == m
    decreases |ps|
  {
    if |ps| == 0 then 0
    else
      var rest := MaxMemberships(ps[..|ps| - 1]);
      var last := ps[|ps| - 1].memberships;
      if last > rest then last else rest
  }

  /** The number of entries with a chair role. */
  function ChairHolders(ps: seq<Profile>): nat
  {
    Count(ps, (p: Profile) => p.chairs > 0)
  }

  /** The list sizes, the entries with a chair role and the largest membership count. */
  datatype Summary = Summary(recurring: nat, systems: nat, security: nat, chairs: nat, maxMemberships: nat)

  /** The combined list, the systems and security lists, and the summary. */
  datatype Report = Report(members: seq<Profile>, systems: seq<Profile>, security: seq<Profile>, summary: Summary)

  function Summarize(all: seq<Profile>, systems: seq<Profile>, security: seq<Profile>): Summary
  {
    Summary(|all|, |systems|, |security|, ChairHolders(all), MaxMemberships(all))
  }

  /** `_compute_recurring_members` on the scraped results. */
  ghost function ReportOf(results: Results, area: map<string, string>, rules: NameRules): Report
  {
    var d := MemberMap(Services(results, results.keys), area, rules);
    var rec := RecurringKeys(d, d.keys);
    var all := SortProfiles(Listing(d, rec, AllAreas));
    var systems := SortProfiles(Listing(d, rec, Systems));
    var security := SortProfiles(Listing(d, rec, Security));
    Report(all, systems, security, Summarize(all, systems, security))
  }

  /** In a sorted list the first entry has the most memberships. */
  lemma MaxIsFirst(ps: seq<Profile>)
    requires SortedBy(ps, ProfileOrder()) && |ps| > 0
    ensures MaxMemberships(ps) == ps[0].memberships
  {
    var i :| 0 <= i < |ps| && ps[i].memberships == MaxMemberships(ps);
    assert i > 0 ==> !ProfileOrder()(ps[i], ps[0]);
  }

  /**
   * A key passes the recurring filter exactly when at least two records
   * were counted under it or at least one of them as chair.
   */
  lemma RecurringMeaning(ss: seq<Service>, area: map<string, string>, rules: NameRules, k: string)
    ensures var d := MemberMap(ss, area, rules);
      k in RecurringKeys(d, d.keys)
      <==> Tenure(ss, area, rules, k, AllAreas, Memberships) >= 2 || Tenure(ss, area, rules, k, AllAreas, Chairs) > 0
  {
    var d := MemberMap(ss, area, rules);
    RecurringKeysMember(d, d.keys, k);
    TenureCounted(ss, area, rules, k, AllAreas, Memberships);
    TenureCounted(ss, area, rules, k, AllAreas, Chairs);
  }

  /** The entry of a key speaks for it: a spelling of the key, and its counted records. */
  lemma KeyEntry(ss: seq<Service>, area: map<string, string>, rules: NameRules, scope: Scope, k: string)
    requires k in MemberMap(ss, area, rules).values
    ensures var pr := ProfileOf(PersonOf(MemberMap(ss, area, rules), k), scope);
      NormalizeAsWritten(pr.name, rules) == k
      && pr.memberships == Tenure(ss, area, rules, k, scope, Memberships)
      && pr.chairs == Tenure(ss, area, rules, k, scope, Chairs)
  {
    var d := MemberMap(ss, area, rules);
    NameKeyed(ss, area, rules, k);
    ProfileFields(PersonOf(d, k), scope);
    TenureCounted(ss, area, rules, k, scope, Memberships);
    TenureCounted(ss, area, rules, k, scope, Chairs);
  }

  /**
   * Every entry of a list of scope `scope` speaks for the key of its
   * display name: its memberships and chair roles are the numbers of
   * records of that scope counted under that key, and they pass the
   * scope's filter.
   */
  lemma ListedCounts(ss: seq<Service>, area: map<string, string>, rules: NameRules, scope: Scope, pr: Profile)
    requires var d := MemberMap(ss, area, rules); pr in Listing(d, d.keys, scope)
    ensures var k := NormalizeAsWritten(pr.name, rules);
      pr.memberships == Tenure(ss, area, rules, k, scope, Memberships)
      && pr.chairs == Tenure(ss, area, rules, k, scope, Chairs)
      && (Tenure(ss, area, rules, k, scope, Memberships) >= 2 || Tenure(ss, area, rules, k, scope, Chairs) > 0)
  {
    var d := MemberMap(ss, area, rules);
    ListingMember(d, d.keys, scope, pr);
    var k :| k in d.keys && Active(TrackOf(PersonOf(d, k), scope)) && pr == ProfileOf(PersonOf(d, k), scope);
    KeyEntry(ss, area, rules, scope, k);
    ProfileFields(PersonOf(d, k), scope);
  }

  // ---------------------------------------------------------------------
  // The output loops

  /** The list filter: the recurring records, in the member map's order. */
  method FilterRecurring(d: People) returns (rec: seq<string>)
    ensures rec == RecurringKeys(d, d.keys)
  {
    rec := [];
    var i := 0;
    while i < |d.keys|
      invariant 0 <= i <= |d.keys|
      invariant rec == RecurringKeys(d, d.keys[..i])
    {
      assert d.keys[..i + 1][..i] == d.keys[..i];
      var k := d.keys[i];
      var p := PersonOf(d, k);
      if p.overall.memberships >= 2 || p.overall.chairs > 0 {
        rec := rec + [k];
      }
      i := i + 1;
    }
    assert d.keys[..i] == d.keys;
  }

  /** The output entry of one record for one scope. */
  method BuildProfile(p: Person, scope: Scope) returns (pr: Profile)
    ensures pr == ProfileOf(p, scope)
  {
    var t := TrackOf(p, scope);
    StrOrderStrictTotal();
    var conferences := SortSet(t.conferences, StrOrder());
    NatOrderStrictTotal();
    var ys := SortSet(t.years, NatOrder());
    var years := seq(|ys|, i requires 0 <= i < |ys| => (ys[i], YearCount(t, ys[i])));
    var first: Option<nat> := None;
    var last: Option<nat> := None;
    if |ys| > 0 {
      first := Some(ys[0]);
      last := Some(ys[|ys| - 1]);
    }
    pr := Profile(p.name, p.affiliation, t.memberships, t.chairs, conferences, AreaLabel(p.areas),
                  years, first, last);
  }

  /**
   * One list loop: the entries of the keys of `rec` that pass the scope's
   * filter, in order. (For all areas every recurring key passes.)
   */
  method ListProfiles(d: People, rec: seq<string>, scope: Scope) returns (ps: seq<Profile>)
    ensures ps == Listing(d, rec, scope)
  {
    ps := [];
    var i := 0;
    while i < |rec|
      invariant 0 <= i <= |rec|
      invariant ps == Listing(d, rec[..i], scope)
    {
      assert rec[..i + 1][..i] == rec[..i];
      var p := PersonOf(d, rec[i]);
      var t := TrackOf(p, scope);
      if t.memberships >= 2 || t.chairs > 0 {
        var pr := BuildProfile(p, scope);
        ps := ps + [pr];
      }
      i := i + 1;
    }
    assert rec[..i] == rec;
  }

  /** The summary loop: the entries with a chair role, and the largest membership count. */
  method SummarizeLists(all: seq<Profile>, systems: seq<Profile>, security: seq<Profile>) returns (summary: Summary)
    ensures summary == Summarize(all, systems, security)
  {
    var chairs := 0;
    var most := 0;
    var i := 0;
    while i < |all|
      invariant 0 <= i <= |all|
      invariant chairs == ChairHolders(all[..i]) && most == MaxMemberships(all[..i])
    {
      assert all[..i + 1][..i] == all[..i];
      if all[i].chairs > 0 {
        chairs := chairs + 1;
      }
      if all[i].memberships > most {
        most := all[i].memberships;
      }
      i := i + 1;
    }
    assert all[..i] == all;
    summary := Summary(|all|, |systems|, |security|, chairs, most);
  }

  /** `_compute_recurring_members`: the sorted combined, systems and security lists and their summary. */
  method RecurringMembers(results: Results, area: map<string, string>, rules: NameRules) returns (report: Report)
    ensures report == ReportOf(results, area, rules)
  {
    var d := CollectMembers(results, area, rules);
    var rec := FilterRecurring(d);
    var all := ListProfiles(d, rec, AllAreas);
    all := SortProfiles(all);
    var systems := ListProfiles(d, rec, Systems);
    systems := SortProfiles(systems);
    var security := ListProfiles(d, rec, Security);
    security := SortProfiles(security);
    var summary := SummarizeLists(all, systems, security);
    report := Report(all, systems, security, summary);
  }
}

