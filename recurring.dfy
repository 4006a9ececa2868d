/**
 * Recurring artifact-evaluation committee members: the person-name key
 * that merges records across conference-years, the per-person record the
 * member loop builds (memberships, chair counts, conferences, years, the
 * most recent affiliation and spelling, and the same again restricted to
 * systems and to security conferences), the "recurring" filter, the
 * output profiles, their order, and the summary.
 *
 * Unicode data cannot be seen here: the compatibility decomposition of a
 * character (NFKD) and whether it is a combining mark are parameters.
 */
module Recurring {
  import opened Wrappers
  import opened Strings
  import opened Seqs
  import opened Dicts
  import opened Ordering
  import opened CommitteeStats

  // ---------------------------------------------------------------------
  // Name keys

  /** What `unicodedata` says about a character: its full NFKD decomposition and whether it combines. */
  datatype NameRules = NameRules(decomp: char -> string, combining: char -> bool)

  /**
   * The properties of Unicode's tables that the key relies on: a
   * decomposition is already fully decomposed, and ASCII characters
   * decompose to themselves and do not combine.
   */
  ghost predicate Unicodelike(rules: NameRules)
  {
    (forall c, d :: d in rules.decomp(c) ==> rules.decomp(d) == [d])
    && (forall c: char :: c < '\U{80}' ==> rules.decomp(c) == [c] && !rules.combining(c))
  }

  /** The compatibility decomposition of a text, character by character. */
  function Decompose(s: string, decomp: char -> string): (r: string)
    decreases |s|
  {
    if |s| == 0 then "" else Decompose(s[..|s| - 1], decomp) + decomp(s[|s| - 1])
  }

  /** The text without its combining marks. */
  function DropCombining(s: string, combining: char -> bool): (r: string)
  {
    Filter(s, c => !combining(c))
  }

  /** The text without its dots. */
  function RemoveDots(s: string): (r: string)
  {
    Filter(s, c => c != '.')
  }

  /**
   * The name key as the program computes it: strip the name, lower-case
   * it, decompose it, drop the combining marks, remove the dots and
   * collapse the white space. Every record is merged under this key.
   */
  function NormalizeAsWritten(name: string, rules: NameRules): (key: string)
    ensures Tidy(key)
  {
    Collapse(RemoveDots(DropCombining(Decompose(Lower(Strip(name)), rules.decomp), rules.combining)))
  }

  /**
   * The name key with lower-casing moved after the decomposition, so
   * that the capitals a decomposition produces are folded too: the key
   * the program evidently intends, which is idempotent.
   */
  function NormalizeName(name: string, rules: NameRules): (key: string)
    ensures Tidy(key)
  {
    Collapse(RemoveDots(Lower(DropCombining(Decompose(Strip(name), rules.decomp), rules.combining))))
  }

  /** A character that every step of the key leaves in place. */
  ghost predicate Settled(c: char, rules: NameRules)
  {
    rules.decomp(c) == [c] && !rules.combining(c) && LowerChar(c) == c && c != '.'
  }

  lemma {:induction false} DecomposeMember(s: string, decomp: char -> string, d: char)
    requires d in Decompose(s, decomp)
    ensures exists c :: c in s && d in decomp(c)
    decreases |s|
  {
    var init := s[..|s| - 1];
    var last := s[|s| - 1];
    if d in Decompose(init, decomp) {
      DecomposeMember(init, decomp, d);
      var c :| c in init && d in decomp(c);
      assert c in s;
    } else {
      assert d in decomp(last);
    }
  }

  lemma {:induction false} DecomposeSettled(s: string, rules: NameRules)
    requires forall i :: 0 <= i < |s| ==> Settled(s[i], rules)
    ensures Decompose(s, rules.decomp) == s
    decreases |s|
  {
    if |s| > 0 {
      DecomposeSettled(s[..|s| - 1], rules);
      assert s == s[..|s| - 1] + [s[|s| - 1]];
    }
  }

  lemma {:induction false} DropSpacesMember(s: string, c: char)
    requires c in DropSpaces(s)
    ensures c in s
  {
  }

  /** Squashing white space keeps characters of the text and blanks. */
  lemma {:induction false} SquashMember(s: string, c: char)
    requires c in Squash(s)
    ensures c in s || c == ' '
    decreases |s|
  {
    if |s| > 0 {
      if IsSpace(s[0]) {
        var rest := DropSpaces(s[1..]);
        if c != ' ' {
          assert c in Squash(rest);
          SquashMember(rest, c);
          DropSpacesMember(s[1..], c);
        }
      } else if c != s[0] {
        assert c in Squash(s[1..]);
        SquashMember(s[1..], c);
      }
    }
  }

  lemma CollapseMember(s: string, c: char)
    requires c in Collapse(s)
    ensures c in s || c == ' '
  {
    var q := Squash(s);
    var l := LStrip(q);
    assert c in RStrip(l);
    assert c in l;
    assert c in q;
    SquashMember(s, c);
  }

  lemma LowerMember(u: string, c: char)
    requires c in Lower(u)
    ensures exists e :: e in u && c == LowerChar(e)
  {
    var i :| 0 <= i < |Lower(u)| && Lower(u)[i] == c;
    assert u[i] in u;
  }

  lemma DecomposedSettles(s: string, rules: NameRules, e: char)
    requires Unicodelike(rules)
    requires e in Decompose(s, rules.decomp)
    ensures rules.decomp(e) == [e]
  {
    DecomposeMember(s, rules.decomp, e);
    var o :| o in s && e in rules.decomp(o);
  }

  lemma AsciiSettles(c: char, rules: NameRules)
    requires Unicodelike(rules)
    requires c < '\U{80}' && c != '.' && !('A' <= c <= 'Z')
    ensures Settled(c, rules)
  {
  }

  /** Every character of a key is one the key's steps leave in place. */
  lemma KeySettled(name: string, rules: NameRules, c: char)
    requires Unicodelike(rules)
    requires c in NormalizeName(name, rules)
    ensures Settled(c, rules)
  {
    var t := Decompose(Strip(name), rules.decomp);
    var u := DropCombining(t, rules.combining);
    var v := Lower(u);
    var w := RemoveDots(v);
    CollapseMember(w, c);
    if c == ' ' {
      AsciiSettles(c, rules);
    } else {
      assert c in v && c != '.';
      LowerMember(u, c);
      var e :| e in u && c == LowerChar(e);
      assert e in t && !rules.combining(e);
      if 'A' <= e <= 'Z' {
        AsciiSettles(c, rules);
      } else {
        DecomposedSettles(Strip(name), rules, e);
      }
    }
  }

  lemma DropCombiningSettled(s: string, rules: NameRules)
    requires forall i :: 0 <= i < |s| ==> Settled(s[i], rules)
    ensures DropCombining(s, rules.combining) == s
  {
    FilterKeepsAll(s, c => !rules.combining(c));
  }

  lemma RemoveDotsSettled(s: string, rules: NameRules)
    requires forall i :: 0 <= i < |s| ==> Settled(s[i], rules)
    ensures RemoveDots(s) == s
  {
    FilterKeepsAll(s, c => c != '.');
  }

  /** A tidy text of settled characters is its own key. */
  lemma SettledKey(y: string, rules: NameRules)
    requires Tidy(y)
    requires forall i :: 0 <= i < |y| ==> Settled(y[i], rules)
    ensures NormalizeName(y, rules) == y
  {
    StripFixed(y);
    SettledMiddle(y, rules);
    RemoveDotsSettled(y, rules);
    TidyFixed(y);
  }

  /** The middle steps of the key leave a text of settled characters in place. */
  lemma SettledMiddle(y: string, rules: NameRules)
    requires forall i :: 0 <= i < |y| ==> Settled(y[i], rules)
    ensures Lower(DropCombining(Decompose(y, rules.decomp), rules.combining)) == y
  {
    DecomposeSettled(y, rules);
    DropCombiningSettled(y, rules);
    assert Lower(y) == y;
  }

  /** A key is its own key: normalising a second time changes nothing. */
  lemma NormalizeIdempotent(name: string, rules: NameRules)
    requires Unicodelike(rules)
    ensures NormalizeName(NormalizeName(name, rules), rules) == NormalizeName(name, rules)
  {
    var y := NormalizeName(name, rules);
    forall i | 0 <= i < |y| ensures Settled(y[i], rules) {
      KeySettled(name, rules, y[i]);
    }
    SettledKey(y, rules);
  }

  // The steps of the key on a one-character text.

  lemma StripOne(c: char)
    requires !IsSpace(c)
    ensures Strip([c]) == [c]
  {
    StripFixed([c]);
  }

  lemma CollapseOne(c: char)
    requires !IsSpace(c)
    ensures Collapse([c]) == [c]
  {
    assert Tidy([c]);
    TidyFixed([c]);
  }

  lemma LowerOne(c: char)
    ensures Lower([c]) == [LowerChar(c)]
  {
  }

  lemma DecomposeOne(c: char, decomp: char -> string)
    ensures Decompose([c], decomp) == decomp(c)
  {
    assert [c][..0] == [];
  }

  lemma DropCombiningOne(c: char, combining: char -> bool)
    ensures DropCombining([c], combining) == if combining(c) then [] else [c]
  {
    assert [c][..0] == [];
  }

  lemma RemoveDotsOne(c: char)
    ensures RemoveDots([c]) == if c == '.' then [] else [c]
  {
    assert [c][..0] == [];
  }

  /** A decomposition table with one entry: the black-letter capital H decomposes to `H`, as in Unicode. */
  function BlackLetterRules(): NameRules
  {
    NameRules(c => if c == '\U{210C}' then "H" else [c], c => false)
  }

  lemma BlackLetterUnicodelike()
    ensures Unicodelike(BlackLetterRules())
  {
    var rules := BlackLetterRules();
    forall c, d | d in rules.decomp(c) ensures rules.decomp(d) == [d] {
      if c == '\U{210C}' {
        assert d == 'H';
      } else {
        assert d == c;
      }
    }
  }

  /**
   * `_normalize_name` lower-cases before decomposing, so a capital that
   * the decomposition produces survives and a second pass changes the
   * key: the black-letter H gives `H`, and `H` gives `h`.
   */
  lemma AsWrittenNotIdempotent()
    ensures Unicodelike(BlackLetterRules())
    ensures NormalizeAsWritten("\U{210C}", BlackLetterRules()) == "H"
    ensures NormalizeAsWritten("H", BlackLetterRules()) == "h"
  {
    BlackLetterUnicodelike();
    BlackLetterKey();
    CapitalKey();
  }

  /** The key of the black-letter H before white space is collapsed. */
  lemma BlackLetterSteps()
    ensures RemoveDots(DropCombining(Decompose(Lower(Strip("\U{210C}")), BlackLetterRules().decomp),
                                     BlackLetterRules().combining)) == "H"
  {
    var rules := BlackLetterRules();
    var h := '\U{210C}';
    StripOne(h);
    LowerOne(h);
    DecomposeOne(h, rules.decomp);
    DropCombiningOne('H', rules.combining);
    RemoveDotsOne('H');
  }

  lemma BlackLetterKey()
    ensures NormalizeAsWritten("\U{210C}", BlackLetterRules()) == "H"
  {
    BlackLetterSteps();
    CollapseOne('H');
  }

  /** The key of `H` before white space is collapsed. */
  lemma CapitalSteps()
    ensures RemoveDots(DropCombining(Decompose(Lower(Strip("H")), BlackLetterRules().decomp),
                                     BlackLetterRules().combining)) == "h"
  {
    var rules := BlackLetterRules();
    StripOne('H');
    LowerOne('H');
    DecomposeOne('h', rules.decomp);
    DropCombiningOne('h', rules.combining);
    RemoveDotsOne('h');
  }

  lemma CapitalKey()
    ensures NormalizeAsWritten("H", BlackLetterRules()) == "h"
  {
    CapitalSteps();
    CollapseOne('h');
  }

  // ---------------------------------------------------------------------
  // Person records

  /** A year the program treats as present: an absent year and the year 0 both count as none. */
  predicate HasYear(year: Option<nat>)
  {
    year.Some? && year.value != 0
  }

  /** `y` is at least every year of `years`, so it is their maximum once it is among them. */
  predicate Latest(years: set<nat>, y: nat)
  {
    forall z :: z in years ==> z <= y
  }

  /** The counters of one scope of a person: memberships, chairs, conferences, years and per-year counts. */
  datatype Track = Track(memberships: nat, chairs: nat, conferences: set<string>, years: set<nat>, yearsCount: map<nat, nat>)

  function NoTrack(): Track
  {
    Track(0, 0, {}, {}, map[])
  }

  /** The count of year `y`, 0 when absent. */
  function YearCount(t: Track, y: nat): nat
  {
    if y in t.yearsCount then t.yearsCount[y] else 0
  }

  /** One more membership: the chair count, the conference, and the year when there is one. */
  function Credit(t: Track, conf: string, year: Option<nat>, chair: bool): Track
  {
    Track(t.memberships + 1, t.chairs + (if chair then 1 else 0), t.conferences + {conf},
          if HasYear(year) then t.years + {year.value} else t.years,
          if HasYear(year) then t.yearsCount[year.value := YearCount(t, year.value) + 1] else t.yearsCount)
  }

  /** A member record: display name, affiliation, the overall counters, the areas seen, and the systems and security counters. */
  datatype Person = Person(name: string, affiliation: string, overall: Track, areas: set<string>,
                           systems: Track, security: Track)

  /** The fresh record of a first appearance. */
  function Newcomer(raw: string, aff: string): Person
  {
    Person(raw, aff, NoTrack(), {}, NoTrack(), NoTrack())
  }

  /** The counters of the whole record, or of its systems or security part. */
  datatype Scope = AllAreas | Systems | Security

  predicate InScope(scope: Scope, area: string)
  {
    match scope
    case AllAreas => true
    case Systems => area == "systems"
    case Security => area == "security"
  }

  function TrackOf(p: Person, scope: Scope): Track
  {
    match scope
    case AllAreas => p.overall
    case Systems => p.systems
    case Security => p.security
  }

  /**
   * The record after one more membership. The affiliation and the
   * display name are replaced when the new affiliation is non-empty and
   * the stored one is empty or the new year is the latest seen.
   */
  function Update(p: Person, raw: string, aff: string, conf: string, year: Option<nat>, area: string, chair: bool): Person
  {
    var overall := Credit(p.overall, conf, year, chair);
    var newer := aff != "" && (p.affiliation == "" || (HasYear(year) && Latest(overall.years, year.value)));
    Person(if newer then raw else p.name, if newer then aff else p.affiliation, overall,
           if area == "systems" || area == "security" then p.areas + {area} else p.areas,
           if area == "systems" then Credit(p.systems, conf, year, chair) else p.systems,
           if area == "security" then Credit(p.security, conf, year, chair) else p.security)
  }

  lemma UpdateTrack(p: Person, raw: string, aff: string, conf: string, year: Option<nat>, area: string, chair: bool, scope: Scope)
    ensures TrackOf(Update(p, raw, aff, conf, year, area, chair), scope)
      == if InScope(scope, area) then Credit(TrackOf(p, scope), conf, year, chair) else TrackOf(p, scope)
  {
  }

  /** One membership record: the conference-year key it is listed under and the entry. */
  datatype Service = Service(confYear: string, member: Entry)

  /** The role of a member entry, `member` when it has none. */
  function Role(m: Entry): string
  {
    m.role.UnwrapOr("member")
  }

  /** The characters stripped from both ends of an affiliation: asterisks, underscores, blanks and tabs. */
  const ServiceMarks: set<char> := {'*', '_', ' ', '\t'}

  function RawName(s: Service): string
  {
    Strip(s.member.name)
  }

  function YearOf(s: Service): Option<nat>
  {
    ExtractConfYear(s.confYear).1
  }

  /** The member map, keyed by name key, in first-appearance order. */
  type People = d: Dict<string, Person> | d.Valid() witness Dict([], map[])

  /** The record under `k`, or an empty one when there is none. */
  function PersonOf(d: People, k: string): Person
  {
    if k in d.values then d.values[k] else Newcomer("", "")
  }

  /** The affiliation a record carries once stripped. */
  function AffOf(s: Service): string
  {
    StripSet(s.member.affiliation, ServiceMarks)
  }

  function KeyOf(s: Service, rules: NameRules): string
  {
    NormalizeAsWritten(RawName(s), rules)
  }

  /** The stored record of the key of `s`, or a fresh one. */
  function Prior(d: People, s: Service, rules: NameRules): Person
  {
    var key := KeyOf(s, rules);
    if key in d.values then d.values[key] else Newcomer(RawName(s), AffOf(s))
  }

  /** The record of the key of `s` after `s`. */
  function Updated(d: People, s: Service, area: map<string, string>, rules: NameRules): Person
  {
    Update(Prior(d, s, rules), RawName(s), AffOf(s), ExtractConfYear(s.confYear).0, YearOf(s),
           AreaOf(area, s.confYear), Role(s.member) == "chair")
  }

  /** One pass of the member loop: nothing for an empty name, else the record of its key updated. */
  function Attend(d: People, s: Service, area: map<string, string>, rules: NameRules): People
  {
    if RawName(s) == "" then d else Put(d, KeyOf(s, rules), Updated(d, s, area, rules))
  }

  /** The member map after the records of `ss` in turn. */
  function MemberMap(ss: seq<Service>, area: map<string, string>, rules: NameRules): People
    decreases |ss|
  {
    if |ss| == 0 then Empty() else Attend(MemberMap(ss[..|ss| - 1], area, rules), ss[|ss| - 1], area, rules)
  }

  lemma MemberMapSnoc(ss: seq<Service>, i: nat, area: map<string, string>, rules: NameRules)
    requires i < |ss|
    ensures MemberMap(ss[..i + 1], area, rules) == Attend(MemberMap(ss[..i], area, rules), ss[i], area, rules)
  {
    assert ss[..i + 1][..i] == ss[..i];
  }

  lemma MemberMapAppend(ss: seq<Service>, s: Service, area: map<string, string>, rules: NameRules)
    ensures MemberMap(ss + [s], area, rules) == Attend(MemberMap(ss, area, rules), s, area, rules)
  {
    assert (ss + [s])[..|ss|] == ss;
  }

  /** The records of the conference-years `confs`, conference by conference, each in listed order. */
  function Services(results: Results, confs: seq<string>): seq<Service>
    decreases |confs|
  {
    if |confs| == 0 then []
    else
      var c := confs[|confs| - 1];
      Services(results, confs[..|confs| - 1]) + ServicesOf(c, MembersOf(results, c))
  }

  function ServicesOf(c: string, ms: seq<Entry>): (ss: seq<Service>)
    ensures |ss| == |ms| && forall j :: 0 <= j < |ms| ==> ss[j] == Service(c, ms[j])
  {
    seq(|ms|, j requires 0 <= j < |ms| => Service(c, ms[j]))
  }

  // ---------------------------------------------------------------------
  // What the counters count

  /** A record counted under key `k`: a non-empty name whose key is `k`. */
  predicate ServedAs(s: Service, rules: NameRules, k: string)
  {
    RawName(s) != "" && KeyOf(s, rules) == k
  }

  /** What a counter of a track counts: memberships, chair roles, records of one year, or records with a year. */
  datatype Measure = Memberships | Chairs | InYear(y: nat) | Dated

  /** A record counted under `k` in `scope` that `what` counts. */
  predicate Counts(s: Service, area: map<string, string>, rules: NameRules, k: string, scope: Scope, what: Measure)
  {
    ServedAs(s, rules, k) && InScope(scope, AreaOf(area, s.confYear)) && Measured(s, what)
  }

  /** A record that `what` counts, whoever it names. */
  predicate Measured(s: Service, what: Measure)
  {
    match what
    case Memberships => true
    case Chairs => Role(s.member) == "chair"
    case InYear(y) => HasYear(YearOf(s)) && YearOf(s).value == y
    case Dated => HasYear(YearOf(s))
  }

  /** How many records of `ss` `what` counts under `k` in `scope`. */
  function Tenure(ss: seq<Service>, area: map<string, string>, rules: NameRules, k: string, scope: Scope, what: Measure): nat
    decreases |ss|
  {
    if |ss| == 0 then 0
    else Tenure(ss[..|ss| - 1], area, rules, k, scope, what) + (if Counts(ss[|ss| - 1], area, rules, k, scope, what) then 1 else 0)
  }

  /** The sum of the per-year counts. */
  ghost function YearTotal(m: map<nat, nat>): nat
    decreases |m|
  {
    if m == map[] then 0 else var y := AnyYear(m); m[y] + YearTotal(m - {y})
  }

  ghost function AnyYear(m: map<nat, nat>): (y: nat)
    requires m != map[]
    ensures y in m
  {
    var y :| y in m; y
  }

  lemma {:induction false} YearTotalRemove(m: map<nat, nat>, y: nat)
    requires y in m
    ensures YearTotal(m) == m[y] + YearTotal(m - {y})
    decreases |m|
  {
    var z := AnyYear(m);
    if z != y {
      assert |m - {z}| < |m|;
      YearTotalRemove(m - {z}, y);
      YearTotalRemove(m - {y}, z);
      assert m - {z} - {y} == m - {y} - {z};
    }
  }

  lemma YearTotalIncrement(m: map<nat, nat>, y: nat)
    ensures YearTotal(m[y := (if y in m then m[y] else 0) + 1]) == YearTotal(m) + 1
  {
    var r := m[y := (if y in m then m[y] else 0) + 1];
    YearTotalRemove(r, y);
    assert r - {y} == m - {y};
    if y in m {
      YearTotalRemove(m, y);
    } else {
      assert m - {y} == m;
    }
  }

  /** The value of a track's counter for `what`. */
  ghost function Reading(t: Track, what: Measure): nat
  {
    match what
    case Memberships => t.memberships
    case Chairs => t.chairs
    case InYear(y) => YearCount(t, y)
    case Dated => YearTotal(t.yearsCount)
  }

  lemma CreditReading(t: Track, conf: string, year: Option<nat>, chair: bool, what: Measure)
    ensures Reading(Credit(t, conf, year, chair), what) == Reading(t, what) +
      (match what
       case Memberships => 1
       case Chairs => if chair then 1 else 0
       case InYear(y) => if HasYear(year) && year.value == y then 1 else 0
       case Dated => if HasYear(year) then 1 else 0)
  {
    if what.Dated? && HasYear(year) {
      YearTotalIncrement(t.yearsCount, year.value);
    }
  }

  /** The record a pass stores under its key. */
  lemma AttendServed(d: People, s: Service, area: map<string, string>, rules: NameRules, k: string)
    requires ServedAs(s, rules, k)
    ensures var r := Attend(d, s, area, rules); k in r.values && r.values[k] == Updated(d, s, area, rules)
  {
  }

  lemma PersonOfPut(d: People, key: string, v: Person, k: string)
    requires key != k
    ensures var r := Put(d, key, v); (k in r.values <==> k in d.values) && PersonOf(r, k) == PersonOf(d, k)
  {
  }

  /** A pass changes no other key. */
  lemma AttendElsewhere(d: People, s: Service, area: map<string, string>, rules: NameRules, k: string)
    requires !ServedAs(s, rules, k)
    ensures var r := Attend(d, s, area, rules); (k in r.values <==> k in d.values) && PersonOf(r, k) == PersonOf(d, k)
  {
    if RawName(s) != "" {
      AttendOtherKey(d, s, area, rules, k);
    }
  }

  lemma AttendOtherKey(d: People, s: Service, area: map<string, string>, rules: NameRules, k: string)
    requires RawName(s) != "" && KeyOf(s, rules) != k
    ensures var r := Attend(d, s, area, rules); (k in r.values <==> k in d.values) && PersonOf(r, k) == PersonOf(d, k)
  {
    PersonOfPut(d, KeyOf(s, rules), Updated(d, s, area, rules), k);
  }

  /** One pass adds 1 to each counter of `k` that counts the record, and leaves the others. */
  lemma ReadingStep(d: People, s: Service, area: map<string, string>, rules: NameRules, k: string,
                    scope: Scope, what: Measure)
    ensures Reading(TrackOf(PersonOf(Attend(d, s, area, rules), k), scope), what)
      == Reading(TrackOf(PersonOf(d, k), scope), what) + (if Counts(s, area, rules, k, scope, what) then 1 else 0)
  {
    if ServedAs(s, rules, k) {
      AttendServed(d, s, area, rules, k);
      var p := Prior(d, s, rules);
      assert TrackOf(p, scope) == TrackOf(PersonOf(d, k), scope);
      var a := AreaOf(area, s.confYear);
      var chair := Role(s.member) == "chair";
      UpdateTrack(p, RawName(s), AffOf(s), ExtractConfYear(s.confYear).0, YearOf(s), a, chair, scope);
      if InScope(scope, a) {
        CreditReading(TrackOf(p, scope), ExtractConfYear(s.confYear).0, YearOf(s), chair, what);
      }
    } else {
      AttendElsewhere(d, s, area, rules, k);
    }
  }

  /**
   * Every counter of every scope of the record under `k` holds the number
   * of records that it counts: memberships, chair roles, the records of
   * each year, and (summed over the years) the records with a year.
   * A key with no record reads 0 everywhere.
   */
  lemma {:induction false} TenureCounted(ss: seq<Service>, area: map<string, string>, rules: NameRules, k: string,
                                         scope: Scope, what: Measure)
    ensures Reading(TrackOf(PersonOf(MemberMap(ss, area, rules), k), scope), what) == Tenure(ss, area, rules, k, scope, what)
    decreases |ss|
  {
    if |ss| == 0 {
      assert TrackOf(PersonOf(MemberMap(ss, area, rules), k), scope) == NoTrack();
      assert YearTotal(map[]) == 0;
    } else {
      var init := ss[..|ss| - 1];
      TenureCounted(init, area, rules, k, scope, what);
      ReadingStep(MemberMap(init, area, rules), ss[|ss| - 1], area, rules, k, scope, what);
    }
  }

  /** A key has a record exactly when some record was counted under it. */
  lemma {:induction false} KeyPresent(ss: seq<Service>, area: map<string, string>, rules: NameRules, k: string)
    ensures k in MemberMap(ss, area, rules).values <==> Tenure(ss, area, rules, k, AllAreas, Memberships) > 0
    decreases |ss|
  {
    if |ss| > 0 {
      var init := ss[..|ss| - 1];
      var s := ss[|ss| - 1];
      KeyPresent(init, area, rules, k);
      KeyStep(MemberMap(init, area, rules), s, area, rules, k);
    }
  }

  /** One pass holds `k` afterwards exactly when `k` was held before or the record is counted under `k`. */
  lemma KeyStep(d: People, s: Service, area: map<string, string>, rules: NameRules, k: string)
    ensures k in Attend(d, s, area, rules).values <==> k in d.values || Counts(s, area, rules, k, AllAreas, Memberships)
  {
    if ServedAs(s, rules, k) {
      AttendServed(d, s, area, rules, k);
    } else {
      AttendElsewhere(d, s, area, rules, k);
    }
  }

  /** One pass adds the record's year to the tracks that count it. */
  lemma YearsStep(d: People, s: Service, area: map<string, string>, rules: NameRules, k: string, scope: Scope, y: nat)
    ensures y in TrackOf(PersonOf(Attend(d, s, area, rules), k), scope).years
      <==> y in TrackOf(PersonOf(d, k), scope).years || Counts(s, area, rules, k, scope, InYear(y))
  {
    if ServedAs(s, rules, k) {
      YearsServed(d, s, area, rules, k, scope, y);
    } else {
      AttendElsewhere(d, s, area, rules, k);
    }
  }

  lemma YearsServed(d: People, s: Service, area: map<string, string>, rules: NameRules, k: string, scope: Scope, y: nat)
    requires ServedAs(s, rules, k)
    ensures y in TrackOf(PersonOf(Attend(d, s, area, rules), k), scope).years
      <==> y in TrackOf(PersonOf(d, k), scope).years || Counts(s, area, rules, k, scope, InYear(y))
  {
    TrackStep(d, s, area, rules, k, scope);
    CountsInYear(s, area, rules, k, scope, y);
    CreditYears(TrackOf(PersonOf(d, k), scope), ExtractConfYear(s.confYear).0, YearOf(s), Role(s.member) == "chair", y);
  }

  /** The track a pass leaves under the key of its record. */
  lemma TrackStep(d: People, s: Service, area: map<string, string>, rules: NameRules, k: string, scope: Scope)
    requires ServedAs(s, rules, k)
    ensures TrackOf(PersonOf(Attend(d, s, area, rules), k), scope)
      == if InScope(scope, AreaOf(area, s.confYear))
         then Credit(TrackOf(PersonOf(d, k), scope), ExtractConfYear(s.confYear).0, YearOf(s), Role(s.member) == "chair")
         else TrackOf(PersonOf(d, k), scope)
  {
    AttendServed(d, s, area, rules, k);
    var p := Prior(d, s, rules);
    assert TrackOf(p, scope) == TrackOf(PersonOf(d, k), scope);
    UpdateTrack(p, RawName(s), AffOf(s), ExtractConfYear(s.confYear).0, YearOf(s), AreaOf(area, s.confYear),
                Role(s.member) == "chair", scope);
  }

  lemma CountsInYear(s: Service, area: map<string, string>, rules: NameRules, k: string, scope: Scope, y: nat)
    ensures Counts(s, area, rules, k, scope, InYear(y))
      <==> ServedAs(s, rules, k) && InScope(scope, AreaOf(area, s.confYear)) && HasYear(YearOf(s)) && YearOf(s).value == y
  {
    assert Measured(s, InYear(y)) <==> HasYear(YearOf(s)) && YearOf(s).value == y;
  }

  lemma CreditYears(t: Track, conf: string, year: Option<nat>, chair: bool, y: nat)
    ensures y in Credit(t, conf, year, chair).years <==> y in t.years || (HasYear(year) && year.value == y)
  {
  }

  /** The years of a record's track are exactly the years of the records it counts. */
  lemma {:induction false} YearsSeen(ss: seq<Service>, area: map<string, string>, rules: NameRules, k: string,
                                     scope: Scope, y: nat)
    ensures y in TrackOf(PersonOf(MemberMap(ss, area, rules), k), scope).years
      <==> Tenure(ss, area, rules, k, scope, InYear(y)) > 0
    decreases |ss|
  {
    if |ss| == 0 {
      assert TrackOf(PersonOf(MemberMap(ss, area, rules), k), scope) == NoTrack();
    } else {
      var init := ss[..|ss| - 1];
      YearsSeen(init, area, rules, k, scope, y);
      YearsStep(MemberMap(init, area, rules), ss[|ss| - 1], area, rules, k, scope, y);
    }
  }

  /** A display name keyed by `k`. */
  predicate NamedAs(p: Person, rules: NameRules, k: string)
  {
    NormalizeAsWritten(p.name, rules) == k
  }

  lemma UpdatedNamed(d: People, s: Service, area: map<string, string>, rules: NameRules, k: string)
    requires ServedAs(s, rules, k)
    requires k in d.values ==> NamedAs(d.values[k], rules, k)
    ensures NamedAs(Updated(d, s, area, rules), rules, k)
  {
  }

  /** The display name of a record is a name whose key is the record's key. */
  lemma {:induction false} NameKeyed(ss: seq<Service>, area: map<string, string>, rules: NameRules, k: string)
    requires k in MemberMap(ss, area, rules).values
    ensures NamedAs(MemberMap(ss, area, rules).values[k], rules, k)
    decreases |ss|
  {
    var init := ss[..|ss| - 1];
    var s := ss[|ss| - 1];
    var d := MemberMap(init, area, rules);
    if ServedAs(s, rules, k) {
      AttendServed(d, s, area, rules, k);
      if k in d.values {
        NameKeyed(init, area, rules, k);
      }
      UpdatedNamed(d, s, area, rules, k);
    } else {
      AttendElsewhere(d, s, area, rules, k);
      NameKeyed(init, area, rules, k);
    }
  }

  /** Every year of an earlier record of that person is at most `y`. */
  ghost predicate NoLaterYear(ss: seq<Service>, area: map<string, string>, rules: NameRules, k: string, y: nat)
  {
    forall z: nat :: Tenure(ss, area, rules, k, AllAreas, InYear(z)) > 0 ==> z <= y
  }

  /** The update test on the stored record: a non-empty affiliation, and an empty stored one or a latest year. */
  predicate Newer(before: Person, aff: string, year: Option<nat>)
  {
    aff != "" && (before.affiliation == "" || (HasYear(year) && Latest(before.overall.years, year.value)))
  }

  lemma UpdateAffiliation(p: Person, raw: string, aff: string, conf: string, year: Option<nat>, area: string, chair: bool)
    ensures var after := Update(p, raw, aff, conf, year, area, chair);
      (Newer(p, aff, year) ==> after.affiliation == aff && after.name == raw)
      && (!Newer(p, aff, year) ==> after.affiliation == p.affiliation && after.name == p.name)
  {
    var overall := Credit(p.overall, conf, year, chair);
    if HasYear(year) {
      assert overall.years == p.overall.years + {year.value};
      assert Latest(overall.years, year.value) <==> Latest(p.overall.years, year.value);
    }
  }

  /**
   * A record with a non-empty affiliation replaces the stored affiliation
   * and display name when the stored affiliation is empty or its year is
   * at least every year seen before for that person, so on equal years the
   * later record wins; otherwise both are kept.
   */
  lemma AffiliationRule(ss: seq<Service>, s: Service, area: map<string, string>, rules: NameRules)
    requires RawName(s) != "" && KeyOf(s, rules) in MemberMap(ss, area, rules).values
    ensures var k := KeyOf(s, rules);
      var before := MemberMap(ss, area, rules).values[k];
      var after := PersonOf(MemberMap(ss + [s], area, rules), k);
      var newer := AffOf(s) != ""
        && (before.affiliation == "" || (HasYear(YearOf(s)) && NoLaterYear(ss, area, rules, k, YearOf(s).value)));
      (newer ==> after.affiliation == AffOf(s) && after.name == RawName(s))
      && (!newer ==> after.affiliation == before.affiliation && after.name == before.name)
  {
    var k := KeyOf(s, rules);
    var d := MemberMap(ss, area, rules);
    var before := d.values[k];
    MemberMapAppend(ss, s, area, rules);
    AttendServed(d, s, area, rules, k);
    assert Prior(d, s, rules) == before;
    UpdateAffiliation(before, RawName(s), AffOf(s), ExtractConfYear(s.confYear).0, YearOf(s),
                      AreaOf(area, s.confYear), Role(s.member) == "chair");
    if HasYear(YearOf(s)) {
      LatestSeen(ss, area, rules, k, YearOf(s).value);
      assert Latest(before.overall.years, YearOf(s).value) <==> NoLaterYear(ss, area, rules, k, YearOf(s).value);
    }
  }

  lemma LatestSeen(ss: seq<Service>, area: map<string, string>, rules: NameRules, k: string, y: nat)
    ensures Latest(PersonOf(MemberMap(ss, area, rules), k).overall.years, y) <==> NoLaterYear(ss, area, rules, k, y)
  {
    forall z ensures z in PersonOf(MemberMap(ss, area, rules), k).overall.years
      <==> Tenure(ss, area, rules, k, AllAreas, InYear(z)) > 0 {
      YearsSeen(ss, area, rules, k, AllAreas, z);
    }
  }

  // ---------------------------------------------------------------------
  // The member loop

  /** The body of the member loop for one entry of a conference-year. */
  method AddRecord(d: People, confYear: string, m: Entry, area: map<string, string>, rules: NameRules)
    returns (r: People)
    ensures r == Attend(d, Service(confYear, m), area, rules)
  {
    var nameRaw := Strip(m.name);
    if nameRaw == "" {
      return d;
    }
    var norm := NormalizeAsWritten(nameRaw, rules);
    var chair := Role(m) == "chair";
    var affiliation := StripSet(m.affiliation, ServiceMarks);
    var (confName, year) := ExtractConfYear(confYear);
    var a := AreaOf(area, confYear);
    var rec := if norm in d.values then d.values[norm] else Newcomer(nameRaw, affiliation);
    rec := UpdateRecord(rec, nameRaw, affiliation, confName, year, a, chair);
    r := Put(d, norm, rec);
  }

  /** The in-place updates of a member's record for one membership. */
  method UpdateRecord(p: Person, raw: string, aff: string, conf: string, year: Option<nat>, area: string, chair: bool)
    returns (rec: Person)
    ensures rec == Update(p, raw, aff, conf, year, area, chair)
  {
    rec := p.(overall := Credit(p.overall, conf, year, chair));
    if area == "systems" || area == "security" {
      rec := rec.(areas := rec.areas + {area});
    }
    if aff != "" && (rec.affiliation == "" || (HasYear(year) && Latest(rec.overall.years, year.value))) {
      rec := rec.(affiliation := aff, name := raw);
    }
    if area == "systems" {
      rec := rec.(systems := Credit(rec.systems, conf, year, chair));
    } else if area == "security" {
      rec := rec.(security := Credit(rec.security, conf, year, chair));
    }
  }

  /** One more member of a conference extends the fold by one record. */
  lemma ConferenceStep(done: seq<Service>, c: string, ms: seq<Entry>, j: nat, area: map<string, string>, rules: NameRules)
    requires j < |ms|
    ensures MemberMap(done + ServicesOf(c, ms[..j + 1]), area, rules)
         == Attend(MemberMap(done + ServicesOf(c, ms[..j]), area, rules), Service(c, ms[j]), area, rules)
  {
    assert done + ServicesOf(c, ms[..j + 1]) == (done + ServicesOf(c, ms[..j])) + [Service(c, ms[j])];
    MemberMapAppend(done + ServicesOf(c, ms[..j]), Service(c, ms[j]), area, rules);
  }

  /** The records of one more conference-year follow those of the earlier ones. */
  lemma ServicesStep(results: Results, confs: seq<string>, i: nat)
    requires i < |confs|
    ensures Services(results, confs[..i + 1]) == Services(results, confs[..i]) + ServicesOf(confs[i], MembersOf(results, confs[i]))
  {
    assert confs[..i + 1][..i] == confs[..i];
  }

  /** The inner member loop: the entries of conference-year `c`, in order, on top of `d`. */
  method CollectConference(d: People, ghost done: seq<Service>, c: string, members: seq<Entry>,
                           area: map<string, string>, rules: NameRules) returns (r: People)
    requires d == MemberMap(done, area, rules)
    ensures r == MemberMap(done + ServicesOf(c, members), area, rules)
  {
    r := d;
    assert done + ServicesOf(c, members[..0]) == done;
    var j := 0;
    while j < |members|
      invariant 0 <= j <= |members|
      invariant r == MemberMap(done + ServicesOf(c, members[..j]), area, rules)
    {
      ConferenceStep(done, c, members, j, area, rules);
      r := AddRecord(r, c, members[j], area, rules);
      j := j + 1;
    }
    assert members[..j] == members;
  }

  /**
   * The member loop of `_compute_recurring_members`: every entry of every
   * conference-year, in the results' order.
   */
  method CollectMembers(results: Results, area: map<string, string>, rules: NameRules) returns (d: People)
    ensures d == MemberMap(Services(results, results.keys), area, rules)
  {
    var confs := results.keys;
    d := Empty();
    var i := 0;
    while i < |confs|
      invariant 0 <= i <= |confs|
      invariant d == MemberMap(Services(results, confs[..i]), area, rules)
    {
      ServicesStep(results, confs, i);
      d := CollectConference(d, Services(results, confs[..i]), confs[i], MembersOf(results, confs[i]), area, rules);
      i := i + 1;
    }
    assert confs[..i] == confs;
  }
}
