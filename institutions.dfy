/**
 * `generate_institution_rankings.py`: the combined ranking of people folded
 * into one record per institution (sums of the people's counts, their
 * author rows, the union of their conferences and their yearly counts
 * merged), keeping the institutions with a combined score of at least 3,
 * highest score first.
 */
module Institutions {
  import opened Wrappers
  import opened Strings
  import opened Seqs
  import opened Dicts
  import opened Ordering
  import opened Groups

  // ---------------------------------------------------------------------
  // People and their institutions

  /**
   * One entry of the combined ranking. A missing number reads as 0, a
   * missing affiliation or name as "", missing conferences or years as
   * empty; `years` keeps the dict's key order.
   */
  datatype Person = Person(name: string, affiliation: string, combinedScore: int, artifacts: int,
                           functional: int, reproducible: int, aeMemberships: int, chairCount: int,
                           totalPapers: int, conferences: seq<string>, years: Dict<string, int>)

  /** The name every placeholder affiliation is pooled under. */
  const Pooled := "Unknown"

  /** No affiliation, `Unknown`, or a placeholder starting with `_`. */
  predicate Placeholder(a: string)
  {
    a == "" || a == Pooled || a[0] == '_'
  }

  /** The stripped affiliation, or `Unknown` for a placeholder. */
  function InstitutionOf(p: Person): string
  {
    var a := Strip(p.affiliation);
    if Placeholder(a) then Pooled else a
  }

  /**
   * Placeholders are pooled under `Unknown` and every other affiliation
   * stands for itself, stripped; no institution is empty, starts with `_`
   * or carries surrounding whitespace.
   */
  lemma InstitutionOfMeaning(p: Person)
    ensures Placeholder(Strip(p.affiliation)) ==> InstitutionOf(p) == Pooled
    ensures !Placeholder(Strip(p.affiliation)) ==> InstitutionOf(p) == Strip(p.affiliation)
    ensures var k := InstitutionOf(p);
      && k != "" && k[0] != '_'
      && !IsSpace(k[0]) && !IsSpace(k[|k| - 1])
  {
    StripEnds(p.affiliation);
    assert Pooled[0] == 'U' && Pooled[|Pooled| - 1] == 'n';
  }

  // ---------------------------------------------------------------------
  // Merging yearly counts

  /** The count of year `y` in a year-count dict, 0 when absent. */
  function CountIn(d: Dict<string, int>, y: string): int
  {
    if y in d.values then d.values[y] else 0
  }

  /** Adds `count` to the institution's count for `year`, starting from 0. */
  function AddYear(d: Dict<string, int>, y: string, c: int): Dict<string, int>
  {
    Put(d, y, CountIn(d, y) + c)
  }

  /** Adding the counts of the years `ks`, in order, with their counts in `vals`. */
  function MergeKeys(d: Dict<string, int>, ks: seq<string>, vals: map<string, int>): (r: Dict<string, int>)
    ensures d.Valid() ==> r.Valid()
    decreases |ks|
  {
    if |ks| == 0 then d
    else
      var y := ks[|ks| - 1];
      AddYear(MergeKeys(d, ks[..|ks| - 1], vals), y, if y in vals then vals[y] else 0)
  }

  /** The loop over the yearly counts of one person. */
  function MergeYears(d: Dict<string, int>, ys: Dict<string, int>): Dict<string, int>
  {
    MergeKeys(d, ys.keys, ys.values)
  }

  lemma {:induction false} MergeKeysCounts(d: Dict<string, int>, ks: seq<string>, vals: map<string, int>, y: string)
    requires forall i, j :: 0 <= i < j < |ks| ==> ks[i] != ks[j]
    ensures CountIn(MergeKeys(d, ks, vals), y) == CountIn(d, y) + (if y in ks && y in vals then vals[y] else 0)
    ensures y in MergeKeys(d, ks, vals).values <==> y in d.values || y in ks
    decreases |ks|
  {
    if |ks| > 0 {
      var n := |ks| - 1;
      MergeKeysCounts(d, ks[..n], vals, y);
      SnocMember(ks, y);
      if y == ks[n] {
        assert y !in ks[..n];
      }
    }
  }

  /**
   * Merging adds each year's count to the count already there, and the
   * merged years are those of either side.
   */
  lemma MergeYearsMeaning(d: Dict<string, int>, ys: Dict<string, int>, y: string)
    requires ys.Valid()
    ensures CountIn(MergeYears(d, ys), y) == CountIn(d, y) + CountIn(ys, y)
    ensures y in MergeYears(d, ys).values <==> y in d.values || y in ys.values
  {
    MergeKeysCounts(d, ys.keys, ys.values, y);
  }

  /** The loop merging one person's years into the institution's. */
  method MergeYearsLoop(d: Dict<string, int>, ys: Dict<string, int>) returns (r: Dict<string, int>)
    ensures r == MergeYears(d, ys)
  {
    r := d;
    var keys := ys.keys;
    for i := 0 to |keys|
      invariant r == MergeKeys(d, keys[..i], ys.values)
    {
      MergeKeysSnoc(d, keys, i, ys.values);
      var y := keys[i];
      var c := if y in ys.values then ys.values[y] else 0;
      r := AddYear(r, y, c);
    }
    assert keys[..|keys|] == keys;
  }

  lemma MergeKeysSnoc(d: Dict<string, int>, ks: seq<string>, i: nat, vals: map<string, int>)
    requires i < |ks|
    ensures MergeKeys(d, ks[..i + 1], vals) == AddYear(MergeKeys(d, ks[..i], vals), ks[i], if ks[i] in vals then vals[ks[i]] else 0)
  {
    assert ks[..i + 1][..i] == ks[..i];
  }

  // ---------------------------------------------------------------------
  // One institution's record

  /** The author details kept for the expandable view. */
  datatype AuthorRow = AuthorRow(name: string, combinedScore: int, artifacts: int, aeMemberships: int, totalPapers: int)

  function AuthorOf(p: Person): AuthorRow
  {
    AuthorRow(p.name, p.combinedScore, p.artifacts, p.aeMemberships, p.totalPapers)
  }

  /** An entry of `inst_data`. */
  datatype Inst = Inst(affiliation: string, combinedScore: int, artifacts: int, functional: int,
                       reproducible: int, aeMemberships: int, chairCount: int, totalPapers: int,
                       authors: seq<AuthorRow>, conferences: set<string>, years: Dict<string, int>)

  /** The record the `defaultdict` creates for a new institution. */
  function Zero(): Inst
  {
    Inst("", 0, 0, 0, 0, 0, 0, 0, [], {}, Empty())
  }

  function ConfSet(p: Person): set<string>
  {
    set c | c in p.conferences
  }

  /** The loop body: person `p` added to the record of institution `k`. */
  function Absorb(inst: Inst, p: Person, k: string): Inst
  {
    Inst(k, inst.combinedScore + p.combinedScore, inst.artifacts + p.artifacts,
         inst.functional + p.functional, inst.reproducible + p.reproducible,
         inst.aeMemberships + p.aeMemberships, inst.chairCount + p.chairCount,
         inst.totalPapers + p.totalPapers, inst.authors + [AuthorOf(p)],
         inst.conferences + ConfSet(p), MergeYears(inst.years, p.years))
  }

  function AbsorbAt(k: string): (Inst, Person) -> Inst
  {
    (inst: Inst, p: Person) => Absorb(inst, p, k)
  }

  /** The record of institution `k` after absorbing the people `g` in order. */
  function Absorbed(g: seq<Person>, k: string): Inst
  {
    Fold(Zero(), g, AbsorbAt(k))
  }

  /** The summed counters. */
  datatype Metric = Score | Artifacts | Functional | Reproducible | AeMemberships | Chairs | Papers

  function PersonMetric(p: Person, m: Metric): int
  {
    match m
    case Score => p.combinedScore
    case Artifacts => p.artifacts
    case Functional => p.functional
    case Reproducible => p.reproducible
    case AeMemberships => p.aeMemberships
    case Chairs => p.chairCount
    case Papers => p.totalPapers
  }

  function MetricOf(m: Metric): Person -> int
  {
    (p: Person) => PersonMetric(p, m)
  }

  function InstMetric(inst: Inst, m: Metric): int
  {
    match m
    case Score => inst.combinedScore
    case Artifacts => inst.artifacts
    case Functional => inst.functional
    case Reproducible => inst.reproducible
    case AeMemberships => inst.aeMemberships
    case Chairs => inst.chairCount
    case Papers => inst.totalPapers
  }

  /** Each counter of the record is the sum of that counter over its people. */
  lemma {:induction false} AbsorbedTotals(g: seq<Person>, k: string, m: Metric)
    ensures InstMetric(Absorbed(g, k), m) == Sum(g, MetricOf(m))
    decreases |g|
  {
    if |g| > 0 {
      AbsorbedTotals(g[..|g| - 1], k, m);
    }
  }

  /** The last person is absorbed into the record of those before. */
  lemma AbsorbedSnoc(g: seq<Person>, k: string)
    requires |g| > 0
    ensures Absorbed(g, k) == Absorb(Absorbed(g[..|g| - 1], k), g[|g| - 1], k)
  {
  }

  /** The record lists one author row per person, in order, under the institution's name. */
  lemma {:induction false} AbsorbedAuthors(g: seq<Person>, k: string)
    ensures Absorbed(g, k).authors == MapSeq(g, AuthorOf)
    ensures |g| > 0 ==> Absorbed(g, k).affiliation == k
    decreases |g|
  {
    if |g| > 0 {
      AbsorbedAuthors(g[..|g| - 1], k);
    }
  }

  /** The conferences listed by any of the people `g`. */
  ghost function ConfsOf(g: seq<Person>): set<string>
  {
    if |g| == 0 then {} else ConfsOf(g[..|g| - 1]) + ConfSet(g[|g| - 1])
  }

  lemma {:induction false} AbsorbedConfs(g: seq<Person>, k: string)
    ensures Absorbed(g, k).conferences == ConfsOf(g)
    decreases |g|
  {
    if |g| > 0 {
      AbsorbedConfs(g[..|g| - 1], k);
      AbsorbedSnoc(g, k);
    }
  }

  lemma {:induction false} ConfsOfMember(g: seq<Person>, c: string)
    ensures c in ConfsOf(g) <==> exists i :: 0 <= i < |g| && c in g[i].conferences
    decreases |g|
  {
    if |g| > 0 {
      var n := |g| - 1;
      ConfsOfMember(g[..n], c);
      assert c in ConfsOf(g) <==> c in ConfsOf(g[..n]) || c in g[n].conferences;
      if exists i :: 0 <= i < |g| && c in g[i].conferences {
        var i :| 0 <= i < |g| && c in g[i].conferences;
        if i < n {
          assert g[..n][i] == g[i];
        }
      }
      if exists i :: 0 <= i < n && c in g[..n][i].conferences {
        var i :| 0 <= i < n && c in g[..n][i].conferences;
        assert g[i] == g[..n][i];
      }
    }
  }

  /** The record's conferences are those listed by any of its people. */
  lemma AbsorbedConferences(g: seq<Person>, k: string, c: string)
    ensures c in Absorbed(g, k).conferences <==> exists i :: 0 <= i < |g| && c in g[i].conferences
  {
    AbsorbedConfs(g, k);
    ConfsOfMember(g, c);
  }

  function YearOf(y: string): Person -> int
  {
    (p: Person) => CountIn(p.years, y)
  }

  /** The record's count of a year is the sum of its people's counts of that year. */
  lemma {:induction false} AbsorbedYears(g: seq<Person>, k: string, y: string)
    requires forall i :: 0 <= i < |g| ==> g[i].years.Valid()
    ensures Absorbed(g, k).years.Valid()
    ensures CountIn(Absorbed(g, k).years, y) == Sum(g, YearOf(y))
    decreases |g|
  {
    if |g| > 0 {
      var n := |g| - 1;
      assert forall i :: 0 <= i < n ==> g[..n][i] == g[i];
      AbsorbedYears(g[..n], k, y);
      MergeYearsMeaning(Absorbed(g[..n], k).years, g[n].years, y);
    }
  }

  // ---------------------------------------------------------------------
  // The aggregation loop

  /** The record of institution `k`, an empty one on first use. */
  function At(d: Dict<string, Inst>, k: string): Inst
  {
    if k in d.values then d.values[k] else Zero()
  }

  /** One person added to `inst_data`. */
  function Note(d: Dict<string, Inst>, p: Person): Dict<string, Inst>
  {
    var k := InstitutionOf(p);
    Put(d, k, Absorb(At(d, k), p, k))
  }

  /** `inst_data` after the loop over the people. */
  function Aggregate(people: seq<Person>): Dict<string, Inst>
  {
    Fold(Empty(), people, Note)
  }

  /** The people of institution `k`, in input order. */
  function Members(people: seq<Person>, k: string): seq<Person>
  {
    Filter(people, InGroup(InstitutionOf, k))
  }

  /** What one person added to `inst_data` leaves at institution `k`. */
  lemma NoteAt(d: Dict<string, Inst>, p: Person, k: string)
    requires d.Valid()
    ensures Note(d, p).Valid()
    ensures k in Note(d, p).values <==> k in d.values || InstitutionOf(p) == k
    ensures InstitutionOf(p) == k ==> Note(d, p).values[k] == Absorb(At(d, k), p, k)
    ensures InstitutionOf(p) != k && k in d.values ==> Note(d, p).values[k] == d.values[k]
  {
  }

  /**
   * An institution has a record exactly when some person belongs to it, and
   * the record is that of its people absorbed in input order.
   */
  lemma {:induction false} AggregateAt(people: seq<Person>, k: string)
    ensures Aggregate(people).Valid()
    ensures k in Aggregate(people).values <==> |Members(people, k)| > 0
    ensures k in Aggregate(people).values ==> Aggregate(people).values[k] == Absorbed(Members(people, k), k)
    decreases |people|
  {
    if |people| > 0 {
      var n := |people| - 1;
      var init, p := people[..n], people[n];
      AggregateAt(init, k);
      assert people == init + [p];
      FilterSnoc(init, p, InstitutionOf, k);
      var d := Aggregate(init);
      assert Aggregate(people) == Note(d, p);
      NoteAt(d, p, k);
      if InstitutionOf(p) == k {
        FoldSnoc(Zero(), Members(init, k), p, AbsorbAt(k));
      } else {
        assert Members(people, k) == Members(init, k);
      }
    }
  }

  /** Institutions appear in the order of their first person. */
  lemma {:induction false} AggregateKeys(people: seq<Person>)
    ensures Aggregate(people).keys == Dedup(MapSeq(people, InstitutionOf))
    decreases |people|
  {
    if |people| > 0 {
      var n := |people| - 1;
      AggregateKeys(people[..n]);
      AggregateAt(people[..n], InstitutionOf(people[n]));
      MapSeqSnoc(people, n, InstitutionOf);
      assert people[..n + 1] == people;
      var d := Aggregate(people[..n]);
      var k := InstitutionOf(people[n]);
      PutKeysDedup(d, MapSeq(people[..n], InstitutionOf), k, Absorb(At(d, k), people[n], k));
    }
  }

  // ---------------------------------------------------------------------
  // The output rows

  /** One row of the output (the floating-point `artifact_rate` is not modelled). */
  datatype Row = Row(affiliation: string, combinedScore: int, artifacts: int, functional: int,
                     reproducible: int, aeMemberships: int, chairCount: int, totalPapers: int,
                     numAuthors: nat, topAuthors: seq<AuthorRow>, conferences: seq<string>,
                     years: Dict<string, int>)

  function AuthorScore(a: AuthorRow): int
  {
    a.combinedScore
  }

  /** The twenty authors of highest combined score, ties in input order. */
  function TopAuthors(authors: seq<AuthorRow>): seq<AuthorRow>
  {
    TopBy(authors, AuthorScore, 20)
  }

  ghost function RowOf(inst: Inst): Row
  {
    Row(inst.affiliation, inst.combinedScore, inst.artifacts, inst.functional, inst.reproducible,
        inst.aeMemberships, inst.chairCount, inst.totalPapers, |inst.authors|, TopAuthors(inst.authors),
        SortedStrings(inst.conferences), inst.years)
  }

  /** The row of institution `k`, when its combined score is at least 3. */
  ghost function Listed(d: Dict<string, Inst>, k: string): Option<Row>
  {
    if k in d.values && d.values[k].combinedScore >= 3 then Some(RowOf(d.values[k])) else None
  }

  ghost function ListedIn(d: Dict<string, Inst>): string -> Option<Row>
  {
    (k: string) => Listed(d, k)
  }

  function RowScore(r: Row): int
  {
    r.combinedScore
  }

  /** The institutions by descending combined score, ties in input order. */
  function SortRows(rows: seq<Row>): seq<Row>
  {
    DescStrict(RowScore);
    SortBy(rows, Desc(RowScore))
  }

  /** `aggregate_by_institution` */
  ghost function Institutions(people: seq<Person>): seq<Row>
  {
    var d := Aggregate(people);
    SortRows(FilterMap(d.keys, ListedIn(d)))
  }

  function RowMetric(r: Row, m: Metric): int
  {
    match m
    case Score => r.combinedScore
    case Artifacts => r.artifacts
    case Functional => r.functional
    case Reproducible => r.reproducible
    case AeMemberships => r.aeMemberships
    case Chairs => r.chairCount
    case Papers => r.totalPapers
  }

  /**
   * The row of an institution with people names it, every counter is the
   * sum over its people, and `num_authors` is their number.
   */
  lemma RowTotals(people: seq<Person>, k: string)
    requires |Members(people, k)| > 0
    ensures var g := Members(people, k);
      var r := RowOf(Absorbed(g, k));
      && r.affiliation == k
      && (forall m :: RowMetric(r, m) == Sum(g, MetricOf(m)))
      && r.numAuthors == |g|
  {
    AbsorbedRow(Members(people, k), k);
  }

  lemma AbsorbedRow(g: seq<Person>, k: string)
    requires |g| > 0
    ensures var r := RowOf(Absorbed(g, k));
      && r.affiliation == k
      && (forall m :: RowMetric(r, m) == Sum(g, MetricOf(m)))
      && r.numAuthors == |g|
  {
    forall m ensures RowMetric(RowOf(Absorbed(g, k)), m) == Sum(g, MetricOf(m)) {
      AbsorbedRowMetric(g, k, m);
    }
    AbsorbedAuthors(g, k);
  }

  lemma AbsorbedRowMetric(g: seq<Person>, k: string, m: Metric)
    ensures RowMetric(RowOf(Absorbed(g, k)), m) == Sum(g, MetricOf(m))
  {
    var inst := Absorbed(g, k);
    AbsorbedTotals(g, k, m);
    RowOfMetric(inst, m);
  }

  lemma RowOfMetric(inst: Inst, m: Metric)
    ensures RowMetric(RowOf(inst), m) == InstMetric(inst, m)
  {
  }

  /**
   * `top_authors` holds the (at most 20) highest-scoring author rows of the
   * institution's people, highest first; of the rows with one score it keeps
   * the earliest, in input order.
   */
  lemma RowTop(people: seq<Person>, k: string)
    ensures var g := Members(people, k);
      var top := RowOf(Absorbed(g, k)).topAuthors;
      && |top| == (if |g| < 20 then |g| else 20)
      && SortedBy(top, Desc(AuthorScore))
      && multiset(top) <= multiset(MapSeq(g, AuthorOf))
      && (forall a, t :: a in multiset(MapSeq(g, AuthorOf)) - multiset(top) && t in top ==> a.combinedScore <= t.combinedScore)
      && forall v :: Filter(top, KeyIs(AuthorScore, v)) <= Filter(MapSeq(g, AuthorOf), KeyIs(AuthorScore, v))
  {
    AbsorbedTop(Members(people, k), k);
  }

  lemma AbsorbedTop(g: seq<Person>, k: string)
    ensures var top := RowOf(Absorbed(g, k)).topAuthors;
      && |top| == (if |g| < 20 then |g| else 20)
      && SortedBy(top, Desc(AuthorScore))
      && multiset(top) <= multiset(MapSeq(g, AuthorOf))
      && (forall a, t :: a in multiset(MapSeq(g, AuthorOf)) - multiset(top) && t in top ==> a.combinedScore <= t.combinedScore)
      && forall v :: Filter(top, KeyIs(AuthorScore, v)) <= Filter(MapSeq(g, AuthorOf), KeyIs(AuthorScore, v))
  {
    AbsorbedAuthors(g, k);
    var authors := Absorbed(g, k).authors;
    RowOfTop(Absorbed(g, k));
    var top := TopBy(authors, AuthorScore, 20);
    TopByMeaning(authors, AuthorScore, 20);
    forall a: AuthorRow, t: AuthorRow | a in multiset(authors) - multiset(top) && t in top
      ensures a.combinedScore <= t.combinedScore
    {
      assert AuthorScore(a) <= AuthorScore(t);
    }
  }

  lemma RowOfTop(inst: Inst)
    ensures RowOf(inst).topAuthors == TopBy(inst.authors, AuthorScore, 20)
  {
  }

  /**
   * The row's conferences are, in sorted order, those listed by any of its
   * people, and its count of each year is the sum of their counts.
   */
  lemma RowMerges(people: seq<Person>, k: string)
    requires forall i :: 0 <= i < |people| ==> people[i].years.Valid()
    ensures var g := Members(people, k);
      var r := RowOf(Absorbed(g, k));
      && AscendingBy(r.conferences, StrOrder())
      && (forall c :: c in r.conferences <==> exists i :: 0 <= i < |g| && c in g[i].conferences)
      && r.years.Valid()
      && forall y :: CountIn(r.years, y) == Sum(g, YearOf(y))
  {
    var g := Members(people, k);
    forall i | 0 <= i < |g| ensures g[i].years.Valid() {
      FilterMembers(people, InGroup(InstitutionOf, k), g[i]);
    }
    forall c ensures c in RowOf(Absorbed(g, k)).conferences <==> exists i :: 0 <= i < |g| && c in g[i].conferences {
      AbsorbedConferences(g, k, c);
    }
    forall y ensures CountIn(RowOf(Absorbed(g, k)).years, y) == Sum(g, YearOf(y)) {
      AbsorbedYears(g, k, y);
    }
    AbsorbedYears(g, k, "");
  }

  /**
   * The output is sorted by combined score, highest first, and holds the
   * rows kept from `inst_data`; rows of equal score keep their order there.
   */
  lemma InstitutionsSorted(people: seq<Person>)
    ensures var d := Aggregate(people);
      && SortedBy(Institutions(people), Desc(RowScore))
      && multiset(Institutions(people)) == multiset(FilterMap(d.keys, ListedIn(d)))
    ensures var d := Aggregate(people);
      forall v :: Filter(Institutions(people), KeyIs(RowScore, v)) == Filter(FilterMap(d.keys, ListedIn(d)), KeyIs(RowScore, v))
  {
    DescStrict(RowScore);
    var d := Aggregate(people);
    forall v ensures Filter(Institutions(people), KeyIs(RowScore, v)) == Filter(FilterMap(d.keys, ListedIn(d)), KeyIs(RowScore, v)) {
      SortDescStable(FilterMap(d.keys, ListedIn(d)), RowScore, v);
    }
  }

  /** Every institution whose people sum to a combined score of at least 3 has its row in the output. */
  lemma InstitutionsComplete(people: seq<Person>, k: string)
    requires |Members(people, k)| > 0 && Sum(Members(people, k), MetricOf(Score)) >= 3
    ensures RowOf(Absorbed(Members(people, k), k)) in Institutions(people)
  {
    var d := Aggregate(people);
    var listed := FilterMap(d.keys, ListedIn(d));
    AggregateAt(people, k);
    AbsorbedTotals(Members(people, k), k, Score);
    var i :| 0 <= i < |d.keys| && d.keys[i] == k;
    FilterMapKeeps(d.keys, ListedIn(d), i);
    InstitutionsSorted(people);
    assert RowOf(d.values[k]) in multiset(listed);
  }

  /** Every output row is that of an institution with people, summing to a combined score of at least 3. */
  lemma InstitutionsSound(people: seq<Person>, r: Row)
    requires r in Institutions(people)
    ensures |Members(people, r.affiliation)| > 0 && r.combinedScore >= 3
    ensures r == RowOf(Absorbed(Members(people, r.affiliation), r.affiliation))
  {
    var d := Aggregate(people);
    InstitutionsSorted(people);
    var j := RowListed(d, r);
    AggregateAt(people, j);
    AbsorbedAuthors(Members(people, j), j);
  }

  /** A row kept from `inst_data` is that of a recorded institution with a combined score of at least 3. */
  lemma RowListed(d: Dict<string, Inst>, r: Row) returns (k: string)
    requires r in multiset(FilterMap(d.keys, ListedIn(d)))
    ensures k in d.values && d.values[k].combinedScore >= 3 && r == RowOf(d.values[k])
  {
    var listed := FilterMap(d.keys, ListedIn(d));
    assert r in listed;
    FilterMapMember(d.keys, ListedIn(d), r);
    var i :| 0 <= i < |d.keys| && Listed(d, d.keys[i]) == Some(r);
    k := d.keys[i];
  }

  // ---------------------------------------------------------------------
  // The method

  /** The pooling test on the stripped affiliation. */
  method InstitutionKey(p: Person) returns (k: string)
    ensures k == InstitutionOf(p)
  {
    k := Strip(p.affiliation);
    if k == "" || k == Pooled || k[0] == '_' {
      k := Pooled;
    }
  }

  /** One person added to `inst_data` in place. */
  method AddPerson(d: Dict<string, Inst>, p: Person) returns (r: Dict<string, Inst>)
    ensures r == Note(d, p)
  {
    var k := InstitutionKey(p);
    var inst := At(d, k);
    var years := MergeYearsLoop(inst.years, p.years);
    inst := Inst(k, inst.combinedScore + p.combinedScore, inst.artifacts + p.artifacts,
                 inst.functional + p.functional, inst.reproducible + p.reproducible,
                 inst.aeMemberships + p.aeMemberships, inst.chairCount + p.chairCount,
                 inst.totalPapers + p.totalPapers, inst.authors + [AuthorOf(p)],
                 inst.conferences + ConfSet(p), years);
    r := Put(d, k, inst);
  }

  /** The loop converting `inst_data` to rows, keeping a combined score of at least 3. */
  method ListRows(d: Dict<string, Inst>) returns (rows: seq<Row>)
    requires d.Valid()
    ensures rows == FilterMap(d.keys, ListedIn(d))
  {
    rows := [];
    var keys := d.keys;
    for i := 0 to |keys|
      invariant rows == FilterMap(keys[..i], ListedIn(d))
    {
      FilterMapSnoc(keys, i, ListedIn(d));
      var row := ListRow(d, keys[i]);
      if row.Some? {
        rows := rows + [row.value];
      }
    }
    assert keys[..|keys|] == keys;
  }

  /** One iteration: the row of institution `k`, if its combined score is at least 3. */
  method ListRow(d: Dict<string, Inst>, k: string) returns (row: Option<Row>)
    requires k in d.values
    ensures row == Listed(d, k)
  {
    var data := d.values[k];
    var top := TopAuthors(data.authors);
    row := None;
    if data.combinedScore >= 3 {
      var confs := SortStrings(data.conferences);
      row := Some(Row(data.affiliation, data.combinedScore, data.artifacts, data.functional,
                      data.reproducible, data.aeMemberships, data.chairCount, data.totalPapers,
                      |data.authors|, top, confs, data.years));
    }
  }

  /** `aggregate_by_institution` */
  method AggregateByInstitution(people: seq<Person>) returns (r: seq<Row>)
    ensures r == Institutions(people)
  {
    var d: Dict<string, Inst> := Empty();
    for i := 0 to |people|
      invariant d == Aggregate(people[..i])
    {
      assert people[..i + 1][..i] == people[..i];
      d := AddPerson(d, people[i]);
    }
    assert people[..|people|] == people;
    AggregateAt(people, "");
    var rows := ListRows(d);
    r := SortRows(rows);
  }
}
