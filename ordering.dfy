/**
 * The orders the pipeline sorts by: Python's order on strings (code-point
 * lexicographic) and a stable sort by a strict order, which is what
 * Python's sort by a key computes, with or without reversal.
 */
module Ordering {
  import opened Seqs

  /** Python's less-than on strings. */
  predicate StrLt(a: string, b: string)
    decreases |a|
  {
    |b| > 0 && (|a| == 0 || a[0] < b[0] || (a[0] == b[0] && StrLt(a[1..], b[1..])))
  }

  lemma {:induction false} StrLtIrreflexive(a: string)
    ensures !StrLt(a, a)
    decreases |a|
  {
    if |a| > 0 {
      StrLtIrreflexive(a[1..]);
    }
  }

  lemma {:induction false} StrLtTransitive(a: string, b: string, c: string)
    requires StrLt(a, b) && StrLt(b, c)
    ensures StrLt(a, c)
    decreases |a|
  {
    if |a| > 0 && a[0] == b[0] && b[0] == c[0] {
      StrLtTransitive(a[1..], b[1..], c[1..]);
    }
  }

  lemma {:induction false} StrLtTotal(a: string, b: string)
    ensures a == b || StrLt(a, b) || StrLt(b, a)
    decreases |a|
  {
    if |a| > 0 && |b| > 0 && a[0] == b[0] {
      StrLtTotal(a[1..], b[1..]);
      if a[1..] == b[1..] {
        assert a == [a[0]] + a[1..] && b == [b[0]] + b[1..];
      }
    }
  }

  /** `lt` is irreflexive and transitive, as the comparison of sort keys is. */
  ghost predicate StrictOrder<T(!new)>(lt: (T, T) -> bool)
  {
    (forall a :: !lt(a, a))
    && (forall a, b, c :: lt(a, b) && lt(b, c) ==> lt(a, c))
  }

  /** No element is strictly less than an element before it. */
  predicate SortedBy<T>(s: seq<T>, lt: (T, T) -> bool)
  {
    forall i, j :: 0 <= i < j < |s| ==> !lt(s[j], s[i])
  }

  /** Put `x` before the first element that it is strictly less than. */
  function Insert<T>(x: T, s: seq<T>, lt: (T, T) -> bool): (r: seq<T>)
    ensures multiset(r) == multiset(s) + multiset{x}
    ensures |r| == |s| + 1
  {
    if |s| == 0 then [x]
    else if lt(x, s[0]) then [x] + s
    else
      assert s == [s[0]] + s[1..];
      [s[0]] + Insert(x, s[1..], lt)
  }

  lemma {:induction false} InsertSorted<T(!new)>(x: T, s: seq<T>, lt: (T, T) -> bool)
    requires StrictOrder(lt) && SortedBy(s, lt)
    ensures SortedBy(Insert(x, s, lt), lt)
    decreases |s|
  {
    if |s| > 0 && !lt(x, s[0]) {
      var t := s[1..];
      assert SortedBy(t, lt);
      InsertSorted(x, t, lt);
      var r := Insert(x, s, lt);
      var ri := Insert(x, t, lt);
      assert r == [s[0]] + ri;
      assert forall k :: 0 <= k < |ri| ==> ri[k] in multiset(t) + multiset{x};
      forall j | 0 < j < |r|
        ensures !lt(r[j], r[0])
      {
        assert r[j] == ri[j - 1];
        assert r[j] in multiset(t) + multiset{x};
        if r[j] != x {
          assert r[j] in t;
        }
      }
    }
  }

  /** Insertion sort by the strict order `lt`; elements tied under `lt` keep their input order (`SortByStable`). */
  function SortBy<T(!new)>(s: seq<T>, lt: (T, T) -> bool): (r: seq<T>)
    requires StrictOrder(lt)
    ensures multiset(r) == multiset(s)
    ensures |r| == |s|
    ensures SortedBy(r, lt)
    decreases |s|
  {
    if |s| == 0 then []
    else
      var x := s[|s| - 1];
      var init := SortBy(s[..|s| - 1], lt);
      InsertSorted(x, init, lt);
      assert s == s[..|s| - 1] + [x];
      assert multiset(s) == multiset(s[..|s| - 1]) + multiset{x};
      Insert(x, init, lt)
  }

  /** Elements of `c` are tied under `lt`: none is below another. */
  ghost predicate TiedWithin<T(!new)>(c: T -> bool, lt: (T, T) -> bool)
  {
    forall a, b :: c(a) && c(b) ==> !lt(a, b)
  }

  /** Elements of `c` are below the same elements. */
  ghost predicate TiedAlike<T(!new)>(c: T -> bool, lt: (T, T) -> bool)
  {
    forall a, b, y :: c(a) && c(b) && lt(a, y) ==> lt(b, y)
  }

  /** A class of elements that `lt` cannot tell apart, such as the elements of one sort key. */
  ghost predicate TieClass<T(!new)>(c: T -> bool, lt: (T, T) -> bool)
  {
    TiedWithin(c, lt) && TiedAlike(c, lt)
  }

  ghost predicate Irreflexive<T(!new)>(lt: (T, T) -> bool)
  {
    forall a :: !lt(a, a)
  }

  /** When `x` goes before a sorted sequence, no element of the sequence is tied with `x`. */
  lemma NoneTiedAfter<T(!new)>(r: seq<T>, lt: (T, T) -> bool, c: T -> bool, x: T)
    requires SortedBy(r, lt) && |r| > 0 && lt(x, r[0])
    requires Irreflexive(lt) && TieClass(c, lt) && c(x)
    ensures Filter(r, c) == []
  {
    var f := r[0];
    assert !lt(f, f);
    forall j | 0 <= j < |r| ensures !c(r[j]) {
      var y := r[j];
      assert c(y) ==> lt(y, f);
      assert j > 0 ==> !lt(y, f);
    }
    FilterNone(r, c);
  }

  /** Inserting `x` in front of a sorted sequence whose first element is above it. */
  lemma InsertFront<T(!new)>(x: T, r: seq<T>, lt: (T, T) -> bool, c: T -> bool)
    requires SortedBy(r, lt) && |r| > 0 && lt(x, r[0])
    requires Irreflexive(lt) && TieClass(c, lt)
    ensures Filter([x] + r, c) == Filter(r, c) + (if c(x) then [x] else [])
  {
    FilterAppend([x], r, c);
    assert [x] == [] + [x];
    if c(x) {
      NoneTiedAfter(r, lt, c, x);
    }
  }

  /** Inserting `x` places it after every element tied with it. */
  lemma {:induction false} InsertFilter<T(!new)>(x: T, r: seq<T>, lt: (T, T) -> bool, c: T -> bool)
    requires Irreflexive(lt) && SortedBy(r, lt) && TieClass(c, lt)
    ensures Filter(Insert(x, r, lt), c) == Filter(r, c) + (if c(x) then [x] else [])
    decreases |r|
  {
    if |r| == 0 {
      assert Insert(x, r, lt) == [] + [x];
    } else if lt(x, r[0]) {
      InsertFront(x, r, lt, c);
    } else {
      var t := r[1..];
      assert SortedBy(t, lt);
      InsertFilter(x, t, lt, c);
      FilterConsShift([r[0]], Insert(x, t, lt), t, if c(x) then [x] else [], c);
      assert r == [r[0]] + t;
    }
  }

  /** The sort is stable: the elements of a tie class come out in their input order. */
  lemma {:induction false} SortByStable<T(!new)>(s: seq<T>, lt: (T, T) -> bool, c: T -> bool)
    requires StrictOrder(lt) && TieClass(c, lt)
    ensures Filter(SortBy(s, lt), c) == Filter(s, c)
    decreases |s|
  {
    if |s| > 0 {
      var init := s[..|s| - 1];
      SortByStable(init, lt, c);
      InsertFilter(s[|s| - 1], SortBy(init, lt), lt, c);
    }
  }

  /** Sorted output of a sort keeps exactly the elements of its input. */
  lemma SortByMembers<T(!new)>(s: seq<T>, lt: (T, T) -> bool, x: T)
    requires StrictOrder(lt)
    ensures x in SortBy(s, lt) <==> x in s
  {
    assert x in SortBy(s, lt) <==> x in multiset(SortBy(s, lt));
    assert x in s <==> x in multiset(s);
  }

  /** Keys compared in descending order, as a reversed sort by a key compares them. */
  function Desc<T>(key: T -> int): (T, T) -> bool
  {
    (a: T, b: T) => key(a) > key(b)
  }

  lemma DescStrict<T(!new)>(key: T -> int)
    ensures StrictOrder(Desc(key))
  {
  }

  /** The elements whose key is `k`. */
  function KeyIs<T>(key: T -> int, k: int): T -> bool
  {
    (x: T) => key(x) == k
  }

  /** The elements of one key are a tie class of the descending order. */
  lemma KeyTies<T(!new)>(key: T -> int, k: int)
    ensures TieClass(KeyIs(key, k), Desc(key))
  {
  }

  /** Sorting by descending key keeps the elements of each key in their input order. */
  lemma SortDescStable<T(!new)>(s: seq<T>, key: T -> int, k: int)
    ensures StrictOrder(Desc(key))
    ensures Filter(SortBy(s, Desc(key)), KeyIs(key, k)) == Filter(s, KeyIs(key, k))
  {
    DescStrict(key);
    KeyTies(key, k);
    SortByStable(s, Desc(key), KeyIs(key, k));
  }

  /** Keys compared in ascending order, as a sort by a key compares them. */
  function Asc<T>(key: T -> int): (T, T) -> bool
  {
    (a: T, b: T) => key(a) < key(b)
  }

  lemma AscStrict<T(!new)>(key: T -> int)
    ensures StrictOrder(Asc(key))
  {
  }

  /** The prefix of a sorted sequence is sorted. */
  lemma SortedPrefix<T>(s: seq<T>, lt: (T, T) -> bool, n: nat)
    requires SortedBy(s, lt) && n <= |s|
    ensures SortedBy(s[..n], lt)
  {
  }

  /** The first `n` elements of `s` in descending order of `key`, ties in input order. */
  function TopBy<T(!new)>(s: seq<T>, key: T -> int, n: nat): seq<T>
  {
    DescStrict(key);
    var sorted := SortBy(s, Desc(key));
    sorted[..if |sorted| < n then |sorted| else n]
  }

  /**
   * The cut keeps `n` elements, or all when there are fewer, in descending
   * order of the key, taken from `s`; every element left out has a key no
   * larger than that of any kept one, and of the elements of one key the
   * cut keeps the earliest of the input.
   */
  lemma TopByMeaning<T(!new)>(s: seq<T>, key: T -> int, n: nat)
    ensures var top := TopBy(s, key, n);
      && |top| == (if |s| < n then |s| else n)
      && SortedBy(top, Desc(key))
      && multiset(top) <= multiset(s)
      && forall e, t :: e in multiset(s) - multiset(top) && t in top ==> key(e) <= key(t)
    ensures var top := TopBy(s, key, n);
      forall k :: Filter(top, KeyIs(key, k)) <= Filter(s, KeyIs(key, k))
  {
    DescStrict(key);
    var sorted := SortBy(s, Desc(key));
    var m := if |sorted| < n then |sorted| else n;
    SortedPrefix(sorted, Desc(key), m);
    PrefixParts(sorted, m);
    forall e, t | e in multiset(s) - multiset(sorted[..m]) && t in sorted[..m]
      ensures key(e) <= key(t)
    {
      LeftOut(sorted, key, m, e, t);
    }
    forall k ensures Filter(sorted[..m], KeyIs(key, k)) <= Filter(s, KeyIs(key, k)) {
      TopTies(s, key, m, k);
    }
  }

  /** Among the elements of one key, the cut keeps the earliest of the input. */
  lemma TopTies<T(!new)>(s: seq<T>, key: T -> int, m: nat, k: int)
    requires StrictOrder(Desc(key)) && m <= |s|
    ensures m <= |SortBy(s, Desc(key))|
    ensures Filter(SortBy(s, Desc(key))[..m], KeyIs(key, k)) <= Filter(s, KeyIs(key, k))
  {
    KeyTies(key, k);
    SortByStable(s, Desc(key), KeyIs(key, k));
    FilterPrefix(SortBy(s, Desc(key)), m, KeyIs(key, k));
  }

  lemma PrefixParts<T>(s: seq<T>, n: nat)
    requires n <= |s|
    ensures multiset(s) == multiset(s[..n]) + multiset(s[n..])
  {
    assert s == s[..n] + s[n..];
  }

  /** An element past the cut of a list sorted by descending key has a key no larger than one before it. */
  lemma LeftOut<T>(sorted: seq<T>, key: T -> int, n: nat, e: T, t: T)
    requires SortedBy(sorted, Desc(key)) && n <= |sorted|
    requires e in multiset(sorted[n..]) && t in sorted[..n]
    ensures key(e) <= key(t)
  {
    assert e in sorted[n..];
    var j :| 0 <= j < |sorted[n..]| && sorted[n..][j] == e;
    var k :| 0 <= k < n && sorted[..n][k] == t;
    assert sorted[n + j] == e && sorted[k] == t;
    assert !Desc(key)(sorted[n + j], sorted[k]);
  }

  /** Python's order on strings, as a comparison for `SortBy`. */
  function StrOrder(): (string, string) -> bool
  {
    (a: string, b: string) => StrLt(a, b)
  }

  lemma StrOrderStrict()
    ensures StrictOrder(StrOrder())
  {
    forall a: string ensures !StrLt(a, a) {
      StrLtIrreflexive(a);
    }
    forall a: string, b: string, c: string | StrLt(a, b) && StrLt(b, c)
      ensures StrLt(a, c)
    {
      StrLtTransitive(a, b, c);
    }
  }

  /** Any two distinct elements are ordered one way or the other. */
  ghost predicate Connected<T(!new)>(lt: (T, T) -> bool)
  {
    forall a, b :: a == b || lt(a, b) || lt(b, a)
  }

  /** Strictly ascending in `lt`: sorted and without repeats. */
  predicate AscendingBy<T>(s: seq<T>, lt: (T, T) -> bool)
  {
    forall i, j :: 0 <= i < j < |s| ==> lt(s[i], s[j])
  }

  /** Python's order on integers, as a comparison for `SortBy`. */
  function NatOrder(): (nat, nat) -> bool
  {
    (a: nat, b: nat) => a < b
  }

  lemma NatOrderStrictTotal()
    ensures StrictOrder(NatOrder()) && Connected(NatOrder())
  {
  }

  /** Python's order on integers of any sign. */
  function IntOrder(): (int, int) -> bool
  {
    (a: int, b: int) => a < b
  }

  lemma IntOrderStrictTotal()
    ensures StrictOrder(IntOrder()) && Connected(IntOrder())
  {
  }

  lemma StrOrderStrictTotal()
    ensures StrictOrder(StrOrder()) && Connected(StrOrder())
  {
    StrOrderStrict();
    forall a: string, b: string ensures a == b || StrLt(a, b) || StrLt(b, a) {
      StrLtTotal(a, b);
    }
  }

  /** A finite non-empty set has a least element under a strict total order. */
  lemma {:induction false} HasLeast<T(!new)>(s: set<T>, lt: (T, T) -> bool)
    requires StrictOrder(lt) && Connected(lt) && s != {}
    ensures exists x :: x in s && forall y :: y in s ==> !lt(y, x)
    decreases |s|
  {
    var z :| z in s;
    var rest := s - {z};
    if rest == {} {
      assert s == {z};
      assert !lt(z, z);
    } else {
      HasLeast(rest, lt);
      var m :| m in rest && forall y :: y in rest ==> !lt(y, m);
      if lt(z, m) {
        forall y | y in s ensures !lt(y, z) {
          if y != z {
            assert y in rest && !lt(y, m);
            assert lt(y, z) ==> lt(y, m);
          } else {
            assert !lt(z, z);
          }
        }
        assert z in s;
      } else {
        forall y | y in s ensures !lt(y, m) {
          if y != z {
            assert y in rest;
          }
        }
        assert m in s;
      }
    }
  }

  /** The elements of a set, each once, in ascending order. */
  ghost function SortedSet<T(!new)>(s: set<T>, lt: (T, T) -> bool): (r: seq<T>)
    requires StrictOrder(lt) && Connected(lt)
    ensures AscendingBy(r, lt)
    ensures forall x :: x in r <==> x in s
    decreases |s|
  {
    if s == {} then []
    else
      HasLeast(s, lt);
      var m :| m in s && forall y :: y in s ==> !lt(y, m);
      var rest := SortedSet(s - {m}, lt);
      assert forall i :: 0 <= i < |rest| ==> lt(m, rest[i]);
      [m] + rest
  }

  /** A set of strings in ascending order. */
  ghost function SortedStrings(names: set<string>): (r: seq<string>)
    ensures AscendingBy(r, StrOrder())
    ensures forall x :: x in r <==> x in names
  {
    StrOrderStrictTotal();
    SortedSet(names, StrOrder())
  }

  /** A set of integers in ascending order. */
  ghost function SortedInts(ys: set<int>): (r: seq<int>)
    ensures AscendingBy(r, IntOrder())
    ensures forall x :: x in r <==> x in ys
  {
    IntOrderStrictTotal();
    SortedSet(ys, IntOrder())
  }

  /** A set of naturals in ascending order. */
  ghost function SortedNats(ys: set<nat>): (r: seq<nat>)
    ensures AscendingBy(r, NatOrder())
    ensures forall x :: x in r <==> x in ys
  {
    NatOrderStrictTotal();
    SortedSet(ys, NatOrder())
  }

  /** Two ascending sequences with the same elements are the same sequence. */
  lemma {:induction false} AscendingUnique<T(!new)>(a: seq<T>, b: seq<T>, lt: (T, T) -> bool)
    requires StrictOrder(lt) && AscendingBy(a, lt) && AscendingBy(b, lt)
    requires forall x :: x in a <==> x in b
    ensures a == b
    decreases |a|
  {
    if |b| > 0 {
      FirstIsMember(b);
    }
    if |a| > 0 {
      assert |b| > 0 by {
        assert a[0] in a;
      }
      FirstOfAscending(a, b, lt);
      var ta, tb := a[1..], b[1..];
      forall x ensures x in ta <==> x in tb {
        TailMember(a, lt, x);
        TailMember(b, lt, x);
      }
      assert AscendingBy(ta, lt) by {
        assert forall i :: 0 <= i < |ta| ==> ta[i] == a[i + 1];
      }
      assert AscendingBy(tb, lt) by {
        assert forall i :: 0 <= i < |tb| ==> tb[i] == b[i + 1];
      }
      AscendingUnique(ta, tb, lt);
      assert a == [a[0]] + ta && b == [b[0]] + tb;
    }
  }

  /** A strictly ascending sequence has no repeats. */
  lemma AscendingDistinct<T(!new)>(s: seq<T>, lt: (T, T) -> bool)
    requires StrictOrder(lt) && AscendingBy(s, lt)
    ensures forall i, j :: 0 <= i < j < |s| ==> s[i] != s[j]
  {
    forall i, j | 0 <= i < j < |s|
      ensures s[i] != s[j]
    {
      assert lt(s[i], s[j]) && !lt(s[i], s[i]);
    }
  }

  lemma FirstIsMember<T>(s: seq<T>)
    requires |s| > 0
    ensures s[0] in s
  {
  }

  lemma FirstOfAscending<T(!new)>(a: seq<T>, b: seq<T>, lt: (T, T) -> bool)
    requires StrictOrder(lt) && AscendingBy(a, lt) && AscendingBy(b, lt)
    requires forall x :: x in a <==> x in b
    requires |a| > 0 && |b| > 0
    ensures a[0] == b[0]
  {
    assert a[0] in a && b[0] in b;
    var i :| 0 <= i < |a| && a[i] == b[0];
    var j :| 0 <= j < |b| && b[j] == a[0];
    var a0, b0 := a[0], b[0];
    assert i > 0 ==> lt(a0, b0);
    assert j > 0 ==> lt(b0, a0);
    assert !lt(a0, a0);
  }

  /** In an ascending sequence, the elements after the first are the others. */
  lemma TailMember<T(!new)>(a: seq<T>, lt: (T, T) -> bool, x: T)
    requires StrictOrder(lt) && AscendingBy(a, lt) && |a| > 0
    ensures x in a[1..] <==> x in a && x != a[0]
  {
    if x in a[1..] {
      var i :| 1 <= i < |a| && a[i] == x;
      assert lt(a[0], a[i]);
      assert !lt(a[0], a[0]);
    }
    if x in a && x != a[0] {
      var i :| 0 <= i < |a| && a[i] == x;
      assert a[1..][i - 1] == x;
    }
  }

  /** A set of strings sorted, kept apart so that callers do not see the order's axioms. */
  method SortStrings(names: set<string>) returns (r: seq<string>)
    ensures r == SortedStrings(names)
  {
    StrOrderStrictTotal();
    r := SortSet(names, StrOrder());
  }

  /** A set of integers sorted. */
  method SortInts(ys: set<int>) returns (r: seq<int>)
    ensures r == SortedInts(ys)
  {
    IntOrderStrictTotal();
    r := SortSet(ys, IntOrder());
  }

  /** The repeated choice of the least remaining element, which sorts the set. */
  method SortSet<T(==, !new)>(s: set<T>, lt: (T, T) -> bool) returns (r: seq<T>)
    requires StrictOrder(lt) && Connected(lt)
    ensures r == SortedSet(s, lt)
  {
    r := [];
    var remaining := s;
    while remaining != {}
      invariant remaining <= s
      invariant AscendingBy(r, lt)
      invariant forall x :: x in r <==> x in s && x !in remaining
      invariant forall i, y :: 0 <= i < |r| && y in remaining ==> lt(r[i], y)
      decreases |remaining|
    {
      HasLeast(remaining, lt);
      var x :| x in remaining && forall y :: y in remaining ==> !lt(y, x);
      r := r + [x];
      remaining := remaining - {x};
    }
    AscendingUnique(r, SortedSet(s, lt), lt);
  }
}
