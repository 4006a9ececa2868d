/**
 * Accumulating into a `defaultdict` keyed by a field of each element, as
 * the per-conference and per-year tallies do: the fold that updates one key
 * per element, the same map told group by group, and sums that split over
 * the groups.
 */
module Groups {
  import opened Seqs

  /** Whether `x` falls in group `k`. */
  function InGroup<X, K(==)>(key: X -> K, k: K): X -> bool
  {
    (x: X) => key(x) == k
  }

  /** The groups the counted elements fall in. */
  function GroupKeys<X, K>(xs: seq<X>, key: X -> K, counted: X -> bool): set<K>
  {
    set i | 0 <= i < |xs| && counted(xs[i]) :: key(xs[i])
  }

  /**
   * Adds a counted element into the group of its key, a missing group
   * reading as `zero`; an element that is not counted leaves `d` alone.
   */
  function GroupStep<X, K(==), A>(key: X -> K, counted: X -> bool, add: (A, X) -> A, zero: A): (map<K, A>, X) -> map<K, A>
  {
    (m: map<K, A>, x: X) => if counted(x) then m[key(x) := add(if key(x) in m then m[key(x)] else zero, x)] else m
  }

  /** Each group folded on its own from `zero`. */
  function PerGroup<X, K(==), A>(xs: seq<X>, key: X -> K, counted: X -> bool, add: (A, X) -> A, zero: A): map<K, A>
  {
    map k | k in GroupKeys(xs, key, counted) :: Fold(zero, Filter(xs, InGroup(key, k)), add)
  }

  /** Adding an element that is not counted changes nothing. */
  ghost predicate Neutral<X(!new), A(!new)>(counted: X -> bool, add: (A, X) -> A)
  {
    forall a: A, x: X :: !counted(x) ==> add(a, x) == a
  }

  lemma {:induction false} FoldNeutral<X(!new), A(!new)>(xs: seq<X>, counted: X -> bool, add: (A, X) -> A, zero: A)
    requires Neutral(counted, add)
    requires forall i :: 0 <= i < |xs| ==> !counted(xs[i])
    ensures Fold(zero, xs, add) == zero
    decreases |xs|
  {
    if |xs| > 0 {
      FoldNeutral(xs[..|xs| - 1], counted, add, zero);
    }
  }

  lemma GroupKeysSnoc<X, K>(xs: seq<X>, x: X, key: X -> K, counted: X -> bool)
    ensures GroupKeys(xs + [x], key, counted) == GroupKeys(xs, key, counted) + (if counted(x) then {key(x)} else {})
  {
    var ys := xs + [x];
    assert forall i :: 0 <= i < |xs| ==> ys[i] == xs[i];
    assert ys[|xs|] == x;
  }

  /** One more element extends the group it falls in. */
  lemma FilterSnoc<X, K>(xs: seq<X>, x: X, key: X -> K, k: K)
    ensures Filter(xs + [x], InGroup(key, k)) == Filter(xs, InGroup(key, k)) + (if key(x) == k then [x] else [])
  {
    assert (xs + [x])[..|xs|] == xs;
  }

  /** A group no counted element falls in folds to `zero`. */
  lemma NoGroupNeutral<X(!new), K, A(!new)>(xs: seq<X>, key: X -> K, counted: X -> bool, add: (A, X) -> A, zero: A, k: K)
    requires Neutral(counted, add) && k !in GroupKeys(xs, key, counted)
    ensures Fold(zero, Filter(xs, InGroup(key, k)), add) == zero
  {
    var f := Filter(xs, InGroup(key, k));
    forall i | 0 <= i < |f|
      ensures !counted(f[i])
    {
      assert f[i] in f;
      var j :| 0 <= j < |xs| && xs[j] == f[i];
    }
    FoldNeutral(f, counted, add, zero);
  }

  /** What `PerGroup` holds at one key. */
  lemma PerGroupAt<X, K, A>(xs: seq<X>, key: X -> K, counted: X -> bool, add: (A, X) -> A, zero: A, k: K)
    ensures var m := PerGroup(xs, key, counted, add, zero);
      (k in m <==> k in GroupKeys(xs, key, counted)) && (k in m ==> m[k] == Fold(zero, Filter(xs, InGroup(key, k)), add))
  {
  }

  /** What one step of the accumulating loop leaves at one key. */
  lemma GroupStepAt<X, K, A>(m: map<K, A>, x: X, key: X -> K, counted: X -> bool, add: (A, X) -> A, zero: A, k: K)
    ensures var step := GroupStep(key, counted, add, zero)(m, x);
      if counted(x) && key(x) == k then k in step && step[k] == add(if k in m then m[k] else zero, x)
      else (k in step <==> k in m) && (k in m ==> step[k] == m[k])
  {
  }

  lemma GroupStepKey<X(!new), K, A(!new)>(xs: seq<X>, x: X, key: X -> K, counted: X -> bool, add: (A, X) -> A, zero: A, k: K)
    requires Neutral(counted, add) && k in GroupKeys(xs + [x], key, counted)
    ensures var step := GroupStep(key, counted, add, zero)(PerGroup(xs, key, counted, add, zero), x);
      k in step && step[k] == Fold(zero, Filter(xs + [x], InGroup(key, k)), add)
  {
    var m := PerGroup(xs, key, counted, add, zero);
    var f := Filter(xs, InGroup(key, k));
    var f' := Filter(xs + [x], InGroup(key, k));
    GroupKeysSnoc(xs, x, key, counted);
    FilterSnoc(xs, x, key, k);
    PerGroupAt(xs, key, counted, add, zero, k);
    GroupStepAt(m, x, key, counted, add, zero, k);
    if key(x) == k {
      assert f' == f + [x];
      FoldSnoc(zero, f, x, add);
      if k !in GroupKeys(xs, key, counted) {
        NoGroupNeutral(xs, key, counted, add, zero, k);
      }
      if !counted(x) {
        assert add(Fold(zero, f, add), x) == Fold(zero, f, add);
      }
    } else {
      assert f' == f;
    }
  }

  /**
   * The accumulating loop builds, for each group some counted element
   * falls in, the fold of that group's elements in their order, and has no
   * other key.
   */
  lemma {:induction false} GroupFold<X(!new), K, A(!new)>(xs: seq<X>, key: X -> K, counted: X -> bool, add: (A, X) -> A, zero: A)
    requires Neutral(counted, add)
    ensures Fold(map[], xs, GroupStep(key, counted, add, zero)) == PerGroup(xs, key, counted, add, zero)
    decreases |xs|
  {
    if |xs| > 0 {
      GroupFold(xs[..|xs| - 1], key, counted, add, zero);
      GroupFoldLast(xs, key, counted, add, zero);
    }
  }

  /** The last element's step turns the groups of the rest into the groups of the whole. */
  lemma GroupFoldLast<X(!new), K, A(!new)>(xs: seq<X>, key: X -> K, counted: X -> bool, add: (A, X) -> A, zero: A)
    requires Neutral(counted, add) && |xs| > 0
    ensures GroupStep(key, counted, add, zero)(PerGroup(xs[..|xs| - 1], key, counted, add, zero), xs[|xs| - 1])
      == PerGroup(xs, key, counted, add, zero)
  {
    var init := xs[..|xs| - 1];
    var x := xs[|xs| - 1];
    assert xs == init + [x];
    GroupKeysSnoc(init, x, key, counted);
    var r := PerGroup(xs, key, counted, add, zero);
    var step := GroupStep(key, counted, add, zero)(PerGroup(init, key, counted, add, zero), x);
    forall k | k in r
      ensures k in step && step[k] == r[k]
    {
      GroupStepKey(init, x, key, counted, add, zero, k);
    }
    forall k | k in step
      ensures k in r
    {
      GroupStepAt(PerGroup(init, key, counted, add, zero), x, key, counted, add, zero, k);
      PerGroupAt(init, key, counted, add, zero, k);
    }
    assert r == step;
  }

  /** The sum of `f` over the elements of group `k`. */
  function GroupSum<X, K(==)>(xs: seq<X>, key: X -> K, f: X -> int): K -> int
  {
    (k: K) => Sum(Filter(xs, InGroup(key, k)), f)
  }

  lemma GroupSumSnoc<X, K>(xs: seq<X>, x: X, key: X -> K, f: X -> int, k: K)
    ensures GroupSum(xs + [x], key, f)(k) == GroupSum(xs, key, f)(k) + (if k == key(x) then f(x) else 0)
  {
    FilterSnoc(xs, x, key, k);
    var fi := Filter(xs, InGroup(key, k));
    if key(x) == k {
      SumSnoc(fi, x, f);
    } else {
      assert Filter(xs + [x], InGroup(key, k)) == fi;
    }
  }

  /** Adding `d` at one key `c` of a list of distinct keys adds `d` to the sum, when `c` is listed. */
  lemma {:induction false} SumShift<K>(ks: seq<K>, g: K -> int, h: K -> int, c: K, d: int)
    requires forall i, j :: 0 <= i < j < |ks| ==> ks[i] != ks[j]
    requires forall k :: h(k) == g(k) + (if k == c then d else 0)
    ensures Sum(ks, h) == Sum(ks, g) + (if c in ks then d else 0)
    decreases |ks|
  {
    if |ks| > 0 {
      var init := ks[..|ks| - 1];
      SumShift(init, g, h, c, d);
      assert ks == init + [ks[|ks| - 1]];
      if c in init {
        var i :| 0 <= i < |init| && init[i] == c;
        assert ks[i] == c;
      }
    }
  }

  /**
   * Summing each group and adding the group totals over distinct keys gives
   * the total, as long as every element that contributes falls in a listed
   * group.
   */
  lemma {:induction false} SumPartition<X, K>(xs: seq<X>, ks: seq<K>, key: X -> K, f: X -> int)
    requires forall i, j :: 0 <= i < j < |ks| ==> ks[i] != ks[j]
    requires forall i :: 0 <= i < |xs| && f(xs[i]) != 0 ==> key(xs[i]) in ks
    ensures Sum(ks, GroupSum(xs, key, f)) == Sum(xs, f)
    decreases |xs|
  {
    if |xs| == 0 {
      ZeroSum(ks, GroupSum(xs, key, f));
    } else {
      var init := xs[..|xs| - 1];
      forall i | 0 <= i < |init| && f(init[i]) != 0
        ensures key(init[i]) in ks
      {
        assert init[i] == xs[i];
      }
      SumPartition(init, ks, key, f);
      GroupSumsLast(xs, ks, key, f);
    }
  }

  lemma GroupSumsLast<X, K>(xs: seq<X>, ks: seq<K>, key: X -> K, f: X -> int)
    requires forall i, j :: 0 <= i < j < |ks| ==> ks[i] != ks[j]
    requires |xs| > 0 && (f(xs[|xs| - 1]) != 0 ==> key(xs[|xs| - 1]) in ks)
    ensures Sum(ks, GroupSum(xs, key, f)) == Sum(ks, GroupSum(xs[..|xs| - 1], key, f)) + f(xs[|xs| - 1])
  {
    var init := xs[..|xs| - 1];
    assert xs == init + [xs[|xs| - 1]];
    GroupSumsShift(init, xs[|xs| - 1], ks, key, f);
  }

  /** One more element adds its value to the sum of its group, the only group that changes. */
  lemma GroupSumsShift<X, K>(xs: seq<X>, x: X, ks: seq<K>, key: X -> K, f: X -> int)
    requires forall i, j :: 0 <= i < j < |ks| ==> ks[i] != ks[j]
    requires f(x) != 0 ==> key(x) in ks
    ensures Sum(ks, GroupSum(xs + [x], key, f)) == Sum(ks, GroupSum(xs, key, f)) + f(x)
    ensures Sum(xs + [x], f) == Sum(xs, f) + f(x)
  {
    forall k
      ensures GroupSum(xs + [x], key, f)(k) == GroupSum(xs, key, f)(k) + (if k == key(x) then f(x) else 0)
    {
      GroupSumSnoc(xs, x, key, f, k);
    }
    SumShift(ks, GroupSum(xs, key, f), GroupSum(xs + [x], key, f), key(x), f(x));
    SumSnoc(xs, x, f);
  }

  lemma {:induction false} ZeroSum<K>(ks: seq<K>, g: K -> int)
    requires forall k :: g(k) == 0
    ensures Sum(ks, g) == 0
    decreases |ks|
  {
    if |ks| > 0 {
      ZeroSum(ks[..|ks| - 1], g);
    }
  }

  /** Sums of functions that agree on the elements agree. */
  lemma {:induction false} SumAgree<A>(s: seq<A>, f: A -> int, g: A -> int)
    requires forall i :: 0 <= i < |s| ==> f(s[i]) == g(s[i])
    ensures Sum(s, f) == Sum(s, g)
    decreases |s|
  {
    if |s| > 0 {
      SumAgree(s[..|s| - 1], f, g);
    }
  }

  function Compose<A, B>(g: A -> B, f: B -> int): A -> int
  {
    (a: A) => f(g(a))
  }

  /** Summing over the images is summing the composition. */
  lemma {:induction false} SumMapSeq<A, B>(s: seq<A>, g: A -> B, f: B -> int)
    ensures Sum(MapSeq(s, g), f) == Sum(s, Compose(g, f))
    decreases |s|
  {
    if |s| > 0 {
      SumMapSeq(s[..|s| - 1], g, f);
      MapSeqSnoc(s, |s| - 1, g);
      assert s[..|s| - 1 + 1] == s;
      var m := MapSeq(s[..|s| - 1], g);
      assert (m + [g(s[|s| - 1])])[..|m|] == m;
    }
  }

  function Indicator<A>(p: A -> bool): A -> int
  {
    (a: A) => if p(a) then 1 else 0
  }

  lemma {:induction false} CountIsSum<A>(s: seq<A>, p: A -> bool)
    ensures Count(s, p) == Sum(s, Indicator(p))
    decreases |s|
  {
    if |s| > 0 {
      CountIsSum(s[..|s| - 1], p);
    }
  }
}
