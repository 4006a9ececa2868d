/** Sequence helpers: the list comprehensions and counters of the pipeline. */
module Seqs {
  import opened Wrappers

  /** The present results of `g` on the elements of `s`, in order, built from the left. */
  function FilterMap<A, B>(s: seq<A>, f: A -> Option<B>): (r: seq<B>)
    ensures |r| <= |s|
    decreases |s|
  {
    if |s| == 0 then []
    else
      var last := f(s[|s| - 1]);
      FilterMap(s[..|s| - 1], f) + (if last.Some? then [last.value] else [])
  }

  /** One more element: the step of the collecting loops. */
  lemma FilterMapSnoc<A, B>(s: seq<A>, i: nat, f: A -> Option<B>)
    requires i < |s|
    ensures FilterMap(s[..i + 1], f) == FilterMap(s[..i], f) + (if f(s[i]).Some? then [f(s[i]).value] else [])
  {
    assert s[..i + 1][..i] == s[..i];
  }

  lemma {:induction false} FilterMapAppend<A, B>(a: seq<A>, b: seq<A>, f: A -> Option<B>)
    ensures FilterMap(a + b, f) == FilterMap(a, f) + FilterMap(b, f)
    decreases |b|
  {
    if |b| > 0 {
      assert (a + b)[..|a + b| - 1] == a + b[..|b| - 1];
      FilterMapAppend(a, b[..|b| - 1], f);
    } else {
      assert a + b == a;
    }
  }

  /** Every value kept is the image of some element. */
  lemma {:induction false} FilterMapMember<A, B>(s: seq<A>, f: A -> Option<B>, y: B)
    requires y in FilterMap(s, f)
    ensures exists i :: 0 <= i < |s| && f(s[i]) == Some(y)
    decreases |s|
  {
    var init := FilterMap(s[..|s| - 1], f);
    if y in init {
      FilterMapMember(s[..|s| - 1], f, y);
      var i :| 0 <= i < |s| - 1 && f(s[..|s| - 1][i]) == Some(y);
      assert s[..|s| - 1][i] == s[i];
    } else {
      assert f(s[|s| - 1]) == Some(y);
    }
  }

  /** Every value produced is kept. */
  lemma {:induction false} FilterMapKeeps<A, B>(s: seq<A>, f: A -> Option<B>, i: nat)
    requires i < |s| && f(s[i]).Some?
    ensures f(s[i]).value in FilterMap(s, f)
    decreases |s|
  {
    var n := |s| - 1;
    if i < n {
      FilterMapKeeps(s[..n], f, i);
      assert s[..n][i] == s[i];
    }
  }

  /** A property every produced value has holds of every value kept. */
  lemma {:induction false} FilterMapAll<A, B>(s: seq<A>, f: A -> Option<B>, p: B -> bool)
    requires forall x :: f(x).Some? ==> p(f(x).value)
    ensures forall i :: 0 <= i < |FilterMap(s, f)| ==> p(FilterMap(s, f)[i])
    decreases |s|
  {
    if |s| > 0 {
      FilterMapAll(s[..|s| - 1], f, p);
    }
  }

  /** A prefix one longer is the prefix followed by the next element. */
  lemma TakeSnoc<T>(s: seq<T>, i: nat)
    requires i < |s|
    ensures s[..i + 1] == s[..i] + [s[i]]
  {
  }

  /** The members of a non-empty sequence: those of its front and its last element. */
  lemma SnocMember<T>(s: seq<T>, x: T)
    requires |s| > 0
    ensures x in s <==> x in s[..|s| - 1] || x == s[|s| - 1]
  {
    assert s == s[..|s| - 1] + [s[|s| - 1]];
  }

  /** `f` applied to each element, in order. */
  function MapSeq<A, B>(s: seq<A>, f: A -> B): (r: seq<B>)
    ensures |r| == |s|
    ensures forall i :: 0 <= i < |s| ==> r[i] == f(s[i])
    decreases |s|
  {
    if |s| == 0 then [] else MapSeq(s[..|s| - 1], f) + [f(s[|s| - 1])]
  }

  /** A sequence that agrees with `f` position by position is its image. */
  lemma MapSeqPointwise<A, B>(s: seq<A>, r: seq<B>, f: A -> B)
    requires |r| == |s| && forall i :: 0 <= i < |s| ==> r[i] == f(s[i])
    ensures r == MapSeq(s, f)
  {
  }

  lemma MapSeqSnoc<A, B>(s: seq<A>, i: nat, f: A -> B)
    requires i < |s|
    ensures MapSeq(s[..i + 1], f) == MapSeq(s[..i], f) + [f(s[i])]
  {
    assert s[..i + 1][..i] == s[..i];
  }

  /** The state after applying `step` to each element in turn. */
  function Fold<S, X>(s0: S, xs: seq<X>, step: (S, X) -> S): S
    decreases |xs|
  {
    if |xs| == 0 then s0 else step(Fold(s0, xs[..|xs| - 1], step), xs[|xs| - 1])
  }

  lemma {:induction false} FoldAppend<S, X>(s0: S, a: seq<X>, b: seq<X>, step: (S, X) -> S)
    ensures Fold(s0, a + b, step) == Fold(Fold(s0, a, step), b, step)
    decreases |b|
  {
    if |b| == 0 {
      assert a + b == a;
    } else {
      assert (a + b)[..|a + b| - 1] == a + b[..|b| - 1];
      FoldAppend(s0, a, b[..|b| - 1], step);
    }
  }

  lemma FoldSnoc<S, X>(s0: S, a: seq<X>, x: X, step: (S, X) -> S)
    ensures Fold(s0, a + [x], step) == step(Fold(s0, a, step), x)
  {
    assert (a + [x])[..|a|] == a;
  }

  /** The elements satisfying `p`, in order. */
  function Filter<A>(s: seq<A>, p: A -> bool): (r: seq<A>)
    ensures |r| <= |s|
    ensures forall x :: x in r ==> x in s && p(x)
    decreases |s|
  {
    if |s| == 0 then []
    else Filter(s[..|s| - 1], p) + (if p(s[|s| - 1]) then [s[|s| - 1]] else [])
  }

  /** Filtering keeps exactly the elements that pass. */
  lemma {:induction false} FilterMembers<A>(s: seq<A>, p: A -> bool, x: A)
    ensures x in Filter(s, p) <==> x in s && p(x)
    decreases |s|
  {
    if |s| > 0 {
      FilterMembers(s[..|s| - 1], p, x);
      assert s == s[..|s| - 1] + [s[|s| - 1]];
    }
  }

  /** A filter that every element passes keeps the whole sequence. */
  lemma {:induction false} FilterKeepsAll<A>(s: seq<A>, p: A -> bool)
    requires forall i :: 0 <= i < |s| ==> p(s[i])
    ensures Filter(s, p) == s
    decreases |s|
  {
    if |s| > 0 {
      var init := s[..|s| - 1];
      assert forall i :: 0 <= i < |init| ==> init[i] == s[i];
      FilterKeepsAll(init, p);
      assert p(s[|s| - 1]);
      assert init + [s[|s| - 1]] == s;
    }
  }

  /** Filtering a concatenation filters each part. */
  lemma {:induction false} FilterAppend<A>(a: seq<A>, b: seq<A>, p: A -> bool)
    ensures Filter(a + b, p) == Filter(a, p) + Filter(b, p)
    decreases |b|
  {
    if |b| == 0 {
      assert a + b == a;
    } else {
      var init, last := b[..|b| - 1], b[|b| - 1];
      var t := if p(last) then [last] else [];
      FilterAppend(a, init, p);
      assert (a + b)[..|a + b| - 1] == a + init;
      assert (a + b)[|a + b| - 1] == last;
      assert Filter(a + b, p) == Filter(a + init, p) + t;
      assert Filter(b, p) == Filter(init, p) + t;
      AppendAssoc(Filter(a, p), Filter(init, p), t);
    }
  }

  /** A prefix put in front of two sequences leaves the difference of their filters as it was. */
  lemma FilterConsShift<A>(x: seq<A>, a: seq<A>, b: seq<A>, tail: seq<A>, p: A -> bool)
    requires Filter(a, p) == Filter(b, p) + tail
    ensures Filter(x + a, p) == Filter(x + b, p) + tail
  {
    FilterAppend(x, a, p);
    FilterAppend(x, b, p);
    AppendAssoc(Filter(x, p), Filter(b, p), tail);
  }

  lemma AppendAssoc<A>(x: seq<A>, y: seq<A>, z: seq<A>)
    ensures x + (y + z) == (x + y) + z
  {
  }

  /** A filter that no element passes is empty. */
  lemma {:induction false} FilterNone<A>(s: seq<A>, p: A -> bool)
    requires forall i :: 0 <= i < |s| ==> !p(s[i])
    ensures Filter(s, p) == []
    decreases |s|
  {
    if |s| > 0 {
      var init := s[..|s| - 1];
      assert forall i :: 0 <= i < |init| ==> init[i] == s[i];
      FilterNone(init, p);
    }
  }

  /** The filter of a prefix is a prefix of the filter. */
  lemma FilterPrefix<A>(s: seq<A>, n: nat, p: A -> bool)
    requires n <= |s|
    ensures Filter(s[..n], p) <= Filter(s, p)
  {
    var front, back := s[..n], s[n..];
    assert s == front + back;
    FilterAppend(front, back, p);
    PrefixOfAppend(Filter(front, p), Filter(back, p));
  }

  lemma PrefixOfAppend<A>(x: seq<A>, y: seq<A>)
    ensures x <= x + y
  {
  }

  /** The number of elements satisfying `p`. */
  function Count<A>(s: seq<A>, p: A -> bool): (n: nat)
    ensures n <= |s|
    decreases |s|
  {
    if |s| == 0 then 0
    else Count(s[..|s| - 1], p) + (if p(s[|s| - 1]) then 1 else 0)
  }

  /** Some element satisfies `p` exactly when the count is positive. */
  lemma {:induction false} CountPositive<A>(s: seq<A>, p: A -> bool)
    ensures Count(s, p) > 0 <==> exists i :: 0 <= i < |s| && p(s[i])
    decreases |s|
  {
    if |s| > 0 {
      var init := s[..|s| - 1];
      CountPositive(init, p);
      if exists i :: 0 <= i < |init| && p(init[i]) {
        var i :| 0 <= i < |init| && p(init[i]);
        assert s[i] == init[i];
      }
      if exists i :: 0 <= i < |s| && p(s[i]) {
        var i :| 0 <= i < |s| && p(s[i]);
        if i < |init| {
          assert init[i] == s[i];
        }
      }
    }
  }

  lemma {:induction false} CountAppend<A>(a: seq<A>, b: seq<A>, p: A -> bool)
    ensures Count(a + b, p) == Count(a, p) + Count(b, p)
    decreases |b|
  {
    if |b| > 0 {
      assert (a + b)[..|a + b| - 1] == a + b[..|b| - 1];
      CountAppend(a, b[..|b| - 1], p);
    } else {
      assert a + b == a;
    }
  }

  lemma {:induction false} CountIsFilterLength<A>(s: seq<A>, p: A -> bool)
    ensures Count(s, p) == |Filter(s, p)|
    decreases |s|
  {
    if |s| > 0 {
      CountIsFilterLength(s[..|s| - 1], p);
    }
  }

  /** A count splits over a predicate that is the disjoint union of two others. */
  lemma {:induction false} CountSplit<A>(s: seq<A>, p: A -> bool, q: A -> bool, r: A -> bool)
    requires forall x :: p(x) <==> q(x) || r(x)
    requires forall x :: !(q(x) && r(x))
    ensures Count(s, p) == Count(s, q) + Count(s, r)
    decreases |s|
  {
    if |s| > 0 {
      CountSplit(s[..|s| - 1], p, q, r);
    }
  }

  lemma {:induction false} CountAll<A>(s: seq<A>, p: A -> bool)
    requires forall i :: 0 <= i < |s| ==> p(s[i])
    ensures Count(s, p) == |s|
    decreases |s|
  {
    if |s| > 0 {
      assert forall i :: 0 <= i < |s| - 1 ==> s[..|s| - 1][i] == s[i];
      CountAll(s[..|s| - 1], p);
    }
  }

  lemma {:induction false} CountNone<A>(s: seq<A>, p: A -> bool)
    requires forall i :: 0 <= i < |s| ==> !p(s[i])
    ensures Count(s, p) == 0
    decreases |s|
  {
    if |s| > 0 {
      assert forall i :: 0 <= i < |s| - 1 ==> s[..|s| - 1][i] == s[i];
      CountNone(s[..|s| - 1], p);
    }
  }

  /** When exactly the first `k` elements satisfy `p`, `k` of them do. */
  lemma {:induction false} CountPrefix<A>(s: seq<A>, p: A -> bool, k: nat)
    requires k <= |s|
    requires forall j :: 0 <= j < k ==> p(s[j])
    requires forall j :: k <= j < |s| ==> !p(s[j])
    ensures Count(s, p) == k
    decreases |s|
  {
    if |s| == k {
      CountAll(s, p);
    } else {
      var init := s[..|s| - 1];
      assert forall i :: 0 <= i < |init| ==> init[i] == s[i];
      CountPrefix(init, p, k);
    }
  }

  /** The sum of `f` over the elements. */
  function Sum<A>(s: seq<A>, f: A -> int): int
    decreases |s|
  {
    if |s| == 0 then 0 else Sum(s[..|s| - 1], f) + f(s[|s| - 1])
  }

  lemma SumSnoc<A>(s: seq<A>, x: A, f: A -> int)
    ensures Sum(s + [x], f) == Sum(s, f) + f(x)
  {
    assert (s + [x])[..|s|] == s;
  }

  /** The elements of a sequence, each once, in order of first occurrence. */
  function Dedup<A(==)>(s: seq<A>): (r: seq<A>)
    ensures forall i :: 0 <= i < |s| ==> s[i] in r
    ensures forall i :: 0 <= i < |r| ==> r[i] in s
    ensures forall i, j :: 0 <= i < j < |r| ==> r[i] != r[j]
    decreases |s|
  {
    if |s| == 0 then []
    else
      var init := Dedup(s[..|s| - 1]);
      var last := s[|s| - 1];
      assert forall i :: 0 <= i < |s| - 1 ==> s[i] == s[..|s| - 1][i];
      if last in init then init else init + [last]
  }

  /** An element is in the deduplicated sequence exactly when it is in the sequence. */
  lemma DedupMember<A>(s: seq<A>, x: A)
    ensures x in Dedup(s) <==> x in s
  {
    if x in s {
      var i :| 0 <= i < |s| && s[i] == x;
    }
    if x in Dedup(s) {
      var r := Dedup(s);
      var i :| 0 <= i < |r| && r[i] == x;
    }
  }

  /** One more element adds itself to the deduplicated filter when it passes and is new. */
  lemma DedupFilterSnoc<A>(s: seq<A>, x: A, p: A -> bool)
    ensures Dedup(Filter(s + [x], p))
      == if p(x) && x !in Filter(s, p) then Dedup(Filter(s, p)) + [x] else Dedup(Filter(s, p))
  {
    var t := s + [x];
    assert t[..|t| - 1] == s;
    var f := Filter(s, p);
    if p(x) {
      var u := f + [x];
      assert Filter(t, p) == u;
      assert u[..|u| - 1] == f;
      DedupMember(f, x);
    } else {
      assert Filter(t, p) == f;
    }
  }

  /** Two tests that agree on every element filter alike. */
  lemma {:induction false} FilterAgree<A>(s: seq<A>, p: A -> bool, q: A -> bool)
    requires forall i :: 0 <= i < |s| ==> p(s[i]) == q(s[i])
    ensures Filter(s, p) == Filter(s, q)
    decreases |s|
  {
    if |s| > 0 {
      var init := s[..|s| - 1];
      assert forall i :: 0 <= i < |init| ==> init[i] == s[i];
      FilterAgree(init, p, q);
    }
  }

  /** The index of the first element satisfying `p`, as the loops that stop at the first match find it. */
  function FirstIndex<A>(s: seq<A>, p: A -> bool): (r: Option<nat>)
    ensures r.Some? ==> r.value < |s| && p(s[r.value]) && forall j :: 0 <= j < r.value ==> !p(s[j])
    ensures r.None? ==> forall j :: 0 <= j < |s| ==> !p(s[j])
    decreases |s|
  {
    if |s| == 0 then None
    else if p(s[0]) then Some(0)
    else
      var r := FirstIndex(s[1..], p);
      if r.Some? then Some(r.value + 1) else None
  }

  /** One more element: the first match so far, or the new element when it is the first. */
  lemma FirstIndexSnoc<A>(s: seq<A>, i: nat, p: A -> bool)
    requires i < |s|
    ensures FirstIndex(s[..i + 1], p) ==
      if FirstIndex(s[..i], p).Some? then FirstIndex(s[..i], p) else if p(s[i]) then Some(i) else None
  {
    var a, b := FirstIndex(s[..i], p), FirstIndex(s[..i + 1], p);
    assert forall j :: 0 <= j < i ==> s[..i + 1][j] == s[..i][j];
    if a.Some? {
      assert b.Some? && b.value <= a.value;
    } else if p(s[i]) {
      assert p(s[..i + 1][i]);
    }
  }

  /** The keys present: the set of the present keys of the elements. */
  function KeysOf<A, K>(s: seq<A>, key: A -> Option<K>): set<K>
    decreases |s|
  {
    if |s| == 0 then {}
    else
      var k := key(s[|s| - 1]);
      KeysOf(s[..|s| - 1], key) + (if k.Some? then {k.value} else {})
  }

  /** For each element with a key, the element is stored unless its key is already there: the first element under each key. */
  function FirstByKey<A, K>(s: seq<A>, key: A -> Option<K>): map<K, A>
    decreases |s|
  {
    if |s| == 0 then map[]
    else
      var m := FirstByKey(s[..|s| - 1], key);
      var k := key(s[|s| - 1]);
      if k.Some? && k.value !in m then m[k.value := s[|s| - 1]] else m
  }

  function HasKey<A, K(==)>(key: A -> Option<K>, k: K): A -> bool
  {
    (x: A) => key(x) == Some(k)
  }

  lemma KeysSnoc<A, K>(s: seq<A>, i: nat, key: A -> Option<K>)
    requires i < |s|
    ensures var k := key(s[i]);
      KeysOf(s[..i + 1], key) == KeysOf(s[..i], key) + (if k.Some? then {k.value} else {})
      && FirstByKey(s[..i + 1], key) ==
         (if k.Some? && k.value !in FirstByKey(s[..i], key) then FirstByKey(s[..i], key)[k.value := s[i]]
          else FirstByKey(s[..i], key))
  {
    assert s[..i + 1][..i] == s[..i];
  }

  /** A key is present exactly when some element has it. */
  lemma {:induction false} KeysOfMeaning<A, K>(s: seq<A>, key: A -> Option<K>, k: K)
    ensures k in KeysOf(s, key) <==> FirstIndex(s, HasKey(key, k)).Some?
    decreases |s|
  {
    if |s| > 0 {
      var last := |s| - 1;
      KeysOfMeaning(s[..last], key, k);
      FirstIndexSnoc(s, last, HasKey(key, k));
      KeysSnoc(s, last, key);
      assert s[..last + 1] == s;
    }
  }

  /** The map has exactly the present keys, each with the first element that has it. */
  lemma {:induction false} FirstByKeyMeaning<A, K>(s: seq<A>, key: A -> Option<K>, k: K)
    ensures k in FirstByKey(s, key) <==> FirstIndex(s, HasKey(key, k)).Some?
    ensures k in FirstByKey(s, key) ==> FirstByKey(s, key)[k] == s[FirstIndex(s, HasKey(key, k)).value]
    decreases |s|
  {
    if |s| > 0 {
      var last := |s| - 1;
      FirstByKeyMeaning(s[..last], key, k);
      FirstIndexSnoc(s, last, HasKey(key, k));
      KeysSnoc(s, last, key);
      assert s[..last + 1] == s;
      var f := FirstIndex(s[..last], HasKey(key, k));
      if f.Some? {
        assert s[..last][f.value] == s[f.value];
      }
    }
  }

  /** The index of the last element satisfying `p`: the loops in which every match replaces the one before. */
  function LastIndex<A>(s: seq<A>, p: A -> bool): (r: Option<nat>)
    ensures r.Some? ==>
      r.value < |s| && p(s[r.value]) && forall j :: r.value < j < |s| ==> !p(s[j])
    ensures r.None? ==> forall j :: 0 <= j < |s| ==> !p(s[j])
    decreases |s|
  {
    if |s| == 0 then None
    else if p(s[|s| - 1]) then Some(|s| - 1)
    else LastIndex(s[..|s| - 1], p)
  }

  lemma LastIndexSnoc<A>(s: seq<A>, i: nat, p: A -> bool)
    requires i < |s|
    ensures LastIndex(s[..i + 1], p) == if p(s[i]) then Some(i) else LastIndex(s[..i], p)
  {
    assert s[..i + 1][..i] == s[..i];
  }

  /** The loop that appends `f` of each element in turn. */
  method AppendEach<A, B>(s: seq<A>, f: A -> B) returns (r: seq<B>)
    ensures r == MapSeq(s, f)
  {
    r := [];
    for i := 0 to |s|
      invariant r == MapSeq(s[..i], f)
    {
      MapSeqSnoc(s, i, f);
      r := r + [f(s[i])];
    }
    assert s[..|s|] == s;
  }

  /** The loop that appends each present result of `f` in turn. */
  method CollectSome<A, B>(s: seq<A>, f: A -> Option<B>) returns (r: seq<B>)
    ensures r == FilterMap(s, f)
  {
    r := [];
    var i := 0;
    while i < |s|
      invariant 0 <= i <= |s|
      invariant r == FilterMap(s[..i], f)
    {
      FilterMapSnoc(s, i, f);
      var y := f(s[i]);
      if y.Some? {
        r := r + [y.value];
      }
      i := i + 1;
    }
    assert s[..i] == s;
  }

  /** The search loop in which every match replaces the one found before. */
  method FindLast<A>(s: seq<A>, p: A -> bool) returns (r: Option<nat>)
    ensures r == LastIndex(s, p)
  {
    r := None;
    var i := 0;
    while i < |s|
      invariant 0 <= i <= |s|
      invariant r == LastIndex(s[..i], p)
    {
      LastIndexSnoc(s, i, p);
      if p(s[i]) {
        r := Some(i);
      }
      i := i + 1;
    }
    assert s[..i] == s;
  }

  /** The loop that stores each key whose result of `f` is present. */
  method CollectFound<K, V>(keys: seq<K>, f: K -> Option<V>) returns (found: map<K, V>)
    ensures forall k :: k in found <==> k in keys && f(k).Some?
    ensures forall k :: k in found ==> found[k] == f(k).value
  {
    found := map[];
    var i := 0;
    while i < |keys|
      invariant 0 <= i <= |keys|
      invariant forall k :: k in found <==> k in keys[..i] && f(k).Some?
      invariant forall k :: k in found ==> found[k] == f(k).value
    {
      assert keys[..i + 1] == keys[..i] + [keys[i]];
      var v := f(keys[i]);
      if v.Some? {
        found := found[keys[i] := v.value];
      }
      i := i + 1;
    }
    assert keys[..i] == keys;
  }

  /** The search loop: stops at the first element satisfying `p`. */
  method FindFirst<A>(s: seq<A>, p: A -> bool) returns (r: Option<nat>)
    ensures r == FirstIndex(s, p)
  {
    var i := 0;
    while i < |s|
      invariant 0 <= i <= |s|
      invariant forall j :: 0 <= j < i ==> !p(s[j])
    {
      if p(s[i]) {
        return Some(i);
      }
      i := i + 1;
    }
    return None;
  }
}
