/**
  Generic sequence and map facts used by the governance model.

  A Rust `HashMap` is iterated in an order the program does not control.  The model
  makes that order explicit: an enumeration `ks` of a map `m` lists every key of `m`
  exactly once.  Every traversal of a map in the source becomes a fold over such an
  enumeration, and the lemmas here show which results do not depend on the choice.
 */
module Collections {

  /** No element occurs twice. */
  ghost predicate Distinct<T>(xs: seq<T>) {
    forall i, j | 0 <= i < j < |xs| :: xs[i] != xs[j]
  }

  /** `ks` is one possible iteration order of the keys of `m`. */
  ghost predicate Enumerates<K, V>(ks: seq<K>, m: map<K, V>) {
    && Distinct(ks)
    && (forall k | k in ks :: k in m)
    && (forall k | k in m :: k in ks)
  }

  /** Concatenation of `f(x)` for every `x` of `xs`, in order. */
  function FlatMap<A, B>(xs: seq<A>, f: A -> seq<B>): seq<B> {
    if xs == [] then [] else f(xs[0]) + FlatMap(xs[1..], f)
  }

  /** `f` lifted to the keys of `m`; a key outside `m` contributes nothing. */
  function AtKey<K, V, B>(m: map<K, V>, f: (K, V) -> seq<B>): K -> seq<B> {
    k => if k in m then f(k, m[k]) else []
  }

  /** The outputs of `f` for every entry of `m`, concatenated in the iteration order `ks`. */
  function FlatMapEntries<K, V, B>(ks: seq<K>, m: map<K, V>, f: (K, V) -> seq<B>): seq<B> {
    FlatMap(ks, AtKey(m, f))
  }

  /** The elements of `xs` that satisfy `p`, in order. */
  function Filter<A>(xs: seq<A>, p: A -> bool): seq<A> {
    if xs == [] then [] else (if p(xs[0]) then [xs[0]] else []) + Filter(xs[1..], p)
  }

  /** Number of positions of `xs` whose element satisfies `p`. */
  function Count<A>(xs: seq<A>, p: A -> bool): nat {
    if xs == [] then 0 else (if p(xs[0]) then 1 else 0) + Count(xs[1..], p)
  }

  /** Sum of `w(m[k])` over the keys `ks` (keys outside `m` weigh nothing). */
  function SumValues<K, V>(ks: seq<K>, m: map<K, V>, w: V -> nat): nat {
    if ks == [] then 0 else (if ks[0] in m then w(m[ks[0]]) else 0) + SumValues(ks[1..], m, w)
  }

  /** Order-free reference sum of `w` over the values of `m`. */
  ghost function SumMap<K, V>(m: map<K, V>, w: V -> nat): nat
    decreases |m|
  {
    if m == map[] then 0
    else
      var k := PickKey(m);
      MapRemoveSize(m, k);
      w(m[k]) + SumMap(m - {k}, w)
  }

  /** Some key of a non-empty map. */
  ghost function PickKey<K, V>(m: map<K, V>): (k: K)
    requires m != map[]
    ensures k in m
  {
    assert |m.Keys| == |m| != 0;
    var k :| k in m.Keys;
    k
  }

  /** A set of keys of `m` has at most as many elements as `m`. */
  lemma SubsetSize<K, V>(s: set<K>, m: map<K, V>)
    requires s <= m.Keys
    ensures |s| <= |m|
  {
    var rest := m.Keys - s;
    assert m.Keys == s + rest;
  }

  lemma MapRemoveSize<K, V>(m: map<K, V>, k: K)
    requires k in m
    ensures |m - {k}| == |m| - 1
  {
    assert (m - {k}).Keys == m.Keys - {k};
    assert |m.Keys| == |m| && |(m - {k}).Keys| == |m - {k}|;
  }

  // ---------------------------------------------------------------------------
  // Distinct sequences and enumerations

  lemma DistinctTail<T>(xs: seq<T>)
    requires Distinct(xs) && xs != []
    ensures Distinct(xs[1..]) && xs[0] !in xs[1..]
  {
    forall j | 0 <= j < |xs[1..]|
      ensures xs[1..][j] != xs[0]
    {
      assert xs[1..][j] == xs[j + 1];
    }
  }

  lemma {:induction false} DistinctMultiset<T>(xs: seq<T>, x: T)
    requires Distinct(xs)
    ensures multiset(xs)[x] == if x in xs then 1 else 0
  {
    if xs != [] {
      assert xs == [xs[0]] + xs[1..];
      DistinctTail(xs);
      DistinctMultiset(xs[1..], x);
    }
  }

  /** An element at two positions occurs at least twice. */
  lemma DuplicateMultiset<T>(xs: seq<T>, i: nat, j: nat)
    requires i < j < |xs| && xs[i] == xs[j]
    ensures multiset(xs)[xs[i]] >= 2
  {
    assert xs == xs[..j] + [xs[j]] + xs[j + 1..];
    assert xs[i] in xs[..j];
  }

  /** A permutation of a sequence without repeats has no repeats. */
  lemma PermutationDistinct<T>(xs: seq<T>, ys: seq<T>)
    requires multiset(xs) == multiset(ys) && Distinct(ys)
    ensures Distinct(xs)
  {
    forall i, j | 0 <= i < j < |xs|
      ensures xs[i] != xs[j]
    {
      DistinctMultiset(ys, xs[i]);
      if xs[i] == xs[j] {
        DuplicateMultiset(xs, i, j);
      }
    }
  }

  /** Two iteration orders of one map are permutations of each other. */
  lemma EnumerationsPermute<K, V>(ks1: seq<K>, ks2: seq<K>, m: map<K, V>)
    requires Enumerates(ks1, m) && Enumerates(ks2, m)
    ensures multiset(ks1) == multiset(ks2)
  {
    forall x
      ensures multiset(ks1)[x] == multiset(ks2)[x]
    {
      DistinctMultiset(ks1, x);
      DistinctMultiset(ks2, x);
    }
  }

  lemma {:induction false} DistinctSetSize<T>(xs: seq<T>)
    requires Distinct(xs)
    ensures |set x | x in xs| == |xs|
  {
    if xs == [] {
      assert (set x | x in xs) == {};
    } else {
      DistinctTail(xs);
      DistinctSetSize(xs[1..]);
      assert (set x | x in xs) == {xs[0]} + (set x | x in xs[1..]);
    }
  }

  /** An enumeration lists exactly as many keys as the map holds. */
  lemma EnumerationSize<K, V>(ks: seq<K>, m: map<K, V>)
    requires Enumerates(ks, m)
    ensures |ks| == |m|
  {
    DistinctSetSize(ks);
    assert m.Keys == set x | x in ks;
    assert |m.Keys| == |m|;
  }

  /** Dropping the first key of an enumeration enumerates the map without that key. */
  lemma EnumerationTail<K, V>(ks: seq<K>, m: map<K, V>)
    requires Enumerates(ks, m) && ks != []
    ensures ks[0] in m && Enumerates(ks[1..], m - {ks[0]})
  {
    DistinctTail(ks);
    forall k
      ensures k in m - {ks[0]} <==> k in ks[1..]
    {
      if k in ks[1..] {
        assert k in ks;
      }
      if k in ks && k != ks[0] {
        var i :| 0 <= i < |ks| && ks[i] == k;
        assert ks[1..][i - 1] == k;
      }
    }
  }

  // ---------------------------------------------------------------------------
  // FlatMap

  lemma {:induction false} FlatMapAppend<A, B>(xs: seq<A>, ys: seq<A>, f: A -> seq<B>)
    ensures FlatMap(xs + ys, f) == FlatMap(xs, f) + FlatMap(ys, f)
  {
    if xs == [] {
      assert xs + ys == ys;
    } else {
      assert (xs + ys)[1..] == xs[1..] + ys;
      FlatMapAppend(xs[1..], ys, f);
    }
  }

  /** An output element of `FlatMap` comes from some input element, and conversely. */
  lemma {:induction false} FlatMapMember<A, B>(xs: seq<A>, f: A -> seq<B>, y: B)
    ensures y in FlatMap(xs, f) <==> exists x :: x in xs && y in f(x)
  {
    if xs != [] {
      FlatMapMember(xs[1..], f, y);
      if y in FlatMap(xs[1..], f) {
        var x :| x in xs[1..] && y in f(x);
        assert x in xs;
      }
      if exists x :: x in xs && y in f(x) {
        var x :| x in xs && y in f(x);
        if x != xs[0] {
          var i :| 0 <= i < |xs| && xs[i] == x;
          assert xs[1..][i - 1] == x;
        }
      }
    }
  }

  /** Splitting `ys` around position `i`. */
  lemma RemoveAt<A, B>(ys: seq<A>, i: nat, f: A -> seq<B>)
    requires i < |ys|
    ensures multiset(ys) == multiset{ys[i]} + multiset(ys[..i] + ys[i + 1..])
    ensures multiset(FlatMap(ys, f)) == multiset(f(ys[i])) + multiset(FlatMap(ys[..i] + ys[i + 1..], f))
  {
    var x, pre, post := ys[i], ys[..i], ys[i + 1..];
    SplitAt(ys, i);
    SplitMultiset(pre, x, post);
    SplitFlatMap(pre, x, post, f);
  }

  lemma SplitAt<A>(ys: seq<A>, i: nat)
    requires i < |ys|
    ensures ys == ys[..i] + ([ys[i]] + ys[i + 1..])
  {
  }

  lemma SplitMultiset<A>(pre: seq<A>, x: A, post: seq<A>)
    ensures multiset(pre + ([x] + post)) == multiset{x} + multiset(pre + post)
  {
  }

  lemma SplitFlatMap<A, B>(pre: seq<A>, x: A, post: seq<A>, f: A -> seq<B>)
    ensures multiset(FlatMap(pre + ([x] + post), f)) == multiset(f(x)) + multiset(FlatMap(pre + post, f))
  {
    FlatMapAppend(pre, [x] + post, f);
    FlatMapAppend([x], post, f);
    FlatMapAppend(pre, post, f);
    assert FlatMap([x], f) == f(x) by {
      assert [x][1..] == [];
    }
    var a, b, c := FlatMap(pre, f), f(x), FlatMap(post, f);
    assert multiset(a + (b + c)) == multiset(b) + multiset(a + c);
  }

  lemma MultisetCancel<T>(x: T, a: multiset<T>, b: multiset<T>)
    requires multiset{x} + a == multiset{x} + b
    ensures a == b
  {
    forall y
      ensures a[y] == b[y]
    {
      assert (multiset{x} + a)[y] == (multiset{x} + b)[y];
    }
  }

  /** A position at which `x` occurs in `ys`. */
  lemma IndexOf<T>(ys: seq<T>, x: T) returns (i: nat)
    requires x in ys
    ensures i < |ys| && ys[i] == x
  {
    i :| i < |ys| && ys[i] == x;
  }

  /** Reordering the input reorders the output: the result is the same multiset. */
  lemma {:induction false} FlatMapPermutation<A, B>(xs: seq<A>, ys: seq<A>, f: A -> seq<B>)
    requires multiset(xs) == multiset(ys)
    ensures multiset(FlatMap(xs, f)) == multiset(FlatMap(ys, f))
    decreases |xs|
  {
    if xs == [] {
      assert ys == [] by {
        assert |ys| == |multiset(ys)|;
      }
    } else {
      var x := xs[0];
      assert x in multiset(ys);
      var i := IndexOf(ys, x);
      var rest := ys[..i] + ys[i + 1..];
      RemoveAt(ys, i, f);
      assert multiset(xs) == multiset{x} + multiset(xs[1..]) by {
        assert xs == [x] + xs[1..];
      }
      MultisetCancel(x, multiset(xs[1..]), multiset(rest));
      FlatMapPermutation(xs[1..], rest, f);
      assert multiset(FlatMap(xs, f)) == multiset(f(x)) + multiset(FlatMap(xs[1..], f));
    }
  }

  /** When every input yields one output exactly if it satisfies `p`, the output length counts `p`. */
  lemma {:induction false} FlatMapCount<A, B>(xs: seq<A>, f: A -> seq<B>, p: A -> bool)
    requires forall x :: |f(x)| == if p(x) then 1 else 0
    ensures |FlatMap(xs, f)| == Count(xs, p)
  {
    if xs != [] {
      FlatMapCount(xs[1..], f, p);
    }
  }

  /** When every key contributes `w` of its value, the output length sums `w`. */
  lemma {:induction false} FlatMapEntriesLength<K, V, B>(ks: seq<K>, m: map<K, V>, f: (K, V) -> seq<B>, w: V -> nat)
    requires forall k, v :: |f(k, v)| == w(v)
    ensures |FlatMapEntries(ks, m, f)| == SumValues(ks, m, w)
  {
    if ks != [] {
      FlatMapEntriesLength(ks[1..], m, f, w);
    }
  }

  /** Output element of `FlatMapEntries` iff produced by some entry whose key is enumerated. */
  lemma FlatMapEntriesMember<K, V, B>(ks: seq<K>, m: map<K, V>, f: (K, V) -> seq<B>, y: B)
    requires Enumerates(ks, m)
    ensures y in FlatMapEntries(ks, m, f) <==> exists k :: k in m && y in f(k, m[k])
  {
    FlatMapMember(ks, AtKey(m, f), y);
    if y in FlatMapEntries(ks, m, f) {
      var k :| k in ks && y in AtKey(m, f)(k);
      assert k in m && y in f(k, m[k]);
    }
    if exists k :: k in m && y in f(k, m[k]) {
      var k :| k in m && y in f(k, m[k]);
      assert k in ks && y in AtKey(m, f)(k);
    }
  }

  /** Any two iteration orders of `m` give the same output up to order. */
  lemma FlatMapEntriesOrderFree<K, V, B>(ks1: seq<K>, ks2: seq<K>, m: map<K, V>, f: (K, V) -> seq<B>)
    requires Enumerates(ks1, m) && Enumerates(ks2, m)
    ensures multiset(FlatMapEntries(ks1, m, f)) == multiset(FlatMapEntries(ks2, m, f))
  {
    EnumerationsPermute(ks1, ks2, m);
    FlatMapPermutation(ks1, ks2, AtKey(m, f));
  }

  /** The keys of `m` whose entry satisfies `p`. */
  ghost function Selected<K, V>(m: map<K, V>, p: (K, V) -> bool): set<K> {
    set k | k in m && p(k, m[k])
  }

  /** Over an enumeration, the entries that produce one output each are counted by a set. */
  lemma {:induction false} FlatMapEntriesCount<K, V, B>(ks: seq<K>, m: map<K, V>, f: (K, V) -> seq<B>, p: (K, V) -> bool)
    requires Enumerates(ks, m)
    requires forall k, v :: |f(k, v)| == if p(k, v) then 1 else 0
    ensures |FlatMapEntries(ks, m, f)| == |Selected(m, p)|
    decreases |ks|
  {
    var s := Selected(m, p);
    if ks == [] {
      assert forall k :: k !in s;
    } else {
      var k0 := ks[0];
      var m' := m - {k0};
      EnumerationTail(ks, m);
      FlatMapEntriesCount(ks[1..], m', f, p);
      assert FlatMap(ks[1..], AtKey(m, f)) == FlatMap(ks[1..], AtKey(m', f)) by {
        FlatMapFrame(ks[1..], AtKey(m, f), AtKey(m', f));
      }
      SelectedRemove(m, p, k0);
    }
  }

  /** Removing one key from `m` removes at most that key from the selection. */
  lemma SelectedRemove<K, V>(m: map<K, V>, p: (K, V) -> bool, k0: K)
    requires k0 in m
    ensures k0 !in Selected(m - {k0}, p)
    ensures Selected(m, p) == Selected(m - {k0}, p) + (if p(k0, m[k0]) then {k0} else {})
  {
  }

  /** The singleton-or-nothing step of `Filter`. */
  function Keep<A>(p: A -> bool): A -> seq<A> {
    x => if p(x) then [x] else []
  }

  /** `Filter` is the `FlatMap` of its one-step function. */
  lemma {:induction false} FilterFlatMap<A>(xs: seq<A>, p: A -> bool)
    ensures Filter(xs, p) == FlatMap(xs, Keep(p))
  {
    if xs != [] {
      FilterFlatMap(xs[1..], p);
    }
  }

  /** An element is kept iff it occurs and satisfies the predicate. */
  lemma FilterMember<A>(xs: seq<A>, p: A -> bool, x: A)
    ensures x in Filter(xs, p) <==> x in xs && p(x)
  {
    FilterFlatMap(xs, p);
    FlatMapMember(xs, Keep(p), x);
  }

  /** Filtering two permutations of each other gives permutations of each other. */
  lemma FilterPermutation<A>(xs: seq<A>, ys: seq<A>, p: A -> bool)
    requires multiset(xs) == multiset(ys)
    ensures multiset(Filter(xs, p)) == multiset(Filter(ys, p))
  {
    FilterFlatMap(xs, p);
    FilterFlatMap(ys, p);
    FlatMapPermutation(xs, ys, Keep(p));
  }

  /** Two functions that agree on the inputs give the same `FlatMap`. */
  lemma {:induction false} FlatMapFrame<A, B>(xs: seq<A>, f: A -> seq<B>, g: A -> seq<B>)
    requires forall x | x in xs :: f(x) == g(x)
    ensures FlatMap(xs, f) == FlatMap(xs, g)
  {
    if xs != [] {
      assert forall x | x in xs[1..] :: x in xs;
      FlatMapFrame(xs[1..], f, g);
    }
  }

  /** Elements of a flat map over `xs` that satisfy `p` is the flat map filtered. */
  lemma {:induction false} FilterAppend<A>(xs: seq<A>, ys: seq<A>, p: A -> bool)
    ensures Filter(xs + ys, p) == Filter(xs, p) + Filter(ys, p)
  {
    if xs == [] {
      assert xs + ys == ys;
    } else {
      var head: seq<A> := if p(xs[0]) then [xs[0]] else [];
      assert (xs + ys)[0] == xs[0];
      assert (xs + ys)[1..] == xs[1..] + ys;
      assert Filter(xs + ys, p) == head + Filter(xs[1..] + ys, p);
      FilterAppend(xs[1..], ys, p);
      assert Filter(xs, p) == head + Filter(xs[1..], p);
      assert head + (Filter(xs[1..], p) + Filter(ys, p)) == (head + Filter(xs[1..], p)) + Filter(ys, p);
    }
  }

  // ---------------------------------------------------------------------------
  // Sums over maps

  /** The reference sum does not depend on which key it peels off first. */
  lemma {:induction false} SumMapRemove<K, V>(m: map<K, V>, w: V -> nat, k: K)
    requires k in m
    ensures SumMap(m, w) == w(m[k]) + SumMap(m - {k}, w)
    decreases |m|
  {
    var j := PickKey(m);
    if j != k {
      MapRemoveSize(m, j);
      MapRemoveSize(m, k);
      SumMapRemove(m - {j}, w, k);
      SumMapRemove(m - {k}, w, j);
      assert m - {j} - {k} == m - {k} - {j};
    }
  }

  /** Replacing (or adding) the value at `k` changes the sum by the difference of weights. */
  lemma SumMapUpdate<K, V>(m: map<K, V>, w: V -> nat, k: K, v: V)
    ensures SumMap(m[k := v], w) + (if k in m then w(m[k]) else 0) == SumMap(m, w) + w(v)
  {
    SumMapRemove(m[k := v], w, k);
    assert m[k := v] - {k} == m - {k};
    if k in m {
      SumMapRemove(m, w, k);
    } else {
      assert m - {k} == m;
    }
  }

  /** `SumValues` only looks at the keys it is given. */
  lemma {:induction false} SumValuesFrame<K, V>(ks: seq<K>, m1: map<K, V>, m2: map<K, V>, w: V -> nat)
    requires forall k | k in ks :: (k in m1 <==> k in m2) && (k in m1 ==> m1[k] == m2[k])
    ensures SumValues(ks, m1, w) == SumValues(ks, m2, w)
  {
    if ks != [] {
      assert forall k | k in ks[1..] :: k in ks;
      SumValuesFrame(ks[1..], m1, m2, w);
    }
  }

  /** Summing along any enumeration gives the order-free reference sum. */
  lemma {:induction false} SumValuesEnumeration<K, V>(ks: seq<K>, m: map<K, V>, w: V -> nat)
    requires Enumerates(ks, m)
    ensures SumValues(ks, m, w) == SumMap(m, w)
    decreases |ks|
  {
    if ks == [] {
      assert m == map[];
    } else {
      var k := ks[0];
      EnumerationTail(ks, m);
      SumValuesEnumeration(ks[1..], m - {k}, w);
      SumValuesFrame(ks[1..], m, m - {k}, w);
      SumMapRemove(m, w, k);
    }
  }

  /** A sum of naturals is zero iff every summand is. */
  lemma {:induction false} SumValuesZero<K, V>(ks: seq<K>, m: map<K, V>, w: V -> nat)
    ensures SumValues(ks, m, w) == 0 <==> forall k | k in ks && k in m :: w(m[k]) == 0
  {
    if ks != [] {
      SumValuesZero(ks[1..], m, w);
      assert forall k | k in ks :: k == ks[0] || k in ks[1..];
    }
  }

  /** The reference sum is zero when every value weighs nothing. */
  lemma {:induction false} SumMapZero<K, V>(m: map<K, V>, w: V -> nat)
    ensures SumMap(m, w) == 0 <==> forall k | k in m :: w(m[k]) == 0
    decreases |m|
  {
    if m != map[] {
      var k := PickKey(m);
      MapRemoveSize(m, k);
      SumMapZero(m - {k}, w);
      assert forall j | j in m :: j == k || j in m - {k};
    }
  }

  /** Appending one key adds its weight. */
  lemma {:induction false} SumValuesSnoc<K, V>(ks: seq<K>, k: K, m: map<K, V>, w: V -> nat)
    ensures SumValues(ks + [k], m, w) == SumValues(ks, m, w) + (if k in m then w(m[k]) else 0)
  {
    if ks != [] {
      assert (ks + [k])[1..] == ks[1..] + [k];
      SumValuesSnoc(ks[1..], k, m, w);
    }
  }

  // ---------------------------------------------------------------------------
  // Counting

  /** Two predicates that never hold together count at most the length. */
  lemma {:induction false} CountDisjoint<A>(xs: seq<A>, p: A -> bool, q: A -> bool)
    requires forall x :: !(p(x) && q(x))
    ensures Count(xs, p) + Count(xs, q) <= |xs|
  {
    if xs != [] {
      CountDisjoint(xs[1..], p, q);
    }
  }

  /** Nothing is counted iff no element satisfies the predicate. */
  lemma {:induction false} CountZero<A>(xs: seq<A>, p: A -> bool)
    ensures Count(xs, p) == 0 <==> forall x | x in xs :: !p(x)
  {
    if xs != [] {
      CountZero(xs[1..], p);
      assert forall x | x in xs :: x == xs[0] || x in xs[1..];
    }
  }
}
