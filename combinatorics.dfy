/** The library calls get_permutations_lst and the prompt loop rely on:
    `itertools.permutations(xs, r)` as the list
    of r-arrangements of xs, and `random.shuffle` as an order chosen by the
    caller. */
module Combinatorics {
  import opened Seqs

  function Factorial(n: nat): nat
  {
    if n == 0 then 1 else n * Factorial(n - 1)
  }

  /** The falling factorial n·(n-1)···(n-r+1), that is n!/(n-r)! for r <= n,
      and 0 for r > n. */
  function Falling(n: nat, r: nat): nat
  {
    if r == 0 then 1 else if n == 0 then 0 else n * Falling(n - 1, r - 1)
  }

  lemma {:induction false} FallingIsFactorialQuotient(n: nat, r: nat)
    requires r <= n
    ensures Falling(n, r) * Factorial(n - r) == Factorial(n)
  {
    if r > 0 {
      FallingIsFactorialQuotient(n - 1, r - 1);
      var a, b := Falling(n - 1, r - 1), Factorial(n - r);
      assert a * b == Factorial(n - 1);
      assert Falling(n, r) == n * a;
      MulAssoc(n, a, b);
    }
  }

  lemma ModSmall(j: nat, n: nat)
    requires j < n
    ensures j % n == j
  {
  }

  lemma MulSucc(a: nat, f: nat)
    ensures (a + 1) * f == f + a * f
  {
  }

  lemma MulAssoc(x: int, y: int, z: int)
    ensures (x * y) * z == x * (y * z)
  {
  }

  /** Taking the same element out of both sides keeps inclusion. */
  lemma MultisetCancel<T>(a: multiset<T>, b: multiset<T>, x: T)
    requires a + multiset{x} <= b + multiset{x}
    ensures a <= b
  {
    forall v ensures a[v] <= b[v] {
      assert (a + multiset{x})[v] <= (b + multiset{x})[v];
    }
  }

  lemma MultisetCancelEq<T>(a: multiset<T>, b: multiset<T>, x: T)
    requires a + multiset{x} == b + multiset{x}
    ensures a == b
  {
    MultisetCancel(a, b, x);
    MultisetCancel(b, a, x);
  }

  lemma {:induction false} FallingAll(n: nat)
    ensures Falling(n, n) == Factorial(n)
  {
    FallingIsFactorialQuotient(n, n);
  }

  /** [x] + each list of qs. */
  function Prepend<T>(x: T, qs: seq<seq<T>>): (r: seq<seq<T>>)
    ensures |r| == |qs|
    ensures forall k :: 0 <= k < |r| ==> r[k] == [x] + qs[k]
  {
    seq(|qs|, k requires 0 <= k < |qs| => [x] + qs[k])
  }

  /** `list(itertools.permutations(s, r))`, as lists: every way of picking r
      elements from distinct positions of s, in order. Arrangements whose
      first element comes from an earlier position come first, which is the
      order itertools yields them in. */
  function Arrangements<T>(s: seq<T>, r: nat): seq<seq<T>>
    decreases r, |s| + 1
  {
    if r == 0 then [[]] else ArrangementsFrom(s, r, 0)
  }

  /** The arrangements of length r >= 1 whose first element is taken from
      position i or later. */
  function ArrangementsFrom<T>(s: seq<T>, r: nat, i: nat): seq<seq<T>>
    requires 1 <= r && i <= |s|
    decreases r, |s| - i
  {
    if i == |s| then []
    else Prepend(s[i], Arrangements(RemoveAt(s, i), r - 1)) + ArrangementsFrom(s, r, i + 1)
  }

  /** `itertools.permutations(s)`: the full-length arrangements. */
  function Permutations<T>(s: seq<T>): seq<seq<T>>
  {
    Arrangements(s, |s|)
  }

  // ---------------------------------------------------------------------
  // How many.

  lemma {:induction false} ArrangementsCount<T>(s: seq<T>, r: nat)
    ensures |Arrangements(s, r)| == Falling(|s|, r)
    decreases r, |s| + 1
  {
    if r > 0 {
      ArrangementsFromCount(s, r, 0);
      if |s| > 0 {
        assert Falling(|s|, r) == |s| * Falling(|s| - 1, r - 1);
      }
    }
  }

  lemma {:induction false} ArrangementsFromCount<T>(s: seq<T>, r: nat, i: nat)
    requires 1 <= r && i <= |s|
    ensures |s| > 0 ==> |ArrangementsFrom(s, r, i)| == (|s| - i) * Falling(|s| - 1, r - 1)
    ensures |s| == 0 ==> ArrangementsFrom(s, r, i) == []
    decreases r, |s| - i
  {
    if i < |s| {
      ArrangementsCount(RemoveAt(s, i), r - 1);
      ArrangementsFromCount(s, r, i + 1);
      MulSucc(|s| - i - 1, Falling(|s| - 1, r - 1));
    }
  }

  /** `itertools.permutations` of n elements yields n! lists. */
  lemma PermutationsCount<T>(s: seq<T>)
    ensures |Permutations(s)| == Factorial(|s|)
  {
    ArrangementsCount(s, |s|);
    FallingAll(|s|);
  }

  // ---------------------------------------------------------------------
  // What each one is: r elements taken from distinct positions, that is a
  // sub-multiset of s of size r (all of s when r == |s|).

  lemma {:induction false} ArrangementsSound<T>(s: seq<T>, r: nat, p: seq<T>)
    requires p in Arrangements(s, r)
    ensures |p| == r && multiset(p) <= multiset(s)
    ensures r == |s| ==> multiset(p) == multiset(s)
    decreases r, |s| + 1
  {
    if r > 0 {
      ArrangementsFromSound(s, r, 0, p);
    }
  }

  lemma {:induction false} ArrangementsFromSound<T>(s: seq<T>, r: nat, i: nat, p: seq<T>)
    requires 1 <= r && i <= |s|
    requires p in ArrangementsFrom(s, r, i)
    ensures |p| == r && multiset(p) <= multiset(s)
    ensures r == |s| ==> multiset(p) == multiset(s)
    ensures p[0] in s[i..]
    decreases r, |s| - i
  {
    var head := Prepend(s[i], Arrangements(RemoveAt(s, i), r - 1));
    if p in head {
      var k :| 0 <= k < |head| && head[k] == p;
      var q := Arrangements(RemoveAt(s, i), r - 1)[k];
      ArrangementsSound(RemoveAt(s, i), r - 1, q);
      assert p == [s[i]] + q;
      assert multiset(p) == multiset(q) + multiset{s[i]};
    } else {
      ArrangementsFromSound(s, r, i + 1, p);
    }
  }

  /** Taking p's first element out of s where it first occurs leaves room
      for the rest of p. */
  lemma HeadSplit<T>(s: seq<T>, p: seq<T>)
    requires |p| > 0 && multiset(p) <= multiset(s)
    ensures p[0] in s
    ensures IndexOf(s, p[0]).Some?
    ensures multiset(p[1..]) <= multiset(RemoveAt(s, IndexOf(s, p[0]).value))
    ensures multiset(p) == multiset(s) ==>
              multiset(p[1..]) == multiset(RemoveAt(s, IndexOf(s, p[0]).value))
  {
    assert p == [p[0]] + p[1..];
    assert multiset(p) == multiset(p[1..]) + multiset{p[0]};
    assert p[0] in multiset(s);
    var rest := RemoveAt(s, IndexOf(s, p[0]).value);
    MultisetCancel(multiset(p[1..]), multiset(rest), p[0]);
    if multiset(p) == multiset(s) {
      MultisetCancelEq(multiset(p[1..]), multiset(rest), p[0]);
    }
  }

  /** Every selection of r elements from distinct positions is listed. */
  lemma {:induction false} ArrangementsComplete<T>(s: seq<T>, r: nat, p: seq<T>)
    requires |p| == r && multiset(p) <= multiset(s)
    ensures p in Arrangements(s, r)
    decreases r
  {
    if r > 0 {
      HeadSplit(s, p);
      var j := IndexOf(s, p[0]).value;
      ArrangementsComplete(RemoveAt(s, j), r - 1, p[1..]);
      CompleteStep(s, r, p, j);
    }
  }

  /** An arrangement of what is left once position j is taken out, with
      s[j] in front, is an arrangement of s. */
  lemma CompleteStep<T>(s: seq<T>, r: nat, p: seq<T>, j: nat)
    requires 1 <= r && j < |s| && |p| >= 1 && s[j] == p[0]
    requires p[1..] in Arrangements(RemoveAt(s, j), r - 1)
    ensures p in Arrangements(s, r)
  {
    assert p == [s[j]] + p[1..];
    PrependContains(s[j], Arrangements(RemoveAt(s, j), r - 1), p[1..]);
    ArrangementsFromContains(s, r, 0, j, p);
  }

  lemma PrependContains<T>(x: T, qs: seq<seq<T>>, q: seq<T>)
    requires q in qs
    ensures [x] + q in Prepend(x, qs)
  {
    var k :| 0 <= k < |qs| && qs[k] == q;
    assert Prepend(x, qs)[k] == [x] + q;
  }

  lemma {:induction false} ArrangementsFromContains<T>(s: seq<T>, r: nat, i: nat, j: nat, p: seq<T>)
    requires 1 <= r && i <= j < |s|
    requires p in Prepend(s[j], Arrangements(RemoveAt(s, j), r - 1))
    ensures p in ArrangementsFrom(s, r, i)
    decreases j - i
  {
    if i < j {
      ArrangementsFromContains(s, r, i + 1, j, p);
    }
  }

  /** With distinct elements, the listed arrangements are pairwise distinct:
      no ordering is produced twice. */
  predicate Distinct<T(==)>(s: seq<T>)
  {
    forall a, b :: 0 <= a < b < |s| ==> s[a] != s[b]
  }

  lemma {:induction false} ArrangementsDistinct<T>(s: seq<T>, r: nat)
    requires Distinct(s)
    ensures Distinct(Arrangements(s, r))
    decreases r, |s| + 1
  {
    if r > 0 {
      ArrangementsFromDistinct(s, r, 0);
    }
  }

  lemma {:induction false} ArrangementsFromDistinct<T>(s: seq<T>, r: nat, i: nat)
    requires 1 <= r && i <= |s| && Distinct(s)
    ensures Distinct(ArrangementsFrom(s, r, i))
    decreases r, |s| - i
  {
    if i < |s| {
      var rest := RemoveAt(s, i);
      assert Distinct(rest);
      ArrangementsDistinct(rest, r - 1);
      var head := Prepend(s[i], Arrangements(rest, r - 1));
      var tail := ArrangementsFrom(s, r, i + 1);
      ArrangementsFromDistinct(s, r, i + 1);
      forall a, b | 0 <= a < b < |head| + |tail| ensures (head + tail)[a] != (head + tail)[b] {
        if b < |head| {
          assert head[a][1..] == Arrangements(rest, r - 1)[a];
          assert head[b][1..] == Arrangements(rest, r - 1)[b];
        } else if a < |head| {
          var q := tail[b - |head|];
          assert q in tail;
          ArrangementsFromSound(s, r, i + 1, q);
          assert head[a][0] == s[i];
          assert s[i] !in s[i + 1..];
        }
      }
    }
  }

  // ---------------------------------------------------------------------
  // random.shuffle, with the random choices supplied by the caller: picks[k]
  // (taken modulo the number of elements still unplaced) says which of them
  // goes to position k. A missing pick counts as 0.

  function Shuffled<T>(xs: seq<T>, picks: seq<nat>): (r: seq<T>)
    ensures multiset(r) == multiset(xs)
    ensures |r| == |xs|
    decreases |xs|
  {
    if xs == [] then []
    else
      var i := if picks == [] then 0 else picks[0] % |xs|;
      [xs[i]] + Shuffled(RemoveAt(xs, i), if picks == [] then [] else picks[1..])
  }

  /** The picks that make Shuffled produce the ordering p. */
  function PicksFor<T(==)>(xs: seq<T>, p: seq<T>): seq<nat>
    requires multiset(p) == multiset(xs)
    decreases |xs|
  {
    if xs == [] then []
    else
      assert |p| == |multiset(p)| == |multiset(xs)| == |xs|;
      HeadSplit(xs, p);
      var j := IndexOf(xs, p[0]).value;
      [j] + PicksFor(RemoveAt(xs, j), p[1..])
  }

  /** Every reordering random.shuffle could produce is one the picks can
      select, so the stand-in loses no outcome. */
  lemma {:induction false} ShuffledReachesEveryOrder<T>(xs: seq<T>, p: seq<T>)
    requires multiset(p) == multiset(xs)
    ensures Shuffled(xs, PicksFor(xs, p)) == p
    decreases |xs|
  {
    assert |p| == |multiset(p)| == |multiset(xs)| == |xs|;
    if xs != [] {
      HeadSplit(xs, p);
      var j := IndexOf(xs, p[0]).value;
      var rest := RemoveAt(xs, j);
      assert p == [xs[j]] + p[1..];
      var picks := PicksFor(xs, p);
      assert picks == [j] + PicksFor(rest, p[1..]);
      ModSmall(j, |xs|);
      assert picks[1..] == PicksFor(rest, p[1..]);
      ShuffledReachesEveryOrder(rest, p[1..]);
      assert Shuffled(xs, picks) == [xs[j]] + Shuffled(rest, picks[1..]);
    }
  }

  /** Shuffling a list of lists keeps the multiset of all their elements. */
  lemma {:induction false} ShuffledFlattenMultiset<T>(xss: seq<seq<T>>, picks: seq<nat>)
    ensures multiset(Flatten(Shuffled(xss, picks))) == multiset(Flatten(xss))
    decreases |xss|
  {
    if xss != [] {
      var i := if picks == [] then 0 else picks[0] % |xss|;
      var more := if picks == [] then [] else picks[1..];
      var rest := Shuffled(RemoveAt(xss, i), more);
      assert Shuffled(xss, picks) == [xss[i]] + rest;
      ShuffledFlattenMultiset(RemoveAt(xss, i), more);
      FlattenConcat([xss[i]], rest);
      assert Flatten([xss[i]]) == xss[i] by {
        assert [xss[i]][..0] == [];
      }
      FlattenMultiset(xss, i);
    }
  }
}
