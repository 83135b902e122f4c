/** `itertools.product(*lists)`: every way of picking one element from each
    list, in order, the last list varying fastest. */
module Products {
  import opened Combinatorics

  /** [x] + t for every x of xs (outer) and every t of tails (inner). */
  function ProductWith<T>(xs: seq<T>, tails: seq<seq<T>>): seq<seq<T>>
  {
    if xs == [] then [] else Prepend(xs[0], tails) + ProductWith(xs[1..], tails)
  }

  /** `list(itertools.product(*xss))`, each tuple as a list. */
  function Product<T>(xss: seq<seq<T>>): seq<seq<T>>
    decreases |xss|
  {
    if xss == [] then [[]] else ProductWith(xss[0], Product(xss[1..]))
  }

  /** |xss[0]| · |xss[1]| · ... */
  function LengthProduct<T>(xss: seq<seq<T>>): nat
  {
    if xss == [] then 1 else |xss[0]| * LengthProduct(xss[1..])
  }

  lemma LengthProductCons<T>(x: seq<T>, xs: seq<seq<T>>)
    ensures LengthProduct([x] + xs) == |x| * LengthProduct(xs)
  {
    assert ([x] + xs)[1..] == xs;
  }

  lemma {:induction false} ProductWithCount<T>(xs: seq<T>, tails: seq<seq<T>>)
    ensures |ProductWith(xs, tails)| == |xs| * |tails|
  {
    if xs != [] {
      ProductWithCount(xs[1..], tails);
      assert |xs| * |tails| == |tails| + (|xs| - 1) * |tails|;
    }
  }

  /** One tuple per combination. */
  lemma {:induction false} ProductCount<T>(xss: seq<seq<T>>)
    ensures |Product(xss)| == LengthProduct(xss)
    decreases |xss|
  {
    if xss != [] {
      ProductCount(xss[1..]);
      ProductWithCount(xss[0], Product(xss[1..]));
    }
  }

  /** Where each combination sits: element a of the outer list with tail b
      is entry a·|tails| + b. */
  lemma {:induction false} ProductWithAt<T>(xs: seq<T>, tails: seq<seq<T>>, a: nat, b: nat)
    requires a < |xs| && b < |tails|
    ensures a * |tails| + b < |ProductWith(xs, tails)|
    ensures ProductWith(xs, tails)[a * |tails| + b] == [xs[a]] + tails[b]
  {
    ProductWithCount(xs, tails);
    var head := Prepend(xs[0], tails);
    if a > 0 {
      ProductWithAt(xs[1..], tails, a - 1, b);
      assert a * |tails| + b == |head| + ((a - 1) * |tails| + b);
      assert xs[1..][a - 1] == xs[a];
    }
  }

  lemma {:induction false} ProductWithMember<T>(xs: seq<T>, tails: seq<seq<T>>, t: seq<T>)
    ensures t in ProductWith(xs, tails) <==> |t| >= 1 && t[0] in xs && t[1..] in tails
  {
    if xs != [] {
      var head := Prepend(xs[0], tails);
      ProductWithMember(xs[1..], tails, t);
      assert xs == [xs[0]] + xs[1..];
      if |t| >= 1 && t[0] == xs[0] && t[1..] in tails {
        var k :| 0 <= k < |tails| && tails[k] == t[1..];
        assert head[k] == t;
      }
      if t in head {
        var k :| 0 <= k < |head| && head[k] == t;
        assert t[1..] == tails[k];
      }
    }
  }

  /** A list is produced exactly when it picks one element of each list, in
      the lists' order. */
  lemma {:induction false} ProductMember<T>(xss: seq<seq<T>>, t: seq<T>)
    ensures t in Product(xss) <==>
              |t| == |xss| && forall i :: 0 <= i < |xss| ==> t[i] in xss[i]
    decreases |xss|
  {
    if xss != [] {
      ProductWithMember(xss[0], Product(xss[1..]), t);
      if |t| >= 1 {
        ProductMember(xss[1..], t[1..]);
        if |t| == |xss| && t[1..] in Product(xss[1..]) {
          forall i | 1 <= i < |xss| ensures t[i] in xss[i] {
            assert t[1..][i - 1] == t[i];
          }
        }
        if |t| == |xss| && forall i :: 0 <= i < |xss| ==> t[i] in xss[i] {
          forall i | 0 <= i < |xss| - 1 ensures t[1..][i] in xss[1..][i] {
            assert t[1..][i] == t[i + 1];
          }
        }
      }
    } else {
      assert t in [[]] <==> t == [];
    }
  }

  /** The two-list case: entry k pairs element k / |ys| of the first list
      with element k % |ys| of the second. */
  lemma PairAt<T>(xs: seq<T>, ys: seq<T>, k: nat)
    requires k < |xs| * |ys|
    ensures |Product([xs, ys])| == |xs| * |ys|
    ensures |ys| > 0 && k / |ys| < |xs| && k % |ys| < |ys|
    ensures Product([xs, ys])[k] == [xs[k / |ys|], ys[k % |ys|]]
  {
    DivBound(k, |xs|, |ys|);
    PairAtGrid(xs, ys, k / |ys|, k % |ys|);
  }

  /** Row a, column b of the two-list product. */
  lemma PairAtGrid<T>(xs: seq<T>, ys: seq<T>, a: nat, b: nat)
    requires a < |xs| && b < |ys|
    ensures |Product([xs, ys])| == |xs| * |ys|
    ensures a * |ys| + b < |Product([xs, ys])|
    ensures Product([xs, ys])[a * |ys| + b] == [xs[a], ys[b]]
  {
    var singles := PairSingles(xs, ys);
    ProductWithCount(xs, singles);
    ProductWithAt(ys, [[]], b, 0);
    assert singles[b] == [ys[b]];
    ProductWithAt(xs, singles, a, b);
  }

  /** The two-list product is xs paired with the one-element lists of ys. */
  lemma PairSingles<T>(xs: seq<T>, ys: seq<T>) returns (singles: seq<seq<T>>)
    ensures singles == ProductWith(ys, [[]]) && |singles| == |ys|
    ensures Product([xs, ys]) == ProductWith(xs, singles)
  {
    assert [ys][1..] == [];
    singles := ProductWith(ys, [[]]);
    assert Product([ys]) == singles;
    assert [xs, ys][1..] == [ys];
    ProductWithCount(ys, [[]]);
  }

  /** Entry k of an m-by-n grid, read row by row, is in row k / n, column
      k % n. */
  lemma DivBound(k: nat, m: nat, n: nat)
    requires k < m * n
    ensures n > 0 && k / n < m && k % n < n && k == (k / n) * n + k % n
  {
    DivMod(k, n);
    MulMono(m, k / n, n);
  }

  lemma DivMod(k: nat, n: nat)
    requires n > 0
    ensures k == (k / n) * n + k % n && 0 <= k % n < n
  {
  }

  lemma MulMono(x: nat, y: nat, z: nat)
    ensures x <= y ==> x * z <= y * z
  {
  }
}
