/** Sequence, string and error vocabulary shared by the functions of
    src/gen_data.py: Python's exceptions as a Result, list.index, slicing,
    substring tests, str(int) and list flattening. */
module Seqs {

  /** A text line as `readlines` returns it (normally ending in "\n"). */
  type Line = string

  /** The two exceptions the generator can raise on malformed input. */
  datatype Error =
    | ValueError   // list.index on a marker line that is absent
    | IndexError   // positions[0] on a SpriteSet row without a child token

  datatype Result<T> = Ok(value: T) | Err(error: Error) {
    predicate IsFailure() { Err? }
    function PropagateFailure<U>(): Result<U>
      requires Err?
    {
      Err(error)
    }
    function Extract(): T
      requires Ok?
    {
      value
    }
  }

  datatype Option<T> = None | Some(value: T)

  /** `[f(x) for x in xs]` where f may raise: the first exception aborts the
      whole list. */
  function MapResult<A, B>(f: A -> Result<B>, xs: seq<A>): (r: Result<seq<B>>)
    ensures r.Ok? ==> |r.value| == |xs|
  {
    if xs == [] then Ok([])
    else
      var front :- MapResult(f, xs[..|xs| - 1]);
      var last :- f(xs[|xs| - 1]);
      Ok(front + [last])
  }

  /** The list comprehension fails exactly when some element's call fails,
      with the exception of the first one that does; otherwise entry k is
      f(xs[k]). */
  lemma {:induction false} MapResultFails<A, B>(f: A -> Result<B>, xs: seq<A>)
    ensures MapResult(f, xs).Err? <==> exists k :: 0 <= k < |xs| && f(xs[k]).Err?
    ensures MapResult(f, xs).Err? ==>
              exists k :: 0 <= k < |xs| && f(xs[k]).Err? && MapResult(f, xs).error == f(xs[k]).error
                          && forall j :: 0 <= j < k ==> f(xs[j]).Ok?
    ensures MapResult(f, xs).Ok? ==>
              forall k :: 0 <= k < |xs| ==> f(xs[k]).Ok? && MapResult(f, xs).value[k] == f(xs[k]).value
  {
    if xs != [] {
      var n := |xs| - 1;
      var front := xs[..n];
      MapResultFails(f, front);
      assert forall k :: 0 <= k < n ==> front[k] == xs[k];
    }
  }

  /** Python's `list.index(x)`: the position of the FIRST occurrence, or None
      where Python raises ValueError. */
  function IndexOf<T(==)>(s: seq<T>, x: T): (r: Option<nat>)
    ensures r.None? <==> x !in s
    ensures r.Some? ==> r.value < |s| && s[r.value] == x
    ensures r.Some? ==> forall j :: 0 <= j < r.value ==> s[j] != x
  {
    if s == [] then None
    else if s[0] == x then Some(0)
    else match IndexOf(s[1..], x)
      case None => None
      case Some(i) => Some(i + 1)
  }

  /** Python's `s[lo:hi]` for bounds already inside `0..|s|`: empty when the
      bounds are reversed. */
  function PySlice<T>(s: seq<T>, lo: nat, hi: nat): (r: seq<T>)
    requires lo <= |s| && hi <= |s|
    ensures |r| == if lo <= hi then hi - lo else 0
    ensures forall k :: 0 <= k < |r| ==> r[k] == s[lo + k]
  {
    if lo <= hi then s[lo..hi] else []
  }

  /** Python's `xs[:n]`. */
  function Take<T>(xs: seq<T>, n: nat): (r: seq<T>)
    ensures |r| == if n <= |xs| then n else |xs|
    ensures r <= xs
  {
    if n <= |xs| then xs[..n] else xs
  }

  function Min(a: nat, b: nat): nat { if a <= b then a else b }

  /** `s` with the element at position i taken out. */
  function RemoveAt<T>(s: seq<T>, i: nat): (r: seq<T>)
    requires i < |s|
    ensures |r| == |s| - 1
    ensures multiset(r) + multiset{s[i]} == multiset(s)
    ensures forall k :: 0 <= k < |r| ==> r[k] == if k < i then s[k] else s[k + 1]
  {
    assert s == s[..i] + [s[i]] + s[i + 1..];
    s[..i] + s[i + 1..]
  }

  /** A slice of a slice is a slice of the original. */
  lemma SliceOfSlice<T>(s: seq<T>, a: nat, b: nat, i: nat, j: nat)
    requires a <= b <= |s| && i <= j <= b - a
    ensures s[a..b][i..j] == s[a + i..a + j]
  {
    forall k | 0 <= k < j - i ensures s[a..b][i..j][k] == s[a + i..a + j][k] {
      assert s[a..b][i..j][k] == s[a + i + k];
    }
  }

  lemma SliceSplit<T>(s: seq<T>, a: nat, m: nat, b: nat)
    requires a <= m <= b <= |s|
    ensures s[a..b] == s[a..m] + s[m..b]
  {
  }

  /** `sub` occurs in `s` starting at position p. */
  predicate OccursAt(s: string, sub: string, p: nat)
  {
    p + |sub| <= |s| && s[p..p + |sub|] == sub
  }

  /** Python's `sub in s` on strings. */
  predicate Contains(s: string, sub: string)
  {
    exists p: nat :: p <= |s| && OccursAt(s, sub, p)
  }

  /** Python's `s.count(ch)` for a one-character `ch`. */
  function Count(s: string, ch: char): (n: nat)
    ensures n <= |s|
    ensures n == 0 <==> ch !in s
  {
    if s == [] then 0 else (if s[0] == ch then 1 else 0) + Count(s[1..], ch)
  }

  /** `" " * n`. */
  function Spaces(n: nat): (r: string)
    ensures |r| == n && forall k :: 0 <= k < n ==> r[k] == ' '
  {
    seq(n, _ => ' ')
  }

  /** Concatenation of a list of lists, in order (`itertools.chain`, or the
      appends of a nested for-loop). Defined from the back so that a loop
      that appends one list at a time follows it step by step. */
  function Flatten<T>(xss: seq<seq<T>>): seq<T>
  {
    if xss == [] then [] else Flatten(xss[..|xss| - 1]) + xss[|xss| - 1]
  }

  /** Total length of a list of lists. */
  function TotalLength<T>(xss: seq<seq<T>>): nat
  {
    if xss == [] then 0 else TotalLength(xss[..|xss| - 1]) + |xss[|xss| - 1]|
  }

  lemma {:induction false} FlattenLength<T>(xss: seq<seq<T>>)
    ensures |Flatten(xss)| == TotalLength(xss)
  {
    if xss != [] {
      FlattenLength(xss[..|xss| - 1]);
    }
  }

  lemma {:induction false} FlattenConcat<T>(a: seq<seq<T>>, b: seq<seq<T>>)
    ensures Flatten(a + b) == Flatten(a) + Flatten(b)
  {
    if b == [] {
      assert a + b == a;
    } else {
      var front, last := b[..|b| - 1], b[|b| - 1];
      assert (a + b)[..|a + b| - 1] == a + front;
      assert (a + b)[|a + b| - 1] == last;
      FlattenConcat(a, front);
      assert Flatten(a + b) == Flatten(a) + Flatten(front) + last;
    }
  }

  /** Flattening keeps every inner list contiguous and in place: element t of
      list i sits right after the elements of the lists before it. */
  lemma FlattenAt<T>(xss: seq<seq<T>>, i: nat, t: nat)
    requires i < |xss| && t < |xss[i]|
    ensures |Flatten(xss[..i])| + t < |Flatten(xss)|
    ensures Flatten(xss)[|Flatten(xss[..i])| + t] == xss[i][t]
  {
    assert xss == xss[..i] + [xss[i]] + xss[i + 1..];
    FlattenConcat(xss[..i] + [xss[i]], xss[i + 1..]);
    FlattenConcat(xss[..i], [xss[i]]);
    assert Flatten([xss[i]]) == xss[i] by {
      assert [xss[i]][..0] == [];
    }
  }

  lemma {:induction false} FlattenMultiset<T>(xss: seq<seq<T>>, i: nat)
    requires i < |xss|
    ensures multiset(Flatten(xss)) == multiset(Flatten(RemoveAt(xss, i))) + multiset(xss[i])
  {
    assert xss == xss[..i] + [xss[i]] + xss[i + 1..];
    FlattenConcat(xss[..i] + [xss[i]], xss[i + 1..]);
    FlattenConcat(xss[..i], [xss[i]]);
    FlattenConcat(xss[..i], xss[i + 1..]);
    assert Flatten([xss[i]]) == xss[i] by {
      assert [xss[i]][..0] == [];
    }
  }

  /** ''.join(lines). */
  function Join(lines: seq<string>): string
  {
    Flatten(lines)
  }

  // ---------------------------------------------------------------------
  // Decimal rendering of a counter, as in f"{idx})".

  function DigitChar(d: nat): (c: char)
    requires d < 10
    ensures '0' <= c <= '9'
  {
    "0123456789"[d]
  }

  function DigitValue(c: char): nat
  {
    if '0' <= c <= '9' then (c as int - '0' as int) as nat else 0
  }

  /** `str(n)` for a non-negative int. */
  function Decimal(n: nat): (s: string)
    ensures |s| >= 1
    ensures forall k :: 0 <= k < |s| ==> '0' <= s[k] <= '9'
    decreases n
  {
    if n < 10 then [DigitChar(n)] else Decimal(n / 10) + [DigitChar(n % 10)]
  }

  /** `int(s)` for a string of ASCII digits. */
  function ParseDecimal(s: string): nat
  {
    if s == [] then 0 else ParseDecimal(s[..|s| - 1]) * 10 + DigitValue(s[|s| - 1])
  }

  /** str and int are inverse on non-negative integers, and str(n) has no
      leading zero except for n == 0; so "i)" names position i unambiguously. */
  lemma {:induction false} DecimalRoundTrip(n: nat)
    ensures ParseDecimal(Decimal(n)) == n
    ensures Decimal(n)[0] == '0' <==> n == 0
    decreases n
  {
    if n >= 10 {
      DecimalRoundTrip(n / 10);
      var s := Decimal(n);
      assert s[..|s| - 1] == Decimal(n / 10);
      assert s[0] == Decimal(n / 10)[0];
    }
  }
}
