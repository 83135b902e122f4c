/** get_permutations_lst (src/gen_data.py:87-97), every
    ordering of one section's rows, each with the section's marker line in
    front. */
module RowPermuter {
  import opened Seqs
  import opened Slicing
  import opened Combinatorics

  /** The list get_permutations_lst returns. */
  function SectionPermutations(block: seq<Line>, start: Line, end: Line): (r: Result<seq<seq<Line>>>)
    ensures r.Ok? <==> start in block && (|end| > 0 ==> end in block)
    ensures r.Err? ==> r.error == ValueError
  {
    var rows :- SectionRows(block, start, end);
    Ok(Prepend(start, Permutations(rows)))
  }

  /** n rows give n! lists; each is the marker followed by a reordering of
      exactly those rows. */
  lemma SectionPermutationsShape(block: seq<Line>, start: Line, end: Line, p: seq<Line>)
    requires SectionRows(block, start, end).Ok?
    ensures var rows := SectionRows(block, start, end).value;
            |SectionPermutations(block, start, end).value| == Factorial(|rows|)
    ensures var rows := SectionRows(block, start, end).value;
            p in SectionPermutations(block, start, end).value ==>
              && |p| == |rows| + 1
              && p[0] == start
              && multiset(p[1..]) == multiset(rows)
  {
    var rows := SectionRows(block, start, end).value;
    var ps := SectionPermutations(block, start, end).value;
    PermutationsCount(rows);
    if p in ps {
      var k :| 0 <= k < |ps| && ps[k] == p;
      var q := Permutations(rows)[k];
      ArrangementsSound(rows, |rows|, q);
      assert p[1..] == q;
    }
  }

  /** ... and every reordering of the rows is among them. */
  lemma SectionPermutationsComplete(block: seq<Line>, start: Line, end: Line, q: seq<Line>)
    requires SectionRows(block, start, end).Ok?
    requires multiset(q) == multiset(SectionRows(block, start, end).value)
    ensures [start] + q in SectionPermutations(block, start, end).value
  {
    var rows := SectionRows(block, start, end).value;
    assert |q| == |multiset(q)| == |rows|;
    ArrangementsComplete(rows, |rows|, q);
    var k :| 0 <= k < |Permutations(rows)| && Permutations(rows)[k] == q;
    assert SectionPermutations(block, start, end).value[k] == [start] + q;
  }

  /** When the section's rows are pairwise different, no ordering is listed
      twice. */
  lemma SectionPermutationsDistinct(block: seq<Line>, start: Line, end: Line)
    requires SectionRows(block, start, end).Ok?
    requires Distinct(SectionRows(block, start, end).value)
    ensures Distinct(SectionPermutations(block, start, end).value)
  {
    var rows := SectionRows(block, start, end).value;
    ArrangementsDistinct(rows, |rows|);
    var ps := SectionPermutations(block, start, end).value;
    forall a, b | 0 <= a < b < |ps| ensures ps[a] != ps[b] {
      assert ps[a][1..] == Permutations(rows)[a];
      assert ps[b][1..] == Permutations(rows)[b];
    }
  }

  /** get_permutations_lst: slice the section, list its permutations, then
      turn each into a list and insert the marker at position 0, in place. */
  method GetPermutationsLst(block: seq<Line>, start: Line, end: Line) returns (r: Result<seq<seq<Line>>>)
    ensures r == SectionPermutations(block, start, end)
  {
    var bounds := SectionBounds(block, start, end);
    if bounds.Err? {
      return Err(ValueError);
    }
    var (startIdx, endIdx) := bounds.value;
    var srcLst := PySlice(block, startIdx + 1, endIdx);
    var permutationsLst := Permutations(srcLst);
    ghost var orig := permutationsLst;
    for permutationsIdx := 0 to |permutationsLst|
      invariant |permutationsLst| == |orig|
      invariant forall k :: 0 <= k < permutationsIdx ==> permutationsLst[k] == [start] + orig[k]
      invariant forall k :: permutationsIdx <= k < |orig| ==> permutationsLst[k] == orig[k]
    {
      permutationsLst := permutationsLst[permutationsIdx := [start] + permutationsLst[permutationsIdx]];
    }
    assert permutationsLst == Prepend(start, orig);
    return Ok(permutationsLst);
  }
}
