/** Locating one named section of a VGDL block between its
    marker line and the next section's marker line (src/gen_data.py, the
    bounds computation shared by get_permutations_lst, get_set_nums and
    get_vgdl_component_lst). */
module Slicing {
  import opened Seqs

  /** The marker lines the generator slices on, as `readlines` yields them. */
  const SpriteSetMarker: Line := "  SpriteSet\n"
  const LevelMappingMarker: Line := "  LevelMapping\n"
  const InteractionSetMarker: Line := "  InteractionSet\n"
  const TerminationSetMarker: Line := "  TerminationSet\n"
  /** An empty end marker means "run to the end of the block". */
  const NoMarker: Line := ""

  /** `start_idx, end_idx`: the first occurrence of `start`, and the first
      occurrence of `end` or the block's length when `end` is empty. Either
      `list.index` raises ValueError when its marker is absent. */
  function SectionBounds(block: seq<Line>, start: Line, end: Line): (r: Result<(nat, nat)>)
    ensures r.Ok? <==> start in block && (|end| > 0 ==> end in block)
    ensures r.Err? ==> r.error == ValueError
    ensures r.Ok? ==> r.value.0 < |block| && block[r.value.0] == start
                      && start !in block[..r.value.0]
    ensures r.Ok? && |end| > 0 ==> r.value.1 < |block| && block[r.value.1] == end
                                   && end !in block[..r.value.1]
    ensures r.Ok? && |end| == 0 ==> r.value.1 == |block|
  {
    var startIdx := IndexOf(block, start);
    var endIdx := if |end| > 0 then IndexOf(block, end) else Some(|block|);
    if startIdx.None? || endIdx.None? then Err(ValueError)
    else Ok((startIdx.value, endIdx.value))
  }

  /** `vgdl_src_block[start_idx+1:end_idx]`: the rows strictly between the two
      markers (empty when the end marker comes first). */
  function SectionRows(block: seq<Line>, start: Line, end: Line): (r: Result<seq<Line>>)
    ensures r.Ok? <==> SectionBounds(block, start, end).Ok?
    ensures r.Err? ==> r.error == ValueError
    ensures r.Ok? ==>
              var (i, j) := SectionBounds(block, start, end).value;
              && |r.value| == (if i < j then j - i - 1 else 0)
              && forall k :: 0 <= k < |r.value| ==> r.value[k] == block[i + 1 + k]
  {
    var (i, j) :- SectionBounds(block, start, end);
    Ok(PySlice(block, i + 1, j))
  }

  /** `vgdl_src_block[start_idx:end_idx]`: the section with its own marker
      line in front. */
  function SectionWithMarker(block: seq<Line>, start: Line, end: Line): (r: Result<seq<Line>>)
    ensures r.Ok? <==> SectionBounds(block, start, end).Ok?
    ensures r.Err? ==> r.error == ValueError
    ensures r.Ok? ==>
              var (i, j) := SectionBounds(block, start, end).value;
              && |r.value| == (if i <= j then j - i else 0)
              && forall k :: 0 <= k < |r.value| ==> r.value[k] == block[i + k]
  {
    var (i, j) :- SectionBounds(block, start, end);
    Ok(PySlice(block, i, j))
  }

  /** get_set_nums: `end_idx - start_idx - 1`. */
  function GetSetNums(block: seq<Line>, start: Line, end: Line): (r: Result<int>)
    ensures r.Ok? <==> SectionBounds(block, start, end).Ok?
    ensures r.Err? ==> r.error == ValueError
  {
    var (i, j) :- SectionBounds(block, start, end);
    Ok(j - i - 1)
  }

  /** The row count agrees with the slice whenever it is not negative; it is
      negative exactly when the end marker does not come after the start
      marker, and then the slice is empty. */
  lemma SetNumsIsSectionLength(block: seq<Line>, start: Line, end: Line)
    ensures GetSetNums(block, start, end).Ok? <==> SectionRows(block, start, end).Ok?
    ensures GetSetNums(block, start, end).Ok? ==>
              var n := GetSetNums(block, start, end).value;
              var rows := SectionRows(block, start, end).value;
              && (n >= 0 ==> n == |rows|)
              && (n < 0 ==> rows == [])
              && (n < 0 <==> SectionBounds(block, start, end).value.1
                             <= SectionBounds(block, start, end).value.0)
  {
  }

  /** The marker-inclusive slice is the marker line followed by the rows of
      the marker-exclusive one, whenever the end marker comes after the
      start marker. */
  lemma WithMarkerIsMarkerThenRows(block: seq<Line>, start: Line, end: Line)
    requires SectionBounds(block, start, end).Ok?
    requires SectionBounds(block, start, end).value.0 < SectionBounds(block, start, end).value.1
    ensures SectionWithMarker(block, start, end).Ok?
    ensures SectionWithMarker(block, start, end).value
            == [start] + SectionRows(block, start, end).value
  {
    var w := SectionWithMarker(block, start, end).value;
    var rows := SectionRows(block, start, end).value;
    assert w == [start] + rows by {
      assert |w| == 1 + |rows|;
      forall k | 0 <= k < |w| ensures w[k] == ([start] + rows)[k] {
      }
    }
  }
}
