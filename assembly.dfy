/** concat_vgdl_components (src/gen_data.py:191-202). One chosen
    ordering of each of the four components, optionally put in a random
    order, written out under a "BasicGame" header as one string. */
module Assembly {
  import opened Seqs
  import opened Combinatorics

  /** The first line of every generated game. */
  const Header: Line := "BasicGame\n"

  /** The components in the order they are written: reordered by the shuffle
      when the coin `random.uniform(0, 1) > 0.25` comes up, as given. */
  function Ordered(components: seq<seq<Line>>, reorder: bool, picks: seq<nat>): (r: seq<seq<Line>>)
    ensures |r| == |components| && multiset(r) == multiset(components)
  {
    if reorder then Shuffled(components, picks) else components
  }

  /** `vgdl_lst`: the header followed by every line of every component, in
      the written order. */
  function ComponentLines(components: seq<seq<Line>>, reorder: bool, picks: seq<nat>): (r: seq<Line>)
    ensures |r| >= 1 && r[0] == Header
  {
    [Header] + Flatten(Ordered(components, reorder, picks))
  }

  /** `''.join(vgdl_lst)`. */
  function ConcatComponents(components: seq<seq<Line>>, reorder: bool, picks: seq<nat>): string
  {
    Join(ComponentLines(components, reorder, picks))
  }

  lemma FlattenCons<T>(x: seq<T>, xs: seq<seq<T>>)
    ensures Flatten([x] + xs) == x + Flatten(xs)
  {
    FlattenConcat([x], xs);
    assert [x][..0] == [];
  }

  /** The game text starts with the header line, and the rest is the
      components' lines joined in the written order. */
  lemma ConcatStartsWithHeader(components: seq<seq<Line>>, reorder: bool, picks: seq<nat>)
    ensures ConcatComponents(components, reorder, picks)
            == Header + Join(Flatten(Ordered(components, reorder, picks)))
    ensures |ConcatComponents(components, reorder, picks)| >= |Header|
    ensures ConcatComponents(components, reorder, picks)[..|Header|] == Header
  {
    FlattenCons(Header, Flatten(Ordered(components, reorder, picks)));
  }

  /** Reordering loses and duplicates no line: the lines written are the
      header plus exactly the components' lines, whatever the draw. */
  lemma ComponentLinesMultiset(components: seq<seq<Line>>, reorder: bool, picks: seq<nat>)
    ensures multiset(ComponentLines(components, reorder, picks))
            == multiset{Header} + multiset(Flatten(components))
    ensures |ComponentLines(components, reorder, picks)| == 1 + TotalLength(components)
  {
    if reorder {
      ShuffledFlattenMultiset(components, picks);
    }
    var ordered := Flatten(Ordered(components, reorder, picks));
    assert |multiset(ordered)| == |multiset(Flatten(components))|;
    FlattenLength(components);
  }

  /** Each component stays in one piece and keeps its own line order: line t
      of the i-th written component sits right after the header and the
      components written before it. */
  lemma ComponentContiguous(components: seq<seq<Line>>, reorder: bool, picks: seq<nat>, i: nat, t: nat)
    requires var ordered := Ordered(components, reorder, picks);
             i < |ordered| && t < |ordered[i]|
    ensures var ordered := Ordered(components, reorder, picks);
            var at := 1 + |Flatten(ordered[..i])| + t;
            at < |ComponentLines(components, reorder, picks)|
            && ComponentLines(components, reorder, picks)[at] == ordered[i][t]
  {
    FlattenAt(Ordered(components, reorder, picks), i, t);
  }

  /** concat_vgdl_components: shuffle the list it is given in place (when the
      coin says so), then append the header and every line by nested loops
      and join. */
  method ConcatVgdlComponents(vgdlComponentsLst: array<seq<Line>>, reorder: bool, picks: seq<nat>)
      returns (s: string)
    modifies vgdlComponentsLst
    ensures vgdlComponentsLst[..] == Ordered(old(vgdlComponentsLst[..]), reorder, picks)
    ensures s == ConcatComponents(old(vgdlComponentsLst[..]), reorder, picks)
  {
    if reorder {
      var shuffled := Shuffled(vgdlComponentsLst[..], picks);
      forall k | 0 <= k < vgdlComponentsLst.Length {
        vgdlComponentsLst[k] := shuffled[k];
      }
    }
    ghost var ordered := vgdlComponentsLst[..];
    assert ordered == Ordered(old(vgdlComponentsLst[..]), reorder, picks);
    var vgdlLst: seq<Line> := [Header];
    for c := 0 to vgdlComponentsLst.Length
      invariant vgdlLst == [Header] + Flatten(ordered[..c])
    {
      var componentLst := vgdlComponentsLst[c];
      for l := 0 to |componentLst|
        invariant vgdlLst == [Header] + Flatten(ordered[..c]) + componentLst[..l]
      {
        assert componentLst[..l + 1] == componentLst[..l] + [componentLst[l]];
        vgdlLst := vgdlLst + [componentLst[l]];
      }
      assert ordered[..c + 1][..c] == ordered[..c];
      assert componentLst[..|componentLst|] == componentLst;
    }
    assert ordered[..vgdlComponentsLst.Length] == ordered;
    s := Join(vgdlLst);
  }
}
