/** What the module-level loop of src/gen_data.py
    (lines 210-261) does for one game, as a function of the game's block
    lines, its traits and the random draws. The four sections' orderings are
    shuffled and capped, enumerated (the sprite one through the hierarchy
    expansion), combined into every choice of one ordering per section and
    assembled into game texts; the prompts are paired with those texts and
    the first three pairs become the game's training files. */
module Corpus {
  import opened Seqs
  import opened Slicing
  import opened Combinatorics
  import opened RowPermuter
  import opened Enumeration
  import opened Hierarchy
  import opened Assembly
  import opened Prompts
  import opened Products

  /** How many orderings of each section survive the `[:n]` slices. */
  const SpriteSetCap: nat := 5
  const LevelMappingCap: nat := 10
  const InteractionSetCap: nat := 10
  const TerminationSetCap: nat := 2
  /** `prompt_vgdl_combo_pairs[:3]`. */
  const FilesPerGame: nat := 3
  /** TRAINING_TXTS_DIR without its `{}`. */
  const TrainingTxtsDir: string := "data/training_txts/"

  /** The draws of one concat_vgdl_components call: the coin and the
      shuffle. */
  datatype AssemblyDraw = AssemblyDraw(reorder: bool, picks: seq<nat>)

  /** Every random choice made for one game: the shuffle of each section's
      orderings, one assembly draw per combination (by its position), and
      the shuffle of the prompt lines. */
  datatype Randomness = Randomness(
    spritePicks: seq<nat>,
    levelPicks: seq<nat>,
    interactionPicks: seq<nat>,
    terminationPicks: seq<nat>,
    assembly: nat -> AssemblyDraw,
    promptPicks: seq<nat>)

  /** `[preappend_spriteset(s) for s in orderings]`: the first IndexError
      aborts the whole list. */
  function ExpandAll(orderings: seq<seq<Line>>): (r: Result<seq<seq<Line>>>)
    ensures r.Ok? ==> |r.value| == |orderings|
    ensures r.Err? ==> r.error == IndexError
  {
    MapResultFails(ExpandSpriteSet, orderings);
    MapResult(ExpandSpriteSet, orderings)
  }

  /** `[preappend_enum(l) for l in orderings]`. */
  function EnumerateAll(orderings: seq<seq<Line>>): (r: seq<seq<Line>>)
    ensures |r| == |orderings|
  {
    seq(|orderings|, k requires 0 <= k < |orderings| => Enumerate(orderings[k]))
  }

  /** The section orderings, shuffled and capped, before enumeration. */
  datatype Pools = Pools(sprite: seq<seq<Line>>, level: seq<seq<Line>>,
                         interaction: seq<seq<Line>>, termination: seq<seq<Line>>)

  function RawPools(block: seq<Line>, rnd: Randomness): Result<Pools>
  {
    var sp :- SectionPermutations(block, SpriteSetMarker, LevelMappingMarker);
    var lv :- SectionPermutations(block, LevelMappingMarker, InteractionSetMarker);
    var it :- SectionPermutations(block, InteractionSetMarker, TerminationSetMarker);
    var tm :- SectionPermutations(block, TerminationSetMarker, NoMarker);
    Ok(Pools(Take(Shuffled(sp, rnd.spritePicks), SpriteSetCap),
             Take(Shuffled(lv, rnd.levelPicks), LevelMappingCap),
             Take(Shuffled(it, rnd.interactionPicks), InteractionSetCap),
             Take(Shuffled(tm, rnd.terminationPicks), TerminationSetCap)))
  }

  /** The four lists `vgld_combinations_list` is made of. */
  function GamePools(block: seq<Line>, rnd: Randomness): Result<Pools>
  {
    var raw :- RawPools(block, rnd);
    var sprites :- ExpandAll(raw.sprite);
    Ok(Pools(sprites, EnumerateAll(raw.level), EnumerateAll(raw.interaction),
             EnumerateAll(raw.termination)))
  }

  function PoolList(pools: Pools): seq<seq<seq<Line>>>
  {
    [pools.sprite, pools.level, pools.interaction, pools.termination]
  }

  /** `vgdl_combinations`: one game text per choice of one ordering of each
      section, assembled with the draw for its position. */
  function Blocks(pools: Pools, rnd: Randomness): (r: seq<string>)
    ensures |r| == |Product(PoolList(pools))|
  {
    var tuples := Product(PoolList(pools));
    seq(|tuples|, k requires 0 <= k < |tuples| =>
      ConcatComponents(tuples[k], rnd.assembly(k).reorder, rnd.assembly(k).picks))
  }

  /** `all_combos_game_prompts_lst` after its shuffle. */
  function GamePrompts(traits: seq<string>, rnd: Randomness): seq<string>
  {
    Shuffled(PromptLines(traits), rnd.promptPicks)
  }

  /** `prompt_vgdl_combo_pairs[:3]` for given section lists. */
  function PairsOf(pools: Pools, traits: seq<string>, rnd: Randomness): seq<seq<string>>
  {
    Take(Product([GamePrompts(traits, rnd), Blocks(pools, rnd)]), FilesPerGame)
  }

  /** The pairs that are written, or the exception that stops the game. */
  function GamePairs(block: seq<Line>, traits: seq<string>, rnd: Randomness): Result<seq<seq<string>>>
  {
    var pools :- GamePools(block, rnd);
    Ok(PairsOf(pools, traits, rnd))
  }

  /** The path of the n-th training file of a game. */
  function TrainingFileName(gameName: string, n: nat): string
  {
    TrainingTxtsDir + gameName + "_" + Decimal(n) + ".txt"
  }

  /** Each written pair as (path, contents): `f.writelines(pair)`. */
  function TrainingFiles(gameName: string, pairs: seq<seq<string>>): (r: seq<(string, string)>)
    ensures |r| == |pairs|
  {
    seq(|pairs|, k requires 0 <= k < |pairs| => (TrainingFileName(gameName, k + 1), Join(pairs[k])))
  }

  /** The files one game produces, or the exception that stops it. */
  function GameFiles(gameName: string, block: seq<Line>, traits: seq<string>, rnd: Randomness)
    : Result<seq<(string, string)>>
  {
    var pairs :- GamePairs(block, traits, rnd);
    Ok(TrainingFiles(gameName, pairs))
  }

  // ---------------------------------------------------------------------
  // When a game fails.

  /** All four section markers are lines of the block. */
  predicate MarkersPresent(block: seq<Line>)
  {
    && SpriteSetMarker in block && LevelMappingMarker in block
    && InteractionSetMarker in block && TerminationSetMarker in block
  }

  lemma RawPoolsFails(block: seq<Line>, rnd: Randomness)
    ensures RawPools(block, rnd).Ok? <==> MarkersPresent(block)
    ensures RawPools(block, rnd).Err? ==> RawPools(block, rnd).error == ValueError
  {
  }

  lemma NoChildTokenWithoutC(s: string)
    requires 'c' !in s
    ensures !Contains(s, ChildToken)
  {
    forall p: nat | p <= |s| ensures !OccursAt(s, ChildToken, p) {
      if p + 7 <= |s| {
        assert s[p..p + 7][0] == s[p];
      }
    }
  }

  lemma FactorialPositive(n: nat)
    ensures Factorial(n) >= 1
  {
    if n > 0 {
      FactorialPositive(n - 1);
    }
  }

  /** Some row of the SpriteSet section has "csprite" but nothing the child
      pattern matches. */
  predicate SpriteRowMalformed(block: seq<Line>)
    requires SectionRows(block, SpriteSetMarker, LevelMappingMarker).Ok?
  {
    exists row :: row in SectionRows(block, SpriteSetMarker, LevelMappingMarker).value && Malformed(row)
  }

  lemma ExpandAllFails(orderings: seq<seq<Line>>)
    ensures ExpandAll(orderings).Err? <==>
              exists k :: 0 <= k < |orderings| && ExpandSpriteSet(orderings[k]).Err?
  {
    MapResultFails(ExpandSpriteSet, orderings);
  }

  /** A SpriteSet ordering fails exactly when the section has a malformed
      row: its marker line cannot be one, and its other rows are the
      section's rows. */
  lemma OrderingFails(block: seq<Line>, p: seq<Line>)
    requires SectionRows(block, SpriteSetMarker, LevelMappingMarker).Ok?
    requires p in SectionPermutations(block, SpriteSetMarker, LevelMappingMarker).value
    ensures ExpandSpriteSet(p).Err? <==> SpriteRowMalformed(block)
  {
    var rows := SectionRows(block, SpriteSetMarker, LevelMappingMarker).value;
    SectionPermutationsShape(block, SpriteSetMarker, LevelMappingMarker, p);
    ExpandSpriteSetFails(p);
    NoChildTokenWithoutC(SpriteSetMarker);
    MalformedInTail(p, rows);
  }

  /** A list whose head is well formed and whose tail holds the rows in some
      order has a malformed entry exactly when the rows do. */
  lemma MalformedInTail(p: seq<Line>, rows: seq<Line>)
    requires |p| >= 1 && !Malformed(p[0]) && multiset(p[1..]) == multiset(rows)
    ensures (exists i :: 0 <= i < |p| && Malformed(p[i])) <==> (exists row :: row in rows && Malformed(row))
  {
    if i :| 0 <= i < |p| && Malformed(p[i]) {
      assert p[i] == p[1..][i - 1];
      assert p[i] in multiset(p[1..]);
    }
    if row :| row in rows && Malformed(row) {
      assert row in multiset(p[1..]);
      var j :| 0 <= j < |p[1..]| && p[1..][j] == row;
      assert Malformed(p[j + 1]);
    }
  }

  /** The members of a shuffled, capped list are members of the list. */
  lemma TakeShuffledIn<T>(xs: seq<T>, picks: seq<nat>, n: nat, k: nat)
    requires k < |Take(Shuffled(xs, picks), n)|
    ensures Take(Shuffled(xs, picks), n)[k] in xs
  {
    var sh := Shuffled(xs, picks);
    assert sh[k] in multiset(sh);
  }

  /** With the markers present, the sprite orderings fail to expand exactly
      when a SpriteSet row is malformed, whichever orderings were drawn. */
  lemma SpritePoolFails(block: seq<Line>, rnd: Randomness)
    requires RawPools(block, rnd).Ok?
    ensures SectionRows(block, SpriteSetMarker, LevelMappingMarker).Ok?
    ensures ExpandAll(RawPools(block, rnd).value.sprite).Err? <==> SpriteRowMalformed(block)
  {
    var sp := SectionPermutations(block, SpriteSetMarker, LevelMappingMarker).value;
    var pool := Take(Shuffled(sp, rnd.spritePicks), SpriteSetCap);
    assert RawPools(block, rnd).value.sprite == pool;
    var rows := SectionRows(block, SpriteSetMarker, LevelMappingMarker).value;
    ExpandAllFails(pool);
    SectionPermutationsShape(block, SpriteSetMarker, LevelMappingMarker, []);
    FactorialPositive(|rows|);
    assert |pool| >= 1;
    if ExpandAll(pool).Err? {
      var k :| 0 <= k < |pool| && ExpandSpriteSet(pool[k]).Err?;
      TakeShuffledIn(sp, rnd.spritePicks, SpriteSetCap, k);
      OrderingFails(block, pool[k]);
    }
    if SpriteRowMalformed(block) {
      TakeShuffledIn(sp, rnd.spritePicks, SpriteSetCap, 0);
      OrderingFails(block, pool[0]);
    }
  }

  /** What GamePools is once the sections are found. */
  lemma GamePoolsUnfold(block: seq<Line>, rnd: Randomness)
    ensures GamePools(block, rnd).Ok? <==>
              RawPools(block, rnd).Ok? && ExpandAll(RawPools(block, rnd).value.sprite).Ok?
    ensures GamePools(block, rnd).Err? && RawPools(block, rnd).Ok? ==>
              GamePools(block, rnd).error == IndexError
  {
  }

  /** A game stops with ValueError exactly when a section marker is missing,
      and otherwise with IndexError exactly when a SpriteSet row is
      malformed; the traits and the draws play no part in it. */
  lemma GamePairsFails(block: seq<Line>, traits: seq<string>, rnd: Randomness)
    ensures GamePairs(block, traits, rnd).Err? && GamePairs(block, traits, rnd).error == ValueError
            <==> !MarkersPresent(block)
    ensures GamePairs(block, traits, rnd).Err? && GamePairs(block, traits, rnd).error == IndexError
            <==> MarkersPresent(block) && SpriteRowMalformed(block)
  {
    RawPoolsFails(block, rnd);
    GamePoolsUnfold(block, rnd);
    if MarkersPresent(block) {
      SpritePoolFails(block, rnd);
    }
  }

  // ---------------------------------------------------------------------
  // What a game produces.

  /** Each section keeps min(cap, n!) orderings of its n rows. */
  lemma PoolSizes(block: seq<Line>, rnd: Randomness)
    requires GamePools(block, rnd).Ok?
    ensures var pools := GamePools(block, rnd).value;
            && |pools.sprite| == Min(SpriteSetCap,
                 Factorial(|SectionRows(block, SpriteSetMarker, LevelMappingMarker).value|))
            && |pools.level| == Min(LevelMappingCap,
                 Factorial(|SectionRows(block, LevelMappingMarker, InteractionSetMarker).value|))
            && |pools.interaction| == Min(InteractionSetCap,
                 Factorial(|SectionRows(block, InteractionSetMarker, TerminationSetMarker).value|))
            && |pools.termination| == Min(TerminationSetCap,
                 Factorial(|SectionRows(block, TerminationSetMarker, NoMarker).value|))
  {
    var raw := RawPools(block, rnd).value;
    var pools := GamePools(block, rnd).value;
    assert |pools.sprite| == |raw.sprite|;
    assert |pools.level| == |raw.level|;
    assert |pools.interaction| == |raw.interaction|;
    assert |pools.termination| == |raw.termination|;
    CappedPoolSize(block, SpriteSetMarker, LevelMappingMarker, rnd.spritePicks, SpriteSetCap);
    CappedPoolSize(block, LevelMappingMarker, InteractionSetMarker, rnd.levelPicks, LevelMappingCap);
    CappedPoolSize(block, InteractionSetMarker, TerminationSetMarker, rnd.interactionPicks, InteractionSetCap);
    CappedPoolSize(block, TerminationSetMarker, NoMarker, rnd.terminationPicks, TerminationSetCap);
  }

  /** `random.shuffle` then `[:cap]` keeps min(cap, n!) of the n! orderings. */
  lemma CappedPoolSize(block: seq<Line>, start: Line, end: Line, picks: seq<nat>, cap: nat)
    requires SectionRows(block, start, end).Ok?
    ensures |Take(Shuffled(SectionPermutations(block, start, end).value, picks), cap)|
            == Min(cap, Factorial(|SectionRows(block, start, end).value|))
  {
    SectionPermutationsShape(block, start, end, []);
  }

  /** One game text per combination of the four sections' orderings. */
  lemma BlocksCount(pools: Pools, rnd: Randomness)
    ensures |Blocks(pools, rnd)|
            == |pools.sprite| * |pools.level| * |pools.interaction| * |pools.termination|
  {
    ProductCount(PoolList(pools));
    var s, l, i, t := pools.sprite, pools.level, pools.interaction, pools.termination;
    assert PoolList(pools) == [s] + ([l] + ([i] + ([t] + [])));
    LengthProductCons(t, []);
    LengthProductCons(i, [t]);
    assert [i] + [t] == [i, t];
    LengthProductCons(l, [i, t]);
    assert [l] + [i, t] == [l, i, t];
    LengthProductCons(s, [l, i, t]);
    assert [s] + [l, i, t] == PoolList(pools);
    MulAssoc(|s|, |l|, |i| * |t|);
    MulAssoc(|s| * |l|, |i|, |t|);
  }

  /** At most three pairs are written: min(3, prompts · game texts). */
  lemma PairsCount(pools: Pools, traits: seq<string>, rnd: Randomness)
    ensures |PairsOf(pools, traits, rnd)|
            == Min(FilesPerGame, SumFalling(|traits|, |traits|) * |Blocks(pools, rnd)|)
  {
    PromptCount(traits);
    var prompts := GamePrompts(traits, rnd);
    var blocks := Blocks(pools, rnd);
    if |blocks| > 0 && |prompts| > 0 {
      PairAt(prompts, blocks, 0);
    } else {
      assert [prompts, blocks][1..] == [blocks];
      assert [blocks][1..] == [];
      ProductWithCount(blocks, [[]]);
      ProductWithCount(prompts, Product([blocks]));
    }
  }

  /** Every prompt line is the rendering of a listed selection. */
  lemma PromptIsRendered(traits: seq<string>, rnd: Randomness, line: string)
    requires line in GamePrompts(traits, rnd)
    ensures exists p :: p in PromptArrangements(traits) && line == RenderPrompt(p)
  {
    var lines := PromptLines(traits);
    assert line in multiset(GamePrompts(traits, rnd));
    assert line in multiset(lines);
    var j :| 0 <= j < |lines| && lines[j] == line;
    assert PromptArrangements(traits)[j] in PromptArrangements(traits);
  }

  /** Every game text starts with the header. */
  lemma BlockHasHeader(pools: Pools, rnd: Randomness, text: string)
    requires text in Blocks(pools, rnd)
    ensures |text| >= |Header| && text[..|Header|] == Header
  {
    var tuples := Product(PoolList(pools));
    var b :| 0 <= b < |Blocks(pools, rnd)| && Blocks(pools, rnd)[b] == text;
    var d := rnd.assembly(b);
    assert text == ConcatComponents(tuples[b], d.reorder, d.picks);
    ConcatStartsWithHeader(tuples[b], d.reorder, d.picks);
  }

  /** Every written pair is a prompt for between 1 and all of the game's
      traits, followed by a game text that starts with the header. */
  lemma PairShape(pools: Pools, traits: seq<string>, rnd: Randomness, k: nat)
    requires k < |PairsOf(pools, traits, rnd)|
    ensures var pair := PairsOf(pools, traits, rnd)[k];
            && |pair| == 2
            && (exists p :: p in PromptArrangements(traits) && pair[0] == RenderPrompt(p))
            && |pair[1]| >= |Header| && pair[1][..|Header|] == Header
  {
    var prompts := GamePrompts(traits, rnd);
    var blocks := Blocks(pools, rnd);
    var all := Product([prompts, blocks]);
    var pair := PairsOf(pools, traits, rnd)[k];
    assert pair == all[k];
    ProductMember([prompts, blocks], pair);
    assert pair[0] in [prompts, blocks][0];
    assert pair[1] in [prompts, blocks][1];
    PromptIsRendered(traits, rnd, pair[0]);
    BlockHasHeader(pools, rnd, pair[1]);
  }

  /** A game without traits writes nothing. */
  lemma NoTraitsNoPairs(pools: Pools, rnd: Randomness)
    ensures PairsOf(pools, [], rnd) == []
  {
    PairsCount(pools, [], rnd);
  }

  /** The files are numbered 1, 2, 3 by their position, so no two of them
      share a path. */
  lemma TrainingFileNamesDistinct(gameName: string, m: nat, n: nat)
    requires m != n
    ensures TrainingFileName(gameName, m) != TrainingFileName(gameName, n)
  {
    var pre := TrainingTxtsDir + gameName + "_";
    var a, b := TrainingFileName(gameName, m), TrainingFileName(gameName, n);
    if a == b {
      assert |Decimal(m)| == |Decimal(n)|;
      assert a[|pre|..|pre| + |Decimal(m)|] == Decimal(m);
      assert b[|pre|..|pre| + |Decimal(n)|] == Decimal(n);
      DecimalRoundTrip(m);
      DecimalRoundTrip(n);
    }
  }

  // ---------------------------------------------------------------------
  // The imperative original.

  /** The writing loop: one file per pair of `pairs[:3]`, numbered from 1
      by `vgdl_block_num`. */
  method WriteTrainingFiles(gameName: string, promptVgdlComboPairs: seq<seq<string>>)
      returns (files: seq<(string, string)>)
    ensures files == TrainingFiles(gameName, Take(promptVgdlComboPairs, FilesPerGame))
  {
    var pairs := Take(promptVgdlComboPairs, FilesPerGame);
    files := [];
    var vgdlBlockNum := 1;
    for k := 0 to |pairs|
      invariant vgdlBlockNum == k + 1
      invariant files == TrainingFiles(gameName, pairs[..k])
    {
      var filePath := TrainingTxtsDir + gameName + "_" + Decimal(vgdlBlockNum) + ".txt";
      files := files + [(filePath, Join(pairs[k]))];
      vgdlBlockNum := vgdlBlockNum + 1;
    }
    assert pairs[..|pairs|] == pairs;
  }
}
