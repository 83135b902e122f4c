/** The prompt list built for one game (src/gen_data.py:
    246-250). Every ordered selection of 1 to k of the game's k traits,
    shorter selections first, each rendered as the traits joined by spaces
    followed by " vgdlgame.\n". */
module Prompts {
  import opened Seqs
  import opened Combinatorics

  /** The fixed tail of every prompt line. */
  const PromptSuffix: string := " vgdlgame.\n"

  /** The list after the `extend` loop has run for r = 0 .. n - 1: the
      arrangements of 1 trait, then of 2, ..., then of n traits. */
  function ArrangementsUpTo(traits: seq<string>, n: nat): seq<seq<string>>
  {
    if n == 0 then [] else ArrangementsUpTo(traits, n - 1) + Arrangements(traits, n)
  }

  /** `all_combos_game_prompts_lst` before rendering. */
  function PromptArrangements(traits: seq<string>): seq<seq<string>>
  {
    ArrangementsUpTo(traits, |traits|)
  }

  /** Σ_{r=1..n} k·(k-1)···(k-r+1). */
  function SumFalling(k: nat, n: nat): nat
  {
    if n == 0 then 0 else SumFalling(k, n - 1) + Falling(k, n)
  }

  lemma {:induction false} ArrangementsUpToCount(traits: seq<string>, n: nat)
    ensures |ArrangementsUpTo(traits, n)| == SumFalling(|traits|, n)
  {
    if n > 0 {
      ArrangementsUpToCount(traits, n - 1);
      ArrangementsCount(traits, n);
    }
  }

  /** k traits give Σ_{r=1..k} k!/(k-r)! selections. */
  lemma PromptCount(traits: seq<string>)
    ensures |PromptArrangements(traits)| == SumFalling(|traits|, |traits|)
  {
    ArrangementsUpToCount(traits, |traits|);
  }

  lemma {:induction false} ArrangementsUpToSound(traits: seq<string>, n: nat, p: seq<string>)
    requires p in ArrangementsUpTo(traits, n)
    ensures 1 <= |p| <= n && multiset(p) <= multiset(traits)
  {
    if p in Arrangements(traits, n) {
      ArrangementsSound(traits, n, p);
    } else {
      ArrangementsUpToSound(traits, n - 1, p);
    }
  }

  lemma {:induction false} ArrangementsUpToComplete(traits: seq<string>, n: nat, p: seq<string>)
    requires 1 <= |p| <= n && multiset(p) <= multiset(traits)
    ensures p in ArrangementsUpTo(traits, n)
  {
    if |p| == n {
      ArrangementsComplete(traits, n, p);
    } else {
      ArrangementsUpToComplete(traits, n - 1, p);
    }
  }

  /** A selection is listed exactly when it takes between 1 and k traits from
      distinct positions; in particular no prompt is empty. */
  lemma PromptArrangementsExactly(traits: seq<string>, p: seq<string>)
    ensures p in PromptArrangements(traits) <==>
              1 <= |p| <= |traits| && multiset(p) <= multiset(traits)
  {
    if p in PromptArrangements(traits) {
      ArrangementsUpToSound(traits, |traits|, p);
    }
    if 1 <= |p| <= |traits| && multiset(p) <= multiset(traits) {
      ArrangementsUpToComplete(traits, |traits|, p);
    }
  }

  lemma ArrangementsLength(traits: seq<string>, n: nat, p: seq<string>)
    requires p in Arrangements(traits, n)
    ensures |p| == n
  {
    ArrangementsSound(traits, n, p);
  }

  lemma UpToLength(traits: seq<string>, n: nat, p: seq<string>)
    requires p in ArrangementsUpTo(traits, n)
    ensures |p| <= n
  {
    ArrangementsUpToSound(traits, n, p);
  }

  /** The length-r selections come before the length-(r+1) ones. */
  lemma {:induction false} ShorterFirst(traits: seq<string>, n: nat, a: nat, b: nat)
    requires a < b < |ArrangementsUpTo(traits, n)|
    ensures |ArrangementsUpTo(traits, n)[a]| <= |ArrangementsUpTo(traits, n)[b]|
  {
    assert n > 0;
    var xs := ArrangementsUpTo(traits, n);
    var front := ArrangementsUpTo(traits, n - 1);
    var last := Arrangements(traits, n);
    assert xs == front + last;
    if b < |front| {
      ShorterFirst(traits, n - 1, a, b);
    } else {
      assert xs[b] == last[b - |front|];
      ArrangementsLength(traits, n, xs[b]);
      if a < |front| {
        assert xs[a] == front[a];
        UpToLength(traits, n - 1, xs[a]);
      } else {
        assert xs[a] == last[a - |front|];
        ArrangementsLength(traits, n, xs[a]);
      }
    }
  }

  /** With pairwise different traits, no selection is listed twice. */
  lemma {:induction false} ArrangementsUpToDistinct(traits: seq<string>, n: nat)
    requires Distinct(traits)
    ensures Distinct(ArrangementsUpTo(traits, n))
  {
    if n > 0 {
      var front := ArrangementsUpTo(traits, n - 1);
      var last := Arrangements(traits, n);
      ArrangementsUpToDistinct(traits, n - 1);
      ArrangementsDistinct(traits, n);
      forall a, b | 0 <= a < b < |front| + |last| ensures (front + last)[a] != (front + last)[b] {
        if a < |front| && |front| <= b {
          assert front[a] in front;
          ArrangementsUpToSound(traits, n - 1, front[a]);
          assert last[b - |front|] in last;
          ArrangementsSound(traits, n, last[b - |front|]);
        }
      }
    }
  }

  lemma PromptArrangementsDistinct(traits: seq<string>)
    requires Distinct(traits)
    ensures Distinct(PromptArrangements(traits))
  {
    ArrangementsUpToDistinct(traits, |traits|);
  }

  /** The `for r in range(len(game_prompts_lst))` loop with its `extend`. */
  method AllCombosGamePrompts(gamePromptsLst: seq<string>) returns (allCombos: seq<seq<string>>)
    ensures allCombos == PromptArrangements(gamePromptsLst)
  {
    allCombos := [];
    for r := 0 to |gamePromptsLst|
      invariant allCombos == ArrangementsUpTo(gamePromptsLst, r)
    {
      allCombos := allCombos + Arrangements(gamePromptsLst, r + 1);
    }
  }

  // ---------------------------------------------------------------------
  // Rendering: ' '.join(p) + " vgdlgame.\n".

  /** `' '.join(words)`. */
  function SpaceJoin(words: seq<string>): string
  {
    if words == [] then ""
    else if |words| == 1 then words[0]
    else words[0] + " " + SpaceJoin(words[1..])
  }

  /** `s.split(' ')`: the pieces between single spaces, always at least one. */
  function SplitSpaces(s: string): (r: seq<string>)
    ensures |r| >= 1
    decreases |s|
  {
    match IndexOf(s, ' ')
    case None => [s]
    case Some(i) => [s[..i]] + SplitSpaces(s[i + 1..])
  }

  lemma {:induction false} SplitJoin(words: seq<string>)
    requires |words| >= 1
    requires forall k :: 0 <= k < |words| ==> ' ' !in words[k]
    ensures SplitSpaces(SpaceJoin(words)) == words
  {
    if |words| > 1 {
      var w := words[0];
      var rest := SpaceJoin(words[1..]);
      var s := w + " " + rest;
      assert s[|w|] == ' ';
      assert forall j :: 0 <= j < |w| ==> s[j] == w[j];
      assert IndexOf(s, ' ') == Some(|w|);
      assert s[..|w|] == w;
      assert s[|w| + 1..] == rest;
      SplitJoin(words[1..]);
      assert words == [w] + words[1..];
    }
  }

  /** One prompt line. */
  function RenderPrompt(p: seq<string>): (line: string)
    ensures |line| >= |PromptSuffix| && line[|line| - |PromptSuffix|..] == PromptSuffix
  {
    var j := SpaceJoin(p);
    assert (j + PromptSuffix)[|j|..] == PromptSuffix;
    j + PromptSuffix
  }

  /** Reading a prompt line back into its traits. */
  function ParsePrompt(line: string): seq<string>
  {
    if |line| < |PromptSuffix| then [line]
    else SplitSpaces(line[..|line| - |PromptSuffix|])
  }

  /** Round trip: a prompt built from traits without spaces reads back as
      exactly those traits, in order. */
  lemma PromptRoundTrip(p: seq<string>)
    requires |p| >= 1
    requires forall k :: 0 <= k < |p| ==> ' ' !in p[k]
    ensures ParsePrompt(RenderPrompt(p)) == p
  {
    var j := SpaceJoin(p);
    assert RenderPrompt(p)[..|j|] == j;
    SplitJoin(p);
  }

  /** `[' '.join(p) + " vgdlgame.\n" for p in all_combos_game_prompts_lst]`. */
  function PromptLines(traits: seq<string>): (r: seq<string>)
    ensures |r| == |PromptArrangements(traits)|
    ensures forall k :: 0 <= k < |r| ==> r[k] == RenderPrompt(PromptArrangements(traits)[k])
  {
    var ps := PromptArrangements(traits);
    seq(|ps|, k requires 0 <= k < |ps| => RenderPrompt(ps[k]))
  }

  /** With pairwise different traits containing no space, the prompt lines
      are pairwise different as well. */
  lemma PromptLinesDistinct(traits: seq<string>)
    requires Distinct(traits)
    requires forall k :: 0 <= k < |traits| ==> ' ' !in traits[k]
    ensures Distinct(PromptLines(traits))
  {
    var ps := PromptArrangements(traits);
    var ls := PromptLines(traits);
    PromptArrangementsDistinct(traits);
    forall a, b | 0 <= a < b < |ls| ensures ls[a] != ls[b] {
      NoSpaceIn(traits, ps[a]);
      NoSpaceIn(traits, ps[b]);
      PromptRoundTrip(ps[a]);
      PromptRoundTrip(ps[b]);
    }
  }

  /** The no-space condition is needed: when the traits include x, y and
      "x y" (as in "a", "b", "a b"), the selections ["x y"] and [x, y] render
      to the same line, so the prompt list holds a duplicate even though
      the traits are pairwise different. */
  lemma SpacedTraitsRepeat(traits: seq<string>, x: string, y: string)
    requires x != y && x in traits && y in traits && x + " " + y in traits
    ensures !Distinct(PromptLines(traits))
  {
    var one, two := [x + " " + y], [x, y];
    assert multiset(two) <= multiset(traits);
    assert |multiset(two)| <= |multiset(traits)|;
    PromptArrangementsExactly(traits, one);
    PromptArrangementsExactly(traits, two);
    var ps := PromptArrangements(traits);
    var ls := PromptLines(traits);
    var a :| 0 <= a < |ps| && ps[a] == one;
    var b :| 0 <= b < |ps| && ps[b] == two;
    assert two[1..] == [y];
    assert SpaceJoin(two) == x + " " + y;
    assert ls[a] == ls[b] && a != b;
    if a < b {
      assert !Distinct(ls);
    } else {
      assert !Distinct(ls);
    }
  }

  /** A listed selection has at least one trait, none of them with a space. */
  lemma NoSpaceIn(traits: seq<string>, p: seq<string>)
    requires forall k :: 0 <= k < |traits| ==> ' ' !in traits[k]
    requires p in PromptArrangements(traits)
    ensures |p| >= 1 && forall k :: 0 <= k < |p| ==> ' ' !in p[k]
  {
    PromptArrangementsExactly(traits, p);
    forall k | 0 <= k < |p| ensures ' ' !in p[k] {
      assert p[k] in multiset(p);
      assert p[k] in multiset(traits);
    }
  }
}
