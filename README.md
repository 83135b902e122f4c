# VGDL permutation corpus generator, modelled in Dafny

`src/gen_data.py` turns each game's VGDL description into training text
for a language model. A VGDL block has four sections, each opened by a
marker line: `  SpriteSet`, `  LevelMapping`, `  InteractionSet` and
`  TerminationSet`. For each game the generator:

- takes the rows of each section and lists every reordering of them, with
  the section's marker line kept in front (`get_permutations_lst`);
- shuffles each list and keeps the first 5, 10, 10 and 2 orderings;
- numbers every row after the marker with `1)`, `2)`, ... (`preappend_enum`).
  SpriteSet orderings first have their compound rows split back into a
  parent line and indented child lines (`preappend_spriteset`), found by
  the pattern `c+sprite\d`; the number of `c`s sets the depth;
- forms every combination of one ordering per section and assembles each
  combination into one game text under a `BasicGame` header, with the
  sections shuffled with probability 3/4 (`concat_vgdl_components`);
- builds every ordered selection of 1 to k of the game's k trait phrases
  and renders each as `trait trait ... vgdlgame.\n`;
- pairs every prompt with every game text and writes the first three pairs
  to `data/training_txts/<game>_<n>.txt`.

Modules, by the parts of the file they model:

- `Seqs`: the Python built-ins the functions use (the two exceptions as a `Result`, `list.index`, slicing, `in`, `str.count`, `str(n)`, `''.join`);
- `Slicing`: the marker bounds shared by `get_permutations_lst`, `get_set_nums` and `get_vgdl_component_lst`, and `get_set_nums` itself;
- `Combinatorics`: `itertools.permutations` and `random.shuffle`;
- `RowPermuter`: `get_permutations_lst`;
- `Enumeration`: `preappend_enum` and `get_vgdl_component_lst`;
- `Hierarchy`: `preappend_spriteset`, with its `re.finditer` scan;
- `Assembly`: `concat_vgdl_components`;
- `Prompts`: the prompt lines built in the main loop (lines 246-251);
- `Products`: `itertools.product`;
- `Corpus`: the main loop for one game (lines 210-261).

Functions and lemmas model the pure parts. The loops of
`get_permutations_lst`, `preappend_enum`, `preappend_spriteset`,
`get_vgdl_component_lst` and `concat_vgdl_components`, the prompt `extend`
loop and the file-writing loop are methods, each proved equal to the
function that specifies it. `preappend_enum` and `concat_vgdl_components`
change their argument in place, so they take an `array`. The
`re.finditer` loop (lines 125-128) is the function `Hierarchy.Scan`, and
the loop over the games (line 210) is the function `Corpus.GameFiles` of
one game.

Where the module docstring and the comments of `src/gen_data.py` differ
from its code, the model follows the code:

- The docstring's prompt algorithm ends with "f) empty prompt" (line 35). The code lists no empty prompt: its selections run from 1 to k traits (`range(len(...))` with `r+1`, lines 247-248).
- The docstring adds an "avatar" and a "wall" row to the SpriteSet and an "A" and a "w" row to the LevelMapping (lines 8-9, 14-15). The code adds none of them.
- The docstring reorders the sprites within each InteractionSet line (line 19). The code permutes only whole lines.
- The docstring of `get_set_nums` promises "the number of rows" (line 165). The code computes `end_idx - start_idx - 1`, which is negative when the end marker comes first.
- The comment at line 130 says the first segment of a split row is the parent, which "doesn't start with a c". The code indents that segment like a child when it starts with `c` and contains `csprite` (line 139). Its depth is then the number of `c`s up to the end of the first match.
- A row containing `csprite` with no `c+sprite<digit>` match raises IndexError (`positions[0]`), and that aborts the whole game.

## Model

| member | source | states |
|---|---|---|
| Seqs.MapResult | src/gen_data.py:235 | a list comprehension whose call may raise: on success, one result per element |
| Seqs.MapResultFails | src/gen_data.py:235 | the comprehension fails iff some element's call fails; the error is that of the first failing element; on success, entry k is the call's value on element k |
| Seqs.IndexOf | src/gen_data.py:89 | `list.index`: None iff absent; otherwise a position holding x with no earlier occurrence |
| Seqs.PySlice | src/gen_data.py:92 | `s[lo:hi]`: length hi-lo (0 when lo > hi) and element k is s[lo+k] |
| Seqs.Take | src/gen_data.py:235-239 | `xs[:n]`: a prefix of xs of length min(n, len) |
| Seqs.Contains | src/gen_data.py:120 | `sub in s` on strings: sub occurs at some position of s (also the test at line 139) |
| Seqs.Count | src/gen_data.py:137 | `str.count(ch)`: at most the length, and 0 iff ch does not occur |
| Seqs.Spaces | src/gen_data.py:140 | `" " * n`: n spaces |
| Seqs.Decimal | src/gen_data.py:109 | `str(n)`: nonempty, all ASCII digits |
| Seqs.DecimalRoundTrip | src/gen_data.py:258 | the model's inverse of the `str(n)` in the file number (the source never parses): reading the digits back gives n, and str(n) has a leading 0 only for n = 0 |
| Seqs.Flatten | src/gen_data.py:198-200 | the nested append loops: every line of every list, in order |
| Seqs.Join | src/gen_data.py:202 | `''.join(lines)`: the lines concatenated in order |
| Seqs.FlattenAt | src/gen_data.py:198-200 | element t of inner list i lands right after the lists before it |
| Seqs.FlattenMultiset | src/gen_data.py:198-200 | taking list i out before flattening removes exactly list i's elements |
| Slicing.SectionBounds | src/gen_data.py:88-91 | Ok iff the start marker is present and (the end marker is empty or present); ValueError otherwise; the indices are the first occurrences, or the block's length for an empty end |
| Slicing.SectionRows | src/gen_data.py:92 | fails exactly as SectionBounds; the rows strictly between the two markers, empty when the end comes first |
| Slicing.SectionWithMarker | src/gen_data.py:179 | fails exactly as SectionBounds; the slice from the start marker up to the end marker |
| Slicing.GetSetNums | src/gen_data.py:163-171 | fails exactly as SectionBounds with ValueError |
| Slicing.SetNumsIsSectionLength | src/gen_data.py:163-171 | the count is the number of section rows when it is not negative; it is negative iff the end marker does not come after the start marker, and then the section is empty |
| Slicing.WithMarkerIsMarkerThenRows | src/gen_data.py:179 | with start before end, the marker-inclusive slice is the marker followed by the section rows |
| Combinatorics.FallingIsFactorialQuotient | src/gen_data.py:248 | n(n-1)...(n-r+1) · (n-r)! = n! |
| Combinatorics.FallingAll | src/gen_data.py:93 | the full-length falling factorial is n! |
| Combinatorics.Prepend | src/gen_data.py:96 | `insert(0, x)` on every list: same count, entry k is [x] + qs[k] |
| Combinatorics.Arrangements | src/gen_data.py:248 | `list(permutations(s, r))`: each element from a not yet used position, the first position varying slowest; counted, characterised and shown duplicate-free by the lemmas below |
| Combinatorics.Permutations | src/gen_data.py:93 | `permutations(s)`: the arrangements of full length |
| Combinatorics.ArrangementsCount | src/gen_data.py:248 | `permutations(s, r)` yields n!/(n-r)! tuples (0 for r > n) |
| Combinatorics.ArrangementsFromCount | src/gen_data.py:248 | the tuples whose first element comes from position i on number (n-i)·(n-1)!/(n-r)! |
| Combinatorics.PermutationsCount | src/gen_data.py:93 | `permutations(s)` yields n! lists |
| Combinatorics.ArrangementsSound | src/gen_data.py:248 | every tuple has length r and takes elements from distinct positions (a sub-multiset; all of s when r = n) |
| Combinatorics.ArrangementsFromSound | src/gen_data.py:248 | the same, with the first element taken from s[i..] |
| Combinatorics.HeadSplit | src/gen_data.py:248 | removing the first occurrence of p's head from s leaves room for p's tail |
| Combinatorics.ArrangementsComplete | src/gen_data.py:248 | every selection of r elements from distinct positions is listed |
| Combinatorics.CompleteStep | src/gen_data.py:248 | taking p's head from position j, then an arrangement of the rest, gives a listed arrangement |
| Combinatorics.ArrangementsFromContains | src/gen_data.py:248 | the tuples headed by s[j], for j >= i, are among those from position i |
| Combinatorics.ArrangementsDistinct | src/gen_data.py:248 | with pairwise different elements, no tuple is listed twice |
| Combinatorics.ArrangementsFromDistinct | src/gen_data.py:248 | the same for the tuples from position i |
| Combinatorics.Shuffled | src/gen_data.py:224 | `random.shuffle` with supplied draws: a permutation of the list (same length, same multiset) |
| Combinatorics.ShuffledReachesEveryOrder | src/gen_data.py:224 | every reordering is produced by some draws |
| Combinatorics.ShuffledFlattenMultiset | src/gen_data.py:195 | shuffling a list of lists keeps the multiset of all their elements |
| RowPermuter.SectionPermutations | src/gen_data.py:87-97 | Ok iff the markers are found; ValueError otherwise |
| RowPermuter.SectionPermutationsShape | src/gen_data.py:87-97 | n rows give n! lists, each the start marker followed by a reordering of the rows |
| RowPermuter.SectionPermutationsComplete | src/gen_data.py:87-97 | every reordering of the rows, behind the marker, is listed |
| RowPermuter.SectionPermutationsDistinct | src/gen_data.py:87-97 | with pairwise different rows, no ordering is listed twice |
| RowPermuter.GetPermutationsLst | src/gen_data.py:87-97 | the loop inserting the marker into every tuple yields SectionPermutations |
| Enumeration.Marker | src/gen_data.py:109 | `f"{idx})"`: the decimal index followed by ')' |
| Enumeration.Enumerate | src/gen_data.py:104-110 | one line per row |
| Enumeration.EnumerateIndex | src/gen_data.py:104-110 | line 0 is unchanged; line i >= 1 is `f"{i})"` + row i |
| Enumeration.EnumerateAt | src/gen_data.py:104-110 | the same for all positions at once |
| Enumeration.Unenumerate | src/gen_data.py:109 | the model's inverse of the marking at line 109 (the source never unmarks): it keeps the length |
| Enumeration.EnumerateRoundTrip | src/gen_data.py:109 | the marking loses nothing: the model's inverse gives the rows back |
| Enumeration.MarkerNamesPosition | src/gen_data.py:109 | the marker of line i reads back as i, followed by ')' |
| Enumeration.EnumerateNotIdempotent | src/gen_data.py:100-111 | with two or more rows, enumerating twice differs from enumerating once |
| Enumeration.PreappendEnum | src/gen_data.py:100-111 | rewrites the array in place to Enumerate of its old contents and returns the same array |
| Enumeration.EnumerateRows | src/gen_data.py:180-186 | the enumeration loop over a local list yields Enumerate |
| Enumeration.GetVgdlComponentLst | src/gen_data.py:174-188 | ValueError iff a marker is missing; otherwise the marker-inclusive slice, enumerated |
| Hierarchy.CRun | src/gen_data.py:125 | the run of c's at p stays inside the row |
| Hierarchy.CRunMaximal | src/gen_data.py:125 | the run is all c's and is followed by a non-c or the end |
| Hierarchy.MatchAt | src/gen_data.py:125 | `c+sprite\d` matches at p: a maximal run of c's, then "sprite", then a digit |
| Hierarchy.MatchEnd | src/gen_data.py:127 | `m.end()`: the run, plus the 7 characters of "sprite" and the digit |
| Hierarchy.Scan | src/gen_data.py:125-127 | the (start, end) spans lie within the row from p on, nonempty and in increasing order without overlap |
| Hierarchy.ScanMatches | src/gen_data.py:125-127 | each span starts where `c+sprite\d` matches greedily and ends at that match's end |
| Hierarchy.ScanLeftmostHead | src/gen_data.py:125 | no match starts before the first span (none in the whole row when there is none) |
| Hierarchy.ScanGap | src/gen_data.py:125 | no match starts between the end of one span and the start of the next (or the row's end): finditer skips no match |
| Hierarchy.MatchContainsChildToken | src/gen_data.py:137-139 | a match contains "csprite" (ending its run of c's), and it has exactly as many c's as its run |
| Hierarchy.MatchHasToken | src/gen_data.py:139 | "csprite" occurs inside a match where its run of c's ends |
| Hierarchy.MatchCount | src/gen_data.py:137 | the `count("c")` of a match is the length of its run of c's |
| Hierarchy.RunCount | src/gen_data.py:137 | a run of c's counts its own length |
| Hierarchy.TailCount | src/gen_data.py:137 | "sprite" and a digit hold no c |
| Hierarchy.CountSplit | src/gen_data.py:137 | counting over a slice is counting over its two halves |
| Hierarchy.Render | src/gen_data.py:140-149 | one output line: the indentation spaces, the segment, and "\n" except for the final sub-row (lines 140, 142 and 149 are its three forms) |
| Hierarchy.RenderRoundTrip | src/gen_data.py:140 | removing the indentation and the newline from a rendered line gives its segment back |
| Hierarchy.Positions | src/gen_data.py:131-132 | `positions.insert(0, (0, first_end))` on the match spans |
| Hierarchy.PieceAt | src/gen_data.py:133-149 | line k of a split row: segment k, its indentation from the `count("c")` of span k and the test at line 139, and "\n" except on the last |
| Hierarchy.SegmentEnd | src/gen_data.py:135 | a segment ends between its start and the row's end |
| Hierarchy.ScanPositionsValid | src/gen_data.py:131-132 | `positions` after the insert of (0, first_end) is well formed |
| Hierarchy.RowPieces | src/gen_data.py:119-150 | IndexError iff the row contains "csprite" but no match; otherwise at least one line |
| Hierarchy.RowLines | src/gen_data.py:119-150 | fails exactly as RowPieces; one line per piece |
| Hierarchy.PieceAtText | src/gen_data.py:135 | piece k's text is the row from position k up to the next position |
| Hierarchy.SegmentsPrefix | src/gen_data.py:133-146 | the first segments, concatenated, are the row up to where the last of them ends |
| Hierarchy.RowRoundTrip | src/gen_data.py:118-150 | the segments of a row's lines, concatenated, are the row; each line unrenders to its segment |
| Hierarchy.SplitRowTexts | src/gen_data.py:131-146 | for a row that is split, concatenating the segments gives the row |
| Hierarchy.SplitTexts | src/gen_data.py:133-146 | the segments of all positions, put together, are the row |
| Hierarchy.RowLinesCases | src/gen_data.py:120-150 | a row without "csprite" gives itself alone; a split row gives one rendered line per position |
| Hierarchy.ChildPiece | src/gen_data.py:137-140 | a piece starting at a match is indented 4 + 2·(its run of c's), with "\n" unless it is the last |
| Hierarchy.MatchStartsSegment | src/gen_data.py:139 | a segment starting with a match contains "csprite" and starts with 'c' |
| Hierarchy.ScanChildPiece | src/gen_data.py:131-149 | m matches give m+1 lines; line k >= 1 is the text from match k to match k+1 (or the row's end), indented 4 + 2·(its c's), with "\n" unless last |
| Hierarchy.ScanFirstPiece | src/gen_data.py:131-142 | line 0 is the text before the first match, with "\n", indented only when that text starts with 'c' and contains "csprite" |
| Hierarchy.Malformed | src/gen_data.py:131 | the row contains "csprite" but `finditer` finds no match, so `positions[0]` raises IndexError |
| Hierarchy.Groups | src/gen_data.py:118-150 | one group of lines per row; otherwise IndexError |
| Hierarchy.GroupsAt | src/gen_data.py:118-150 | Ok iff no row is malformed; group i is row i's lines |
| Hierarchy.ExpandSpriteSet | src/gen_data.py:114-160 | the only error is IndexError |
| Hierarchy.ExpandSpriteSetFails | src/gen_data.py:131 | IndexError iff some row has "csprite" but no match |
| Hierarchy.FlattenPrefixGrows | src/gen_data.py:118-121 | with nonempty groups, later rows start at strictly later lines |
| Hierarchy.GroupsNonEmpty | src/gen_data.py:118-150 | every row contributes at least one line |
| Hierarchy.RowGroup | src/gen_data.py:118-150 | when the expansion succeeds, group i is exactly the lines of row i |
| Hierarchy.PlainGroup | src/gen_data.py:120-121 | a row without "csprite" is a group of its own, unchanged |
| Hierarchy.SpriteSetPassThrough | src/gen_data.py:120-121 | every row without "csprite", the last one included, comes out as one line, changed only by the positional marker of where it lands |
| Hierarchy.SpriteSetKeepsOrder | src/gen_data.py:118-159 | all lines of row i come before the first line of any later row j |
| Hierarchy.GroupEndsBefore | src/gen_data.py:118-150 | group i ends before any later group starts |
| Hierarchy.SplitRowLands | src/gen_data.py:132-159 | line t of row i's expansion, for a split row as for a plain one, lands at row i's offset plus t with that position's marker (none at position 0) |
| Hierarchy.GroupLineLands | src/gen_data.py:153-159 | line t of group i lands at the group's offset plus t with that position's marker |
| Hierarchy.PlainRowLands | src/gen_data.py:153-159 | a one-line group, the last one included, lands at its offset with that offset's marker |
| Hierarchy.MarkerRowUnprefixed | src/gen_data.py:153-159 | the SpriteSet marker in front stays the first line, unnumbered |
| Hierarchy.InnerLine | src/gen_data.py:133-143 | the line the position loop appends at index k, with both branches of its indentation test |
| Hierarchy.FinalLine | src/gen_data.py:145-150 | the line appended after the loop: indented, and the rest of the row with its own ending |
| Hierarchy.PieceLines | src/gen_data.py:133-150 | one line per position processed |
| Hierarchy.PieceLinesAt | src/gen_data.py:133-150 | line k of those is piece k rendered |
| Hierarchy.SplitRowLines | src/gen_data.py:124-150 | a split row's lines are its positions' lines |
| Hierarchy.GroupsStep | src/gen_data.py:118-150 | one more row appends its lines, or its IndexError ends the list |
| Hierarchy.ExpandRow | src/gen_data.py:119-150 | the first loop's body for one row yields RowLines |
| Hierarchy.PreappendSpriteset | src/gen_data.py:114-160 | the appends and the enumeration loop give ExpandSpriteSet |
| Assembly.Ordered | src/gen_data.py:193-195 | the written order is a permutation of the components |
| Assembly.ComponentLines | src/gen_data.py:197-200 | the first line is "BasicGame\n" |
| Assembly.ConcatComponents | src/gen_data.py:191-202 | the result of concat_vgdl_components: the lines joined |
| Assembly.ConcatStartsWithHeader | src/gen_data.py:197-202 | the text is the header followed by the joined lines of the ordered components |
| Assembly.ComponentLinesMultiset | src/gen_data.py:193-200 | whatever the draw, the lines are the header plus exactly the components' lines |
| Assembly.ComponentContiguous | src/gen_data.py:198-200 | each component stays in one piece, its lines in order, after the header and the components before it |
| Assembly.ConcatVgdlComponents | src/gen_data.py:191-202 | shuffles the array in place when the coin says so; returns ConcatComponents of the old contents |
| Prompts.ArrangementsUpTo | src/gen_data.py:246-248 | the list after r rounds of `extend`: the arrangements of length 1, then 2, ..., then r |
| Prompts.PromptArrangements | src/gen_data.py:246-248 | the list after all k rounds |
| Prompts.ArrangementsUpToCount | src/gen_data.py:246-248 | after r rounds the list holds Σ_{j=1..r} k!/(k-j)! selections |
| Prompts.PromptCount | src/gen_data.py:246-248 | k traits give Σ_{r=1..k} k!/(k-r)! selections |
| Prompts.ArrangementsUpToSound | src/gen_data.py:246-248 | each selection takes 1 to r traits from distinct positions |
| Prompts.ArrangementsUpToComplete | src/gen_data.py:246-248 | each such selection is listed |
| Prompts.PromptArrangementsExactly | src/gen_data.py:246-248 | a selection is listed iff it takes 1 to k traits from distinct positions |
| Prompts.ArrangementsLength | src/gen_data.py:248 | `permutations(traits, n)` yields tuples of length n |
| Prompts.UpToLength | src/gen_data.py:246-248 | after n rounds no selection is longer than n |
| Prompts.ShorterFirst | src/gen_data.py:247-248 | the selections are listed by non-decreasing length |
| Prompts.ArrangementsUpToDistinct | src/gen_data.py:246-248 | with pairwise different traits, no selection is listed twice |
| Prompts.PromptArrangementsDistinct | src/gen_data.py:246-248 | the same for the whole list |
| Prompts.AllCombosGamePrompts | src/gen_data.py:246-248 | the `extend` loop yields PromptArrangements |
| Prompts.SpaceJoin | src/gen_data.py:250 | `' '.join(p)` |
| Prompts.SplitSpaces | src/gen_data.py:250 | the model's inverse of the `' '.join` at line 250 (the source never splits), read as `split(' ')`: at least one piece |
| Prompts.SplitJoin | src/gen_data.py:250 | the `' '.join` loses nothing when no word holds a space: splitting gives the words back |
| Prompts.RenderPrompt | src/gen_data.py:250 | every prompt line ends with " vgdlgame.\n" |
| Prompts.PromptRoundTrip | src/gen_data.py:250 | rendering loses nothing when no trait holds a space: the model's parser reads the line back as its traits |
| Prompts.PromptLines | src/gen_data.py:250 | one line per selection, entry k rendering selection k |
| Prompts.PromptLinesDistinct | src/gen_data.py:250 | with different traits without spaces, no prompt line repeats |
| Prompts.SpacedTraitsRepeat | src/gen_data.py:250 | when the traits include x, y (different) and "x y", the prompt list holds a repeated line |
| Prompts.NoSpaceIn | src/gen_data.py:246-250 | a listed selection is nonempty and inherits the traits' lack of spaces |
| Products.ProductWith | src/gen_data.py:243 | each element of the first list in front of every tail, the first list varying slowest |
| Products.Product | src/gen_data.py:243 | `itertools.product(*lists)` with its tuples as lists, the last list varying fastest |
| Products.ProductWithCount | src/gen_data.py:243 | one outer element times every tail gives len(xs)·len(tails) lists |
| Products.ProductCount | src/gen_data.py:243 | `itertools.product` yields the product of the lengths |
| Products.ProductWithAt | src/gen_data.py:243 | element a with tail b sits at a·len(tails) + b |
| Products.ProductWithMember | src/gen_data.py:243 | t is produced iff its head is in xs and its tail among the tails |
| Products.ProductMember | src/gen_data.py:243 | t is produced iff it picks one element of each list, in order |
| Products.PairAt | src/gen_data.py:253-254 | pair k is (xs[k / len(ys)], ys[k % len(ys)]) |
| Products.PairAtGrid | src/gen_data.py:253-254 | pair a·len(ys) + b is (xs[a], ys[b]) |
| Products.PairSingles | src/gen_data.py:254 | the two-list product is xs paired with the one-element lists of ys |
| Corpus.RawPools | src/gen_data.py:223-239 | the four section lists, each shuffled and capped, or the ValueError of the first missing marker |
| Corpus.GamePools | src/gen_data.py:223-239 | the same lists after the SpriteSet expansion and the enumeration, or the first exception |
| Corpus.GamePrompts | src/gen_data.py:246-251 | the rendered prompt lines after their shuffle |
| Corpus.PairsOf | src/gen_data.py:253-257 | the first three (prompt, game text) pairs of the product |
| Corpus.GamePairs | src/gen_data.py:210-257 | the pairs one game writes, or the exception that stops it |
| Corpus.TrainingFileName | src/gen_data.py:258 | `data/training_txts/<game>_<n>.txt` |
| Corpus.GameFiles | src/gen_data.py:210-261 | the (path, contents) of each file one game writes, or the exception that stops it |
| Corpus.ExpandAll | src/gen_data.py:235 | one expansion per ordering, or IndexError |
| Corpus.EnumerateAll | src/gen_data.py:237-239 | one enumerated ordering per ordering |
| Corpus.PoolList | src/gen_data.py:242 | `vgld_combinations_list`: the four section lists in SpriteSet, LevelMapping, InteractionSet, TerminationSet order |
| Corpus.Blocks | src/gen_data.py:242-243 | one game text per combination |
| Corpus.TrainingFiles | src/gen_data.py:256-261 | one file per pair |
| Corpus.RawPoolsFails | src/gen_data.py:223-230 | the section lists are built iff all four markers are present; ValueError otherwise |
| Corpus.NoChildTokenWithoutC | src/gen_data.py:120 | a row without 'c' never contains "csprite" |
| Corpus.ExpandAllFails | src/gen_data.py:235 | the SpriteSet list fails iff some ordering fails, with IndexError |
| Corpus.OrderingFails | src/gen_data.py:223-235 | a SpriteSet ordering fails iff the section has a malformed row |
| Corpus.MalformedInTail | src/gen_data.py:235 | with a well-formed head, an ordering holds a malformed row iff the section does |
| Corpus.TakeShuffledIn | src/gen_data.py:224-239 | the kept orderings are orderings of the section |
| Corpus.SpritePoolFails | src/gen_data.py:223-235 | with the markers present, the SpriteSet expansion fails iff the section has a malformed row |
| Corpus.GamePoolsUnfold | src/gen_data.py:223-239 | the four lists are built iff the markers are present and the SpriteSet expands; the expansion fails with IndexError |
| Corpus.GamePairsFails | src/gen_data.py:210-254 | a game stops with ValueError iff a marker is missing, and with IndexError iff the markers are present and a SpriteSet row is malformed |
| Corpus.PoolSizes | src/gen_data.py:223-239 | each section keeps min(cap, n!) orderings (caps 5, 10, 10, 2) |
| Corpus.CappedPoolSize | src/gen_data.py:224-239 | shuffling then `[:cap]` keeps min(cap, n!) orderings |
| Corpus.BlocksCount | src/gen_data.py:242-243 | the game texts number the product of the four list lengths |
| Corpus.PairsCount | src/gen_data.py:253-257 | min(3, prompts · game texts) pairs are written |
| Corpus.PromptIsRendered | src/gen_data.py:250-251 | every shuffled prompt line renders a listed selection |
| Corpus.BlockHasHeader | src/gen_data.py:243 | every game text starts with "BasicGame\n" |
| Corpus.PairShape | src/gen_data.py:253-257 | every written pair is a rendered prompt and a game text starting with the header |
| Corpus.NoTraitsNoPairs | src/gen_data.py:246-254 | a game without traits writes nothing |
| Corpus.TrainingFileNamesDistinct | src/gen_data.py:256-261 | different file numbers give different paths |
| Corpus.WriteTrainingFiles | src/gen_data.py:256-261 | the writing loop numbers the first three pairs from 1; its output is TrainingFiles of them |

## Left out

- File reading (lines 216-219) and writing (lines 259-260). A game's block is a parameter, given as its `readlines` lines, and a game's output is a list of (path, contents) pairs.
- TRAITS_DICT is not part of this model. The outer loop over its games (line 210) becomes a function of one game's name, block and traits.
- `random.uniform` and `random.shuffle` are not modelled as randomness. Their outcomes are caller-supplied draws (`Corpus.Randomness`, and the picks of `Combinatorics.Shuffled`). `ShuffledReachesEveryOrder` shows that every ordering is reachable. The distribution is not modelled.
- The `print` calls (lines 128, 214, 234) are left out: they are output only.
- The argparse TODOs and the commented-out `main` (lines 204-207) contain no code to model.
- `is_header` (lines 83-84) is never called. It compares a match object with 2, so it is always false.
- `game_combo_dict` (line 211) is never used. `game_file` (line 212) only builds the input path at line 213, and reading that file is left out (the file I/O line above).
- Hierarchy.IsDigit: `\d` is modelled as the ASCII digits only. Python's `re` also accepts other Unicode decimal digits.
- Hierarchy.PreappendSpriteset, RowPermuter.GetPermutationsLst, Enumeration.GetVgdlComponentLst: these are modelled on values. `preappend_enum` in the main loop changes the lists that the shuffled permutation list shares with its `[:10]` slice; that aliasing is not modelled because nothing reads those lists afterwards. Only `PreappendEnum` and `ConcatVgdlComponents` are modelled in place on arrays.
- Prompts.PromptRoundTrip, Prompts.PromptLinesDistinct: both hold only for traits without spaces. The source's own trait examples have spaces ("7 sprites", line 30). With such traits two different selections can render the same line, so the prompt list can hold duplicates; `Prompts.SpacedTraitsRepeat` shows one case.
- Combinatorics.Arrangements: the tuples are defined by recursion on the first position. That is the order itertools emits them in, but the model does not prove it against itertools' own index-cycling algorithm.
- An uncaught ValueError or IndexError ends the whole program, so the games after it are not processed either. The model stops only the game that raised (`Corpus.GameFiles` returns the error).
