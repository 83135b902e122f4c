/** preappend_spriteset (src/gen_data.py:114-160).
    A SpriteSet row that carries child sprites folded into it ("csprite1",
    "ccsprite2", ...) is split at every match of the regular expression
    c+sprite\d; each child is re-emitted on a line of its own, indented by
    4 + 2·(number of leading c's); then the whole list is enumerated. */
module Hierarchy {
  import opened Seqs
  import opened Enumeration

  /** The substring test that decides whether a row is split at all. */
  const ChildToken: string := "csprite"

  // ---------------------------------------------------------------------
  // re.finditer(r"c+sprite\d", row), written out for this one pattern.

  /** \d, restricted to ASCII digits. */
  predicate IsDigit(ch: char)
  {
    '0' <= ch <= '9'
  }

  /** The number of consecutive 'c' characters starting at position p. */
  function CRun(s: string, p: nat): (n: nat)
    requires p <= |s|
    ensures p + n <= |s|
    decreases |s| - p
  {
    if p < |s| && s[p] == 'c' then 1 + CRun(s, p + 1) else 0
  }

  /** The run is all c's and cannot be extended. */
  lemma {:induction false} CRunMaximal(s: string, p: nat)
    requires p <= |s|
    ensures forall k :: p <= k < p + CRun(s, p) ==> s[k] == 'c'
    ensures p + CRun(s, p) < |s| ==> s[p + CRun(s, p)] != 'c'
    decreases |s| - p
  {
    if p < |s| && s[p] == 'c' {
      CRunMaximal(s, p + 1);
    }
  }

  /** The pattern matches when anchored at p: a maximal run of c's (the
      greedy c+ cannot give any back, since "sprite" does not start with c)
      followed by "sprite" and a digit. */
  predicate MatchAt(s: string, p: nat)
  {
    p < |s| &&
    var q := p + CRun(s, p);
    CRun(s, p) >= 1 && q + 7 <= |s| && s[q..q + 6] == "sprite" && IsDigit(s[q + 6])
  }

  /** m.end() of the match anchored at p. */
  function MatchEnd(s: string, p: nat): nat
    requires p <= |s|
  {
    p + CRun(s, p) + 7
  }

  predicate NoMatchIn(s: string, lo: nat, hi: nat)
  {
    forall q: nat :: lo <= q < hi ==> !MatchAt(s, q)
  }

  /** The (m.start(), m.end()) pairs finditer yields from position p on,
      in increasing order and not overlapping. */
  function Scan(s: string, p: nat): (ms: seq<(nat, nat)>)
    requires p <= |s|
    ensures forall k :: 0 <= k < |ms| ==> p <= ms[k].0 < ms[k].1 <= |s|
    ensures forall k :: 0 <= k < |ms| - 1 ==> ms[k].1 <= ms[k + 1].0
    decreases |s| - p
  {
    if p == |s| then []
    else if MatchAt(s, p) then [(p, MatchEnd(s, p))] + Scan(s, MatchEnd(s, p))
    else Scan(s, p + 1)
  }

  /** Each pair is a match: it starts where the pattern matches and ends
      where that match ends. */
  lemma {:induction false} ScanMatches(s: string, p: nat, k: nat)
    requires p <= |s| && k < |Scan(s, p)|
    ensures MatchAt(s, Scan(s, p)[k].0)
    ensures Scan(s, p)[k].1 == MatchEnd(s, Scan(s, p)[k].0)
    decreases |s| - p
  {
    var ms := Scan(s, p);
    assert p < |s|;
    if MatchAt(s, p) {
      var e := MatchEnd(s, p);
      assert ms == [(p, e)] + Scan(s, e);
      if k > 0 {
        ScanMatches(s, e, k - 1);
      }
    } else {
      assert ms == Scan(s, p + 1);
      ScanMatches(s, p + 1, k);
    }
  }

  /** Where the first match starts, or the end of the row when there is
      none. */
  function FirstStart(s: string, ms: seq<(nat, nat)>): nat
  {
    if ms == [] then |s| else ms[0].0
  }

  /** ... and leftmost: no match starts before the first match found (or
      anywhere, when none is found) ... */
  lemma {:induction false} ScanLeftmostHead(s: string, p: nat)
    requires p <= |s|
    ensures NoMatchIn(s, p, FirstStart(s, Scan(s, p)))
    decreases |s| - p
  {
    if p < |s| && !MatchAt(s, p) {
      ScanLeftmostHead(s, p + 1);
      assert Scan(s, p) == Scan(s, p + 1);
      NoMatchExtend(s, p, FirstStart(s, Scan(s, p)));
    }
  }

  lemma NoMatchExtend(s: string, p: nat, hi: nat)
    requires !MatchAt(s, p) && NoMatchIn(s, p + 1, hi)
    ensures NoMatchIn(s, p, hi)
  {
  }

  /** Where the gap after match k ends: at the next match, or at the end of
      the row. */
  function GapEnd(s: string, ms: seq<(nat, nat)>, k: nat): nat
    requires k < |ms|
  {
    if k + 1 < |ms| then ms[k + 1].0 else |s|
  }

  lemma GapEndCons(s: string, x: (nat, nat), rest: seq<(nat, nat)>, k: nat)
    requires k <= |rest|
    ensures ([x] + rest)[0] == x
    ensures 1 <= k ==> ([x] + rest)[k] == rest[k - 1]
    ensures k == 0 ==> GapEnd(s, [x] + rest, k) == FirstStart(s, rest)
    ensures 1 <= k ==> GapEnd(s, [x] + rest, k) == GapEnd(s, rest, k - 1)
  {
  }

  /** ... nor in the gap after any of them, so finditer skips no match. */
  lemma {:induction false} ScanGap(s: string, p: nat, k: nat)
    requires p <= |s| && k < |Scan(s, p)|
    ensures NoMatchIn(s, Scan(s, p)[k].1, GapEnd(s, Scan(s, p), k))
    decreases |s| - p
  {
    assert p < |s|;
    if MatchAt(s, p) {
      var e := MatchEnd(s, p);
      var rest := Scan(s, e);
      assert Scan(s, p) == [(p, e)] + rest;
      GapEndCons(s, (p, e), rest, k);
      if k == 0 {
        ScanLeftmostHead(s, e);
      } else {
        ScanGap(s, e, k - 1);
      }
    } else {
      assert Scan(s, p) == Scan(s, p + 1);
      ScanGap(s, p + 1, k);
    }
  }

  /** A match always contains "csprite" (ending where its run of c's ends),
      and its c's are exactly that run. */
  lemma MatchContainsChildToken(s: string, p: nat)
    requires MatchAt(s, p)
    ensures OccursAt(s[p..MatchEnd(s, p)], ChildToken, CRun(s, p) - 1)
    ensures Contains(s[p..MatchEnd(s, p)], ChildToken)
    ensures Count(s[p..MatchEnd(s, p)], 'c') == CRun(s, p)
  {
    MatchHasToken(s, p);
    MatchCount(s, p);
  }

  lemma MatchHasToken(s: string, p: nat)
    requires MatchAt(s, p)
    ensures OccursAt(s[p..MatchEnd(s, p)], ChildToken, CRun(s, p) - 1)
  {
    CRunMaximal(s, p);
    var n := CRun(s, p);
    var q := p + n;
    SliceOfSlice(s, p, MatchEnd(s, p), n - 1, n + 6);
    assert s[q - 1] == 'c';
    assert s[q - 1..q + 6] == [s[q - 1]] + s[q..q + 6];
  }

  lemma MatchCount(s: string, p: nat)
    requires MatchAt(s, p)
    ensures Count(s[p..MatchEnd(s, p)], 'c') == CRun(s, p)
  {
    var q, e := p + CRun(s, p), MatchEnd(s, p);
    RunCount(s, p);
    TailCount(s, q);
    CountSplit(s, p, q, e, 'c');
  }

  /** Counting over a slice is counting over its two halves. */
  lemma CountSplit(s: string, a: nat, m: nat, b: nat, ch: char)
    requires a <= m <= b <= |s|
    ensures Count(s[a..b], ch) == Count(s[a..m], ch) + Count(s[m..b], ch)
  {
    SliceSplit(s, a, m, b);
    CountConcat(s[a..m], s[m..b], ch);
  }

  lemma RunCount(s: string, p: nat)
    requires p <= |s|
    ensures Count(s[p..p + CRun(s, p)], 'c') == CRun(s, p)
  {
    CRunMaximal(s, p);
    var run := s[p..p + CRun(s, p)];
    assert forall k :: 0 <= k < |run| ==> run[k] == s[p + k];
    CountAll(run, 'c');
  }

  lemma TailCount(s: string, q: nat)
    requires q + 7 <= |s| && s[q..q + 6] == "sprite" && IsDigit(s[q + 6])
    ensures Count(s[q..q + 7], 'c') == 0
  {
    var tail := s[q..q + 7];
    forall i | 0 <= i < 7 ensures tail[i] != 'c' {
      if i < 6 {
        assert tail[i] == s[q..q + 6][i];
      }
    }
  }

  lemma {:induction false} CountConcat(a: string, b: string, ch: char)
    ensures Count(a + b, ch) == Count(a, ch) + Count(b, ch)
  {
    if a != [] {
      assert (a + b)[0] == a[0];
      assert (a + b)[1..] == a[1..] + b;
      CountConcat(a[1..], b, ch);
    } else {
      assert a + b == b;
    }
  }

  lemma {:induction false} CountAll(a: string, ch: char)
    requires forall k :: 0 <= k < |a| ==> a[k] == ch
    ensures Count(a, ch) == |a|
  {
    if a != [] {
      CountAll(a[1..], ch);
    }
  }

  // ---------------------------------------------------------------------
  // Splitting one row.

  /** One output line before rendering: `indent` spaces, a segment of the
      source row, and a trailing "\n" when `newline`. */
  datatype Piece = Piece(indent: nat, text: string, newline: bool)

  function Render(pc: Piece): Line
  {
    Spaces(pc.indent) + pc.text + (if pc.newline then "\n" else "")
  }

  /** The rendered line gives its segment back once the indentation and the
      added "\n" are taken off. */
  function Unrender(line: Line, indent: nat, newline: bool): string
  {
    var hi := if newline && |line| > 0 then |line| - 1 else |line|;
    if indent <= hi then line[indent..hi] else ""
  }

  lemma RenderRoundTrip(pc: Piece)
    ensures Unrender(Render(pc), pc.indent, pc.newline) == pc.text
  {
    var line := Render(pc);
    assert line[pc.indent..pc.indent + |pc.text|] == pc.text;
  }

  /** A positions list of the shape preappend_spriteset builds: starts from
      0, each span inside the row, spans starting in order. */
  predicate ValidPositions(row: string, pos: seq<(nat, nat)>)
  {
    && |pos| >= 1
    && pos[0].0 == 0
    && (forall k :: 0 <= k < |pos| ==> pos[k].0 <= pos[k].1 <= |row|)
    && (forall k :: 0 <= k < |pos| - 1 ==> pos[k].0 <= pos[k + 1].0)
  }

  /** Where segment k of the row ends: at the next span's start, or at the
      end of the row for the last one. */
  function SegmentEnd(row: string, pos: seq<(nat, nat)>, k: nat): (e: nat)
    requires ValidPositions(row, pos) && k < |pos|
    ensures pos[k].0 <= e <= |row|
  {
    if k + 1 < |pos| then pos[k + 1].0 else |row|
  }

  /** The k-th line produced for a row that contains "csprite": the two
      branches of the position loop and the final sub-row below it. */
  function PieceAt(row: string, pos: seq<(nat, nat)>, k: nat): Piece
    requires ValidPositions(row, pos) && k < |pos|
  {
    var newRow := row[pos[k].0..SegmentEnd(row, pos, k)];
    var num := Count(row[pos[k].0..pos[k].1], 'c');
    if k + 1 < |pos| then
      if Contains(newRow, ChildToken) && newRow[0] == 'c' then Piece(4 + num * 2, newRow, true)
      else Piece(0, newRow, true)
    else Piece(4 + num * 2, newRow, false)
  }

  /** `positions` after `positions.insert(0, (0, first_end))`. */
  function Positions(ms: seq<(nat, nat)>): seq<(nat, nat)>
    requires ms != []
  {
    [(0, ms[0].1)] + ms
  }

  lemma ScanPositionsValid(row: string)
    requires Scan(row, 0) != []
    ensures ValidPositions(row, Positions(Scan(row, 0)))
  {
  }

  /** How preappend_spriteset treats one row: untouched when it has no
      "csprite"; IndexError at positions[0] when it has one but no match;
      otherwise one piece per position. */
  function RowPieces(row: Line): (r: Result<seq<Piece>>)
    ensures r.Err? <==> Contains(row, ChildToken) && Scan(row, 0) == []
    ensures r.Err? ==> r.error == IndexError
    ensures r.Ok? ==> |r.value| >= 1
  {
    if !Contains(row, ChildToken) then Ok([Piece(0, row, false)])
    else
      var ms := Scan(row, 0);
      if ms == [] then Err(IndexError)
      else
        var pos := Positions(ms);
        ScanPositionsValid(row);
        Ok(seq(|pos|, k requires 0 <= k < |pos| => PieceAt(row, pos, k)))
  }

  /** The lines one source row becomes. */
  function RowLines(row: Line): (r: Result<seq<Line>>)
    ensures r.Ok? <==> RowPieces(row).Ok?
    ensures r.Err? ==> r.error == IndexError
    ensures r.Ok? ==> |r.value| == |RowPieces(row).value|
                      && forall k :: 0 <= k < |r.value| ==> r.value[k] == Render(RowPieces(row).value[k])
  {
    var ps :- RowPieces(row);
    Ok(seq(|ps|, k requires 0 <= k < |ps| => Render(ps[k])))
  }

  /** The segments, concatenated. */
  function Texts(ps: seq<Piece>): string
  {
    if ps == [] then [] else Texts(ps[..|ps| - 1]) + ps[|ps| - 1].text
  }

  lemma PieceAtText(row: string, pos: seq<(nat, nat)>, k: nat)
    requires ValidPositions(row, pos) && k < |pos|
    ensures PieceAt(row, pos, k).text == row[pos[k].0..SegmentEnd(row, pos, k)]
  {
  }

  lemma PrefixSplit(s: string, a: nat, b: nat)
    requires a <= b <= |s|
    ensures s[..b] == s[..a] + s[a..b]
  {
  }

  /** Segments 0 .. |ps| - 1, put back together, are the row up to where
      the last of them ends. */
  lemma {:induction false} SegmentsPrefix(row: string, pos: seq<(nat, nat)>, ps: seq<Piece>)
    requires ValidPositions(row, pos) && 1 <= |ps| <= |pos|
    requires forall k :: 0 <= k < |ps| ==> ps[k].text == row[pos[k].0..SegmentEnd(row, pos, k)]
    ensures Texts(ps) == row[..SegmentEnd(row, pos, |ps| - 1)]
  {
    var j := |ps|;
    if j > 1 {
      SegmentsPrefix(row, pos, ps[..j - 1]);
      PrefixSplit(row, pos[j - 1].0, SegmentEnd(row, pos, j - 1));
    } else {
      assert ps[..0] == [];
    }
  }

  /** Round trip: the segments of the lines produced for one row, put back
      together, are that row exactly. */
  lemma RowRoundTrip(row: Line)
    requires RowPieces(row).Ok?
    ensures Texts(RowPieces(row).value) == row
    ensures forall k :: 0 <= k < |RowLines(row).value| ==>
              Unrender(RowLines(row).value[k], RowPieces(row).value[k].indent,
                       RowPieces(row).value[k].newline) == RowPieces(row).value[k].text
  {
    var ps := RowPieces(row).value;
    if Contains(row, ChildToken) {
      SplitRowTexts(row);
    } else {
      assert ps[..0] == [];
    }
    forall k | 0 <= k < |ps| {
      RenderRoundTrip(ps[k]);
    }
  }

  lemma SplitRowTexts(row: Line)
    requires Contains(row, ChildToken) && Scan(row, 0) != []
    ensures Texts(RowPieces(row).value) == row
  {
    var pos := Positions(Scan(row, 0));
    ScanPositionsValid(row);
    assert RowPieces(row).value == seq(|pos|, k requires 0 <= k < |pos| => PieceAt(row, pos, k));
    SplitTexts(row, pos);
  }

  /** The segments of all positions put back together are the row. */
  lemma SplitTexts(row: string, pos: seq<(nat, nat)>)
    requires ValidPositions(row, pos)
    ensures Texts(seq(|pos|, k requires 0 <= k < |pos| => PieceAt(row, pos, k))) == row
  {
    var ps := seq(|pos|, k requires 0 <= k < |pos| => PieceAt(row, pos, k));
    forall k | 0 <= k < |ps| ensures ps[k].text == row[pos[k].0..SegmentEnd(row, pos, k)] {
      PieceAtText(row, pos, k);
    }
    SegmentsPrefix(row, pos, ps);
  }

  /** The lines of a row without "csprite", and of one with a match. */
  lemma RowLinesCases(row: Line)
    ensures !Contains(row, ChildToken) ==> RowLines(row) == Ok([row])
    ensures Contains(row, ChildToken) && Scan(row, 0) != [] ==>
              ValidPositions(row, Positions(Scan(row, 0))) &&
              var pos := Positions(Scan(row, 0));
              RowLines(row) == Ok(seq(|pos|, k requires 0 <= k < |pos| => Render(PieceAt(row, pos, k))))
  {
    if !Contains(row, ChildToken) {
      assert RowPieces(row) == Ok([Piece(0, row, false)]);
      assert Spaces(0) == [];
      assert Render(Piece(0, row, false)) == row;
      assert RowLines(row).value == [row];
    } else if Scan(row, 0) != [] {
      ScanPositionsValid(row);
      var pos := Positions(Scan(row, 0));
      var ps := RowPieces(row).value;
      assert ps == seq(|pos|, k requires 0 <= k < |pos| => PieceAt(row, pos, k));
      assert RowLines(row).value == seq(|pos|, k requires 0 <= k < |pos| => Render(PieceAt(row, pos, k)));
    }
  }

  /** A piece that starts at a match: indented by 4 + 2·(its run of c's),
      newline unless it is the last. */
  lemma ChildPiece(row: string, pos: seq<(nat, nat)>, k: nat)
    requires ValidPositions(row, pos) && 1 <= k < |pos|
    requires MatchAt(row, pos[k].0) && pos[k].1 == MatchEnd(row, pos[k].0)
    requires pos[k].1 <= SegmentEnd(row, pos, k)
    ensures PieceAt(row, pos, k).text == row[pos[k].0..SegmentEnd(row, pos, k)]
    ensures PieceAt(row, pos, k).indent == 4 + 2 * CRun(row, pos[k].0)
    ensures PieceAt(row, pos, k).newline == (k + 1 < |pos|)
  {
    var s := pos[k].0;
    MatchContainsChildToken(row, s);
    MatchStartsSegment(row, s, SegmentEnd(row, pos, k));
  }

  /** A segment that starts with a match contains "csprite" and starts
      with 'c'. */
  lemma MatchStartsSegment(row: string, s: nat, end: nat)
    requires MatchAt(row, s) && MatchEnd(row, s) <= end <= |row|
    ensures Contains(row[s..end], ChildToken) && row[s..end][0] == 'c'
  {
    var e := MatchEnd(row, s);
    var w := CRun(row, s) - 1;
    MatchHasToken(row, s);
    SliceOfSlice(row, s, e, w, w + 7);
    SliceOfSlice(row, s, end, w, w + 7);
    assert OccursAt(row[s..end], ChildToken, w);
  }

  /** A row with m matches gives m + 1 pieces; piece k >= 1 is a child
      segment from match k - 1 up to the next match (or the end of the row),
      indented by 4 + 2·(its run of c's), with "\n" on all but the last. */
  lemma ScanChildPiece(row: Line, k: nat)
    requires Contains(row, ChildToken) && Scan(row, 0) != [] && 1 <= k <= |Scan(row, 0)|
    ensures var ms := Scan(row, 0);
            var ps := RowPieces(row).value;
            && |ps| == |ms| + 1
            && ps[k].text == row[ms[k - 1].0..if k < |ms| then ms[k].0 else |row|]
            && ps[k].indent == 4 + 2 * CRun(row, ms[k - 1].0)
            && ps[k].newline == (k < |ms|)
  {
    var ms := Scan(row, 0);
    var pos := Positions(ms);
    ScanPositionsValid(row);
    assert pos[k] == ms[k - 1];
    assert k < |ms| ==> pos[k + 1] == ms[k];
    ScanMatches(row, 0, k - 1);
    ChildPiece(row, pos, k);
    assert RowPieces(row).value[k] == PieceAt(row, pos, k);
  }

  /** Piece 0 of a split row: the text before the first match, with "\n",
      unindented unless that text itself starts a child token. */
  lemma ScanFirstPiece(row: Line)
    requires Contains(row, ChildToken) && Scan(row, 0) != []
    ensures var ms := Scan(row, 0);
            var pc := RowPieces(row).value[0];
            && pc.text == row[..ms[0].0]
            && pc.newline
            && pc.indent == (if Contains(pc.text, ChildToken) && pc.text[0] == 'c'
                             then 4 + 2 * Count(row[..ms[0].1], 'c') else 0)
  {
    var ms := Scan(row, 0);
    var pos := Positions(ms);
    ScanPositionsValid(row);
    assert RowPieces(row).value[0] == PieceAt(row, pos, 0);
    assert pos[1] == ms[0];
  }

  // ---------------------------------------------------------------------
  // The whole list.

  predicate Malformed(row: Line)
  {
    Contains(row, ChildToken) && Scan(row, 0) == []
  }

  /** The lines of each row, one group per row, or IndexError from the first
      malformed row. */
  function Groups(rows: seq<Line>): (r: Result<seq<seq<Line>>>)
    ensures r.Ok? ==> |r.value| == |rows|
    ensures r.Err? ==> r.error == IndexError
  {
    if rows == [] then Ok([])
    else
      var front :- Groups(rows[..|rows| - 1]);
      var last :- RowLines(rows[|rows| - 1]);
      Ok(front + [last])
  }

  lemma {:induction false} GroupsAt(rows: seq<Line>)
    ensures Groups(rows).Ok? <==> forall i :: 0 <= i < |rows| ==> !Malformed(rows[i])
    ensures Groups(rows).Ok? ==> forall i :: 0 <= i < |rows| ==>
              RowLines(rows[i]).Ok? && Groups(rows).value[i] == RowLines(rows[i]).value
  {
    if rows != [] {
      var n := |rows| - 1;
      GroupsAt(rows[..n]);
      assert forall i :: 0 <= i < n ==> rows[..n][i] == rows[i];
    }
  }

  /** preappend_spriteset's result: the expanded rows, enumerated. */
  function ExpandSpriteSet(rows: seq<Line>): (r: Result<seq<Line>>)
    ensures r.Err? ==> r.error == IndexError
  {
    var gs :- Groups(rows);
    Ok(Enumerate(Flatten(gs)))
  }

  /** IndexError exactly when some row has "csprite" but no child token. */
  lemma ExpandSpriteSetFails(rows: seq<Line>)
    ensures ExpandSpriteSet(rows).Err? <==> exists i :: 0 <= i < |rows| && Malformed(rows[i])
  {
    GroupsAt(rows);
  }

  /** Rows without "csprite" come out unchanged apart from their positional
      marker, in their original relative order: row i lands at position
      Offset(i), and offsets grow with i. */
  function Offset(gs: seq<seq<Line>>, i: nat): nat
    requires i <= |gs|
  {
    |Flatten(gs[..i])|
  }

  lemma FlattenPrefixGrows(gs: seq<seq<Line>>, i: nat, j: nat)
    requires i < j <= |gs|
    requires forall k :: 0 <= k < |gs| ==> |gs[k]| >= 1
    ensures Offset(gs, i) < Offset(gs, j)
  {
    assert gs[..j] == gs[..i] + gs[i..j];
    FlattenConcat(gs[..i], gs[i..j]);
    FlattenLength(gs[i..j]);
    assert gs[i..j] == gs[i..j - 1] + [gs[j - 1]];
    assert TotalLength(gs[i..j]) >= |gs[j - 1]|;
  }

  /** Every row contributes at least one line. */
  lemma GroupsNonEmpty(rows: seq<Line>)
    requires Groups(rows).Ok?
    ensures forall k :: 0 <= k < |Groups(rows).value| ==> |Groups(rows).value[k]| >= 1
  {
    GroupsAt(rows);
  }

  /** A row without "csprite" is a group of its own, unchanged. */
  lemma PlainGroup(rows: seq<Line>, i: nat)
    requires Groups(rows).Ok? && i < |rows| && !Contains(rows[i], ChildToken)
    ensures Groups(rows).value[i] == [rows[i]]
  {
    GroupsAt(rows);
    RowLinesCases(rows[i]);
  }

  /** A row without "csprite" comes out as one line, changed only by the
      positional marker of where it lands; this holds for every row,
      the last one included. */
  lemma SpriteSetPassThrough(rows: seq<Line>, i: nat)
    requires ExpandSpriteSet(rows).Ok?
    requires i < |rows| && !Contains(rows[i], ChildToken)
    ensures var gs := Groups(rows).value;
            var out := ExpandSpriteSet(rows).value;
            && |gs| == |rows|
            && Offset(gs, i) < |out|
            && out[Offset(gs, i)] == if Offset(gs, i) == 0 then rows[i] else Marker(Offset(gs, i)) + rows[i]
  {
    var gs := Groups(rows).value;
    PlainGroup(rows, i);
    PlainRowLands(gs, rows[i], i);
    assert ExpandSpriteSet(rows).value == Enumerate(Flatten(gs));
  }

  /** The lines of a row all come before those of every later row: the
      expansion keeps the rows' relative order. */
  /** Where line t of a row's expansion lands: the row's offset plus t, with
      that position's marker (none at position 0). */
  lemma SplitRowLands(rows: seq<Line>, i: nat, t: nat)
    requires ExpandSpriteSet(rows).Ok?
    requires i < |rows| && RowLines(rows[i]).Ok? && t < |RowLines(rows[i]).value|
    ensures var gs := Groups(rows).value;
            var out := ExpandSpriteSet(rows).value;
            var line := RowLines(rows[i]).value[t];
            && |gs| == |rows|
            && Offset(gs, i) + t < |out|
            && out[Offset(gs, i) + t] == if Offset(gs, i) + t == 0 then line else Marker(Offset(gs, i) + t) + line
  {
    var gs := Groups(rows).value;
    RowGroup(rows, i);
    GroupLineLands(gs, i, t);
    assert ExpandSpriteSet(rows).value == Enumerate(Flatten(gs));
  }

  lemma RowGroup(rows: seq<Line>, i: nat)
    requires Groups(rows).Ok? && i < |rows|
    ensures RowLines(rows[i]).Ok? && Groups(rows).value[i] == RowLines(rows[i]).value
  {
    GroupsAt(rows);
  }

  lemma GroupLineLands(gs: seq<seq<Line>>, i: nat, t: nat)
    requires i < |gs| && t < |gs[i]|
    ensures var out := Enumerate(Flatten(gs));
            && Offset(gs, i) + t < |out|
            && out[Offset(gs, i) + t] == if Offset(gs, i) + t == 0 then gs[i][t] else Marker(Offset(gs, i) + t) + gs[i][t]
  {
    FlattenAt(gs, i, t);
    EnumerateIndex(Flatten(gs), Offset(gs, i) + t);
  }

  lemma SpriteSetKeepsOrder(rows: seq<Line>, i: nat, j: nat)
    requires ExpandSpriteSet(rows).Ok?
    requires i < j < |rows|
    ensures var gs := Groups(rows).value;
            var out := ExpandSpriteSet(rows).value;
            && |gs| == |rows|
            && Offset(gs, i) + |gs[i]| <= Offset(gs, j) < |out|
  {
    var gs := Groups(rows).value;
    GroupsNonEmpty(rows);
    GroupEndsBefore(gs, i, j);
    FlattenAt(gs, j, 0);
    assert ExpandSpriteSet(rows).value == Enumerate(Flatten(gs));
  }

  /** Group i ends where group i + 1 starts, so no later group starts
      before it ends. */
  lemma GroupEndsBefore(gs: seq<seq<Line>>, i: nat, j: nat)
    requires i < j <= |gs|
    ensures Offset(gs, i) + |gs[i]| <= Offset(gs, j)
  {
    assert gs[..i + 1] == gs[..i] + [gs[i]];
    FlattenSnoc(gs[..i], gs[i]);
    if i + 1 < j {
      assert gs[..j] == gs[..i + 1] + gs[i + 1..j];
      FlattenConcat(gs[..i + 1], gs[i + 1..j]);
    }
  }

  /** Group i holding only the row, its line comes right after the groups
      before it and carries the marker of that position. */
  lemma PlainRowLands(gs: seq<seq<Line>>, row: Line, i: nat)
    requires i < |gs| && gs[i] == [row]
    ensures var out := Enumerate(Flatten(gs));
            && Offset(gs, i) < |out|
            && out[Offset(gs, i)] == if Offset(gs, i) == 0 then row else Marker(Offset(gs, i)) + row
  {
    var flat := Flatten(gs);
    FlattenAt(gs, i, 0);
    EnumerateIndex(flat, Offset(gs, i));
  }

  /** The SpriteSet marker in front of every ordering stays unprefixed. */
  lemma MarkerRowUnprefixed(rows: seq<Line>)
    requires ExpandSpriteSet(rows).Ok? && |rows| > 0 && !Contains(rows[0], ChildToken)
    ensures |ExpandSpriteSet(rows).value| > 0 && ExpandSpriteSet(rows).value[0] == rows[0]
  {
    GroupsAt(rows);
    RowLinesCases(rows[0]);
    var gs := Groups(rows).value;
    assert gs[0] == [rows[0]];
    FlattenAt(gs, 0, 0);
    assert gs[..0] == [];
    EnumerateAt(Flatten(gs));
    assert Flatten(gs)[0] == rows[0];
  }

  // ---------------------------------------------------------------------
  // The imperative original.

  lemma IndentSpaces(num: nat)
    ensures "    " + Spaces(num * 2) == Spaces(4 + num * 2)
  {
  }

  /** The line the position loop appends at pos_idx = k. */
  lemma InnerLine(row: Line, pos: seq<(nat, nat)>, k: nat)
    requires ValidPositions(row, pos) && k + 1 < |pos|
    ensures var newRow := row[pos[k].0..pos[k + 1].0];
            var num := Count(row[pos[k].0..pos[k].1], 'c');
            Render(PieceAt(row, pos, k))
            == if Contains(newRow, ChildToken) && newRow[0] == 'c'
               then "    " + Spaces(num * 2) + newRow + "\n"
               else newRow + "\n"
  {
    var newRow := row[pos[k].0..pos[k + 1].0];
    var num := Count(row[pos[k].0..pos[k].1], 'c');
    IndentSpaces(num);
    assert Spaces(0) == [];
  }

  /** The line appended after the loop, for the last position. */
  lemma FinalLine(row: Line, pos: seq<(nat, nat)>)
    requires ValidPositions(row, pos)
    ensures var k := |pos| - 1;
            var num := Count(row[pos[k].0..pos[k].1], 'c');
            Render(PieceAt(row, pos, k)) == "    " + Spaces(num * 2) + row[pos[k].0..]
  {
    var k := |pos| - 1;
    var num := Count(row[pos[k].0..pos[k].1], 'c');
    IndentSpaces(num);
    assert row[pos[k].0..SegmentEnd(row, pos, k)] == row[pos[k].0..];
  }

  /** The first j lines the position loop produces, in order. */
  function PieceLines(row: Line, pos: seq<(nat, nat)>, j: nat): (r: seq<Line>)
    requires ValidPositions(row, pos) && j <= |pos|
    ensures |r| == j
  {
    if j == 0 then [] else PieceLines(row, pos, j - 1) + [Render(PieceAt(row, pos, j - 1))]
  }

  lemma {:induction false} PieceLinesAt(row: Line, pos: seq<(nat, nat)>, j: nat, k: nat)
    requires ValidPositions(row, pos) && k < j <= |pos|
    ensures PieceLines(row, pos, j)[k] == Render(PieceAt(row, pos, k))
  {
    var front := PieceLines(row, pos, j - 1);
    var last := Render(PieceAt(row, pos, j - 1));
    assert PieceLines(row, pos, j) == front + [last];
    if k < j - 1 {
      PieceLinesAt(row, pos, j - 1, k);
      assert (front + [last])[k] == front[k];
    }
  }

  /** A split row's lines are the lines of all its positions. */
  lemma SplitRowLines(row: Line)
    requires Contains(row, ChildToken) && Scan(row, 0) != []
    ensures ValidPositions(row, Positions(Scan(row, 0)))
    ensures RowLines(row) == Ok(PieceLines(row, Positions(Scan(row, 0)), |Positions(Scan(row, 0))|))
  {
    RowLinesCases(row);
    var pos := Positions(Scan(row, 0));
    var a := RowLines(row).value;
    var b := PieceLines(row, pos, |pos|);
    assert |a| == |b|;
    forall k | 0 <= k < |a| ensures a[k] == b[k] {
      PieceLinesAt(row, pos, |pos|, k);
      assert a[k] == Render(PieceAt(row, pos, k));
    }
    assert a == b;
  }

  /** One more row: its group is appended, or its IndexError surfaces. */
  lemma GroupsStep(rows: seq<Line>, i: nat)
    requires i < |rows| && Groups(rows[..i]).Ok?
    ensures RowLines(rows[i]).Ok? ==>
              Groups(rows[..i + 1]) == Ok(Groups(rows[..i]).value + [RowLines(rows[i]).value])
    ensures RowLines(rows[i]).Err? ==> Groups(rows[..i + 1]).Err?
  {
    assert rows[..i + 1][..i] == rows[..i];
  }

  lemma FlattenSnoc<T>(gs: seq<seq<T>>, g: seq<T>)
    ensures Flatten(gs + [g]) == Flatten(gs) + g
  {
    assert (gs + [g])[..|gs|] == gs;
  }

  /** The body of preappend_spriteset's first loop for one row: the row
      itself, IndexError at `positions[0]`, or the row split at its matches. */
  method ExpandRow(spritesetRow: Line) returns (r: Result<seq<Line>>)
    ensures r == RowLines(spritesetRow)
  {
    if !Contains(spritesetRow, ChildToken) {
      RowLinesCases(spritesetRow);
      return Ok([spritesetRow]);
    }
    var positions := Scan(spritesetRow, 0);
    if |positions| == 0 {
      return Err(IndexError);
    }
    SplitRowLines(spritesetRow);
    var firstEnd := positions[0].1;
    positions := [(0, firstEnd)] + positions;
    var lines: seq<Line> := [];
    for posIdx := 0 to |positions| - 1
      invariant lines == PieceLines(spritesetRow, positions, posIdx)
    {
      var newRow := spritesetRow[positions[posIdx].0..positions[posIdx + 1].0];
      var numSpacesInChildRow := Count(spritesetRow[positions[posIdx].0..positions[posIdx].1], 'c');
      var newChildRow;
      if Contains(newRow, ChildToken) && newRow[0] == 'c' {
        newChildRow := "    " + Spaces(numSpacesInChildRow * 2) + newRow + "\n";
      } else {
        newChildRow := newRow + "\n";
      }
      InnerLine(spritesetRow, positions, posIdx);
      lines := lines + [newChildRow];
    }
    var last := |positions| - 1;
    var finalSubrow := spritesetRow[positions[last].0..];
    var numSpacesInChildRow := Count(spritesetRow[positions[last].0..positions[last].1], 'c');
    var newChildRow := "    " + Spaces(numSpacesInChildRow * 2) + finalSubrow;
    FinalLine(spritesetRow, positions);
    lines := lines + [newChildRow];
    return Ok(lines);
  }

  /** preappend_spriteset: unravel the hierarchy into a new list by appends,
      then enumerate that list. */
  method PreappendSpriteset(spritePermutationLst: seq<Line>) returns (r: Result<seq<Line>>)
    ensures r == ExpandSpriteSet(spritePermutationLst)
  {
    var newPermutationLst: seq<Line> := [];
    for i := 0 to |spritePermutationLst|
      invariant Groups(spritePermutationLst[..i]).Ok?
      invariant newPermutationLst == Flatten(Groups(spritePermutationLst[..i]).value)
    {
      GroupsStep(spritePermutationLst, i);
      var lines := ExpandRow(spritePermutationLst[i]);
      if lines.Err? {
        GroupsAt(spritePermutationLst);
        return Err(IndexError);
      }
      FlattenSnoc(Groups(spritePermutationLst[..i]).value, lines.value);
      newPermutationLst := newPermutationLst + lines.value;
    }
    assert spritePermutationLst[..|spritePermutationLst|] == spritePermutationLst;
    newPermutationLst := EnumerateRows(newPermutationLst);
    return Ok(newPermutationLst);
  }
}
