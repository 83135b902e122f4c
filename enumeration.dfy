/** Positional markers "1)", "2)", ... in front of every row
    after the first (preappend_enum, get_vgdl_component_lst, and the last
    loop of preappend_spriteset in src/gen_data.py). */
module Enumeration {
  import opened Seqs
  import opened Slicing

  /** f"{idx})" */
  function Marker(i: nat): string
  {
    Decimal(i) + ")"
  }

  /** The list after the enumeration loop: row 0 as it was, row i >= 1 with
      Marker(i) in front. Built one row at a time, as the loop does. */
  function Enumerate(rows: seq<Line>): (r: seq<Line>)
    ensures |r| == |rows|
  {
    if rows == [] then []
    else
      var n := |rows| - 1;
      Enumerate(rows[..n]) + [if n == 0 then rows[n] else Marker(n) + rows[n]]
  }

  /** What the loop leaves at one position. */
  lemma {:induction false} EnumerateIndex(rows: seq<Line>, i: nat)
    requires i < |rows|
    ensures Enumerate(rows)[i] == if i == 0 then rows[0] else Marker(i) + rows[i]
  {
    var n := |rows| - 1;
    if i < n {
      EnumerateIndex(rows[..n], i);
      assert rows[..n][i] == rows[i];
    }
  }

  /** What the loop promises, position by position. */
  lemma EnumerateAt(rows: seq<Line>)
    ensures |Enumerate(rows)| == |rows|
    ensures forall i :: 0 <= i < |rows| ==>
              Enumerate(rows)[i] == if i == 0 then rows[0] else Marker(i) + rows[i]
  {
    forall i | 0 <= i < |rows| {
      EnumerateIndex(rows, i);
    }
  }

  /** The inverse: dropping the marker of every row after the first. */
  function Unenumerate(lines: seq<Line>): (r: seq<Line>)
    ensures |r| == |lines|
  {
    seq(|lines|, i requires 0 <= i < |lines| =>
      if i == 0 || |lines[i]| < |Marker(i)| then lines[i] else lines[i][|Marker(i)|..])
  }

  lemma EnumerateRoundTrip(rows: seq<Line>)
    ensures Unenumerate(Enumerate(rows)) == rows
  {
    EnumerateAt(rows);
    var e := Enumerate(rows);
    forall i | 0 <= i < |rows| ensures Unenumerate(e)[i] == rows[i] {
      if i > 0 {
        assert e[i] == Marker(i) + rows[i];
        assert e[i][|Marker(i)|..] == rows[i];
      }
    }
  }

  /** The marker in front of row i reads back as i (so the markers count up
      from 1 with no gap). */
  lemma MarkerNamesPosition(rows: seq<Line>, i: nat)
    requires 1 <= i < |rows|
    ensures |Decimal(i)| < |Enumerate(rows)[i]|
    ensures Enumerate(rows)[i][|Decimal(i)|] == ')'
    ensures ParseDecimal(Enumerate(rows)[i][..|Decimal(i)|]) == i
  {
    EnumerateAt(rows);
    DecimalRoundTrip(i);
    var e := Enumerate(rows)[i];
    assert e == Decimal(i) + ")" + rows[i];
    assert e[..|Decimal(i)|] == Decimal(i);
  }

  /** Enumerating twice is not enumerating once: the rule must be applied
      exactly once per ordering. */
  lemma EnumerateNotIdempotent(rows: seq<Line>)
    requires |rows| >= 2
    ensures Enumerate(Enumerate(rows)) != Enumerate(rows)
  {
    EnumerateAt(rows);
    EnumerateAt(Enumerate(rows));
    assert |Enumerate(Enumerate(rows))[1]| == |Marker(1)| + |Enumerate(rows)[1]|;
  }

  /** preappend_enum: rewrites the list in place and returns the same list. */
  method PreappendEnum(a: array<Line>) returns (r: array<Line>)
    modifies a
    ensures r == a
    ensures a[..] == Enumerate(old(a[..]))
  {
    var idx := 0;
    for i := 0 to a.Length
      invariant idx == i
      invariant a[..i] == Enumerate(old(a[..i]))
      invariant a[i..] == old(a[i..])
    {
      assert old(a[..i + 1])[..i] == old(a[..i]);
      if idx != 0 {
        a[i] := Marker(idx) + a[i];
      }
      assert a[..i + 1] == a[..i] + [a[i]];
      idx := idx + 1;
    }
    assert a[..] == a[..a.Length];
    assert old(a[..]) == old(a[..a.Length]);
    r := a;
  }

  /** The enumeration loop shared by get_vgdl_component_lst and
      preappend_spriteset, run over a local list. */
  method EnumerateRows(src: seq<Line>) returns (r: seq<Line>)
    ensures r == Enumerate(src)
  {
    r := src;
    var idx := 0;
    for i := 0 to |r|
      invariant idx == i && |r| == |src|
      invariant r[..i] == Enumerate(src[..i])
      invariant r[i..] == src[i..]
    {
      assert src[..i + 1][..i] == src[..i];
      if idx != 0 {
        r := r[i := Marker(idx) + r[i]];
      }
      assert r[..i + 1] == r[..i] + [r[i]];
      idx := idx + 1;
    }
    assert r == r[..|r|] && src == src[..|src|];
  }

  /** get_vgdl_component_lst: the marker-inclusive slice, enumerated. */
  method GetVgdlComponentLst(block: seq<Line>, start: Line, end: Line) returns (r: Result<seq<Line>>)
    ensures r.Ok? <==> start in block && (|end| > 0 ==> end in block)
    ensures r.Err? ==> r.error == ValueError
    ensures r.Ok? ==> r.value == Enumerate(SectionWithMarker(block, start, end).value)
  {
    var bounds := SectionBounds(block, start, end);
    if bounds.Err? {
      return Err(ValueError);
    }
    var (startIdx, endIdx) := bounds.value;
    var srcLst := PySlice(block, startIdx, endIdx);
    srcLst := EnumerateRows(srcLst);
    return Ok(srcLst);
  }
}
