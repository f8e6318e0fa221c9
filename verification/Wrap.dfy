/** Words, hyphenation points and the splitting of a word wider than its line
    (typeset/wrap/wrap.go), measured in monospace: one unit a rune, one a space, and no hang or
    shrink. */
module Wrap {
  // A token and the points at which a hyphenator lets a line end inside it; prefix is the width
  // of the line end at each of the first points, as many as stay within the word's limit.
  datatype Word = Word(text: string, points: seq<nat>, prefix: seq<nat>, limit: nat)

  ghost predicate Ascending(points: seq<nat>) { forall i, j :: 0 <= i < j < |points| ==> points[i] < points[j] }

  // A hyphenator's contract: ascending points, each strictly inside the word.
  ghost predicate PointsOk(text: string, points: seq<nat>) {
    Ascending(points) && forall i :: 0 <= i < |points| ==> 0 < points[i] < |text|
  }

  // hyphened: the line end a break at rune cut sets, an explicit hyphen used again.
  function Hyphened(r: string, cut: nat): (s: string)
    requires 0 < cut <= |r|
    ensures |s| == cut + if r[cut - 1] == '-' then 0 else 1
  {
    if r[cut - 1] == '-' then r[..cut] else r[..cut] + "-"
  }

  ghost predicate Measured(w: Word) {
    && PointsOk(w.text, w.points)
    && |w.prefix| <= |w.points|
    && (forall i :: 0 <= i < |w.prefix| ==> w.prefix[i] == |Hyphened(w.text, w.points[i])|)
    && forall i :: |w.prefix| <= i < |w.points| ==> |Hyphened(w.text, w.points[i])| > w.limit
  }

  // measure: prefixes only grow, so none after one past the limit fits a line.
  method Measure(text: string, points: seq<nat>, limit: nat) returns (w: Word)
    requires PointsOk(text, points)
    ensures w.text == text && w.points == points && w.limit == limit && Measured(w)
  {
    var prefix: seq<nat> := [];
    var i := 0;
    while i < |points|
      invariant i <= |points| && |prefix| == i
      invariant forall k :: 0 <= k < i ==> prefix[k] == |Hyphened(text, points[k])|
    {
      var pw := |Hyphened(text, points[i])|;
      if pw > limit {
        forall k | i < k < |points|
          ensures |Hyphened(text, points[k])| >= pw
        {
          assert points[i] < points[k];
        }
        break;
      }
      prefix := prefix + [pw];
      i := i + 1;
    }
    return Word(text, points, prefix, limit);
  }

  // from: the suffix from rune cut on; a point stays if it leaves two runes before it.
  function Shifted(points: seq<nat>, cut: nat): seq<nat> {
    if points == [] then []
    else if points[0] >= cut + 2 then [points[0] - cut] + Shifted(points[1..], cut)
    else Shifted(points[1..], cut)
  }

  lemma {:induction false} ShiftedIs(points: seq<nat>, cut: nat)
    ensures forall q :: q in Shifted(points, cut) <==> q >= 2 && q + cut in points
    decreases |points|
  {
    if points != [] {
      ShiftedIs(points[1..], cut);
      assert points == [points[0]] + points[1..];
    }
  }

  lemma {:induction false} ShiftedAscending(points: seq<nat>, cut: nat)
    requires Ascending(points)
    ensures Ascending(Shifted(points, cut))
    decreases |points|
  {
    if points != [] {
      var rest := Shifted(points[1..], cut);
      ShiftedAscending(points[1..], cut);
      ShiftedIs(points[1..], cut);
      forall i | 0 <= i < |rest|
        ensures rest[i] + cut > points[0]
      {
        assert rest[i] in rest;
        var k :| 0 <= k < |points[1..]| && points[1..][k] == rest[i] + cut;
      }
    }
  }

  lemma {:induction false} ShiftedOk(text: string, points: seq<nat>, cut: nat)
    requires PointsOk(text, points) && cut <= |text|
    ensures PointsOk(text[cut..], Shifted(points, cut))
  {
    var rest := Shifted(points, cut);
    ShiftedAscending(points, cut);
    ShiftedIs(points, cut);
    forall i | 0 <= i < |rest|
      ensures 0 < rest[i] < |text| - cut
    {
      assert rest[i] in rest;
    }
  }

  method Shift(points: seq<nat>, cut: nat) returns (shifted: seq<nat>)
    ensures shifted == Shifted(points, cut)
  {
    shifted := [];
    var i := 0;
    while i < |points|
      invariant i <= |points| && shifted + Shifted(points[i..], cut) == Shifted(points, cut)
    {
      var p := points[i];
      assert points[i..][1..] == points[i + 1..];
      if p >= cut + 2 { shifted := shifted + [p - cut]; }
      i := i + 1;
    }
    assert points[i..] == [];
  }

  method Suffix(w: Word, cut: nat) returns (s: Word)
    requires Measured(w) && cut <= |w.text|
    ensures Measured(s) && s.text == w.text[cut..] && s.points == Shifted(w.points, cut) && s.limit == w.limit
  {
    var points := Shift(w.points, cut);
    ShiftedOk(w.text, w.points, cut);
    s := Measure(w.text[cut..], points, w.limit);
  }

  // ---------- the longest prefix that fits ----------

  // fitRunes, under any measurer whose prefixes only grow: it gallops, then bisects.
  method FitRunes(width: string -> int, r: string, lw: int) returns (n: nat)
    requires forall j, k :: 0 <= j <= k <= |r| ==> width(r[..j]) <= width(r[..k])
    ensures n <= |r| && (n > 0 ==> width(r[..n]) <= lw)
    ensures forall k :: n < k <= |r| ==> width(r[..k]) > lw
  {
    var lo: nat, hi: nat := 0, 1;
    while hi <= |r| && width(r[..hi]) <= lw
      invariant lo < hi && lo <= |r| && (lo > 0 ==> width(r[..lo]) <= lw)
      decreases |r| - lo
    {
      lo, hi := hi, 2 * hi;
    }
    if hi > |r| + 1 { hi := |r| + 1; }
    while hi - lo > 1
      invariant lo < hi <= |r| + 1 && (lo > 0 ==> width(r[..lo]) <= lw)
      invariant hi <= |r| ==> width(r[..hi]) > lw
      decreases hi - lo
    {
      var mid := (lo + hi) / 2;
      if width(r[..mid]) <= lw { lo := mid; } else { hi := mid; }
    }
    forall k | lo < k <= |r|
      ensures width(r[..k]) > lw
    {
      assert width(r[..hi]) <= width(r[..k]);
    }
    n := lo;
  }

  function Mono(s: string): int { |s| }

  method FitMono(r: string, lw: nat) returns (n: nat)
    ensures n == if |r| <= lw then |r| else lw
  {
    n := FitRunes(Mono, r, lw);
    assert n < |r| ==> Mono(r[..n + 1]) > lw;
  }

  // ---------- splitting a word wider than its line ----------

  // What ended a line: a whole word, or part of one and the hyphen the break added or not.
  datatype End = Whole | Cut(added: bool)

  // A piece of split: the runes of text from o up to cut, as the line shows them.
  ghost predicate PieceOf(text: string, o: nat, cut: nat, piece: string, end: End) {
    && o < cut < |text|
    && end.Cut? && piece == text[o..cut] + if end.added then "-" else ""
  }

  // The width of a line end at point p of text, set from rune o on.
  function EndWidth(text: string, o: nat, p: nat): nat
    requires o < p <= |text|
  {
    p - o + if text[p - 1] == '-' then 0 else 1
  }

  // Point p of w may end a line of measure lw set from rune o on.
  ghost predicate Ends(w: Word, o: nat, lw: nat, p: nat) {
    p in w.points && o < p < |w.text| && EndWidth(w.text, o, p) <= lw
  }

  // The first point after rune o.
  method FirstPoint(w: Word, o: nat) returns (pi: nat)
    ensures pi <= |w.points| && (pi < |w.points| ==> w.points[pi] > o) && forall h :: 0 <= h < pi ==> w.points[h] <= o
  {
    pi := 0;
    while pi < |w.points| && w.points[pi] <= o
      invariant pi <= |w.points| && forall h :: 0 <= h < pi ==> w.points[h] <= o
    {
      pi := pi + 1;
    }
  }

  // The rightmost point that may end the line; 0 if none may.
  method RightmostPoint(w: Word, o: nat, lw: nat) returns (cut: nat)
    requires Measured(w) && o + lw < |w.text|
    ensures cut == 0 || Ends(w, o, lw, cut)
    ensures forall p: nat :: Ends(w, o, lw, p) ==> p <= cut
  {
    var pi := FirstPoint(w, o);
    cut := 0;
    var k := pi;
    while k < |w.points| && w.points[k] - o <= lw
      invariant pi <= k <= |w.points|
      invariant cut == 0 || Ends(w, o, lw, cut)
      invariant forall h :: 0 <= h < k && Ends(w, o, lw, w.points[h]) ==> w.points[h] <= cut
    {
      if EndWidth(w.text, o, w.points[k]) <= lw { cut := w.points[k]; }
      k := k + 1;
    }
  }

  // The last of the first k points that may end the line; 0 if none may.
  ghost function LastEnd(w: Word, o: nat, lw: nat, k: nat): (p: nat)
    requires k <= |w.points|
    ensures p == 0 || Ends(w, o, lw, p)
  {
    if k == 0 then 0
    else if Ends(w, o, lw, w.points[k - 1]) then w.points[k - 1]
    else LastEnd(w, o, lw, k - 1)
  }

  lemma {:induction false} LastEndIs(w: Word, o: nat, lw: nat, k: nat)
    requires k <= |w.points| && Ascending(w.points)
    ensures forall h :: 0 <= h < k && Ends(w, o, lw, w.points[h]) ==> w.points[h] <= LastEnd(w, o, lw, k)
  {
    if k > 0 { LastEndIs(w, o, lw, k - 1); }
  }

  // Where split ends a piece from rune o on a line of lw: at the rightmost point that may end it,
  // or as far as it fits.
  ghost function CutAt(w: Word, o: nat, lw: nat): nat {
    var p := LastEnd(w, o, lw, |w.points|);
    if p > 0 then p else o + lw
  }

  // The last point that may end the line is the rightmost.
  lemma {:induction false} LastEndAt(w: Word, o: nat, lw: nat, cut: nat)
    requires Measured(w) && (cut == 0 || Ends(w, o, lw, cut)) && forall p: nat :: Ends(w, o, lw, p) ==> p <= cut
    ensures LastEnd(w, o, lw, |w.points|) == cut
  {
    LastEndIs(w, o, lw, |w.points|);
    if cut > 0 {
      var h :| 0 <= h < |w.points| && w.points[h] == cut;
      assert LastEnd(w, o, lw, |w.points|) >= cut;
    }
  }

  // The piece set from rune o on: up to that point, hyphened, or all that fits.
  ghost function PieceAt(w: Word, o: nat, lw: nat): string
    requires o + lw < |w.text|
  {
    var p := LastEnd(w, o, lw, |w.points|);
    if p > 0 then Hyphened(w.text[o..], p - o) else w.text[o..o + lw]
  }

  lemma {:induction false} PieceAtPoint(w: Word, o: nat, lw: nat, cut: nat, piece: string, end: End)
    requires Measured(w) && o + lw < |w.text| && Ends(w, o, lw, cut) && forall p: nat :: Ends(w, o, lw, p) ==> p <= cut
    requires piece == Hyphened(w.text[o..], cut - o) && end == Cut(w.text[cut - 1] != '-')
    ensures PieceOf(w.text, o, cut, piece, end) && 0 < |piece| <= lw
    ensures piece == PieceAt(w, o, lw) && cut == CutAt(w, o, lw)
  {
    LastEndAt(w, o, lw, cut);
    assert w.text[o..][..cut - o] == w.text[o..cut];
  }

  lemma {:induction false} PieceAnywhere(w: Word, o: nat, lw: nat, cut: nat, piece: string, end: End)
    requires Measured(w) && 0 < lw && o + lw < |w.text| && forall p: nat :: Ends(w, o, lw, p) ==> p <= 0
    requires cut == o + lw && piece == w.text[o..cut] && end == Cut(false)
    ensures PieceOf(w.text, o, cut, piece, end) && 0 < |piece| <= lw
    ensures piece == PieceAt(w, o, lw) && cut == CutAt(w, o, lw)
  {
    LastEndAt(w, o, lw, 0);
  }

  // One piece of split: up to the rightmost point that may end the line, or failing one cut at
  // the longest prefix that fits.
  method Piece(w: Word, o: nat, n: nat, lw: nat) returns (piece: string, cut: nat, ghost end: End)
    requires Measured(w) && n == lw > 0 && o + lw < |w.text|
    ensures PieceOf(w.text, o, cut, piece, end) && 0 < |piece| <= lw
    ensures forall p: nat :: Ends(w, o, lw, p) ==> p <= cut && Ends(w, o, lw, cut)
    ensures end.added ==> w.text[cut - 1] != '-'
    ensures (!exists p: nat :: Ends(w, o, lw, p)) ==> cut == o + lw && !end.added
    ensures piece == PieceAt(w, o, lw) && cut == CutAt(w, o, lw)
  {
    cut := RightmostPoint(w, o, lw);
    if cut == 0 {
      cut := o + if n > 1 then n else 1;
      piece, end := w.text[o..cut], Cut(false);
      PieceAnywhere(w, o, lw, cut, piece, end);
    } else {
      piece, end := Hyphened(w.text[o..], cut - o), Cut(w.text[cut - 1] != '-');
      PieceAtPoint(w, o, lw, cut, piece, end);
    }
  }

  // The pieces of text, the k-th from rune cuts[k] up to the next, and where each ends.
  ghost predicate PiecesOf(text: string, pieces: seq<string>, ends: seq<End>, cuts: seq<nat>) {
    && |ends| == |pieces| && |cuts| == |pieces| + 1 && cuts[0] == 0
    && forall k :: 0 <= k < |pieces| ==> PieceOf(text, cuts[k], cuts[k + 1], pieces[k], ends[k])
  }

  lemma {:induction false} PiecesSnoc(text: string, pieces: seq<string>, ends: seq<End>, cuts: seq<nat>,
      piece: string, end: End, cut: nat)
    requires PiecesOf(text, pieces, ends, cuts) && PieceOf(text, cuts[|pieces|], cut, piece, end)
    ensures PiecesOf(text, pieces + [piece], ends + [end], cuts + [cut])
  {
    var ps, es, cs := pieces + [piece], ends + [end], cuts + [cut];
    forall k | 0 <= k < |ps|
      ensures PieceOf(text, cs[k], cs[k + 1], ps[k], es[k])
    {
      if k < |pieces| { assert PieceOf(text, cuts[k], cuts[k + 1], pieces[k], ends[k]); }
    }
  }

  // Where what split leaves of w begins.
  ghost function SplitRest(w: Word, o: nat, lw: nat, width: nat): nat
    requires lw > 0 && width > 0
    decreases |w.text| - o
  {
    if |w.text| <= o + lw then o else SplitRest(w, CutAt(w, o, lw), width, width)
  }

  lemma {:induction false} SplitLeaves(w: Word, o: nat, lw: nat, width: nat)
    requires 0 < lw <= width && o <= |w.text|
    ensures SplitRest(w, o, lw, width) <= |w.text| && |w.text| - SplitRest(w, o, lw, width) <= width
    decreases |w.text| - o
  {
    if |w.text| > o + lw { SplitLeaves(w, CutAt(w, o, lw), width, width); }
  }

  // The pieces split makes.
  ghost function SplitPieces(w: Word, o: nat, lw: nat, width: nat): seq<string>
    requires lw > 0 && width > 0
    decreases |w.text| - o
  {
    if |w.text| <= o + lw then [] else [PieceAt(w, o, lw)] + SplitPieces(w, CutAt(w, o, lw), width, width)
  }

  lemma {:induction false} SplitStep(w: Word, o: nat, lw: nat, width: nat, piece: string, cut: nat)
    requires lw > 0 && width > 0 && o + lw < |w.text| && piece == PieceAt(w, o, lw) && cut == CutAt(w, o, lw)
    ensures SplitRest(w, o, lw, width) == SplitRest(w, cut, width, width)
    ensures SplitPieces(w, o, lw, width) == [piece] + SplitPieces(w, cut, width, width)
  {
  }

  // A prefix of the pieces, and the one after it.
  lemma {:induction false} SplitGrows(pieces: seq<string>, piece: string, left: seq<string>, more: seq<string>,
      all: seq<string>)
    requires pieces + left == all && left == [piece] + more
    ensures pieces + [piece] + more == all
  {
  }

  // split, its line-filling pieces first set on `first`, the others on width; it stops at a
  // remainder that is no wider than a line.
  method Split(w: Word, first: nat, width: nat)
      returns (pieces: seq<string>, rest: nat, ghost ends: seq<End>, ghost cuts: seq<nat>)
    requires Measured(w) && 0 < first <= width
    ensures PiecesOf(w.text, pieces, ends, cuts) && rest == cuts[|pieces|] <= |w.text|
    ensures |w.text| - rest <= (if pieces == [] then first else width) && rest == SplitRest(w, 0, first, width)
    ensures pieces == [] <==> |w.text| <= first
    ensures forall k :: 0 <= k < |pieces| ==> 0 < |pieces[k]| <= if k == 0 then first else width
    ensures pieces == SplitPieces(w, 0, first, width)
  {
    pieces, rest, ends, cuts := [], 0, [], [0];
    var lw := first;
    ghost var all, left, last := SplitPieces(w, 0, first, width), SplitPieces(w, 0, first, width),
        SplitRest(w, 0, first, width);
    while |w.text| - rest > 1
      invariant rest <= |w.text| && lw == (if pieces == [] then first else width) && (pieces != [] ==> |w.text| > first)
      invariant PiecesOf(w.text, pieces, ends, cuts) && rest == cuts[|pieces|]
      invariant forall k :: 0 <= k < |pieces| ==> 0 < |pieces[k]| <= if k == 0 then first else width
      invariant SplitRest(w, rest, lw, width) == last && left == SplitPieces(w, rest, lw, width) && pieces + left == all
      decreases |w.text| - rest
    {
      var n := FitMono(w.text[rest..], lw);
      if n == |w.text| - rest { break; }
      var piece, cut, end := Piece(w, rest, n, lw);
      PiecesSnoc(w.text, pieces, ends, cuts, piece, end, cut);
      SplitStep(w, rest, lw, width, piece, cut);
      SplitGrows(pieces, piece, left, SplitPieces(w, cut, width, width), all);
      left := SplitPieces(w, cut, width, width);
      pieces, ends, cuts := pieces + [piece], ends + [end], cuts + [cut];
      rest, lw := cut, width;
    }
  }
}
