/** The loop of breakLines as a machine (typeset/wrap/wrap.go), and exactly when it ends. */
module WrapTurns {
  import opened Wrap
  import opened WrapText

  // The words as far as they decide a split, where the loop stands, and the lines so far.
  datatype Loop = Loop(words: seq<Word>, i: nat, lines: seq<Line>)

  function Strip(w: Word): Word { Word(w.text, w.points, [], 0) }

  ghost function Stripped(ws: seq<Word>): (r: seq<Word>)
    ensures |r| == |ws| && forall k :: 0 <= k < |r| ==> r[k] == Strip(ws[k])
  {
    seq(|ws|, k requires 0 <= k < |ws| => Strip(ws[k]))
  }

  // The suffix of w from rune cut on.
  function SuffixOf(w: Word, cut: nat): Word
    requires cut <= |w.text|
  {
    Word(w.text[cut..], Shifted(w.points, cut), [], 0)
  }

  function PieceLines(pieces: seq<string>): (lines: seq<Line>)
    ensures |lines| == |pieces| && forall k :: 0 <= k < |lines| ==> lines[k] == Line([pieces[k]], |pieces[k]|)
  {
    seq(|pieces|, k requires 0 <= k < |pieces| => Line([pieces[k]], |pieces[k]|))
  }

  // The measure of the line that starts at word i.
  function Narrow(i: nat, first: nat, width: nat): nat { if i == 0 then first else width }

  // A turn at a word wider than its line: its pieces become lines, and what is left takes its place.
  // The first piece goes on the first line's measure only when there is no line yet.
  ghost function SplitAt(s: Loop, first: nat, width: nat): Loop
    requires s.i < |s.words| && 0 < first <= width
  {
    var w, lw := s.words[s.i], if s.lines == [] then first else width;
    SplitLeaves(w, 0, lw, width);
    Loop(s.words[s.i := SuffixOf(w, SplitRest(w, 0, lw, width))], s.i,
        s.lines + PieceLines(SplitPieces(w, 0, lw, width)))
  }

  // A turn at a word that fits: one more line, ending before or inside word t.i.
  ghost predicate LineTaken(s: Loop, t: Loop)
    requires s.i < |s.words|
  {
    && s.i < t.i <= |s.words| == |t.words|
    && |t.lines| == |s.lines| + 1 && s.lines <= t.lines
    && forall k :: 0 <= k < |s.words| && k != t.i ==> t.words[k] == s.words[k]
  }

  // One turn of the loop.
  ghost predicate Turned(s: Loop, t: Loop, first: nat, width: nat)
    requires 0 < first <= width
  {
    s.i < |s.words| && if |s.words[s.i].text| > Narrow(s.i, first, width) then t == SplitAt(s, first, width)
        else LineTaken(s, t)
  }

  ghost predicate IsRun(states: seq<Loop>, first: nat, width: nat)
    requires 0 < first <= width
  {
    states != [] && forall k :: 0 <= k < |states| - 1 ==> Turned(states[k], states[k + 1], first, width)
  }

  lemma {:induction false} RunMore(states: seq<Loop>, next: Loop, first: nat, width: nat)
    requires 0 < first <= width && IsRun(states, first, width) && Turned(states[|states| - 1], next, first, width)
    ensures IsRun(states + [next], first, width)
  {
  }

  // Under a narrower first line, the remainder of a split first word is planned on that line
  // again but split on the wider one: a remainder between the two gets no further.
  ghost predicate Stuck(w: Word, first: nat, width: nat)
    requires first > 0 && width > 0
  {
    |w.text| > first && |w.text| - SplitRest(w, 0, first, width) > first
  }

  // The loop's start.
  ghost predicate Starts(s: Loop) {
    s.words != [] && s.i == 0 && s.lines == [] && PointsOk(s.words[0].text, s.words[0].points)
  }

  // ---------- a stuck first word ----------

  lemma {:induction false} ShiftedTwo(points: seq<nat>, cut: nat)
    ensures forall k :: 0 <= k < |Shifted(points, cut)| ==> Shifted(points, cut)[k] >= 2
    decreases |points|
  {
    if points != [] { ShiftedTwo(points[1..], cut); }
  }

  lemma {:induction false} ShiftedNone(points: seq<nat>)
    requires forall k :: 0 <= k < |points| ==> points[k] >= 2
    ensures Shifted(points, 0) == points
    decreases |points|
  {
    if points != [] { ShiftedNone(points[1..]); }
  }

  // A word already split once, still wider than the first line but no wider than the others, is not
  // changed by another turn, which adds no line.
  lemma {:induction false} Stands(s: Loop, first: nat, width: nat)
    requires 0 < first <= width && s.i == 0 < |s.words| && s.lines != [] && |s.words[0].text| <= width
    requires s.words[0] == Strip(s.words[0]) && forall k :: 0 <= k < |s.words[0].points| ==> s.words[0].points[k] >= 2
    ensures SplitAt(s, first, width) == s
  {
    var w := s.words[0];
    ShiftedNone(w.points);
    assert w.text[0..] == w.text && SuffixOf(w, 0) == w;
    assert s.words[0 := w] == s.words && PieceLines([]) == [] && s.lines + [] == s.lines;
  }

  lemma {:induction false} FirstSplit(s: Loop, first: nat, width: nat)
    requires 0 < first <= width && Starts(s) && Stuck(s.words[0], first, width)
    ensures var t := SplitAt(s, first, width);
            && t.i == 0 < |t.words| && t.lines != [] && first < |t.words[0].text| <= width
                && SplitAt(t, first, width) == t
  {
    var w := s.words[0];
    var t := SplitAt(s, first, width);
    SplitLeaves(w, 0, first, width);
    ShiftedTwo(w.points, SplitRest(w, 0, first, width));
    Stands(t, first, width);
  }

  // Whatever turns follow the first, they change nothing: the loop stands at word 0 for good.
  lemma {:induction false} StuckForever(states: seq<Loop>, first: nat, width: nat, k: nat)
    requires 0 < first <= width && IsRun(states, first, width) && Starts(states[0])
             && Stuck(states[0].words[0], first, width)
    requires 1 <= k < |states|
    ensures states[k] == states[1] == SplitAt(states[0], first, width) && states[k].i == 0 < |states[k].words|
    decreases k
  {
    FirstSplit(states[0], first, width);
    assert Turned(states[0], states[1], first, width);
    if k > 1 {
      StuckForever(states, first, width, k - 1);
      assert Turned(states[k - 1], states[k - 1 + 1], first, width);
    }
  }

  // The run of n turns from a stuck start.
  ghost function Stall(s: Loop, n: nat, first: nat, width: nat): (states: seq<Loop>)
    requires s.i < |s.words| && 0 < first <= width
    ensures |states| == n + 1 && states[0] == s && forall k :: 1 <= k <= n ==> states[k] == SplitAt(s, first, width)
  {
    [s] + seq(n, _ => SplitAt(s, first, width))
  }

  lemma {:induction false} StallRuns(s: Loop, n: nat, first: nat, width: nat)
    requires 0 < first <= width && Starts(s) && Stuck(s.words[0], first, width)
    ensures IsRun(Stall(s, n, first, width), first, width)
  {
    FirstSplit(s, first, width);
    var states := Stall(s, n, first, width);
    forall k | 0 <= k < |states| - 1
      ensures Turned(states[k], states[k + 1], first, width)
    {
    }
  }

  // ---------- a first word that does not get stuck ----------

  predicate Wide(s: Loop, first: nat, width: nat) { s.i < |s.words| && |s.words[s.i].text| > Narrow(s.i, first, width) }

  // How many turns may be left.
  function Rank(s: Loop, first: nat, width: nat): int { 2 * (|s.words| - s.i) + if Wide(s, first, width) then 1 else 0 }

  // Still at the first word: as it was, or split already and no wider than the first line.
  ghost predicate Free(s: Loop, w: Word, first: nat, width: nat) {
    s.i <= |s.words| && if s.i == 0 < |s.words| then (s.lines == [] && s.words[0] == w)
        || (s.lines != [] && |s.words[0].text| <= first) else s.lines != []
  }

  lemma {:induction false} TurnsDown(s: Loop, t: Loop, w: Word, first: nat, width: nat)
    requires 0 < first <= width && Turned(s, t, first, width) && Free(s, w, first, width) && !Stuck(w, first, width)
    ensures Free(t, w, first, width) && |t.words| == |s.words| && Rank(t, first, width) < Rank(s, first, width)
  {
    if Wide(s, first, width) {
      SplitLeaves(s.words[s.i], 0, if s.lines == [] then first else width, width);
    }
  }

  lemma {:induction false} RunsDown(states: seq<Loop>, first: nat, width: nat, k: nat)
    requires 0 < first <= width && IsRun(states, first, width) && Starts(states[0])
             && !Stuck(states[0].words[0], first, width)
    requires k < |states|
    ensures Free(states[k], states[0].words[0], first, width) && |states[k].words| == |states[0].words|
    ensures Rank(states[k], first, width) + k <= 2 * |states[0].words| + 1
    decreases k
  {
    if k > 0 {
      RunsDown(states, first, width, k - 1);
      assert Turned(states[k - 1], states[k - 1 + 1], first, width);
      TurnsDown(states[k - 1], states[k], states[0].words[0], first, width);
    }
  }

  // The loop ends, within two turns a word and one more, exactly when its first word does not get
  // stuck; from a stuck one there is a run of any length.
  lemma {:induction false} EndsExactly(s: Loop, first: nat, width: nat)
    requires 0 < first <= width && Starts(s)
    ensures !Stuck(s.words[0], first, width) <==>
              forall states: seq<Loop> :: IsRun(states, first, width) && states[0] == s ==>
                  |states| <= 2 * |s.words| + 2
  {
    if Stuck(s.words[0], first, width) {
      StallRuns(s, 2 * |s.words| + 2, first, width);
      assert IsRun(Stall(s, 2 * |s.words| + 2, first, width), first, width);
    } else {
      forall states: seq<Loop> | IsRun(states, first, width) && states[0] == s
        ensures |states| <= 2 * |s.words| + 2
      {
        RunsDown(states, first, width, |states| - 1);
      }
    }
  }
}
