/** A row being written (typeset/raster/draft.go): text put at columns in any order, and the
    canonical segments derived from what was put last. */
module RasterDraft {
  import opened Raster

  // ---------- one stretch of one background and target ----------

  ghost predicate GlyphIn(cells: seq<Cell>, lo: nat, hi: nat)
    requires hi <= |cells|
  {
    exists c :: lo <= c < hi && cells[c].glyph != ' '
  }

  // Every glyph of the columns is in the segment's foreground.
  ghost predicate Held(cells: seq<Cell>, s: Segment, stop: nat)
    requires stop <= |cells|
  {
    forall c :: s.start <= c < stop ==> cells[c].glyph == ' ' || cells[c].fg == s.fg
  }

  ghost predicate Uniform(cells: seq<Cell>, start: nat, end: nat) {
    start < end <= |cells| && forall c :: start <= c < end ==>
        cells[c].bg == cells[start].bg
        && cells[c].target == cells[start].target
  }

  // An open segment and the one opened after it.
  ghost predicate Adjoin(cells: seq<Cell>, a: Segment, b: Segment) {
    && a.start < b.start < |cells| && Held(cells, a, b.start) && GlyphIn(cells, a.start, b.start)
    && cells[b.start].glyph != ' ' && a.fg != b.fg
  }

  // The segments opened over columns start up to col; seen when the last holds a glyph.
  ghost predicate Opened(cells: seq<Cell>, segs: seq<Segment>, start: nat, col: nat, seen: bool) {
    && start < |cells| && segs != [] && segs[0].start == start <= segs[|segs| - 1].start <= col <= |cells|
    && (|segs| > 1 ==> segs[|segs| - 1].start < col)
    && (forall i :: 0 <= i < |segs| ==> segs[i].bg == cells[start].bg && segs[i].target == cells[start].target)
    && (forall i :: 0 < i < |segs| ==> Adjoin(cells, segs[i - 1], segs[i]))
    && Held(cells, segs[|segs| - 1], col)
    && (seen <==> GlyphIn(cells, segs[|segs| - 1].start, col))
    && (!seen ==> segs[|segs| - 1].fg == DEFAULT)
    && (cells[start].target != "" ==> |segs| == 1)
  }

  // A space, or a glyph in the foreground the segment has, or the first glyph of the first segment
  // setting it.
  lemma {:induction false} StepOn(cells: seq<Cell>, segs: seq<Segment>, start: nat, col: nat, seen: bool, fg: Color)
    requires Opened(cells, segs, start, col, seen) && col < |cells|
    requires var last := segs[|segs| - 1];
             if cells[col].glyph == ' ' then fg == last.fg
             else cells[col].fg == fg && (seen ==> fg == last.fg) && (!seen ==> |segs| == 1)
    ensures Opened(cells, segs[|segs| - 1 := segs[|segs| - 1].(fg := fg)], start, col + 1,
            seen || cells[col].glyph != ' ')
  {
    var n := |segs| - 1;
    var t := segs[n := segs[n].(fg := fg)];
    if fg == segs[n].fg { assert t == segs; }
    if cells[col].glyph == ' ' {
      assert GlyphIn(cells, segs[n].start, col + 1) ==> GlyphIn(cells, segs[n].start, col);
    } else if !seen {
      assert forall c :: segs[n].start <= c < col ==> cells[c].glyph == ' ';
    }
  }

  // A glyph in another foreground opens a segment.
  lemma {:induction false} StepOpen(cells: seq<Cell>, segs: seq<Segment>, start: nat, col: nat, s: Segment)
    requires Opened(cells, segs, start, col, true) && col < |cells| && cells[start].target == ""
    requires cells[col].glyph != ' ' && cells[col].fg != segs[|segs| - 1].fg
    requires s.start == col && s.fg == cells[col].fg && s.bg == cells[start].bg && s.target == ""
    ensures Opened(cells, segs + [s], start, col + 1, true)
  {
    assert Adjoin(cells, segs[|segs| - 1], s);
    assert GlyphIn(cells, s.start, col + 1);
  }

  // Only a first segment can be without a glyph.
  lemma {:induction false} UnseenIsFirst(cells: seq<Cell>, segs: seq<Segment>, start: nat, col: nat, seen: bool)
    requires Opened(cells, segs, start, col, seen)
    ensures |segs| > 1 ==> seen
  {
    var n := |segs| - 1;
    if n > 0 {
      assert Adjoin(cells, segs[n - 1], segs[n]);
      assert GlyphIn(cells, segs[n].start, col);
    }
  }

  // ---------- the segments closed ----------

  function Glyphs(cells: seq<Cell>): (s: string)
    ensures |s| == |cells| && forall c :: 0 <= c < |s| ==> s[c] == cells[c].glyph
  {
    seq(|cells|, c requires 0 <= c < |cells| => cells[c].glyph)
  }

  // Where the i-th of the open segments ends.
  function StopOf(open: seq<Segment>, i: nat, end: nat): nat
    requires i < |open|
  {
    if i + 1 < |open| then open[i + 1].start else end
  }

  ghost predicate ClosedAt(cells: seq<Cell>, open: seq<Segment>, segs: seq<Segment>, end: nat, i: nat) {
    && i < |open| && i < |segs| && open[i].start <= StopOf(open, i, end) <= |cells|
    && segs[i] == open[i].(end := StopOf(open, i, end), text := Glyphs(cells)[open[i].start..StopOf(open, i, end)])
  }

  ghost predicate ClosedAs(cells: seq<Cell>, open: seq<Segment>, segs: seq<Segment>, end: nat) {
    |segs| == |open| && forall i: nat :: i < |segs| ==> ClosedAt(cells, open, segs, end, i)
  }

  // One more of the open segments closed.
  lemma {:induction false} ClosedStep(cells: seq<Cell>, open: seq<Segment>, segs: seq<Segment>, end: nat, i: nat,
      next: seq<Segment>)
    requires i < |segs| == |open| && open[i].start <= StopOf(open, i, end) <= |cells|
    requires forall k: nat :: k < i ==> ClosedAt(cells, open, segs, end, k)
    requires next ==
             segs[i := open[i].(end := StopOf(open, i, end),
             text := Glyphs(cells)[open[i].start..StopOf(open, i, end)])]
    ensures forall k: nat :: k <= i ==> ClosedAt(cells, open, next, end, k)
  {
    forall k: nat | k <= i
      ensures ClosedAt(cells, open, next, end, k)
    {
      if k < i { assert ClosedAt(cells, open, segs, end, k); }
    }
  }

  // A cell shows its foreground only under a glyph.
  ghost predicate Plain(cells: seq<Cell>) {
    forall c :: 0 <= c < |cells| && cells[c].glyph == ' ' ==> cells[c].fg == DEFAULT
  }

  lemma {:induction false} GlyphsIn(cells: seq<Cell>, lo: nat, stop: nat, text: string)
    requires lo <= stop <= |cells| && text == Glyphs(cells)[lo..stop]
    ensures HasGlyph(text) <==> GlyphIn(cells, lo, stop)
  {
    if GlyphIn(cells, lo, stop) {
      var c :| lo <= c < stop && cells[c].glyph != ' ';
      assert text[c - lo] == cells[c].glyph;
    }
    if HasGlyph(text) {
      var k :| 0 <= k < |text| && text[k] != ' ';
      assert cells[lo + k].glyph == text[k];
    }
  }

  lemma {:induction false} ClosedOne(cells: seq<Cell>, start: nat, end: nat, s: Segment, lo: nat, stop: nat)
    requires Uniform(cells, start, end) && Plain(cells) && |cells| == WIDTH && start <= lo < stop <= end
    requires s.start == lo && s.end == stop && s.text == Glyphs(cells)[lo..stop] && s.bg == cells[start].bg
             && s.target == cells[start].target
    requires Held(cells, s, stop) && (s.fg == DEFAULT || GlyphIn(cells, lo, stop))
    ensures Formed(s) && SegShows(s, cells)
    ensures HasGlyph(s.text) <==> GlyphIn(cells, lo, stop)
  {
    GlyphsIn(cells, lo, stop, s.text);
    forall c | lo <= c < stop
      ensures cells[c] == Cell(s.text[c - lo], Visible(s.text[c - lo], s.fg), s.bg, s.target)
    {
      assert s.text[c - lo] == cells[c].glyph;
    }
  }

  lemma {:induction false} ClosedFormed(cells: seq<Cell>, open: seq<Segment>, segs: seq<Segment>, start: nat,
      end: nat, seen: bool, i: nat)
    requires Uniform(cells, start, end) && Plain(cells) && |cells| == WIDTH && i < |open|
    requires Opened(cells, open, start, end, seen) && ClosedAt(cells, open, segs, end, i)
    ensures Formed(segs[i]) && SegShows(segs[i], cells) && (i + 1 < |open| ==> HasGlyph(segs[i].text))
  {
    OpenStarts(cells, open, start, end, seen);
    if i + 1 < |open| { assert Adjoin(cells, open[i], open[i + 1]); }
    ClosedOne(cells, start, end, segs[i], open[i].start, StopOf(open, i, end));
  }

  lemma {:induction false} ClosedMeet(cells: seq<Cell>, open: seq<Segment>, segs: seq<Segment>, start: nat,
      end: nat, seen: bool, i: nat)
    requires Uniform(cells, start, end) && Plain(cells) && |cells| == WIDTH && 0 < i < |open|
    requires Opened(cells, open, start, end, seen) && ClosedAt(cells, open, segs, end, i - 1)
             && ClosedAt(cells, open, segs, end, i)
    ensures segs[i - 1].end == segs[i].start && Meet(segs[i - 1], segs[i])
  {
    ClosedFormed(cells, open, segs, start, end, seen, i - 1);
    ClosedFormed(cells, open, segs, start, end, seen, i);
    assert Adjoin(cells, open[i - 1], open[i]);
    assert segs[i].text[0] == cells[open[i].start].glyph;
  }

  lemma {:induction false} ClosedChain(cells: seq<Cell>, open: seq<Segment>, segs: seq<Segment>, start: nat,
      end: nat, seen: bool)
    requires Uniform(cells, start, end) && Plain(cells) && |cells| == WIDTH
    requires Opened(cells, open, start, end, seen) && ClosedAs(cells, open, segs, end)
    ensures Chain(segs, start, end) && Shows(segs, cells)
    ensures forall i :: 0 <= i < |segs| ==> segs[i].bg == cells[start].bg && segs[i].target == cells[start].target
  {
    forall i | 0 <= i < |segs|
      ensures Formed(segs[i]) && SegShows(segs[i], cells) && segs[i].bg == cells[start].bg
              && segs[i].target == cells[start].target
    {
      assert ClosedAt(cells, open, segs, end, i);
      ClosedFormed(cells, open, segs, start, end, seen, i);
    }
    forall i | 0 < i < |segs|
      ensures segs[i - 1].end == segs[i].start && Meet(segs[i - 1], segs[i])
    {
      assert ClosedAt(cells, open, segs, end, i - 1) && ClosedAt(cells, open, segs, end, i);
      ClosedMeet(cells, open, segs, start, end, seen, i);
    }
    assert ClosedAt(cells, open, segs, end, 0) && ClosedAt(cells, open, segs, end, |segs| - 1);
  }

  lemma {:induction false} OpenStarts(cells: seq<Cell>, open: seq<Segment>, start: nat, end: nat, seen: bool)
    requires Opened(cells, open, start, end, seen) && start < end
    ensures forall i :: 0 <= i < |open| ==> start <= open[i].start < end
  {
    var i: nat := 0;
    while i < |open|
      invariant i <= |open| && forall k :: 0 <= k < i ==> start <= open[k].start
    {
      if i > 0 { assert Adjoin(cells, open[i - 1], open[i]); }
      i := i + 1;
    }
    i := |open|;
    while i > 0
      invariant i <= |open| && forall k :: i <= k < |open| ==> open[k].start < end
    {
      i := i - 1;
      if i + 1 < |open| { assert Adjoin(cells, open[i], open[i + 1]); }
    }
  }

  // Two glyphs of one link in two foregrounds.
  ghost predicate ClashAt(cells: seq<Cell>, p: nat, q: nat) {
    p < q < |cells| && Uniform(cells, p, q + 1) && cells[p].target != ""
    && cells[p].glyph != ' ' && cells[q].glyph != ' ' && cells[p].fg != cells[q].fg
  }

  lemma {:induction false} ClashSeen(cells: seq<Cell>, segs: seq<Segment>, start: nat, end: nat, col: nat)
    requires Opened(cells, segs, start, col, true) && Uniform(cells, start, end) && col < end
             && cells[start].target != ""
    requires cells[col].glyph != ' ' && cells[col].fg != segs[0].fg
    ensures exists p: nat, q: nat :: start <= p < end && ClashAt(cells, p, q)
  {
    var p :| segs[0].start <= p < col && cells[p].glyph != ' ';
    assert ClashAt(cells, p, col);
  }

  // A stretch whose one segment holds every glyph has no clash.
  lemma {:induction false} NoClash(cells: seq<Cell>, segs: seq<Segment>, start: nat, end: nat, seen: bool)
    requires Opened(cells, segs, start, end, seen) && Uniform(cells, start, end)
    requires end < |cells| ==> cells[end].bg != cells[start].bg || cells[end].target != cells[start].target
    ensures forall p: nat, q: nat :: start <= p < end ==> !ClashAt(cells, p, q)
  {
    assert Held(cells, segs[|segs| - 1], end);
    forall p: nat, q: nat | start <= p < end
      ensures !ClashAt(cells, p, q)
    {
      if p < q < |cells| { StretchHolds(cells, start, end, p, q); }
    }
  }

  // Columns alike from within a stretch on are all in it.
  lemma {:induction false} StretchHolds(cells: seq<Cell>, start: nat, end: nat, p: nat, q: nat)
    requires Uniform(cells, start, end) && start <= p < end && p < q < |cells|
    requires end < |cells| ==> cells[end].bg != cells[start].bg || cells[end].target != cells[start].target
    ensures Uniform(cells, p, q + 1) ==> q < end
  {
    if q >= end {
      assert cells[end].bg != cells[p].bg || cells[end].target != cells[p].target;
    }
  }

  // ---------- stretch after stretch ----------

  // The background or the target changes at column c.
  ghost predicate Boundary(cells: seq<Cell>, c: nat) {
    0 < c < |cells| && (cells[c].bg != cells[c - 1].bg || cells[c].target != cells[c - 1].target)
  }

  // A link goes on at column c on another background.
  ghost predicate LinkSplit(cells: seq<Cell>, c: nat) {
    0 < c < |cells| && cells[c].target == cells[c - 1].target != "" && cells[c].bg != cells[c - 1].bg
  }

  ghost predicate Starts(segs: seq<Segment>, c: nat) { exists i :: 0 < i < |segs| && segs[i].start == c }

  ghost predicate Contiguous(segs: seq<Segment>, hi: nat) {
    && segs != [] && segs[0].start == 0 && segs[|segs| - 1].end == hi
    && (forall i :: 0 <= i < |segs| ==> Formed(segs[i]))
    && (forall i :: 0 < i < |segs| ==> segs[i - 1].end == segs[i].start)
  }

  // The row as drawn up to column hi: all but its check.
  ghost predicate Drawn(cells: seq<Cell>, segs: seq<Segment>, hi: nat) {
    && Contiguous(segs, hi) && Shows(segs, cells)
    && (forall i :: 0 < i < |segs| ==> Meet(segs[i - 1], segs[i]) || LinkSplit(cells, segs[i].start))
    && (forall c: nat :: c < hi && Boundary(cells, c) ==> Starts(segs, c))
  }

  lemma {:induction false} DrawnFirst(cells: seq<Cell>, more: seq<Segment>, end: nat)
    requires Chain(more, 0, end) && Shows(more, cells) && Uniform(cells, 0, end)
    ensures Drawn(cells, more, end)
  {
  }

  lemma {:induction false} MeetAcross(cells: seq<Cell>, a: Segment, b: Segment)
    requires Formed(a) && Formed(b) && SegShows(a, cells) && SegShows(b, cells) && a.end == b.start
             && Boundary(cells, b.start)
    ensures Meet(a, b) || LinkSplit(cells, b.start)
  {
    assert cells[a.end - 1].bg == a.bg && cells[a.end - 1].target == a.target;
    assert cells[b.start].bg == b.bg && cells[b.start].target == b.target;
  }

  lemma {:induction false} DrawnMore(cells: seq<Cell>, segs: seq<Segment>, lo: nat, more: seq<Segment>, end: nat)
    requires Drawn(cells, segs, lo) && Chain(more, lo, end) && Shows(more, cells) && Uniform(cells, lo, end)
             && Boundary(cells, lo)
    ensures Drawn(cells, segs + more, end)
  {
    var all, n := segs + more, |segs|;
    MeetAcross(cells, segs[n - 1], more[0]);
    forall i | 0 < i < |all|
      ensures all[i - 1].end == all[i].start && (Meet(all[i - 1], all[i]) || LinkSplit(cells, all[i].start))
    {
      if i > n { assert all[i] == more[i - n] && all[i - 1] == more[i - n - 1]; }
    }
    forall c: nat | c < end && Boundary(cells, c)
      ensures Starts(all, c)
    {
      if c < lo {
        var i :| 0 < i < n && segs[i].start == c;
        assert all[i].start == c;
      } else {
        assert c == lo && all[n].start == c;
      }
    }
  }

  lemma {:induction false} Covered(segs: seq<Segment>, n: nat, c: nat) returns (i: nat)
    requires 0 < n <= |segs| && c < segs[n - 1].end && segs[0].start == 0
    requires forall k :: 0 < k < |segs| ==> segs[k - 1].end == segs[k].start
    ensures i < n && segs[i].start <= c < segs[i].end
  {
    i := n - 1;
    if c < segs[i].start { i := Covered(segs, n - 1, c); }
  }

  lemma {:induction false} TextShown(cells: seq<Cell>, segs: seq<Segment>, n: nat)
    requires Contiguous(segs, WIDTH) && Shows(segs, cells) && 0 < n <= |segs| && |cells| == WIDTH
    ensures Text(segs[..n]) == Glyphs(cells)[..segs[n - 1].end]
  {
    var s := segs[n - 1];
    assert segs[..n][..n - 1] == segs[..n - 1];
    assert Formed(s) && SegShows(s, cells);
    if n == 1 {
      assert segs[..0] == [] && Glyphs(cells)[..s.end] == s.text;
    } else {
      TextShown(cells, segs, n - 1);
      assert Glyphs(cells)[..s.end] == Glyphs(cells)[..s.start] + s.text;
    }
  }

  // ---------- when a row can be drawn ----------

  ghost predicate CellLawful(w: World, c: Cell) {
    w.column(c.glyph) && c.fg < COLORS && c.bg < COLORS && (c.target != "" ==> w.target(c.target))
  }

  // No clash starts before column hi, and the row is drawn up to it.
  ghost predicate Clean(cells: seq<Cell>, segs: seq<Segment>, hi: nat) {
    && hi <= |cells| && (if hi == 0 then segs == [] else Drawn(cells, segs, hi))
    && (0 < hi < |cells| ==> Boundary(cells, hi))
    && forall p: nat, q: nat :: p < hi ==> !ClashAt(cells, p, q)
  }

  lemma {:induction false} CleanMore(cells: seq<Cell>, segs: seq<Segment>, lo: nat, more: seq<Segment>, end: nat)
    requires Clean(cells, segs, lo) && Chain(more, lo, end) && Shows(more, cells) && Uniform(cells, lo, end)
    requires end < |cells| ==> Boundary(cells, end)
    requires forall p: nat, q: nat :: lo <= p < end ==> !ClashAt(cells, p, q)
    ensures Clean(cells, segs + more, end)
  {
    if lo == 0 {
      DrawnFirst(cells, more, end);
      assert segs + more == more;
    } else {
      DrawnMore(cells, segs, lo, more, end);
    }
  }

  // What keeps a drawing from being a row: a column no row may hold, a link in two foregrounds or
  // on two backgrounds, text out of NFC.
  ghost predicate Drawable(w: World, cells: seq<Cell>, index: int) {
    && 0 <= index <= MAX_ROW
    && (forall c :: 0 <= c < |cells| ==> CellLawful(w, cells[c]))
    && (forall p: nat, q: nat :: !ClashAt(cells, p, q))
    && (forall c: nat :: !LinkSplit(cells, c))
    && w.nfc(Glyphs(cells))
  }

  // A link drawn over two backgrounds is refused for that alone: every column of it is lawful, it
  // has one foreground, and nothing else stands against it.
  lemma {:induction false} LinkOverTwoBackgrounds(w: World, link: string, index: int) returns (cells: seq<Cell>)
    requires 0 <= index <= MAX_ROW && w.column('a') && w.nfc(seq(WIDTH, _ => 'a')) && link != "" && w.target(link)
    ensures |cells| == WIDTH && w.nfc(Glyphs(cells)) && !Drawable(w, cells, index)
    ensures forall c :: 0 <= c < WIDTH ==> CellLawful(w, cells[c]) && cells[c].fg == DEFAULT && cells[c].target == link
    ensures forall p: nat, q: nat :: !ClashAt(cells, p, q)
    ensures forall c: nat :: LinkSplit(cells, c) <==> c == 1
  {
    cells := seq(WIDTH, c => Cell('a', DEFAULT, if c == 0 then 0 else 1, link));
    assert Glyphs(cells) == seq(WIDTH, _ => 'a');
    assert LinkSplit(cells, 1);
  }

  lemma {:induction false} LawfulCells(w: World, s: Segment, cells: seq<Cell>)
    requires Formed(s) && SegShows(s, cells)
    ensures Lawful(w, s) <==> forall c :: s.start <= c < s.end ==> CellLawful(w, cells[c])
  {
    if forall c :: s.start <= c < s.end ==> CellLawful(w, cells[c]) {
      forall k | 0 <= k < |s.text|
        ensures w.column(s.text[k])
      {
        assert CellLawful(w, cells[s.start + k]);
      }
      assert CellLawful(w, cells[s.start]);
      if HasGlyph(s.text) {
        var g := GlyphShows(s, cells);
        assert CellLawful(w, cells[g]);
      }
    }
  }

  lemma {:induction false} AllLawful(w: World, cells: seq<Cell>, segs: seq<Segment>)
    requires Contiguous(segs, WIDTH) && Shows(segs, cells) && |cells| == WIDTH
    ensures (forall i :: 0 <= i < |segs| ==> Lawful(w, segs[i])) <==> forall c :: 0 <= c < WIDTH ==>
            CellLawful(w, cells[c])
  {
    forall i | 0 <= i < |segs|
      ensures Lawful(w, segs[i]) <==> forall c :: segs[i].start <= c < segs[i].end ==> CellLawful(w, cells[c])
    {
      LawfulCells(w, segs[i], cells);
    }
    if forall i :: 0 <= i < |segs| ==> Lawful(w, segs[i]) {
      forall c | 0 <= c < WIDTH
        ensures CellLawful(w, cells[c])
      {
        var i := Covered(segs, |segs|, c);
        assert Lawful(w, segs[i]);
      }
    }
  }

  lemma {:induction false} TargetsAt(cells: seq<Cell>, a: Segment, b: Segment)
    requires Formed(a) && Formed(b) && SegShows(a, cells) && SegShows(b, cells) && a.end == b.start
    ensures cells[b.start - 1].target == a.target && cells[b.start].target == b.target
  {
  }

  lemma {:induction false} NoLinkSplit(cells: seq<Cell>, segs: seq<Segment>)
    requires Drawn(cells, segs, WIDTH) && |cells| == WIDTH
    ensures Chain(segs, 0, WIDTH) <==> forall c: nat :: !LinkSplit(cells, c)
  {
    if Chain(segs, 0, WIDTH) {
      forall c: nat
        ensures !LinkSplit(cells, c)
      {
        if Boundary(cells, c) {
          var i :| 0 < i < |segs| && segs[i].start == c;
          TargetsAt(cells, segs[i - 1], segs[i]);
          assert Meet(segs[i - 1], segs[i]);
        }
      }
    }
  }

  // A drawing with no clash passes the check exactly when it can be drawn.
  lemma {:induction false} DrawnPasses(w: World, cells: seq<Cell>, segs: seq<Segment>, index: int)
    requires Drawn(cells, segs, WIDTH) && |cells| == WIDTH && forall p: nat, q: nat :: !ClashAt(cells, p, q)
    ensures Canonical(w, Row(index, 0, segs)) <==> Drawable(w, cells, index)
  {
    NoLinkSplit(cells, segs);
    AllLawful(w, cells, segs);
    TextShown(cells, segs, |segs|);
    assert segs[..|segs|] == segs && Glyphs(cells)[..WIDTH] == Glyphs(cells);
  }

  // ---------- a canonical row drawn ----------

  lemma {:induction false} RowHasNoClash(cells: seq<Cell>, segs: seq<Segment>, p: nat, q: nat)
    requires Chain(segs, 0, WIDTH) && Shows(segs, cells) && |cells| == WIDTH
    ensures !ClashAt(cells, p, q)
  {
    if p < q < |cells| && Uniform(cells, p, q + 1) {
      var i := Covered(segs, |segs|, p);
      assert SegShows(segs[i], cells);
      if q >= segs[i].end {
        assert i + 1 < |segs|;
        TargetsAt(cells, segs[i], segs[i + 1]);
        assert Meet(segs[i], segs[i + 1]);
      }
    }
  }

  lemma {:induction false} BoundaryIsEnd(cells: seq<Cell>, s: Segment, c: nat)
    requires SegShows(s, cells) && s.start < c <= s.end && c < |cells|
    ensures Boundary(cells, c) ==> c == s.end
  {
    if c < s.end { assert cells[c].bg == cells[c - 1].bg && cells[c].target == cells[c - 1].target; }
  }

  lemma {:induction false} RowIsDrawn(cells: seq<Cell>, segs: seq<Segment>)
    requires Chain(segs, 0, WIDTH) && Shows(segs, cells) && |cells| == WIDTH
    ensures Drawn(cells, segs, WIDTH)
  {
    forall c: nat | c < WIDTH && Boundary(cells, c)
      ensures Starts(segs, c)
    {
      var i := Covered(segs, |segs|, c - 1);
      assert SegShows(segs[i], cells);
      BoundaryIsEnd(cells, segs[i], c);
      assert segs[i + 1].start == c;
    }
  }

  // The picture of a canonical row can be drawn.
  lemma {:induction false} RowCanBeDrawn(w: World, r: Row)
    requires Canonical(w, r) && r.role == 0
    ensures Drawable(w, Picture(r.segments), r.index)
  {
    var cells := Picture(r.segments);
    WholePicture(r.segments);
    RowIsDrawn(cells, r.segments);
    forall p: nat, q: nat
      ensures !ClashAt(cells, p, q)
    {
      RowHasNoClash(cells, r.segments, p, q);
    }
    DrawnPasses(w, cells, r.segments, r.index);
  }
}
