/** The Draft itself (typeset/raster/draft.go): an array a column attribute, Put, and Row. */
module RasterPen {
  import opened Raster
  import opened RasterDraft

  class Draft {
    const glyph: array<char>
    const fg: array<Color>
    const bg: array<Color>
    const target: array<string>

    ghost predicate Valid()
    {
      glyph.Length == fg.Length == bg.Length == target.Length == WIDTH && fg != bg
    }

    // What is in each column.
    ghost function Cells(): (cells: seq<Cell>)
      requires Valid()
      reads glyph, fg, bg, target
      ensures |cells| == WIDTH && Plain(cells)
      ensures forall c :: 0 <= c < WIDTH ==> cells[c] == Cell(glyph[c], Visible(glyph[c], fg[c]), bg[c], target[c])
    {
      seq(WIDTH, c requires 0 <= c < WIDTH reads glyph, fg, bg,
          target => Cell(glyph[c], Visible(glyph[c], fg[c]), bg[c], target[c]))
    }

    // NewDraft: spaces on a background.
    constructor (on: Color)
      ensures Valid() && fresh(glyph) && fresh(fg) && fresh(bg) && fresh(target)
      ensures forall c :: 0 <= c < WIDTH ==> Cells()[c] == Cell(' ', DEFAULT, on, "")
    {
      glyph := new char[WIDTH](_ => ' ');
      fg := new Color[WIDTH](_ => DEFAULT);
      bg := new Color[WIDTH](_ => on);
      target := new string[WIDTH](_ => "");
    }

    method Set(c: nat, g: char, f: Color, b: Color, link: string)
      requires Valid() && c < WIDTH
      modifies glyph, fg, bg, target
      ensures Cells() == old(Cells())[c := Cell(g, Visible(g, f), b, link)]
    {
      glyph[c], fg[c], bg[c], target[c] := g, f, b, link;
    }

    // Put: s in NFC from column col on, all of it or nothing. Its columns then hold it, and every
    // other what it held.
    method Put(w: World, normal: string -> string, col: int, s: string, f: Color, b: Color, link: string)
        returns (next: int, ok: bool)
      requires Valid()
      modifies glyph, fg, bg, target
      ensures ok <==> 0 <= col && col + |normal(s)| <= WIDTH && forall k :: 0 <= k < |normal(s)| ==>
              w.column(normal(s)[k])
      ensures next == if ok then col + |normal(s)| else col
      ensures !ok ==> Cells() == old(Cells())
      ensures ok ==> forall c :: 0 <= c < WIDTH ==>
                Cells()[c] == if col <= c < next
                    then Cell(normal(s)[c - col], Visible(normal(s)[c - col], f), b, link) else old(Cells())[c]
    {
      var text := normal(s);
      var fits := CheckText(w, text);
      if !fits || col < 0 || col + |text| > WIDTH { return col, false; }
      ghost var before := Cells();
      var k := 0;
      while k < |text|
        invariant k <= |text|
        invariant forall c :: 0 <= c < WIDTH ==>
                    Cells()[c] == if col <= c < col + k then Cell(text[c - col], Visible(text[c - col], f), b, link)
                        else before[c]
      {
        Set(col + k, text[k], f, b, link);
        k := k + 1;
      }
      return col + |text|, true;
    }

    // One column of split's first loop: a segment opens at a glyph that changes the foreground. Two
    // foregrounds in a link are an error.
    method OpenColumn(segs: seq<Segment>, start: nat, end: nat, col: nat, seen: bool)
        returns (ok: bool, out: seq<Segment>, holds: bool)
      requires Valid() && Uniform(Cells(), start, end) && start <= col < end && Opened(Cells(), segs, start, col, seen)
      ensures ok ==> Opened(Cells(), out, start, col + 1, holds)
      ensures !ok ==> exists p: nat, q: nat :: start <= p < end && ClashAt(Cells(), p, q)
    {
      ghost var cells := Cells();
      var g, f, last := glyph[col], fg[col], |segs| - 1;
      assert segs[last := segs[last].(fg := segs[last].fg)] == segs;
      if g == ' ' {
        StepOn(cells, segs, start, col, seen, segs[last].fg);
        return true, segs, seen;
      }
      if !seen {
        UnseenIsFirst(cells, segs, start, col, seen);
        StepOn(cells, segs, start, col, seen, f);
        return true, segs[last := segs[last].(fg := f)], true;
      }
      if f == segs[last].fg {
        StepOn(cells, segs, start, col, seen, f);
        return true, segs, true;
      }
      if IsLink(segs[last]) {
        ClashSeen(cells, segs, start, end, col);
        return false, segs, seen;
      }
      var s := Segment(col, 0, "", f, bg[start], target[start]);
      StepOpen(cells, segs, start, col, s);
      return true, segs + [s], true;
    }

    method Open(start: nat, end: nat) returns (ok: bool, segs: seq<Segment>, ghost seen: bool)
      requires Valid() && Uniform(Cells(), start, end)
      ensures ok ==> Opened(Cells(), segs, start, end, seen)
      ensures !ok ==> exists p: nat, q: nat :: start <= p < end && ClashAt(Cells(), p, q)
    {
      segs := [Segment(start, 0, "", DEFAULT, bg[start], target[start])];
      var holds, col := false, start;
      seen, ok := false, true;
      while col < end
        invariant start <= col <= end && Opened(Cells(), segs, start, col, holds)
      {
        ok, segs, holds := OpenColumn(segs, start, end, col, holds);
        if !ok { return; }
        col := col + 1;
      }
      return true, segs, holds;
    }

    lemma {:induction false} GlyphsAre()
      requires Valid()
      ensures Glyphs(Cells()) == glyph[..]
    {
    }

    // split, second loop: each segment's end and text.
    method Close(open: seq<Segment>, start: nat, end: nat, ghost seen: bool) returns (segs: seq<Segment>)
      requires Valid() && Opened(Cells(), open, start, end, seen) && start < end <= WIDTH
      ensures ClosedAs(Cells(), open, segs, end)
    {
      ghost var cells := Cells();
      OpenStarts(cells, open, start, end, seen);
      segs := open;
      var i := 0;
      while i < |segs|
        invariant i <= |segs| == |open|
        invariant forall k: nat :: k < i ==> ClosedAt(cells, open, segs, end, k)
        invariant forall k :: i <= k < |segs| ==> segs[k] == open[k]
      {
        var stop := if i + 1 < |segs| then segs[i + 1].start else end;
        if i + 1 < |open| { assert Adjoin(cells, open[i], open[i + 1]); }
        var text := glyph[segs[i].start..stop];
        assert text == Glyphs(cells)[open[i].start..stop] by { GlyphsAre(); }
        ghost var before := segs;
        segs := segs[i := segs[i].(end := stop, text := text)];
        ClosedStep(cells, open, before, end, i, segs);
        i := i + 1;
      }
    }

    method Split(start: nat, end: nat) returns (ok: bool, segs: seq<Segment>)
      requires Valid() && Uniform(Cells(), start, end)
      requires end < WIDTH ==> Boundary(Cells(), end)
      ensures ok ==> Chain(segs, start, end) && Shows(segs, Cells()) && forall p: nat, q: nat ::
              start <= p < end ==> !ClashAt(Cells(), p, q)
      ensures !ok ==> exists p: nat, q: nat :: start <= p < end && ClashAt(Cells(), p, q)
    {
      var open;
      ghost var seen;
      ok, open, seen := Open(start, end);
      if !ok { return false, []; }
      segs := Close(open, start, end, seen);
      ClosedChain(Cells(), open, segs, start, end, seen);
      NoClash(Cells(), open, start, end, seen);
    }

    // The end of the stretch of one background and target that starts here.
    method Stretch(start: nat) returns (end: nat)
      requires Valid() && start < WIDTH
      ensures Uniform(Cells(), start, end) && (end < WIDTH ==> Boundary(Cells(), end))
    {
      end := start + 1;
      while end < WIDTH && bg[end] == bg[start] && target[end] == target[start]
        invariant end <= WIDTH && Uniform(Cells(), start, end)
      {
        end := end + 1;
      }
    }

    // The segments of the whole row, stretch by stretch, unless one is refused.
    method Segments() returns (ok: bool, segs: seq<Segment>)
      requires Valid()
      ensures ok ==> Clean(Cells(), segs, WIDTH)
      ensures !ok ==> exists p: nat, q: nat :: ClashAt(Cells(), p, q)
    {
      ghost var cells := Cells();
      var start := 0;
      segs := [];
      while start < WIDTH
        invariant Clean(cells, segs, start)
      {
        var end := Stretch(start);
        var good, more := Split(start, end);
        if !good { return false, []; }
        CleanMore(cells, segs, start, more, end);
        segs := segs + more;
        start := end;
      }
      ok := true;
    }

    // Row: the record of what was put last. It succeeds whenever the drawing can be a row, and the
    // row is in canonical form and shows exactly the draft's columns.
    method Row(w: World, index: int) returns (ok: bool, row: Row)
      requires Valid()
      ensures ok <==> Drawable(w, Cells(), index)
      ensures ok ==> Canonical(w, row) && row.index == index && row.role == 0 && Shows(row.segments, Cells())
    {
      var good, segs := Segments();
      if !good { return false, Raster.Row(index, 0, []); }
      row := Raster.Row(index, 0, segs);
      DrawnPasses(w, Cells(), segs, index);
      ok := Check(w, row);
    }
  }

  // A draft that shows a canonical row's picture gives back that row.
  method Redraw(w: World, drawn: Row, d: Draft) returns (ok: bool, row: Row)
    requires d.Valid() && Canonical(w, drawn) && drawn.role == 0 && Picture(drawn.segments) == d.Cells()
    ensures ok && row == drawn
  {
    RowCanBeDrawn(w, drawn);
    WholePicture(drawn.segments);
    ok, row := d.Row(w, drawn.index);
    OneForm(row.segments, drawn.segments, d.Cells());
  }
}
