/** A raster's row (typeset/raster/raster.go): its check, and why a row shows in one form only.
    Which code points take one column, which text is in NFC and which strings are link targets are
    given. */
module Raster {
  const WIDTH := 40
  const MAX_ROW := 254
  const COLORS := 8
  const DEFAULT := 0

  type Color = nat

  datatype World = World(column: char -> bool, nfc: string -> bool, target: string -> bool)

  datatype Segment = Segment(start: nat, end: nat, text: string, fg: Color, bg: Color, target: string)

  datatype Row = Row(index: int, role: nat, segments: seq<Segment>)

  predicate IsLink(s: Segment) { s.target != "" }

  predicate HasGlyph(text: string) { exists k :: 0 <= k < |text| && text[k] != ' ' }

  // hasGlyph as a scan.
  method FindGlyph(text: string) returns (has: bool)
    ensures has == HasGlyph(text)
  {
    var k := 0;
    while k < |text|
      invariant k <= |text| && forall j :: 0 <= j < k ==> text[j] == ' '
    {
      if text[k] != ' ' { return true; }
      k := k + 1;
    }
    return false;
  }

  // ---------- the canonical form ----------

  // A segment's shape: columns of the row, a code point each, and no foreground without a glyph.
  ghost predicate Formed(s: Segment) {
    && s.start < s.end <= WIDTH && |s.text| == s.end - s.start
    && (!HasGlyph(s.text) ==> s.fg == DEFAULT)
  }

  ghost predicate Lawful(w: World, s: Segment) {
    && (forall k :: 0 <= k < |s.text| ==> w.column(s.text[k]))
    && s.fg < COLORS && s.bg < COLORS && (IsLink(s) ==> w.target(s.target))
  }

  // checkMeet: how two segments may adjoin.
  ghost predicate Meet(a: Segment, b: Segment) {
    if IsLink(a) && IsLink(b) then a.target != b.target
    else if IsLink(a) || IsLink(b) || a.bg != b.bg then true
    else a.fg != b.fg && HasGlyph(a.text) && b.text != "" && b.text[0] != ' '
  }

  ghost predicate Chain(segs: seq<Segment>, lo: nat, hi: nat) {
    && segs != [] && segs[0].start == lo && segs[|segs| - 1].end == hi
    && (forall i :: 0 <= i < |segs| ==> Formed(segs[i]))
    && (forall i :: 0 < i < |segs| ==> segs[i - 1].end == segs[i].start && Meet(segs[i - 1], segs[i]))
  }

  function Text(segs: seq<Segment>): string
    decreases |segs|
  {
    if segs == [] then "" else Text(segs[..|segs| - 1]) + segs[|segs| - 1].text
  }

  ghost predicate Canonical(w: World, r: Row) {
    && 0 <= r.index <= MAX_ROW && Chain(r.segments, 0, WIDTH)
    && (forall i :: 0 <= i < |r.segments| ==> Lawful(w, r.segments[i]))
    && w.nfc(Text(r.segments))
  }

  method CheckMeet(a: Segment, b: Segment) returns (ok: bool)
    requires b.text != ""
    ensures ok == Meet(a, b)
  {
    if IsLink(a) && IsLink(b) { return a.target != b.target; }
    if IsLink(a) || IsLink(b) || a.bg != b.bg { return true; }
    if a.fg == b.fg { return false; }
    var has := FindGlyph(a.text);
    return has && b.text[0] != ' ';
  }

  method CheckText(w: World, text: string) returns (ok: bool)
    ensures ok == forall k :: 0 <= k < |text| ==> w.column(text[k])
  {
    var k := 0;
    while k < |text|
      invariant k <= |text| && forall j :: 0 <= j < k ==> w.column(text[j])
    {
      if !w.column(text[k]) { return false; }
      k := k + 1;
    }
    return true;
  }

  // One segment of the check, col columns before it.
  method CheckSegment(w: World, s: Segment, col: nat) returns (ok: bool)
    ensures ok == (s.start == col && Formed(s) && Lawful(w, s))
  {
    if s.start != col || s.end <= s.start || s.end > WIDTH { return false; }
    var text := CheckText(w, s.text);
    if !text || |s.text| != s.end - s.start { return false; }
    if s.fg >= COLORS || s.bg >= COLORS { return false; }
    if IsLink(s) && !w.target(s.target) { return false; }
    var has := FindGlyph(s.text);
    return has || s.fg == DEFAULT;
  }

  // Check
  method Check(w: World, r: Row) returns (ok: bool)
    ensures ok <==> Canonical(w, r)
  {
    if r.index < 0 || r.index > MAX_ROW { return false; }
    var segs := r.segments;
    if |segs| == 0 { return false; }
    var i, col := 0, 0;
    while i < |segs|
      invariant i <= |segs| && (i == 0 ==> col == 0) && (i > 0 ==> col == segs[i - 1].end && segs[0].start == 0)
      invariant forall k :: 0 <= k < i ==> Formed(segs[k]) && Lawful(w, segs[k])
      invariant forall k :: 0 < k < i ==> segs[k - 1].end == segs[k].start && Meet(segs[k - 1], segs[k])
    {
      var good := CheckSegment(w, segs[i], col);
      if !good {
        assert i > 0 && segs[i - 1].end == segs[i].start ==> !Formed(segs[i]) || !Lawful(w, segs[i]);
        return false;
      }
      if i > 0 {
        var meet := CheckMeet(segs[i - 1], segs[i]);
        if !meet { return false; }
      }
      col := segs[i].end;
      i := i + 1;
    }
    if col != WIDTH { return false; }
    return w.nfc(Text(segs));
  }

  // ---------- what a row shows ----------

  // A column: its glyph, background and target, and its foreground where a glyph shows it.
  datatype Cell = Cell(glyph: char, fg: Color, bg: Color, target: string)

  function Visible(glyph: char, fg: Color): Color { if glyph == ' ' then DEFAULT else fg }

  ghost predicate SegShows(s: Segment, cells: seq<Cell>) {
    && s.start <= s.end <= |cells| && |s.text| == s.end - s.start
    && forall c :: s.start <= c < s.end ==>
         cells[c] == Cell(s.text[c - s.start], Visible(s.text[c - s.start], s.fg), s.bg, s.target)
  }

  ghost predicate Shows(segs: seq<Segment>, cells: seq<Cell>) {
    forall i :: 0 <= i < |segs| ==> SegShows(segs[i], cells)
  }

  // A formed segment's foreground shows at a glyph of it, or is the default.
  lemma {:induction false} GlyphShows(s: Segment, cells: seq<Cell>) returns (c: nat)
    requires Formed(s) && SegShows(s, cells) && HasGlyph(s.text)
    ensures s.start <= c < s.end && cells[c].glyph != ' ' && cells[c].fg == s.fg
  {
    var k :| 0 <= k < |s.text| && s.text[k] != ' ';
    c := s.start + k;
  }

  // Segments of two canonical rows that start at one column of one picture end at one.
  lemma {:induction false} EndsNoSooner(a: Segment, next: Segment, b: Segment, cells: seq<Cell>)
    requires Formed(a) && Formed(next) && Formed(b) && SegShows(a, cells) && SegShows(next, cells) && SegShows(b, cells)
    requires a.start == b.start && next.start == a.end && Meet(a, next)
    ensures a.end >= b.end
  {
    if a.end < b.end { SameLooks(a, next, b, cells); }
  }

  // Two segments within the columns of a third look as it does.
  lemma {:induction false} SameLooks(a: Segment, next: Segment, b: Segment, cells: seq<Cell>)
    requires Formed(a) && Formed(next) && Formed(b) && SegShows(a, cells) && SegShows(next, cells) && SegShows(b, cells)
    requires a.start == b.start && next.start == a.end < b.end
    ensures a.bg == next.bg && a.target == next.target
    ensures HasGlyph(a.text) && next.text[0] != ' ' ==> a.fg == next.fg
  {
    var c := a.end;
    assert cells[c].bg == next.bg == b.bg && cells[c].target == next.target == b.target;
    assert cells[a.start].bg == a.bg == b.bg && cells[a.start].target == a.target == b.target;
    if HasGlyph(a.text) && next.text[0] != ' ' {
      var g := GlyphShows(a, cells);
      assert cells[g].fg == b.fg;
      assert cells[c].glyph == next.text[0] && cells[c].fg == next.fg == b.fg;
    }
  }

  lemma {:induction false} SameSegment(a: Segment, b: Segment, cells: seq<Cell>)
    requires Formed(a) && Formed(b) && SegShows(a, cells) && SegShows(b, cells) && a.start == b.start && a.end == b.end
    ensures a == b
  {
    assert cells[a.start].bg == a.bg == b.bg && cells[a.start].target == a.target == b.target;
    forall k | 0 <= k < |a.text|
      ensures a.text[k] == b.text[k]
    {
      assert cells[a.start + k].glyph == a.text[k] == b.text[k];
    }
    assert a.text == b.text;
    if HasGlyph(a.text) {
      var g := GlyphShows(a, cells);
      assert cells[g].fg == b.fg;
    }
  }

  lemma {:induction false} SameAt(a: seq<Segment>, b: seq<Segment>, cells: seq<Cell>, k: nat)
    requires Chain(a, 0, WIDTH) && Chain(b, 0, WIDTH) && Shows(a, cells) && Shows(b, cells)
    requires k < |a| && k < |b| && (k > 0 ==> a[k - 1] == b[k - 1])
    ensures a[k] == b[k]
  {
    assert a[k].start == b[k].start;
    if a[k].end < b[k].end {
      assert k + 1 < |a|;
      EndsNoSooner(a[k], a[k + 1], b[k], cells);
    } else if b[k].end < a[k].end {
      assert k + 1 < |b|;
      EndsNoSooner(b[k], b[k + 1], a[k], cells);
    }
    SameSegment(a[k], b[k], cells);
  }

  // A segment that ends the row is its last.
  lemma {:induction false} NoneAfter(s: seq<Segment>, k: nat)
    requires Chain(s, 0, WIDTH) && 0 < k <= |s|
    ensures k < |s| ==> s[k - 1].end < WIDTH
  {
    assert k < |s| ==> Formed(s[k]);
  }

  // Two rows in canonical form that show one picture are one.
  lemma {:induction false} OneForm(a: seq<Segment>, b: seq<Segment>, cells: seq<Cell>)
    requires Chain(a, 0, WIDTH) && Chain(b, 0, WIDTH) && Shows(a, cells) && Shows(b, cells)
    ensures a == b
  {
    var k := 0;
    while k < |a| && k < |b|
      invariant k <= |a| && k <= |b| && a[..k] == b[..k]
    {
      assert k > 0 ==> a[k - 1] == a[..k][k - 1] == b[..k][k - 1] == b[k - 1];
      SameAt(a, b, cells, k);
      assert a[..k + 1] == a[..k] + [a[k]] && b[..k + 1] == b[..k] + [b[k]];
      k := k + 1;
    }
    assert k > 0 && a[k - 1] == a[..k][k - 1] == b[..k][k - 1] == b[k - 1];
    NoneAfter(a, k);
    NoneAfter(b, k);
    assert a == a[..k] && b == b[..k];
  }

  // Every canonical row shows a picture.
  function CellsOf(s: Segment): (cells: seq<Cell>)
    ensures |cells| == |s.text| && forall k :: 0 <= k < |cells| ==>
            cells[k] == Cell(s.text[k], Visible(s.text[k], s.fg), s.bg, s.target)
  {
    seq(|s.text|, k requires 0 <= k < |s.text| => Cell(s.text[k], Visible(s.text[k], s.fg), s.bg, s.target))
  }

  function Picture(segs: seq<Segment>): seq<Cell>
    decreases |segs|
  {
    if segs == [] then [] else Picture(segs[..|segs| - 1]) + CellsOf(segs[|segs| - 1])
  }

  lemma {:induction false} ShownBefore(s: Segment, cells: seq<Cell>, more: seq<Cell>)
    requires SegShows(s, cells)
    ensures SegShows(s, cells + more)
  {
  }

  lemma {:induction false} ShownLast(s: Segment, cells: seq<Cell>)
    requires Formed(s) && |cells| == s.start
    ensures SegShows(s, cells + CellsOf(s)) && |cells + CellsOf(s)| == s.end
  {
  }

  lemma {:induction false} PictureShown(segs: seq<Segment>, n: nat)
    requires Chain(segs, 0, WIDTH) && 0 < n <= |segs|
    ensures |Picture(segs[..n])| == segs[n - 1].end && forall i :: 0 <= i < n ==> SegShows(segs[i], Picture(segs[..n]))
  {
    var last, before := segs[n - 1], Picture(segs[..n - 1]);
    assert segs[..n][..n - 1] == segs[..n - 1];
    assert Formed(last) && Picture(segs[..n]) == before + CellsOf(last);
    if n == 1 {
      assert segs[..0] == [];
    } else {
      PictureShown(segs, n - 1);
    }
    ShownLast(last, before);
    forall i | 0 <= i < n - 1
      ensures SegShows(segs[i], before + CellsOf(last))
    {
      ShownBefore(segs[i], before, CellsOf(last));
    }
  }

  // The picture of a canonical row covers it.
  lemma {:induction false} WholePicture(segs: seq<Segment>)
    requires Chain(segs, 0, WIDTH)
    ensures |Picture(segs)| == WIDTH && Shows(segs, Picture(segs))
  {
    PictureShown(segs, |segs|);
    assert segs[..|segs|] == segs;
  }

  // Two rows that pass the check with one index and role, and show the same glyph, background,
  // target and visible foreground in every column, are identical.
  lemma {:induction false} SamePictureSameRow(w: World, a: Row, b: Row)
    requires Canonical(w, a) && Canonical(w, b) && a.index == b.index && a.role == b.role
    requires Picture(a.segments) == Picture(b.segments)
    ensures a == b
  {
    WholePicture(a.segments);
    WholePicture(b.segments);
    OneForm(a.segments, b.segments, Picture(a.segments));
  }

  // ---------- blank rows ----------

  function Spaces(n: nat): (s: string)
    ensures |s| == n && forall k :: 0 <= k < n ==> s[k] == ' '
  {
    if n == 0 then "" else Spaces(n - 1) + " "
  }

  function Blank(index: int): Row { Row(index, 0, [Segment(0, WIDTH, Spaces(WIDTH), DEFAULT, DEFAULT, "")]) }

  method IsBlank(r: Row) returns (blank: bool)
    ensures r == Blank(r.index) ==> blank
    ensures blank && Chain(r.segments, 0, WIDTH) ==> r == Blank(r.index)
  {
    if r.role != 0 || |r.segments| != 1 { return false; }
    var s := r.segments[0];
    blank := s.fg == DEFAULT && s.bg == DEFAULT && !IsLink(s) && s.text == Spaces(WIDTH);
  }

  // Among rows that pass the check, a blank one is the one that shows nothing.
  lemma {:induction false} BlankExactly(w: World, r: Row)
    requires Canonical(w, r) && r.role == 0
    requires forall c :: 0 <= c < |Picture(r.segments)| ==> Picture(r.segments)[c] == Cell(' ', DEFAULT, DEFAULT, "")
    ensures r == Blank(r.index)
  {
    var b := Blank(r.index).segments;
    var cells := Picture(r.segments);
    WholePicture(r.segments);
    assert Chain(b, 0, WIDTH);
    assert Shows(b, cells);
    OneForm(r.segments, b, cells);
  }
}
