/** What a column is made of (pica/press/flow.go): pieces of blocks, pads and separators; where its
    blocks start, how high it is, and which lines of the document it holds. */
module FlowPieces {
  import opened Blocks

  // ---------- a piece as a column holds it ----------

  function MarkLines(ls: seq<SLine>, i: nat, again: bool): seq<Placed>
    decreases |ls|
  {
    if ls == [] then [] else MarkLines(ls[..|ls| - 1], i, again) + [Placed(ls[|ls| - 1], Of(i, again))]
  }

  // The lines of segs as lines of block i, the first `again` segments a lead-in set again.
  function MarkSegs(segs: seq<Seg>, i: nat, again: nat): seq<Placed>
    decreases |segs|
  {
    if segs == [] then []
    else
      var n := |segs| - 1;
      MarkSegs(segs[..n], i, again) + MarkLines(segs[n].lines, i, n < again)
  }

  // The lines of a column as the program holds it.
  function Lines(col: seq<Placed>): seq<SLine>
    decreases |col|
  {
    if col == [] then [] else Lines(col[..|col| - 1]) + [col[|col| - 1].line]
  }

  ghost predicate AllOf(col: seq<Placed>, i: nat) {
    forall p :: 0 <= p < |col| ==> col[p].mark.Of? && col[p].mark.block == i
  }

  lemma {:induction false} Snoc(col: seq<Placed>, x: Placed)
    ensures Own(col + [x]) == Own(col) + if x.mark.Of? && !x.mark.again then [x.line] else []
    ensures Height(col + [x]) == Height(col) + Units(x.line.role)
    ensures Lines(col + [x]) == Lines(col) + [x.line]
  {
    assert (col + [x])[..|col|] == col;
  }

  lemma {:induction false} LinesAppend(a: seq<Placed>, b: seq<Placed>)
    ensures Lines(a + b) == Lines(a) + Lines(b)
    decreases |b|
  {
    if b == [] {
      assert a + b == a;
    } else {
      assert (a + b)[..|a + b| - 1] == a + b[..|b| - 1];
      LinesAppend(a, b[..|b| - 1]);
    }
  }

  lemma {:induction false} Whole(ls: seq<SLine>)
    requires ls != []
    ensures ls[..|ls| - 1] + [ls[|ls| - 1]] == ls
  {
  }

  lemma {:induction false} MarkedText(ls: seq<SLine>, i: nat, again: bool)
    ensures Lines(MarkLines(ls, i, again)) == ls
    decreases |ls|
  {
    if ls != [] {
      var n := |ls| - 1;
      MarkedText(ls[..n], i, again);
      Snoc(MarkLines(ls[..n], i, again), Placed(ls[n], Of(i, again)));
      Whole(ls);
    }
  }

  lemma {:induction false} MarkedOf(ls: seq<SLine>, i: nat, again: bool)
    ensures AllOf(MarkLines(ls, i, again), i)
    decreases |ls|
  {
    if ls != [] { MarkedOf(ls[..|ls| - 1], i, again); }
  }

  lemma {:induction false} MarkedLines(ls: seq<SLine>, i: nat, again: bool)
    ensures Own(MarkLines(ls, i, again)) == if again then [] else ls
    ensures Height(MarkLines(ls, i, again)) == LinesHeight(ls)
    decreases |ls|
  {
    if ls != [] {
      var n := |ls| - 1;
      MarkedLines(ls[..n], i, again);
      Snoc(MarkLines(ls[..n], i, again), Placed(ls[n], Of(i, again)));
      Whole(ls);
    }
  }

  lemma {:induction false} MarkedHeight(segs: seq<Seg>, i: nat, again: nat)
    ensures Height(MarkSegs(segs, i, again)) == SegsHeight(segs)
    decreases |segs|
  {
    if segs != [] {
      var n := |segs| - 1;
      MarkedHeight(segs[..n], i, again);
      MarkedLines(segs[n].lines, i, n < again);
      HeightAppend(MarkSegs(segs[..n], i, again), MarkLines(segs[n].lines, i, n < again));
    }
  }

  lemma {:induction false} MarkedAll(segs: seq<Seg>, i: nat, again: nat)
    ensures AllOf(MarkSegs(segs, i, again), i) && Lines(MarkSegs(segs, i, again)) == SegLines(segs)
    decreases |segs|
  {
    if segs != [] {
      var n := |segs| - 1;
      MarkedAll(segs[..n], i, again);
      MarkedText(segs[n].lines, i, n < again);
      MarkedOf(segs[n].lines, i, n < again);
      LinesAppend(MarkSegs(segs[..n], i, again), MarkLines(segs[n].lines, i, n < again));
    }
  }

  lemma {:induction false} FreshLines(segs: seq<Seg>, again: nat)
    requires segs != [] && again <= |segs|
    ensures SegLines(segs[again..]) ==
            if again == |segs| then [] else SegLines(segs[..|segs| - 1][again..]) + segs[|segs| - 1].lines
  {
    var n := |segs| - 1;
    if again == |segs| {
      assert segs[again..] == [];
    } else {
      var head := segs[..n][again..];
      assert segs[again..] == head + [segs[n]];
      assert (head + [segs[n]])[..|head|] == head;
    }
  }

  lemma {:induction false} MarkedOwn(segs: seq<Seg>, i: nat, again: nat)
    ensures Own(MarkSegs(segs, i, again)) == if again <= |segs| then SegLines(segs[again..]) else []
    decreases |segs|
  {
    if segs == [] {
      assert again == 0 ==> segs[again..] == [];
    } else {
      var n := |segs| - 1;
      MarkedOwn(segs[..n], i, again);
      MarkedLines(segs[n].lines, i, n < again);
      OwnAppend(MarkSegs(segs[..n], i, again), MarkLines(segs[n].lines, i, n < again));
      if again <= |segs| { FreshLines(segs, again); }
    }
  }

  // ---------- where blocks start ----------

  ghost predicate StartsAt(col: seq<Placed>, p: nat) {
    p < |col| && col[p].mark.Of? && (p == 0 || !col[p - 1].mark.Of? || col[p - 1].mark.block != col[p].mark.block)
  }

  // Every block's first line in a column stands on a whole body line.
  ghost predicate EvenStarts(col: seq<Placed>) { forall p: nat :: StartsAt(col, p) ==> Height(col[..p]) % 2 == 0 }

  function Spacer(odd: bool, gap: bool): seq<Placed> {
    (if odd then [Placed(SLine("", Half), Pad)] else []) + if gap then [Placed(SLine("", Body), Gap)] else []
  }

  lemma {:induction false} OneLine(p: Placed)
    ensures Height([p]) == Units(p.line.role) && (!p.mark.Of? ==> Own([p]) == [])
  {
    assert [p][..0] == [];
    assert Height([]) == 0 && Own([]) == [];
  }

  lemma {:induction false} SpacerIs(odd: bool, gap: bool)
    ensures Height(Spacer(odd, gap)) == (if odd then 1 else 0) + if gap then 2 else 0
    ensures Own(Spacer(odd, gap)) == [] && forall p :: 0 <= p < |Spacer(odd, gap)| ==> !Spacer(odd, gap)[p].mark.Of?
  {
    var pad, gapLine := Placed(SLine("", Half), Pad), Placed(SLine("", Body), Gap);
    OneLine(pad);
    OneLine(gapLine);
    HeightAppend(if odd then [pad] else [], if gap then [gapLine] else []);
    OwnAppend(if odd then [pad] else [], if gap then [gapLine] else []);
  }

  // A piece of a block the column does not hold yet, put on a whole body line.
  lemma {:induction false} EvenAppend(col: seq<Placed>, spacer: seq<Placed>, piece: seq<Placed>, i: nat)
    requires EvenStarts(col) && AllOf(piece, i) && Height(col + spacer) % 2 == 0
    requires forall p :: 0 <= p < |col| && col[p].mark.Of? ==> col[p].mark.block != i
    requires forall p :: 0 <= p < |spacer| ==> !spacer[p].mark.Of?
    ensures EvenStarts(col + spacer + piece)
  {
    var all, lead := col + spacer + piece, col + spacer;
    assert all[..|lead|] == lead;
    forall q | |col| <= q < |lead|
      ensures !all[q].mark.Of?
    {
      assert all[q] == spacer[q - |col|];
    }
    forall q | |lead| <= q < |all|
      ensures all[q].mark == Of(i, all[q].mark.again)
    {
      assert all[q] == piece[q - |lead|];
    }
    forall p: nat | StartsAt(all, p)
      ensures Height(all[..p]) % 2 == 0
    {
      if p < |col| { assert all[..p] == col[..p] && StartsAt(col, p); }
    }
  }

  // ---------- what is left of a block ----------

  // The first `gone` segments of a block can have been placed: none, or a part past its lead-in.
  ghost predicate Leftable(whole: Block, gone: nat) {
    whole.repeated <= |whole.segs| && (gone == 0 || (whole.repeated <= gone < |whole.segs| && !whole.atomic))
  }

  // The rest: the lead-in again, and the segments not placed yet.
  function Left(whole: Block, gone: nat): Block
    requires whole.repeated <= |whole.segs| && gone <= |whole.segs|
  {
    if gone == 0 then whole
    else Block(whole.segs[..whole.repeated] + whole.segs[gone..], whole.repeated, false, false, false)
  }

  ghost predicate LeftOf(whole: Block, gone: nat, b: Block) { Leftable(whole, gone) && b == Left(whole, gone) }

  ghost predicate LeadsOk(blocks: seq<Block>) {
    forall i :: 0 <= i < |blocks| ==> blocks[i].repeated <= |blocks[i].segs|
  }

  // The first segment of what is left that has not been placed before.
  function Fresh(gone: nat, b: Block): nat { if gone == 0 then 0 else b.repeated }

  lemma {:induction false} LeftLines(whole: Block, gone: nat, b: Block)
    requires LeftOf(whole, gone, b)
    ensures Fresh(gone, b) <= |b.segs| && b.segs[Fresh(gone, b)..] == whole.segs[gone..]
    ensures forall s :: s in b.segs ==> s in whole.segs
  {
  }

  lemma {:induction false} CutInTwo(s: seq<Seg>, f: nat, k: nat)
    requires f <= k <= |s|
    ensures s[..k][f..] + s[k..] == s[f..]
  {
  }

  lemma {:induction false} DropTwice(s: seq<Seg>, j: nat, k: nat)
    requires j + k <= |s|
    ensures s[j..][k..] == s[j + k..]
  {
  }

  lemma {:induction false} DropFrom(s: seq<Seg>, t: seq<Seg>, f: nat, j: nat, k: nat)
    requires f <= k <= |s| && j <= |t| && s[f..] == t[j..]
    ensures j + k - f <= |t| && s[k..] == t[j + k - f..]
  {
    assert |s| - f == |s[f..]| == |t| - j;
    DropTwice(s, f, k - f);
    DropTwice(t, j, k - f);
  }

  lemma {:induction false} LeadSame(whole: Block, gone: nat, b: Block)
    requires LeftOf(whole, gone, b)
    ensures b.repeated == whole.repeated <= |b.segs| && b.segs[..b.repeated] == whole.segs[..whole.repeated]
  {
  }

  lemma {:induction false} RestIs(whole: Block, gone: nat, b: Block, k: nat, later: nat, next: Block)
    requires LeftOf(whole, gone, b) && Fresh(gone, b) <= k < |b.segs| && k > b.repeated && !b.atomic
    requires later == gone + k - Fresh(gone, b) && next == Rest(b, k)
    ensures later <= |whole.segs| && b.segs[k..] == whole.segs[later..]
    ensures LeftOf(whole, later, next) && |next.segs| < |b.segs|
  {
    LeftLines(whole, gone, b);
    DropFrom(b.segs, whole.segs, Fresh(gone, b), gone, k);
    LeadSame(whole, gone, b);
    assert |b.segs[k..]| > 0;
  }

  // The next part of the block, and what is left after it.
  lemma {:induction false} RestLeft(whole: Block, gone: nat, b: Block, k: nat, later: nat, next: Block)
    requires LeftOf(whole, gone, b) && Fresh(gone, b) <= k <= |b.segs| && (k < |b.segs| ==> k > b.repeated)
    requires later == gone + k - Fresh(gone, b) && next == Rest(b, k) && (k < |b.segs| ==> !b.atomic)
    ensures k < |b.segs| ==> LeftOf(whole, later, next) && |next.segs| < |b.segs|
    ensures SegLines(whole.segs[gone..]) ==
            SegLines(b.segs[..k][Fresh(gone, b)..]) + SegLines(if k < |b.segs| then whole.segs[later..] else [])
  {
    var f := Fresh(gone, b);
    LeftLines(whole, gone, b);
    CutInTwo(b.segs, f, k);
    SegLinesAppend(b.segs[..k][f..], b.segs[k..]);
    if k < |b.segs| {
      RestIs(whole, gone, b, k, later, next);
    } else {
      assert b.segs[k..] == [];
    }
  }

  // ---------- pieces ----------

  // Segments lo up to hi of a block; any but a first part with the lead-in before them again.
  datatype Piece = Piece(block: nat, lo: nat, hi: nat)

  ghost predicate PieceOk(blocks: seq<Block>, p: Piece) {
    p.block < |blocks| && p.lo <= p.hi <= |blocks[p.block].segs| && blocks[p.block].repeated <= |blocks[p.block].segs|
  }

  function PieceSegs(whole: Block, lo: nat, hi: nat): seq<Seg>
    requires lo <= hi <= |whole.segs| && whole.repeated <= |whole.segs|
  {
    (if lo == 0 then [] else whole.segs[..whole.repeated]) + whole.segs[lo..hi]
  }

  // A column of these pieces: before each a pad to a whole body line, and a separator between two
  // blocks unless the second is tight.
  ghost function Render(blocks: seq<Block>, pieces: seq<Piece>): seq<Placed>
    decreases |pieces|
  {
    if pieces == [] || !PieceOk(blocks, pieces[|pieces| - 1]) then []
    else
      var n := |pieces| - 1;
      var col, p, whole := Render(blocks, pieces[..n]), pieces[n], blocks[pieces[n].block];
      col + Spacer(Height(col) % 2 != 0, col != [] && !(p.lo == 0 && whole.tight))
      + MarkSegs(PieceSegs(whole, p.lo, p.hi), p.block, if p.lo == 0 then 0 else whole.repeated)
  }

  // The pieces are the blocks in order, each from where the one before it ended, up to segment gone
  // of block i.
  ghost predicate Covers(blocks: seq<Block>, pieces: seq<Piece>, i: nat, gone: nat)
    decreases |pieces|
  {
    if pieces == [] then i == 0 && gone == 0
    else
      var p := pieces[|pieces| - 1];
      && PieceOk(blocks, p) && Covers(blocks, pieces[..|pieces| - 1], p.block, p.lo)
      && if p.hi == |blocks[p.block].segs| then i == p.block + 1 && gone == 0 else i == p.block && gone == p.hi > p.lo
  }

  lemma {:induction false} RenderMore(blocks: seq<Block>, pieces: seq<Piece>, p: Piece, odd: bool, gap: bool,
      segs: seq<Seg>, again: nat)
    requires PieceOk(blocks, p) && segs == PieceSegs(blocks[p.block], p.lo, p.hi)
    requires odd == (Height(Render(blocks, pieces)) % 2 != 0)
    requires gap == (Render(blocks, pieces) != [] && !(p.lo == 0 && blocks[p.block].tight))
    requires again == if p.lo == 0 then 0 else blocks[p.block].repeated
    ensures Render(blocks, pieces + [p]) == Render(blocks, pieces) + Spacer(odd, gap) + MarkSegs(segs, p.block, again)
  {
    assert (pieces + [p])[..|pieces|] == pieces;
  }

  // Each column is its pieces.
  ghost predicate AllRendered(blocks: seq<Block>, recipe: seq<seq<Piece>>, cols: seq<seq<Placed>>) {
    |recipe| == |cols| && forall c :: 0 <= c < |cols| ==> cols[c] == Render(blocks, recipe[c])
  }

  ghost function Flat(recipe: seq<seq<Piece>>): seq<Piece>
    decreases |recipe|
  {
    if recipe == [] then [] else Flat(recipe[..|recipe| - 1]) + recipe[|recipe| - 1]
  }

  lemma {:induction false} FlatSnoc(recipe: seq<seq<Piece>>, part: seq<Piece>)
    ensures Flat(recipe + [part]) == Flat(recipe) + part
  {
    assert (recipe + [part])[..|recipe|] == recipe;
  }

  lemma {:induction false} CoversMore(blocks: seq<Block>, pieces: seq<Piece>, p: Piece)
    requires PieceOk(blocks, p) && Covers(blocks, pieces, p.block, p.lo)
             && (p.hi < |blocks[p.block].segs| ==> p.hi > p.lo)
    ensures if p.hi == |blocks[p.block].segs| then Covers(blocks, pieces + [p], p.block + 1, 0)
            else Covers(blocks, pieces + [p], p.block, p.hi)
  {
    assert (pieces + [p])[..|pieces|] == pieces;
  }

  // What is placed of a remainder is a piece of its block.
  lemma {:induction false} PieceIs(whole: Block, gone: nat, b: Block, k: nat, hi: nat)
    requires LeftOf(whole, gone, b) && Fresh(gone, b) <= k <= |b.segs| && hi == gone + k - Fresh(gone, b)
    ensures gone <= hi <= |whole.segs| && (hi == |whole.segs| <==> k == |b.segs|)
            && b.segs[..k] == PieceSegs(whole, gone, hi)
  {
    var f := Fresh(gone, b);
    LeftLines(whole, gone, b);
    assert |b.segs| - f == |b.segs[f..]| == |whole.segs| - gone;
    if gone == 0 {
      assert [] + whole.segs[0..hi] == whole.segs[..hi];
    } else {
      LeadSame(whole, gone, b);
      assert b.segs[..k] == b.segs[..f] + b.segs[f..][..k - f];
      assert whole.segs[gone..hi] == whole.segs[gone..][..hi - gone];
    }
  }

  // ---------- columns ----------

  // One piece of one block fills the column: an atomic block, or a lead-in and one segment at most.
  ghost predicate Alone(blocks: seq<Block>, col: seq<Placed>, i: nat, segs: seq<Seg>) {
    && i < |blocks| && AllOf(col, i) && Lines(col) == SegLines(segs)
    && (forall s :: s in segs ==> s in blocks[i].segs)
    && (blocks[i].atomic || |segs| <= blocks[i].repeated + 1)
  }

  // Blocks start on whole body lines, and the column is within its capacity but for one piece alone.
  ghost predicate ColumnOk(blocks: seq<Block>, col: seq<Placed>, cap: int) {
    && EvenStarts(col)
    && (col == [] || Height(col) <= 2 * cap || exists i: nat, segs :: Alone(blocks, col, i, segs))
  }

  // A piece its block goes on after, with MIN_KEEP segments on both sides of the cut, the lead-in
  // not counted.
  ghost predicate SplitWell(blocks: seq<Block>, p: Piece)
    requires PieceOk(blocks, p)
  {
    var whole := blocks[p.block];
    !whole.atomic && p.hi - (if p.lo == 0 then whole.repeated else p.lo) >= MIN_KEEP && |whole.segs| - p.hi >= MIN_KEEP
  }

  ghost predicate Last(blocks: seq<Block>, p: Piece)
    requires PieceOk(blocks, p)
  {
    p.hi == |blocks[p.block].segs|
  }

  // In an open column no piece was forced: each ends its block or splits it well.
  ghost predicate OpenKeeps(blocks: seq<Block>, part: seq<Piece>)
    decreases |part|
  {
    part != [] ==>
      var p := part[|part| - 1];
      OpenKeeps(blocks, part[..|part| - 1]) && PieceOk(blocks, p) && (Last(blocks, p) || SplitWell(blocks, p))
  }

  // A closed column may end in a forced piece, of a block that is not atomic, if no line stands
  // before it.
  ghost predicate ColumnKeeps(blocks: seq<Block>, part: seq<Piece>) {
    part != [] ==>
      var p, before := part[|part| - 1], part[..|part| - 1];
      && OpenKeeps(blocks, before) && PieceOk(blocks, p)
      && (Last(blocks, p) || SplitWell(blocks, p) || (Render(blocks, before) == [] && !blocks[p.block].atomic))
  }

  lemma {:induction false} KeepsMore(blocks: seq<Block>, part: seq<Piece>, p: Piece)
    requires OpenKeeps(blocks, part) && PieceOk(blocks, p)
    ensures Last(blocks, p) || SplitWell(blocks, p) ==> OpenKeeps(blocks, part + [p])
    ensures Last(blocks, p) || SplitWell(blocks, p) || (Render(blocks, part) == [] && !blocks[p.block].atomic) ==>
              ColumnKeeps(blocks, part + [p])
  {
    assert (part + [p])[..|part|] == part;
  }

  lemma {:induction false} OpenIsClosed(blocks: seq<Block>, part: seq<Piece>)
    requires OpenKeeps(blocks, part)
    ensures ColumnKeeps(blocks, part)
  {
  }

  // ---------- the document's lines ----------

  // What the pieces hold of it.
  ghost function PieceLines(blocks: seq<Block>, pieces: seq<Piece>): seq<SLine>
    decreases |pieces|
  {
    if pieces == [] || !PieceOk(blocks, pieces[|pieces| - 1]) then []
    else
      var n := |pieces| - 1;
      PieceLines(blocks, pieces[..n]) + SegLines(blocks[pieces[n].block].segs[pieces[n].lo..pieces[n].hi])
  }

  ghost predicate AllOk(blocks: seq<Block>, pieces: seq<Piece>) { forall p :: p in pieces ==> PieceOk(blocks, p) }

  lemma {:induction false} PieceLinesAppend(blocks: seq<Block>, a: seq<Piece>, b: seq<Piece>)
    requires AllOk(blocks, b)
    ensures PieceLines(blocks, a + b) == PieceLines(blocks, a) + PieceLines(blocks, b)
    decreases |b|
  {
    if b == [] {
      assert a + b == a;
    } else {
      assert (a + b)[..|a + b| - 1] == a + b[..|b| - 1];
      PieceLinesAppend(blocks, a, b[..|b| - 1]);
    }
  }

  lemma {:induction false} RenderOwn(blocks: seq<Block>, pieces: seq<Piece>)
    requires AllOk(blocks, pieces)
    ensures Own(Render(blocks, pieces)) == PieceLines(blocks, pieces)
    decreases |pieces|
  {
    if pieces != [] {
      var n := |pieces| - 1;
      assert pieces[n] in pieces;
      var col, p, whole := Render(blocks, pieces[..n]), pieces[n], blocks[pieces[n].block];
      var again := if p.lo == 0 then 0 else whole.repeated;
      RenderOwn(blocks, pieces[..n]);
      PieceOwn(col, Height(col) % 2 != 0, col != [] && !(p.lo == 0 && whole.tight), PieceSegs(whole, p.lo, p.hi),
          p.block, again);
      PieceFresh(whole, p.lo, p.hi);
    }
  }

  lemma {:induction false} PieceFresh(whole: Block, lo: nat, hi: nat)
    requires lo <= hi <= |whole.segs| && whole.repeated <= |whole.segs|
    ensures PieceSegs(whole, lo, hi)[if lo == 0 then 0 else whole.repeated..] == whole.segs[lo..hi]
  {
  }

  lemma {:induction false} OwnAllIs(blocks: seq<Block>, recipe: seq<seq<Piece>>, cols: seq<seq<Placed>>)
    requires AllRendered(blocks, recipe, cols) && AllOk(blocks, Flat(recipe))
    ensures OwnAll(cols) == PieceLines(blocks, Flat(recipe))
    decreases |cols|
  {
    if cols != [] {
      var n := |cols| - 1;
      OwnAllIs(blocks, recipe[..n], cols[..n]);
      RenderOwn(blocks, recipe[n]);
      PieceLinesAppend(blocks, Flat(recipe[..n]), recipe[n]);
    }
  }

  lemma {:induction false} CoversOk(blocks: seq<Block>, pieces: seq<Piece>, i: nat, gone: nat)
    requires Covers(blocks, pieces, i, gone)
    ensures AllOk(blocks, pieces) && i <= |blocks| && (gone > 0 ==> i < |blocks| && gone <= |blocks[i].segs|)
    decreases |pieces|
  {
    if pieces != [] {
      var p := pieces[|pieces| - 1];
      CoversOk(blocks, pieces[..|pieces| - 1], p.block, p.lo);
      assert forall q :: q in pieces ==> q == p || q in pieces[..|pieces| - 1];
    }
  }

  lemma {:induction false} BlockLinesMore(blocks: seq<Block>, i: nat)
    requires i < |blocks|
    ensures BlockLines(blocks[..i + 1]) == BlockLines(blocks[..i]) + SegLines(blocks[i].segs)
    decreases |blocks|
  {
    if i == 0 {
      assert blocks[..1][1..] == [] && blocks[..0] == [];
    } else {
      BlockLinesMore(blocks[1..], i - 1);
      assert blocks[..i + 1][1..] == blocks[1..][..i] && blocks[..i][1..] == blocks[1..][..i - 1];
    }
  }

  // The lines of the first i blocks and of so many segments of the next.
  ghost function LinesTo(blocks: seq<Block>, i: nat, gone: nat): seq<SLine>
    requires i <= |blocks| && (gone > 0 ==> i < |blocks| && gone <= |blocks[i].segs|)
  {
    BlockLines(blocks[..i]) + if gone == 0 then [] else SegLines(blocks[i].segs[..gone])
  }

  lemma {:induction false} LinesToIs(blocks: seq<Block>, i: nat, gone: nat)
    requires i < |blocks| && gone <= |blocks[i].segs|
    ensures LinesTo(blocks, i, gone) == BlockLines(blocks[..i]) + SegLines(blocks[i].segs[..gone])
  {
    assert SegLines([]) == [];
    assert blocks[i].segs[..0] == [];
  }

  lemma {:induction false} SegLinesPart(segs: seq<Seg>, lo: nat, hi: nat)
    requires lo <= hi <= |segs|
    ensures SegLines(segs[..lo]) + SegLines(segs[lo..hi]) == SegLines(segs[..hi])
  {
    SegLinesAppend(segs[..lo], segs[lo..hi]);
    assert segs[..lo] + segs[lo..hi] == segs[..hi];
  }

  lemma {:induction false} Regroup(a: seq<SLine>, b: seq<SLine>, c: seq<SLine>)
    ensures a + b + c == a + (b + c)
  {
  }

  lemma {:induction false} LinesToMore(blocks: seq<Block>, i: nat, lo: nat, hi: nat)
    requires i < |blocks| && lo <= hi <= |blocks[i].segs|
    ensures LinesTo(blocks, i, lo) + SegLines(blocks[i].segs[lo..hi]) ==
            if hi == |blocks[i].segs| then LinesTo(blocks, i + 1, 0) else LinesTo(blocks, i, hi)
  {
    var segs, front := blocks[i].segs, BlockLines(blocks[..i]);
    LinesToIs(blocks, i, lo);
    LinesToIs(blocks, i, hi);
    SegLinesPart(segs, lo, hi);
    Regroup(front, SegLines(segs[..lo]), SegLines(segs[lo..hi]));
    if hi == |segs| {
      assert segs[..hi] == segs;
      BlockLinesMore(blocks, i);
    }
  }

  lemma {:induction false} CoversLast(blocks: seq<Block>, pieces: seq<Piece>, i: nat, gone: nat)
    requires Covers(blocks, pieces, i, gone) && pieces != []
    ensures var p, front := pieces[|pieces| - 1], pieces[..|pieces| - 1];
            && PieceOk(blocks, p) && Covers(blocks, front, p.block, p.lo)
            && (if Last(blocks, p) then i == p.block + 1 && gone == 0 else i == p.block && gone == p.hi)
            && PieceLines(blocks, pieces) == PieceLines(blocks, front) + SegLines(blocks[p.block].segs[p.lo..p.hi])
  {
  }

  // Pieces that cover the blocks up to a segment hold the lines up to it, each once and in order.
  lemma {:induction false} CoversLines(blocks: seq<Block>, pieces: seq<Piece>, i: nat, gone: nat)
    requires Covers(blocks, pieces, i, gone)
    ensures i <= |blocks| && (gone > 0 ==> i < |blocks| && gone <= |blocks[i].segs|)
    ensures PieceLines(blocks, pieces) == LinesTo(blocks, i, gone)
    decreases |pieces|
  {
    CoversOk(blocks, pieces, i, gone);
    if pieces != [] {
      var p := pieces[|pieces| - 1];
      CoversLast(blocks, pieces, i, gone);
      CoversLines(blocks, pieces[..|pieces| - 1], p.block, p.lo);
      LinesToMore(blocks, p.block, p.lo, p.hi);
    } else {
      assert blocks[..0] == [];
    }
  }

  // A part that fits, or is alone.
  lemma {:induction false} PartOk(blocks: seq<Block>, col: seq<Placed>, cap: int, i: nat, b: Block, k: nat, gone: nat)
    requires EvenStarts(col) && i < |blocks| && LeftOf(blocks[i], gone, b) && k <= |b.segs|
    requires Height(col) <= 2 * cap
             || (AllOf(col, i) && Lines(col) == SegLines(b.segs[..k]) && (b.atomic || k <= b.repeated + 1))
    ensures ColumnOk(blocks, col, cap)
  {
    if Height(col) > 2 * cap {
      LeftLines(blocks[i], gone, b);
      assert Alone(blocks, col, i, b.segs[..k]);
    }
  }

  // ---------- one more piece ----------

  // A column with a piece after it.
  lemma {:induction false} PieceHeight(was: seq<Placed>, h: nat, odd: bool, gap: bool, segs: seq<Seg>, i: nat,
      again: nat)
    requires h == Height(was) && odd == (h % 2 != 0)
    ensures Height(was + Spacer(odd, gap)) % 2 == 0
    ensures Height(was + Spacer(odd, gap) + MarkSegs(segs, i, again)) == h + h % 2 + (if gap then 2 else 0)
            + SegsHeight(segs)
  {
    SpacerIs(odd, gap);
    HeightAppend(was, Spacer(odd, gap));
    HeightAppend(was + Spacer(odd, gap), MarkSegs(segs, i, again));
    MarkedHeight(segs, i, again);
    EvenSum(h, gap);
  }

  lemma {:induction false} PieceEven(was: seq<Placed>, odd: bool, gap: bool, segs: seq<Seg>, i: nat, again: nat)
    requires EvenStarts(was) && Height(was + Spacer(odd, gap)) % 2 == 0
    requires forall p :: 0 <= p < |was| && was[p].mark.Of? ==> was[p].mark.block < i
    ensures EvenStarts(was + Spacer(odd, gap) + MarkSegs(segs, i, again))
  {
    SpacerIs(odd, gap);
    MarkedAll(segs, i, again);
    EvenAppend(was, Spacer(odd, gap), MarkSegs(segs, i, again), i);
  }

  lemma {:induction false} PieceMarks(was: seq<Placed>, odd: bool, gap: bool, segs: seq<Seg>, i: nat, again: nat,
      all: seq<Placed>)
    requires forall p :: 0 <= p < |was| && was[p].mark.Of? ==> was[p].mark.block < i
    requires all == was + Spacer(odd, gap) + MarkSegs(segs, i, again)
    ensures forall p :: 0 <= p < |all| && all[p].mark.Of? ==> all[p].mark.block < i + 1
  {
    SpacerIs(odd, gap);
    MarkedAll(segs, i, again);
  }

  lemma {:induction false} PieceAlone(segs: seq<Seg>, i: nat, again: nat, all: seq<Placed>)
    requires all == [] + Spacer(false, false) + MarkSegs(segs, i, again)
    ensures AllOf(all, i) && Lines(all) == SegLines(segs)
  {
    MarkedAll(segs, i, again);
    assert all == MarkSegs(segs, i, again);
  }

  lemma {:induction false} PieceOwn(was: seq<Placed>, odd: bool, gap: bool, segs: seq<Seg>, i: nat, again: nat)
    requires again <= |segs|
    ensures Own(was + Spacer(odd, gap) + MarkSegs(segs, i, again)) == Own(was) + SegLines(segs[again..])
  {
    SpacerIs(odd, gap);
    OwnAppend(was, Spacer(odd, gap));
    OwnAppend(was + Spacer(odd, gap), MarkSegs(segs, i, again));
    MarkedOwn(segs, i, again);
    assert Own(was) + [] == Own(was);
  }

  lemma {:induction false} EvenSum(h: nat, gap: bool)
    ensures (h + (if h % 2 != 0 then 1 else 0) + if gap then 2 else 0) % 2 == 0
    ensures h % 2 == if h % 2 != 0 then 1 else 0
  {
  }
}
