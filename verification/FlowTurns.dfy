/** The flow as a machine (pica/press/flow.go): one turn places a piece, or closes the column, or
    both. Every run places each line once and in order, splits no block badly, leaves no heading
    without room for what follows it, and closes no column that could have held more. */
module FlowTurns {
  import opened Blocks
  import opened FlowPieces

  // The pieces of the closed columns and of the open one, and where the flow stands: segment `gone`
  // of a block.
  datatype State = State(done: seq<seq<Piece>>, part: seq<Piece>, block: nat, gone: nat)

  const START := State([], [], 0, 0)

  // What a column has left for a block: to a whole body line, and after a separator.
  function Room(col: seq<Placed>, cap: int, tight: bool): int {
    2 * cap - Height(col) - Height(col) % 2 - if col != [] && !tight then 2 else 0
  }

  // What must fit below a heading for it to stay: the headings that follow it, and the opening of
  // the first block that is none.
  function Opening(blocks: seq<Block>, j: nat): nat
    decreases |blocks| - j
  {
    if j >= |blocks| then 0
    else if blocks[j].keepNext then 2 + SegsHeight(blocks[j].segs) + Opening(blocks, j + 1)
    else 2 + SegsHeight(blocks[j].segs[..Min(|blocks[j].segs|, MIN_KEEP)])
  }

  // The headings from block j to block k, each with the separator above it.
  function Headings(blocks: seq<Block>, j: nat, k: nat): nat
    requires j <= k <= |blocks|
    decreases k - j
  {
    if j == k then 0 else 2 + SegsHeight(blocks[j].segs) + Headings(blocks, j + 1, k)
  }

  lemma {:induction false} FirstSegs(segs: seq<Seg>)
    ensures |segs| >= 1 ==> SegsHeight(segs[..1]) == LinesHeight(segs[0].lines)
    ensures |segs| >= 2 ==> SegsHeight(segs[..2]) == LinesHeight(segs[0].lines) + LinesHeight(segs[1].lines)
  {
    if |segs| >= 1 { assert segs[..1][..0] == [] && segs[..1][0] == segs[0]; }
    if |segs| >= 2 { assert segs[..2][..1] == segs[..1] && segs[..2][1] == segs[1]; }
  }

  // Under headings j to k, block k, which is none: a separator and its first two segments, or the
  // only one it has.
  lemma {:induction false} OpeningIs(blocks: seq<Block>, j: nat, k: nat)
    requires j <= k < |blocks| && (forall i :: j <= i < k ==> blocks[i].keepNext) && !blocks[k].keepNext
    ensures |blocks[k].segs| >= 2 ==> Opening(blocks, j) == Headings(blocks, j, k) + 2
                                        + LinesHeight(blocks[k].segs[0].lines) + LinesHeight(blocks[k].segs[1].lines)
    ensures |blocks[k].segs| == 1 ==> Opening(blocks, j) == Headings(blocks, j, k) + 2
                                        + LinesHeight(blocks[k].segs[0].lines)
    decreases k - j
  {
    if j < k {
      OpeningIs(blocks, j + 1, k);
    } else {
      FirstSegs(blocks[k].segs);
    }
  }

  // A heading that must go to the next column with what follows it.
  predicate Pulled(blocks: seq<Block>, col: seq<Placed>, b: Block, i: nat, avail: int) {
    b.keepNext && i + 1 < |blocks| && col != [] && avail < SegsHeight(b.segs) + Opening(blocks, i + 1)
  }

  // ---------- the machine ----------

  ghost predicate Stands(blocks: seq<Block>, s: State) {
    LeadsOk(blocks) && s.block < |blocks| && Leftable(blocks[s.block], s.gone)
  }

  // The first k segments of what is left, in the open column.
  ghost function Put(blocks: seq<Block>, s: State, k: nat): State
    requires Stands(blocks, s) && Fresh(s.gone, Here(blocks, s)) <= k <= |Here(blocks, s).segs|
  {
    var p := Part(blocks, s, k);
    if k == |Here(blocks, s).segs| then State(s.done, s.part + [p], s.block + 1, 0)
    else State(s.done, s.part + [p], s.block, p.hi)
  }

  // What is left of the block the flow stands at, and its first k segments as a piece.
  ghost function Here(blocks: seq<Block>, s: State): Block
    requires Stands(blocks, s)
  {
    Left(blocks[s.block], s.gone)
  }

  ghost function Part(blocks: seq<Block>, s: State, k: nat): Piece
    requires Stands(blocks, s) && Fresh(s.gone, Here(blocks, s)) <= k
  {
    Piece(s.block, s.gone, s.gone + k - Fresh(s.gone, Here(blocks, s)))
  }

  function Closed(s: State): State { State(s.done + [s.part], [], s.block, s.gone) }

  ghost function Turned(blocks: seq<Block>, capacity: nat -> int, s: State): State
    requires Stands(blocks, s)
  {
    var b, col := Here(blocks, s), Render(blocks, s.part);
    var avail := Room(col, capacity(|s.done|), b.tight);
    var k := SplitAt(b, avail);
    if Pulled(blocks, col, b, s.block, avail) then Closed(s)
    else if SegsHeight(b.segs) <= avail then Put(blocks, s, |b.segs|)
    else if k == 0 && col != [] then Closed(s)
    else Closed(Put(blocks, s, if k == 0 then ForcedAt(b, avail) else k))
  }

  ghost predicate IsRun(blocks: seq<Block>, capacity: nat -> int, run: seq<State>) {
    && run != [] && run[0] == START
    && forall i :: 0 <= i < |run| - 1 ==> Stands(blocks, run[i]) && run[i + 1] == Turned(blocks, capacity, run[i])
  }

  lemma {:induction false} Begins(blocks: seq<Block>, capacity: nat -> int)
    ensures IsRun(blocks, capacity, [START])
  {
  }

  lemma {:induction false} RunMore(blocks: seq<Block>, capacity: nat -> int, run: seq<State>)
    requires IsRun(blocks, capacity, run) && Stands(blocks, run[|run| - 1])
    ensures IsRun(blocks, capacity, run + [Turned(blocks, capacity, run[|run| - 1])])
  {
    var more := run + [Turned(blocks, capacity, run[|run| - 1])];
    forall i | 0 <= i < |more| - 1
      ensures Stands(blocks, more[i]) && more[i + 1] == Turned(blocks, capacity, more[i])
    {
      if i < |run| - 1 { assert more[i] == run[i] && more[i + 1] == run[i + 1]; }
    }
  }

  // ---------- one column ----------

  // A piece of a block the column holds nothing of yet.
  ghost predicate Next(blocks: seq<Block>, part: seq<Piece>, p: Piece) {
    && PieceOk(blocks, p) && Leftable(blocks[p.block], p.lo)
    && EvenStarts(Render(blocks, part)) && Below(Render(blocks, part), p.block)
  }

  // No line of block i or of a later one.
  ghost predicate Below(col: seq<Placed>, i: nat) {
    forall q :: 0 <= q < |col| && col[q].mark.Of? ==> col[q].mark.block < i
  }

  // What is left of a block where a piece starts, and how many of those segments the piece holds.
  ghost function From(blocks: seq<Block>, p: Piece): Block
    requires PieceOk(blocks, p)
  {
    Left(blocks[p.block], p.lo)
  }

  ghost function Taken(blocks: seq<Block>, p: Piece): int
    requires PieceOk(blocks, p)
  {
    p.hi - p.lo + Fresh(p.lo, From(blocks, p))
  }

  lemma {:induction false} TakenIs(blocks: seq<Block>, p: Piece)
    requires PieceOk(blocks, p) && Leftable(blocks[p.block], p.lo)
    ensures var b, k := From(blocks, p), Taken(blocks, p);
            && Fresh(p.lo, b) <= k <= |b.segs| && (Last(blocks, p) <==> k == |b.segs|)
            && b.segs[..k] == PieceSegs(blocks[p.block], p.lo, p.hi)
  {
    var whole, b := blocks[p.block], From(blocks, p);
    LeftLines(whole, p.lo, b);
    assert |b.segs| - Fresh(p.lo, b) == |b.segs[Fresh(p.lo, b)..]| == |whole.segs| - p.lo;
    PieceIs(whole, p.lo, b, Taken(blocks, p), p.hi);
  }

  lemma {:induction false} RenderNext(blocks: seq<Block>, part: seq<Piece>, p: Piece)
    requires Next(blocks, part, p)
    ensures var col, b, k := Render(blocks, part), From(blocks, p), Taken(blocks, p);
            && 0 <= k <= |b.segs|
            && Render(blocks, part + [p]) ==
               col + Spacer(Height(col) % 2 != 0, col != [] && !b.tight)
                   + MarkSegs(b.segs[..k], p.block, Fresh(p.lo, b))
  {
    TakenIs(blocks, p);
    var col, b := Render(blocks, part), From(blocks, p);
    RenderMore(blocks, part, p, Height(col) % 2 != 0, col != [] && !b.tight, b.segs[..Taken(blocks, p)],
        Fresh(p.lo, b));
  }

  // The column with the piece.
  lemma {:induction false} NextIs(blocks: seq<Block>, part: seq<Piece>, p: Piece, cap: int)
    requires Next(blocks, part, p)
    ensures var col, b, k := Render(blocks, part), From(blocks, p), Taken(blocks, p);
            && 0 <= k <= |b.segs|
            && EvenStarts(Render(blocks, part + [p])) && Below(Render(blocks, part + [p]), p.block + 1)
            && 2 * cap - Height(Render(blocks, part + [p])) == Room(col, cap, b.tight) - SegsHeight(b.segs[..k])
            && (col == [] ==>
                AllOf(Render(blocks, part + [p]), p.block)
                && Lines(Render(blocks, part + [p])) == SegLines(b.segs[..k]))
  {
    TakenIs(blocks, p);
    RenderNext(blocks, part, p);
    var col, b := Render(blocks, part), From(blocks, p);
    var odd, gap, segs, again := Height(col) % 2 != 0, col != [] && !b.tight, b.segs[..Taken(blocks, p)],
        Fresh(p.lo, b);
    PieceHeight(col, Height(col), odd, gap, segs, p.block, again);
    PieceEven(col, odd, gap, segs, p.block, again);
    PieceMarks(col, odd, gap, segs, p.block, again, Render(blocks, part + [p]));
    if col == [] { PieceAlone(segs, p.block, again, Render(blocks, part + [p])); }
  }

  // ---------- why a column ends ----------

  ghost predicate NoSplit(b: Block, avail: int) { forall k: nat :: Splits(b, k) ==> SegsHeight(b.segs[..k]) > avail }

  ghost predicate LastSplit(b: Block, avail: int, k: int) {
    && 0 < k <= |b.segs| && Splits(b, k) && SegsHeight(b.segs[..k]) <= avail
    && forall j: nat :: Splits(b, j) && SegsHeight(b.segs[..j]) <= avail ==> j <= k
  }

  // The last piece of the column is a part of what does not fit: the most that may be split off, or
  // in an empty column, if nothing may, what is forced.
  ghost predicate Cut(blocks: seq<Block>, before: seq<Piece>, p: Piece, cap: int) {
    PieceOk(blocks, p) &&
    var b, k, col := From(blocks, p), Taken(blocks, p), Render(blocks, before);
    var avail := Room(col, cap, b.tight);
    && SegsHeight(b.segs) > avail
    && (LastSplit(b, avail, k) || (col == [] && NoSplit(b, avail) && k == ForcedAt(b, avail)))
  }

  // Nothing more of the document may go into the column: a heading's need exceeds what is left, or
  // the rest of the block does and no split of it fits.
  ghost predicate Blocked(blocks: seq<Block>, col: seq<Placed>, cap: int, i: nat, gone: nat) {
    col != [] && i < |blocks| && Leftable(blocks[i], gone) &&
    var b := Left(blocks[i], gone);
    var avail := Room(col, cap, b.tight);
    Pulled(blocks, col, b, i, avail) || (SegsHeight(b.segs) > avail && NoSplit(b, avail))
  }

  // A column is closed only so.
  ghost predicate Full(blocks: seq<Block>, part: seq<Piece>, cap: int) {
    part != [] &&
    var p := part[|part| - 1];
    || Cut(blocks, part[..|part| - 1], p, cap)
    || (PieceOk(blocks, p) && Last(blocks, p) && Blocked(blocks, Render(blocks, part), cap, p.block + 1, 0))
  }

  // Every heading that is not the first of its column had room for what follows it.
  ghost predicate HeadsStay(blocks: seq<Block>, part: seq<Piece>, cap: int)
    decreases |part|
  {
    part != [] ==>
      var p, before := part[|part| - 1], part[..|part| - 1];
      && HeadsStay(blocks, before, cap) && PieceOk(blocks, p)
      && var b, col := From(blocks, p), Render(blocks, before);
          !Pulled(blocks, col, b, p.block, Room(col, cap, b.tight))
  }

  ghost predicate OpenOk(blocks: seq<Block>, part: seq<Piece>, cap: int) {
    var col := Render(blocks, part);
    EvenStarts(col) && (col == [] || Height(col) <= 2 * cap) && OpenKeeps(blocks, part) && HeadsStay(blocks, part, cap)
  }

  ghost predicate ClosedOk(blocks: seq<Block>, part: seq<Piece>, cap: int) {
    ColumnOk(blocks, Render(blocks, part), cap) && ColumnKeeps(blocks, part) && HeadsStay(blocks, part, cap)
        && Full(blocks, part, cap)
  }

  lemma {:induction false} HeadsStayMore(blocks: seq<Block>, part: seq<Piece>, p: Piece, cap: int)
    requires HeadsStay(blocks, part, cap) && PieceOk(blocks, p)
    requires var b, col := From(blocks, p), Render(blocks, part);
             !Pulled(blocks, col, b, p.block, Room(col, cap, b.tight))
    ensures HeadsStay(blocks, part + [p], cap)
  {
    assert (part + [p])[..|part|] == part;
  }

  // A piece that fits and ends its block.
  lemma {:induction false} OpenMore(blocks: seq<Block>, part: seq<Piece>, p: Piece, cap: int)
    requires OpenOk(blocks, part, cap) && Next(blocks, part, p) && Last(blocks, p)
    requires var b, col := From(blocks, p), Render(blocks, part);
             && SegsHeight(b.segs) <= Room(col, cap, b.tight)
             && !Pulled(blocks, col, b, p.block, Room(col, cap, b.tight))
    ensures OpenOk(blocks, part + [p], cap) && Below(Render(blocks, part + [p]), p.block + 1)
  {
    TakenIs(blocks, p);
    Everything(From(blocks, p).segs);
    NextIs(blocks, part, p, cap);
    KeepsMore(blocks, part, p);
    HeadsStayMore(blocks, part, p, cap);
  }

  // A piece of what does not fit, and the column closed.
  lemma {:induction false} ClosedMore(blocks: seq<Block>, part: seq<Piece>, p: Piece, cap: int)
    requires OpenOk(blocks, part, cap) && Next(blocks, part, p) && Cut(blocks, part, p, cap)
    requires var b, col := From(blocks, p), Render(blocks, part);
             !Pulled(blocks, col, b, p.block, Room(col, cap, b.tight))
    ensures ClosedOk(blocks, part + [p], cap)
  {
    var b, k, col := From(blocks, p), Taken(blocks, p), Render(blocks, part);
    var avail := Room(col, cap, b.tight);
    assert (part + [p])[..|part|] == part;
    TakenIs(blocks, p);
    NextIs(blocks, part, p, cap);
    ForcedAtIs(b, avail);
    CutKeeps(blocks, part, p, cap);
    KeepsMore(blocks, part, p);
    HeadsStayMore(blocks, part, p, cap);
    PartOk(blocks, Render(blocks, part + [p]), cap, p.block, b, k, p.lo);
  }

  lemma {:induction false} CutKeeps(blocks: seq<Block>, part: seq<Piece>, p: Piece, cap: int)
    requires Next(blocks, part, p) && Cut(blocks, part, p, cap)
    ensures Last(blocks, p) || SplitWell(blocks, p) || (Render(blocks, part) == [] && !blocks[p.block].atomic)
  {
    TakenIs(blocks, p);
  }

  lemma {:induction false} Everything(segs: seq<Seg>)
    ensures segs[..|segs|] == segs
  {
  }

  // ---------- every run ----------

  // The closed columns and the open one are as they should be, and their pieces the document so far.
  ghost predicate Good(blocks: seq<Block>, capacity: nat -> int, s: State) {
    && LeadsOk(blocks) && s.block <= |blocks| && (s.gone > 0 ==> s.part == [])
    && (if s.block < |blocks| then Leftable(blocks[s.block], s.gone) else s.gone == 0)
    && Covers(blocks, Flat(s.done) + s.part, s.block, s.gone)
    && AllClosed(blocks, capacity, s.done)
    && OpenOk(blocks, s.part, capacity(|s.done|)) && Below(Render(blocks, s.part), s.block)
  }

  ghost predicate AllClosed(blocks: seq<Block>, capacity: nat -> int, done: seq<seq<Piece>>) {
    forall c :: 0 <= c < |done| ==> ClosedOk(blocks, done[c], capacity(c))
  }

  lemma {:induction false} StartGood(blocks: seq<Block>, capacity: nat -> int)
    requires LeadsOk(blocks)
    ensures Good(blocks, capacity, START)
  {
  }

  lemma {:induction false} EmptyOk(blocks: seq<Block>, cap: int, i: nat)
    ensures OpenOk(blocks, [], cap) && Below(Render(blocks, []), i)
  {
  }

  // The open column closed.
  lemma {:induction false} ClosedGood(blocks: seq<Block>, capacity: nat -> int, s: State)
    requires LeadsOk(blocks) && s.block <= |blocks|
    requires if s.block < |blocks| then Leftable(blocks[s.block], s.gone) else s.gone == 0
    requires Covers(blocks, Flat(s.done) + s.part, s.block, s.gone)
    requires AllClosed(blocks, capacity, s.done) && ClosedOk(blocks, s.part, capacity(|s.done|))
    ensures Good(blocks, capacity, Closed(s))
  {
    CoversClosed(blocks, s);
    AllClosedMore(blocks, capacity, s.done, s.part);
    EmptyOk(blocks, capacity(|s.done| + 1), s.block);
  }

  lemma {:induction false} CoversClosed(blocks: seq<Block>, s: State)
    requires Covers(blocks, Flat(s.done) + s.part, s.block, s.gone)
    ensures Covers(blocks, Flat(Closed(s).done) + Closed(s).part, s.block, s.gone)
  {
    FlatSnoc(s.done, s.part);
    assert Flat(s.done) + s.part + [] == Flat(s.done) + s.part;
  }

  lemma {:induction false} AllMore<T>(ok: (T, nat) -> bool, xs: seq<T>, x: T)
    requires (forall c :: 0 <= c < |xs| ==> ok(xs[c], c)) && ok(x, |xs|)
    ensures forall c :: 0 <= c < |xs + [x]| ==> ok((xs + [x])[c], c)
  {
  }

  lemma {:induction false} AllClosedMore(blocks: seq<Block>, capacity: nat -> int, done: seq<seq<Piece>>,
      part: seq<Piece>)
    requires AllClosed(blocks, capacity, done) && ClosedOk(blocks, part, capacity(|done|))
    ensures AllClosed(blocks, capacity, done + [part])
  {
    var ok: (seq<Piece>, nat) -> bool := (p: seq<Piece>, c: nat) => ClosedOk(blocks, p, capacity(c));
    AllMore(ok, done, part);
    forall c | 0 <= c < |done + [part]|
      ensures ClosedOk(blocks, (done + [part])[c], capacity(c))
    {
      assert ok((done + [part])[c], c);
    }
  }

  // Where a run stands in the middle of a column, the last piece has ended its block.
  lemma {:induction false} LastEnds(blocks: seq<Block>, capacity: nat -> int, s: State)
    requires Good(blocks, capacity, s) && s.part != []
    ensures var p := s.part[|s.part| - 1]; PieceOk(blocks, p) && Last(blocks, p) && s.block == p.block + 1
  {
    var all := Flat(s.done) + s.part;
    assert all[|all| - 1] == s.part[|s.part| - 1];
  }

  // Closed because what comes next may not go there.
  lemma {:induction false} BlockedGood(blocks: seq<Block>, capacity: nat -> int, s: State)
    requires Good(blocks, capacity, s) && Blocked(blocks, Render(blocks, s.part), capacity(|s.done|), s.block, s.gone)
    ensures Good(blocks, capacity, Closed(s))
  {
    assert s.part != [];
    LastEnds(blocks, capacity, s);
    BlockedFull(blocks, s.part, capacity(|s.done|));
    OpenFull(blocks, s.part, capacity(|s.done|));
    ClosedGood(blocks, capacity, s);
  }

  lemma {:induction false} BlockedFull(blocks: seq<Block>, part: seq<Piece>, cap: int)
    requires part != [] && PieceOk(blocks, part[|part| - 1]) && Last(blocks, part[|part| - 1])
    requires Blocked(blocks, Render(blocks, part), cap, part[|part| - 1].block + 1, 0)
    ensures Full(blocks, part, cap)
  {
  }

  lemma {:induction false} OpenFull(blocks: seq<Block>, part: seq<Piece>, cap: int)
    requires OpenOk(blocks, part, cap) && Full(blocks, part, cap)
    ensures ClosedOk(blocks, part, cap)
  {
    OpenIsClosed(blocks, part);
  }

  lemma {:induction false} PartIs(blocks: seq<Block>, s: State, k: nat)
    requires Stands(blocks, s)
    requires var b := Here(blocks, s); Fresh(s.gone, b) <= k <= |b.segs|
    ensures var p := Part(blocks, s, k);
            && PieceOk(blocks, p) && From(blocks, p) == Here(blocks, s) && Taken(blocks, p) == k
            && (Last(blocks, p) <==> k == |Here(blocks, s).segs|)
  {
    var p := Part(blocks, s, k);
    PieceIs(blocks[s.block], s.gone, Here(blocks, s), k, p.hi);
    TakenIs(blocks, p);
  }

  // The column with what is put.
  lemma {:induction false} PutRendered(blocks: seq<Block>, s: State, k: nat)
    requires Stands(blocks, s) && Fresh(s.gone, Here(blocks, s)) <= k <= |Here(blocks, s).segs|
    ensures var b, col := Here(blocks, s), Render(blocks, s.part);
            Render(blocks, Put(blocks, s, k).part) ==
            col + Spacer(Height(col) % 2 != 0, col != [] && !b.tight) + MarkSegs(b.segs[..k], s.block, Fresh(s.gone, b))
  {
    var p, b, col := Part(blocks, s, k), Here(blocks, s), Render(blocks, s.part);
    PartIs(blocks, s, k);
    TakenIs(blocks, p);
    RenderMore(blocks, s.part, p, Height(col) % 2 != 0, col != [] && !b.tight, b.segs[..k], Fresh(s.gone, b));
  }

  lemma {:induction false} PutCovers(blocks: seq<Block>, s: State, k: nat)
    requires Stands(blocks, s) && Covers(blocks, Flat(s.done) + s.part, s.block, s.gone)
    requires var b := Here(blocks, s);
             Fresh(s.gone, b) <= k <= |b.segs| && (k < |b.segs| ==> k > b.repeated && !b.atomic)
    ensures var t := Put(blocks, s, k);
            && Covers(blocks, Flat(t.done) + t.part, t.block, t.gone)
            && t.block <= |blocks| && if t.block < |blocks| then Leftable(blocks[t.block], t.gone) else t.gone == 0
  {
    var p := Part(blocks, s, k);
    PartIs(blocks, s, k);
    CoversMore(blocks, Flat(s.done) + s.part, p);
    Joined(Flat(s.done), s.part, p);
  }

  lemma {:induction false} Joined(a: seq<Piece>, b: seq<Piece>, p: Piece)
    ensures a + (b + [p]) == a + b + [p]
  {
  }

  lemma {:induction false} PutGood(blocks: seq<Block>, capacity: nat -> int, s: State)
    requires Good(blocks, capacity, s) && Stands(blocks, s)
    requires var b, col := Here(blocks, s), Render(blocks, s.part);
             var avail := Room(col, capacity(|s.done|), b.tight);
             SegsHeight(b.segs) <= avail && !Pulled(blocks, col, b, s.block, avail)
    ensures Good(blocks, capacity, Put(blocks, s, |Here(blocks, s).segs|))
  {
    var k := |Here(blocks, s).segs|;
    LeftLines(blocks[s.block], s.gone, Here(blocks, s));
    PartIs(blocks, s, k);
    PutCovers(blocks, s, k);
    OpenMore(blocks, s.part, Part(blocks, s, k), capacity(|s.done|));
  }

  lemma {:induction false} CutGood(blocks: seq<Block>, capacity: nat -> int, s: State, k: nat)
    requires Good(blocks, capacity, s) && Stands(blocks, s)
    requires var b, col := Here(blocks, s), Render(blocks, s.part);
             var avail := Room(col, capacity(|s.done|), b.tight);
             && SegsHeight(b.segs) > avail && !Pulled(blocks, col, b, s.block, avail)
             && (LastSplit(b, avail, k) || (col == [] && NoSplit(b, avail) && k == ForcedAt(b, avail)))
             && Fresh(s.gone, b) <= k <= |b.segs| && (k < |b.segs| ==> k > b.repeated && !b.atomic)
    ensures Good(blocks, capacity, Closed(Put(blocks, s, k)))
  {
    PartIs(blocks, s, k);
    PutCovers(blocks, s, k);
    ClosedMore(blocks, s.part, Part(blocks, s, k), capacity(|s.done|));
    ClosedGood(blocks, capacity, Put(blocks, s, k));
  }

  // A turn keeps all of it.
  lemma {:induction false} TurnGood(blocks: seq<Block>, capacity: nat -> int, s: State)
    requires Good(blocks, capacity, s) && Stands(blocks, s)
    ensures Good(blocks, capacity, Turned(blocks, capacity, s))
  {
    var b, col := Here(blocks, s), Render(blocks, s.part);
    var avail := Room(col, capacity(|s.done|), b.tight);
    var k := SplitAt(b, avail);
    SplitAtIs(b, avail);
    if Pulled(blocks, col, b, s.block, avail) {
      BlockedGood(blocks, capacity, s);
    } else if SegsHeight(b.segs) <= avail {
      PutGood(blocks, capacity, s);
    } else if k == 0 && col != [] {
      BlockedGood(blocks, capacity, s);
    } else {
      CutGood(blocks, capacity, s, if k == 0 then ForcedAt(b, avail) else k);
    }
  }

  lemma {:induction false} RunGood(blocks: seq<Block>, capacity: nat -> int, run: seq<State>, i: nat)
    requires LeadsOk(blocks) && IsRun(blocks, capacity, run) && i < |run|
    ensures Good(blocks, capacity, run[i])
    decreases i
  {
    if i == 0 {
      StartGood(blocks, capacity);
    } else {
      RunGood(blocks, capacity, run, i - 1);
      TurnGood(blocks, capacity, run[i - 1]);
      assert run[i] == Turned(blocks, capacity, run[i - 1]);
    }
  }

  // ---------- the end of a run ----------

  // The columns of a finished run: the open one too, unless it is empty and not the only one.
  ghost function AllColumns(blocks: seq<Block>, s: State): seq<seq<Piece>> {
    if Render(blocks, s.part) != [] || s.done == [] then s.done + [s.part] else s.done
  }

  lemma {:induction false} AllColumnsCover(blocks: seq<Block>, s: State)
    requires Covers(blocks, Flat(s.done) + s.part, |blocks|, 0)
    ensures AllOk(blocks, Flat(AllColumns(blocks, s)))
            && PieceLines(blocks, Flat(AllColumns(blocks, s))) == BlockLines(blocks)
  {
    var all := Flat(s.done) + s.part;
    CoversLines(blocks, all, |blocks|, 0);
    CoversOk(blocks, all, |blocks|, 0);
    assert blocks[..|blocks|] == blocks;
    FlatSnoc(s.done, s.part);
    assert forall p :: p in s.part || p in Flat(s.done) ==> p in all;
    if AllColumns(blocks, s) == s.done {
      if Render(blocks, s.part) == [] { NothingLeft(blocks, Flat(s.done), s.part); }
    }
  }

  lemma {:induction false} NothingLeft(blocks: seq<Block>, pieces: seq<Piece>, part: seq<Piece>)
    requires AllOk(blocks, part) && Render(blocks, part) == []
    ensures PieceLines(blocks, pieces + part) == PieceLines(blocks, pieces)
  {
    RenderOwn(blocks, part);
    PieceLinesAppend(blocks, pieces, part);
  }

  // Every line of the document once and in order, less what is set again.
  lemma {:induction false} EndLines(blocks: seq<Block>, s: State, cols: seq<seq<Placed>>)
    requires Covers(blocks, Flat(s.done) + s.part, |blocks|, 0) && AllRendered(blocks, AllColumns(blocks, s), cols)
    ensures OwnAll(cols) == BlockLines(blocks)
  {
    AllColumnsCover(blocks, s);
    OwnAllIs(blocks, AllColumns(blocks, s), cols);
  }

  // Every column is well made, and every one but the open one is full.
  lemma {:induction false} EndColumns(blocks: seq<Block>, capacity: nat -> int, s: State, c: nat)
    requires Good(blocks, capacity, s) && c < |AllColumns(blocks, s)|
    ensures var part := AllColumns(blocks, s)[c];
            && ColumnOk(blocks, Render(blocks, part), capacity(c)) && ColumnKeeps(blocks, part)
            && HeadsStay(blocks, part, capacity(c)) && (c < |s.done| ==> Full(blocks, part, capacity(c)))
  {
    OpenIsClosed(blocks, s.part);
    assert c < |s.done| ==> AllColumns(blocks, s)[c] == s.done[c];
    assert c == |s.done| ==> AllColumns(blocks, s)[c] == s.part;
  }

  // ---------- a heading and what follows it ----------

  // No split fits exactly when none may be made, or the first that may does not fit.
  lemma {:induction false} NoSplitExactly(b: Block, avail: int)
    ensures NoSplit(b, avail) <==>
              || b.atomic || |b.segs| < b.repeated + 2 * MIN_KEEP
              || SegsHeight(b.segs[..b.repeated + MIN_KEEP]) > avail
  {
    if !b.atomic && |b.segs| >= b.repeated + 2 * MIN_KEEP {
      var first := b.repeated + MIN_KEEP;
      assert Splits(b, first);
      if SegsHeight(b.segs[..first]) > avail {
        forall k: nat | Splits(b, k)
          ensures SegsHeight(b.segs[..k]) > avail
        {
          HeightGrows(b.segs, first, k);
        }
      }
    }
  }

  lemma {:induction false} SplitAtNone(b: Block, avail: int)
    ensures SplitAt(b, avail) == 0 <==> NoSplit(b, avail)
  {
    SplitAtIs(b, avail);
  }

  // Where what comes next ends the column before it.
  lemma {:induction false} TurnedCloses(blocks: seq<Block>, capacity: nat -> int, s: State)
    requires Stands(blocks, s) && Render(blocks, s.part) != []
    ensures var b, col := Here(blocks, s), Render(blocks, s.part);
            var avail := Room(col, capacity(|s.done|), b.tight);
            Turned(blocks, capacity, s) == Closed(s) <==>
              Pulled(blocks, col, b, s.block, avail) || (SegsHeight(b.segs) > avail && SplitAt(b, avail) == 0)
  {
    var b := Here(blocks, s);
    var avail := Room(Render(blocks, s.part), capacity(|s.done|), b.tight);
    var k := SplitAt(b, avail);
    assert |Closed(s).done| == |s.done| + 1;
    if SegsHeight(b.segs) > avail && k > 0 {
      var t := Put(blocks, s, k);
      assert t.part != s.part && Closed(t).done[|s.done|] == t.part && Closed(s).done[|s.done|] == s.part;
    }
  }

  // A heading ends its column, what follows it going to the next, if and only if that is a heading
  // without room for what follows it in turn, or does not fit and cannot be split: it is atomic, or
  // has too few segments, or its lead-in and two segments do not fit. The room the heading was given
  // is for two segments only, without a lead-in and without the half line an odd heading leaves
  // before the next block. (A flow in the middle of a column stands before a block's first segment.)
  lemma {:induction false} HeadingLast(blocks: seq<Block>, capacity: nat -> int, s: State)
    requires Stands(blocks, s) && s.gone == 0 && Render(blocks, s.part) != []
    requires s.block > 0 && blocks[s.block - 1].keepNext
    ensures var b := blocks[s.block];
            var avail := Room(Render(blocks, s.part), capacity(|s.done|), b.tight);
            Turned(blocks, capacity, s) == Closed(s) <==>
              || (b.keepNext && s.block + 1 < |blocks| && avail < SegsHeight(b.segs) + Opening(blocks, s.block + 1))
              || (SegsHeight(b.segs) > avail
                  && (b.atomic || |b.segs| < b.repeated + 2 * MIN_KEEP
                      || SegsHeight(b.segs[..b.repeated + MIN_KEEP]) > avail))
  {
    var b := Here(blocks, s);
    var avail := Room(Render(blocks, s.part), capacity(|s.done|), b.tight);
    TurnedCloses(blocks, capacity, s);
    SplitAtNone(b, avail);
    NoSplitExactly(b, avail);
  }

  // Else the column goes on with what follows: the whole of it, or its lead-in and two segments.
  lemma {:induction false} HeadingFollowed(blocks: seq<Block>, capacity: nat -> int, s: State) returns (k: nat)
    requires Stands(blocks, s) && s.gone == 0 && Render(blocks, s.part) != []
             && Turned(blocks, capacity, s) != Closed(s)
    ensures k == |blocks[s.block].segs| || blocks[s.block].repeated + MIN_KEEP <= k < |blocks[s.block].segs|
    ensures Turned(blocks, capacity, s) == Put(blocks, s, k) || Turned(blocks, capacity, s) == Closed(Put(blocks, s, k))
  {
    var b := Here(blocks, s);
    var avail := Room(Render(blocks, s.part), capacity(|s.done|), b.tight);
    k := if SegsHeight(b.segs) <= avail then |b.segs| else SplitAt(b, avail);
  }

  // A heading that something follows ends its column with a piece of its own if and only if it comes
  // first there and does not fit: what is forced closes the column.
  lemma {:induction false} HeadingForced(blocks: seq<Block>, capacity: nat -> int, s: State)
    requires Stands(blocks, s) && s.gone == 0 && blocks[s.block].keepNext && s.block + 1 < |blocks|
    ensures var b, col := blocks[s.block], Render(blocks, s.part);
            (exists k: nat :: Fresh(0, b) <= k <= |b.segs|
                && Turned(blocks, capacity, s) == Closed(Put(blocks, s, k))) <==>
              col == [] && SegsHeight(b.segs) > Room(col, capacity(|s.done|), b.tight)
  {
    var b, col, t := Here(blocks, s), Render(blocks, s.part), Turned(blocks, capacity, s);
    var avail := Room(col, capacity(|s.done|), b.tight);
    if col == [] && SegsHeight(b.segs) > avail {
      var k := if SplitAt(b, avail) == 0 then ForcedAt(b, avail) else SplitAt(b, avail);
      assert t == Closed(Put(blocks, s, k));
    } else if Pulled(blocks, col, b, s.block, avail) {
      forall k: nat | Fresh(0, b) <= k <= |b.segs|
        ensures t != Closed(Put(blocks, s, k))
      {
        assert t.done[|s.done|] == s.part
            && Closed(Put(blocks, s, k)).done[|s.done|] == Put(blocks, s, k).part != s.part;
      }
    } else {
      assert SegsHeight(b.segs) <= avail;
      assert |t.done| == |s.done|;
    }
  }

  // ---------- a heading left alone ----------

  function OfLines(n: nat, role: Role): Block {
    Block(seq(n, _ => Seg([SLine("", role)])), 0, false, role == Heading, false)
  }

  // A line of text, a heading, and three lines under it, in columns of seven lines.
  const TEXT := [OfLines(1, Body), OfLines(1, Heading), OfLines(3, Body)]
  const SEVEN: nat -> int := _ => 7

  // A line of text, two headings, and four lines under them, in columns of nine.
  const CHAIN := [OfLines(1, Body), OfLines(1, Heading), OfLines(1, Heading), OfLines(4, Body)]
  const NINE: nat -> int := _ => 9

  lemma {:induction false} LinesHigh(n: nat, role: Role, k: nat)
    requires k <= n
    ensures SegsHeight(OfLines(n, role).segs[..k]) == k * Units(role)
    decreases k
  {
    if k > 0 {
      var segs := OfLines(n, role).segs;
      LinesHigh(n, role, k - 1);
      assert segs[..k][..k - 1] == segs[..k - 1];
      assert LinesHeight([]) == 0;
      assert LinesHeight([SLine("", role)]) == LinesHeight([SLine("", role)][..0]) + Units(role);
    }
  }

  // The flow at the start of block i, in a first column of height h.
  ghost predicate Midway(blocks: seq<Block>, s: State, i: nat, h: nat) {
    && s.done == [] && s.block == i && s.gone == 0 && i < |blocks| && LeadsOk(blocks)
    && EvenStarts(Render(blocks, s.part)) && Below(Render(blocks, s.part), i) && Height(Render(blocks, s.part)) == h
  }

  lemma {:induction false} TurnedPuts(blocks: seq<Block>, capacity: nat -> int, s: State)
    requires Stands(blocks, s) && s.gone == 0
    requires var b, col := blocks[s.block], Render(blocks, s.part);
             var avail := Room(col, capacity(|s.done|), b.tight);
             SegsHeight(b.segs) <= avail && !Pulled(blocks, col, b, s.block, avail)
    ensures Turned(blocks, capacity, s) ==
            State(s.done, s.part + [Piece(s.block, 0, |blocks[s.block].segs|)], s.block + 1, 0)
  {
  }

  lemma {:induction false} WholeIs(blocks: seq<Block>, part: seq<Piece>, i: nat, cap: int)
    requires i < |blocks| && LeadsOk(blocks) && EvenStarts(Render(blocks, part)) && Below(Render(blocks, part), i)
    ensures var more := Render(blocks, part + [Piece(i, 0, |blocks[i].segs|)]);
            && EvenStarts(more) && Below(more, i + 1)
            && Height(more) == 2 * cap - Room(Render(blocks, part), cap, blocks[i].tight) + SegsHeight(blocks[i].segs)
  {
    var p := Piece(i, 0, |blocks[i].segs|);
    TakenIs(blocks, p);
    NextIs(blocks, part, p, cap);
    Everything(blocks[i].segs);
  }

  // A turn that puts a whole block of height h where there is room for it, and the column then.
  lemma {:induction false} WholePut(blocks: seq<Block>, capacity: nat -> int, s: State, i: nat, was: nat, h: nat)
      returns (t: State)
    requires Midway(blocks, s, i, was) && i + 1 < |blocks| && !blocks[i].tight && SegsHeight(blocks[i].segs) == h
    requires (was == 0 ==> s.part == [])
    requires var low := was + was % 2 + if was == 0 then 0 else 2;
             low + h + (if blocks[i].keepNext then Opening(blocks, i + 1) else 0) <= 2 * capacity(0)
    ensures t == State([], s.part + [Piece(i, 0, |blocks[i].segs|)], i + 1, 0) && Turned(blocks, capacity, s) == t
    ensures Midway(blocks, t, i + 1, was + was % 2 + (if was == 0 then 0 else 2) + h)
  {
    t := State([], s.part + [Piece(i, 0, |blocks[i].segs|)], i + 1, 0);
    WholeIs(blocks, s.part, i, capacity(0));
    TurnedPuts(blocks, capacity, s);
  }

  lemma {:induction false} Onward(blocks: seq<Block>, capacity: nat -> int, run: seq<State>, s: State, t: State)
      returns (more: seq<State>)
    requires IsRun(blocks, capacity, run) && run[|run| - 1] == s && Stands(blocks, s)
             && Turned(blocks, capacity, s) == t
    ensures IsRun(blocks, capacity, more) && more[|more| - 1] == t
  {
    RunMore(blocks, capacity, run);
    more := run + [t];
  }

  // Any text of two half lines and a heading of three, with room for what follows.
  lemma {:induction false} TextAndHeading(blocks: seq<Block>, capacity: nat -> int)
      returns (run: seq<State>, two: State)
    requires |blocks| >= 3 && LeadsOk(blocks) && 7 + Opening(blocks, 2) <= 2 * capacity(0)
    requires !blocks[0].keepNext && blocks[1].keepNext && !blocks[0].tight && !blocks[1].tight
    requires SegsHeight(blocks[0].segs) == 2 && SegsHeight(blocks[1].segs) == 3
    ensures IsRun(blocks, capacity, run) && run[|run| - 1] == two && Midway(blocks, two, 2, 7)
    ensures two == State([], [] + [Piece(0, 0, |blocks[0].segs|)] + [Piece(1, 0, |blocks[1].segs|)], 2, 0)
  {
    EmptyOk(blocks, capacity(0), 0);
    Begins(blocks, capacity);
    var one := WholePut(blocks, capacity, START, 0, 0, 2);
    run := Onward(blocks, capacity, [START], START, one);
    two := WholePut(blocks, capacity, one, 1, 2, 3);
    run := Onward(blocks, capacity, run, one, two);
  }

  // What follows does not go on in a column of height 7: three segments of six half lines, which
  // cannot be split, or a heading whose need the pad of the one before it exceeds.
  lemma {:induction false} NextMoves(blocks: seq<Block>, capacity: nat -> int, s: State)
    requires Midway(blocks, s, 2, 7) && blocks[1].keepNext && !blocks[2].tight
    requires || (capacity(0) == 7 && !blocks[2].keepNext && |blocks[2].segs| == 3 && SegsHeight(blocks[2].segs) == 6)
             || (capacity(0) == 9 && blocks[2].keepNext && |blocks| == 4 && SegsHeight(blocks[2].segs) == 3
                 && Opening(blocks, 3) == 6)
    ensures Stands(blocks, s) && Turned(blocks, capacity, s) == Closed(s)
  {
    assert Room(Render(blocks, s.part), capacity(0), false) == 2 * capacity(0) - 10;
    HeadingLast(blocks, capacity, s);
  }

  lemma {:induction false} ClosedThere(two: State)
    requires two == State([], [] + [Piece(0, 0, 1)] + [Piece(1, 0, 1)], 2, 0)
    ensures Closed(two) == State([[Piece(0, 0, 1), Piece(1, 0, 1)]], [], 2, 0)
  {
    var part := [Piece(0, 0, 1), Piece(1, 0, 1)];
    assert two.part == part;
    assert [] + [part] == [part];
  }

  // The flow closes the column below the heading, the heading last in it.
  lemma {:induction false} HeadingAlone() returns (run: seq<State>)
    ensures LeadsOk(TEXT) && TEXT[1].keepNext && IsRun(TEXT, SEVEN, run)
    ensures run[|run| - 1] == State([[Piece(0, 0, 1), Piece(1, 0, 1)]], [], 2, 0)
  {
    LinesHigh(1, Body, 1);
    LinesHigh(1, Heading, 1);
    LinesHigh(3, Body, 3);
    LinesHigh(3, Body, 2);
    Everything(TEXT[0].segs);
    Everything(TEXT[1].segs);
    Everything(TEXT[2].segs);
    var two;
    run, two := TextAndHeading(TEXT, SEVEN);
    NextMoves(TEXT, SEVEN, two);
    run := Onward(TEXT, SEVEN, run, two, Closed(two));
    ClosedThere(two);
  }

  // So it does between two headings.
  lemma {:induction false} ChainBroken() returns (run: seq<State>)
    ensures LeadsOk(CHAIN) && CHAIN[1].keepNext && CHAIN[2].keepNext && IsRun(CHAIN, NINE, run)
    ensures run[|run| - 1] == State([[Piece(0, 0, 1), Piece(1, 0, 1)]], [], 2, 0)
  {
    LinesHigh(1, Body, 1);
    LinesHigh(1, Heading, 1);
    LinesHigh(4, Body, 4);
    LinesHigh(4, Body, 2);
    Everything(CHAIN[0].segs);
    Everything(CHAIN[1].segs);
    Everything(CHAIN[2].segs);
    Everything(CHAIN[3].segs);
    assert Opening(CHAIN, 3) == 6;
    assert Opening(CHAIN, 2) == 11;
    var two;
    run, two := TextAndHeading(CHAIN, NINE);
    NextMoves(CHAIN, NINE, two);
    run := Onward(CHAIN, NINE, run, two, Closed(two));
    ClosedThere(two);
  }
}
