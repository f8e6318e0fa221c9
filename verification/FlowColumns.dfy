/** The flow itself (pica/press/flow.go): the column being filled, the columns closed, and the
    blocks placed or split into them, turn by turn. */
module FlowColumns {
  import opened Blocks
  import opened FlowPieces
  import opened FlowTurns

  method Need(blocks: seq<Block>, i: nat, h: nat) returns (need: nat)
    requires i < |blocks|
    ensures need == h + Opening(blocks, i + 1)
  {
    need := h;
    var j := i + 1;
    while j < |blocks| && blocks[j].keepNext
      invariant i < j <= |blocks| && need + Opening(blocks, j) == h + Opening(blocks, i + 1)
    {
      need, j := need + 2 + SegsHeight(blocks[j].segs), j + 1;
    }
    if j < |blocks| { need := need + 2 + SegsHeight(blocks[j].segs[..Min(|blocks[j].segs|, MIN_KEEP)]); }
  }

  class Columns {
    var out: seq<seq<Placed>>
    var cur: seq<Placed>
    var curH: nat
    var colIdx: nat
    ghost var at: State   // the pieces of the columns, and where the flow stands

    ghost predicate Valid(blocks: seq<Block>)
      reads this
    {
      && AllRendered(blocks, at.done, out) && cur == Render(blocks, at.part)
      && curH == Height(cur) && colIdx == |out|
    }

    constructor (blocks: seq<Block>)
      ensures Valid(blocks) && at == START
    {
      out, cur, curH, colIdx, at := [], [], 0, 0, START;
    }

    method CloseCol(blocks: seq<Block>)
      requires Valid(blocks)
      modifies this
      ensures Valid(blocks) && at == Closed(old(at)) && cur == []
    {
      out := out + [cur];
      cur, curH, colIdx := [], 0, colIdx + 1;
      at := Closed(at);
    }

    // The pad and the separator before a piece.
    method Space(tight: bool)
      requires curH == Height(cur)
      modifies this`cur, this`curH
      ensures cur == old(cur) + Spacer(old(curH) % 2 != 0, old(cur) != [] && !tight) && curH == Height(cur)
    {
      ghost var odd, gap, was := curH % 2 != 0, cur != [] && !tight, cur;
      SpacerIs(odd, gap);
      HeightAppend(was, Spacer(odd, gap));
      if curH % 2 != 0 {
        cur := cur + [Placed(SLine("", Half), Pad)];
        curH := curH + 1;
      }
      if |cur| > 0 && !tight {
        cur := cur + [Placed(SLine("", Body), Gap)];
        curH := curH + 2;
      }
      assert was != [] || !odd;
      assert cur == was + Spacer(odd, gap);
    }

    method PutSeg(s: Seg, i: nat, again: bool)
      requires curH == Height(cur)
      modifies this`cur, this`curH
      ensures cur == old(cur) + MarkLines(s.lines, i, again) && curH == Height(cur)
    {
      MarkedLines(s.lines, i, again);
      HeightAppend(cur, MarkLines(s.lines, i, again));
      cur := cur + MarkLines(s.lines, i, again);
      curH := curH + LinesHeight(s.lines);
    }

    // A pad to a whole body line, a separator, and the segments.
    method PutSegs(b: Block, upto: nat, i: nat, again: nat)
      requires curH == Height(cur) && upto <= |b.segs|
      modifies this`cur, this`curH
      ensures cur == old(cur) + Spacer(old(curH) % 2 != 0, old(cur) != [] && !b.tight)
              + MarkSegs(b.segs[..upto], i, again)
      ensures curH == Height(cur)
    {
      Space(b.tight);
      ghost var lead := cur;
      assert b.segs[..0] == [] && lead + [] == lead;
      var q := 0;
      while q < upto
        invariant q <= upto && cur == lead + MarkSegs(b.segs[..q], i, again) && curH == Height(cur)
      {
        ghost var before, more := MarkSegs(b.segs[..q], i, again), MarkLines(b.segs[q].lines, i, q < again);
        assert b.segs[..q + 1][..q] == b.segs[..q];
        assert lead + before + more == lead + (before + more);
        PutSeg(b.segs[q], i, q < again);
        q := q + 1;
      }
    }

    // place: the first segments of what is left of the block the flow stands at.
    method Place(blocks: seq<Block>, b: Block, upto: nat, i: nat, gone: nat)
      requires Valid(blocks) && Stands(blocks, at) && at.block == i && at.gone == gone && b == Here(blocks, at)
      requires Fresh(gone, b) <= upto <= |b.segs|
      modifies this
      ensures Valid(blocks) && at == Put(blocks, old(at), upto)
    {
      PutRendered(blocks, at, upto);
      PutSegs(b, upto, i, Fresh(gone, b));
      at := Put(blocks, at, upto);
    }

    // What the column has left.
    method Avail(colCap: int, tight: bool) returns (avail: int)
      requires curH == Height(cur)
      ensures avail == Room(cur, colCap, tight)
    {
      var sep := if |cur| > 0 && !tight then 2 else 0;
      var snap := curH % 2;
      avail := 2 * colCap - curH - snap - sep;
    }

    // Keep-with-next: whether a heading must go to the next column with what follows it.
    method MustGo(blocks: seq<Block>, i: nat, b: Block, avail: int) returns (yes: bool)
      requires i < |blocks|
      ensures yes == Pulled(blocks, cur, b, i, avail)
    {
      if !b.keepNext || i + 1 >= |blocks| || |cur| == 0 { return false; }
      var need := Need(blocks, i, SegsHeight(b.segs));
      return avail < need;
    }

    // One turn of the inner loop: all of the block placed, a part placed and the column closed, or
    // the column closed for what must not be split here or must stay with what follows it.
    method Turn(blocks: seq<Block>, capacity: nat -> int, i: nat, b: Block, gone: nat)
        returns (done: bool, next: Block, gone': nat)
      requires Valid(blocks) && Stands(blocks, at) && at.block == i && at.gone == gone && b == Here(blocks, at)
      modifies this
      ensures Valid(blocks) && at == Turned(blocks, capacity, old(at))
      ensures if done then at.block == i + 1 && at.gone == 0
              else Stands(blocks, at) && at.block == i && at.gone == gone' && next == Here(blocks, at)
      ensures !done ==> |next.segs| < |b.segs| || (next == b && old(cur) != [] && cur == [])
    {
      var avail := Avail(capacity(colIdx), b.tight);
      var h := SegsHeight(b.segs);
      var mustGo := MustGo(blocks, i, b, avail);
      if mustGo {
        CloseCol(blocks);
        return false, b, gone;
      }
      if h <= avail {
        Place(blocks, b, |b.segs|, i, gone);
        return true, b, gone;
      }
      done, next, gone' := Split(blocks, i, b, gone, avail);
    }

    // A block that does not fit: split, or left for the next column, or forced into an empty one.
    method Split(blocks: seq<Block>, i: nat, b: Block, gone: nat, avail: int)
        returns (done: bool, next: Block, gone': nat)
      requires Valid(blocks) && Stands(blocks, at) && at.block == i && at.gone == gone && b == Here(blocks, at)
      modifies this
      ensures Valid(blocks)
      ensures var k := SplitAt(b, avail);
              at == if k == 0 && old(cur) != [] then Closed(old(at))
                    else Closed(Put(blocks, old(at), if k == 0 then ForcedAt(b, avail) else k))
      ensures if done then at.block == i + 1 && at.gone == 0
              else Stands(blocks, at) && at.block == i && at.gone == gone' && next == Here(blocks, at)
      ensures !done ==> |next.segs| < |b.segs| || (next == b && old(cur) != [] && cur == [])
    {
      var k := SplitSegs(b, avail);
      if k <= 0 {
        if |cur| > 0 {
          CloseCol(blocks);
          return false, b, gone;
        }
        k := ForceSplit(b, avail);
      }
      done, next, gone' := Break(blocks, i, b, gone, k);
    }

    // The first k segments, and the column closed.
    method Break(blocks: seq<Block>, i: nat, b: Block, gone: nat, k: nat) returns (done: bool, next: Block, gone': nat)
      requires Valid(blocks) && Stands(blocks, at) && at.block == i && at.gone == gone && b == Here(blocks, at)
      requires Fresh(gone, b) <= k <= |b.segs| && (k < |b.segs| ==> k > b.repeated && !b.atomic)
      modifies this
      ensures Valid(blocks) && at == Closed(Put(blocks, old(at), k))
      ensures if done then at.block == i + 1 && at.gone == 0
              else
                && Stands(blocks, at) && at.block == i && at.gone == gone' && next == Here(blocks, at)
                && |next.segs| < |b.segs|
    {
      next, gone', done := Rest(b, k), gone + k - Fresh(gone, b), k >= |b.segs|;
      RestLeft(blocks[i], gone, b, k, gone', next);
      Place(blocks, b, k, i, gone);
      CloseCol(blocks);
    }

    // A block, turn by turn.
    method PutBlock(blocks: seq<Block>, capacity: nat -> int, i: nat, ghost run: seq<State>)
        returns (ghost more: seq<State>)
      requires Valid(blocks) && LeadsOk(blocks) && i < |blocks| && at.block == i && at.gone == 0
      requires IsRun(blocks, capacity, run) && run[|run| - 1] == at
      modifies this
      ensures Valid(blocks) && at.block == i + 1 && at.gone == 0
      ensures IsRun(blocks, capacity, more) && more[|more| - 1] == at
    {
      var b, gone: nat, done := blocks[i], 0, false;
      more := run;
      while !done
        invariant Valid(blocks) && IsRun(blocks, capacity, more) && more[|more| - 1] == at
        invariant done ==> at.block == i + 1 && at.gone == 0
        invariant !done ==> Stands(blocks, at) && at.block == i && at.gone == gone && b == Here(blocks, at)
        decreases !done, |b.segs|, cur != []
      {
        RunMore(blocks, capacity, more);
        done, b, gone := Turn(blocks, capacity, i, b, gone);
        more := more + [at];
      }
    }

    // The columns, with the last one unless it is empty and not the only one.
    method Finish(blocks: seq<Block>) returns (cols: seq<seq<Placed>>)
      requires Valid(blocks)
      ensures cols != [] && AllRendered(blocks, AllColumns(blocks, at), cols)
    {
      if |cur| > 0 || |out| == 0 { return out + [cur]; }
      return out;
    }
  }

  // flow: a run of the machine to the end of the blocks. Every line of theirs once and in order, less
  // what is put again; every column only pads, separators and the pieces of the run, and as
  // `EndColumns` says of each.
  method Flow(blocks: seq<Block>, capacity: nat -> int) returns (cols: seq<seq<Placed>>, ghost run: seq<State>)
    requires LeadsOk(blocks)
    ensures IsRun(blocks, capacity, run) && run[|run| - 1].block == |blocks|
    ensures cols != [] && AllRendered(blocks, AllColumns(blocks, run[|run| - 1]), cols)
    ensures OwnAll(cols) == BlockLines(blocks)
    ensures forall c :: 0 <= c < |cols| ==> ColumnOk(blocks, cols[c], capacity(c))
  {
    var columns := new Columns(blocks);
    var i := 0;
    run := [START];
    Begins(blocks, capacity);
    while i < |blocks|
      invariant i <= |blocks| && fresh(columns) && columns.Valid(blocks) && columns.at.block == i
                && columns.at.gone == 0
      invariant IsRun(blocks, capacity, run) && run[|run| - 1] == columns.at
    {
      run := columns.PutBlock(blocks, capacity, i, run);
      i := i + 1;
    }
    cols := columns.Finish(blocks);
    Ends(blocks, capacity, run, cols);
  }

  lemma {:induction false} Ends(blocks: seq<Block>, capacity: nat -> int, run: seq<State>, cols: seq<seq<Placed>>)
    requires LeadsOk(blocks) && IsRun(blocks, capacity, run) && run[|run| - 1].block == |blocks|
    requires AllRendered(blocks, AllColumns(blocks, run[|run| - 1]), cols)
    ensures OwnAll(cols) == BlockLines(blocks)
    ensures forall c :: 0 <= c < |cols| ==> ColumnOk(blocks, cols[c], capacity(c))
  {
    var end := run[|run| - 1];
    RunGood(blocks, capacity, run, |run| - 1);
    EndLines(blocks, end, cols);
    forall c | 0 <= c < |cols|
      ensures ColumnOk(blocks, cols[c], capacity(c))
    {
      EndColumns(blocks, capacity, end, c);
    }
  }
}
