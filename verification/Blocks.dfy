/** Blocks flowed into columns (pica/press/flow.go): every line once and in order, every block from
    a whole body line, every column within its capacity but for a piece that fits none. */
module Blocks {
  datatype Role = Body | Half | Heading | Display

  datatype SLine = SLine(text: string, role: Role)

  datatype Seg = Seg(lines: seq<SLine>)

  datatype Block = Block(segs: seq<Seg>, repeated: nat, atomic: bool, keepNext: bool, tight: bool)

  const MIN_KEEP := 2

  // What a line in a column is: a pad or a separator, or a line of a block, `again` one of a
  // lead-in set once more after a split. The columns of the program hold the lines alone.
  datatype Mark = Pad | Gap | Of(block: nat, again: bool)

  datatype Placed = Placed(line: SLine, mark: Mark)

  // ---------- heights, in half lines ----------

  function Units(r: Role): nat {
    match r
    case Half => 1
    case Heading => 3
    case Display => 4
    case Body => 2
  }

  function LinesHeight(ls: seq<SLine>): nat
    decreases |ls|
  {
    if ls == [] then 0 else LinesHeight(ls[..|ls| - 1]) + Units(ls[|ls| - 1].role)
  }

  function SegsHeight(segs: seq<Seg>): nat
    decreases |segs|
  {
    if segs == [] then 0 else SegsHeight(segs[..|segs| - 1]) + LinesHeight(segs[|segs| - 1].lines)
  }

  function Height(col: seq<Placed>): nat
    decreases |col|
  {
    if col == [] then 0 else Height(col[..|col| - 1]) + Units(col[|col| - 1].line.role)
  }

  lemma {:induction false} HeightAppend(a: seq<Placed>, b: seq<Placed>)
    ensures Height(a + b) == Height(a) + Height(b)
    decreases |b|
  {
    if b == [] {
      assert a + b == a;
    } else {
      assert (a + b)[..|a + b| - 1] == a + b[..|b| - 1];
      HeightAppend(a, b[..|b| - 1]);
    }
  }

  lemma {:induction false} SegsHeightAppend(a: seq<Seg>, b: seq<Seg>)
    ensures SegsHeight(a + b) == SegsHeight(a) + SegsHeight(b)
    decreases |b|
  {
    if b == [] {
      assert a + b == a;
    } else {
      assert (a + b)[..|a + b| - 1] == a + b[..|b| - 1];
      SegsHeightAppend(a, b[..|b| - 1]);
    }
  }

  // ---------- content ----------

  function SegLines(segs: seq<Seg>): seq<SLine>
    decreases |segs|
  {
    if segs == [] then [] else SegLines(segs[..|segs| - 1]) + segs[|segs| - 1].lines
  }

  lemma {:induction false} SegLinesAppend(a: seq<Seg>, b: seq<Seg>)
    ensures SegLines(a + b) == SegLines(a) + SegLines(b)
    decreases |b|
  {
    if b == [] {
      assert a + b == a;
    } else {
      assert (a + b)[..|a + b| - 1] == a + b[..|b| - 1];
      SegLinesAppend(a, b[..|b| - 1]);
    }
  }

  function BlockLines(blocks: seq<Block>): seq<SLine> {
    if blocks == [] then [] else SegLines(blocks[0].segs) + BlockLines(blocks[1..])
  }

  // The lines of a column less pads, separators and lead-ins set again.
  function Own(col: seq<Placed>): seq<SLine>
    decreases |col|
  {
    if col == [] then []
    else
      var last := col[|col| - 1];
      Own(col[..|col| - 1]) + if last.mark.Of? && !last.mark.again then [last.line] else []
  }

  function OwnAll(cols: seq<seq<Placed>>): seq<SLine>
    decreases |cols|
  {
    if cols == [] then [] else OwnAll(cols[..|cols| - 1]) + Own(cols[|cols| - 1])
  }

  lemma {:induction false} OwnAppend(a: seq<Placed>, b: seq<Placed>)
    ensures Own(a + b) == Own(a) + Own(b)
    decreases |b|
  {
    if b == [] {
      assert a + b == a;
    } else {
      assert (a + b)[..|a + b| - 1] == a + b[..|b| - 1];
      OwnAppend(a, b[..|b| - 1]);
    }
  }

  // ---------- where a block may be split ----------

  // How many leading segments fit, k of them known to.
  function FitFrom(segs: seq<Seg>, avail: int, k: nat): (r: nat)
    requires k <= |segs|
    ensures k <= r <= |segs|
    decreases |segs| - k
  {
    if k < |segs| && SegsHeight(segs[..k + 1]) <= avail then FitFrom(segs, avail, k + 1) else k
  }

  function Fit(segs: seq<Seg>, avail: int): (r: nat)
    ensures r <= |segs|
  {
    FitFrom(segs, avail, 0)
  }

  // A split leaves MIN_KEEP segments on both sides, besides the lead-in.
  predicate Splits(b: Block, k: nat) { !b.atomic && b.repeated + MIN_KEEP <= k <= |b.segs| - MIN_KEEP }

  // The last split that fits, 0 if none does.
  function SplitAt(b: Block, avail: int): (r: nat)
    ensures r > 0 ==> Splits(b, r)
  {
    var k := Min(Fit(b.segs, avail), |b.segs| - MIN_KEEP);
    if b.atomic || k < b.repeated + MIN_KEEP then 0 else k
  }

  // What goes into an empty column in any case.
  function ForcedAt(b: Block, avail: int): (r: nat)
    ensures r <= |b.segs| && (r < |b.segs| ==> r > b.repeated && !b.atomic)
  {
    if b.atomic || |b.segs| == 1 then |b.segs| else Min(Max(Fit(b.segs, avail), b.repeated + 1), |b.segs|)
  }

  function Min(a: int, b: int): int { if a < b then a else b }

  function Max(a: int, b: int): int { if a < b then b else a }

  lemma {:induction false} FitIs(segs: seq<Seg>, avail: int, k: nat)
    requires k <= |segs| && (k > 0 ==> SegsHeight(segs[..k]) <= avail)
    ensures var r := FitFrom(segs, avail, k);
            (r > 0 ==> SegsHeight(segs[..r]) <= avail) && (r < |segs| ==> SegsHeight(segs[..r + 1]) > avail)
    decreases |segs| - k
  {
    if k < |segs| && SegsHeight(segs[..k + 1]) <= avail { FitIs(segs, avail, k + 1); }
  }

  // Whatever fits is within it.
  lemma {:induction false} FitMost(segs: seq<Seg>, avail: int, j: nat)
    requires 0 < j <= |segs|
    ensures SegsHeight(segs[..j]) <= avail <==> j <= Fit(segs, avail)
  {
    var r := Fit(segs, avail);
    FitIs(segs, avail, 0);
    if j <= r { HeightGrows(segs, j, r); } else { HeightGrows(segs, r + 1, j); }
  }

  // The split is the last of those that keep the rule and fit, and 0 only if there is none.
  lemma {:induction false} SplitAtIs(b: Block, avail: int)
    ensures var k := SplitAt(b, avail);
            && (k > 0 ==> SegsHeight(b.segs[..k]) <= avail)
            && (forall j: nat :: Splits(b, j) && SegsHeight(b.segs[..j]) <= avail ==> j <= k)
  {
    forall j: nat | Splits(b, j)
      ensures SegsHeight(b.segs[..j]) <= avail <==> j <= Fit(b.segs, avail)
    {
      FitMost(b.segs, avail, j);
    }
  }

  // What is forced gets past the lead-in, and overflows only with the least it can place.
  lemma {:induction false} ForcedAtIs(b: Block, avail: int)
    ensures var k := ForcedAt(b, avail);
            SegsHeight(b.segs[..k]) <= avail || b.atomic || k <= b.repeated + 1
  {
    var k := ForcedAt(b, avail);
    if k > 0 { FitMost(b.segs, avail, k); }
  }

  method FitSegs(b: Block, avail: int) returns (k: nat)
    ensures k == Fit(b.segs, avail)
  {
    k := 0;
    var units := 0;
    while k < |b.segs| && units + LinesHeight(b.segs[k].lines) <= avail
      invariant k <= |b.segs| && units == SegsHeight(b.segs[..k]) && FitFrom(b.segs, avail, k) == Fit(b.segs, avail)
    {
      assert b.segs[..k + 1][..k] == b.segs[..k];
      units, k := units + LinesHeight(b.segs[k].lines), k + 1;
    }
    if k < |b.segs| { assert b.segs[..k + 1][..k] == b.segs[..k]; }
  }

  method SplitSegs(b: Block, avail: int) returns (k: nat)
    ensures k == SplitAt(b, avail)
  {
    if b.atomic { return 0; }
    var fit := FitSegs(b, avail);
    var cut := if fit <= |b.segs| - MIN_KEEP then fit else |b.segs| - MIN_KEEP;
    if cut < b.repeated + MIN_KEEP { return 0; }
    return cut;
  }

  lemma {:induction false} HeightGrows(segs: seq<Seg>, j: nat, k: nat)
    requires j <= k <= |segs|
    ensures SegsHeight(segs[..j]) <= SegsHeight(segs[..k])
    decreases k
  {
    if j < k {
      HeightGrows(segs, j, k - 1);
      assert segs[..k][..k - 1] == segs[..k - 1];
    }
  }

  method ForceSplit(b: Block, avail: int) returns (k: nat)
    ensures k == ForcedAt(b, avail)
  {
    if b.atomic || |b.segs| == 1 { return |b.segs|; }
    var fit := FitSegs(b, avail);
    k := if fit > b.repeated + 1 then fit else b.repeated + 1;
    if k > |b.segs| { k := |b.segs|; }
  }

  // rest: what is left after a split at k, the lead-in before it again.
  function Rest(b: Block, k: nat): (r: Block)
    requires b.repeated <= |b.segs|
    ensures r.repeated <= |r.segs|
  {
    if k >= |b.segs| then Block([], 0, false, false, false)
    else Block(b.segs[..b.repeated] + b.segs[k..], b.repeated, false, false, false)
  }
}
