/** The cost models (typeset/wrap/wrap.go), and what a way of breaking a paragraph costs by the page
    alone: by the width of its lines and the least uneven gaps they can have. */
module WrapCosts {
  import opened Ints
  import opened Wrap
  import opened WrapText
  import opened WrapDp
  import opened WrapBest
  import opened WrapGaps
  import opened WrapLines

  // Costs in quarters: a penalty of 100 is 400.
  function Ragged(penalty: int): Model {
    Model(penalty, 0, false,
          (slack: int, words: nat) => 4 * slack * slack,
          (slack: int, width: int) => if slack > Quo(width, 2) then slack * slack else 0)
  }

  // The penalty of a hyphen in a table cell, in quarters.
  const PENALTY_CELL := 100

  function Justified(): Model {
    Model(24, 160, true,
          (slack: int, words: nat) => 4 * MonoGapCost(slack, words),
          (slack: int, width: int) => if slack > width - 5 then slack * slack else 0)
  }

  // ---------- what a line costs ----------

  // Set flush in monospace, or ragged in a table cell.
  datatype Setting = Flush | InCell

  // The least sum of squares that k whole gaps take when they widen by slack in all.
  ghost predicate LeastSquares(x: int, slack: nat, k: nat) {
    && (exists d :: |d| == k && Sum(d) == slack && SumSquares(d) == x)
    && forall d :: |d| == k && Sum(d) == slack ==> x <= SumSquares(d)
  }

  // c, in quarters, is the cost of a line of n words and natural width len on measure W. A flush line
  // costs its least squares, a word alone four times its slack squared, and the last line a quarter
  // of its slack squared if it is shorter than five; a ragged line costs its slack squared, and the
  // last a quarter of that if it leaves more than half the measure.
  ghost predicate PriceIs(how: Setting, len: nat, n: nat, W: nat, last: bool, c: int)
    requires n > 0 && len <= W
  {
    var slack := W - len;
    match how
    case Flush =>
      if last then c == if len < 5 then slack * slack else 0
      else if n == 1 then c == 16 * (slack * slack)
      else c % 4 == 0 && LeastSquares(c / 4, slack, n - 1)
    case InCell =>
      if last then c == if 2 * slack > W then slack * slack else 0
      else c == 4 * (slack * slack)
  }

  // ---------- ways of breaking a paragraph ----------

  ghost function AllWords(lines: seq<seq<string>>): seq<string> {
    if lines == [] then [] else lines[0] + AllWords(lines[1..])
  }

  // The lines hold the words in order, and each fits: the first on its own measure.
  ghost predicate Breaks(lines: seq<seq<string>>, texts: seq<string>, W: nat, width: nat) {
    AllWords(lines) == texts && forall k :: 0 <= k < |lines| ==> Fitting(lines, k, W, width)
  }

  ghost predicate Fitting(lines: seq<seq<string>>, k: nat, W: nat, width: nat)
    requires k < |lines|
  {
    lines[k] != [] && Natural(lines[k]) <= if k == 0 then W else width
  }

  // And cs is what they cost, line by line.
  ghost predicate Priced(how: Setting, lines: seq<seq<string>>, W: nat, width: nat, cs: seq<int>) {
    |cs| == |lines| && forall k :: 0 <= k < |lines| ==> PricedAt(how, lines, k, W, width, cs[k])
  }

  ghost predicate PricedAt(how: Setting, lines: seq<seq<string>>, k: nat, W: nat, width: nat, c: int)
    requires k < |lines|
  {
    && Fitting(lines, k, W, width)
    && PriceIs(how, Natural(lines[k]), |lines[k]|, if k == 0 then W else width, k == |lines| - 1, c)
  }

  function Bill(cs: seq<int>): int { if cs == [] then 0 else cs[0] + Bill(cs[1..]) }

  // The lines break the paragraph at no more than any other way costs.
  ghost predicate LeastCost(how: Setting, lines: seq<seq<string>>, texts: seq<string>, first: nat, width: nat) {
    && Breaks(lines, texts, first, width)
    && exists cs :: Priced(how, lines, first, width, cs)
         && forall other, ds :: Breaks(other, texts, first, width) && Priced(how, other, first, width, ds) ==>
              Bill(cs) <= Bill(ds)
  }

  // ---------- the models price lines so ----------

  ghost function ModelOf(how: Setting): Model { if how.Flush? then Justified() else Ragged(PENALTY_CELL) }

  lemma {:induction false} FlushPrice(len: nat, n: nat, W: nat)
    requires n > 1 && len <= W
    ensures LeastSquares(MonoGapCost(W - len, n), W - len, n - 1)
  {
    var slack, base, extra := W - len, (W - len) / (n - 1), (W - len) % (n - 1);
    EvenCosts(slack, n, base, extra);
    assert |Even(n - 1, base, extra)| == n - 1;
    forall d | |d| == n - 1 && Sum(d) == slack
      ensures MonoGapCost(slack, n) <= SumSquares(d)
    {
      EvenIsLeast(slack, n, d);
    }
  }

  lemma {:induction false} ModelPrice(how: Setting, len: nat, n: nat, W: nat, last: bool)
    requires n > 0 && len <= W
    ensures var md := ModelOf(how);
            PriceIs(how, len, n, W, last, if last then md.last(W - len, W) else md.line(W - len, n))
  {
    if how.Flush? { FlushModel(len, n, W, last); } else { CellModel(len, n, W, last); }
  }

  lemma {:induction false} FlushModel(len: nat, n: nat, W: nat, last: bool)
    requires n > 0 && len <= W
    ensures PriceIs(Flush, len, n, W, last,
        if last then Justified().last(W - len, W) else Justified().line(W - len, n))
  {
    var slack := W - len;
    if n > 1 {
      FlushPrice(len, n, W);
    } else {
      assert slack * slack * 4 == 4 * (slack * slack);
    }
  }

  lemma {:induction false} CellModel(len: nat, n: nat, W: nat, last: bool)
    requires n > 0 && len <= W
    ensures var md := Ragged(PENALTY_CELL);
            PriceIs(InCell, len, n, W, last, if last then md.last(W - len, W) else md.line(W - len, n))
  {
    var slack := W - len;
    assert 4 * slack * slack == 4 * (slack * slack);
  }

  lemma {:induction false} PriceOnce(how: Setting, len: nat, n: nat, W: nat, last: bool, c: int, d: int)
    requires n > 0 && len <= W && PriceIs(how, len, n, W, last, c) && PriceIs(how, len, n, W, last, d)
    ensures c == d
  {
  }

  // A line may end inside a word where the word overflows it, and, flush, in any word but the last.
  lemma {:induction false} HyphenWeighed(how: Setting, r: Rest, W: nat, i: nat, j: nat, p: nat)
    requires Shaped(r) && r.md == ModelOf(how) && i < j < |r.ws| && p < |r.ws[j].points|
    requires LineLen(r.ws, i, j) + 1 + EndWidth(r.ws[j].text, 0, r.ws[j].points[p]) <= W
    ensures Can(r, W, i, Inside(j, p)) <==> LineLen(r.ws, i, j + 1) > W || (how.Flush? && j + 1 < |r.ws|)
  {
  }

  // It costs what its words and the hyphen leave, and for the hyphen, in quarters, 24 if it is flush
  // and 100 in a cell; 160 more, flush, if the rest of the word begins the last line.
  lemma {:induction false} HyphenPrice(how: Setting, r: Rest, W: nat, i: nat, j: nat, p: nat, len: nat, c: int)
    requires Shaped(r) && r.md == ModelOf(how) && Can(r, W, i, Inside(j, p))
    requires len == LineLen(r.ws, i, j) + 1 + EndWidth(r.ws[j].text, 0, r.ws[j].points[p]) <= W
    requires PriceIs(how, len, j - i + 1, W, false, c)
    ensures Price(r, W, i, Inside(j, p)) ==
            c + r.cs[j] + if how.InCell? then 100 else if r.ns[j] == |r.ws| then 184 else 24
  {
    LineAlone(how, len, j - i + 1, W, c);
    InsidePrice(r, W, i, j, p);
    assert r.md.penalty == if how.InCell? then 100 else 24;
    assert r.md.final == if how.InCell? then 0 else 160;
  }

  lemma {:induction false} LineAlone(how: Setting, len: nat, n: nat, W: nat, c: int)
    requires n > 0 && len <= W && PriceIs(how, len, n, W, false, c)
    ensures c == ModelOf(how).line(W - len, n)
  {
    ModelPrice(how, len, n, W, false);
    PriceOnce(how, len, n, W, false, c, ModelOf(how).line(W - len, n));
  }

  lemma {:induction false} InsidePrice(r: Rest, W: nat, i: nat, j: nat, p: nat)
    requires Shaped(r) && Can(r, W, i, Inside(j, p))
    ensures Price(r, W, i, Inside(j, p)) ==
            r.md.line(W - EndLen(r.ws, i, j, p), j - i + 1) + r.md.penalty + r.cs[j]
            + if r.ns[j] == |r.ws| then r.md.final else 0
  {
  }

  // ---------- the cheapest cutting is the cheapest way ----------

  lemma {:induction false} LineLenNatural(ws: seq<Word>, i: nat, j: nat)
    requires i < j <= |ws|
    ensures LineLen(ws, i, j) == Natural(Texts(ws)[i..j])
    decreases j
  {
    if j > i + 1 {
      LineLenNatural(ws, i, j - 1);
      assert Texts(ws)[i..j][..j - 1 - i] == Texts(ws)[i..j - 1];
    }
  }

  // The first line of a cutting.
  lemma {:induction false} LineOf(how: Setting, ws: seq<Word>, first: nat, width: nat, i: nat, ends: seq<nat>)
    requires Cutting(ws, first, width, i, ends) && ends != []
    ensures var texts, line, W := Texts(ws), Texts(ws)[i..ends[0]], MeasureOf(i, first, width);
            && LinesOf(texts, i, ends) == [line] + LinesOf(texts, ends[0], ends[1..])
            && line != [] && line <= texts[i..] && texts[i..][|line|..] == texts[ends[0]..] && Natural(line) <= W
            && (ends[1..] == [] <==> ends[0] == |ws|)
            && PriceIs(how, Natural(line), |line|, W, ends[1..] == [], LineCost(ModelOf(how), ws, W, i, ends[0]))
  {
    LineLenNatural(ws, i, ends[0]);
    var line := Texts(ws)[i..ends[0]];
    ModelPrice(how, Natural(line), |line|, MeasureOf(i, first, width), ends[0] == |ws|);
  }

  // A line before others.
  lemma {:induction false} LineBefore(how: Setting, line: seq<string>, rest: seq<seq<string>>, texts: seq<string>,
      W: nat, width: nat, p: int, cs: seq<int>)
    requires line != [] && line <= texts && Natural(line) <= W && PriceIs(how, Natural(line), |line|, W, rest == [], p)
    requires Breaks(rest, texts[|line|..], width, width) && Priced(how, rest, width, width, cs)
    ensures Breaks([line] + rest, texts, W, width) && Priced(how, [line] + rest, W, width, [p] + cs)
    ensures Bill([p] + cs) == p + Bill(cs)
  {
    var lines, all := [line] + rest, [p] + cs;
    assert lines[1..] == rest && all[1..] == cs;
    assert texts == line + texts[|line|..];
    forall k | 0 <= k < |lines|
      ensures PricedAt(how, lines, k, W, width, all[k]) && Fitting(lines, k, W, width)
    {
      if k > 0 { assert PricedAt(how, rest, k - 1, width, width, cs[k - 1]); }
    }
  }

  lemma {:induction false} CuttingPriced(how: Setting, ws: seq<Word>, first: nat, width: nat, i: nat, ends: seq<nat>)
      returns (cs: seq<int>)
    requires Cutting(ws, first, width, i, ends) && i <= |ws|
    ensures var texts, W := Texts(ws), MeasureOf(i, first, width);
            && Breaks(LinesOf(texts, i, ends), texts[i..], W, width)
            && Priced(how, LinesOf(texts, i, ends), W, width, cs)
            && Bill(cs) == Total(ModelOf(how), ws, first, width, i, ends)
            && |LinesOf(texts, i, ends)| == |ends|
    decreases |ends|
  {
    cs := [];
    if ends != [] {
      var texts, W := Texts(ws), MeasureOf(i, first, width);
      var line, p := texts[i..ends[0]], LineCost(ModelOf(how), ws, W, i, ends[0]);
      LineOf(how, ws, first, width, i, ends);
      var more := CuttingPriced(how, ws, first, width, ends[0], ends[1..]);
      LineBefore(how, line, LinesOf(texts, ends[0], ends[1..]), texts[i..], W, width, p, more);
      cs := [p] + more;
    }
  }

  // The first line of a way of breaking, and the rest of it.
  lemma {:induction false} Peel(how: Setting, lines: seq<seq<string>>, texts: seq<string>, i: nat, W: nat, width: nat,
      cs: seq<int>)
    requires lines != [] && i <= |texts| && Breaks(lines, texts[i..], W, width) && Priced(how, lines, W, width, cs)
    ensures var j := i + |lines[0]|;
            && i < j <= |texts| && lines[0] == texts[i..j] && (|lines| == 1 <==> j == |texts|)
            && Breaks(lines[1..], texts[j..], width, width) && Priced(how, lines[1..], width, width, cs[1..])
            && PricedAt(how, lines, 0, W, width, cs[0]) && Bill(cs) == cs[0] + Bill(cs[1..])
  {
    var rest := lines[1..];
    assert PricedAt(how, lines, 0, W, width, cs[0]);
    PeelWords(lines, texts, i, W, width);
    forall k | 0 <= k < |rest|
      ensures PricedAt(how, rest, k, width, width, cs[1..][k])
    {
      assert PricedAt(how, lines, k + 1, W, width, cs[k + 1]);
    }
  }

  lemma {:induction false} PeelWords(lines: seq<seq<string>>, texts: seq<string>, i: nat, W: nat, width: nat)
    requires lines != [] && i <= |texts| && Breaks(lines, texts[i..], W, width)
    ensures var j := i + |lines[0]|;
            && i < j <= |texts| && lines[0] == texts[i..j] && (|lines| == 1 <==> j == |texts|)
            && Breaks(lines[1..], texts[j..], width, width)
  {
    var j, rest := i + |lines[0]|, lines[1..];
    assert Fitting(lines, 0, W, width);
    assert texts[i..] == lines[0] + AllWords(rest);
    assert texts[i..][|lines[0]|..] == AllWords(rest) == texts[j..];
    forall k | 0 <= k < |rest|
      ensures Fitting(rest, k, width, width)
    {
      assert Fitting(lines, k + 1, W, width);
    }
    if rest != [] { assert Fitting(rest, 0, width, width); }
  }

  // Some cutting from word i on costs c.
  ghost predicate Cuts(how: Setting, ws: seq<Word>, first: nat, width: nat, i: nat, c: int) {
    exists ends :: Cutting(ws, first, width, i, ends) && Total(ModelOf(how), ws, first, width, i, ends) == c
  }

  // A first line before a cutting of the rest.
  lemma {:induction false} CutAdds(how: Setting, ws: seq<Word>, first: nat, width: nat, i: nat, line: seq<string>,
      j: nat, p: int, rest: int)
    requires i < j <= |ws| && line == Texts(ws)[i..j] && Cuts(how, ws, first, width, j, rest)
    requires Natural(line) <= MeasureOf(i, first, width)
             && PriceIs(how, Natural(line), |line|, MeasureOf(i, first, width), j == |ws|, p)
    ensures Cuts(how, ws, first, width, i, p + rest)
  {
    var more :| Cutting(ws, first, width, j, more) && Total(ModelOf(how), ws, first, width, j, more) == rest;
    var ends := [j] + more;
    LineLenNatural(ws, i, j);
    assert ends[1..] == more;
    LineOf(how, ws, first, width, i, ends);
    PriceOnce(how, Natural(line), |line|, MeasureOf(i, first, width), j == |ws|, p,
        LineCost(ModelOf(how), ws, MeasureOf(i, first, width), i, j));
    assert Total(ModelOf(how), ws, first, width, i, ends) == p + rest;
  }

  lemma {:induction false} NoWordsLeft(how: Setting, ws: seq<Word>, first: nat, width: nat)
    ensures Cuts(how, ws, first, width, |ws|, 0)
  {
    assert Cutting(ws, first, width, |ws|, []);
    assert Total(ModelOf(how), ws, first, width, |ws|, []) == 0;
  }

  lemma {:induction false} BreaksCut(how: Setting, ws: seq<Word>, first: nat, width: nat, i: nat,
      lines: seq<seq<string>>, cs: seq<int>)
    requires i <= |ws| && Breaks(lines, Texts(ws)[i..], MeasureOf(i, first, width), width)
    requires Priced(how, lines, MeasureOf(i, first, width), width, cs)
    ensures Cuts(how, ws, first, width, i, Bill(cs))
    decreases |lines|
  {
    if lines == [] {
      NoWordsLeft(how, ws, first, width);
    } else {
      Peel(how, lines, Texts(ws), i, MeasureOf(i, first, width), width, cs);
      BreaksCut(how, ws, first, width, i + |lines[0]|, lines[1..], cs[1..]);
      CutAdds(how, ws, first, width, i, lines[0], i + |lines[0]|, cs[0], Bill(cs[1..]));
    }
  }

  // A cheapest cutting under the model costs no more than any way of breaking the paragraph.
  lemma {:induction false} CheapestIsLeast(how: Setting, ws: seq<Word>, first: nat, width: nat, ends: seq<nat>)
    requires Cheapest(ModelOf(how), ws, first, width, ends)
    ensures LeastCost(how, LinesOf(Texts(ws), 0, ends), Texts(ws), first, width)
  {
    var texts, md := Texts(ws), ModelOf(how);
    var cs := CuttingPriced(how, ws, first, width, 0, ends);
    assert texts[0..] == texts;
    assert MeasureOf(0, first, width) == first;
    forall other, ds | Breaks(other, texts, first, width) && Priced(how, other, first, width, ds)
      ensures Bill(cs) <= Bill(ds)
    {
      BreaksCut(how, ws, first, width, 0, other, ds);
      var cut :| Cutting(ws, first, width, 0, cut) && Total(md, ws, first, width, 0, cut) == Bill(ds);
      assert Total(md, ws, first, width, 0, ends) <= Total(md, ws, first, width, 0, cut);
    }
    assert Priced(how, LinesOf(texts, 0, ends), first, width, cs);
  }
}
