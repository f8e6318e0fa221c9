/** Why the plan is the best there is: with no points and every word within its measure, no way of
    cutting the words into lines that fit costs less. */
module WrapBest {
  import opened Wrap
  import opened WrapText
  import opened WrapDp

  // No hyphenation point, and no word wider than its line.
  ghost predicate Plain(ws: seq<Word>, first: nat, width: nat) {
    forall k :: 0 <= k < |ws| ==> ws[k].points == [] && |ws[k].text| <= MeasureOf(k, first, width)
  }

  // A way of cutting the words from i on into lines that fit: where each ends.
  ghost predicate Cutting(ws: seq<Word>, first: nat, width: nat, i: nat, ends: seq<nat>)
    decreases |ends|
  {
    if ends == [] then i == |ws|
    else
      && i < ends[0] <= |ws| && LineLen(ws, i, ends[0]) <= MeasureOf(i, first, width)
      && Cutting(ws, first, width, ends[0], ends[1..])
  }

  // One line's cost; the paragraph's last has its own.
  ghost function LineCost(md: Model, ws: seq<Word>, W: nat, i: nat, j: nat): int
    requires i < j <= |ws|
  {
    if j < |ws| then md.line(W - LineLen(ws, i, j), j - i) else md.last(W - LineLen(ws, i, j), W)
  }

  ghost function Total(md: Model, ws: seq<Word>, first: nat, width: nat, i: nat, ends: seq<nat>): int
    requires Cutting(ws, first, width, i, ends)
    decreases |ends|
  {
    if ends == [] then 0
    else LineCost(md, ws, MeasureOf(i, first, width), i, ends[0]) + Total(md, ws, first, width, ends[0], ends[1..])
  }

  // The whole plan, and a paragraph of no cost after its last word.
  ghost predicate PlanOf(r: Rest, hs: seq<int>, first: nat, width: nat) {
    Planned(r, hs, 0, |r.ws|, first, width) && r.cs[|r.ws|] == 0 && Plain(r.ws, first, width)
  }

  // A settled entry of a word that fits, where nothing can be hyphenated.
  lemma {:induction false} SettledPlain(r: Rest, W: nat, i: nat, cost: int, next: nat, hyph: int)
    requires Shaped(r) && Settled(r, W, i, cost, next, hyph) && |r.ws[i].text| <= W
    requires forall k :: 0 <= k < |r.ws| ==> r.ws[k].points == []
    ensures hyph == NO_HYPHEN && i < next <= |r.ws| && LineLen(r.ws, i, next) <= W
    ensures cost == LineCost(r.md, r.ws, W, i, next) + r.cs[next]
    ensures forall j: nat :: Can(r, W, i, After(j)) ==> cost <= LineCost(r.md, r.ws, W, i, j) + r.cs[j]
  {
    assert hyph != NO_HYPHEN ==> Can(r, W, i, Inside(next, hyph));
    forall j: nat | Can(r, W, i, After(j))
      ensures cost <= LineCost(r.md, r.ws, W, i, j) + r.cs[j]
    {
      assert Within(After(j), |r.ws|, |r.ws|);
      assert Price(r, W, i, After(j)) == LineCost(r.md, r.ws, W, i, j) + r.cs[j];
    }
  }

  // An entry of a plain paragraph ends its line after a word, at no more than any other end costs.
  lemma {:induction false} EntryIs(r: Rest, hs: seq<int>, first: nat, width: nat, i: nat)
    requires PlanOf(r, hs, first, width) && i < |r.ws|
    ensures hs[i] == NO_HYPHEN && i < r.ns[i] <= |r.ws| && LineLen(r.ws, i, r.ns[i]) <= MeasureOf(i, first, width)
    ensures r.cs[i] == LineCost(r.md, r.ws, MeasureOf(i, first, width), i, r.ns[i]) + r.cs[r.ns[i]]
    ensures forall j: nat :: Can(r, MeasureOf(i, first, width), i, After(j)) ==>
              r.cs[i] <= LineCost(r.md, r.ws, MeasureOf(i, first, width), i, j) + r.cs[j]
  {
    SettledPlain(r, MeasureOf(i, first, width), i, r.cs[i], r.ns[i], hs[i]);
  }

  // The lower bound: every cutting costs at least what the plan says.
  lemma {:induction false} NoneCheaper(r: Rest, hs: seq<int>, first: nat, width: nat, i: nat, ends: seq<nat>)
    requires PlanOf(r, hs, first, width) && i <= |r.ws| && Cutting(r.ws, first, width, i, ends)
    ensures r.cs[i] <= Total(r.md, r.ws, first, width, i, ends)
    decreases |ends|
  {
    if ends != [] {
      EntryIs(r, hs, first, width, i);
      assert Can(r, MeasureOf(i, first, width), i, After(ends[0]));
      NoneCheaper(r, hs, first, width, ends[0], ends[1..]);
    }
  }

  // The ends the plan gives, from word i on.
  ghost function Chosen(ns: seq<nat>, i: nat): seq<nat>
    requires forall k :: 0 <= k < |ns| ==> k < ns[k] <= |ns|
    decreases |ns| - i
  {
    if i >= |ns| then [] else [ns[i]] + Chosen(ns, ns[i])
  }

  lemma {:induction false} EntriesForward(r: Rest, hs: seq<int>, first: nat, width: nat)
    requires PlanOf(r, hs, first, width)
    ensures forall k :: 0 <= k < |r.ns| ==> k < r.ns[k] <= |r.ns|
  {
    forall k | 0 <= k < |r.ns|
      ensures k < r.ns[k] <= |r.ns|
    {
      EntryIs(r, hs, first, width, k);
    }
  }

  // And the plan's own cutting costs just that.
  lemma {:induction false} ChosenCosts(r: Rest, hs: seq<int>, first: nat, width: nat, i: nat)
    requires PlanOf(r, hs, first, width) && i <= |r.ws| && forall k :: 0 <= k < |r.ns| ==> k < r.ns[k] <= |r.ns|
    ensures Cutting(r.ws, first, width, i, Chosen(r.ns, i))
    ensures Total(r.md, r.ws, first, width, i, Chosen(r.ns, i)) == r.cs[i]
    decreases |r.ws| - i
  {
    if i < |r.ws| {
      EntryIs(r, hs, first, width, i);
      ChosenCosts(r, hs, first, width, r.ns[i]);
      assert Chosen(r.ns, i)[1..] == Chosen(r.ns, r.ns[i]);
    }
  }

  // `ends` cuts the words into lines that fit at no more than any other cutting's cost.
  ghost predicate Cheapest(md: Model, ws: seq<Word>, first: nat, width: nat, ends: seq<nat>) {
    && Cutting(ws, first, width, 0, ends)
    && forall other :: Cutting(ws, first, width, 0, other) ==>
        Total(md, ws, first, width, 0, ends) <= Total(md, ws, first, width, 0, other)
  }

  lemma {:induction false} ChosenIsCheapest(r: Rest, hs: seq<int>, first: nat, width: nat)
    requires PlanOf(r, hs, first, width) && forall k :: 0 <= k < |r.ns| ==> k < r.ns[k] <= |r.ns|
    ensures Cheapest(r.md, r.ws, first, width, Chosen(r.ns, 0))
  {
    ChosenCosts(r, hs, first, width, 0);
    forall other | Cutting(r.ws, first, width, 0, other)
      ensures Total(r.md, r.ws, first, width, 0, Chosen(r.ns, 0)) <= Total(r.md, r.ws, first, width, 0, other)
    {
      NoneCheaper(r, hs, first, width, 0, other);
    }
  }

  // The lines of a cutting.
  ghost function LinesOf(texts: seq<string>, i: nat, ends: seq<nat>): seq<seq<string>>
    decreases |ends|
  {
    if ends == [] || !(i <= ends[0] <= |texts|) then []
    else [texts[i..ends[0]]] + LinesOf(texts, ends[0], ends[1..])
  }

  ghost function WordsOf(lines: seq<Line>): seq<seq<string>> {
    seq(|lines|, k requires 0 <= k < |lines| => lines[k].words)
  }

  // One more line of the plan's cutting.
  lemma {:induction false} LinesStep(texts: seq<string>, ns: seq<nat>, i: nat, lines: seq<Line>, line: Line,
      all: seq<seq<string>>)
    requires (forall k :: 0 <= k < |ns| ==> k < ns[k] <= |ns|) && i < |ns| == |texts|
    requires WordsOf(lines) + LinesOf(texts, i, Chosen(ns, i)) == all && line.words == texts[i..ns[i]]
    ensures WordsOf(lines + [line]) + LinesOf(texts, ns[i], Chosen(ns, ns[i])) == all
  {
    assert Chosen(ns, i)[1..] == Chosen(ns, ns[i]);
    assert WordsOf(lines + [line]) == WordsOf(lines) + [line.words];
  }
}
