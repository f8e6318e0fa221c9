/** breakLines (typeset/wrap/wrap.go), and exactly when it ends. */
module WrapBreak {
  import opened Wrap
  import opened WrapText
  import opened WrapDp
  import opened WrapTurns
  import opened WrapLines
  import opened WrapBest

  // What holds of a plain paragraph before each turn: nothing of it or its plan has changed, and
  // the lines are the first of the plan's own cutting.
  ghost predicate Followed(r: Rest, hs: seq<int>, first: nat, width: nat, words: array<Word>, i: nat,
      cost: array<int>, next: array<nat>, hyph: array<int>,
                           lines: seq<Line>)
    reads words, cost, next, hyph
  {
    && PlanOf(r, hs, first, width) && (forall k :: 0 <= k < |r.ns| ==> k < r.ns[k] <= |r.ns|)
    && words[..] == r.ws && cost[..] == r.cs && next[..] == r.ns && hyph[..] == hs
    && WordsOf(lines) + LinesOf(Texts(r.ws), i, Chosen(r.ns, i)) == LinesOf(Texts(r.ws), 0, Chosen(r.ns, 0))
  }

  // A turn of a plain paragraph.
  lemma {:induction false} FollowedStep(r: Rest, hs: seq<int>, first: nat, width: nat, words: array<Word>, i: nat,
      cost: array<int>, next: array<nat>,
                                        hyph: array<int>, lines: seq<Line>, line: Line)
    requires Followed(r, hs, first, width, words, i, cost, next, hyph, lines) && i < |r.ws|
             && line.words == Texts(r.ws)[i..r.ns[i]]
    ensures Followed(r, hs, first, width, words, r.ns[i], cost, next, hyph, lines + [line])
  {
    LinesStep(Texts(r.ws), r.ns, i, lines, line, LinesOf(Texts(r.ws), 0, Chosen(r.ns, 0)));
  }

  // One turn of the loop; plain when the paragraph is.
  method Turn(md: Model, words: array<Word>, i: nat, first: nat, width: nat, cost: array<int>, next: array<nat>,
      hyph: array<int>,
              lines: seq<Line>, ghost ends: seq<End>, ghost para: seq<string>, ghost plain: bool, ghost r: Rest,
                  ghost hs: seq<int>)
    returns (at: nat, out: seq<Line>, ghost outEnds: seq<End>)
    requires Ready(md, words, i, first, width, cost, next, hyph, lines, ends, para) && i < words.Length
    requires plain ==> Followed(r, hs, first, width, words, i, cost, next, hyph, lines)
    modifies words, cost, next, hyph
    ensures Ready(md, words, at, first, width, cost, next, hyph, out, outEnds, para) && out != []
    ensures plain ==> Followed(r, hs, first, width, words, at, cost, next, hyph, out)
    ensures Turned(Loop(Stripped(old(words[..])), i, lines), Loop(Stripped(words[..]), at, out), first, width)
    ensures if |old(words[i]).text| <= MeasureOf(i, first, width) then at > i
            else
              var rest := SplitRest(old(words[i]), 0, if lines == [] then first else width, width);
              at == i && rest <= |old(words[i]).text| && words[i].text == old(words[i]).text[rest..]
                  && |words[i].text| <= width
              && (lines != [] && |old(words[i]).text| <= width ==> out == lines)
  {
    ghost var ws := words[..];
    if |words[i].text| > MeasureOf(i, first, width) {
      out, outEnds := SplitTurn(md, words, i, first, width, cost, next, hyph, lines, ends, para);
      return i, out, outEnds;
    }
    if plain { EntryIs(r, hs, first, width, i); }
    var line;
    at, line, out, outEnds := LineTurn(md, words, i, first, width, cost, next, hyph, lines, ends, para);
    LineIsTaken(ws, words[..], i, at, lines, line);
    if plain { FollowedStep(r, hs, first, width, words, i, cost, next, hyph, lines, line); }
  }

  // A fresh plan.
  method Plan(md: Model, words: array<Word>, first: nat, width: nat)
    returns (cost: array<int>, next: array<nat>, hyph: array<int>, ghost r: Rest, ghost hs: seq<int>)
    requires 0 < first <= width && forall k :: 0 <= k < words.Length ==> Measured(words[k]) && width <= words[k].limit
    ensures fresh(cost) && fresh(next) && fresh(hyph) && r == Rest(md, words[..], cost[..], next[..]) && hs == hyph[..]
    ensures Ready(md, words, 0, first, width, cost, next, hyph, [], [], Texts(words[..]))
    ensures Plain(words[..], first, width) ==>
              Followed(r, hs, first, width, words, 0, cost, next, hyph, [])
                  && Cheapest(md, words[..], first, width, Chosen(next[..], 0))
  {
    var n := words.Length;
    cost, next, hyph := new int[n + 1](_ => 0), new nat[n](_ => 0), new int[n](_ => 0);
    Dp(md, words, 0, n, first, width, cost, next, hyph);
    r, hs := Rest(md, words[..], cost[..], next[..]), hyph[..];
    NothingTold(Texts(words[..]));
    assert cost[n..][0] == 0;
    if Plain(words[..], first, width) { PlainPlan(r, hs, first, width); }
  }

  lemma {:induction false} NothingTold(texts: seq<string>)
    ensures Told(texts, [], [], texts, 0)
  {
    if texts != [] {
      assert "" + texts[0] == texts[0];
      assert texts == [texts[0]] + texts[1..];
    }
  }

  // The plan of a plain paragraph is its cheapest cutting.
  lemma {:induction false} PlainPlan(r: Rest, hs: seq<int>, first: nat, width: nat)
    requires PlanOf(r, hs, first, width)
    ensures forall k :: 0 <= k < |r.ns| ==> k < r.ns[k] <= |r.ns|
    ensures Cheapest(r.md, r.ws, first, width, Chosen(r.ns, 0))
    ensures WordsOf([]) + LinesOf(Texts(r.ws), 0, Chosen(r.ns, 0)) == LinesOf(Texts(r.ws), 0, Chosen(r.ns, 0))
  {
    EntriesForward(r, hs, first, width);
    ChosenIsCheapest(r, hs, first, width);
    assert WordsOf([]) == [];
  }

  // A run from the paragraph's words to where the loop stands.
  ghost predicate Ran(run: seq<Loop>, from: seq<Word>, words: seq<Word>, i: nat, lines: seq<Line>, first: nat,
      width: nat)
    requires 0 < first <= width
  {
    IsRun(run, first, width) && run[0] == Loop(from, 0, []) && run[|run| - 1] == Loop(words, i, lines)
  }

  lemma {:induction false} RanOn(run: seq<Loop>, from: seq<Word>, words: seq<Word>, i: nat, lines: seq<Line>,
      next: Loop, first: nat, width: nat)
    requires 0 < first <= width && Ran(run, from, words, i, lines, first, width)
             && Turned(Loop(words, i, lines), next, first, width)
    ensures Ran(run + [next], from, next.words, next.i, next.lines, first, width)
  {
    RunMore(run, next, first, width);
  }

  // What holds before each turn of a paragraph whose first word does not get stuck.
  ghost predicate Going(md: Model, words: array<Word>, i: nat, first: nat, width: nat, cost: array<int>,
      next: array<nat>, hyph: array<int>,
                        lines: seq<Line>, ends: seq<End>, para: seq<string>, plain: bool, r: Rest, hs: seq<int>,
                            run: seq<Loop>, from: seq<Word>)
    requires 0 < first <= width
    reads words, cost, next, hyph
  {
    && Ready(md, words, i, first, width, cost, next, hyph, lines, ends, para) && |from| == words.Length
    && (i == 0 && words.Length > 0 ==> if lines == [] then words[0] == from[0] else |words[0].text| <= first)
    && (plain ==> Followed(r, hs, first, width, words, i, cost, next, hyph, lines))
    && Ran(run, Stripped(from), Stripped(words[..]), i, lines, first, width)
  }

  // One turn of it.
  method Advance(md: Model, words: array<Word>, i: nat, first: nat, width: nat, cost: array<int>, next: array<nat>,
      hyph: array<int>,
                 lines: seq<Line>, ghost ends: seq<End>, ghost para: seq<string>, ghost plain: bool, ghost r: Rest,
                     ghost hs: seq<int>,
                 ghost run: seq<Loop>, ghost from: seq<Word>)
    returns (at: nat, out: seq<Line>, ghost outEnds: seq<End>, ghost ran: seq<Loop>)
    requires 0 < first <= width && i < words.Length
    requires Going(md, words, i, first, width, cost, next, hyph, lines, ends, para, plain, r, hs, run, from)
    requires !Stuck(from[0], first, width)
    modifies words, cost, next, hyph
    ensures Going(md, words, at, first, width, cost, next, hyph, out, outEnds, para, plain, r, hs, ran, from)
    ensures at > i || (at == i && |words[i].text| <= MeasureOf(i, first, width) < |old(words[i]).text|)
  {
    ghost var ws := Stripped(words[..]);
    at, out, outEnds := Turn(md, words, i, first, width, cost, next, hyph, lines, ends, para, plain, r, hs);
    RanOn(run, Stripped(from), ws, i, lines, Loop(Stripped(words[..]), at, out), first, width);
    ran := run + [Loop(Stripped(words[..]), at, out)];
  }

  // Every line fits, the lines read back as the words, and where nothing need be hyphenated or
  // split they are the cheapest cutting. It ends whenever the first word does not get stuck, after
  // the turns of a run of the machine.
  method BreakLines(md: Model, words: array<Word>, first: nat, width: nat)
    returns (lines: seq<Line>, ghost ends: seq<End>, ghost cutting: seq<nat>, ghost run: seq<Loop>)
    requires 0 < first <= width && forall k :: 0 <= k < words.Length ==> Measured(words[k]) && width <= words[k].limit
    requires words.Length > 0 ==> !Stuck(words[0], first, width)
    modifies words
    ensures Fit(lines, first, width)
    ensures Readable(lines, ends) && Read(lines, ends) == Reading(Texts(old(words[..])), "")
    ensures Plain(old(words[..]), first, width) ==>
              Cheapest(md, old(words[..]), first, width, cutting)
                  && WordsOf(lines) == LinesOf(Texts(old(words[..])), 0, cutting)
    ensures IsRun(run, first, width) && run[0] == Loop(Stripped(old(words[..])), 0, [])
    ensures run[|run| - 1] == Loop(Stripped(words[..]), words.Length, lines)
  {
    var cost, next, hyph, r, hs := Plan(md, words, first, width);
    ghost var plain, para := Plain(words[..], first, width), Texts(words[..]);
    cutting := if plain then Chosen(r.ns, 0) else [];
    ghost var from := words[..];
    lines, ends, run := AllTurns(md, words, first, width, cost, next, hyph, para, plain, r, hs, from);
    Ended(md, words, first, width, cost, next, hyph, lines, ends, para, plain, r, hs, run, from);
  }

  // The loop itself.
  method AllTurns(md: Model, words: array<Word>, first: nat, width: nat, cost: array<int>, next: array<nat>,
      hyph: array<int>,
                  ghost para: seq<string>, ghost plain: bool, ghost r: Rest, ghost hs: seq<int>, ghost from: seq<Word>)
    returns (lines: seq<Line>, ghost ends: seq<End>, ghost run: seq<Loop>)
    requires 0 < first <= width && from == words[..] && (words.Length > 0 ==> !Stuck(words[0], first, width))
    requires Ready(md, words, 0, first, width, cost, next, hyph, [], [], para)
    requires plain ==> Followed(r, hs, first, width, words, 0, cost, next, hyph, [])
    modifies words, cost, next, hyph
    ensures Going(md, words, words.Length, first, width, cost, next, hyph, lines, ends, para, plain, r, hs, run, from)
  {
    lines, ends := [], [];
    var i := 0;
    run := [Loop(Stripped(words[..]), 0, [])];
    while i < words.Length
      invariant Going(md, words, i, first, width, cost, next, hyph, lines, ends, para, plain, r, hs, run, from)
      decreases words.Length - i, i < words.Length && |words[i].text| > MeasureOf(i, first, width)
    {
      i, lines, ends, run :=
          Advance(md, words, i, first, width, cost, next, hyph, lines, ends, para, plain, r, hs, run, from);
    }
  }

  // The loop at its end.
  lemma {:induction false} Ended(md: Model, words: array<Word>, first: nat, width: nat, cost: array<int>,
      next: array<nat>, hyph: array<int>,
                                 lines: seq<Line>, ends: seq<End>, para: seq<string>, plain: bool, r: Rest,
                                     hs: seq<int>, run: seq<Loop>, from: seq<Word>)
    requires 0 < first <= width
    requires Going(md, words, words.Length, first, width, cost, next, hyph, lines, ends, para, plain, r, hs, run, from)
    ensures Fit(lines, first, width) && Readable(lines, ends) && Read(lines, ends) == Reading(para, "")
    ensures plain ==> WordsOf(lines) == LinesOf(Texts(r.ws), 0, Chosen(r.ns, 0))
    ensures IsRun(run, first, width) && run[0] == Loop(Stripped(from), 0, [])
            && run[|run| - 1] == Loop(Stripped(words[..]), words.Length, lines)
  {
    assert plain ==> Chosen(r.ns, words.Length) == [];
  }

  // A stuck first word: however many turns the loop takes, it is still there, and no line is added
  // after the first turn's.
  method StuckRun(md: Model, words: array<Word>, first: nat, width: nat, turns: nat)
      returns (at: nat, lines: seq<Line>, ghost run: seq<Loop>)
    requires 0 < first <= width && forall k :: 0 <= k < words.Length ==> Measured(words[k]) && width <= words[k].limit
    requires words.Length > 0 && Stuck(words[0], first, width)
    modifies words
    ensures Ran(run, Stripped(old(words[..])), Stripped(words[..]), at, lines, first, width) && |run| == turns + 1
    ensures at == 0 < words.Length && (turns > 0 ==> run[turns] == run[1])
  {
    var cost, next, hyph, r, hs := Plan(md, words, first, width);
    ghost var para, ends := Texts(words[..]), [];
    ghost var from := Stripped(words[..]);
    at, lines := 0, [];
    run := [Loop(from, 0, [])];
    StripKeeps(words[0], 0, first, width);
    var k := 0;
    while k < turns
      invariant Ready(md, words, at, first, width, cost, next, hyph, lines, ends, para) && k <= turns && at == 0
      invariant Ran(run, from, Stripped(words[..]), at, lines, first, width) && |run| == k + 1
    {
      ghost var ws, had := Stripped(words[..]), lines;
      at, lines, ends := Turn(md, words, 0, first, width, cost, next, hyph, lines, ends, para, false, r, hs);
      RanOn(run, from, ws, 0, had, Loop(Stripped(words[..]), at, lines), first, width);
      run := run + [Loop(Stripped(words[..]), at, lines)];
      k := k + 1;
      StuckForever(run, first, width, k);
    }
    if turns > 0 { StuckForever(run, first, width, turns); }
  }
}
