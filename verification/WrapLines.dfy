/** The lines of a paragraph (typeset/wrap/wrap.go): the plan read off, suffixes and split words
    taking their place in it as it goes. */
module WrapLines {
  import opened Wrap
  import opened WrapText
  import opened WrapDp
  import opened WrapTurns

  ghost function Texts(ws: seq<Word>): (ts: seq<string>)
    ensures |ts| == |ws|
  {
    seq(|ws|, k requires 0 <= k < |ws| => ws[k].text)
  }

  lemma {:induction false} LineIs(ws: seq<Word>, i: nat, j: nat)
    requires i < j <= |ws|
    ensures Natural(Texts(ws)[i..j]) == LineLen(ws, i, j)
    decreases j
  {
    if j > i + 1 {
      LineIs(ws, i, j - 1);
      NaturalSnoc(Texts(ws)[i..j - 1], ws[j - 1].text);
      assert Texts(ws)[i..j] == Texts(ws)[i..j - 1] + [ws[j - 1].text];
    }
  }

  // The whole words i up to j of a line, and their width.
  method Gather(words: array<Word>, i: nat, j: nat) returns (line: Line)
    requires i < j <= words.Length
    ensures line.words == Texts(words[..])[i..j] && line.width == LineLen(words[..], i, j)
  {
    ghost var ws := words[..];
    var texts, natural: nat, k := [words[i].text], |words[i].text|, i + 1;
    while k < j
      invariant i < k <= j && texts == Texts(ws)[i..k] && natural == LineLen(ws, i, k)
    {
      texts, natural, k := texts + [words[k].text], natural + 1 + |words[k].text|, k + 1;
    }
    return Line(texts, natural);
  }

  // The line of a settled position whose first word fits, the rune its last word is cut at (0 if
  // at none), and how it ends.
  method TakeLine(md: Model, words: array<Word>, i: nat, W: nat, cost: array<int>, next: array<nat>, hyph: array<int>)
    returns (line: Line, cut: nat, ghost end: End)
    requires words.Length == next.Length == hyph.Length && cost.Length == words.Length + 1 && i < words.Length
    requires Shaped(Rest(md, words[..], cost[..], next[..])) && W <= words[i].limit
    requires forall k :: 0 <= k < words.Length ==> W <= words[k].limit
    requires hyph[i] != OVERLONG && Settled(Rest(md, words[..], cost[..], next[..]), W, i, cost[i], next[i], hyph[i])
    ensures i < next[i] <= words.Length && line.words != [] && line.width == Natural(line.words) <= W
    ensures if cut == 0 then end == Whole && line.words == Texts(words[..])[i..next[i]]
            else next[i] < words.Length && PieceOf(words[next[i]].text, 0, cut, line.words[|line.words| - 1], end)
                 && line.words == Texts(words[..])[i..next[i]] + [line.words[|line.words| - 1]]
    ensures cut == 0 <==> hyph[i] == NO_HYPHEN
  {
    ghost var ws := words[..];
    var j, hp := next[i], hyph[i];
    line := Gather(words, i, j);
    LineIs(ws, i, j);
    if hp < 0 { return line, 0, Whole; }
    var w := words[j];
    cut := w.points[hp];
    var piece := Hyphened(w.text, cut);
    assert hp < |w.prefix|;
    end := Cut(w.text[cut - 1] != '-');
    assert w.text[..cut] == w.text[0..cut];
    NaturalSnoc(line.words, piece);
    line := Line(line.words + [piece], line.width + 1 + w.prefix[hp]);
  }

  // rest: the suffix of word k from rune cut on takes its place, and position k is planned again.
  method Replace(md: Model, words: array<Word>, k: nat, cut: nat, first: nat, measure: nat, cost: array<int>,
      next: array<nat>, hyph: array<int>)
    requires Sized(words, first, measure, cost, next, hyph) && k < words.Length && cut <= |words[k].text|
    requires Planned(Rest(md, words[..], cost[..], next[..]), hyph[..], k + 1, words.Length, first, measure)
    modifies words, cost, next, hyph
    ensures Sized(words, first, measure, cost, next, hyph)
    ensures Texts(words[..]) == Texts(old(words[..]))[k := old(words[k]).text[cut..]]
    ensures words[..] == old(words[..])[k := words[k]] && Strip(words[k]) == SuffixOf(old(words[k]), cut)
    ensures Planned(Rest(md, words[..], cost[..], next[..]), hyph[..], k, words.Length, first, measure)
  {
    ghost var r, hs := Rest(md, words[..], cost[..], next[..]), hyph[..];
    var s := Suffix(words[k], cut);
    words[k] := s;
    assert Texts(words[..]) == Texts(old(words[..]))[k := old(words[k]).text[cut..]];
    Dp(md, words, k, k + 1, first, measure, cost, next, hyph);
    ghost var q, gs := Rest(md, words[..], cost[..], next[..]), hyph[..];
    assert cost[k + 1..] == old(cost[k + 1..]);
    KeepPlan(r, q, hs, gs, k, first, measure);
  }

  lemma {:induction false} KeepPlan(r: Rest, q: Rest, hs: seq<int>, gs: seq<int>, k: nat, first: nat, measure: nat)
    requires k < |r.ws| && Planned(r, hs, k + 1, |r.ws|, first, measure) && Planned(q, gs, k, k + 1, first, measure)
    requires r.md == q.md && |q.ws| == |r.ws| && |gs| == |hs| && r.cs[k + 1..] == q.cs[k + 1..]
    requires forall i :: k < i < |r.ws| ==> q.ws[i] == r.ws[i] && q.ns[i] == r.ns[i] && gs[i] == hs[i]
    ensures Planned(q, gs, k, |r.ws|, first, measure)
  {
    forall i | k < i <= |r.ws|
      ensures r.cs[i] == q.cs[i]
    {
      assert r.cs[k + 1..][i - k - 1] == q.cs[k + 1..][i - k - 1];
    }
    PlannedAfter(r, q, hs, gs, k, |r.ws|, first, measure);
  }

  // ---------- the reconstruction ----------

  // Each line fits its measure, the first its own.
  ghost predicate Fit(lines: seq<Line>, first: nat, width: nat) {
    forall k :: 0 <= k < |lines| ==>
      lines[k].words != [] && lines[k].width == Natural(lines[k].words) <= if k == 0 then first else width
  }

  // The lines and the words from i on, read together, are the paragraph.
  ghost predicate Told(para: seq<string>, lines: seq<Line>, ends: seq<End>, texts: seq<string>, i: nat) {
    Readable(lines, ends) && Pending(para, Read(lines, ends), texts, i)
  }

  // The first k pieces of texts[i] are lines, each ends in outEnds, and the rest stands in its place.
  ghost predicate Partway(para: seq<string>, lines: seq<Line>, out: seq<Line>, outEnds: seq<End>,
      texts: seq<string>, i: nat, text: string,
                          pieces: seq<string>, cuts: seq<nat>, k: nat, first: nat, width: nat)
  {
    && i < |texts| && k <= |pieces| && |cuts| == |pieces| + 1 && cuts[k] <= |text|
    && Fit(out, first, width) && Told(para, out, outEnds, texts[i := text[cuts[k]..]], i)
        && out == lines + PieceLines(pieces)[..k]
  }

  lemma {:induction false} PieceTold(para: seq<string>, lines: seq<Line>, ends: seq<End>, texts: seq<string>,
      i: nat, text: string,
                                     o: nat, cut: nat, piece: string, end: End, first: nat, width: nat)
    requires i < |texts| && PieceOf(text, o, cut, piece, end) && Fit(lines, first, width)
             && Told(para, lines, ends, texts[i := text[o..]], i)
    requires |piece| <= if lines == [] then first else width
    ensures Fit(lines + [Line([piece], |piece|)], first, width)
    ensures Told(para, lines + [Line([piece], |piece|)], ends + [end], texts[i := text[cut..]], i)
  {
    ReadSnoc(lines, ends, Line([piece], |piece|), end);
    PendingPiece(para, Read(lines, ends), texts, i, text, o, cut, piece, end);
  }

  lemma {:induction false} PieceStep(para: seq<string>, lines: seq<Line>, out: seq<Line>, outEnds: seq<End>,
      texts: seq<string>, i: nat, text: string,
                                     pieces: seq<string>, cuts: seq<nat>, k: nat, first: nat, width: nat,
                                         line: Line, end: End)
    requires k < |pieces| && Partway(para, lines, out, outEnds, texts, i, text, pieces, cuts, k, first, width)
    requires PieceOf(text, cuts[k], cuts[k + 1], pieces[k], end) && line == Line([pieces[k]], |pieces[k]|)
    requires |pieces[k]| <= if k == 0 && lines == [] then first else width
    requires first <= width
    ensures Partway(para, lines, out + [line], outEnds + [end], texts, i, text, pieces, cuts, k + 1, first, width)
  {
    PieceTold(para, out, outEnds, texts, i, text, cuts[k], cuts[k + 1], pieces[k], end, first, width);
    assert out + [line] == lines + PieceLines(pieces)[..k + 1];
  }

  lemma {:induction false} PieceStart(para: seq<string>, lines: seq<Line>, ends: seq<End>, texts: seq<string>,
      i: nat, text: string,
                                      pieces: seq<string>, cuts: seq<nat>, first: nat, width: nat)
    requires i < |texts| && texts[i] == text && Fit(lines, first, width) && Told(para, lines, ends, texts, i)
    requires |cuts| == |pieces| + 1 && cuts[0] == 0
    ensures Partway(para, lines, lines, ends, texts, i, text, pieces, cuts, 0, first, width)
  {
    assert texts[i := text[0..]] == texts && lines + PieceLines(pieces)[..0] == lines;
  }

  lemma {:induction false} PieceEnd(para: seq<string>, lines: seq<Line>, out: seq<Line>, outEnds: seq<End>,
      texts: seq<string>, i: nat, text: string,
                                    pieces: seq<string>, cuts: seq<nat>, k: nat, first: nat, width: nat)
    requires Partway(para, lines, out, outEnds, texts, i, text, pieces, cuts, k, first, width) && k == |pieces|
    ensures out == lines + PieceLines(pieces) && lines <= out && |out| == |lines| + |pieces|
  {
    assert PieceLines(pieces)[..k] == PieceLines(pieces);
  }

  // Each piece of a split word is a line.
  method AddPieces(lines: seq<Line>, pieces: seq<string>, first: nat, width: nat, ghost para: seq<string>,
      ghost ends: seq<End>,
                   ghost texts: seq<string>, ghost i: nat, ghost text: string, ghost pends: seq<End>,
                       ghost cuts: seq<nat>)
    returns (out: seq<Line>, ghost outEnds: seq<End>)
    requires first <= width && i < |texts| && texts[i] == text && Fit(lines, first, width)
             && Told(para, lines, ends, texts, i)
    requires PiecesOf(text, pieces, pends, cuts)
    requires forall k :: 0 <= k < |pieces| ==> 0 < |pieces[k]| <= if k == 0 && lines == [] then first else width
    ensures Fit(out, first, width) && |out| == |lines| + |pieces| && lines <= out && cuts[|pieces|] <= |text|
    ensures Told(para, out, outEnds, texts[i := text[cuts[|pieces|]..]], i) && out == lines + PieceLines(pieces)
  {
    out, outEnds := lines, ends;
    var k := 0;
    PieceStart(para, lines, ends, texts, i, text, pieces, cuts, first, width);
    while k < |pieces|
      invariant k <= |pieces| && Partway(para, lines, out, outEnds, texts, i, text, pieces, cuts, k, first, width)
    {
      var line := Line([pieces[k]], |pieces[k]|);
      PieceStep(para, lines, out, outEnds, texts, i, text, pieces, cuts, k, first, width, line, pends[k]);
      out, outEnds, k := out + [line], outEnds + [pends[k]], k + 1;
    }
    PieceEnd(para, lines, out, outEnds, texts, i, text, pieces, cuts, k, first, width);
  }

  // What holds before each turn.
  ghost predicate Ready(md: Model, words: array<Word>, i: nat, first: nat, width: nat, cost: array<int>,
      next: array<nat>, hyph: array<int>,
                        lines: seq<Line>, ends: seq<End>, para: seq<string>)
    reads words, cost, next, hyph
  {
    && Sized(words, first, width, cost, next, hyph) && i <= words.Length && (lines == [] ==> i == 0)
    && Planned(Rest(md, words[..], cost[..], next[..]), hyph[..], i, words.Length, first, width)
    && Fit(lines, first, width) && Told(para, lines, ends, Texts(words[..]), i)
  }

  // A turn at an overlong word: each piece that fills a line is one, and what is left takes the
  // word's place.
  method SplitTurn(md: Model, words: array<Word>, i: nat, first: nat, width: nat, cost: array<int>,
      next: array<nat>, hyph: array<int>,
                   lines: seq<Line>, ghost ends: seq<End>, ghost para: seq<string>)
    returns (out: seq<Line>, ghost outEnds: seq<End>)
    requires Ready(md, words, i, first, width, cost, next, hyph, lines, ends, para) && i < words.Length
    requires |words[i].text| > MeasureOf(i, first, width)
    modifies words, cost, next, hyph
    ensures Ready(md, words, i, first, width, cost, next, hyph, out, outEnds, para) && lines <= out
    ensures var rest := SplitRest(old(words[i]), 0, if lines == [] then first else width, width);
            rest <= |old(words[i]).text| && words[i].text == old(words[i]).text[rest..]
    ensures out != [] && |words[i].text| <= width
    ensures lines != [] && |old(words[i]).text| <= width ==> out == lines
    ensures Loop(Stripped(words[..]), i, out) == SplitAt(Loop(Stripped(old(words[..])), i, lines), first, width)
  {
    ghost var ws := words[..];
    ghost var texts, text := Texts(words[..]), words[i].text;
    var lw := if |lines| == 0 then first else width;
    var pieces, cut, pends, cuts := Split(words[i], lw, width);
    out, outEnds := AddPieces(lines, pieces, first, width, para, ends, texts, i, text, pends, cuts);
    Replace(md, words, i, cut, first, width, cost, next, hyph);
    SplitIs(ws, words[..], i, lw, width, cut, first, lines, out, pieces);
  }

  // What a split does, as the machine has it.
  lemma {:induction false} SplitIs(ws: seq<Word>, vs: seq<Word>, i: nat, lw: nat, width: nat, cut: nat, first: nat,
      lines: seq<Line>,
                                   out: seq<Line>, pieces: seq<string>)
    requires i < |ws| == |vs| && 0 < first <= width && lw == (if lines == [] then first else width)
    requires cut == SplitRest(ws[i], 0, lw, width) <= |ws[i].text| && pieces == SplitPieces(ws[i], 0, lw, width)
    requires vs == ws[i := vs[i]] && Strip(vs[i]) == SuffixOf(ws[i], cut) && out == lines + PieceLines(pieces)
    ensures Loop(Stripped(vs), i, out) == SplitAt(Loop(Stripped(ws), i, lines), first, width)
  {
    StripKeeps(ws[i], 0, lw, width);
    assert Stripped(vs) == Stripped(ws)[i := Strip(vs[i])];
    assert SuffixOf(Strip(ws[i]), cut) == SuffixOf(ws[i], cut);
  }

  // What a split reads of a word is left when it is stripped.
  lemma {:induction false} StripKeeps(w: Word, o: nat, lw: nat, width: nat)
    requires lw > 0 && width > 0
    ensures SplitRest(Strip(w), o, lw, width) == SplitRest(w, o, lw, width)
    ensures SplitPieces(Strip(w), o, lw, width) == SplitPieces(w, o, lw, width)
    decreases |w.text| - o
  {
    if |w.text| > o + lw {
      StripEnds(w, o, lw, |w.points|);
      var cut, piece := CutAt(w, o, lw), PieceAt(w, o, lw);
      SplitStep(w, o, lw, width, piece, cut);
      SplitStep(Strip(w), o, lw, width, piece, cut);
      StripKeeps(w, cut, width, width);
    }
  }

  lemma {:induction false} StripEnds(w: Word, o: nat, lw: nat, k: nat)
    requires k <= |w.points|
    ensures LastEnd(Strip(w), o, lw, k) == LastEnd(w, o, lw, k)
  {
    if k > 0 {
      StripEnds(w, o, lw, k - 1);
      assert Ends(Strip(w), o, lw, w.points[k - 1]) <==> Ends(w, o, lw, w.points[k - 1]);
    }
  }

  // A planned line told: words i up to j, and if cut > 0 the start of word j.
  lemma {:induction false} ToldLine(para: seq<string>, lines: seq<Line>, ends: seq<End>, texts: seq<string>, i: nat,
      j: nat,
                                    line: Line, end: End, cut: nat, first: nat, width: nat)
    requires Fit(lines, first, width) && Told(para, lines, ends, texts, i) && i < j <= |texts| && line.words != []
    requires line.width == Natural(line.words) <= (if lines == [] then first else width)
    requires if cut == 0 then end == Whole && line.words == texts[i..j]
             else j < |texts| && PieceOf(texts[j], 0, cut, line.words[|line.words| - 1], end)
                  && line.words == texts[i..j] + [line.words[|line.words| - 1]]
    ensures Fit(lines + [line], first, width)
    ensures Told(para, lines + [line], ends + [end], if cut == 0 then texts else texts[j := texts[j][cut..]], j)
  {
    ReadSnoc(lines, ends, line, end);
    if cut > 0 {
      PendingHyphen(para, Read(lines, ends), texts, i, j, cut, line.words[|line.words| - 1], end);
    } else {
      PendingWhole(para, Read(lines, ends), texts, i, j);
    }
  }

  // A turn at a word that fits its line: the line planned there.
  method LineTurn(md: Model, words: array<Word>, i: nat, first: nat, width: nat, cost: array<int>, next: array<nat>,
      hyph: array<int>,
                  lines: seq<Line>, ghost ends: seq<End>, ghost para: seq<string>)
    returns (at: nat, line: Line, out: seq<Line>, ghost outEnds: seq<End>)
    requires Ready(md, words, i, first, width, cost, next, hyph, lines, ends, para) && i < words.Length
    requires |words[i].text| <= MeasureOf(i, first, width)
    modifies words, cost, next, hyph
    ensures Ready(md, words, at, first, width, cost, next, hyph, out, outEnds, para) && out == lines + [line]
    ensures i < at == old(next[i])
    ensures old(hyph[i]) == NO_HYPHEN ==>
              && line.words == Texts(old(words[..]))[i..at]
              && words[..] == old(words[..]) && cost[..] == old(cost[..]) && next[..] == old(next[..])
                  && hyph[..] == old(hyph[..])
    ensures forall k :: 0 <= k < words.Length && k != at ==> words[k] == old(words[k])
  {
    ghost var texts := Texts(words[..]);
    at := next[i];
    var cut;
    ghost var end;
    line, cut, end := TakeLine(md, words, i, MeasureOf(i, first, width), cost, next, hyph);
    ToldLine(para, lines, ends, texts, i, at, line, end, cut, first, width);
    out, outEnds := lines + [line], ends + [end];
    LaterPlanned(Rest(md, words[..], cost[..], next[..]), hyph[..], i, at, words.Length, first, width);
    if cut > 0 { Replace(md, words, at, cut, first, width, cost, next, hyph); }
  }

  // A plan from i on is one from any later position on.
  lemma {:induction false} LaterPlanned(r: Rest, hs: seq<int>, i: nat, at: nat, end: nat, first: nat, width: nat)
    requires Planned(r, hs, i, end, first, width) && i <= at
    ensures Planned(r, hs, at, end, first, width) && Planned(r, hs, at + 1, end, first, width)
  {
  }

  lemma {:induction false} LineIsTaken(ws: seq<Word>, vs: seq<Word>, i: nat, at: nat, lines: seq<Line>, line: Line)
    requires i < at <= |ws| == |vs| && forall k :: 0 <= k < |ws| && k != at ==> vs[k] == ws[k]
    ensures LineTaken(Loop(Stripped(ws), i, lines), Loop(Stripped(vs), at, lines + [line]))
  {
  }
}
