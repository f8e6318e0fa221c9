/** The backward dynamic program that chooses a paragraph's breaks (typeset/wrap/wrap.go). Costs
    are counted in quarters, the finest the models use. */
module WrapDp {
  import opened Wrap

  // A breaker's cost model: line costs a line at its slack and word count, last the last line at
  // its slack and measure.
  datatype Model = Model(penalty: int, final: int, proactive: bool, line: (int, nat) -> int, last: (int, int) -> int)

  // The natural width of a line of words i up to j.
  function LineLen(ws: seq<Word>, i: nat, j: nat): nat
    requires i < j <= |ws|
    decreases j
  {
    if j == i + 1 then |ws[i].text| else LineLen(ws, i, j - 1) + 1 + |ws[j - 1].text|
  }

  // Where a line may end: after word `next - 1`, or inside word `next` at one of its points.
  datatype Break = After(next: nat) | Inside(next: nat, point: nat)

  // The paragraph, the measure of a line from word i, and what follows: cs[j] is the cost of the
  // words from j on, ns[j] where their first line ends.
  datatype Rest = Rest(md: Model, ws: seq<Word>, cs: seq<int>, ns: seq<nat>)

  ghost predicate Shaped(r: Rest) {
    |r.cs| == |r.ws| + 1 && |r.ns| == |r.ws| && forall k :: 0 <= k < |r.ws| ==> Measured(r.ws[k])
  }

  function EndLen(ws: seq<Word>, i: nat, j: nat, p: nat): nat
    requires i < j < |ws| && p < |ws[j].points| && 0 < ws[j].points[p] <= |ws[j].text|
  {
    LineLen(ws, i, j) + 1 + EndWidth(ws[j].text, 0, ws[j].points[p])
  }

  // The breaks the program weighs for a line from word i on measure W: those that fit, and inside
  // a word only where the word overflows the line or the model hyphenates proactively.
  ghost predicate Can(r: Rest, W: nat, i: nat, b: Break)
    requires Shaped(r)
  {
    match b
    case After(j) => i < j <= |r.ws| && LineLen(r.ws, i, j) <= W
    case Inside(j, p) =>
      && i < j < |r.ws| && p < |r.ws[j].points| && EndLen(r.ws, i, j, p) <= W
      && (LineLen(r.ws, i, j + 1) > W || (r.md.proactive && j + 1 < |r.ws|))
  }

  ghost function Price(r: Rest, W: nat, i: nat, b: Break): int
    requires Shaped(r) && Can(r, W, i, b)
  {
    match b
    case After(j) =>
      r.cs[j] + if j < |r.ws| then r.md.line(W - LineLen(r.ws, i, j), j - i) else r.md.last(W - LineLen(r.ws, i, j), W)
    case Inside(j, p) =>
      r.md.line(W - EndLen(r.ws, i, j, p), j - i + 1) + r.md.penalty + r.cs[j] + if r.ns[j] == |r.ws|
          then r.md.final else 0
  }

  // The cheapest break so far; none yet stands for an infinite cost.
  datatype Best = Unset | Set(cost: int, b: Break)

  predicate Within(b: Break, whole: nat, inside: nat) { if b.After? then b.next <= whole else b.next < inside }

  // best is the cheapest break after a word up to `whole` and inside a word before `inside`.
  ghost predicate Seen(r: Rest, W: nat, i: nat, whole: nat, inside: nat, best: Best)
    requires Shaped(r)
  {
    && (best.Set? ==> Can(r, W, i, best.b) && Within(best.b, whole, inside) && best.cost == Price(r, W, i, best.b))
    && forall b :: Can(r, W, i, b) && Within(b, whole, inside) ==> best.Set? && best.cost <= Price(r, W, i, b)
  }

  function Take(best: Best, c: int, b: Break): Best {
    if best.Unset? || c < best.cost then Set(c, b) else best
  }

  lemma {:induction false} LineLenGrows(ws: seq<Word>, i: nat, j: nat, k: nat)
    requires i < j <= k <= |ws|
    ensures LineLen(ws, i, j) + (k - j) <= LineLen(ws, i, k)
    decreases k
  {
    if j < k { LineLenGrows(ws, i, j, k - 1); }
  }

  lemma {:induction false} SeenWhole(r: Rest, W: nat, i: nat, j: nat, best: Best, cost: int)
    requires Shaped(r) && i <= j < |r.ws| && Seen(r, W, i, j, j, best)
    requires Can(r, W, i, After(j + 1)) && cost == Price(r, W, i, After(j + 1))
    ensures Seen(r, W, i, j + 1, j, Take(best, cost, After(j + 1)))
  {
    forall b | Can(r, W, i, b) && Within(b, j + 1, j)
      ensures Take(best, cost, After(j + 1)).cost <= Price(r, W, i, b)
    {
      if b != After(j + 1) { assert Within(b, j, j); }
    }
  }

  // ---------- hyphenating a word to end a line ----------

  function Used(used: int): nat { if used >= 0 then used + 1 else 0 }

  ghost predicate Fits(w: Word, used: int, W: nat, p: nat) {
    p < |w.points| && 0 < w.points[p] <= |w.text| && Used(used) + EndWidth(w.text, 0, w.points[p]) <= W
  }

  ghost function HyphenCost(md: Model, w: Word, used: int, W: nat, words: nat, tail: int, p: nat): int
    requires Fits(w, used, W, p)
  {
    md.line(W - (Used(used) + EndWidth(w.text, 0, w.points[p])), words) + md.penalty + tail
  }

  // hyphen: the cheapest of the word's points that fit.
  method Hyphen(md: Model, w: Word, used: int, W: nat, words: nat, tail: int) returns (ok: bool, cost: int, point: nat)
    requires Measured(w) && W <= w.limit
    ensures ok ==> Fits(w, used, W, point) && cost == HyphenCost(md, w, used, W, words, tail, point)
    ensures forall p: nat :: Fits(w, used, W, p) ==> ok && cost <= HyphenCost(md, w, used, W, words, tail, p)
  {
    ok, cost, point := false, 0, 0;
    var pi := |w.prefix|;
    while pi > 0
      invariant pi <= |w.prefix|
      invariant ok ==> Fits(w, used, W, point) && cost == HyphenCost(md, w, used, W, words, tail, point)
      invariant forall p: nat :: pi <= p && Fits(w, used, W, p) ==>
                  ok && cost <= HyphenCost(md, w, used, W, words, tail, p)
    {
      pi := pi - 1;
      var total := w.prefix[pi] + Used(used);
      if total <= W {
        var c := md.line(W - total, words) + md.penalty + tail;
        if !ok || c < cost { ok, cost, point := true, c, pi; }
      }
    }
  }

  lemma {:induction false} InsideFits(r: Rest, W: nat, i: nat, j: nat, p: nat)
    requires Shaped(r) && i < j < |r.ws|
    requires LineLen(r.ws, i, j + 1) > W || (r.md.proactive && j + 1 < |r.ws|)
    ensures Can(r, W, i, Inside(j, p)) <==> Fits(r.ws[j], LineLen(r.ws, i, j), W, p)
    ensures Can(r, W, i, Inside(j, p)) ==>
              var bare := HyphenCost(r.md, r.ws[j], LineLen(r.ws, i, j), W, j - i + 1, r.cs[j], p);
              Price(r, W, i, Inside(j, p)) == bare + if r.ns[j] == |r.ws| then r.md.final else 0
  {
  }

  // The word after the first j - i of a line, used units so far, may end it at one of its points.
  method TryInside(md: Model, w: Word, tail: int, last: bool, W: nat, i: nat, j: nat, used: nat, best: Best,
      ghost r: Rest, ghost whole: nat)
    returns (next: Best)
    requires Shaped(r) && i < j < |r.ws| && md == r.md && w == r.ws[j] && tail == r.cs[j] && last == (r.ns[j] == |r.ws|)
    requires W <= w.limit && used == LineLen(r.ws, i, j)
    requires LineLen(r.ws, i, j + 1) > W || (md.proactive && j + 1 < |r.ws|)
    requires Seen(r, W, i, whole, j, best)
    ensures Seen(r, W, i, whole, j + 1, next)
  {
    var ok, c, p := Hyphen(md, w, used, W, j - i + 1, tail);
    ghost var bare := c;
    if ok && last { c := c + md.final; }
    next := if ok then Take(best, c, Inside(j, p)) else best;
    if ok { InsideFits(r, W, i, j, p); }
    forall b | Can(r, W, i, b) && Within(b, whole, j + 1)
      ensures next.Set? && next.cost <= Price(r, W, i, b)
    {
      if b.Inside? && b.next == j { InsideFits(r, W, i, j, b.point); }
    }
  }

  // No break inside a word that fits, unless the model hyphenates proactively.
  lemma {:induction false} SeenFitting(r: Rest, W: nat, i: nat, j: nat, best: Best)
    requires Shaped(r) && i <= j < |r.ws| && LineLen(r.ws, i, j + 1) <= W
    requires j == i || !r.md.proactive || j + 1 == |r.ws|
    requires Seen(r, W, i, j + 1, j, best)
    ensures Seen(r, W, i, j + 1, j + 1, best)
  {
  }

  lemma {:induction false} NoneAfter(r: Rest, W: nat, i: nat, j: nat, b: Break)
    requires Shaped(r) && i <= j < |r.ws| && LineLen(r.ws, i, j + 1) > W && Can(r, W, i, b)
    ensures b.next <= j
  {
    if b.next > j { LineLenGrows(r.ws, i, j + 1, b.next); }
  }

  // Past a word that overflows the line there is no break.
  lemma {:induction false} SeenAll(r: Rest, W: nat, i: nat, j: nat, best: Best)
    requires Shaped(r) && i <= j < |r.ws| && LineLen(r.ws, i, j + 1) > W && Seen(r, W, i, j, j + 1, best)
    ensures Seen(r, W, i, |r.ws|, |r.ws|, best)
  {
    forall b | Can(r, W, i, b)
      ensures Within(b, j, j + 1)
    {
      NoneAfter(r, W, i, j, b);
    }
  }

  // ---------- one position ----------

  const NO_HYPHEN := -1
  const OVERLONG := -2

  // The cost of an overlong word: its cheapest first piece at a point if one fits, and the tail.
  ghost predicate Approximates(md: Model, w: Word, tail: int, W: nat, cost: int) {
    if exists p: nat :: Fits(w, -1, W, p) then
      && (exists p: nat :: Fits(w, -1, W, p) && cost == HyphenCost(md, w, -1, W, 1, tail, p))
      && (forall p: nat :: Fits(w, -1, W, p) ==> cost <= HyphenCost(md, w, -1, W, 1, tail, p))
    else cost == tail
  }

  // The entry of position i: its line ends at the cheapest break, or it starts with a word wider
  // than it.
  ghost predicate Settled(r: Rest, W: nat, i: nat, cost: int, next: nat, hyph: int)
    requires Shaped(r)
  {
    i < |r.ws| &&
    if |r.ws[i].text| > W then next == i && hyph == OVERLONG && Approximates(r.md, r.ws[i], r.cs[i + 1], W, cost)
    else
      && hyph >= NO_HYPHEN
      && Seen(r, W, i, |r.ws|, |r.ws|, Set(cost, if hyph == NO_HYPHEN then After(next) else Inside(next, hyph)))
  }

  lemma {:induction false} WholeTaken(r: Rest, W: nat, i: nat, j: nat, n: nat, after: int, lineLen: nat, best: Best,
      cost: int)
    requires Shaped(r) && i <= j < n == |r.ws| && after == r.cs[j + 1] && lineLen == LineLen(r.ws, i, j + 1) <= W
    requires Seen(r, W, i, j, j, best)
    requires cost == after + if j + 1 < n then r.md.line(W - lineLen, j - i + 1) else r.md.last(W - lineLen, W)
    ensures Seen(r, W, i, j + 1, j, Take(best, cost, After(j + 1)))
  {
    SeenWhole(r, W, i, j, best, cost);
  }

  // A word that fits: a break after it, and, if the model looks for them, breaks inside it.
  method ScanFitting(md: Model, w: Word, tail: int, after: int, last: bool, n: nat, W: nat, i: nat, j: nat,
      lineLen: nat, best: Best, ghost r: Rest)
    returns (next: Best)
    requires Shaped(r) && i <= j < n == |r.ws| && md == r.md && w == r.ws[j] && tail == r.cs[j] && after == r.cs[j + 1]
    requires last == (r.ns[j] == n) && W <= w.limit && lineLen == LineLen(r.ws, i, j + 1) <= W
    requires Seen(r, W, i, j, j, best)
    ensures Seen(r, W, i, j + 1, j + 1, next) && next.Set?
  {
    var cost := after + if j + 1 < n then md.line(W - lineLen, j - i + 1) else md.last(W - lineLen, W);
    WholeTaken(r, W, i, j, n, after, lineLen, best, cost);
    next := Take(best, cost, After(j + 1));
    if md.proactive && j + 1 < n && j > i {
      next := TryInside(md, w, tail, last, W, i, j, lineLen - |w.text| - 1, next, r, j + 1);
    } else {
      SeenFitting(r, W, i, j, next);
    }
  }

  // One word of the scan: lineLen is the line's width with it, tail and after the costs of what
  // follows a break inside it and after it.
  method Scan(md: Model, w: Word, tail: int, after: int, last: bool, n: nat, W: nat, i: nat, j: nat, lineLen: nat,
      best: Best, ghost r: Rest)
    returns (next: Best, stop: bool)
    requires Shaped(r) && i <= j < n == |r.ws| && md == r.md && w == r.ws[j] && tail == r.cs[j] && after == r.cs[j + 1]
    requires last == (r.ns[j] == n) && W <= w.limit && lineLen == LineLen(r.ws, i, j + 1) && (j == i ==> lineLen <= W)
    requires Seen(r, W, i, j, j, best)
    ensures stop == (lineLen > W)
    ensures if stop then Seen(r, W, i, n, n, next) else Seen(r, W, i, j + 1, j + 1, next) && next.Set?
  {
    if lineLen > W {
      next := TryInside(md, w, tail, last, W, i, j, lineLen - |w.text| - 1, best, r, j);
      SeenAll(r, W, i, j, next);
      return next, true;
    }
    next := ScanFitting(md, w, tail, after, last, n, W, i, j, lineLen, best, r);
    stop := false;
  }

  // One position of dp.
  method Choose(md: Model, words: array<Word>, i: nat, W: nat, cost: array<int>, next: array<nat>)
    returns (c: int, j: nat, h: int)
    requires words.Length == next.Length && cost.Length == words.Length + 1 && i < words.Length
    requires Shaped(Rest(md, words[..], cost[..], next[..])) && forall k :: 0 <= k < words.Length ==>
             W <= words[k].limit
    ensures Settled(Rest(md, words[..], cost[..], next[..]), W, i, c, j, h)
  {
    ghost var r := Rest(md, words[..], cost[..], next[..]);
    if |words[i].text| > W {
      var ok, first, p := Hyphen(md, words[i], -1, W, 1, cost[i + 1]);
      return if ok then first else cost[i + 1], i, OVERLONG;
    }
    var n, best, lineLen: nat, stop := words.Length, Unset, |words[i].text|, false;
    j := i;
    while j < n && !stop
      invariant i <= j <= n && (j == i ==> !stop && lineLen <= W)
      invariant if stop then Seen(r, W, i, n, n, best) else Seen(r, W, i, j, j, best)
      invariant j < n && !stop ==> lineLen == LineLen(r.ws, i, j + 1)
      invariant j > i ==> best.Set?
      decreases n - j, !stop
    {
      best, stop := Scan(md, words[j], cost[j], cost[j + 1], next[j] == n, n, W, i, j, lineLen, best, r);
      if !stop {
        j := j + 1;
        if j < n { lineLen := lineLen + 1 + |words[j].text|; }
      }
    }
    match best.b {
      case After(k) => return best.cost, k, NO_HYPHEN;
      case Inside(k, p) => return best.cost, k, p;
    }
  }

  // ---------- the whole pass ----------

  // r and q say the same of the words from i on and of what follows them.
  ghost predicate Agree(r: Rest, q: Rest, i: nat) {
    && Shaped(r) && Shaped(q) && r.md == q.md && |r.ws| == |q.ws|
    && (forall k :: i <= k < |r.ws| ==> r.ws[k] == q.ws[k])
    && (forall k :: i < k <= |r.ws| ==> r.cs[k] == q.cs[k])
    && (forall k :: i < k < |r.ws| ==> r.ns[k] == q.ns[k])
  }

  lemma {:induction false} LineLenAgree(r: Rest, q: Rest, i: nat, j: nat)
    requires Agree(r, q, i) && i < j <= |r.ws|
    ensures LineLen(r.ws, i, j) == LineLen(q.ws, i, j)
    decreases j
  {
    if j > i + 1 { LineLenAgree(r, q, i, j - 1); }
  }

  lemma {:induction false} BreakAgree(r: Rest, q: Rest, W: nat, i: nat, b: Break)
    requires Agree(r, q, i)
    ensures Can(r, W, i, b) <==> Can(q, W, i, b)
    ensures Can(r, W, i, b) ==> Price(r, W, i, b) == Price(q, W, i, b)
  {
    if i < b.next <= |r.ws| {
      LineLenAgree(r, q, i, b.next);
      if b.next < |r.ws| { LineLenAgree(r, q, i, b.next + 1); }
    }
  }

  lemma {:induction false} SettledAgree(r: Rest, q: Rest, W: nat, i: nat, cost: int, next: nat, hyph: int)
    requires Agree(r, q, i) && Settled(r, W, i, cost, next, hyph)
    ensures Settled(q, W, i, cost, next, hyph)
  {
    forall b
      ensures Can(r, W, i, b) <==> Can(q, W, i, b)
      ensures Can(r, W, i, b) ==> Price(r, W, i, b) == Price(q, W, i, b)
    {
      BreakAgree(r, q, W, i, b);
    }
  }

  // The measure of a line from word i: the paragraph's first has its own.
  function MeasureOf(i: nat, first: nat, measure: nat): nat { if i == 0 then first else measure }

  // Every position from `start` on up to `end` has its entry.
  ghost predicate Planned(r: Rest, hs: seq<int>, start: nat, end: nat, first: nat, measure: nat) {
    && Shaped(r) && |hs| == |r.ns|
    && forall i :: start <= i < end && i < |r.ws| ==>
        Settled(r, MeasureOf(i, first, measure), i, r.cs[i], r.ns[i], hs[i])
  }

  // A word and an entry replaced at k leave the plan of the positions after k.
  lemma {:induction false} PlannedAfter(r: Rest, q: Rest, hs: seq<int>, gs: seq<int>, k: nat, end: nat, first: nat,
      measure: nat)
    requires Planned(r, hs, k + 1, end, first, measure) && Agree(r, q, k + 1) && k < |r.ws| && end <= |r.ws|
    requires r.cs[k + 1] == q.cs[k + 1] && (k + 1 < |r.ws| ==> r.ns[k + 1] == q.ns[k + 1])
    requires |gs| == |hs| && forall i :: k < i < |hs| ==> gs[i] == hs[i]
    ensures Planned(q, gs, k + 1, end, first, measure)
  {
    forall i | k + 1 <= i < end
      ensures Settled(q, MeasureOf(i, first, measure), i, q.cs[i], q.ns[i], gs[i])
    {
      SettledAgree(r, q, MeasureOf(i, first, measure), i, r.cs[i], r.ns[i], hs[i]);
    }
  }

  ghost predicate Sized(words: array<Word>, first: nat, measure: nat, cost: array<int>, next: array<nat>,
      hyph: array<int>)
    reads words
  {
    && words.Length == next.Length == hyph.Length && cost.Length == words.Length + 1 && cost != hyph
    && 0 < first <= measure
    && forall k :: 0 <= k < words.Length ==> Measured(words[k]) && measure <= words[k].limit
  }

  // Writing the entry of i into the arrays.
  lemma {:induction false} PlannedHere(r: Rest, q: Rest, hs: seq<int>, gs: seq<int>, i: nat, end: nat, first: nat,
      measure: nat)
    requires Planned(r, hs, i + 1, end, first, measure) && Shaped(q) && i < end <= |r.ws|
    requires q.md == r.md && q.ws == r.ws && |q.ns| == |r.ns| && |gs| == |hs|
    requires forall k :: i < k <= |r.ws| ==> q.cs[k] == r.cs[k]
    requires forall k :: i < k < |r.ws| ==> q.ns[k] == r.ns[k] && gs[k] == hs[k]
    requires Settled(r, MeasureOf(i, first, measure), i, q.cs[i], q.ns[i], gs[i])
    ensures Planned(q, gs, i, end, first, measure)
  {
    PlannedAfter(r, q, hs, gs, i, end, first, measure);
    SettledAgree(r, q, MeasureOf(i, first, measure), i, q.cs[i], q.ns[i], gs[i]);
  }

  // dp: the positions from start on up to end, last first.
  method Dp(md: Model, words: array<Word>, start: nat, end: nat, first: nat, measure: nat, cost: array<int>,
      next: array<nat>, hyph: array<int>)
    requires Sized(words, first, measure, cost, next, hyph) && start <= end <= words.Length
    modifies cost, next, hyph
    ensures Sized(words, first, measure, cost, next, hyph) && cost[end..] == old(cost[end..])
    ensures Planned(Rest(md, words[..], cost[..], next[..]), hyph[..], start, end, first, measure)
    ensures forall k :: 0 <= k < next.Length && !(start <= k < end) ==>
              cost[k] == old(cost[k]) && next[k] == old(next[k]) && hyph[k] == old(hyph[k])
  {
    var i := end;
    while i > start
      invariant start <= i <= end && cost[end..] == old(cost[end..])
      invariant Planned(Rest(md, words[..], cost[..], next[..]), hyph[..], i, end, first, measure)
      invariant forall k :: 0 <= k < next.Length && !(i <= k < end) ==>
                  cost[k] == old(cost[k]) && next[k] == old(next[k]) && hyph[k] == old(hyph[k])
    {
      i := i - 1;
      ghost var r, hs := Rest(md, words[..], cost[..], next[..]), hyph[..];
      var c, j, h := Choose(md, words, i, MeasureOf(i, first, measure), cost, next);
      cost[i], next[i], hyph[i] := c, j, h;
      PlannedHere(r, Rest(md, words[..], cost[..], next[..]), hs, hyph[..], i, end, first, measure);
    }
  }
}
