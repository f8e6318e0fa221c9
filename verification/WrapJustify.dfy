/** The two cost models, the gaps of a justified line, and monospace justification
    (typeset/wrap/wrap.go). */
module WrapJustify {
  import opened Ints
  import opened Wrap
  import opened WrapText
  import opened WrapDp
  import opened WrapLines
  import opened WrapBest
  import opened WrapBreak
  import opened WrapTurns
  import opened WrapGaps
  import opened WrapCosts

  // ---------- when a split first word gets stuck ----------

  // With one measure it never does.
  lemma {:induction false} OneMeasureNeverSticks(w: Word, width: nat)
    requires Measured(w) && width > 0
    ensures !Stuck(w, width, width)
  {
    SplitLeaves(w, 0, width, width);
  }

  // What is left of n runes cut into pieces of `width` until it fits.
  function Leftover(n: nat, width: nat): nat
    requires width > 0
  {
    if n <= width then n else Leftover(n - width, width)
  }

  lemma {:induction false} NoPointsCut(w: Word, o: nat, width: nat)
    requires w.points == [] && width > 0 && o <= |w.text|
    ensures |w.text| - SplitRest(w, o, width, width) == Leftover(|w.text| - o, width)
    decreases |w.text| - o
  {
    if |w.text| > o + width { NoPointsCut(w, o + width, width); }
  }

  // A word with no points gets stuck exactly when its last piece, cut on the wide measure, is
  // wider than the narrow one.
  lemma {:induction false} StuckExactly(w: Word, first: nat, width: nat)
    requires w.points == [] && 0 < first <= width
    ensures Stuck(w, first, width) <==> |w.text| > first && Leftover(|w.text| - first, width) > first
  {
    if |w.text| > first { NoPointsCut(w, first, width); }
  }

  // Twenty runes under measures of 5 and 12: the first five, then fifteen on 12 leave three, which
  // fits; of twenty-four, seven are left, and they do not.
  lemma {:induction false} StuckExample(w: Word)
    requires w.points == [] && |w.text| == 24
    ensures Stuck(w, 5, 12)
  {
    StuckExactly(w, 5, 12);
  }

  // ---------- table cells ----------

  // Flatten: the words of a line with single spaces between them.
  function Join(words: seq<string>): (s: string)
    requires words != []
    ensures |s| == Natural(words)
    decreases |words|
  {
    if |words| == 1 then words[0] else Join(words[..|words| - 1]) + " " + words[|words| - 1]
  }

  // Every line flattened.
  method Flatten(lines: seq<Line>) returns (out: seq<string>)
    requires forall i :: 0 <= i < |lines| ==> lines[i].words != []
    ensures |out| == |lines| && forall i :: 0 <= i < |out| ==> out[i] == Join(lines[i].words)
  {
    out := [];
    while |out| < |lines|
      invariant |out| <= |lines| && forall i :: 0 <= i < |out| ==> out[i] == Join(lines[i].words)
    {
      out := out + [Join(lines[|out|].words)];
    }
  }

  // Cell: a table cell's text, ragged under the penalty for narrow columns. Every line fits, the
  // lines read back as the words, and no text is one empty line.
  method Cell(words: array<Word>, width: nat) returns (out: seq<string>, ghost lines: seq<Line>, ghost ends: seq<End>)
    requires 0 < width && forall k :: 0 <= k < words.Length ==> Measured(words[k]) && width <= words[k].limit
    modifies words
    ensures out != [] && forall i :: 0 <= i < |out| ==> |out[i]| <= width
    ensures if lines == [] then out == [""] else |out| == |lines| && forall i :: 0 <= i < |out| ==>
            lines[i].words != [] && out[i] == Join(lines[i].words)
    ensures Readable(lines, ends) && Read(lines, ends) == Reading(Texts(old(words[..])), "")
    ensures Plain(old(words[..]), width, width) ==>
              LeastCost(InCell, WordsOf(lines), Texts(old(words[..])), width, width)
  {
    if words.Length > 0 { OneMeasureNeverSticks(words[0], width); }
    var ls;
    ghost var cutting, run;
    ls, ends, cutting, run := BreakLines(Ragged(PENALTY_CELL), words, width, width);
    lines := ls;
    if Plain(old(words[..]), width, width) { CheapestIsLeast(InCell, old(words[..]), width, width, cutting); }
    out := Flatten(ls);
    if |out| == 0 { out := [""]; }
  }

  // ---------- gaps ----------

  predicate EndsInDash(s: string) { s != "" && s[|s| - 1] == '-' }

  // What the gaps of a line take up beyond their natural width.
  function Slack(line: Line, width: int, hang: int, last: bool): int
    requires line.words != []
  {
    if last then 0 else width - line.width + if EndsInDash(line.words[|line.words| - 1]) then hang else 0
  }

  // Gaps within one unit of each other, the leftmost taking the remainder.
  ghost predicate Level(gaps: seq<int>, slack: int) {
    forall i, j :: 0 <= i < j < |gaps| ==> 0 <= (if slack >= 0 then gaps[i] - gaps[j] else gaps[j] - gaps[i]) <= 1
  }

  lemma {:induction false} SumShifted(d: seq<int>, gaps: seq<int>, sp: int, sign: int)
    requires |gaps| == |d| && (sign == 1 || sign == -1) && forall i :: 0 <= i < |d| ==> gaps[i] == sp + sign * d[i]
    ensures Sum(gaps) == Times(|d|, sp) + sign * Sum(d)
    decreases |d|
  {
    if d != [] { SumShifted(d[..|d| - 1], gaps[..|d| - 1], sp, sign); }
  }

  lemma {:induction false} SumSame(gaps: seq<int>, sp: int)
    requires forall i :: 0 <= i < |gaps| ==> gaps[i] == sp
    ensures Sum(gaps) == Times(|gaps|, sp)
    decreases |gaps|
  {
    if gaps != [] { SumSame(gaps[..|gaps| - 1], sp); }
  }

  method Divide(slack: nat, k: nat) returns (base: nat, extra: nat)
    requires k > 0
    ensures extra < k && Sum(Even(k, base, extra)) == slack
  {
    base, extra := slack / k, slack % k;
    EvenCosts(slack, k + 1, base, extra);
  }

  lemma {:induction false} WidenedIs(gaps: seq<int>, sp: int, sign: int, base: nat, extra: nat, slack: nat)
    requires (sign == 1 || sign == -1) && slack > 0 && Sum(Even(|gaps|, base, extra)) == slack
    requires forall j :: 0 <= j < |gaps| ==> gaps[j] == sp + sign * (if j < extra then base + 1 else base)
    ensures Sum(gaps) == Times(|gaps|, sp) + sign * slack
    ensures Level(gaps, sign * slack)
  {
    SumShifted(Even(|gaps|, base, extra), gaps, sp, sign);
  }

  // Widens every gap by base, the first `extra` of them by one more; narrows them if sign is -1.
  method Widen(a: array<int>, ghost sp: int, sign: int, base: nat, extra: nat)
    requires (sign == 1 || sign == -1) && forall j :: 0 <= j < a.Length ==> a[j] == sp
    modifies a
    ensures forall j :: 0 <= j < a.Length ==> a[j] == sp + sign * (if j < extra then base + 1 else base)
  {
    var i := 0;
    while i < a.Length
      invariant i <= a.Length
      invariant forall j :: 0 <= j < i ==> a[j] == sp + sign * (if j < extra then base + 1 else base)
      invariant forall j :: i <= j < a.Length ==> a[j] == sp
    {
      var d := base;
      if i < extra { d := d + 1; }
      a[i] := a[i] + sign * d;
      i := i + 1;
    }
  }

  // Gaps: the advances between the words of a line set to a measure, sp the natural space and hang
  // what a final hyphen protrudes. With the words they fill the measure exactly.
  method Gaps(line: Line, width: int, sp: int, hang: int, last: bool) returns (gaps: seq<int>)
    requires line.words != []
    ensures |gaps| == |line.words| - 1
    ensures gaps != [] ==> Sum(gaps) == Times(|gaps|, sp) + Slack(line, width, hang, last)
    ensures gaps != [] ==> Level(gaps, Slack(line, width, hang, last))
  {
    var k := |line.words| - 1;
    if k <= 0 { return []; }
    var a := new int[k](_ => sp);
    var slack := width - line.width;
    if !last && EndsInDash(line.words[k]) { slack := slack + hang; }
    if last || slack == 0 {
      SumSame(a[..], sp);
      return a[..];
    }
    var sign := 1;
    if slack < 0 { sign, slack := -1, -slack; }
    var base, extra := Divide(slack, k);
    Widen(a, sp, sign, base, extra);
    gaps := a[..];
    WidenedIs(gaps, sp, sign, base, extra, slack);
  }

  // ---------- monospace justification ----------

  function Blanks(n: int): (s: string)
    ensures |s| == if n < 0 then 0 else n
  {
    if n <= 0 then "" else " " + Blanks(n - 1)
  }

  // The words with their gaps between them.
  function Set(words: seq<string>, gaps: seq<int>): string
    requires |words| == |gaps| + 1
    decreases |gaps|
  {
    if gaps == [] then words[0]
    else Set(words[..|gaps|], gaps[..|gaps| - 1]) + Blanks(gaps[|gaps| - 1]) + words[|gaps|]
  }

  lemma {:induction false} SetWidth(words: seq<string>, gaps: seq<int>)
    requires |words| == |gaps| + 1 && forall i :: 0 <= i < |gaps| ==> gaps[i] >= 0
    ensures |Set(words, gaps)| == Natural(words) + Sum(gaps) - |gaps|
    decreases |gaps|
  {
    if gaps != [] {
      SetWidth(words[..|gaps|], gaps[..|gaps| - 1]);
    }
  }

  // Level gaps that sum to at least their number are each at least one.
  lemma {:induction false} LevelAtLeast(gaps: seq<int>, slack: nat, low: int)
    requires gaps != [] && Level(gaps, slack) && Sum(gaps) == |gaps| + slack
    requires low == gaps[|gaps| - 1]
    ensures forall i :: 0 <= i < |gaps| ==> gaps[i] >= 1
  {
    if low < 1 { SumBelow(gaps); }
  }

  lemma {:induction false} SumBelow(gaps: seq<int>)
    requires forall i :: 0 <= i < |gaps| ==> gaps[i] <= 1
    ensures Sum(gaps) <= |gaps| && (gaps != [] && gaps[|gaps| - 1] < 1 ==> Sum(gaps) < |gaps|)
    decreases |gaps|
  {
    if gaps != [] { SumBelow(gaps[..|gaps| - 1]); }
  }

  // A line as JustifyMono sets it: the words in order, at least a space apart, and, unless it is
  // the last or a word alone, exactly as wide as the measure.
  ghost predicate Laid(line: Line, s: string, width: nat, last: bool) {
    && line.words != []
    && (exists gaps: seq<int> :: |gaps| == |line.words| - 1 && s == Set(line.words, gaps) && forall i ::
        0 <= i < |gaps| ==> gaps[i] >= 1)
    && |s| == if last || |line.words| == 1 then line.width else width
  }

  method JustifyLine(line: Line, width: nat, last: bool) returns (s: string)
    requires line.words != [] && line.width == Natural(line.words) <= width
    ensures Laid(line, s, width, last) && |s| <= width
  {
    var g := Gaps(line, width, 1, 0, last);
    if |g| > 0 {
      TimesIs(|g|, 1);
      LevelAtLeast(g, Slack(line, width, 0, last), g[|g| - 1]);
    }
    SetWidth(line.words, g);
    s := line.words[0];
    var k := 0;
    assert g[..0] == [] && line.words[..1] == [line.words[0]];
    while k < |g|
      invariant k <= |g| && s == Set(line.words[..k + 1], g[..k])
    {
      assert line.words[..k + 2][..k + 1] == line.words[..k + 1] && g[..k + 1][..k] == g[..k];
      s := s + Blanks(g[k]) + line.words[k + 1];
      k := k + 1;
    }
    assert g[..k] == g && line.words[..k + 1] == line.words;
  }

  // JustifyMono: every line of more than one word but the last is exactly its measure wide, and no
  // line is wider; the lines read back as the words.
  method JustifyMono(words: array<Word>, first: nat, width: nat)
      returns (out: seq<string>, ghost lines: seq<Line>, ghost ends: seq<End>)
    requires 0 < first <= width && forall k :: 0 <= k < words.Length ==> Measured(words[k]) && width <= words[k].limit
    requires words.Length > 0 ==> !Stuck(words[0], first, width)
    modifies words
    ensures Fit(lines, first, width) && |out| == |lines|
    ensures Readable(lines, ends) && Read(lines, ends) == Reading(Texts(old(words[..])), "")
    ensures forall i :: 0 <= i < |out| ==> Laid(lines[i], out[i], MeasureOf(i, first, width), i == |out| - 1)
    ensures forall i :: 0 <= i < |out| ==> |out[i]| <= MeasureOf(i, first, width)
    ensures Plain(old(words[..]), first, width) ==>
              LeastCost(Flush, WordsOf(lines), Texts(old(words[..])), first, width)
  {
    var ls;
    ghost var cutting, run;
    ls, ends, cutting, run := BreakLines(Justified(), words, first, width);
    lines := ls;
    if Plain(old(words[..]), first, width) { CheapestIsLeast(Flush, old(words[..]), first, width, cutting); }
    out := JustifyLines(ls, first, width);
  }

  // The first lines as JustifyMono sets them.
  ghost predicate AllLaid(lines: seq<Line>, out: seq<string>, first: nat, width: nat) {
    |out| <= |lines| && forall i :: 0 <= i < |out| ==>
      Laid(lines[i], out[i], MeasureOf(i, first, width), i == |lines| - 1) && |out[i]| <= MeasureOf(i, first, width)
  }

  lemma {:induction false} LaidMore(lines: seq<Line>, out: seq<string>, s: string, first: nat, width: nat)
    requires AllLaid(lines, out, first, width) && |out| < |lines|
    requires Laid(lines[|out|], s, MeasureOf(|out|, first, width), |out| == |lines| - 1)
             && |s| <= MeasureOf(|out|, first, width)
    ensures AllLaid(lines, out + [s], first, width)
  {
  }

  method JustifyLines(lines: seq<Line>, first: nat, width: nat) returns (out: seq<string>)
    requires Fit(lines, first, width)
    ensures |out| == |lines|
    ensures forall i :: 0 <= i < |out| ==> Laid(lines[i], out[i], MeasureOf(i, first, width), i == |out| - 1)
    ensures forall i :: 0 <= i < |out| ==> |out[i]| <= MeasureOf(i, first, width)
  {
    out := [];
    while |out| < |lines|
      invariant |out| <= |lines|
      invariant AllLaid(lines, out, first, width)
    {
      var i := |out|;
      var s := JustifyLine(lines[i], MeasureOf(i, first, width), i == |lines| - 1);
      LaidMore(lines, out, s, first, width);
      out := out + [s];
    }
  }
}
