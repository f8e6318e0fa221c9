/** What spreading the slack of a justified line over its gaps costs (typeset/wrap/wrap.go). */
module WrapGaps {
  import opened Ints

  function MonoGapCost(slack: int, words: nat): int {
    if words <= 1 then slack * slack * 4
    else
      var gaps := words - 1;
      var base, extra := Quo(slack, gaps), Rem(slack, gaps);
      extra * (base + 1) * (base + 1) + (gaps - extra) * base * base
  }

  function Sum(s: seq<int>): int
    decreases |s|
  {
    if s == [] then 0 else Sum(s[..|s| - 1]) + s[|s| - 1]
  }

  function SumSquares(s: seq<int>): int
    decreases |s|
  {
    if s == [] then 0 else SumSquares(s[..|s| - 1]) + s[|s| - 1] * s[|s| - 1]
  }

  // slack spread over k gaps as evenly as whole units can be, the leftmost taking the remainder.
  function Even(k: nat, base: int, extra: nat): (d: seq<int>)
    ensures |d| == k && forall i :: 0 <= i < k ==> d[i] == base + if i < extra then 1 else 0
  {
    seq(k, i => base + if i < extra then 1 else 0)
  }

  function Times(m: nat, s: int): int { if m == 0 then 0 else Times(m - 1, s) + s }

  lemma {:induction false} TimesIs(m: nat, s: int)
    ensures Times(m, s) == m * s
  {
    if m > 0 {
      TimesIs(m - 1, s);
      assert m * s == (m - 1) * s + s;
    }
  }

  lemma {:induction false} SumEven(k: nat, base: int, extra: nat, low: int, high: int)
    requires low == base * base && high == (base + 1) * (base + 1)
    ensures Sum(Even(k, base, extra)) == Times(k, base) + if k < extra then k else extra
    ensures SumSquares(Even(k, base, extra)) == Times(if k < extra then k else extra, high)
            + Times(if k < extra then 0 else k - extra, low)
  {
    if k > 0 {
      SumEven(k - 1, base, extra, low, high);
      var d := Even(k, base, extra);
      assert d[..k - 1] == Even(k - 1, base, extra);
      assert d[k - 1] * d[k - 1] == if k - 1 < extra then high else low;
    }
  }

  // What the even spread costs, as the code counts it.
  lemma {:induction false} EvenCosts(slack: nat, words: nat, base: nat, extra: nat)
    requires words > 1 && base == slack / (words - 1) && extra == slack % (words - 1)
    ensures MonoGapCost(slack, words) == SumSquares(Even(words - 1, base, extra))
    ensures Sum(Even(words - 1, base, extra)) == slack && extra < words - 1 && slack == (words - 1) * base + extra
  {
    var k, low, high := words - 1, base * base, (base + 1) * (base + 1);
    DivMod(slack, k);
    SumEven(k, base, extra, low, high);
    TimesIs(k, base);
    TimesIs(extra, high);
    TimesIs(k - extra, low);
    Associates(extra, base + 1);
    Associates(k - extra, base);
  }

  lemma {:induction false} Associates(m: int, b: int)
    ensures m * b * b == m * (b * b)
  {
  }

  // The cost of a monospace line is that of its even spread, and no other spread costs less.
  lemma {:induction false} EvenIsLeast(slack: nat, words: nat, d: seq<int>)
    requires words > 1 && |d| == words - 1 && Sum(d) == slack
    ensures MonoGapCost(slack, words) <= SumSquares(d)
  {
    var k := words - 1;
    var base, extra := slack / k, slack % k;
    EvenCosts(slack, words, base, extra);
    DivMod(slack, k);
    Tangent(d, base, 2 * base + 1, base * (base + 1));
    SpreadCost(k, base, extra);
  }

  lemma {:induction false} DivMod(a: nat, b: nat)
    requires b > 0
    ensures a == b * (a / b) + a % b && Rem(a, b) == a % b
  {
  }

  lemma {:induction false} TangentStep(squares: int, sum: int, n: int, x: int, m: int, q: int)
    requires squares >= m * sum - n * q && x * x >= m * x - q
    ensures squares + x * x >= m * (sum + x) - (n + 1) * q
  {
    assert m * (sum + x) == m * sum + m * x;
    assert (n + 1) * q == n * q + q;
  }

  // Each square lies above the chord through base and base + 1.
  lemma {:induction false} Tangent(d: seq<int>, base: int, m: int, q: int)
    requires m == 2 * base + 1 && q == base * (base + 1)
    ensures SumSquares(d) >= m * Sum(d) - |d| * q
    decreases |d|
  {
    if d != [] {
      var x, n := d[|d| - 1], |d| - 1;
      Tangent(d[..n], base, m, q);
      Chord(x, base, m, q);
      TangentStep(SumSquares(d[..n]), Sum(d[..n]), n, x, m, q);
    }
  }

  lemma {:induction false} SquareAbove(y: int)
    ensures y * y >= y
    decreases if y < 0 then 0 else y
  {
    if y > 0 {
      SquareAbove(y - 1);
      assert (y - 1) * (y - 1) == y * y - 2 * y + 1;
    }
  }

  lemma {:induction false} Chord(x: int, b: int, m: int, q: int)
    requires m == 2 * b + 1 && q == b * (b + 1)
    ensures x * x >= m * x - q
  {
    var y := x - b;
    SquareAbove(y);
    assert y * y == x * x - 2 * (b * x) + b * b;
    assert (2 * b + 1) * x == 2 * (b * x) + x;
    assert b * (b + 1) == b * b + b;
  }

  lemma {:induction false} SpreadCost(k: nat, base: int, extra: nat)
    requires extra <= k
    ensures extra * (base + 1) * (base + 1) + (k - extra) * base * base ==
            (2 * base + 1) * (k * base + extra) - k * (base * (base + 1))
  {
    assert extra * (base + 1) * (base + 1) == extra * base * base + 2 * extra * base + extra;
    assert (k - extra) * base * base == k * base * base - extra * base * base;
    assert (2 * base + 1) * (k * base + extra) == 2 * k * base * base + 2 * base * extra + k * base + extra;
    assert k * (base * (base + 1)) == k * base * base + k * base;
  }
}
