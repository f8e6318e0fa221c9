/** The digits of ROW's text: that each run reads back as the number it spells, and which shapes a
    token of each kind is not. */
module RowDigits {
  import opened RowText

  // ---------- runs of digits ----------

  lemma {:induction false} DigitsAre(n: nat)
    ensures AllDigits(Digits(n)) && ValueOf(Digits(n)) == n
    decreases n
  {
    if n >= 10 {
      DigitsAre(Tenth(n));
      var head, last := Digits(Tenth(n)), 48 + (n - 10 * Tenth(n));
      assert (head + [last])[..|head|] == head;
    }
  }

  function Ten(k: nat): nat { if k == 0 then 1 else 10 * Ten(k - 1) }

  lemma {:induction false} DigitsLength(n: nat, k: nat)
    requires k > 0 && n < Ten(k)
    ensures |Digits(n)| <= k
    decreases k
  {
    if n >= 10 { DigitsLength(Tenth(n), k - 1); }
  }

  lemma {:induction false} ZerosNumber(k: nat, t: Text)
    requires AllDigits(t)
    ensures AllDigits(Zeros(k) + t) && ValueOf(Zeros(k) + t) == ValueOf(t)
    decreases |t|, k
  {
    if t == [] {
      assert Zeros(k) + t == Zeros(k);
      if k > 0 {
        ZerosNumber(k - 1, []);
        assert Zeros(k - 1) + [] == Zeros(k - 1) && Zeros(k)[..k - 1] == Zeros(k - 1);
      }
    } else {
      var n := |t| - 1;
      ZerosNumber(k, t[..n]);
      assert (Zeros(k) + t)[..k + n] == Zeros(k) + t[..n];
    }
  }

  lemma {:induction false} PadIs(n: nat, k: nat)
    requires k > 0 && n < Ten(k)
    ensures |Pad(n, k)| == k && AllDigits(Pad(n, k)) && ValueOf(Pad(n, k)) == n
  {
    DigitsAre(n);
    DigitsLength(n, k);
    if |Digits(n)| < k { ZerosNumber(k - |Digits(n)|, Digits(n)); }
  }

  // Zeros at the end of a run read as more of them.
  lemma {:induction false} TrimIs(t: Text)
    requires AllDigits(t)
    ensures |TrimZeros(t)| <= |t| && AllDigits(TrimZeros(t)) && TrimZeros(t) + Zeros(|t| - |TrimZeros(t)|) == t
    ensures ValueOf(t) > 0 ==> TrimZeros(t) != []
    decreases |t|
  {
    if t != [] && t[|t| - 1] == 48 {
      var head := t[..|t| - 1];
      TrimIs(head);
      var k := |head| - |TrimZeros(head)|;
      assert TrimZeros(head) + Zeros(k + 1) == TrimZeros(head) + Zeros(k) + [48];
    } else if t != [] {
      assert TrimZeros(t) + Zeros(0) == t;
    }
  }

  // Digits, then something else.
  lemma {:induction false} RunIs(a: Text, rest: Text)
    requires AllDigits(a) && (rest == [] || !IsDigit(rest[0]))
    ensures DigitRun(a + rest) == |a|
  {
    if a == [] {
      assert a + rest == rest;
    } else {
      assert (a + rest)[1..] == a[1..] + rest;
      RunIs(a[1..], rest);
    }
  }

  lemma {:induction false} SignedText(n: int, t: Text)
    requires t != [] && IsDigit(t[0])
    ensures Unsigned(Sign(n) + t) == t && (Minus(Sign(n) + t) <==> n < 0)
  {
    if n < 0 { assert (Sign(n) + t)[1..] == t; } else { assert Sign(n) + t == t; }
  }

  // ---------- what a token is not ----------

  lemma {:induction false} Shapes()
    ensures |DATE| == 10 && DATE[4] == 45 && DATE[0] == 100 && DATE[1] == 100 && DATE[2] == 100 && DATE[3] == 100
            && DATE[9] == 100
    ensures |TIME| == 12 && TIME[2] == 58 && TIME[0] == 100 && TIME[1] == 100 && TIME[11] == 100
    ensures |DATETIME| == 24 && DATETIME[4] == 45 && DATETIME[0] == 100 && DATETIME[1] == 100 && DATETIME[2] == 100
            && DATETIME[3] == 100 && DATETIME[23] == 90
  {
  }

  // A token of no fixed shape: digits, points and units after its first byte.
  ghost predicate Loose(t: Text) {
    t != [] && (IsDigit(t[0]) || t[0] == 45) && forall k :: 1 <= k < |t| ==>
        t[k] != 45 && t[k] != 58 && t[k] != 120
        && t[k] != 88
  }

  lemma {:induction false} ShapedAt(t: Text, shape: Text, i: nat)
    requires i < |shape| && shape[i] != 100
    ensures Shaped(t, shape) ==> i < |t| && t[i] == shape[i]
  {
  }

  lemma {:induction false} LooseIs(t: Text)
    requires Loose(t)
    ensures t != NONE && t != FALSE && t != TRUE && !IsBytes(t)
    ensures !Shaped(t, DATETIME) && !Shaped(t, DATE) && !Shaped(t, TIME)
  {
    Shapes();
    ShapedAt(t, DATETIME, 4);
    ShapedAt(t, DATE, 4);
    ShapedAt(t, TIME, 2);
  }

  lemma {:induction false} BareLoose(w: World, t: Text)
    requires Loose(t)
    ensures Bare(w, t) == Unshaped(w, t)
  {
    LooseIs(t);
  }
}
