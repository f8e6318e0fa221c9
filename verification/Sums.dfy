/** Sums of entry sizes over sequences and sets, for the server's byte accounting. */
module Sums {
  import opened Entries
  import opened Canon

  function TotalSize(es: seq<Entry>): nat {
    if es == [] then 0 else Size(es[0]) + TotalSize(es[1..])
  }

  ghost function SumSize(S: set<Entry>): nat {
    if S == {} then 0 else var e :| e in S; Size(e) + SumSize(S - {e})
  }

  ghost predicate Distinct(es: seq<Entry>) { forall i, j :: 0 <= i < j < |es| ==> es[i] != es[j] }

  lemma {:induction false} TotalSizeAppend(a: seq<Entry>, b: seq<Entry>)
    ensures TotalSize(a + b) == TotalSize(a) + TotalSize(b)
  {
    if a == [] {
      assert a + b == b;
    } else {
      assert (a + b)[1..] == a[1..] + b;
      TotalSizeAppend(a[1..], b);
    }
  }

  lemma {:induction false} FillFits(es: seq<Entry>, used: nat, budget: nat, first: bool)
    ensures var page := Fill(es, used, budget, first);
            && |page| <= |es| && page == es[..|page|] && (first && es != [] ==> page != [])
            && (page == [] || (first && |page| == 1) || used + TotalSize(page) <= budget)
            && (|page| < |es| ==> used + TotalSize(page) + Size(es[|page|]) > budget)
  {
    if es != [] && (first || used + Size(es[0]) <= budget) {
      var rest := Fill(es[1..], used + Size(es[0]), budget, false);
      FillFits(es[1..], used + Size(es[0]), budget, false);
      assert es[..1 + |rest|] == [es[0]] + es[1..][..|rest|];
      assert ([es[0]] + rest)[1..] == rest;
    }
  }

  // A page is the start of what stands after the cursor: within the budget unless it is one entry, and
  // with one more it would not be.
  lemma {:induction false} PageFits(id: Ids, es: seq<Entry>, p: Pos, budget: nat, page: seq<Entry>,
      after: seq<Entry>)
    requires Sorted(id, es) && page == Page(id, es, p, budget) && after == After(id, es, p)
    ensures forall e :: e in after <==> e in es && (p.ts < e.ts || (p.ts == e.ts && p.id < id(e)))
    ensures |page| <= |after| && page == after[..|page|] && (after != [] ==> page != [])
    ensures |page| <= 1 || TotalSize(page) <= budget
    ensures |page| < |after| ==> TotalSize(page) + Size(after[|page|]) > budget
  {
    AfterIs(id, es, p);
    FillFits(after, 0, budget, true);
  }

  lemma {:induction false} SumSizeWithout(S: set<Entry>, e: Entry)
    requires e in S
    ensures SumSize(S) == Size(e) + SumSize(S - {e})
    decreases |S|
  {
    var x :| x in S && SumSize(S) == Size(x) + SumSize(S - {x});
    if x != e {
      SumSizeWithout(S - {x}, e);
      SumSizeWithout(S - {e}, x);
      assert S - {x} - {e} == S - {e} - {x};
    }
  }

  lemma {:induction false} SumSizeMonotone(A: set<Entry>, B: set<Entry>)
    requires A <= B
    ensures SumSize(A) <= SumSize(B) && |A| <= |B|
    decreases |A|
  {
    if A != {} {
      var e :| e in A;
      SumSizeWithout(A, e);
      SumSizeWithout(B, e);
      SumSizeMonotone(A - {e}, B - {e});
    }
  }

  lemma {:induction false} SumSizeOf(es: seq<Entry>)
    requires Distinct(es)
    ensures TotalSize(es) == SumSize(Elements(es)) && |es| == |Elements(es)|
    decreases |es|
  {
    if es == [] {
      assert Elements(es) == {};
    } else {
      var rest := es[1..];
      SumSizeOf(rest);
      assert es == [es[0]] + rest;
      forall i | 0 <= i < |rest|
        ensures rest[i] != es[0]
      {
        assert es[i + 1] == rest[i];
      }
      assert Elements(es) == {es[0]} + Elements(rest);
      assert Elements(es) - {es[0]} == Elements(rest);
      SumSizeWithout(Elements(es), es[0]);
    }
  }
}
