/** The canonical order of entries (kv/vault/setsync.go), the pages of a sync walk, and why both
    depend on the set of entries alone. An entry's id is any function of the entry; where two
    entries must not share an id, that is said. */
module Canon {
  import opened Entries

  type Id = nat
  type Ids = Entry -> Id

  // A place in the canonical order: by timestamp, then by id.
  datatype Pos = Pos(ts: nat, id: Id)

  function At(id: Ids, e: Entry): Pos { Pos(e.ts, id(e)) }

  predicate Before(p: Pos, q: Pos) { p.ts < q.ts || (p.ts == q.ts && p.id < q.id) }

  ghost predicate Injective(id: Ids) { forall a, b :: id(a) == id(b) ==> a == b }

  ghost predicate Sorted(id: Ids, es: seq<Entry>) {
    forall i, j :: 0 <= i < j < |es| ==> Before(At(id, es[i]), At(id, es[j]))
  }

  function Elements(es: seq<Entry>): set<Entry> { set e | e in es }

  function IdsOf(id: Ids, es: seq<Entry>): seq<Id> { seq(|es|, i requires 0 <= i < |es| => id(es[i])) }

  // ---------- one canonical sequence a set ----------

  lemma {:induction false} SortedHead(id: Ids, a: seq<Entry>, b: seq<Entry>)
    requires Sorted(id, a) && Sorted(id, b) && Elements(a) == Elements(b) && a != [] && b != []
    ensures a[0] == b[0] && Elements(a[1..]) == Elements(b[1..])
  {
    assert a[0] in Elements(a) && b[0] in Elements(b);
    var i :| 0 <= i < |a| && a[i] == b[0];
    var j :| 0 <= j < |b| && b[j] == a[0];
    var firstA, firstB, inA, inB := At(id, a[0]), At(id, b[0]), At(id, a[i]), At(id, b[j]);
    assert i == 0 || Before(firstA, inA);
    assert j == 0 || Before(firstB, inB);
    TailElements(id, a);
    TailElements(id, b);
  }

  lemma {:induction false} TailElements(id: Ids, a: seq<Entry>)
    requires Sorted(id, a) && a != []
    ensures Elements(a[1..]) == Elements(a) - {a[0]}
  {
    forall e | e in Elements(a) && e != a[0]
      ensures e in Elements(a[1..])
    {
      var i :| 0 <= i < |a| && a[i] == e;
      assert a[1..][i - 1] == e;
    }
    forall i | 1 <= i < |a|
      ensures a[i] != a[0]
    {
      assert Before(At(id, a[0]), At(id, a[i]));
    }
  }

  // Two canonical sequences of one set are equal.
  lemma {:induction false} CanonUnique(id: Ids, a: seq<Entry>, b: seq<Entry>)
    requires Sorted(id, a) && Sorted(id, b) && Elements(a) == Elements(b)
    ensures a == b
  {
    assert b != [] ==> b[0] in Elements(b);
    assert a != [] ==> a[0] in Elements(a);
    if a != [] {
      SortedHead(id, a, b);
      CanonUnique(id, a[1..], b[1..]);
      assert a == [a[0]] + a[1..] && b == [b[0]] + b[1..];
    }
  }

  // ---------- sorting ----------

  // No entry stands after one it comes before.
  ghost predicate Ordered(id: Ids, es: seq<Entry>) {
    forall i, j :: 0 <= i < j < |es| ==> !Before(At(id, es[j]), At(id, es[i]))
  }

  function Insert(id: Ids, es: seq<Entry>, e: Entry): seq<Entry> {
    if es == [] || !Before(At(id, es[0]), At(id, e)) then [e] + es else [es[0]] + Insert(id, es[1..], e)
  }

  // A sort; `OrderedUnique` says that any other gives the same.
  function Sort(id: Ids, es: seq<Entry>): seq<Entry> {
    if es == [] then [] else Insert(id, Sort(id, es[1..]), es[0])
  }

  lemma {:induction false} InsertHolds(id: Ids, es: seq<Entry>, e: Entry)
    ensures multiset(Insert(id, es, e)) == multiset(es) + multiset{e}
  {
    if es != [] && Before(At(id, es[0]), At(id, e)) {
      InsertHolds(id, es[1..], e);
      assert es == [es[0]] + es[1..];
    }
  }

  lemma {:induction false} InsertOrdered(id: Ids, es: seq<Entry>, e: Entry)
    requires Ordered(id, es)
    ensures Ordered(id, Insert(id, es, e))
  {
    if es != [] && Before(At(id, es[0]), At(id, e)) {
      var more := Insert(id, es[1..], e);
      InsertOrdered(id, es[1..], e);
      InsertHolds(id, es[1..], e);
      forall j | 0 <= j < |more|
        ensures !Before(At(id, more[j]), At(id, es[0]))
      {
        assert more[j] in multiset(more);
        assert more[j] == e || more[j] in es[1..];
      }
    } else if es != [] {
      assert forall j :: 0 < j < |es| ==> !Before(At(id, es[j]), At(id, es[0]));
    }
  }

  lemma {:induction false} SortIs(id: Ids, es: seq<Entry>)
    ensures Ordered(id, Sort(id, es)) && multiset(Sort(id, es)) == multiset(es)
  {
    if es != [] {
      SortIs(id, es[1..]);
      InsertOrdered(id, Sort(id, es[1..]), es[0]);
      InsertHolds(id, Sort(id, es[1..]), es[0]);
      assert es == [es[0]] + es[1..];
    }
  }

  lemma {:induction false} FirstLeast(id: Ids, es: seq<Entry>, e: Entry)
    requires Ordered(id, es) && e in es
    ensures !Before(At(id, e), At(id, es[0]))
  {
    var i :| 0 <= i < |es| && es[i] == e;
    if i > 0 { assert !Before(At(id, es[i]), At(id, es[0])); }
  }

  lemma {:induction false} SameFirst(id: Ids, a: seq<Entry>, b: seq<Entry>)
    requires Injective(id) && Ordered(id, a) && Ordered(id, b) && a != [] && b != [] && a[0] in b && b[0] in a
    ensures a[0] == b[0]
  {
    FirstLeast(id, b, a[0]);
    FirstLeast(id, a, b[0]);
  }

  lemma {:induction false} LessFirst(a: seq<Entry>)
    requires a != []
    ensures multiset(a[1..]) == multiset(a) - multiset{a[0]} && a[0] in multiset(a)
  {
    assert a == [a[0]] + a[1..];
  }

  lemma {:induction false} SameWhole(a: seq<Entry>, b: seq<Entry>)
    requires a != [] && b != [] && a[0] == b[0] && a[1..] == b[1..]
    ensures a == b
  {
    assert a == [a[0]] + a[1..] && b == [b[0]] + b[1..];
  }

  // One multiset of entries has one order, so every sort of it is the same.
  lemma {:induction false} OrderedUnique(id: Ids, a: seq<Entry>, b: seq<Entry>)
    requires Injective(id) && Ordered(id, a) && Ordered(id, b) && multiset(a) == multiset(b)
    ensures a == b
  {
    SameLength(a, b);
    if a != [] {
      LessFirst(a);
      LessFirst(b);
      SameFirst(id, a, b);
      OrderedUnique(id, a[1..], b[1..]);
      SameWhole(a, b);
    }
  }

  // SortCanonical: entries sorted in place.
  method SortCanonical(id: Ids, entries: array<Entry>)
    modifies entries
    ensures entries[..] == Sort(id, old(entries[..]))
    ensures Ordered(id, entries[..]) && multiset(entries[..]) == multiset(old(entries[..]))
    ensures forall i, j :: 0 <= i < j < entries.Length ==>
              entries[i].ts <= entries[j].ts && (entries[i].ts == entries[j].ts ==> id(entries[i]) <= id(entries[j]))
  {
    var sorted := Sort(id, entries[..]);
    SortIs(id, entries[..]);
    SameLength(sorted, entries[..]);
    var i := 0;
    while i < entries.Length
      invariant i <= entries.Length == |sorted| && forall k :: 0 <= k < i ==> entries[k] == sorted[k]
    {
      entries[i] := sorted[i];
      i := i + 1;
    }
    assert entries[..] == sorted;
    OrderedTimes(id, entries[..]);
  }

  // The timestamps of an ordered sequence never fall, nor the ids at one timestamp.
  lemma {:induction false} OrderedTimes(id: Ids, es: seq<Entry>)
    requires Ordered(id, es)
    ensures forall i, j :: 0 <= i < j < |es| ==>
              es[i].ts <= es[j].ts && (es[i].ts == es[j].ts ==> id(es[i]) <= id(es[j]))
  {
  }

  lemma {:induction false} SameLength(a: seq<Entry>, b: seq<Entry>)
    requires multiset(a) == multiset(b)
    ensures |a| == |b|
  {
    assert |a| == |multiset(a)| == |multiset(b)| == |b|;
  }

  // Of entries that are all different it is the set's canonical sequence.
  lemma {:induction false} SortCanon(id: Ids, es: seq<Entry>, canon: seq<Entry>)
    requires Injective(id) && Sorted(id, canon) && multiset(es) == multiset(canon)
    ensures Sort(id, es) == canon
  {
    SortIs(id, es);
    OrderedUnique(id, Sort(id, es), canon);
  }

  // ---------- pages ----------

  // The entries of the canonical sequence es strictly after p.
  function After(id: Ids, es: seq<Entry>, p: Pos): seq<Entry> {
    if es == [] then []
    else if Before(p, At(id, es[0])) then es
    else After(id, es[1..], p)
  }

  // The longest run from the start of es within budget bytes, `used` of them gone; the first
  // entry of a page is taken whatever its size.
  function Fill(es: seq<Entry>, used: nat, budget: nat, first: bool): seq<Entry> {
    if es == [] || (!first && used + Size(es[0]) > budget) then []
    else [es[0]] + Fill(es[1..], used + Size(es[0]), budget, false)
  }

  function Page(id: Ids, es: seq<Entry>, p: Pos, budget: nat): seq<Entry> {
    Fill(After(id, es, p), 0, budget, true)
  }

  lemma {:induction false} AfterIs(id: Ids, es: seq<Entry>, p: Pos)
    requires Sorted(id, es)
    ensures Sorted(id, After(id, es, p))
    ensures forall e :: e in After(id, es, p) <==> e in es && Before(p, At(id, e))
  {
    if es != [] && !Before(p, At(id, es[0])) {
      AfterIs(id, es[1..], p);
      assert es == [es[0]] + es[1..];
    } else if es != [] {
      forall e | e in es
        ensures Before(p, At(id, e))
      {
        var i :| 0 <= i < |es| && es[i] == e;
        assert i > 0 ==> Before(At(id, es[0]), At(id, es[i]));
      }
    }
  }

  lemma {:induction false} FillIsPrefix(es: seq<Entry>, used: nat, budget: nat, first: bool)
    ensures var page := Fill(es, used, budget, first);
            |page| <= |es| && page == es[..|page|] && (first && es != [] ==> page != [])
  {
    if es != [] && (first || used + Size(es[0]) <= budget) {
      var rest := Fill(es[1..], used + Size(es[0]), budget, false);
      FillIsPrefix(es[1..], used + Size(es[0]), budget, false);
      assert es[..1 + |rest|] == [es[0]] + es[1..][..|rest|];
    }
  }

  lemma {:induction false} PrefixHolds(es: seq<Entry>, n: nat, i: nat)
    requires i < |es| && n <= |es|
    ensures i < n ==> es[i] in es[..n]
  {
    if i < n { assert es[..n][i] == es[i]; }
  }

  lemma {:induction false} PageIs(id: Ids, es: seq<Entry>, p: Pos, budget: nat)
    requires Sorted(id, es)
    ensures var page := Page(id, es, p, budget);
            && Sorted(id, page)
            && (forall e :: e in page ==> e in es && Before(p, At(id, e)))
            && (page == [] ==> forall e :: e in es ==> !Before(p, At(id, e)))
            && (page != [] ==> forall e :: e in es && Before(p, At(id, e)) && e !in page ==>
                                 Before(At(id, page[|page| - 1]), At(id, e)))
  {
    var after, page := After(id, es, p), Page(id, es, p, budget);
    AfterIs(id, es, p);
    FillIsPrefix(after, 0, budget, true);
    forall e | e in after && e !in page && page != []
      ensures Before(At(id, page[|page| - 1]), At(id, e))
    {
      var i :| 0 <= i < |after| && after[i] == e;
      PrefixHolds(after, |page|, i);
      assert Before(At(id, after[|page| - 1]), At(id, after[i]));
    }
  }

  // ---------- a walk over a growing set ----------

  // Each call for a page sees the set as it is then: sets[k] for the k-th. The walk moves its
  // cursor to the last entry of each page and ends at an empty one.
  function Walk(id: Ids, sets: seq<seq<Entry>>, p: Pos, budget: nat): seq<Entry> {
    if sets == [] then []
    else
      var page := Page(id, sets[0], p, budget);
      if page == [] then [] else page + Walk(id, sets[1..], At(id, page[|page| - 1]), budget)
  }

  predicate WalkEnds(id: Ids, sets: seq<seq<Entry>>, p: Pos, budget: nat) {
    sets != [] &&
    var page := Page(id, sets[0], p, budget);
    page == [] || WalkEnds(id, sets[1..], At(id, page[|page| - 1]), budget)
  }

  ghost predicate Growing(id: Ids, sets: seq<seq<Entry>>) {
    && (forall k :: 0 <= k < |sets| ==> Sorted(id, sets[k]))
    && (forall j, k, e :: 0 <= j <= k < |sets| && e in sets[j] ==> e in sets[k])
  }

  lemma {:induction false} SortedAppend(id: Ids, a: seq<Entry>, b: seq<Entry>)
    requires Sorted(id, a) && Sorted(id, b)
    requires a != [] ==> forall e :: e in b ==> Before(At(id, a[|a| - 1]), At(id, e))
    ensures Sorted(id, a + b)
  {
    var s := a + b;
    forall i, j | 0 <= i < j < |s|
      ensures Before(At(id, s[i]), At(id, s[j]))
    {
      if i < |a| <= j {
        assert s[j] in b;
        if i < |a| - 1 { assert Before(At(id, a[i]), At(id, a[|a| - 1])); }
      }
    }
  }

  // A walk that ends has returned everything after its anchor that was there when it began, in
  // strictly increasing order with no repeats, however the set grew meanwhile.
  lemma {:induction false} WalkIsComplete(id: Ids, sets: seq<seq<Entry>>, p: Pos, budget: nat)
    requires Growing(id, sets) && WalkEnds(id, sets, p, budget)
    ensures var got := Walk(id, sets, p, budget);
            && Sorted(id, got)
            && (forall e :: e in got ==> Before(p, At(id, e)) && e in sets[|sets| - 1])
            && (forall e :: e in sets[0] && Before(p, At(id, e)) ==> e in got)
    decreases |sets|
  {
    var page := Page(id, sets[0], p, budget);
    PageIs(id, sets[0], p, budget);
    if page != [] {
      var next := At(id, page[|page| - 1]);
      var rest := sets[1..];
      forall j, k, e | 0 <= j <= k < |rest| && e in rest[j]
        ensures e in rest[k]
      {
        assert rest[j] == sets[j + 1] && rest[k] == sets[k + 1];
      }
      WalkIsComplete(id, rest, next, budget);
      var more := Walk(id, rest, next, budget);
      SortedAppend(id, page, more);
      assert page[|page| - 1] in page;
      forall e | e in sets[0] && Before(p, At(id, e)) && e !in page
        ensures e in more
      {
        assert e in sets[1] && sets[1] == rest[0];
      }
    }
  }
}
