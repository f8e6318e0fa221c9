/** The in-memory store (kv/store/memstore.go): entries in the order they came, and an index that
    every insert keeps in canonical order. */
module MemStores {
  import opened Bytes
  import opened Entries
  import opened Canon

  // The hash of a set, made from its ids in canonical order.
  type Hash = seq<Id> -> nat

  // order lists each index into es once, in canonical order of the entries.
  ghost predicate Orders(id: Ids, es: seq<Entry>, order: seq<nat>) {
    && |order| == |es|
    && (forall k :: 0 <= k < |order| ==> order[k] < |es|)
    && (forall i: nat :: i < |es| ==> i in order)
    && (forall j, k :: 0 <= j < k < |order| ==>
          order[j] < |es| && order[k] < |es| && Before(At(id, es[order[j]]), At(id, es[order[k]])))
  }

  // The entries in the order of the index.
  function Arrange(es: seq<Entry>, order: seq<nat>): (r: seq<Entry>)
    requires forall k :: 0 <= k < |order| ==> order[k] < |es|
    ensures |r| == |order| && forall k :: 0 <= k < |order| ==> r[k] == es[order[k]]
  {
    seq(|order|, k requires 0 <= k < |order| => es[order[k]])
  }

  lemma {:induction false} ArrangeIs(id: Ids, es: seq<Entry>, order: seq<nat>)
    requires Orders(id, es, order)
    ensures Sorted(id, Arrange(es, order)) && Elements(Arrange(es, order)) == Elements(es)
  {
    var r := Arrange(es, order);
    forall e | e in es
      ensures e in r
    {
      var i: nat :| i < |es| && es[i] == e;
      assert i in order;
      var k :| 0 <= k < |order| && order[k] == i;
      assert r[k] == e;
    }
  }

  // The new last entry takes its place at `at`.
  lemma {:induction false} InsertIndex(id: Ids, es: seq<Entry>, order: seq<nat>, e: Entry, at: nat)
    requires Orders(id, es, order) && at <= |order|
    requires forall k :: 0 <= k < at ==> Before(At(id, es[order[k]]), At(id, e))
    requires forall k :: at <= k < |order| ==> Before(At(id, e), At(id, es[order[k]]))
    ensures Orders(id, es + [e], order[..at] + [|es|] + order[at..])
  {
    var more, r := es + [e], order[..at] + [|es|] + order[at..];
    forall i: nat | i < |more|
      ensures i in r
    {
      if i < |es| {
        assert i in order;
        var k :| 0 <= k < |order| && order[k] == i;
        assert r[if k < at then k else k + 1] == i;
      } else {
        assert r[at] == i;
      }
    }
  }

  // es with e, unless an entry of its id is there already.
  function Added(id: Ids, es: seq<Entry>, e: Entry): seq<Entry> {
    if id(e) in IdsOf(id, es) then es else es + [e]
  }

  function AddAll(id: Ids, es: seq<Entry>, news: seq<Entry>): seq<Entry>
    decreases |news|
  {
    if news == [] then es else AddAll(id, Added(id, es, news[0]), news[1..])
  }

  lemma {:induction false} FillStep(es: seq<Entry>, k: nat, used: nat, budget: nat, first: bool)
    requires k < |es|
    ensures Fill(es[k..], used, budget, first) ==
            if !first && used + Size(es[k]) > budget then []
            else [es[k]] + Fill(es[k + 1..], used + Size(es[k]), budget, false)
  {
    assert es[k..][1..] == es[k + 1..];
  }

  // One entry of a page: the page ends before it, or goes on after it.
  lemma {:induction false} FillTurn(es: seq<Entry>, k: nat, used: nat, budget: nat, out: seq<Entry>,
      rest: seq<Entry>, page: seq<Entry>)
    requires k < |es| && rest == Fill(es[k..], used, budget, |out| == 0) && out + rest == page
    ensures if |out| > 0 && used + Size(es[k]) > budget then rest == []
            else out + [es[k]] + Fill(es[k + 1..], used + Size(es[k]), budget, false) == page
  {
    FillStep(es, k, used, budget, |out| == 0);
  }

  // Whole entries from index `start` of the order on, up to budget bytes but at least one.
  method TakePage(es: seq<Entry>, order: seq<nat>, start: nat, budget: nat) returns (out: seq<Entry>)
    requires start <= |order| && forall k :: 0 <= k < |order| ==> order[k] < |es|
    ensures out == Fill(Arrange(es, order)[start..], 0, budget, true)
  {
    ghost var c := Arrange(es, order);
    out := [];
    var used: nat, k := 0, start;
    ghost var page := Fill(c[start..], 0, budget, true);
    ghost var rest := page;
    while k < |order|
      invariant start <= k <= |order|
      invariant rest == Fill(c[k..], used, budget, |out| == 0)
      invariant out + rest == page
    {
      var e := es[order[k]];
      FillTurn(c, k, used, budget, out, rest, page);
      if |out| > 0 && used + Size(e) > budget { break; }
      ghost var next := Fill(c[k + 1..], used + Size(e), budget, false);
      out, rest := out + [e], next;
      used, k := used + Size(e), k + 1;
    }
  }

  lemma {:induction false} AfterAt(id: Ids, es: seq<Entry>, p: Pos, start: nat)
    requires start <= |es| && (forall k :: 0 <= k < start ==> !Before(p, At(id, es[k])))
    requires start < |es| ==> Before(p, At(id, es[start]))
    ensures After(id, es, p) == es[start..]
  {
    if start > 0 {
      AfterAt(id, es[1..], p, start - 1);
    }
  }

  // ids is the id of each entry, none twice, and has is the set of them.
  ghost predicate Identified(id: Ids, es: seq<Entry>, ids: seq<Id>, has: set<Id>) {
    && |ids| == |es|
    && (forall i :: 0 <= i < |ids| ==> ids[i] == id(es[i]))
    && (forall i, j :: 0 <= i < j < |ids| ==> ids[i] != ids[j])
    && (forall x :: x in has <==> x in ids)
  }

  lemma {:induction false} IdentifiedIs(id: Ids, es: seq<Entry>, ids: seq<Id>, has: set<Id>, e: Entry)
    requires Identified(id, es, ids, has)
    ensures Added(id, es, e) == if id(e) in has then es else es + [e]
    ensures id(e) !in has ==> Identified(id, es + [e], ids + [id(e)], has + {id(e)})
    ensures id(e) !in has ==> forall x :: x in es ==> id(x) != id(e)
  {
    assert ids == IdsOf(id, es);
  }

  function Gather(ids: seq<Id>, order: seq<nat>): seq<Id>
    requires forall k :: 0 <= k < |order| ==> order[k] < |ids|
  {
    seq(|order|, k requires 0 <= k < |order| => ids[order[k]])
  }

  lemma {:induction false} GatherIs(id: Ids, es: seq<Entry>, ids: seq<Id>, has: set<Id>, order: seq<nat>)
    requires Identified(id, es, ids, has) && Orders(id, es, order)
    ensures Gather(ids, order) == IdsOf(id, Arrange(es, order))
  {
  }

  class MemStore {
    const id: Ids
    const hash: Hash
    var entries: seq<Entry>
    var ids: seq<Id>
    var has: set<Id>
    var order: seq<nat>
    var setHash: nat
    var hashSet: bool

    ghost predicate Valid()
      reads this
    {
      && Identified(id, entries, ids, has)
      && Orders(id, entries, order)
      && (hashSet ==> setHash == hash(IdsOf(id, Arrange(entries, order))))
    }

    ghost function Contents(): set<Entry>
      reads this
    {
      Elements(entries)
    }

    // The canonical sequence of the set.
    ghost function Canonical(): seq<Entry>
      requires Valid()
      reads this
    {
      Arrange(entries, order)
    }

    constructor (id: Ids, hash: Hash)
      ensures Valid() && entries == [] && this.id == id && this.hash == hash
    {
      this.id, this.hash := id, hash;
      entries, ids, has, order := [], [], {}, [];
      setHash, hashSet := 0, false;
    }

    lemma {:induction false} HasIs()
      requires Valid()
      ensures forall x :: x in IdsOf(id, entries) <==> x in has
    {
      assert ids == IdsOf(id, entries);
    }

    // compare: whether entry j stands before the position p, or at it or after it.
    function Compare(j: nat, p: Pos): int
      requires j < |entries| && j < |ids|
      reads this
    {
      if entries[j].ts != p.ts then if entries[j].ts < p.ts then -1 else 1
      else if ids[j] < p.id then -1 else if ids[j] > p.id then 1 else 0
    }

    lemma {:induction false} CompareIs(j: nat, p: Pos)
      requires Valid() && j < |entries|
      ensures Compare(j, p) < 0 <==> Before(At(id, entries[j]), p)
      ensures Compare(j, p) == 0 <==> At(id, entries[j]) == p
    {
    }

    // slices.BinarySearchFunc over the index.
    method Search(p: Pos) returns (at: nat, found: bool)
      requires Valid()
      ensures at <= |order|
      ensures forall k :: 0 <= k < at ==> Before(At(id, entries[order[k]]), p)
      ensures forall k :: at <= k < |order| ==> !Before(At(id, entries[order[k]]), p)
      ensures found <==> at < |order| && At(id, entries[order[at]]) == p
    {
      var i, j := 0, |order|;
      while i < j
        invariant i <= j <= |order|
        invariant forall k :: 0 <= k < i ==> Before(At(id, entries[order[k]]), p)
        invariant forall k :: j <= k < |order| ==> !Before(At(id, entries[order[k]]), p)
      {
        var h := i + (j - i) / 2;
        CompareIs(order[h], p);
        if Compare(order[h], p) < 0 {
          Below(h, p);
          i := h + 1;
        } else {
          NotBelow(h, p);
          j := h;
        }
      }
      at := i;
      if at < |order| { CompareIs(order[at], p); }
      found := at < |order| && Compare(order[at], p) == 0;
    }

    lemma {:induction false} Below(h: nat, p: Pos)
      requires Valid() && h < |order| && Before(At(id, entries[order[h]]), p)
      ensures forall k :: 0 <= k <= h ==> Before(At(id, entries[order[k]]), p)
    {
      forall k | 0 <= k <= h
        ensures Before(At(id, entries[order[k]]), p)
      {
        if k < h { assert Before(At(id, entries[order[k]]), At(id, entries[order[h]])); }
      }
    }

    lemma {:induction false} NotBelow(h: nat, p: Pos)
      requires Valid() && h < |order| && !Before(At(id, entries[order[h]]), p)
      ensures forall k :: h <= k < |order| ==> !Before(At(id, entries[order[k]]), p)
    {
      forall k | h <= k < |order|
        ensures !Before(At(id, entries[order[k]]), p)
      {
        if h < k { assert Before(At(id, entries[order[h]]), At(id, entries[order[k]])); }
      }
    }

    // Where an entry at p goes: at the end, as most arrive, or where a binary search says.
    method Place(p: Pos) returns (at: nat)
      requires Valid() && forall e :: e in entries ==> At(id, e) != p
      ensures at <= |order|
      ensures forall k :: 0 <= k < at ==> Before(At(id, entries[order[k]]), p)
      ensures forall k :: at <= k < |order| ==> Before(p, At(id, entries[order[k]]))
    {
      if |order| == 0 { return 0; }
      CompareIs(order[|order| - 1], p);
      if Compare(order[|order| - 1], p) < 0 {
        Below(|order| - 1, p);
        return |order|;
      }
      var found;
      at, found := Search(p);
    }

    method AddLocked(x: Id, e: Entry) returns (isNew: bool)
      requires Valid() && x == id(e)
      modifies this
      ensures Valid() && entries == Added(id, old(entries), e) && isNew == (x !in old(has))
    {
      IdentifiedIs(id, entries, ids, has, e);
      if x in has { return false; }
      var at := Place(At(id, e));
      InsertIndex(id, entries, order, e, at);
      order := order[..at] + [|entries|] + order[at..];
      entries, ids, has := entries + [e], ids + [x], has + {x};
      hashSet := false;
      return true;
    }

    method Add(news: seq<Entry>) returns (added: nat)
      requires Valid()
      modifies this
      ensures Valid() && entries == AddAll(id, old(entries), news)
      ensures added == |entries| - |old(entries)|
    {
      added := 0;
      var i := 0;
      while i < |news|
        invariant Valid() && i <= |news| && added == |entries| - |old(entries)|
        invariant AddAll(id, entries, news[i..]) == AddAll(id, old(entries), news)
      {
        assert news[i..][0] == news[i] && news[i..][1..] == news[i + 1..];
        IdentifiedIs(id, entries, ids, has, news[i]);
        var isNew := AddLocked(id(news[i]), news[i]);
        if isNew { added := added + 1; }
        i := i + 1;
      }
    }

    // The fingerprint of the set, kept until the next insert.
    method SetHash() returns (h: nat)
      requires Valid()
      modifies this`setHash, this`hashSet
      ensures Valid() && h == hash(IdsOf(id, Canonical()))
    {
      if !hashSet {
        GatherIs(id, entries, ids, has, order);
        setHash, hashSet := hash(Gather(ids, order)), true;
      }
      h := setHash;
    }

    method Snapshot() returns (es: seq<Entry>)
      requires Valid()
      ensures es == Canonical()
    {
      es := Arrange(entries, order);
    }

    method EntriesAfter(p: Pos, budget: nat) returns (out: seq<Entry>)
      requires Valid()
      ensures out == Page(id, Canonical(), p, budget)
    {
      var start, found := Search(p);
      if found { start := start + 1; }
      StartsAfter(p, start, found);
      out := TakePage(entries, order, start, budget);
    }

    lemma {:induction false} StartsAfter(p: Pos, start: nat, found: bool)
      requires Valid() && start <= |order| && (found ==> start > 0)
      requires var at := if found then start - 1 else start;
               && (forall k :: 0 <= k < at ==> Before(At(id, entries[order[k]]), p))
               && (forall k :: at <= k < |order| ==> !Before(At(id, entries[order[k]]), p))
               && (found <==> at < |order| && At(id, entries[order[at]]) == p)
      ensures After(id, Canonical(), p) == Canonical()[start..]
    {
      ArrangeIs(id, entries, order);
      if found && start < |order| {
        assert Before(At(id, entries[order[start - 1]]), At(id, entries[order[start]]));
      }
      AfterAt(id, Canonical(), p, start);
    }

    method Appended(n: nat) returns (es: seq<Entry>)
      ensures es == entries[Min(n, |entries|)..]
    {
      es := entries[Min(n, |entries|)..];
    }

    method Newest() returns (e: Option<Entry>)
      requires Valid()
      ensures match e
              case None => entries == []
              case Some(last) => last in entries && forall x :: x in entries && x != last ==>
                  x.ts < last.ts || (x.ts == last.ts && id(x) < id(last))
    {
      if |order| == 0 { return None; }
      ArrangeIs(id, entries, order);
      LastIsNewest();
      return Some(entries[order[|order| - 1]]);
    }

    lemma {:induction false} LastIsNewest()
      requires Valid() && |order| > 0
      ensures var last := entries[order[|order| - 1]];
              forall x :: x in entries && x != last ==> Before(At(id, x), At(id, last))
    {
      ArrangeIs(id, entries, order);
      var c, last := Canonical(), entries[order[|order| - 1]];
      forall x | x in entries && x != last
        ensures Before(At(id, x), At(id, last))
      {
        assert x in Elements(c);
        var k :| 0 <= k < |c| && c[k] == x;
        assert c[|c| - 1] == last;
        assert Before(At(id, c[k]), At(id, c[|c| - 1]));
      }
    }
  }

  // ---------- what two stores of one set share ----------

  // Whatever order and batches their entries came in, two stores that hold one set list it alike
  // and have one fingerprint.
  lemma {:induction false} StoresOfOneSet(a: MemStore, b: MemStore)
    requires a.Valid() && b.Valid() && a.id == b.id && a.hash == b.hash && a.Contents() == b.Contents()
    ensures a.Canonical() == b.Canonical()
    ensures a.hashSet && b.hashSet ==> a.setHash == b.setHash
  {
    ArrangeIs(a.id, a.entries, a.order);
    ArrangeIs(b.id, b.entries, b.order);
    CanonUnique(a.id, a.Canonical(), b.Canonical());
  }

  // With ids and hashes that do not collide, equal fingerprints mean equal sets.
  lemma {:induction false} EqualHashEqualSet(id: Ids, hash: Hash, a: seq<Entry>, b: seq<Entry>)
    requires Injective(id) && (forall x, y :: hash(x) == hash(y) ==> x == y)
    requires hash(IdsOf(id, a)) == hash(IdsOf(id, b))
    ensures a == b
  {
    assert IdsOf(id, a) == IdsOf(id, b);
    forall i | 0 <= i < |a|
      ensures a[i] == b[i]
    {
      assert id(a[i]) == IdsOf(id, a)[i] == IdsOf(id, b)[i] == id(b[i]);
    }
  }

  lemma {:induction false} AddedElements(id: Ids, es: seq<Entry>, e: Entry)
    requires Injective(id)
    ensures Elements(Added(id, es, e)) == Elements(es) + {e}
  {
    if id(e) in IdsOf(id, es) {
      var i :| 0 <= i < |es| && IdsOf(id, es)[i] == id(e);
      assert id(es[i]) == id(e);
    }
  }

  // Adding is union, in any order and any batches.
  lemma {:induction false} AddAllElements(id: Ids, es: seq<Entry>, news: seq<Entry>)
    requires Injective(id)
    ensures Elements(AddAll(id, es, news)) == Elements(es) + Elements(news)
    decreases |news|
  {
    if news != [] {
      AddedElements(id, es, news[0]);
      AddAllElements(id, Added(id, es, news[0]), news[1..]);
      assert Elements(news) == {news[0]} + Elements(news[1..]) by { assert news == [news[0]] + news[1..]; }
    }
  }
}
