/** The client's merged view (kv/client/client.go): last writer wins by canonical order, folded in
    as entries arrive, in whatever order they do. */
module Views {
  import opened Bytes
  import opened Entries
  import opened Canon
  import opened MemStores

  type Key = seq<byte>

  // What an entry holds once decrypted; the stored value of a tombstone is empty.
  datatype Opened = Sealed | Opened(key: Key, stored: seq<byte>)

  // Decryption under the vault's key; Sealed is an entry that fails to open.
  type Open = Entry -> Opened

  datatype KeyValue = KeyValue(value: seq<byte>, fmt: byte, ts: nat, id: Id, tomb: bool)

  function Shown(op: Open, id: Ids, e: Entry): KeyValue
    requires op(e).Opened?
  {
    var stored := op(e).stored;
    if stored == [] then KeyValue([], 0, e.ts, id(e), true)
    else KeyValue(stored[1..], stored[0], e.ts, id(e), false)
  }

  function PosOf(kv: KeyValue): Pos { Pos(kv.ts, kv.id) }

  type View = map<Key, KeyValue>

  predicate Opens(op: Open, e: Entry, k: Key) { op(e).Opened? && op(e).key == k }

  // The Merge of the protocol: the set replayed in canonical order, each entry overwriting.
  function Replay(op: Open, id: Ids, es: seq<Entry>): View
    decreases |es|
  {
    if es == [] then map[]
    else
      var e, m := es[|es| - 1], Replay(op, id, es[..|es| - 1]);
      if op(e).Opened? then m[op(e).key := Shown(op, id, e)] else m
  }

  // One entry folded in: it takes its key if it comes later than the key's winner.
  function Take(op: Open, id: Ids, m: View, e: Entry): View {
    if op(e).Sealed? then m
    else if op(e).key in m && !Before(PosOf(m[op(e).key]), At(id, e)) then m
    else m[op(e).key := Shown(op, id, e)]
  }

  // m shows, for each key some entry of S opens to, the last of them in canonical order.
  ghost predicate Shows(op: Open, id: Ids, m: View, S: set<Entry>) {
    && (forall k :: k in m ==> exists e :: e in S && Opens(op, e, k) && m[k] == Shown(op, id, e))
    && (forall e, k :: e in S && Opens(op, e, k) ==> k in m && !Before(PosOf(m[k]), At(id, e)))
  }

  ghost predicate DistinctIds(id: Ids, S: set<Entry>) {
    forall a, b :: a in S && b in S && id(a) == id(b) ==> a == b
  }

  // A set has one view.
  lemma {:induction false} ShowsUnique(op: Open, id: Ids, m: View, n: View, S: set<Entry>)
    requires DistinctIds(id, S) && Shows(op, id, m, S) && Shows(op, id, n, S)
    ensures m == n
  {
    forall k | k in m
      ensures k in n && m[k] == n[k]
    {
      ShowsAt(op, id, m, n, S, k);
    }
    forall k | k in n
      ensures k in m
    {
      ShowsAt(op, id, n, m, S, k);
    }
  }

  lemma {:induction false} ShowsAt(op: Open, id: Ids, m: View, n: View, S: set<Entry>, k: Key)
    requires DistinctIds(id, S) && Shows(op, id, m, S) && Shows(op, id, n, S) && k in m
    ensures k in n && m[k] == n[k]
  {
    var a :| a in S && Opens(op, a, k) && m[k] == Shown(op, id, a);
    var b :| b in S && Opens(op, b, k) && n[k] == Shown(op, id, b);
    assert !Before(At(id, a), At(id, b)) && !Before(At(id, b), At(id, a));
  }

  lemma {:induction false} TakeShows(op: Open, id: Ids, m: View, S: set<Entry>, e: Entry)
    requires Shows(op, id, m, S)
    ensures Shows(op, id, Take(op, id, m, e), S + {e})
  {
    var n := Take(op, id, m, e);
    forall k | k in n
      ensures exists x :: x in S + {e} && Opens(op, x, k) && n[k] == Shown(op, id, x)
    {
      if k in m && n[k] == m[k] {
        var x :| x in S && Opens(op, x, k) && m[k] == Shown(op, id, x);
        assert x in S + {e};
      } else {
        assert Opens(op, e, k);
      }
    }
    forall x, k | x in S + {e} && Opens(op, x, k)
      ensures k in n && !Before(PosOf(n[k]), At(id, x))
    {
      if x in S { assert k in m && !Before(PosOf(m[k]), At(id, x)); }
    }
  }

  // An entry later than every one before it takes its key.
  lemma {:induction false} LastOverwrites(op: Open, id: Ids, m: View, S: set<Entry>, e: Entry)
    requires Shows(op, id, m, S) && forall x :: x in S ==> Before(At(id, x), At(id, e))
    ensures Take(op, id, m, e) == if op(e).Opened? then m[op(e).key := Shown(op, id, e)] else m
  {
    if op(e).Opened? && op(e).key in m {
      var x :| x in S && Opens(op, x, op(e).key) && m[op(e).key] == Shown(op, id, x);
      assert Before(At(id, x), At(id, e));
    }
  }

  lemma {:induction false} SortedLast(id: Ids, es: seq<Entry>, front: seq<Entry>, e: Entry)
    requires es == front + [e] && Sorted(id, es)
    ensures Sorted(id, front) && Elements(es) == Elements(front) + {e}
    ensures forall x :: x in Elements(front) ==> Before(At(id, x), At(id, e))
  {
    forall i, j | 0 <= i < j < |front|
      ensures Before(At(id, front[i]), At(id, front[j]))
    {
      assert es[i] == front[i] && es[j] == front[j];
    }
    forall x | x in front
      ensures Before(At(id, x), At(id, e))
    {
      var i :| 0 <= i < |front| && front[i] == x;
      assert Before(At(id, es[i]), At(id, es[|front|]));
    }
  }

  lemma {:induction false} ReplayShows(op: Open, id: Ids, es: seq<Entry>)
    requires Sorted(id, es)
    ensures Shows(op, id, Replay(op, id, es), Elements(es))
    decreases |es|
  {
    if es != [] {
      var e, front := es[|es| - 1], es[..|es| - 1];
      var m := Replay(op, id, front);
      SortedLast(id, es, front, e);
      ReplayShows(op, id, front);
      TakeShows(op, id, m, Elements(front), e);
      LastOverwrites(op, id, m, Elements(front), e);
    }
  }

  lemma {:induction false} NextElement(es: seq<Entry>, n: nat)
    requires n < |es|
    ensures Elements(es[..n + 1]) == Elements(es[..n]) + {es[n]}
  {
    assert es[..n + 1] == es[..n] + [es[n]];
  }

  // The last write of key k in S: of the greatest timestamp, and of these of the greatest id.
  ghost predicate LastWrite(op: Open, id: Ids, S: set<Entry>, k: Key, e: Entry) {
    && e in S && Opens(op, e, k)
    && forall x :: x in S && Opens(op, x, k) && x != e ==> x.ts < e.ts || (x.ts == e.ts && id(x) < id(e))
  }

  // m holds the last write of every key written, a tombstone where that stores nothing.
  ghost predicate LastWins(op: Open, id: Ids, m: View, S: set<Entry>) {
    && (forall e, k :: e in S && Opens(op, e, k) ==> k in m)
    && (forall k :: k in m ==> exists e :: LastWrite(op, id, S, k, e) && Holds(op, m[k], e))
  }

  // What a read of key k answers: what its last write stores after the format byte, nothing if that
  // is a tombstone or k was never written.
  ghost predicate Answers(op: Open, id: Ids, S: set<Entry>, k: Key, value: Option<seq<byte>>) {
    match value
    case Some(payload) => exists e :: LastWrite(op, id, S, k, e) && op(e).stored != [] && op(e).stored[1..] == payload
    case None => forall e :: LastWrite(op, id, S, k, e) ==> op(e).stored == []
  }

  lemma {:induction false} LastAnswers(op: Open, id: Ids, m: View, S: set<Entry>, k: Key)
    requires LastWins(op, id, m, S)
    ensures Answers(op, id, S, k, if k in m && !m[k].tomb then Some(m[k].value) else Option.None)
  {
    if k in m {
      var e :| LastWrite(op, id, S, k, e) && Holds(op, m[k], e);
      assert forall x :: LastWrite(op, id, S, k, x) ==> x == e;
      if !m[k].tomb { assert op(e).stored[1..] == m[k].value; }
    }
  }

  ghost predicate Holds(op: Open, kv: KeyValue, e: Entry) {
    && op(e).Opened? && kv.ts == e.ts
    && if op(e).stored == [] then kv.tomb else !kv.tomb && [kv.fmt] + kv.value == op(e).stored
  }

  lemma {:induction false} ShowsLast(op: Open, id: Ids, m: View, S: set<Entry>)
    requires DistinctIds(id, S) && Shows(op, id, m, S)
    ensures LastWins(op, id, m, S)
  {
    forall k | k in m
      ensures exists e :: LastWrite(op, id, S, k, e) && Holds(op, m[k], e)
    {
      var e :| e in S && Opens(op, e, k) && m[k] == Shown(op, id, e);
      forall x | x in S && Opens(op, x, k) && x != e
        ensures x.ts < e.ts || (x.ts == e.ts && id(x) < id(e))
      {
        assert !Before(PosOf(m[k]), At(id, x));
      }
      assert LastWrite(op, id, S, k, e);
    }
  }

  class Client {
    const open: Open
    const store: MemStore
    var view: View
    var folded: nat

    // view has taken the first `folded` entries of the store, in the order they arrived.
    ghost predicate Valid()
      reads this, store
    {
      && store.Valid()
      && folded <= |store.entries|
      && Shows(open, store.id, view, Elements(store.entries[..folded]))
    }

    constructor (open: Open, store: MemStore)
      requires store.Valid()
      ensures Valid() && this.open == open && this.store == store
    {
      this.open, this.store := open, store;
      view, folded := map[], 0;
    }

    // New entries in the store leave the view as it was, still to be folded.
    method Receive(news: seq<Entry>)
      requires Valid()
      modifies store
      ensures Valid() && store.entries == AddAll(store.id, old(store.entries), news)
    {
      AddAllExtends(store.id, store.entries, news);
      var added := store.Add(news);
      assert store.entries[..folded] == old(store.entries)[..folded];
    }

    method FoldOne(e: Entry)
      requires Valid() && folded < |store.entries| && e == store.entries[folded]
      modifies this
      ensures Valid() && folded == old(folded) + 1
    {
      NextElement(store.entries, folded);
      TakeShows(open, store.id, view, Elements(store.entries[..folded]), e);
      folded := folded + 1;
      match open(e) {
        case Sealed =>
        case Opened(k, stored) =>
          if k !in view || Before(PosOf(view[k]), At(store.id, e)) {
            view := view[k := Shown(open, store.id, e)];
          }
      }
    }

    // foldLocked: only what the store gained since the last read is decrypted, and the view is
    // what replaying the whole set would give.
    method Fold()
      requires Valid()
      modifies this
      ensures Valid() && folded == |store.entries|
      ensures view == Replay(open, store.id, store.Canonical())
      ensures LastWins(open, store.id, view, store.Contents())
    {
      var news := store.Appended(folded);
      ghost var start := folded;
      var i := 0;
      while i < |news|
        invariant i <= |news| && folded == start + i && Valid()
      {
        FoldOne(news[i]);
        i := i + 1;
      }
      assert store.entries[..folded] == store.entries;
      ViewIsReplay();
    }

    lemma {:induction false} ViewIsReplay()
      requires Valid() && store.entries[..folded] == store.entries
      ensures view == Replay(open, store.id, store.Canonical()) && LastWins(open, store.id, view, store.Contents())
    {
      ArrangeIs(store.id, store.entries, store.order);
      ReplayShows(open, store.id, store.Canonical());
      StoreDistinct(store);
      ShowsUnique(open, store.id, view, Replay(open, store.id, store.Canonical()), store.Contents());
      ShowsLast(open, store.id, view, store.Contents());
    }

    method Get(key: Key) returns (value: Option<seq<byte>>)
      requires Valid()
      modifies this
      ensures Valid() && store.entries == old(store.entries)
      ensures var m := Replay(open, store.id, store.Canonical());
              value == if key in m && !m[key].tomb then Some(m[key].value) else Option.None
      ensures Answers(open, store.id, store.Contents(), key, value)
    {
      Fold();
      LastAnswers(open, store.id, view, store.Contents(), key);
      if key !in view || view[key].tomb { return Option.None; }
      return Some(view[key].value);
    }
  }

  lemma {:induction false} StoreDistinct(s: MemStore)
    requires s.Valid()
    ensures DistinctIds(s.id, s.Contents())
  {
    forall a, b | a in s.entries && b in s.entries && s.id(a) == s.id(b)
      ensures a == b
    {
      var i :| 0 <= i < |s.entries| && s.entries[i] == a;
      var j :| 0 <= j < |s.entries| && s.entries[j] == b;
      assert s.ids[i] == s.ids[j];
    }
  }

  lemma {:induction false} AddAllExtends(id: Ids, es: seq<Entry>, news: seq<Entry>)
    ensures es <= AddAll(id, es, news)
    decreases |news|
  {
    if news != [] { AddAllExtends(id, Added(id, es, news[0]), news[1..]); }
  }

  // Clients that hold one set and open it alike show one view, tombstones included, whatever
  // order their entries came in and whenever they read.
  lemma {:induction false} EqualSetsEqualViews(a: Client, b: Client)
    requires a.Valid() && b.Valid() && a.open == b.open && a.store.id == b.store.id
    requires a.folded == |a.store.entries| && b.folded == |b.store.entries|
    requires a.store.Contents() == b.store.Contents()
    ensures a.view == b.view
  {
    assert a.store.entries[..a.folded] == a.store.entries && b.store.entries[..b.folded] == b.store.entries;
    StoreDistinct(a.store);
    ShowsUnique(a.open, a.store.id, a.view, b.view, a.store.Contents());
  }
}
