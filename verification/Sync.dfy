/** A client's reconciliation with its server (kv/client/client.go): the fast path, the probe, the
    paged pull and push walks, and the rounds that widen them until the two sets are one. */
module Syncs {
  import opened Entries
  import opened Canon
  import opened MemStores
  import opened Sums
  import opened Relays
  import opened Talks

  const MAX_ROUNDS := 64
  const MAX_PULL_PAGES := 0x10_0000

  datatype Err =
    | NoErr | Unknown | Rejected | Refused(status: Status) | NoRegisterKey | VaultEnded
    | TooManyPages | StoreFailed | ServerFailed | NoAnswer | Stuck

  // Ids and set hashes that do not collide.
  ghost predicate Sound(id: Ids, hash: Hash) {
    Injective(id) && forall a, b :: hash(a) == hash(b) ==> a == b
  }

  // The timestamp of a set's newest entry.
  ghost predicate IsLatest(S: set<Entry>, ts: nat) {
    (exists e :: e in S && e.ts == ts) && forall e :: e in S ==> e.ts <= ts
  }

  lemma {:induction false} TotalSizeLast(es: seq<Entry>, e: Entry)
    ensures TotalSize(es + [e]) == TotalSize(es) + Size(e)
  {
    TotalSizeAppend(es, [e]);
    assert [e][1..] == [];
  }

  // ---------- a walk's cursor ----------

  lemma {:induction false} AfterLater(id: Ids, es: seq<Entry>, p: Pos, k: nat)
    requires Sorted(id, es) && 0 < k <= |After(id, es, p)|
    ensures After(id, es, At(id, After(id, es, p)[k - 1])) == After(id, es, p)[k..]
  {
    var after := After(id, es, p);
    var q := At(id, after[k - 1]);
    AfterSuffix(id, es, p);
    var n := |es| - |after|;
    forall i | 0 <= i < n + k
      ensures !Before(q, At(id, es[i]))
    {
      if i < n + k - 1 { assert Before(At(id, es[i]), At(id, es[n + k - 1])); }
    }
    AfterAt(id, es, q, n + k);
  }

  lemma {:induction false} AfterSuffix(id: Ids, es: seq<Entry>, p: Pos)
    ensures |After(id, es, p)| <= |es| && After(id, es, p) == es[|es| - |After(id, es, p)|..]
  {
    if es != [] && !Before(p, At(id, es[0])) { AfterSuffix(id, es[1..], p); }
  }

  // What is left of a walk after a page is the walk less the page.
  lemma {:induction false} PageAdvances(id: Ids, es: seq<Entry>, p: Pos, budget: nat)
    requires Sorted(id, es) && Page(id, es, p, budget) != []
    ensures var page := Page(id, es, p, budget);
            |After(id, es, At(id, page[|page| - 1]))| == |After(id, es, p)| - |page|
            && Before(p, At(id, page[|page| - 1]))
  {
    var after, page := After(id, es, p), Page(id, es, p, budget);
    FillIsPrefix(after, 0, budget, true);
    AfterLater(id, es, p, |page|);
    AfterIs(id, es, p);
    assert page[|page| - 1] == after[|page| - 1];
    assert after[|page| - 1] in after;
  }

  // A full walk covers a set exactly when no entry stands where it starts.
  lemma {:induction false} FullWalkCovers(id: Ids, es: seq<Entry>)
    requires Sorted(id, es)
    ensures Elements(After(id, es, Pos(0, 0))) == Elements(es) <==> forall e :: e in es ==> At(id, e) != Pos(0, 0)
  {
    AfterIs(id, es, Pos(0, 0));
    forall e | e in es
      ensures e in Elements(After(id, es, Pos(0, 0))) <==> At(id, e) != Pos(0, 0)
    {
    }
    if Elements(After(id, es, Pos(0, 0))) == Elements(es) {
      forall e | e in es
        ensures At(id, e) != Pos(0, 0)
      {
        assert e in Elements(es);
      }
    }
  }

  // Everything of S after the anchor but not yet after the cursor is in T.
  ghost predicate Walked(id: Ids, S: set<Entry>, T: set<Entry>, anchor: Pos, cursor: Pos) {
    forall e :: e in S && Before(anchor, At(id, e)) && !Before(cursor, At(id, e)) ==> e in T
  }

  lemma {:induction false} WalkedPage(id: Ids, es: seq<Entry>, T: set<Entry>, anchor: Pos, cursor: Pos, budget: nat)
    requires Sorted(id, es) && Walked(id, Elements(es), T, anchor, cursor)
    ensures var page := Page(id, es, cursor, budget);
            if page == [] then forall e :: e in Elements(es) && Before(anchor, At(id, e)) ==> e in T
            else Walked(id, Elements(es), T + Elements(page), anchor, At(id, page[|page| - 1]))
    ensures Elements(Page(id, es, cursor, budget)) <= Elements(es)
  {
    PageIs(id, es, cursor, budget);
  }

  // What the network makes of a request: it is answered, or never arrives, or its answer does not.
  datatype Fate = Carried | Lost | Unanswered

  class Syncer {
    const store: MemStore
    const relay: Relay
    const windowMs: nat
    const hasKey: bool       // holds a register key
    const ephemeral: bool
    var recent: seq<Entry>   // written since the last sync
    var registered: bool
    var everRegistered: bool
    var ended: bool
    var broken: bool         // the store's log refuses to be written
    var fates: seq<Fate>     // of the requests to come; any after these are carried
    ghost var made: nat      // rounds made
    ghost var began: Sets           // the two sets when the sync began
    ghost var talk: seq<Exchange>   // what was said since

    ghost predicate Valid()
      reads this, store, relay, relay.store
    {
      && store.Valid() && relay.Valid()
      && store != relay.store && store.id == relay.store.id && store.hash == relay.store.hash
      && (forall e :: e in recent ==> e in store.entries)
    }

    ghost function Now(): Sets
      reads store, relay.store
    {
      Sets(store.Contents(), relay.store.Contents())
    }

    // In the middle of a sync: what was said so far accounts for the two sets.
    ghost predicate Talking()
      reads this, store, relay, relay.store
    {
      Valid() && Tells(store.id, began, talk, Now())
    }

    constructor (store: MemStore, relay: Relay, windowMs: nat, hasKey: bool, registered: bool, ephemeral: bool)
      requires store.Valid() && relay.Valid()
      requires store != relay.store && store.id == relay.store.id && store.hash == relay.store.hash
      ensures Valid() && this.store == store && this.relay == relay && recent == []
    {
      this.store, this.relay, this.windowMs, this.hasKey := store, relay, windowMs, hasKey;
      this.registered, this.ephemeral := registered, ephemeral;
      recent, everRegistered, ended, broken, fates, made := [], false, false, false, [], 0;
    }

    ghost function Union(): set<Entry>
      reads store, relay.store
    {
      store.Contents() + relay.store.Contents()
    }

    ghost predicate Online()
      reads this
    {
      forall i :: 0 <= i < |fates| ==> fates[i] == Carried
    }

    // The server serves the vault, can be reached, and stands against none of the entries of U.
    ghost predicate Welcome(U: set<Entry>)
      reads this, store, relay, relay.store
    {
      relay.held && Online() && !relay.noPush && !broken && !relay.broken && relay.Admits(U) && Union() <= U
    }

    // One more answered request, the two sets as they were when the server answered.
    ghost method Say(x: Exchange, before: Sets)
      requires Tells(store.id, began, talk, before) && May(store.id, before, x)
      modifies this`talk
      ensures talk == old(talk) + [x] && Tells(store.id, began, talk, Moved(store.id, before, x))
    {
      TellsMore(store.id, began, talk, before, x);
      talk := talk + [x];
    }

    // ---------- one exchange ----------

    // What becomes of the next request.
    method Carry() returns (fate: Fate)
      modifies this`fates
      ensures old(Online()) ==> Online() && fate == Carried
    {
      if |fates| == 0 { return Carried; }
      fate := fates[0];
      fates := fates[1..];
    }

    // A PROBE of the client's fingerprint, as far as the network carries it.
    method AskProbe(want: nat) returns (fate: Fate, r: Reply)
      requires Talking() && Sound(store.id, store.hash)
      requires want == store.hash(IdsOf(store.id, store.Canonical()))
      modifies this`talk, this`fates, relay.store`setHash, relay.store`hashSet
      ensures Talking() && (old(Online()) ==> Online() && fate == Carried)
      ensures fate != Lost ==> r == if !relay.held then UnknownVault else Answer(if Same() then Ok else Differ)
      ensures fate == Carried && r == Answer(Ok) ==> Agreed(talk)
    {
      r := UnknownVault;
      fate := Carry();
      if fate == Lost { return; }
      SameHash();
      ArrangeIs(store.id, relay.store.entries, relay.store.order);
      r := relay.Probe(want);
      if r.Answer? { Say(Exchange(Probed(r.status == Ok), relay.store.Canonical(), fate == Carried), Now()); }
    }

    method Probe() returns (err: Err, same: bool)
      requires Talking() && Sound(store.id, store.hash)
      modifies this`talk, this`fates, store`setHash, store`hashSet, relay.store`setHash, relay.store`hashSet
      ensures Talking() && (old(Online()) ==> Online() && err != NoAnswer)
      ensures err == NoErr ==> relay.held && (same <==> Same()) && (same ==> Agreed(talk))
      ensures err != NoErr ==> !same && (err == NoAnswer || (err == Unknown && !relay.held))
    {
      var want := store.SetHash();
      var fate, r := AskProbe(want);
      if fate != Carried { return NoAnswer, false; }
      match r {
        case UnknownVault => return Unknown, false;
        case BadAuth => return Rejected, false;
        case Failed => return ServerFailed, false;
        case Answer(status) => return NoErr, status == Ok;
      }
    }

    lemma {:induction false} SameHash()
      requires Valid() && Sound(store.id, store.hash)
      ensures store.hash(IdsOf(store.id, store.Canonical())) == store.hash(IdsOf(store.id, relay.store.Canonical()))
         <==> store.Contents() == relay.store.Contents()
    {
      ArrangeIs(store.id, store.entries, store.order);
      ArrangeIs(store.id, relay.store.entries, relay.store.order);
      if store.Contents() == relay.store.Contents() {
        CanonUnique(store.id, store.Canonical(), relay.store.Canonical());
      }
      if store.hash(IdsOf(store.id, store.Canonical())) == store.hash(IdsOf(store.id, relay.store.Canonical())) {
        EqualHashEqualSet(store.id, store.hash, store.Canonical(), relay.store.Canonical());
      }
    }

    // What the server makes of a batch.
    method Deliver(batch: seq<Entry>, ghost U: set<Entry>) returns (r: Reply)
      requires Valid() && Sound(store.id, store.hash)
      modifies relay`bytes, relay.store
      ensures Valid() && (r.UnknownVault? <==> !relay.held)
      ensures relay.store.Contents() ==
              if r == Answer(Ok) then old(relay.store.Contents()) + Elements(batch) else old(relay.store.Contents())
      ensures old(Welcome(U)) && Elements(batch) <= U ==> r == Answer(Ok)
    {
      AddAllElements(store.id, relay.store.entries, batch);
      if Welcome(U) && Elements(batch) <= U { relay.AdmittedPush(U, batch); }
      r := relay.Push(batch);
    }

    // A PUSH, as far as the network carries it: the server takes the batch whole or refuses it whole.
    method AskPush(batch: seq<Entry>, ghost U: set<Entry>) returns (fate: Fate, r: Reply)
      requires Talking() && Sound(store.id, store.hash) && Elements(batch) <= store.Contents()
      modifies this`talk, this`fates, relay`bytes, relay.store
      ensures Talking() && (old(Online()) ==> Online() && fate == Carried)
      ensures fate != Lost ==> (r.UnknownVault? <==> !relay.held)
      ensures relay.store.Contents() ==
              if fate != Lost && r == Answer(Ok) then old(relay.store.Contents()) + Elements(batch)
                  else old(relay.store.Contents())
      ensures old(Welcome(U)) && Elements(batch) <= U && fate != Lost ==> r == Answer(Ok)
    {
      r := UnknownVault;
      fate := Carry();
      if fate == Lost { return; }
      ghost var before, listing := Now(), relay.store.Canonical();
      ArrangeIs(store.id, relay.store.entries, relay.store.order);
      r := Deliver(batch, U);
      if !r.UnknownVault? { Say(Exchange(Pushed(Elements(batch), r == Answer(Ok)), listing, fate == Carried), before); }
    }

    // sendPush: one batch, taken whole or refused whole; without an answer, either.
    method SendPush(batch: seq<Entry>, ghost U: set<Entry>) returns (err: Err)
      requires Talking() && Sound(store.id, store.hash) && Elements(batch) <= store.Contents()
      modifies this`talk, this`fates, relay`bytes, relay.store
      ensures Talking() && (old(Online()) ==> Online() && err != NoAnswer)
      ensures || relay.store.Contents() == old(relay.store.Contents()) + Elements(batch)
              || (relay.store.Contents() == old(relay.store.Contents()) && err != NoErr)
      ensures err != NoErr && err != NoAnswer ==> relay.store.Contents() == old(relay.store.Contents())
      ensures if relay.held then err != Unknown else err == Unknown || err == NoAnswer
      ensures old(Welcome(U)) && Elements(batch) <= U ==> err == NoErr
    {
      var fate, r := AskPush(batch, U);
      if fate != Carried { return NoAnswer; }
      match r {
        case UnknownVault => return Unknown;
        case BadAuth => return Rejected;
        case Failed => return ServerFailed;
        case Answer(status) => return if status == Ok then NoErr else Refused(status);
      }
    }

    // ---------- the walks ----------

    // One durable batch into the client's store, or none of it.
    method Keep(got: seq<Entry>) returns (ok: bool)
      requires Valid() && Injective(store.id)
      modifies store
      ensures Valid() && (!ok ==> broken)
      ensures store.Contents() == if ok then old(store.Contents()) + Elements(got) else old(store.Contents())
    {
      AddAllElements(store.id, store.entries, got);
      ghost var before := store.entries;
      var added;
      added, ok := Commit(store, got, broken);
      forall e | e in recent
        ensures e in store.entries
      {
        assert e in Elements(before);
      }
    }

    // One PULL: the page after the cursor, kept whole, and where the walk stands after it.
    method PullPage(cursor: Pos, ghost anchor: Pos) returns (err: Err, more: bool, next: Pos)
      requires Talking() && Sound(store.id, store.hash)
      requires Walked(store.id, relay.store.Contents(), store.Contents(), anchor, cursor)
      modifies this`talk, this`fates, store
      ensures Talking() && (old(Online()) ==> Online() && err != NoAnswer)
      ensures old(store.Contents()) <= store.Contents() <= old(store.Contents()) + relay.store.Contents()
      ensures if relay.held then err != Unknown else err == Unknown || err == NoAnswer
      ensures err == NoErr || err == Unknown || err == NoAnswer || (err == StoreFailed && broken)
      ensures err == NoErr && !more ==>
                forall e :: e in relay.store.Contents() && Before(anchor, At(store.id, e)) ==> e in store.Contents()
      ensures err == NoErr && more ==>
                && Walked(store.id, relay.store.Contents(), store.Contents(), anchor, next)
                && |After(store.id, relay.store.Canonical(), next)| < |After(store.id, relay.store.Canonical(), cursor)|
    {
      next := cursor;
      var fate := Carry();
      if fate == Lost { return NoAnswer, false, next; }
      var r, got := relay.Pull(cursor);
      if fate == Unanswered {
        NotHeard(cursor);
        return NoAnswer, false, next;
      }
      if r.UnknownVault? { return Unknown, false, next; }
      err, more, next := KeepPage(cursor, got, anchor);
    }

    // An answered PULL: its page kept in one batch.
    method KeepPage(cursor: Pos, got: seq<Entry>, ghost anchor: Pos) returns (err: Err, more: bool, next: Pos)
      requires Talking() && Sound(store.id, store.hash)
      requires got == Page(store.id, relay.store.Canonical(), cursor, relay.limits.pageBytes)
      requires Walked(store.id, relay.store.Contents(), store.Contents(), anchor, cursor)
      modifies this`talk, store
      ensures Talking()
      ensures old(store.Contents()) <= store.Contents() <= old(store.Contents()) + relay.store.Contents()
      ensures err == NoErr || (err == StoreFailed && broken)
      ensures err == NoErr && !more ==>
                forall e :: e in relay.store.Contents() && Before(anchor, At(store.id, e)) ==> e in store.Contents()
      ensures err == NoErr && more ==>
                && Walked(store.id, relay.store.Contents(), store.Contents(), anchor, next)
                && |After(store.id, relay.store.Canonical(), next)| < |After(store.id, relay.store.Canonical(), cursor)|
    {
      next := cursor;
      ghost var es := relay.store.Canonical();
      ArrangeIs(store.id, relay.store.entries, relay.store.order);
      WalkedPage(store.id, es, store.Contents(), anchor, cursor, relay.limits.pageBytes);
      ghost var before := Now();
      if |got| == 0 {
        Say(Exchange(Pulled(cursor, relay.limits.pageBytes), es, true), before);
        assert before.mine + Elements([]) == before.mine;
        return NoErr, false, next;
      }
      PageAdvances(store.id, es, cursor, relay.limits.pageBytes);
      var ok := Keep(got);
      Say(Exchange(Pulled(cursor, relay.limits.pageBytes), es, ok), before);
      if !ok { return StoreFailed, false, next; }
      return NoErr, true, At(store.id, got[|got| - 1]);
    }

    // A page that never came.
    ghost method NotHeard(cursor: Pos)
      requires Talking()
      modifies this`talk
      ensures Talking()
    {
      if relay.held {
        ArrangeIs(store.id, relay.store.entries, relay.store.order);
        Say(Exchange(Pulled(cursor, relay.limits.pageBytes), relay.store.Canonical(), false), Now());
      }
    }

    // pullFrom: the server's set after the anchor, page by page, every entry kept as it came.
    method PullFrom(anchor: Pos) returns (err: Err)
      requires Talking() && Sound(store.id, store.hash)
      modifies this`talk, this`fates, store
      ensures Talking() && (old(Online()) ==> Online() && err != NoAnswer)
      ensures old(store.Contents()) <= store.Contents() <= old(store.Contents()) + relay.store.Contents()
      ensures err == NoErr ==> forall e :: e in relay.store.Contents() && Before(anchor, At(store.id, e)) ==>
              e in store.Contents()
      ensures if relay.held then err != Unknown else err == Unknown || err == NoAnswer
      ensures || err == NoErr || err == Unknown || err == NoAnswer || (err == StoreFailed && broken)
              || (err == TooManyPages && |relay.store.entries| >= MAX_PULL_PAGES)
    {
      var cursor, page, more := anchor, 0, true;
      AfterSuffix(store.id, relay.store.Canonical(), anchor);
      ghost var before, all, es := store.Contents(), relay.store.Contents(), relay.store.Canonical();
      while true
        invariant Talking() && (old(Online()) ==> Online()) && page <= MAX_PULL_PAGES && (page > 0 ==> relay.held)
        invariant before <= store.Contents() <= before + all && Walked(store.id, all, store.Contents(), anchor, cursor)
        invariant |After(store.id, es, cursor)| + page <= |es|
        decreases MAX_PULL_PAGES - page
      {
        if page >= MAX_PULL_PAGES { return TooManyPages; }
        err, more, cursor := PullPage(cursor, anchor);
        if err != NoErr || !more { return; }
        page := page + 1;
      }
    }

    // One PUSH of a walk: the batch after the cursor.
    method PushPage(cursor: Pos, ghost anchor: Pos, ghost U: set<Entry>) returns (err: Err, more: bool, next: Pos)
      requires Talking() && Sound(store.id, store.hash)
      requires Walked(store.id, store.Contents(), relay.store.Contents(), anchor, cursor)
      modifies this`talk, this`fates, relay`bytes, relay.store
      ensures Talking() && (old(Online()) ==> Online() && err != NoAnswer)
      ensures old(relay.store.Contents()) <= relay.store.Contents() <= old(relay.store.Contents()) + store.Contents()
      ensures err == Unknown ==> !relay.held
      ensures old(Welcome(U)) ==> err == NoErr
      ensures err == NoErr && !more ==>
                forall e :: e in store.Contents() && Before(anchor, At(store.id, e)) ==> e in relay.store.Contents()
      ensures err == NoErr && more ==>
                && Walked(store.id, store.Contents(), relay.store.Contents(), anchor, next)
                && |After(store.id, store.Canonical(), next)| < |After(store.id, store.Canonical(), cursor)|
    {
      next := cursor;
      ghost var es := store.Canonical();
      ArrangeIs(store.id, store.entries, store.order);
      var batch := store.EntriesAfter(cursor, relay.limits.pageBytes);
      WalkedPage(store.id, es, relay.store.Contents(), anchor, cursor, relay.limits.pageBytes);
      if |batch| == 0 { return NoErr, false, next; }
      PageAdvances(store.id, es, cursor, relay.limits.pageBytes);
      ghost var before := relay.store.Contents();
      err := SendPush(batch, U);
      assert err == NoErr ==> relay.store.Contents() == before + Elements(batch);
      return err, true, At(store.id, batch[|batch| - 1]);
    }

    // pushFrom: the client's own set after the anchor, batch by batch.
    method PushFrom(anchor: Pos, ghost U: set<Entry>) returns (err: Err)
      requires Talking() && Sound(store.id, store.hash)
      modifies this`talk, this`fates, relay`bytes, relay.store
      ensures Talking() && (old(Online()) ==> Online() && err != NoAnswer)
      ensures old(relay.store.Contents()) <= relay.store.Contents() <= old(relay.store.Contents()) + store.Contents()
      ensures err == NoErr ==> forall e :: e in store.Contents() && Before(anchor, At(store.id, e)) ==>
              e in relay.store.Contents()
      ensures err == Unknown ==> !relay.held
      ensures old(Welcome(U)) ==> err == NoErr
    {
      var cursor, more := anchor, true;
      while true
        invariant Talking() && (old(Online()) ==> Online())
        invariant old(relay.store.Contents()) <= relay.store.Contents() <= old(relay.store.Contents())
                  + store.Contents()
        invariant Walked(store.id, store.Contents(), relay.store.Contents(), anchor, cursor)
        decreases |After(store.id, store.Canonical(), cursor)|
      {
        err, more, cursor := PushPage(cursor, anchor, U);
        if err != NoErr || !more { return; }
      }
    }

    // The batch of es from i on: as many entries as a page holds, but at least one.
    method NextBatch(es: seq<Entry>, i: nat) returns (batch: seq<Entry>, next: nat)
      requires i < |es|
      ensures i < next <= |es| && batch == es[i..next] && es[..next] == es[..i] + batch
      ensures |batch| == 1 || TotalSize(batch) <= relay.limits.pageBytes
      ensures next < |es| ==> TotalSize(batch + [es[next]]) > relay.limits.pageBytes
    {
      var used: nat;
      batch, next, used := [], i, 0;
      while next < |es|
        invariant i <= next <= |es| && batch == es[i..next] && (next == i ==> batch == [])
        invariant used == TotalSize(batch)
        invariant |batch| <= 1 || used <= relay.limits.pageBytes
      {
        TotalSizeLast(batch, es[next]);
        if |batch| > 0 && used + Size(es[next]) > relay.limits.pageBytes { break; }
        batch, used, next := batch + [es[next]], used + Size(es[next]), next + 1;
      }
    }

    // pushEntries: an explicit list, batch by batch.
    method PushEntries(es: seq<Entry>, ghost U: set<Entry>) returns (err: Err)
      requires Talking() && Sound(store.id, store.hash) && Elements(es) <= store.Contents()
      modifies this`talk, this`fates, relay`bytes, relay.store
      ensures Talking() && (old(Online()) ==> Online() && err != NoAnswer)
      ensures old(relay.store.Contents()) <= relay.store.Contents() <= old(relay.store.Contents()) + Elements(es)
      ensures err == NoErr ==> Elements(es) <= relay.store.Contents()
      ensures err == Unknown ==> !relay.held
      ensures !relay.held && |es| > 0 ==> err == Unknown || err == NoAnswer
      ensures old(Welcome(U)) && Elements(es) <= U ==> err == NoErr
    {
      var i := 0;
      err := NoErr;
      while i < |es|
        invariant i <= |es| && Talking() && (old(Online()) ==> Online()) && err == NoErr && (i > 0 ==> relay.held)
        invariant relay.store.Contents() == old(relay.store.Contents()) + Elements(es[..i])
      {
        ElementsPart(es, i, i);
        err, i := PushNext(es, i, U, old(relay.store.Contents()));
        if err != NoErr { return; }
      }
      assert es[..i] == es;
    }

    // One batch of them.
    method PushNext(es: seq<Entry>, i: nat, ghost U: set<Entry>, ghost before: set<Entry>) returns (err: Err, next: nat)
      requires Talking() && Sound(store.id, store.hash) && i < |es| && Elements(es) <= store.Contents()
      requires relay.store.Contents() == before + Elements(es[..i])
      modifies this`talk, this`fates, relay`bytes, relay.store
      ensures Talking() && i < next <= |es| && (old(Online()) ==> Online() && err != NoAnswer)
      ensures before <= relay.store.Contents() <= before + Elements(es)
      ensures err == NoErr ==> relay.held && relay.store.Contents() == before + Elements(es[..next])
      ensures if relay.held then err != Unknown else err == Unknown || err == NoAnswer
      ensures old(Welcome(U)) && Elements(es) <= U ==> err == NoErr
    {
      var batch;
      batch, next := NextBatch(es, i);
      ElementsJoin(es[..i], batch, es[..next]);
      ElementsPart(es, i, next);
      err := SendPush(batch, U);
    }

    lemma {:induction false} ElementsJoin(a: seq<Entry>, b: seq<Entry>, all: seq<Entry>)
      requires all == a + b
      ensures Elements(all) == Elements(a) + Elements(b)
    {
    }

    lemma {:induction false} ElementsPart(es: seq<Entry>, i: nat, j: nat)
      requires i <= j <= |es|
      ensures Elements(es[..i]) <= Elements(es) && Elements(es[i..j]) <= Elements(es)
    {
    }

    // ---------- rounds ----------

    // reconcileAnchor: one window below the newest entry on round 0, everything on a later one.
    method ReconcileAnchor(round: nat) returns (p: Pos)
      requires Valid()
      ensures round != 0 || store.Contents() == {} ==> p == Pos(0, 0)
      ensures round == 0 && store.Contents() != {} ==>
              exists last: nat :: IsLatest(store.Contents(), last)
                  && p == Pos(if last > windowMs then last - windowMs else 0, 0)
    {
      if round != 0 { return Pos(0, 0); }
      var newest := store.Newest();
      assert newest.Some? ==> IsLatest(store.Contents(), newest.value.ts);
      if newest.Some? && newest.value.ts > windowMs { return Pos(newest.value.ts - windowMs, 0); }
      return Pos(0, 0);
    }

    // unknownVault: register on the next round, if the vault may be registered again.
    method UnknownVaultErr() returns (err: Err)
      modifies this`registered
      ensures err == if ended || (ephemeral && everRegistered) then VaultEnded
                     else if !hasKey then NoRegisterKey else NoErr
      ensures registered == (old(registered) && err != NoErr)
    {
      if ended || (ephemeral && everRegistered) { return VaultEnded; }
      if !hasKey { return NoRegisterKey; }
      registered := false;
      return NoErr;
    }

    method RegisterIfNeeded() returns (err: Err)
      requires Talking()
      modifies this`registered, this`everRegistered, this`fates, relay`held
      ensures Talking() && (old(Online()) ==> Online() && err != NoAnswer)
      ensures old(relay.held) ==> relay.held && (err == NoErr || err == NoAnswer)
      ensures !old(relay.held) && hasKey && !old(registered) && !relay.revoked && !relay.full && old(Online()) ==>
              relay.held && err == NoErr
      ensures old(registered) ==> err == NoErr && unchanged(this) && unchanged(relay)
      ensures err == NoErr || err == Rejected || err == Refused(Quota) || err == NoAnswer
    {
      if registered || !hasKey { return NoErr; }
      var fate := Carry();
      if fate == Lost { return NoAnswer; }
      var r := relay.Register();
      if fate == Unanswered { return NoAnswer; }
      if r.BadAuth? { return Rejected; }
      if r != Answer(Ok) { return Refused(Quota); }
      registered, everRegistered := true, true;
      return NoErr;
    }

    ghost predicate Same()
      reads store, relay.store
    {
      store.Contents() == relay.store.Contents()
    }

    // No entry stands where a full walk starts.
    ghost predicate ZeroFree()
      reads this, store, relay, relay.store
    {
      forall e :: e in Union() ==> Before(Pos(0, 0), At(store.id, e))
    }

    // What follows a difference: the window's PULL, a second PROBE, the window's PUSH.
    method Walk(round: nat, ghost U: set<Entry>) returns (err: Err, same: bool)
      requires Talking() && Sound(store.id, store.hash) && relay.held
      modifies this`talk, this`fates, store, relay`bytes, relay.store
      ensures Talking() && Union() == old(Union()) && (old(Online()) ==> Online() && err != NoAnswer)
      ensures old(store.Contents()) <= store.Contents() && old(relay.store.Contents()) <= relay.store.Contents()
      ensures err == NoErr && same ==> Same() && Agreed(talk)
      ensures err == NoErr && round > 0 && old(ZeroFree()) ==> Same()
      ensures err != Unknown
      ensures old(Welcome(U)) && |U| < MAX_PULL_PAGES ==> err == NoErr
    {
      same := false;
      var anchor := ReconcileAnchor(round);
      HeldFew(U);
      err := PullFrom(anchor);
      if err != NoErr { return; }
      err, same := PushBack(anchor, U);
    }

    // The pull is often the whole difference; if not, the window's PUSH.
    method PushBack(anchor: Pos, ghost U: set<Entry>) returns (err: Err, same: bool)
      requires Talking() && Sound(store.id, store.hash) && relay.held
      modifies this`talk, this`fates, store`setHash, store`hashSet, relay`bytes, relay.store
      ensures Talking() && (old(Online()) ==> Online() && err != NoAnswer)
      ensures old(relay.store.Contents()) <= relay.store.Contents() <= old(relay.store.Contents()) + store.Contents()
      ensures err == NoErr && same ==> Same() && Agreed(talk)
      ensures err == NoErr ==> forall e :: e in store.Contents() && Before(anchor, At(store.id, e)) ==>
              e in relay.store.Contents()
      ensures err != Unknown && (old(Welcome(U)) ==> err == NoErr)
    {
      err, same := Probe();
      if err != NoErr || same { return; }
      err := PushFrom(anchor, U);
    }

    // A round after its registration and its fast path: PROBE, and on a difference the walks.
    method Reconcile(round: nat, ghost U: set<Entry>) returns (err: Err, same: bool)
      requires Talking() && Sound(store.id, store.hash)
      modifies this`talk, this`fates, store, relay`bytes, relay.store
      ensures Talking() && Union() == old(Union()) && (old(Online()) ==> Online() && err != NoAnswer)
      ensures old(store.Contents()) <= store.Contents() && old(relay.store.Contents()) <= relay.store.Contents()
      ensures err == NoErr && same ==> relay.held && Same() && Agreed(talk)
      ensures err == NoErr && round > 0 && old(ZeroFree()) ==> Same()
      ensures if relay.held then err != Unknown else err == Unknown || err == NoAnswer
      ensures old(Welcome(U)) && |U| < MAX_PULL_PAGES ==> err == NoErr
      ensures old(Welcome(U)) && old(Same()) ==> same
    {
      err, same := Probe();
      if err != NoErr || same { return; }
      err, same := Walk(round, U);
    }

    lemma {:induction false} HeldFew(U: set<Entry>)
      requires Valid()
      ensures relay.store.Contents() <= U ==> |relay.store.entries| <= |U|
    {
      StoreIdDistinct(relay.store);
      SumSizeOf(relay.store.entries);
      if relay.store.Contents() <= U { SumSizeMonotone(relay.store.Contents(), U); }
    }

    // On the first round what was just written goes before the first probe.
    method FastPath(round: nat, fast: seq<Entry>, ghost U: set<Entry>) returns (err: Err)
      requires Talking() && Sound(store.id, store.hash) && Elements(fast) <= store.Contents()
      modifies this`talk, this`fates, relay`bytes, relay.store
      ensures Talking() && Union() == old(Union()) && old(relay.store.Contents()) <= relay.store.Contents()
              && (old(Online()) ==> Online() && err != NoAnswer)
      ensures round > 0 ==> err == NoErr && relay.store.Contents() == old(relay.store.Contents())
      ensures err == Unknown ==> !relay.held
      ensures !relay.held ==> err == NoErr || err == Unknown || err == NoAnswer
      ensures old(Welcome(U)) ==> err == NoErr
    {
      err := NoErr;
      if round == 0 && |fast| > 0 { err := PushEntries(fast, U); }
    }

    method Round(round: nat, fast: seq<Entry>, ghost U: set<Entry>) returns (err: Err, same: bool)
      requires Talking() && Sound(store.id, store.hash)
      requires Elements(fast) <= store.Contents()
      modifies this`registered, this`everRegistered, this`made, this`talk, this`fates, store, relay`held,
               relay`bytes, relay.store
      ensures Talking() && Union() == old(Union()) && made == old(made) + 1
              && (old(Online()) ==> Online() && err != NoAnswer)
      ensures old(store.Contents()) <= store.Contents() && old(relay.store.Contents()) <= relay.store.Contents()
      ensures err == NoErr && same ==> relay.held && Same() && Agreed(talk)
      ensures err == NoErr && round > 0 && old(ZeroFree()) ==> Same()
      ensures err == Unknown ==> !relay.held
      ensures old(registered) && !old(relay.held) ==>
              (err == Unknown || err == NoAnswer) && !relay.held
              && unchanged(`registered) && unchanged(`everRegistered)
      ensures old(relay.held) ==> relay.held
      ensures old(Ready(U)) && |U| < MAX_PULL_PAGES ==> relay.held && err == NoErr
      ensures old(Ready(U)) && round > 0 && old(Same()) ==> err != NoErr || same
    {
      ghost var ready := Ready(U);
      made := made + 1;
      err := RegisterIfNeeded();
      same := false;
      if err != NoErr { return; }
      assert ready ==> Welcome(U);
      err, same := Meet(round, fast, U);
    }

    // A round after its registration.
    method Meet(round: nat, fast: seq<Entry>, ghost U: set<Entry>) returns (err: Err, same: bool)
      requires Talking() && Sound(store.id, store.hash)
      requires Elements(fast) <= store.Contents()
      modifies this`talk, this`fates, store, relay`bytes, relay.store
      ensures Talking() && Union() == old(Union()) && (old(Online()) ==> Online() && err != NoAnswer)
      ensures old(store.Contents()) <= store.Contents() && old(relay.store.Contents()) <= relay.store.Contents()
      ensures err == NoErr && same ==> relay.held && Same() && Agreed(talk)
      ensures err == NoErr && round > 0 && old(ZeroFree()) ==> Same()
      ensures if relay.held then err != Unknown else err == Unknown || err == NoAnswer
      ensures old(Welcome(U)) && |U| < MAX_PULL_PAGES ==> err == NoErr
      ensures old(Welcome(U)) && round > 0 && old(Same()) ==> same
    {
      same := false;
      err := FastPath(round, fast, U);
      if err != NoErr { return; }
      err, same := Reconcile(round, U);
    }

    // The server serves the vault, or this round will register it there, and nothing stands
    // against the entries of U.
    ghost predicate Ready(U: set<Entry>)
      reads this, store, relay, relay.store
    {
      && (relay.held || (hasKey && !registered && !relay.revoked && !relay.full))
      && Online() && !relay.noPush && !broken && !relay.broken && relay.Admits(U) && Union() <= U
    }

    // The vault is served, or the client may register it.
    ghost predicate Reachable()
      reads this, relay
    {
      relay.held || (hasKey && !relay.revoked && !relay.full && !ended && !(ephemeral && everRegistered))
    }

    // Nothing in the vault's state or its limits stands in the way of U.
    ghost predicate Clear(U: set<Entry>)
      reads this, store, relay, relay.store
    {
      Reachable() && Online() && !relay.noPush && !broken && !relay.broken && relay.Admits(U) && Union() <= U
          && |U| < MAX_PULL_PAGES && ZeroFree()
    }

    // What holds before round n of a clear run.
    ghost predicate Smooth(n: nat, U: set<Entry>)
      reads this, store, relay, relay.store
    {
      && n <= 2 && Clear(U)
      && (n == 1 ==> relay.held || !registered)
      && (n == 2 ==> relay.held && Same())
    }

    // One turn of Sync: a round, and on UNKNOWN_VAULT what to do about it.
    method Turn(round: nat, fast: seq<Entry>, ghost U: set<Entry>) returns (err: Err, same: bool)
      requires Talking() && Sound(store.id, store.hash)
      requires Elements(fast) <= store.Contents()
      modifies this`registered, this`everRegistered, this`made, this`talk, this`fates, store, relay`held,
               relay`bytes, relay.store
      ensures Talking() && Union() == old(Union()) && made == old(made) + 1
      ensures old(store.Contents()) <= store.Contents() && old(relay.store.Contents()) <= relay.store.Contents()
      ensures err == NoErr && same ==> relay.held && Same() && Agreed(talk)
      ensures old(Smooth(round, U)) ==> err == NoErr && (same || Smooth(round + 1, U))
    {
      ghost var smooth := Smooth(round, U);
      err, same := Round(round, fast, U);
      if err == Unknown {
        err := UnknownVaultErr();
        same := false;
      }
    }

    // The rounds of Sync, until a probe matches or the round budget is spent.
    method Rounds(fast: seq<Entry>, ghost U: set<Entry>) returns (err: Err, rounds: nat)
      requires Talking() && Sound(store.id, store.hash)
      requires Elements(fast) <= store.Contents()
      modifies this`registered, this`everRegistered, this`made, this`talk, this`fates, store, relay`held,
               relay`bytes, relay.store
      ensures Talking() && Union() == old(Union())
      ensures old(store.Contents()) <= store.Contents() && old(relay.store.Contents()) <= relay.store.Contents()
      ensures err == NoErr ==> relay.held && Same() && Agreed(talk)
      ensures made == old(made) + rounds && 1 <= rounds <= MAX_ROUNDS
      ensures old(Clear(U)) ==> err == NoErr && made <= old(made) + 3
    {
      rounds := 0;
      ghost var smooth := Smooth(0, U);
      var same;
      while rounds < MAX_ROUNDS
        invariant rounds <= MAX_ROUNDS && Talking() && Union() == old(Union()) && made == old(made) + rounds
        invariant old(store.Contents()) <= store.Contents() && old(relay.store.Contents()) <= relay.store.Contents()
        invariant old(Clear(U)) ==> Smooth(rounds, U)
      {
        err, same := Turn(rounds, fast, U);
        rounds := rounds + 1;
        if err != NoErr || same { return; }
      }
      err := Stuck;
    }

    // Sync. Whatever happens, neither side loses an entry or gains one the other did not have,
    // success means the two sets are one, and a failure puts the fast path's entries back. With
    // no other writer, no refusal and the vault within reach, it succeeds by its third round.
    method Sync() returns (err: Err, rounds: nat)
      requires Valid() && Sound(store.id, store.hash)
      modifies this`recent, this`registered, this`everRegistered, this`made, this`began, this`talk, this`fates
      modifies store, relay`held, relay`bytes, relay.store
      ensures Talking() && began == old(Now()) && Union() == old(Union())
      ensures old(store.Contents()) <= store.Contents() && old(relay.store.Contents()) <= relay.store.Contents()
      ensures err == NoErr ==> Agreed(talk)
      ensures err == NoErr ==> relay.held && store.Contents() == relay.store.Contents() == old(Union()) && recent == []
      ensures err != NoErr ==> recent == old(recent)
      ensures made == old(made) + rounds && 1 <= rounds <= MAX_ROUNDS
      ensures old(Clear(Union())) ==> err == NoErr && made <= old(made) + 3
    {
      ghost var U := Union();
      var fast := Begin(U);
      err, rounds := Rounds(fast, U);
      if err != NoErr { PutBack(fast); }
    }

    // What was written since the last sync is this one's fast path.
    method Begin(ghost U: set<Entry>) returns (fast: seq<Entry>)
      requires Valid()
      modifies this`recent, this`began, this`talk
      ensures Talking() && began == old(Now()) && Union() == old(Union())
      ensures recent == [] && fast == old(recent) && Elements(fast) <= store.Contents()
      ensures old(Clear(U)) ==> Clear(U)
    {
      fast := recent;
      recent := [];
      began, talk := Now(), [];
    }

    // The fast path's entries, for the next sync.
    method PutBack(fast: seq<Entry>)
      requires Talking() && Elements(fast) <= store.Contents()
      modifies this`recent
      ensures Talking() && Now() == old(Now()) && Union() == old(Union()) && recent == fast + old(recent)
    {
      Kept(fast, store.Contents());
      recent := fast + recent;
    }

    lemma {:induction false} Kept(fast: seq<Entry>, before: set<Entry>)
      requires Elements(fast) <= before <= store.Contents()
      ensures forall e :: e in fast ==> e in store.entries
    {
      forall e | e in fast
        ensures e in store.entries
      {
        assert e in Elements(fast);
      }
    }

    // record: one durable batch into the store, remembered for the next sync; a store that cannot
    // be written takes none of it, and nothing is remembered.
    method Record(es: seq<Entry>) returns (ok: bool)
      requires Valid() && Injective(store.id)
      modifies this`recent, store
      ensures Valid() && ok == !(broken && Lacks(store.id, old(store.entries), es))
      ensures ok ==> store.Contents() == old(store.Contents()) + Elements(es) && recent == old(recent) + es
      ensures !ok ==> store.entries == old(store.entries) && recent == old(recent)
    {
      AddAllElements(store.id, store.entries, es);
      ghost var before := store.Contents();
      var added;
      added, ok := Commit(store, es, broken);
      if !ok { return; }
      forall e | e in recent + es
        ensures e in store.entries
      {
        if e in recent { assert e in before; } else { assert e in Elements(es); }
      }
      recent := recent + es;
    }
  }
}
