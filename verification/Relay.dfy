/** One vault on the server (kv/server/server.go): what it answers to a registration, a probe, a
    pull and a push, and the limits it holds new entries to. */
module Relays {
  import opened Entries
  import opened Canon
  import opened MemStores
  import opened Sums
  import LogStores

  datatype Limits = Limits(maxEntries: nat, maxBytes: nat, pageBytes: nat)

  datatype Status = Ok | Differ | Quota | BadRequest

  // A pre-channel error, a sealed response's status, or the server's own failure.
  datatype Reply = UnknownVault | BadAuth | Answer(status: Status) | Failed

  datatype Verdict = Accepted(news: seq<Entry>) | TooFarAhead | OverQuota

  // What validateNew makes of a page of entries: only those the vault lacks are judged.
  ghost function Judge(id: Ids, es: seq<Entry>, bytes: nat, news: seq<Entry>, limits: Limits, latest: nat,
      checkSkew: bool): Verdict {
    var missing := LogStores.Fresh(id, es, news);
    if checkSkew && exists e :: e in missing && e.ts > latest then TooFarAhead
    else if |es| + |missing| > limits.maxEntries || bytes + TotalSize(missing) > limits.maxBytes then OverQuota
    else Accepted(missing)
  }

  ghost predicate IdDistinct(id: Ids, es: seq<Entry>) {
    forall i, j :: 0 <= i < j < |es| ==> id(es[i]) != id(es[j])
  }

  lemma {:induction false} OneMore(id: Ids, es: seq<Entry>, e: Entry)
    requires IdDistinct(id, es) && id(e) !in IdsOf(id, es)
    ensures IdDistinct(id, es + [e])
  {
    forall i | 0 <= i < |es|
      ensures id(es[i]) != id(e)
    {
      assert IdsOf(id, es)[i] == id(es[i]);
    }
  }

  lemma {:induction false} FreshIsDistinct(id: Ids, es: seq<Entry>, news: seq<Entry>, f: seq<Entry>)
    requires IdDistinct(id, es) && f == LogStores.Fresh(id, es, news)
    ensures IdDistinct(id, es + f)
    ensures forall e :: e in f ==> e in news
    decreases |news|
  {
    if news == [] {
      assert es + [] == es;
    } else if id(news[0]) in IdsOf(id, es) {
      FreshIsDistinct(id, es, news[1..], f);
    } else {
      var more := es + [news[0]];
      var rest := LogStores.Fresh(id, more, news[1..]);
      OneMore(id, es, news[0]);
      FreshIsDistinct(id, more, news[1..], rest);
      assert more + rest == es + f;
    }
  }

  // f is what es lacks of news, each id once.
  ghost predicate Missing(id: Ids, es: seq<Entry>, news: seq<Entry>, f: seq<Entry>) {
    && (forall e :: e in f ==> e in news && id(e) !in IdsOf(id, es))
    && IdDistinct(id, f)
    && forall e :: e in news ==> id(e) in IdsOf(id, es + f)
  }

  lemma {:induction false} IdsGrow(id: Ids, a: seq<Entry>, b: seq<Entry>)
    ensures forall x :: x in IdsOf(id, a + b) <==> x in IdsOf(id, a) || x in IdsOf(id, b)
  {
    assert IdsOf(id, a + b) == IdsOf(id, a) + IdsOf(id, b);
  }

  lemma {:induction false} DistinctAfter(id: Ids, e: Entry, f: seq<Entry>)
    requires IdDistinct(id, f) && forall x :: x in f ==> id(x) != id(e)
    ensures IdDistinct(id, [e] + f)
  {
  }

  // The first entry of news is held already, or is missing and then held.
  lemma {:induction false} MissingPassed(id: Ids, es: seq<Entry>, e: Entry, news: seq<Entry>, f: seq<Entry>)
    requires Missing(id, es, news, f) && id(e) in IdsOf(id, es)
    ensures Missing(id, es, [e] + news, f)
  {
    IdsGrow(id, es, f);
  }

  lemma {:induction false} MissingTaken(id: Ids, es: seq<Entry>, e: Entry, news: seq<Entry>, f: seq<Entry>)
    requires Missing(id, es + [e], news, f) && id(e) !in IdsOf(id, es)
    ensures Missing(id, es, [e] + news, [e] + f)
  {
    LogStores.GrowIds(id, es, e);
    DistinctAfter(id, e, f);
    IdsGrow(id, es + [e], f);
    assert es + [e] + f == es + ([e] + f);
  }

  lemma {:induction false} FreshIsMissing(id: Ids, es: seq<Entry>, news: seq<Entry>)
    ensures Missing(id, es, news, LogStores.Fresh(id, es, news))
    decreases |news|
  {
    if news == [] {
      assert es + [] == es;
    } else {
      var e, rest := news[0], news[1..];
      assert news == [e] + rest;
      if id(e) in IdsOf(id, es) {
        FreshIsMissing(id, es, rest);
        MissingPassed(id, es, e, rest, LogStores.Fresh(id, es, rest));
      } else {
        FreshIsMissing(id, es + [e], rest);
        MissingTaken(id, es, e, rest, LogStores.Fresh(id, es + [e], rest));
      }
    }
  }

  // What is accepted is all the vault lacks, none of it too far ahead, and leaves the set within both
  // quotas; a refusal is for an entry the vault lacks, or for a quota the lacking entries break.
  lemma {:induction false} JudgeMeans(id: Ids, es: seq<Entry>, bytes: nat, news: seq<Entry>, limits: Limits,
      latest: nat, checkSkew: bool)
    requires bytes == TotalSize(es)
    ensures match Judge(id, es, bytes, news, limits, latest, checkSkew)
            case Accepted(f) =>
              && Missing(id, es, news, f) && (checkSkew ==> forall e: Entry :: e in f ==> e.ts <= latest)
              && |es + f| <= limits.maxEntries && TotalSize(es + f) <= limits.maxBytes
            case TooFarAhead => checkSkew && exists e: Entry :: e in news && id(e) !in IdsOf(id, es) && e.ts > latest
            case OverQuota =>
              exists f: seq<Entry> :: Missing(id, es, news, f)
                  && (checkSkew ==> forall e: Entry :: e in f ==> e.ts <= latest)
                && (|es + f| > limits.maxEntries || TotalSize(es + f) > limits.maxBytes)
  {
    var f := LogStores.Fresh(id, es, news);
    FreshIsMissing(id, es, news);
    TotalSizeAppend(es, f);
  }

  lemma {:induction false} StoreIdDistinct(s: MemStore)
    requires s.Valid()
    ensures IdDistinct(s.id, s.entries)
  {
  }

  // The byte count after the entries are added to it.
  method Count(start: nat, news: seq<Entry>) returns (bytes: nat)
    ensures bytes == start + TotalSize(news)
  {
    bytes := start;
    var i := 0;
    while i < |news|
      invariant i <= |news| && bytes + TotalSize(news[i..]) == start + TotalSize(news)
    {
      assert news[i..][1..] == news[i + 1..];
      bytes := bytes + Size(news[i]);
      i := i + 1;
    }
  }

  ghost predicate Lacks(id: Ids, es: seq<Entry>, news: seq<Entry>) { LogStores.Fresh(id, es, news) != [] }

  lemma {:induction false} LacksNone(id: Ids, es: seq<Entry>, news: seq<Entry>)
    requires forall i :: 0 <= i < |news| ==> id(news[i]) in IdsOf(id, es)
    ensures LogStores.Fresh(id, es, news) == []
    decreases |news|
  {
    if news != [] { LacksNone(id, es, news[1..]); }
  }

  lemma {:induction false} LacksOne(id: Ids, es: seq<Entry>, news: seq<Entry>, i: nat)
    requires i < |news| && id(news[i]) !in IdsOf(id, es)
    ensures Lacks(id, es, news)
    decreases |news|
  {
    if id(news[0]) in IdsOf(id, es) { LacksOne(id, es, news[1..], i - 1); }
  }

  // A store's Add, on a log that may refuse to be written: it is, if there is anything to write.
  method Commit(s: MemStore, news: seq<Entry>, broken: bool) returns (added: nat, ok: bool)
    requires s.Valid()
    modifies s
    ensures s.Valid() && ok == !(broken && Lacks(s.id, old(s.entries), news))
    ensures s.entries == if ok then AddAll(s.id, old(s.entries), news) else old(s.entries)
    ensures added == |s.entries| - |old(s.entries)|
  {
    if broken {
      var i := 0;
      s.HasIs();
      while i < |news|
        invariant i <= |news| && s.Valid() && unchanged(s)
        invariant forall j :: 0 <= j < i ==> s.id(news[j]) in IdsOf(s.id, s.entries)
      {
        if s.id(news[i]) !in s.has {
          LacksOne(s.id, s.entries, news, i);
          return 0, false;
        }
        i := i + 1;
      }
      LacksNone(s.id, s.entries, news);
    }
    added := s.Add(news);
    ok := true;
  }

  class Relay {
    const store: MemStore
    const limits: Limits
    const latest: nat   // the latest timestamp a push may carry: the clock and its allowed skew
    var held: bool      // the vault is served
    var revoked: bool   // it has ended, for good
    var full: bool      // the server has no room for one more vault
    var noPush: bool
    var broken: bool    // the log refuses to be written
    var bytes: nat

    ghost predicate Valid()
      reads this, store
    {
      && store.Valid()
      && bytes == TotalSize(store.entries)
      && (!held ==> store.entries == [])
      && !(held && revoked)
    }

    constructor (id: Ids, hash: Hash, limits: Limits, latest: nat)
      ensures Valid() && !held && !revoked && fresh(store) && store.id == id && store.hash == hash
    {
      store := new MemStore(id, hash);
      this.limits, this.latest := limits, latest;
      held, revoked, full, noPush, broken, bytes := false, false, false, false, false, 0;
    }

    // REGISTER by a holder of a register key and of the vault's own auth key.
    method Register() returns (r: Reply)
      requires Valid()
      modifies this`held
      ensures Valid() && held == (old(held) || r == Answer(Ok))
      ensures r == if revoked then BadAuth else if old(held) || !full then Answer(Ok) else Answer(Quota)
    {
      if revoked { return BadAuth; }
      if held { return Answer(Ok); }
      if full { return Answer(Quota); }
      held := true;
      return Answer(Ok);
    }

    method Probe(want: nat) returns (r: Reply)
      requires Valid()
      modifies store`setHash, store`hashSet
      ensures Valid()
      ensures r == if !held then UnknownVault
                   else if store.hash(IdsOf(store.id, store.Canonical())) == want then Answer(Ok) else Answer(Differ)
    {
      if !held { return UnknownVault; }
      var h := store.SetHash();
      if h != want { return Answer(Differ); }
      return Answer(Ok);
    }

    method Pull(cursor: Pos) returns (r: Reply, page: seq<Entry>)
      requires Valid()
      ensures if held then r == Answer(Ok) && page == Page(store.id, store.Canonical(), cursor, limits.pageBytes)
              else r == UnknownVault && page == []
    {
      if !held { return UnknownVault, []; }
      page := store.EntriesAfter(cursor, limits.pageBytes);
      r := Answer(Ok);
    }

    // validateNew: the entries of a page the vault lacks, if the limits admit them all.
    method ValidateNew(pushes: seq<Entry>, checkSkew: bool) returns (v: Verdict)
      requires Valid()
      ensures v == Judge(store.id, store.entries, bytes, pushes, limits, latest, checkSkew)
    {
      var missing: seq<Entry>, seen: set<Id>, newBytes: nat, i := [], {}, 0, 0;
      ghost var es, whole := store.entries, LogStores.Fresh(store.id, store.entries, pushes);
      store.HasIs();
      while i < |pushes|
        invariant i <= |pushes| && es == store.entries + missing
        invariant forall x :: x in IdsOf(store.id, es) <==> x in seen || x in store.has
        invariant missing + LogStores.Fresh(store.id, es, pushes[i..]) == whole
        invariant newBytes == TotalSize(missing)
        invariant checkSkew ==> forall e :: e in missing ==> e.ts <= latest
      {
        var e := pushes[i];
        LogStores.FreshStep(store.id, es, pushes, i);
        LogStores.FreshTurn(store.id, es, pushes, i, missing, whole);
        if store.id(e) !in seen && store.id(e) !in store.has {
          if checkSkew && e.ts > latest {
            assert e in whole;
            return TooFarAhead;
          }
          LogStores.GrowIds(store.id, es, e);
          TotalSizeAppend(missing, [e]);
          missing, seen, es := missing + [e], seen + {store.id(e)}, es + [e];
          newBytes := newBytes + Size(e);
        }
        i := i + 1;
      }
      assert pushes[i..] == [] && missing + [] == missing;
      assert missing == whole;
      if |store.entries| + |missing| > limits.maxEntries { return OverQuota; }
      if bytes + newBytes > limits.maxBytes { return OverQuota; }
      return Accepted(missing);
    }

    // addValidatedLocked: the whole batch, or nothing if the log cannot be written.
    method AddValidated(news: seq<Entry>) returns (ok: bool)
      requires Valid() && held && LogStores.Fresh(store.id, store.entries, news) == news
      modifies this`bytes, store
      ensures Valid() && ok == !(broken && news != [])
      ensures store.entries == old(store.entries) + if ok then news else []
    {
      LogStores.AddFreshOnly(store.id, store.entries, news);
      TotalSizeAppend(store.entries, news);
      var added;
      added, ok := Commit(store, news, broken);
      if !ok { return; }
      bytes := Count(bytes, news[..added]);
      assert news[..added] == news;
    }

    method Push(pushes: seq<Entry>) returns (r: Reply)
      requires Valid()
      modifies this`bytes, store
      ensures Valid()
      ensures var v := Judge(store.id, old(store.entries), old(bytes), pushes, limits, latest, true);
              var refused := !held || v.TooFarAhead? || v.OverQuota? || (noPush && v.news != []);
              var fails := !refused && broken && v.news != [];
              && store.entries ==
                  (if refused || fails then old(store.entries) else AddAll(store.id, old(store.entries), pushes))
              && r == if !held then UnknownVault else if v.TooFarAhead? then Answer(BadRequest)
                      else if refused then Answer(Quota) else if fails then Failed else Answer(Ok)
    {
      if !held { return UnknownVault; }
      var v := ValidateNew(pushes, true);
      match v {
        case TooFarAhead => return Answer(BadRequest);
        case OverQuota => return Answer(Quota);
        case Accepted(news) =>
          if noPush && |news| > 0 { return Answer(Quota); }
          r := Accept(pushes, news);
      }
    }

    method Accept(pushes: seq<Entry>, news: seq<Entry>) returns (r: Reply)
      requires Valid() && held && news == LogStores.Fresh(store.id, store.entries, pushes)
      modifies this`bytes, store
      ensures Valid() && r == if broken && news != [] then Failed else Answer(Ok)
      ensures store.entries == if r.Failed? then old(store.entries) else AddAll(store.id, old(store.entries), pushes)
    {
      LogStores.AddAllFresh(store.id, store.entries, pushes);
      FreshOfFresh(store.id, store.entries, pushes);
      var ok := AddValidated(news);
      return if ok then Answer(Ok) else Failed;
    }

    // Nothing in the limits stands against the entries of U.
    ghost predicate Admits(U: set<Entry>) {
      && |U| <= limits.maxEntries
      && SumSize(U) <= limits.maxBytes
      && forall e :: e in U ==> e.ts <= latest
    }

    lemma {:induction false} AdmittedPush(U: set<Entry>, pushes: seq<Entry>)
      requires Valid() && Admits(U) && store.Contents() <= U && Elements(pushes) <= U
      ensures Judge(store.id, store.entries, bytes, pushes, limits, latest, true).Accepted?
    {
      var missing := LogStores.Fresh(store.id, store.entries, pushes);
      StoreIdDistinct(store);
      FreshIsDistinct(store.id, store.entries, pushes, LogStores.Fresh(store.id, store.entries, pushes));
      var all := store.entries + missing;
      SumSizeOf(all);
      SumSizeMonotone(Elements(all), U);
      TotalSizeAppend(store.entries, missing);
    }
  }

  lemma {:induction false} FreshOfFresh(id: Ids, es: seq<Entry>, news: seq<Entry>)
    ensures LogStores.Fresh(id, es, LogStores.Fresh(id, es, news)) == LogStores.Fresh(id, es, news)
    decreases |news|
  {
    if news != [] {
      if id(news[0]) in IdsOf(id, es) {
        FreshOfFresh(id, es, news[1..]);
      } else {
        FreshOfFresh(id, es + [news[0]], news[1..]);
      }
    }
  }
}
