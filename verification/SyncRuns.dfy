/** One client's sync as a piece of a run of the whole network: what `Syncs.Syncer.Sync` said to the
    server is a run of `Replicas`, so what holds of every run holds of it. */
module SyncRuns {
  import opened Entries
  import Canon
  import opened Talks
  import opened Replicas
  import Syncs

  // ---------- a run and more steps ----------

  // The run goes on from states and steps to more of both.
  ghost predicate Onward(w: World, states: seq<State>, steps: seq<Step>, more: seq<State>, did: seq<Step>) {
    && Run(w, states, steps) && Run(w, more, did) && states <= more && steps <= did
    && NoWrites(did, |steps|)
  }

  lemma {:induction false} OneMore(w: World, states: seq<State>, steps: seq<Step>, step: Step)
    requires Run(w, states, steps) && Enabled(w, states[|steps|], step)
    ensures Run(w, states + [After(w, states[|steps|], step)], steps + [step])
  {
    var more, did := states + [After(w, states[|steps|], step)], steps + [step];
    forall i | 0 <= i < |did|
      ensures Enabled(w, more[i], did[i]) && more[i + 1] == After(w, more[i], did[i])
    {
      if i < |steps| { assert more[i] == states[i] && more[i + 1] == states[i + 1] && did[i] == steps[i]; }
    }
  }

  lemma {:induction false} OnwardTwice(w: World, a: seq<State>, p: seq<Step>, b: seq<State>, q: seq<Step>,
      c: seq<State>, r: seq<Step>)
    requires Onward(w, a, p, b, q) && Onward(w, b, q, c, r)
    ensures Onward(w, a, p, c, r)
  {
  }

  lemma {:induction false} SyncedLater(w: World, a: seq<State>, p: seq<Step>, b: seq<State>, q: seq<Step>, c: nat,
      from: nat, to: nat, later: nat)
    requires Onward(w, a, p, b, q) && Synced(a, p, c, from, to) && to <= later
    ensures Synced(b, q, c, from, later)
  {
    var ask, i: nat, k: nat :| from <= i && k < to && Exchanged(a, p, c, ask, i, k, Same);
    assert Exchanged(b, q, c, ask, i, k, Same);
  }

  // ---------- one exchange ----------

  // A client's and the server's sets in a state of the network.
  ghost predicate Stands(s: State, c: nat, at: Sets) {
    c < |s.clients| && s.clients[c].entries == at.mine && s.server == at.theirs
  }

  // Nobody else's set has changed.
  ghost predicate OthersKeep(s: State, t: State, c: nat) {
    |s.clients| == |t.clients| && forall d :: 0 <= d < |s.clients| && d != c ==>
        t.clients[d].entries == s.clients[d].entries
  }

  ghost function AskOf(w: World, at: Sets, x: Exchange): Ask {
    match x.said
    case Pushed(batch, _) => Push(batch)
    case Pulled(cursor, _) => Pull(cursor)
    case Probed(_) => Probe(w.mark(at.mine))
  }

  ghost function ReplyOf(w: World, x: Exchange): Reply {
    match x.said
    case Pushed(_, taken) => if taken then Taken else Refused
    case Pulled(cursor, budget) => Page(Canon.Elements(Canon.Page(w.id, x.listing, cursor, budget)))
    case Probed(same) => if same then Same else Differs
  }

  // The request sent, the answer given, and the answer received: one the client does not keep is one
  // that never reached it.
  ghost function Sending(w: World, c: nat, at: Sets, x: Exchange): Step { Send(c, AskOf(w, at, x)) }

  ghost function Serving(w: World, s: State, c: nat, at: Sets, x: Exchange): Step
    requires c < |s.clients|
  {
    Serve(Request(c, s.clients[c].nonce, AskOf(w, at, x)), x.listing,
      if x.said.Pulled? then x.said.budget else 0, x.said.Pushed? && x.said.taken)
  }

  ghost function Receiving(w: World, s: State, c: nat, x: Exchange): Step
    requires c < |s.clients|
  {
    Receive(Response(c, s.clients[c].nonce, ReplyOf(w, x)))
  }

  lemma {:induction false} Served(w: World, s: State, c: nat, at: Sets, x: Exchange)
    requires Sound(w) && Stands(s, c, at) && May(w.id, at, x)
    ensures Enabled(w, s, Sending(w, c, at, x))
    ensures var t := After(w, s, Sending(w, c, at, x));
            && Enabled(w, t, Serving(w, s, c, at, x))
            && Answer(w, t, Serving(w, s, c, at, x)) == Response(c, s.clients[c].nonce, ReplyOf(w, x))
            && var u := After(w, t, Serving(w, s, c, at, x));
            && OthersKeep(s, u, c) && u.clients[c].entries == at.mine && u.server == Moved(w.id, at, x).theirs
            && Enabled(w, u, Receiving(w, s, c, x))
  {
  }

  lemma {:induction false} Received(w: World, s: State, c: nat, at: Sets, x: Exchange, u: State)
    requires c < |s.clients| && OthersKeep(s, u, c) && u.clients[c].entries == at.mine
             && u.server == Moved(w.id, at, x).theirs
    requires Enabled(w, u, Receiving(w, s, c, x))
    ensures !x.heard ==> Stands(u, c, Moved(w.id, at, x))
    ensures x.heard ==> var v := After(w, u, Receiving(w, s, c, x));
            Stands(v, c, Moved(w.id, at, x)) && OthersKeep(s, v, c)
  {
  }

  // Every exchange is a piece of a run.
  lemma {:induction false} ExchangeRuns(w: World, states: seq<State>, steps: seq<Step>, c: nat, at: Sets, x: Exchange)
    returns (more: seq<State>, did: seq<Step>)
    requires Run(w, states, steps) && Sound(w) && Stands(states[|steps|], c, at) && May(w.id, at, x)
    ensures Onward(w, states, steps, more, did)
    ensures Stands(more[|did|], c, Moved(w.id, at, x)) && OthersKeep(states[|steps|], more[|did|], c)
    ensures x.said == Probed(true) && x.heard ==> Synced(more, did, c, |steps|, |did|)
  {
    var s := states[|steps|];
    var send, serve, receive := Sending(w, c, at, x), Serving(w, s, c, at, x), Receiving(w, s, c, x);
    Served(w, s, c, at, x);
    OneMore(w, states, steps, send);
    var t := After(w, s, send);
    OneMore(w, states + [t], steps + [send], serve);
    var u := After(w, t, serve);
    Received(w, s, c, at, x, u);
    more, did := states + [t] + [u], steps + [send] + [serve];
    if x.heard {
      OneMore(w, more, did, receive);
      more, did := more + [After(w, u, receive)], did + [receive];
      if x.said == Probed(true) {
        assert more[|steps|] == s && did[|steps|] == send && did[|steps| + 2] == receive;
        assert Exchanged(more, did, c, send.ask, |steps|, |steps| + 2, Same);
      }
    }
  }

  // ---------- one sync ----------

  // What a client and its server said to each other is a piece of a run, and if its last probe
  // matched, a completed sync of that client.
  lemma {:induction false} TalkRuns(w: World, states: seq<State>, steps: seq<Step>, c: nat, at: Sets,
      talk: seq<Exchange>, to: Sets)
    returns (more: seq<State>, did: seq<Step>)
    requires Run(w, states, steps) && Sound(w) && Stands(states[|steps|], c, at) && Tells(w.id, at, talk, to)
    ensures Onward(w, states, steps, more, did)
    ensures Stands(more[|did|], c, to) && OthersKeep(states[|steps|], more[|did|], c)
    ensures Agreed(talk) ==> Synced(more, did, c, |steps|, |did|)
    decreases |talk|
  {
    more, did := states, steps;
    if talk != [] {
      var mid, sofar := ExchangeRuns(w, states, steps, c, at, talk[0]);
      more, did := TalkRuns(w, mid, sofar, c, Moved(w.id, at, talk[0]), talk[1..], to);
      OnwardTwice(w, states, steps, mid, sofar, more, did);
      if |talk| == 1 && Agreed(talk) {
        SyncedLater(w, mid, sofar, more, did, c, |steps|, |sofar|, |did|);
      } else if Agreed(talk) {
        SyncedEarlier(more, did, c, |sofar|, |steps|, |did|);
      }
    }
  }

  lemma {:induction false} SyncedEarlier(states: seq<State>, steps: seq<Step>, c: nat, from: nat, earlier: nat, to: nat)
    requires Synced(states, steps, c, from, to) && earlier <= from
    ensures Synced(states, steps, c, earlier, to)
  {
    var ask, i: nat, k: nat :| from <= i && k < to && Exchanged(states, steps, c, ask, i, k, Same);
    assert Exchanged(states, steps, c, ask, i, k, Same);
  }

  // ---------- many syncs ----------

  // One client's sync and all that was said in it.
  datatype Turn = Turn(c: nat, talk: seq<Exchange>)

  // The server's set and every client's.
  datatype Fleet = Fleet(server: set<Entry>, clients: seq<set<Entry>>)

  ghost predicate Shows(s: State, f: Fleet) {
    && s.server == f.server && |s.clients| == |f.clients|
    && forall c :: 0 <= c < |f.clients| ==> s.clients[c].entries == f.clients[c]
  }

  ghost predicate SyncStep(id: Canon.Ids, f: Fleet, turn: Turn, g: Fleet) {
    && turn.c < |f.clients| && |g.clients| == |f.clients| && g.clients == f.clients[turn.c := g.clients[turn.c]]
    && Tells(id, Sets(f.clients[turn.c], f.server), turn.talk, Sets(g.clients[turn.c], g.server))
    && Agreed(turn.talk)
  }

  ghost predicate Syncing(id: Canon.Ids, fleets: seq<Fleet>, turns: seq<Turn>) {
    && |fleets| == |turns| + 1
    && forall i :: 0 <= i < |turns| ==> SyncStep(id, fleets[i], turns[i], fleets[i + 1])
  }

  // A sync of a real client with the real server is such a step.
  method SyncTurn(s: Syncs.Syncer, c: nat, ghost f: Fleet) returns (err: Syncs.Err, ghost turn: Turn, ghost g: Fleet)
    requires s.Valid() && Syncs.Sound(s.store.id, s.store.hash)
    requires c < |f.clients| && s.Now() == Sets(f.clients[c], f.server)
    modifies s`recent, s`registered, s`everRegistered, s`made, s`began, s`talk, s`fates
    modifies s.store, s.relay`held, s.relay`bytes, s.relay.store
    ensures s.Valid() && turn.c == c && g == Fleet(s.Now().theirs, f.clients[c := s.Now().mine])
    ensures Tells(s.store.id, Sets(f.clients[c], f.server), turn.talk, s.Now())
    ensures err == Syncs.NoErr ==> SyncStep(s.store.id, f, turn, g)
  {
    var rounds;
    err, rounds := s.Sync();
    turn, g := Turn(c, s.talk), Fleet(s.Now().theirs, f.clients[c := s.Now().mine]);
  }

  // Any syncs, one after another, from any state of the network, are a run that goes on from it.
  lemma {:induction false} SyncsRun(w: World, states: seq<State>, steps: seq<Step>, fleets: seq<Fleet>,
      turns: seq<Turn>)
    returns (more: seq<State>, did: seq<Step>)
    requires Run(w, states, steps) && Sound(w) && Syncing(w.id, fleets, turns) && Shows(states[|steps|], fleets[0])
    ensures Onward(w, states, steps, more, did) && Shows(more[|did|], fleets[|turns|])
    ensures forall i :: 0 <= i < |turns| ==> Synced(more, did, turns[i].c, |steps|, |did|)
    decreases |turns|
  {
    more, did := states, steps;
    if turns != [] {
      var n := |turns| - 1;
      var turn, f, g := turns[n], fleets[n], fleets[n + 1];
      var mid, sofar := SyncsRun(w, states, steps, fleets[..n + 1], turns[..n]);
      assert SyncStep(w.id, f, turn, g);
      more, did := TalkRuns(w, mid, sofar, turn.c, Sets(f.clients[turn.c], f.server), turn.talk,
          Sets(g.clients[turn.c], g.server));
      OnwardTwice(w, states, steps, mid, sofar, more, did);
      forall i | 0 <= i < |turns|
        ensures Synced(more, did, turns[i].c, |steps|, |did|)
      {
        if i < n {
          assert turns[..n][i] == turns[i];
          SyncedLater(w, mid, sofar, more, did, turns[i].c, |steps|, |sofar|, |did|);
        } else {
          SyncedEarlier(more, did, turn.c, |sofar|, |steps|, |did|);
        }
      }
    }
  }

  // Every client's sync is among the turns.
  predicate Visits(turns: seq<Turn>, c: nat) { exists i :: 0 <= i < |turns| && turns[i].c == c }

  ghost predicate VisitsAll(turns: seq<Turn>, clients: nat) { forall c: nat :: c < clients ==> Visits(turns, c) }

  // From any state of the network, however many messages are lost or late in it: once every client
  // has completed a sync and then another, every store holds all that was ever written.
  lemma {:induction false} TwoSyncsEach(w: World, states: seq<State>, steps: seq<Step>, fleets: seq<Fleet>,
      turns: seq<Turn>, half: nat)
    requires Run(w, states, steps) && Sound(w) && Syncing(w.id, fleets, turns) && Shows(states[|steps|], fleets[0])
    requires half <= |turns|
    requires VisitsAll(turns[..half], |fleets[0].clients|) && VisitsAll(turns[half..], |fleets[0].clients|)
    ensures var last := fleets[|turns|];
            && |last.clients| == |fleets[0].clients| && last.server == Sealed(states[|steps|])
            && forall c :: 0 <= c < |last.clients| ==> last.clients[c] == last.server
  {
    var mid, sofar := SyncsRun(w, states, steps, fleets[..half + 1], turns[..half]);
    var more, did := SyncsRun(w, mid, sofar, fleets[half..], turns[half..]);
    OnwardTwice(w, states, steps, mid, sofar, more, did);
    SealedStays(w, more, did, |steps|, |did|);
    SealedStays(w, mid, sofar, |steps|, |sofar|);
    RunGood(w, more, did, |steps|, |did|);
    forall c: nat | c < |fleets[0].clients|
      ensures Synced(more, did, c, |steps|, |sofar|) && Synced(more, did, c, |sofar|, |did|)
    {
      assert Visits(turns[..half], c) && Visits(turns[half..], c);
      SyncedLater(w, mid, sofar, more, did, c, |steps|, |sofar|, |sofar|);
    }
    EveryClientHoldsUnion(w, more, did, |steps|, |sofar|, |did|);
  }
}
