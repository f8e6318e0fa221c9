/** N clients and one server at a time, over a network that delays, repeats, reorders and loses
    frames (kv/client/client.go, kv/server/server.go). What a client asks is one of the three
    exchanges a sync is made of; each step is one client's or the server's. */
module Replicas {
  import opened Entries
  import opened Canon

  // The fingerprint of a set.
  type Print = set<Entry> -> nat

  datatype Ask = Push(batch: set<Entry>) | Pull(cursor: Pos) | Probe(want: nat)

  datatype Reply = Taken | Refused | Page(entries: set<Entry>) | Same | Differs

  // Frames are matched by client and nonce.
  datatype Request = Request(client: nat, nonce: nat, ask: Ask)
  datatype Response = Response(client: nat, nonce: nat, reply: Reply)

  // own is what the client itself has sealed; nonce, the next it will use.
  datatype Replica = Replica(entries: set<Entry>, own: set<Entry>, nonce: nat)

  // Frames once sent stay on the network: any of them may arrive late, twice or never.
  datatype State = State(server: set<Entry>, clients: seq<Replica>, requests: set<Request>, responses: set<Response>)

  datatype Step =
    | Write(c: nat, es: set<Entry>)
    | Send(c: nat, ask: Ask)
    | Serve(request: Request, listing: seq<Entry>, budget: nat, accepted: bool)
    | Receive(response: Response)

  datatype World = World(id: Ids, mark: Print)

  ghost predicate Sound(w: World) { forall a, b :: w.mark(a) == w.mark(b) ==> a == b }

  predicate Initial(s: State) {
    && s.server == {} && s.requests == {} && s.responses == {}
    && forall c :: 0 <= c < |s.clients| ==> s.clients[c] == Replica({}, {}, 0)
  }

  // A client pushes what it holds and probes with what it holds; the server lists its set in
  // canonical order.
  ghost predicate Enabled(w: World, s: State, step: Step) {
    match step
    case Write(c, es) => c < |s.clients|
    case Send(c, ask) =>
      && c < |s.clients|
      && (ask.Push? ==> ask.batch <= s.clients[c].entries)
      && (ask.Probe? ==> ask.want == w.mark(s.clients[c].entries))
    case Serve(request, listing, budget, accepted) =>
      request in s.requests && Sorted(w.id, listing) && Elements(listing) == s.server
    case Receive(r) => r in s.responses && r.client < |s.clients| && r.nonce + 1 == s.clients[r.client].nonce
  }

  ghost function ReplyTo(w: World, s: State, step: Step): Reply
    requires step.Serve?
  {
    match step.request.ask
    case Push(batch) => if step.accepted then Taken else Refused
    case Pull(cursor) => Page(Elements(Canon.Page(w.id, step.listing, cursor, step.budget)))
    case Probe(want) => if want == w.mark(s.server) then Same else Differs
  }

  ghost function Answer(w: World, s: State, step: Step): Response
    requires step.Serve?
  {
    Response(step.request.client, step.request.nonce, ReplyTo(w, s, step))
  }

  ghost function After(w: World, s: State, step: Step): State
    requires Enabled(w, s, step)
  {
    match step
    case Write(c, es) =>
      var me := s.clients[c];
      s.(clients := s.clients[c := me.(entries := me.entries + es, own := me.own + es)])
    case Send(c, ask) =>
      var me := s.clients[c];
      s.(clients := s.clients[c := me.(nonce := me.nonce + 1)], requests := s.requests + {Request(c, me.nonce, ask)})
    case Serve(request, listing, budget, accepted) =>
      s.(server := if request.ask.Push? && accepted then s.server + request.ask.batch else s.server,
         responses := s.responses + {Answer(w, s, step)})
    case Receive(r) =>
      var me := s.clients[r.client];
      if r.reply.Page? then s.(clients := s.clients[r.client := me.(entries := me.entries + r.reply.entries)]) else s
  }

  // Everything any client has sealed.
  ghost function Sealed(s: State): set<Entry> { set c, e | 0 <= c < |s.clients| && e in s.clients[c].own :: e }

  ghost predicate Run(w: World, states: seq<State>, steps: seq<Step>) {
    && |states| == |steps| + 1 && Initial(states[0])
    && forall i :: 0 <= i < |steps| ==>
        Enabled(w, states[i], steps[i])
        && states[i + 1] == After(w, states[i], steps[i])
  }

  // ---------- what every step keeps ----------

  ghost predicate Good(s: State) {
    && s.server <= Sealed(s)
    && (forall c :: 0 <= c < |s.clients| ==> s.clients[c].own <= s.clients[c].entries <= Sealed(s))
    && (forall r :: r in s.requests ==>
          r.client < |s.clients| && r.nonce < s.clients[r.client].nonce
              && (r.ask.Push? ==> r.ask.batch <= s.clients[r.client].entries))
    && (forall r :: r in s.responses && r.reply.Page? ==> r.reply.entries <= s.server)
  }

  lemma {:induction false} SealedGrows(s: State, t: State)
    requires |s.clients| == |t.clients|
    requires forall c :: 0 <= c < |s.clients| ==> s.clients[c].own <= t.clients[c].own
    ensures Sealed(s) <= Sealed(t)
  {
    forall e | e in Sealed(s)
      ensures e in Sealed(t)
    {
      var c :| 0 <= c < |s.clients| && e in s.clients[c].own;
      assert e in t.clients[c].own;
    }
  }

  ghost predicate Grown(s: State, t: State) {
    && |s.clients| == |t.clients| && s.server <= t.server
    && s.requests <= t.requests && s.responses <= t.responses
    && forall c :: 0 <= c < |s.clients| ==>
         s.clients[c].entries <= t.clients[c].entries && s.clients[c].own <= t.clients[c].own
             && s.clients[c].nonce <= t.clients[c].nonce
  }

  lemma {:induction false} StepGrows(w: World, s: State, step: Step)
    requires Enabled(w, s, step)
    ensures Grown(s, After(w, s, step)) && Sealed(s) <= Sealed(After(w, s, step))
  {
    SealedGrows(s, After(w, s, step));
  }

  lemma {:induction false} StepGood(w: World, s: State, step: Step)
    requires Enabled(w, s, step) && Good(s)
    ensures Good(After(w, s, step))
  {
    var t := After(w, s, step);
    StepGrows(w, s, step);
    match step {
      case Write(c, es) =>
        forall e | e in es
          ensures e in Sealed(t)
        {
          assert e in t.clients[c].own;
        }
      case Send(c, ask) =>
      case Serve(request, listing, budget, accepted) =>
        if request.ask.Pull? {
          PageIs(w.id, listing, request.ask.cursor, budget);
          assert Answer(w, s, step).reply.entries <= s.server;
        }
      case Receive(r) =>
    }
  }

  lemma {:induction false} GrownTwice(s: State, t: State, u: State)
    requires Grown(s, t) && Grown(t, u)
    ensures Grown(s, u)
  {
  }

  // In every run every store only grows, and holds only what some client sealed.
  lemma {:induction false} RunGood(w: World, states: seq<State>, steps: seq<Step>, i: nat, j: nat)
    requires Run(w, states, steps) && i <= j < |states|
    ensures Good(states[j]) && Grown(states[i], states[j]) && Sealed(states[i]) <= Sealed(states[j])
    decreases j
  {
    if j == 0 {
      assert Sealed(states[0]) == {};
    } else {
      RunGood(w, states, steps, if i < j then i else j - 1, j - 1);
      StepGood(w, states[j - 1], steps[j - 1]);
      StepGrows(w, states[j - 1], steps[j - 1]);
      if i < j { GrownTwice(states[i], states[j - 1], states[j]); }
    }
  }

  // ---------- what a reply tells ----------

  ghost predicate SentAt(states: seq<State>, steps: seq<Step>, r: Request, i: nat) {
    && i < |steps| && i < |states| && steps[i].Send? && steps[i].c == r.client && steps[i].ask == r.ask
    && r.client < |states[i].clients| && r.nonce == states[i].clients[r.client].nonce
  }

  // A request on the network was sent.
  lemma {:induction false} RequestWasSent(w: World, states: seq<State>, steps: seq<Step>, k: nat, r: Request)
      returns (i: nat)
    requires Run(w, states, steps) && k < |states| && r in states[k].requests
    ensures i < k && SentAt(states, steps, r, i)
    decreases k
  {
    assert k > 0;
    if r in states[k - 1].requests {
      i := RequestWasSent(w, states, steps, k - 1, r);
    } else {
      i := k - 1;
    }
  }

  // A response on the network was given by the server, to a request it had.
  lemma {:induction false} ResponseWasServed(w: World, states: seq<State>, steps: seq<Step>, k: nat, r: Response)
      returns (j: nat)
    requires Run(w, states, steps) && k < |states| && r in states[k].responses
    ensures j < k && j < |steps| && steps[j].Serve? && r == Answer(w, states[j], steps[j])
    decreases k
  {
    assert k > 0;
    if r in states[k - 1].responses {
      j := ResponseWasServed(w, states, steps, k - 1, r);
    } else {
      j := k - 1;
    }
  }

  lemma {:induction false} NonceGrows(w: World, states: seq<State>, steps: seq<Step>, r: Request, i: nat, j: nat)
    requires Run(w, states, steps) && SentAt(states, steps, r, i) && i < j < |states|
    ensures r.client < |states[j].clients| && states[j].clients[r.client].nonce > r.nonce
  {
    RunGood(w, states, steps, i + 1, j);
    assert states[i + 1].clients[r.client].nonce == r.nonce + 1;
  }

  // A client never uses a nonce twice.
  lemma {:induction false} NonceOnce(w: World, states: seq<State>, steps: seq<Step>, a: Request, b: Request, i: nat,
      j: nat)
    requires Run(w, states, steps) && SentAt(states, steps, a, i) && SentAt(states, steps, b, j)
    requires a.client == b.client && a.nonce == b.nonce
    ensures i == j && a == b
  {
    if i < j { NonceGrows(w, states, steps, a, i, j); } else if j < i { NonceGrows(w, states, steps, b, j, i); }
  }

  // An answered request: client c sent ask at step i and had the reply at step k.
  ghost predicate Exchanged(states: seq<State>, steps: seq<Step>, c: nat, ask: Ask, i: nat, k: nat, reply: Reply) {
    && i < k < |steps| && |steps| < |states| && c < |states[i].clients|
    && steps[i] == Send(c, ask) && steps[k] == Receive(Response(c, states[i].clients[c].nonce, reply))
  }

  // A client that learns its probe matched knows of a moment at which the server's set was
  // exactly the one the client held when it asked.
  lemma {:induction false} MatchMeans(w: World, states: seq<State>, steps: seq<Step>, c: nat, ask: Ask, i: nat,
      k: nat) returns (j: nat)
    requires Run(w, states, steps) && Sound(w) && Exchanged(states, steps, c, ask, i, k, Same)
    ensures i < j < k && states[j].server == states[i].clients[c].entries
  {
    var n := states[i].clients[c].nonce;
    j := ResponseWasServed(w, states, steps, k, steps[k].response);
    var r := steps[j].request;
    var h := RequestWasSent(w, states, steps, j, r);
    NonceOnce(w, states, steps, r, Request(c, n, ask), h, i);
  }

  // A push the client saw taken is in the server's set from then on.
  lemma {:induction false} TakenMeans(w: World, states: seq<State>, steps: seq<Step>, c: nat, batch: set<Entry>,
      i: nat, k: nat, m: nat)
    requires Run(w, states, steps) && Exchanged(states, steps, c, Push(batch), i, k, Taken) && k <= m < |states|
    ensures batch <= states[m].server
  {
    var n := states[i].clients[c].nonce;
    var j := ResponseWasServed(w, states, steps, k, steps[k].response);
    var h := RequestWasSent(w, states, steps, j, steps[j].request);
    NonceOnce(w, states, steps, steps[j].request, Request(c, n, Push(batch)), h, i);
    RunGood(w, states, steps, j + 1, m);
  }

  // ---------- once the writes stop ----------

  ghost predicate NoWrites(steps: seq<Step>, a: nat) { forall i :: a <= i < |steps| ==> !steps[i].Write? }

  lemma {:induction false} SealedStays(w: World, states: seq<State>, steps: seq<Step>, a: nat, m: nat)
    requires Run(w, states, steps) && NoWrites(steps, a) && a <= m < |states|
    ensures |states[m].clients| == |states[a].clients|
    ensures forall c :: 0 <= c < |states[m].clients| ==> states[m].clients[c].own == states[a].clients[c].own
    ensures Sealed(states[m]) == Sealed(states[a])
    decreases m
  {
    if m > a {
      SealedStays(w, states, steps, a, m - 1);
      assert states[m] == After(w, states[m - 1], steps[m - 1]);
      SealedGrows(states[m], states[m - 1]);
      SealedGrows(states[m - 1], states[m]);
    }
  }

  // A sync of client c, begun at or after step a and done before step m: its last probe matched.
  ghost predicate Synced(states: seq<State>, steps: seq<Step>, c: nat, a: nat, m: nat) {
    exists ask, i: nat, k: nat :: a <= i && k < m && Exchanged(states, steps, c, ask, i, k, Same)
  }

  // One completed sync of a client after the writes stopped leaves its own entries on the server.
  lemma {:induction false} SyncDelivers(w: World, states: seq<State>, steps: seq<Step>, c: nat, a: nat, m: nat)
    requires Run(w, states, steps) && Sound(w) && NoWrites(steps, a) && a <= m < |states|
    requires c < |states[m].clients| && Synced(states, steps, c, a, m)
    ensures states[m].clients[c].own <= states[m].server
  {
    var ask, i: nat, k: nat :| a <= i && k < m && Exchanged(states, steps, c, ask, i, k, Same);
    var j := MatchMeans(w, states, steps, c, ask, i, k);
    SealedStays(w, states, steps, a, i);
    SealedStays(w, states, steps, a, m);
    RunGood(w, states, steps, i, i);
    RunGood(w, states, steps, j, m);
  }

  // One completed sync per client: the server holds the union of all that was ever sealed.
  lemma {:induction false} ServerHoldsUnion(w: World, states: seq<State>, steps: seq<Step>, a: nat, m: nat)
    requires Run(w, states, steps) && Sound(w) && NoWrites(steps, a) && a <= m < |states|
    requires forall c :: 0 <= c < |states[m].clients| ==> Synced(states, steps, c, a, m)
    ensures states[m].server == Sealed(states[m])
  {
    RunGood(w, states, steps, m, m);
    forall e | e in Sealed(states[m])
      ensures e in states[m].server
    {
      var c :| 0 <= c < |states[m].clients| && e in states[m].clients[c].own;
      SyncDelivers(w, states, steps, c, a, m);
    }
  }

  // And a second leaves every client holding it too.
  lemma {:induction false} EveryClientHoldsUnion(w: World, states: seq<State>, steps: seq<Step>, a: nat, m: nat, z: nat)
    requires Run(w, states, steps) && Sound(w) && NoWrites(steps, a) && a <= m <= z < |states|
    requires forall c :: 0 <= c < |states[m].clients| ==> Synced(states, steps, c, a, m)
    requires forall c :: 0 <= c < |states[z].clients| ==> Synced(states, steps, c, m, z)
    ensures states[z].server == Sealed(states[z])
    ensures forall c :: 0 <= c < |states[z].clients| ==> states[z].clients[c].entries == Sealed(states[z])
  {
    SealedStays(w, states, steps, a, m);
    SealedStays(w, states, steps, a, z);
    ServerHoldsUnion(w, states, steps, a, m);
    RunGood(w, states, steps, m, z);
    forall c | 0 <= c < |states[z].clients|
      ensures states[z].clients[c].entries == Sealed(states[z])
    {
      assert Synced(states, steps, c, m, z);
      var ask, i: nat, k: nat :| m <= i && k < z && Exchanged(states, steps, c, ask, i, k, Same);
      var j := MatchMeans(w, states, steps, c, ask, i, k);
      RunGood(w, states, steps, m, j);
      RunGood(w, states, steps, i, z);
    }
  }
}
