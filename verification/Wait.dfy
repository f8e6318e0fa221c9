/** WAIT, the long poll (kv/server/server.go): a frame held until its vault's set changes. The
    vault's steps are a state machine, its methods are proved to take those steps, and no wakeup is
    lost in any run of them. */
module Waits {
  import opened Entries

  type Print = set<Entry> -> nat

  ghost predicate Sound(mark: Print) { forall a, b :: mark(a) == mark(b) ==> a == b }

  datatype Answer = Ok | Differ | Unknown | Held | None

  // ---------- the steps a vault's lock admits ----------

  // A held WAIT: the hash it compared and the set whose hash it was, how many channels the vault
  // had closed when it took its own, and whether it has been answered.
  datatype Waiting = Waiting(want: nat, seen: set<Entry>, at: nat, answered: bool)

  // A vault and the WAITs held on it; version counts the channels closed.
  datatype State = State(entries: set<Entry>, gone: bool, closed: bool, draining: bool, version: nat,
      waits: seq<Waiting>)

  const EMPTY := State({}, false, false, false, 0, [])

  // A PUSH or the owner's AddEntries, which the store may refuse; the vault's end; Drain; Close; a
  // WAIT that arrives; and the select of the i-th held one returning, late when its timer or its
  // client made it.
  datatype Step = Push(news: set<Entry>, fails: bool) | End | Drain | Close | Arrive(want: nat) | Wake(i: nat,
      late: bool)

  // Nothing wakes it but time and its own client.
  predicate Sleeps(s: State, w: Waiting) { !w.answered && w.at == s.version && !s.draining }

  function AnswerTo(mark: Print, s: State, step: Step): Answer {
    match step
    case Arrive(want) =>
      if s.gone then Unknown else if s.closed then Ok else if mark(s.entries) != want then Differ else Held
    case Wake(i, late) =>
      if i >= |s.waits| || s.waits[i].answered || (Sleeps(s, s.waits[i]) && !late) then None
      else if s.gone then Unknown
      else if !s.closed && mark(s.entries) != s.waits[i].want then Differ
      else Ok
    case _ => None
  }

  // The store of a vault with a log refuses every entry once it is closed.
  function Added(logged: bool, s: State, news: set<Entry>, fails: bool): State {
    if s.gone || fails || (logged && s.closed) || news <= s.entries then s
    else s.(entries := s.entries + news, version := s.version + 1)
  }

  function After(mark: Print, logged: bool, s: State, step: Step): State {
    match step
    case Push(news, fails) => Added(logged, s, news, fails)
    case End => if s.gone then s else s.(gone := true, version := s.version + 1)
    case Drain => s.(draining := true)
    case Close => s.(draining := true, closed := true)
    case Arrive(want) =>
      if AnswerTo(mark, s, step) == Held then s.(waits := s.waits + [Waiting(want, s.entries, s.version, false)]) else s
    case Wake(i, late) =>
      if AnswerTo(mark, s, step) == None then s else s.(waits := s.waits[i := s.waits[i].(answered := true)])
  }

  ghost predicate IsRun(mark: Print, logged: bool, states: seq<State>, steps: seq<Step>) {
    && |states| == |steps| + 1 && states[0] == EMPTY
    && forall k :: 0 <= k < |steps| ==> states[k + 1] == After(mark, logged, states[k], steps[k])
  }

  // ---------- every run ----------

  // A WAIT on the open channel compared the set as it is; on a closed one there is more to see.
  ghost predicate Awake(mark: Print, s: State, w: Waiting) {
    && w.want == mark(w.seen) && w.seen <= s.entries && w.at <= s.version
    && if w.at == s.version then w.seen == s.entries && !s.gone else s.gone || w.seen < s.entries
  }

  ghost predicate Good(mark: Print, s: State) { forall i :: 0 <= i < |s.waits| ==> Awake(mark, s, s.waits[i]) }

  lemma {:induction false} StepGood(mark: Print, logged: bool, s: State, step: Step)
    requires Good(mark, s)
    ensures var t := After(mark, logged, s, step); Good(mark, t) && s.entries <= t.entries && (s.gone ==> t.gone)
  {
    var t := After(mark, logged, s, step);
    forall i | 0 <= i < |t.waits|
      ensures Awake(mark, t, t.waits[i])
    {
      if i < |s.waits| { assert Awake(mark, s, s.waits[i]); }
    }
  }

  // In every run a set only grows, an end is final, and every WAIT is right about its channel.
  lemma {:induction false} RunGood(mark: Print, logged: bool, states: seq<State>, steps: seq<Step>, i: nat, j: nat)
    requires IsRun(mark, logged, states, steps) && i <= j < |states|
    ensures Good(mark, states[j]) && states[i].entries <= states[j].entries && (states[i].gone ==> states[j].gone)
    decreases j
  {
    if j > 0 {
      if i < j {
        RunGood(mark, logged, states, steps, i, j - 1);
      } else {
        RunGood(mark, logged, states, steps, j - 1, j - 1);
      }
      StepGood(mark, logged, states[j - 1], steps[j - 1]);
    }
  }

  // What a WAIT is answered as it arrives, whatever came before: the hash of a client's own set is
  // held exactly when it is the vault's set, and told Differ exactly when it is not.
  lemma {:induction false} ArrivalMeans(mark: Print, logged: bool, states: seq<State>, steps: seq<Step>, k: nat,
      mine: set<Entry>)
    requires IsRun(mark, logged, states, steps) && Sound(mark) && k < |states|
    ensures var s, a := states[k], AnswerTo(mark, states[k], Arrive(mark(mine)));
            && (a == Unknown <==> s.gone) && (a == Ok <==> !s.gone && s.closed)
            && (a == Differ <==> !s.gone && !s.closed && mine != s.entries)
            && (a == Held <==> !s.gone && !s.closed && mine == s.entries)
  {
  }

  // And what a held one is: it stays held exactly while its time runs, nothing drains, its vault lives
  // and its set is the one it compared; an answer says which of these it was.
  lemma {:induction false} WakeMeans(mark: Print, logged: bool, states: seq<State>, steps: seq<Step>, k: nat, i: nat,
      late: bool)
    requires IsRun(mark, logged, states, steps) && Sound(mark) && k < |states| && i < |states[k].waits|
    requires !states[k].waits[i].answered
    ensures var s, seen, a := states[k], states[k].waits[i].seen, AnswerTo(mark, states[k], Wake(i, late));
            && (a == None <==> !late && !s.draining && !s.gone && seen == s.entries)
            && (a == Unknown <==> s.gone)
            && (a == Differ <==> !s.gone && !s.closed && seen != s.entries)
            && a != Held
  {
    RunGood(mark, logged, states, steps, k, k);
    assert Awake(mark, states[k], states[k].waits[i]);
  }

  // No lost wakeup: while a WAIT sleeps, in any interleaving of the steps, its vault has not ended
  // and its set is exactly the one it compared.
  lemma {:induction false} NoLostWakeup(mark: Print, logged: bool, states: seq<State>, steps: seq<Step>, k: nat, i: nat)
    requires IsRun(mark, logged, states, steps) && k < |states| && i < |states[k].waits|
             && Sleeps(states[k], states[k].waits[i])
    ensures var s := states[k]; !s.gone && s.waits[i].seen == s.entries && s.waits[i].want == mark(s.entries)
  {
    RunGood(mark, logged, states, steps, k, k);
    assert Awake(mark, states[k], states[k].waits[i]);
  }

  // A WAIT its channel woke is told that the set differs or that the vault ended, never that nothing
  // changed, unless the server closed.
  lemma {:induction false} WokenIsTold(mark: Print, logged: bool, states: seq<State>, steps: seq<Step>, k: nat,
      i: nat, late: bool)
    requires IsRun(mark, logged, states, steps) && Sound(mark) && k < |states| && i < |states[k].waits|
    requires states[k].waits[i].at < states[k].version && !states[k].waits[i].answered
    ensures var s := states[k];
            AnswerTo(mark, s, Wake(i, late)) == if s.gone then Unknown else if s.closed then Ok else Differ
  {
    RunGood(mark, logged, states, steps, k, k);
    assert Awake(mark, states[k], states[k].waits[i]);
  }

  // One answered OK by a server that has not closed was answered of the very set it compared.
  lemma {:induction false} OkMeansUnchanged(mark: Print, logged: bool, states: seq<State>, steps: seq<Step>, k: nat,
      i: nat, late: bool)
    requires IsRun(mark, logged, states, steps) && Sound(mark) && k < |states| && i < |states[k].waits|
    requires AnswerTo(mark, states[k], Wake(i, late)) == Ok && !states[k].closed
    ensures !states[k].gone && states[k].entries == states[k].waits[i].seen
  {
    RunGood(mark, logged, states, steps, k, k);
    assert Awake(mark, states[k], states[k].waits[i]);
  }

  // ---------- the vault ----------

  // A channel that only ever closes.
  class Channel {
    var closed: bool

    constructor ()
      ensures !closed
    {
      closed := false;
    }
  }

  // A held WAIT: the hash it compared, and the channel it took under the same lock.
  class Waiter {
    const want: nat
    const changed: Channel
    ghost const seen: set<Entry>
    ghost const at: nat
    var answered: bool

    constructor (want: nat, changed: Channel, ghost seen: set<Entry>, ghost at: nat)
      ensures this.want == want && this.changed == changed && this.seen == seen && this.at == at && !answered
    {
      this.want, this.changed, this.seen, this.at, answered := want, changed, seen, at, false;
    }

    ghost function Now(): Waiting
      reads this
    {
      Waiting(want, seen, at, answered)
    }
  }

  class Vault {
    const mark: Print
    const logged: bool
    const closing: Channel   // the server's
    var entries: set<Entry>
    var gone: bool
    var closed: bool
    var changed: Channel
    var waiters: seq<Waiter>
    ghost var version: nat
    ghost var channels: set<Channel>   // every channel the vault has had

    ghost function Now(): State
      reads this, closing, waiters
    {
      State(entries, gone, closed, closing.closed, version,
          seq(|waiters|, i requires 0 <= i < |waiters| reads this, waiters => waiters[i].Now()))
    }

    // The channel a waiter took is the open one if none was closed since, and a closed one if one was.
    ghost predicate Counted(w: Waiter)
      reads this, w.changed
    {
      w.changed in channels && w.at <= version && if w.at == version then w.changed == changed else w.changed.closed
    }

    ghost predicate Valid()
      reads this, channels, waiters
    {
      && changed in channels && closing !in channels && !changed.closed
      && (forall i :: 0 <= i < |waiters| ==> waiters[i].changed in channels && Counted(waiters[i]))
      && (forall i, j :: 0 <= i < j < |waiters| ==> waiters[i] != waiters[j])
    }

    constructor (mark: Print, logged: bool)
      ensures Valid() && this.mark == mark && this.logged == logged && Now() == EMPTY
      ensures fresh(closing) && fresh(channels) && waiters == []
    {
      var c := new Channel();
      var d := new Channel();
      this.mark, this.logged, closing, changed := mark, logged, c, d;
      entries, gone, closed, waiters, channels, version := {}, false, false, [], {d}, 0;
    }

    // notifyLocked
    method Notify()
      requires Valid()
      modifies this`changed, this`channels, this`version, changed
      ensures Valid() && fresh(channels - old(channels)) && Now() == old(Now()).(version := old(version) + 1)
    {
      changed.closed := true;
      changed := new Channel();
      channels, version := channels + {changed}, version + 1;
    }

    // addValidatedLocked, for a PUSH and for the owner's AddEntries, the store failing or not.
    method Add(news: set<Entry>, fails: bool)
      requires Valid()
      modifies this`entries, this`changed, this`channels, this`version, channels
      ensures Valid() && fresh(channels - old(channels)) && Now() == After(mark, logged, old(Now()), Push(news, fails))
    {
      if gone { return; }
      var missing := news - entries;
      if fails || (logged && closed) { return; }
      entries := entries + missing;
      assert entries == old(entries) + news;
      if missing != {} { Notify(); } else { assert forall e :: e in news ==> e in old(entries) || e in missing; }
    }

    // endLocked
    method End()
      requires Valid()
      modifies this`gone, this`changed, this`channels, this`version, channels
      ensures Valid() && fresh(channels - old(channels)) && Now() == After(mark, logged, old(Now()), Step.End)
    {
      if gone { return; }
      gone := true;
      Notify();
    }

    method Drain()
      requires Valid()
      modifies closing
      ensures Valid() && Now() == After(mark, logged, old(Now()), Step.Drain)
    {
      closing.closed := true;
    }

    // Close drains before it closes the store.
    method Close()
      requires Valid()
      modifies this`closed, closing
      ensures Valid() && Now() == After(mark, logged, old(Now()), Step.Close)
    {
      closing.closed := true;
      closed := true;
    }

    // handleWait up to its select, under the lock.
    method Arrive(want: nat) returns (r: Answer)
      requires Valid()
      modifies this`waiters
      ensures Valid() && (forall w :: w in waiters && w !in old(waiters) ==> fresh(w))
      ensures r == AnswerTo(mark, old(Now()), Step.Arrive(want))
              && Now() == After(mark, logged, old(Now()), Step.Arrive(want))
    {
      if gone { return Unknown; }
      if closed { return Ok; }
      if mark(entries) != want { return Differ; }
      var w := new Waiter(want, changed, entries, version);
      waiters := waiters + [w];
      r := Held;
    }

    predicate Parked(w: Waiter)
      reads this, w, w.changed, closing
    {
      !w.answered && !w.changed.closed && !closing.closed
    }

    // The select returned, and the rest of handleWait under the lock.
    method Resume(i: nat, late: bool) returns (r: Answer)
      requires Valid()
      modifies waiters
      ensures Valid()
      ensures r == AnswerTo(mark, old(Now()), Wake(i, late)) && Now() == After(mark, logged, old(Now()), Wake(i, late))
    {
      if i >= |waiters| { return None; }
      var w := waiters[i];
      assert Counted(w) && Now().waits[i] == w.Now();
      if w.answered || (Parked(w) && !late) { return None; }
      w.answered := true;
      if gone { return Unknown; }
      if !closed && mark(entries) != w.want { return Differ; }
      r := Ok;
    }

    method Take(step: Step) returns (r: Answer)
      requires Valid()
      modifies this, closing, channels, waiters
      ensures Valid() && fresh(channels - old(channels)) && forall w :: w in waiters && w !in old(waiters) ==> fresh(w)
      ensures r == AnswerTo(mark, old(Now()), step) && Now() == After(mark, logged, old(Now()), step)
    {
      r := None;
      match step {
        case Push(news, fails) => Add(news, fails);
        case End => End();
        case Drain => Drain();
        case Close => Close();
        case Arrive(want) => r := Arrive(want);
        case Wake(i, late) => r := Resume(i, late);
      }
    }
  }

  lemma {:induction false} RunMore(mark: Print, logged: bool, states: seq<State>, steps: seq<Step>, k: nat, next: State)
    requires k < |steps| && IsRun(mark, logged, states, steps[..k]) && next == After(mark, logged, states[k], steps[k])
    ensures IsRun(mark, logged, states + [next], steps[..k + 1])
  {
  }

  // Any steps, taken by a vault: a run of the machine, and its answers.
  method Run(mark: Print, logged: bool, steps: seq<Step>) returns (answers: seq<Answer>, ghost states: seq<State>)
    ensures IsRun(mark, logged, states, steps)
    ensures |answers| == |steps| && forall k :: 0 <= k < |steps| ==> answers[k] == AnswerTo(mark, states[k], steps[k])
  {
    var v := new Vault(mark, logged);
    answers, states := [], [EMPTY];
    while |answers| < |steps|
      invariant |answers| <= |steps| && v.Valid() && v.mark == mark && v.logged == logged
      invariant fresh(v) && fresh(v.closing) && fresh(v.channels) && forall w :: w in v.waiters ==> fresh(w)
      invariant IsRun(mark, logged, states, steps[..|answers|]) && v.Now() == states[|answers|]
      invariant forall k :: 0 <= k < |answers| ==> answers[k] == AnswerTo(mark, states[k], steps[k])
    {
      var r := v.Take(steps[|answers|]);
      RunMore(mark, logged, states, steps, |answers|, v.Now());
      answers, states := answers + [r], states + [v.Now()];
    }
    assert steps[..|answers|] == steps;
  }
}
