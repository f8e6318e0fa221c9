/** A server and its data directory, started, used, killed and started again: whatever it is made to
    do is a run of the machine. */
module VaultRuns {
  import opened VaultSpecs
  import opened Vaults

  function Found(frames: seq<VaultState>): (fs: seq<Frame>)
    ensures |fs| == |frames| && forall i :: 0 <= i < |fs| ==> fs[i] == frames[i].Found()
  {
    seq(|frames|, i requires 0 <= i < |frames| => frames[i].Found())
  }

  // The operation with the orders its maps and its directory were visited in.
  function Ordered(op: Op, listed: seq<Vid>, order: seq<Vid>): Op {
    match op
    case Register(vid, key, ephemeral, authentic, now, _) => Op.Register(vid, key, ephemeral, authentic, now, order)
    case Launch(now, _, _) => Op.Launch(now, listed, order)
    case _ => op
  }

  ghost predicate Like(op: Op, did: Op) { exists listed, order :: did == Ordered(op, listed, order) }

  class System {
    const config: Config
    const disk: Disk
    var server: Server?
    var frames: seq<VaultState>   // sync frames past their lookup

    function Now(): State
      reads this, disk, server
    {
      if server == null || server.disk != disk then Off(disk.Now()) else On(server.Now(), Found(frames))
    }

    ghost predicate Valid()
      reads this, server, if server == null then {} else server.all
    {
      server != null ==>
        && server.disk == disk && server.config == config && server.Valid()
        && forall i :: 0 <= i < |frames| ==> frames[i] in server.all
    }

    constructor (config: Config)
      ensures Valid() && this.config == config && server == null && frames == [] && Now() == Off(NO_DIR) && fresh(disk)
    {
      this.config, server, frames := config, null, [];
      disk := new Disk();
    }

    method Begin(op: Op)
      requires Valid()
      modifies disk
      ensures Valid() && Now() == Begun(old(Now()), op)
    {
      disk.trail := [disk.image];
      if op.Faults? { disk.unwritable, disk.stuck := op.unwritable, op.stuck; }
    }

    // An operation on a frame past its lookup.
    method OnFrame(op: Op) returns (answer: Answer)
      requires Valid() && server != null && (op.Expire? || op.HandleDrop? || op.Exchange?)
      modifies server, server.all, disk`image, disk`trail
      ensures Valid() && server.all == old(server.all) && Result(Now(), answer) == Operated(config, old(Now()), op)
    {
      if op.frame >= |frames| { return Lost; }
      var st := frames[op.frame];
      match op {
        case Expire(_, now) => answer := server.ExpireIfDue(st, now);
        case HandleDrop(_) => answer := server.HandleDrop(st);
        case Exchange(_) => answer := server.Exchange(st);
      }
    }

    method Find(vid: Vid, key: Key) returns (answer: Answer)
      requires Valid() && server != null
      modifies this`frames
      ensures Valid() && Result(Now(), answer) == Operated(config, old(Now()), Op.Lookup(vid, key))
    {
      var st;
      answer, st := server.Lookup(vid, key);
      if st != null {
        frames := frames + [st];
        assert Found(frames) == Found(old(frames)) + [st.Found()];
      }
    }

    // One operation of a running server, and the order a sweep of it visited the vaults in.
    method Operate(op: Op) returns (answer: Answer, ghost order: seq<Vid>)
      requires Valid() && server != null
      modifies this`frames, server, server.all, disk`image, disk`trail
      ensures Valid() && old(server.all) <= server.all && fresh(server.all - old(server.all))
      ensures Result(Now(), answer) == Operated(config, old(Now()), Ordered(op, [], order))
      ensures op.Register? && Sweeps(old(Now()).w, op.vid, op.authentic) ==>
                Visits(order, old(Now()).w.vaults.Keys, Swept(config, old(Now()).w, order, op.now).ok)
    {
      answer, order := Lost, [];
      match op {
        case Register(vid, key, ephemeral, authentic, now, _) =>
            answer, order := server.Register(vid, key, ephemeral, authentic, now);
        case Ensure(vid, key, now) => answer := server.EnsureVault(vid, key, now);
        case DropVault(vid) => answer := server.DropVault(vid);
        case Lookup(vid, key) => answer := Find(vid, key);
        case Expire(_, _) => answer := OnFrame(op);
        case HandleDrop(_) => answer := OnFrame(op);
        case Exchange(_) => answer := OnFrame(op);
        case DropDir(_) => answer := InUse;
        case _ =>
      }
    }

    // One operation of a server that is down, and the orders a start visited the directory and the
    // vaults in.
    method Offline(op: Op) returns (answer: Answer, ghost listed: seq<Vid>, ghost order: seq<Vid>)
      requires Valid() && server == null && frames == []
      modifies this`server, disk`image, disk`trail
      ensures Valid() && frames == [] && (server != null ==> fresh(server) && fresh(server.all))
      ensures Result(Now(), answer) == OperatedOff(config, old(disk.Now()), Ordered(op, listed, order))
      ensures op.Launch? && config.persistent ==>
                && Visits(listed, old(disk.image).records.Keys, true)
                && Visits(order, Loaded(old(disk.Now()), listed).vaults.Keys,
                    Started(config, old(disk.Now()), listed, order, op.now).ok)
    {
      answer, listed, order := Down, [], [];
      match op {
        case Launch(now, _, _) => server, listed, order := Start(config, disk, now);
        case DropDir(vid) =>
          if config.persistent {
            var ok := disk.DropVaultDir(vid);
            if ok { answer := Gone; }
          }
        case _ =>
      }
    }

    // The process dies, the disk as it was at the moment given.
    method Die(moment: nat)
      requires Valid()
      modifies this`server, this`frames, disk`image
      ensures Valid() && server == null && frames == [] && Now() == Crashed(old(Now()), moment)
    {
      if disk.trail != [] { disk.image := disk.trail[if moment < |disk.trail| then moment else |disk.trail| - 1]; }
      server, frames := null, [];
    }

    // One turn: the operation, then, if the process dies in it, the crash.
    method Take(turn: Turn) returns (answer: Answer, ghost op: Op)
      requires Valid() && (server == null ==> frames == [])
      modifies this, disk, server, if server == null then {} else server.all
      ensures Valid() && (server == null ==> frames == []) && (server == old(server) || server == null || fresh(server))
      ensures server != null ==> fresh(server.all - if old(server) == null then {} else old(server.all))
      ensures Now() == After(config, old(Now()), turn.(op := op))
              && answer == AnswerTo(config, old(Now()), turn.(op := op))
      ensures Enabled(config, old(Now()), op) && Like(turn.op, op)
    {
      ghost var listed, order := [], [];
      Begin(turn.op);
      if server == null {
        answer, listed, order := Offline(turn.op);
      } else {
        answer, order := Operate(turn.op);
      }
      op := Ordered(turn.op, listed, order);
      if turn.dies {
        Die(turn.moment);
        answer := Lost;
      }
    }
  }

  // A run with the orders of its turns filled in.
  ghost predicate Fills(turns: seq<Turn>, taken: seq<Turn>) {
    |taken| == |turns|
    && forall k :: 0 <= k < |turns| ==>
         Like(turns[k].op, taken[k].op) && taken[k].dies == turns[k].dies && taken[k].moment == turns[k].moment
  }

  lemma {:induction false} FillsMore(turns: seq<Turn>, taken: seq<Turn>, k: nat, did: Op)
    requires k < |turns| && Fills(turns[..k], taken) && Like(turns[k].op, did)
    ensures Fills(turns[..k + 1], taken + [turns[k].(op := did)])
  {
    forall i | 0 <= i < k
      ensures Like(turns[i].op, taken[i].op) && taken[i].dies == turns[i].dies && taken[i].moment == turns[i].moment
    {
      assert turns[..k][i] == turns[i];
    }
  }

  lemma {:induction false} RunMore(config: Config, states: seq<State>, taken: seq<Turn>, turn: Turn, next: State)
    requires IsRun(config, states, taken) && Enabled(config, states[|taken|], turn.op)
             && next == After(config, states[|taken|], turn)
    ensures IsRun(config, states + [next], taken + [turn])
  {
  }

  // The first turns taken, what they were answered, and where they lead.
  ghost predicate Taken(config: Config, turns: seq<Turn>, answers: seq<Answer>, states: seq<State>,
      taken: seq<Turn>, now: State) {
    && |answers| == |taken| <= |turns| && IsRun(config, states, taken) && now == states[|taken|]
    && Fills(turns[..|taken|], taken)
    && forall k :: 0 <= k < |answers| ==> answers[k] == AnswerTo(config, states[k], taken[k])
  }

  lemma {:induction false} TakenMore(config: Config, turns: seq<Turn>, answers: seq<Answer>, states: seq<State>,
      taken: seq<Turn>,
                                     now: State, did: Op, answer: Answer, next: State)
    requires Taken(config, turns, answers, states, taken, now) && |taken| < |turns|
    requires var turn := turns[|taken|].(op := did);
             && Like(turns[|taken|].op, did) && Enabled(config, now, did)
             && next == After(config, now, turn) && answer == AnswerTo(config, now, turn)
    ensures Taken(config, turns, answers + [answer], states + [next], taken + [turns[|taken|].(op := did)], next)
  {
    var n, turn := |taken|, turns[|taken|].(op := did);
    FillsMore(turns, taken, n, did);
    RunMore(config, states, taken, turn, next);
    var all, run, done := answers + [answer], states + [next], taken + [turn];
    forall k | 0 <= k < n + 1
      ensures all[k] == AnswerTo(config, run[k], done[k])
    {
      assert run[k] == states[k];
      if k < n { assert all[k] == answers[k] && done[k] == taken[k]; }
    }
  }

  // Any turns, taken by a server: a run of the machine, and what it answered.
  method Run(config: Config, turns: seq<Turn>)
      returns (answers: seq<Answer>, ghost states: seq<State>, ghost taken: seq<Turn>)
    ensures IsRun(config, states, taken) && Fills(turns, taken)
    ensures |answers| == |turns| && forall k :: 0 <= k < |turns| ==> answers[k] == AnswerTo(config, states[k], taken[k])
  {
    var system := new System(config);
    answers, states, taken := [], [system.Now()], [];
    while |answers| < |turns|
      invariant |answers| == |taken| <= |turns| && system.Valid() && fresh(system) && fresh(system.disk)
                && system.config == config
      invariant system.server != null ==> fresh(system.server) && fresh(system.server.all)
      invariant system.server == null ==> system.frames == []
      invariant Taken(config, turns, answers, states, taken, system.Now())
    {
      var turn := turns[|answers|];
      var answer;
      ghost var op, was;
      was := system.Now();
      answer, op := system.Take(turn);
      TakenMore(config, turns, answers, states, taken, was, op, answer, system.Now());
      answers, states, taken := answers + [answer], states + [system.Now()], taken + [turn.(op := op)];
    }
    assert turns[..|answers|] == turns;
  }
}
