/** In every run of a server over its data directory a vault that has ended stays ended: through
    registrations, owner calls, frames under way, expiries, failed writes, crashes at any moment of
    any operation, and restarts. */
module VaultLaws {
  import opened VaultSpecs

  // ---------- a running server ----------

  // Served and revoked apart, and the records say of every vault what the server holds of it.
  ghost predicate Agree(config: Config, w: World) {
    && w.vaults.Keys !! w.revoked && w.dir.trail != []
    && (forall v :: v in w.vaults ==> w.vaults[v].Live?)
    && (config.persistent ==>
          && (forall v :: v in w.revoked <==> Finished(w.dir.image, v))
          && (forall v :: v in w.vaults ==> v in w.dir.image.records && w.dir.image.records[v] == w.vaults[v]))
  }

  // Ended in every state of the disk a crash may leave.
  ghost predicate Safe(d: Dir, v: Vid) {
    Finished(d.image, v) && forall i :: 0 <= i < |d.trail| ==> Finished(d.trail[i], v)
  }

  // From w to u nothing that ended is undone, and a vault served is served as it was or has ended.
  ghost predicate Onward(config: Config, w: World, u: World) {
    && Agree(config, u) && w.revoked <= u.revoked
    && (forall v :: v in w.vaults ==> v in u.revoked || (v in u.vaults && u.vaults[v] == w.vaults[v]))
    && (config.persistent ==> forall v :: Safe(w.dir, v) ==> Safe(u.dir, v))
  }

  lemma {:induction false} OnwardTwice(config: Config, w: World, u: World, x: World)
    requires Onward(config, w, u) && Onward(config, u, x)
    ensures Onward(config, w, x)
  {
  }

  lemma {:induction false} EndedOnward(config: Config, w: World, vid: Vid)
    requires Agree(config, w) && vid in w.vaults
    ensures var e := EndedVault(config, w, vid); Onward(config, w, e.w) && (e.ok ==> vid in e.w.revoked)
  {
  }

  lemma {:induction false} SweptOnward(config: Config, w: World, order: seq<Vid>, now: int)
    requires Agree(config, w)
    ensures Onward(config, w, Swept(config, w, order, now).w)
    decreases |order|
  {
    if order != [] {
      var front, vid := order[..|order| - 1], order[|order| - 1];
      SweptOnward(config, w, front, now);
      var s := Swept(config, w, front, now);
      if s.ok && vid in s.w.vaults && Expired(config, s.w.vaults[vid], now) {
        EndedOnward(config, s.w, vid);
        OnwardTwice(config, w, s.w, EndedVault(config, s.w, vid).w);
      }
    }
  }

  // A vault that has ended is not created: its record would be lost.
  lemma {:induction false} CreatedOnward(config: Config, w: World, vid: Vid, key: Key, ephemeral: bool, now: int)
    requires Agree(config, w) && vid !in w.vaults && vid !in w.revoked
    ensures var c := Created(config, w, vid, key, ephemeral, now);
            Onward(config, w, c.w) && (c.ok ==> vid in c.w.vaults)
  {
    assert config.persistent ==> !Finished(w.dir.image, vid);
  }

  lemma {:induction false} MadeOnward(config: Config, w: World, vid: Vid, key: Key, ephemeral: bool, now: int,
      order: seq<Vid>)
    requires Agree(config, w) && vid !in w.vaults && vid !in w.revoked
    ensures var o := Made(config, w, vid, key, ephemeral, now, order);
            Onward(config, w, o.w) && o.answer != Gone && (o.answer == Granted ==> vid in o.w.vaults)
  {
    SweptOnward(config, w, order, now);
    SweptServes(config, w, order, now);
    var s := Swept(config, w, order, now);
    if s.ok && |s.w.vaults| < config.maxVaults {
      CreatedOnward(config, s.w, vid, key, ephemeral, now);
      OnwardTwice(config, w, s.w, Created(config, s.w, vid, key, ephemeral, now).w);
    }
  }

  // An operation on vault vid keeps what has ended, grants only what is served, and calls gone only
  // what has ended.
  ghost predicate Sound(config: Config, w: World, vid: Vid, o: Outcome) {
    Onward(config, w, o.w) && (o.answer == Granted ==> vid in o.w.vaults) && (o.answer == Gone ==> vid in o.w.revoked)
  }

  lemma {:induction false} RegisteredSound(config: Config, w: World, vid: Vid, key: Key, ephemeral: bool,
      authentic: bool, now: int, order: seq<Vid>)
    requires Agree(config, w)
    ensures Sound(config, w, vid, Registered(config, w, vid, key, ephemeral, authentic, now, order))
  {
    if vid in w.vaults {
      EndedOnward(config, w, vid);
    } else if vid !in w.revoked {
      MadeOnward(config, w, vid, key, ephemeral, now, order);
    }
  }

  lemma {:induction false} EnsuredSound(config: Config, w: World, vid: Vid, key: Key, now: int)
    requires Agree(config, w)
    ensures Sound(config, w, vid, Ensured(config, w, vid, key, now))
  {
    if vid !in w.vaults && vid !in w.revoked { CreatedOnward(config, w, vid, key, false, now); }
  }

  lemma {:induction false} EndAskedSound(config: Config, w: World, vid: Vid, done: Answer)
    requires Agree(config, w) && vid in w.vaults && done != Granted
    ensures Sound(config, w, vid, EndAsked(config, w, vid, done))
  {
    EndedOnward(config, w, vid);
  }

  // ---------- a start ----------

  // Reading the records changes none of them.
  lemma {:induction false} LoadedIs(dir: Dir, order: seq<Vid>)
    requires dir.trail == [dir.image]
    ensures var w := Loaded(dir, order);
            && w.dir.image.records == dir.image.records && w.dir.trail != []
            && (forall i :: 0 <= i < |w.dir.trail| ==> w.dir.trail[i].records == dir.image.records)
            && (forall v :: v in w.vaults ==>
                v in dir.image.records && dir.image.records[v].Live?
                && w.vaults[v] == dir.image.records[v])
            && (forall v :: v in w.revoked ==> Finished(dir.image, v))
            && (forall v :: v in order && Finished(dir.image, v) ==> v in w.revoked)
    decreases |order|
  {
    if order != [] {
      LoadedIs(dir, order[..|order| - 1]);
      assert order == order[..|order| - 1] + [order[|order| - 1]];
    }
  }

  lemma {:induction false} LoadedAgrees(config: Config, dir: Dir, order: seq<Vid>)
    requires dir.trail == [dir.image] && Visits(order, dir.image.records.Keys, true)
    ensures Agree(config, Loaded(dir, order))
    ensures forall v :: Safe(dir, v) ==> Safe(Loaded(dir, order).dir, v)
  {
    LoadedIs(dir, order);
  }

  lemma {:induction false} StartedIs(config: Config, dir: Dir, listed: seq<Vid>, order: seq<Vid>, now: int)
    requires dir.trail == [dir.image] && (config.persistent ==> Visits(listed, dir.image.records.Keys, true))
    ensures var s := Started(config, dir, listed, order, now);
            && Agree(config, s.w) && (config.persistent ==> forall v :: Safe(dir, v) ==> Safe(s.w.dir, v))
  {
    if config.persistent {
      LoadedAgrees(config, dir, listed);
      SweptOnward(config, Loaded(dir, listed), order, now);
    }
  }

  // A sweep that ends well and visits every vault ends exactly the expired ones.
  lemma {:induction false} SweptExactly(config: Config, w: World, order: seq<Vid>, now: int)
    requires Swept(config, w, order, now).ok
    ensures var u := Swept(config, w, order, now).w;
            forall v :: v in u.vaults <==> v in w.vaults && !(v in order && Expired(config, w.vaults[v], now))
    ensures var u := Swept(config, w, order, now).w;
            forall v :: v in u.vaults ==> v in w.vaults && u.vaults[v] == w.vaults[v]
    decreases |order|
  {
    if order != [] {
      SweptExactly(config, w, order[..|order| - 1], now);
      assert order == order[..|order| - 1] + [order[|order| - 1]];
    }
  }

  lemma {:induction false} LoadedServes(dir: Dir, order: seq<Vid>)
    requires dir.trail == [dir.image]
    ensures forall v :: v in Loaded(dir, order).vaults <==>
              v in order && v in dir.image.records && dir.image.records[v].Live? && v !in dir.stuck
    decreases |order|
  {
    if order != [] {
      LoadedServes(dir, order[..|order| - 1]);
      assert order == order[..|order| - 1] + [order[|order| - 1]];
    }
  }

  // A server that starts serves every vault with a live record whose log opens and whose life has
  // not passed, as its record has it, and no other; whatever has ended or cannot be read is revoked.
  lemma {:induction false} StartServes(config: Config, dir: Dir, listed: seq<Vid>, order: seq<Vid>, now: int)
    requires config.persistent && dir.trail == [dir.image] && Visits(listed, dir.image.records.Keys, true)
    requires Visits(order, Loaded(dir, listed).vaults.Keys, true) && Started(config, dir, listed, order, now).ok
    ensures var w, records := Started(config, dir, listed, order, now).w, dir.image.records;
            && (forall v :: v in w.vaults <==>
                v in records && records[v].Live? && v !in dir.stuck
                && !Expired(config, records[v], now))
            && (forall v :: v in w.vaults ==> w.vaults[v] == records[v])
            && (forall v :: Finished(dir.image, v) ==> v in w.revoked)
  {
    LoadedIs(dir, listed);
    LoadedServes(dir, listed);
    SweptExactly(config, Loaded(dir, listed), order, now);
    SweptServes(config, Loaded(dir, listed), order, now);
  }

  lemma {:induction false} DirDroppedSafe(d: Dir, vid: Vid)
    requires d.trail == [d.image]
    ensures var c := DirDropped(d, vid);
            c.dir.trail != [] && (c.ok ==> Finished(c.dir.image, vid)) && forall v :: Safe(d, v) ==> Safe(c.dir, v)
  {
  }

  // ---------- a step ----------

  ghost predicate FrameOk(w: World, f: Frame) {
    f.vid in w.revoked || (f.vid in w.vaults && w.vaults[f.vid] == f.record)
  }

  ghost predicate Good(config: Config, s: State) {
    DirOf(s).trail != []
        && (s.On? ==> Agree(config, s.w) && forall i :: 0 <= i < |s.frames| ==> FrameOk(s.w, s.frames[i]))
  }

  // A vault that has ended: on disk, or, of a server in memory alone, while it runs.
  ghost predicate Over(config: Config, s: State, v: Vid) {
    if config.persistent then Finished(DirOf(s).image, v) else s.On? && v in s.w.revoked
  }

  lemma {:induction false} RevokedIsOver(config: Config, s: State, v: Vid)
    requires Good(config, s) && s.On? && v in s.w.revoked
    ensures Over(config, s, v)
  {
  }

  lemma {:induction false} OverIsNotServed(config: Config, s: State, v: Vid)
    requires Good(config, s) && Over(config, s, v) && s.On?
    ensures v !in s.w.vaults && v in s.w.revoked
  {
  }

  lemma {:induction false} BegunGood(config: Config, s: State, op: Op)
    requires Good(config, s)
    ensures var b := Begun(s, op);
            && Good(config, b) && DirOf(b).trail == [DirOf(b).image] && DirOf(b).image == DirOf(s).image
                && (b.On? <==> s.On?)
            && (s.On? ==> b.frames == s.frames && b.w.vaults == s.w.vaults && b.w.revoked == s.w.revoked)
            && (config.persistent ==> forall v :: Over(config, s, v) ==> Safe(DirOf(b), v))
  {
  }

  // What an operation comes to.
  ghost predicate Kept(config: Config, s: State, r: Result, about: Vid) {
    && Good(config, r.s)
    && (r.answer == Granted ==> r.s.On? && about in r.s.w.vaults)
    && (r.answer == Gone ==> Over(config, r.s, about))
    && (config.persistent ==> forall v :: Safe(DirOf(s), v) ==> Safe(DirOf(r.s), v))
    && (!config.persistent && s.On? ==> r.s.On? && s.w.revoked <= r.s.w.revoked)
  }

  lemma {:induction false} UpKept(config: Config, s: State, vid: Vid, o: Outcome)
    requires Good(config, s) && s.On? && Sound(config, s.w, vid, o)
    ensures Kept(config, s, Up(s, o), vid)
  {
    forall i | 0 <= i < |s.frames|
      ensures FrameOk(o.w, s.frames[i])
    {
      assert FrameOk(s.w, s.frames[i]);
    }
    if o.answer == Gone { RevokedIsOver(config, s.(w := o.w), vid); }
  }

  lemma {:induction false} FrameKept(config: Config, s: State, op: Op)
    requires Good(config, s) && s.On? && (op.Expire? || op.HandleDrop? || op.Exchange?)
    ensures Kept(config, s, Operated(config, s, op), About(s, op))
  {
    if op.frame < |s.frames| {
      var f := s.frames[op.frame];
      assert FrameOk(s.w, f);
      if f.vid in s.w.vaults {
        EndAskedSound(config, s.w, f.vid, Unknown);
        EndAskedSound(config, s.w, f.vid, Gone);
      }
      match op {
        case Expire(_, now) => UpKept(config, s, f.vid, ExpiredIfDue(config, s.w, f, now));
        case HandleDrop(_) => UpKept(config, s, f.vid, DroppedBy(config, s.w, f));
        case Exchange(_) =>
      }
    }
  }

  lemma {:induction false} OperatedKept(config: Config, s: State, op: Op)
    requires Good(config, s) && s.On?
    ensures Kept(config, s, Operated(config, s, op), About(s, op))
  {
    match op
    case Register(vid, key, ephemeral, authentic, now, order) =>
      RegisteredSound(config, s.w, vid, key, ephemeral, authentic, now, order);
      UpKept(config, s, vid, Registered(config, s.w, vid, key, ephemeral, authentic, now, order));
    case Ensure(vid, key, now) =>
      EnsuredSound(config, s.w, vid, key, now);
      UpKept(config, s, vid, Ensured(config, s.w, vid, key, now));
    case DropVault(vid) =>
      if vid in s.w.vaults { EndAskedSound(config, s.w, vid, Gone); }
      UpKept(config, s, vid, Dropped(config, s.w, vid));
    case Expire(_, _) => FrameKept(config, s, op);
    case HandleDrop(_) => FrameKept(config, s, op);
    case Exchange(_) => FrameKept(config, s, op);
    case _ =>
  }

  lemma {:induction false} OffKept(config: Config, d: Dir, op: Op)
    requires d.trail == [d.image] && Enabled(config, Off(d), op)
    ensures Kept(config, Off(d), OperatedOff(config, d, op), About(Off(d), op))
  {
    match op
    case Launch(now, listed, order) => StartedIs(config, d, listed, order, now);
    case DropDir(vid) => DirDroppedSafe(d, vid);
    case _ =>
  }

  lemma {:induction false} AnsweredKept(config: Config, s: State, op: Op)
    requires Good(config, s) && Enabled(config, s, op)
    ensures Kept(config, Begun(s, op), Answered(config, s, op), About(s, op))
  {
    BegunGood(config, s, op);
    var b := Begun(s, op);
    assert About(b, op) == About(s, op);
    if b.On? {
      OperatedKept(config, b, op);
    } else {
      assert Begun(b, op) == b;
      OffKept(config, b.dir, op);
    }
  }

  lemma {:induction false} CrashedIs(s: State, moment: nat, v: Vid)
    requires DirOf(s).trail != []
    ensures Crashed(s, moment).Off? && DirOf(Crashed(s, moment)).trail != []
    ensures Safe(DirOf(s), v) ==> Finished(DirOf(Crashed(s, moment)).image, v)
  {
  }

  lemma {:induction false} StepGood(config: Config, s: State, turn: Turn)
    requires Good(config, s) && Enabled(config, s, turn.op)
    ensures Good(config, After(config, s, turn))
  {
    AnsweredKept(config, s, turn.op);
    if turn.dies { CrashedIs(Answered(config, s, turn.op).s, turn.moment, 0); }
  }

  // What has ended stays so, whatever the step does and whenever in it the process dies.
  lemma {:induction false} OverStays(config: Config, s: State, turn: Turn, v: Vid)
    requires Good(config, s) && Enabled(config, s, turn.op) && Over(config, s, v) && (config.persistent || !turn.dies)
    ensures Over(config, After(config, s, turn), v)
  {
    BegunGood(config, s, turn.op);
    AnsweredKept(config, s, turn.op);
    if turn.dies { CrashedIs(Answered(config, s, turn.op).s, turn.moment, v); }
  }

  // ---------- every run ----------

  lemma {:induction false} RunGood(config: Config, states: seq<State>, turns: seq<Turn>, j: nat)
    requires IsRun(config, states, turns) && j < |states|
    ensures Good(config, states[j])
    decreases j
  {
    if j > 0 {
      RunGood(config, states, turns, j - 1);
      StepGood(config, states[j - 1], turns[j - 1]);
    }
  }

  // In every state the vaults served and the vaults revoked are apart.
  lemma {:induction false} ServedIsNotRevoked(config: Config, states: seq<State>, turns: seq<Turn>, j: nat)
    requires IsRun(config, states, turns) && j < |states| && states[j].On?
    ensures states[j].w.vaults.Keys !! states[j].w.revoked
  {
    RunGood(config, states, turns, j);
  }

  // The data directory is durable; a server in memory alone keeps its word while it lives.
  ghost predicate Remembers(config: Config, turns: seq<Turn>, i: nat, j: nat)
    requires i <= j <= |turns|
  {
    config.persistent || forall k :: i <= k < j ==> !turns[k].dies
  }

  lemma {:induction false} OverForGood(config: Config, states: seq<State>, turns: seq<Turn>, i: nat, j: nat, v: Vid)
    requires IsRun(config, states, turns) && i <= j < |states| && Over(config, states[i], v)
             && Remembers(config, turns, i, j)
    ensures Over(config, states[j], v)
    decreases j
  {
    if i < j {
      OverForGood(config, states, turns, i, j - 1, v);
      RunGood(config, states, turns, j - 1);
      OverStays(config, states[j - 1], turns[j - 1], v);
    }
  }

  // Once ending a vault has succeeded, or the server has revoked it, no later state serves it and no
  // later turn grants it: not a registration, an owner's call, a sync or a start, after any crash.
  lemma {:induction false} NeverAgain(config: Config, states: seq<State>, turns: seq<Turn>, i: nat, j: nat, v: Vid)
    requires IsRun(config, states, turns) && i <= j < |states| && Remembers(config, turns, i, j)
    requires (states[i].On? && v in states[i].w.revoked)
             || (i > 0 && AnswerTo(config, states[i - 1], turns[i - 1]) == Gone
                 && About(states[i - 1], turns[i - 1].op) == v)
    ensures states[j].On? ==> v !in states[j].w.vaults && v in states[j].w.revoked
    ensures j < |turns| && About(states[j], turns[j].op) == v ==> AnswerTo(config, states[j], turns[j]) != Granted
  {
    RunGood(config, states, turns, i);
    if states[i].On? && v in states[i].w.revoked {
      RevokedIsOver(config, states[i], v);
    } else {
      RunGood(config, states, turns, i - 1);
      AnsweredKept(config, states[i - 1], turns[i - 1].op);
    }
    OverForGood(config, states, turns, i, j, v);
    RunGood(config, states, turns, j);
    if states[j].On? { OverIsNotServed(config, states[j], v); }
    if j < |turns| && !turns[j].dies && About(states[j], turns[j].op) == v {
      NotGranted(config, states[j], turns[j], v);
    }
  }

  lemma {:induction false} NotGranted(config: Config, s: State, turn: Turn, v: Vid)
    requires Good(config, s) && Enabled(config, s, turn.op) && Over(config, s, v) && !turn.dies
             && About(s, turn.op) == v
    ensures AnswerTo(config, s, turn) != Granted
  {
    StepGood(config, s, turn);
    OverStays(config, s, turn, v);
    AnsweredKept(config, s, turn.op);
    var t := After(config, s, turn);
    if t.On? { OverIsNotServed(config, t, v); }
  }

  // What is granted is served.
  lemma {:induction false} GrantedIsServed(config: Config, states: seq<State>, turns: seq<Turn>, j: nat)
    requires IsRun(config, states, turns) && j < |turns| && AnswerTo(config, states[j], turns[j]) == Granted
    ensures states[j + 1].On? && About(states[j], turns[j].op) in states[j + 1].w.vaults
  {
    RunGood(config, states, turns, j);
    AnsweredKept(config, states[j], turns[j].op);
  }

  // Not so in memory: after a crash and a start an ended vault is granted again.
  lemma {:induction false} MemoryForgets(config: Config, vid: Vid, key: Key, now: int)
      returns (states: seq<State>, turns: seq<Turn>)
    requires !config.persistent
    ensures IsRun(config, states, turns) && |turns| == 6
    ensures turns[2].op == DropVault(vid) && AnswerTo(config, states[2], turns[2]) == Gone
    ensures turns[5].op == Ensure(vid, key, now) && AnswerTo(config, states[5], turns[5]) == Granted
    ensures states[6].On? && vid in states[6].w.vaults
  {
    var launch, ensure, drop, crash := Turn(Launch(now, [], []), false, 0), Turn(Ensure(vid, key, now), false, 0),
                                       Turn(DropVault(vid), false, 0), Turn(Faults({}, {}), true, 0);
    turns := [launch, ensure, drop, crash, launch, ensure];
    var s0 := Off(NO_DIR);
    var s1 := After(config, s0, launch);
    var s2 := After(config, s1, ensure);
    var s3 := After(config, s2, drop);
    var s4 := After(config, s3, crash);
    var s5 := After(config, s4, launch);
    var s6 := After(config, s5, ensure);
    states := [s0, s1, s2, s3, s4, s5, s6];
  }
}
