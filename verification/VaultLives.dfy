/** The life of one vault (kv/server/server.go, owner.go): what makes it and as what, what may end it,
    and that an owner's vault lasts until its owner drops it. */
module VaultLives {
  import opened VaultSpecs
  import opened VaultLaws

  // The record of a vault made at this moment: the second of it is kept.
  function Made(key: Key, ephemeral: bool, now: int): Record { Live(key, ephemeral, now - now % 1000) }

  // The turn asks for vault v to be made, and as this.
  ghost predicate Makes(op: Op, v: Vid, r: Record) {
    || (op.Register? && op.vid == v && op.authentic && r == Made(op.key, op.ephemeral, op.now))
    || (op.Ensure? && op.vid == v && r == Made(op.key, false, op.now))
  }

  // The turn may end the vault: its owner drops it; or it is ephemeral, and its holder drops it or
  // its time is over.
  ghost predicate MayEnd(config: Config, s: State, op: Op, v: Vid, r: Record) {
    || op == DropVault(v) || op == DropDir(v)
    || (r.Live? && r.ephemeral
        && ((op.HandleDrop? && About(s, op) == v)
            || ((op.Register? || op.Expire? || op.Launch?) && op.now - r.created >= config.ttl)))
  }

  // ---------- a running server ----------

  // Vault v is served as before, or has ended for a reason; and what is served anew was asked for.
  ghost predicate Lives(config: Config, s: State, op: Op, w: World, u: World, v: Vid) {
    && (v in w.vaults ==>
          (v in u.vaults && u.vaults[v] == w.vaults[v]) || (v in u.revoked && MayEnd(config, s, op, v, w.vaults[v])))
    && (v in u.vaults && v !in w.vaults ==> Makes(op, v, u.vaults[v]))
  }

  lemma {:induction false} SweptLives(config: Config, s: State, op: Op, w: World, order: seq<Vid>, v: Vid)
    requires op.Register? || op.Launch?
    ensures Lives(config, s, op, w, Swept(config, w, order, op.now).w, v)
    ensures v !in w.vaults ==> v !in Swept(config, w, order, op.now).w.vaults
    decreases |order|
  {
    if order != [] { SweptLives(config, s, op, w, order[..|order| - 1], v); }
  }

  lemma {:induction false} CreatedIs(config: Config, w: World, vid: Vid, key: Key, ephemeral: bool, now: int)
    ensures var c := Created(config, w, vid, key, ephemeral, now);
            c.w.vaults == if c.ok then w.vaults[vid := Made(key, ephemeral, now)] else w.vaults
    ensures Created(config, w, vid, key, ephemeral, now).w.revoked == w.revoked
  {
  }

  lemma {:induction false} RegisteredLives(config: Config, s: State, op: Op, w: World, v: Vid)
    requires op.Register? && Agree(config, w)
    ensures Lives(config, s, op, w,
        Registered(config, w, op.vid, op.key, op.ephemeral, op.authentic, op.now, op.order).w, v)
  {
    var t := Swept(config, w, op.order, op.now);
    SweptLives(config, s, op, w, op.order, v);
    SweptLives(config, s, op, w, op.order, op.vid);
    CreatedIs(config, t.w, op.vid, op.key, op.ephemeral, op.now);
  }

  lemma {:induction false} OperatedLives(config: Config, s: State, op: Op, v: Vid)
    requires Good(config, s) && s.On?
    ensures Operated(config, s, op).s.On? && Lives(config, s, op, s.w, Operated(config, s, op).s.w, v)
  {
    match op
    case Register(_, _, _, _, _, _) => RegisteredLives(config, s, op, s.w, v);
    case Ensure(vid, key, now) => CreatedIs(config, s.w, vid, key, false, now);
    case Expire(frame, _) => if frame < |s.frames| { assert FrameOk(s.w, s.frames[frame]); }
    case HandleDrop(frame) => if frame < |s.frames| { assert FrameOk(s.w, s.frames[frame]); }
    case _ =>
  }

  // In every turn of a running server that it survives: what is served was made as it was asked for,
  // ephemeral only if a registration said so, never by the owner's call; its record does not change
  // while it is served; and it ends only for a reason.
  lemma {:induction false} TurnLives(config: Config, states: seq<State>, turns: seq<Turn>, k: nat, v: Vid)
    requires IsRun(config, states, turns) && k < |turns| && states[k].On? && !turns[k].dies
    ensures states[k + 1].On? && Lives(config, states[k], turns[k].op, states[k].w, states[k + 1].w, v)
  {
    RunGood(config, states, turns, k);
    var b := Begun(states[k], turns[k].op);
    BegunGood(config, states[k], turns[k].op);
    OperatedLives(config, b, turns[k].op, v);
  }

  // ---------- what is answered ----------

  // Past its time to live.
  predicate Past(config: Config, r: Record, now: int) { r.Live? && r.ephemeral && now - r.created >= config.ttl }

  predicate Keyed(r: Record, key: Key) { r.Live? && r.key == key }

  // What the server answers, w the vaults it serves and revokes and u those after it.
  ghost predicate Answers(config: Config, w: World, frames: seq<Frame>, op: Op, a: Answer, u: World) {
    match op
    case Register(v, key, _, authentic, now, _) =>
      && (!authentic || v in w.revoked ==> a == BadAuth)
      && (v in w.vaults ==> (a == Granted <==> authentic && Keyed(w.vaults[v], key) && !Past(config, w.vaults[v], now)))
      && (a == Granted ==> v in u.vaults && Keyed(u.vaults[v], key))
    case Ensure(v, key, _) =>
      && (a == Revoked <==> v in w.revoked)
      && (a == Mismatch <==> v in w.vaults && !Keyed(w.vaults[v], key))
      && (a == Granted ==> v in u.vaults && Keyed(u.vaults[v], key))
    case DropVault(v) => (a == Unknown <==> v !in w.vaults) && (a == Gone ==> v in u.revoked)
    case Lookup(v, key) => a == if v !in w.vaults then Unknown else if Keyed(w.vaults[v], key) then Proceed else BadAuth
    case Expire(f, now) =>
      f < |frames| ==>
        (a == Proceed <==> !Past(config, frames[f].record, now)) && (a == Unknown ==> frames[f].vid !in u.vaults)
    case HandleDrop(f) =>
      f < |frames| ==>
        var r := frames[f].record;
        (a == BadRequest <==> !(r.Live? && r.ephemeral)) && (a == Gone ==> frames[f].vid in u.revoked)
    case Exchange(f) => f < |frames| ==> (a == Granted <==> frames[f].vid in w.vaults)
    case _ => true
  }

  // A frame's vault is served, or was and is revoked.
  lemma {:induction false} AnswersMean(config: Config, s: State, op: Op)
    requires Good(config, s) && s.On?
    ensures Answers(config, s.w, s.frames, op, Operated(config, s, op).answer, Operated(config, s, op).s.w)
  {
    match op
    case Register(v, key, ephemeral, _, now, order) =>
      SweptServes(config, s.w, order, now);
      CreatedIs(config, Swept(config, s.w, order, now).w, v, key, ephemeral, now);
    case Ensure(v, key, now) => CreatedIs(config, s.w, v, key, false, now);
    case Expire(f, _) => if f < |s.frames| { assert FrameOk(s.w, s.frames[f]); }
    case HandleDrop(f) => if f < |s.frames| { assert FrameOk(s.w, s.frames[f]); }
    case Exchange(f) => if f < |s.frames| { assert FrameOk(s.w, s.frames[f]); }
    case _ =>
  }

  lemma {:induction false} TurnAnswers(config: Config, states: seq<State>, turns: seq<Turn>, k: nat)
    requires IsRun(config, states, turns) && k < |turns| && states[k].On? && !turns[k].dies
    ensures states[k + 1].On?
            && Answers(config, states[k].w, states[k].frames, turns[k].op, AnswerTo(config, states[k], turns[k]),
                states[k + 1].w)
  {
    RunGood(config, states, turns, k);
    var b := Begun(states[k], turns[k].op);
    BegunGood(config, states[k], turns[k].op);
    TurnLives(config, states, turns, k, 0);
    AnswersMean(config, b, turns[k].op);
  }

  // ---------- an owner's vault ----------

  // On disk as this, in every state a crash may leave.
  ghost predicate Steady(d: Dir, v: Vid, r: Record) {
    && v in d.image.records && d.image.records[v] == r
    && forall i :: 0 <= i < |d.trail| ==> v in d.trail[i].records && d.trail[i].records[v] == r
  }

  // A world that serves v as this, and whose disk says so.
  ghost predicate Serves(config: Config, w: World, v: Vid, r: Record) {
    v in w.vaults && w.vaults[v] == r && (config.persistent ==> Steady(w.dir, v, r))
  }

  lemma {:induction false} EndedOther(config: Config, w: World, vid: Vid, v: Vid, r: Record)
    requires Serves(config, w, v, r) && vid != v
    ensures Serves(config, EndedVault(config, w, vid).w, v, r)
  {
  }

  lemma {:induction false} SweptOther(config: Config, w: World, order: seq<Vid>, now: int, v: Vid, r: Record)
    requires Serves(config, w, v, r) && r.Live? && !r.ephemeral
    ensures Serves(config, Swept(config, w, order, now).w, v, r)
    decreases |order|
  {
    if order != [] {
      var front, vid := order[..|order| - 1], order[|order| - 1];
      SweptOther(config, w, front, now, v, r);
      if vid != v { EndedOther(config, Swept(config, w, front, now).w, vid, v, r); }
    }
  }

  lemma {:induction false} CreatedOther(config: Config, w: World, vid: Vid, key: Key, ephemeral: bool, now: int,
      v: Vid, r: Record)
    requires Serves(config, w, v, r) && vid != v
    ensures Serves(config, Created(config, w, vid, key, ephemeral, now).w, v, r)
  {
  }

  lemma {:induction false} RegisteredOther(config: Config, w: World, op: Op, v: Vid, r: Record)
    requires op.Register? && Serves(config, w, v, r) && r.Live? && !r.ephemeral && Agree(config, w)
    ensures Serves(config,
        Registered(config, w, op.vid, op.key, op.ephemeral, op.authentic, op.now, op.order).w, v, r)
  {
    SweptOther(config, w, op.order, op.now, v, r);
    if op.vid != v {
      EndedOther(config, w, op.vid, v, r);
      CreatedOther(config, Swept(config, w, op.order, op.now).w, op.vid, op.key, op.ephemeral, op.now, v, r);
    }
  }

  lemma {:induction false} OperatedOther(config: Config, s: State, op: Op, v: Vid, r: Record)
    requires Good(config, s) && s.On? && Serves(config, s.w, v, r) && r.Live? && !r.ephemeral && op != DropVault(v)
    ensures Operated(config, s, op).s.On? && Serves(config, Operated(config, s, op).s.w, v, r)
  {
    match op
    case Register(_, _, _, _, _, _) => RegisteredOther(config, s.w, op, v, r);
    case Ensure(vid, key, now) => if vid != v { CreatedOther(config, s.w, vid, key, false, now, v, r); }
    case DropVault(vid) => EndedOther(config, s.w, vid, v, r);
    case Expire(frame, _) => if frame < |s.frames| { FrameOther(config, s, s.frames[frame], v, r); }
    case HandleDrop(frame) => if frame < |s.frames| { FrameOther(config, s, s.frames[frame], v, r); }
    case _ =>
  }

  lemma {:induction false} FrameOther(config: Config, s: State, f: Frame, v: Vid, r: Record)
    requires Good(config, s) && s.On? && f in s.frames && Serves(config, s.w, v, r)
    ensures f.vid == v ==> f.record == r
    ensures f.vid != v ==> Serves(config, EndedVault(config, s.w, f.vid).w, v, r)
  {
    var i :| 0 <= i < |s.frames| && s.frames[i] == f;
    assert FrameOk(s.w, s.frames[i]);
    if f.vid != v { EndedOther(config, s.w, f.vid, v, r); }
  }

  lemma {:induction false} LoadedSteady(dir: Dir, order: seq<Vid>, v: Vid, r: Record)
    requires dir.trail == [dir.image] && v in dir.image.records && dir.image.records[v] == r && r.Live?
    ensures Steady(Loaded(dir, order).dir, v, r)
    ensures v in order && v !in dir.stuck ==> v in Loaded(dir, order).vaults && Loaded(dir, order).vaults[v] == r
  {
    LoadedIs(dir, order);
    LoadedServes(dir, order);
    var w := Loaded(dir, order);
    forall i | 0 <= i < |w.dir.trail|
      ensures v in w.dir.trail[i].records && w.dir.trail[i].records[v] == r
    {
      assert w.dir.trail[i].records == dir.image.records;
    }
  }

  // Served while the server runs, and on its disk while it is down.
  ghost predicate Lasts(config: Config, s: State, v: Vid, r: Record) {
    if s.On? then v in s.w.vaults && s.w.vaults[v] == r
    else config.persistent && v in s.dir.image.records && s.dir.image.records[v] == r
  }

  lemma {:induction false} OffOther(config: Config, d: Dir, op: Op, v: Vid, r: Record)
    requires config.persistent && d.trail == [d.image] && v in d.image.records && d.image.records[v] == r
    requires r.Live? && !r.ephemeral && op != DropDir(v) && Enabled(config, Off(d), op)
             && (op.Launch? ==> v !in d.stuck)
    ensures var t := OperatedOff(config, d, op).s;
            Steady(DirOf(t), v, r) && (t.On? ==> v in t.w.vaults && t.w.vaults[v] == r)
  {
    match op
    case Launch(now, listed, order) =>
      assert Begun(Off(d), op) == Off(d);
      LoadedSteady(d, listed, v, r);
      SweptOther(config, Loaded(d, listed), order, now, v, r);
    case _ =>
  }

  // One turn, through every moment of it.
  lemma {:induction false} OwnersTurn(config: Config, s: State, turn: Turn, v: Vid, r: Record)
    requires Good(config, s) && Enabled(config, s, turn.op) && Lasts(config, s, v, r) && r.Live? && !r.ephemeral
    requires turn.op != DropVault(v) && turn.op != DropDir(v)
    requires (turn.op.Launch? ==> v !in DirOf(s).stuck) && (config.persistent || !turn.dies)
    ensures Lasts(config, After(config, s, turn), v, r)
  {
    var b := Begun(s, turn.op);
    BegunGood(config, s, turn.op);
    if s.On? { OperatedOther(config, b, turn.op, v, r); } else { OffOther(config, b.dir, turn.op, v, r); }
    AnsweredKept(config, s, turn.op);
  }

  // No run ends a vault that is not ephemeral but by its owner's drop: no sweep, no expiry, no client,
  // no registration, no crash and no start that can open its log.
  lemma {:induction false} OwnersVaultLasts(config: Config, states: seq<State>, turns: seq<Turn>, i: nat, j: nat,
      v: Vid, r: Record)
    requires IsRun(config, states, turns) && i <= j < |states| && Remembers(config, turns, i, j)
    requires states[i].On? && v in states[i].w.vaults && states[i].w.vaults[v] == r && r.Live? && !r.ephemeral
    requires forall k :: i <= k < j ==> turns[k].op != DropVault(v) && turns[k].op != DropDir(v)
    requires forall k :: i <= k < j && turns[k].op.Launch? ==> v !in DirOf(states[k]).stuck
    ensures Lasts(config, states[j], v, r) && !Over(config, states[j], v)
    decreases j
  {
    RunGood(config, states, turns, j);
    if i < j {
      OwnersVaultLasts(config, states, turns, i, j - 1, v, r);
      RunGood(config, states, turns, j - 1);
      OwnersTurn(config, states[j - 1], turns[j - 1], v, r);
    }
  }

  // ---------- what the conditions are for ----------

  // A vault whose log does not open at a start is skipped: neither served nor revoked, it can be made
  // anew, and its record is then another.
  lemma {:induction false} SkippedIsAbsent(config: Config, dir: Dir, listed: seq<Vid>, order: seq<Vid>, now: int,
      v: Vid, key: Key)
    requires config.persistent && dir.trail == [dir.image] && v in dir.stuck
    requires Visits(listed, dir.image.records.Keys, true) && !Finished(dir.image, v)
    ensures var w := Started(config, dir, listed, order, now).w;
            && v !in w.vaults && v !in w.revoked
            && var mended := w.(dir := w.dir.(unwritable := {}, stuck := {}));
            && Ensured(config, mended, v, key, now).answer == Granted
            && Ensured(config, mended, v, key, now).w.vaults[v] == Made(key, false, now)
  {
    var w := Loaded(dir, listed);
    LoadedIs(dir, listed);
    LoadedServes(dir, listed);
    SweptServes(config, w, order, now);
    var mended := Started(config, dir, listed, order, now).w.(dir :=
        Started(config, dir, listed, order, now).w.dir.(unwritable := {}, stuck := {}));
    CreatedIs(config, mended, v, key, false, now);
  }

  // A registration that makes a vault leaves no more than the server has room for, and one refused
  // for room finds that many.
  lemma {:induction false} RoomKept(config: Config, w: World, op: Op)
    requires op.Register? && op.vid !in w.vaults && op.vid !in w.revoked
    ensures var o := Registered(config, w, op.vid, op.key, op.ephemeral, op.authentic, op.now, op.order);
            && (o.answer == Granted ==> |o.w.vaults| <= config.maxVaults && op.vid in o.w.vaults)
            && (o.answer == Full ==> |o.w.vaults| >= config.maxVaults && op.vid !in o.w.vaults)
  {
    var t := Swept(config, w, op.order, op.now).w;
    SweptServes(config, w, op.order, op.now);
    CreatedIs(config, t, op.vid, op.key, op.ephemeral, op.now);
    OneMore(t.vaults, op.vid, Made(op.key, op.ephemeral, op.now));
  }

  lemma {:induction false} OneMore(m: map<Vid, Record>, v: Vid, r: Record)
    ensures v !in m ==> |m[v := r]| == |m| + 1
  {
    assert m[v := r].Keys == m.Keys + {v};
    assert |m| == |m.Keys| && |m[v := r]| == |m[v := r].Keys|;
  }
}
