/** What each operation of the server does to a vault's life (kv/server/server.go, owner.go): to the
    vaults it serves and revokes, and to the data directory, through every state a crash may leave. */
module VaultSpecs {
  type Vid = nat
  type Key = nat

  // A vault's record. A damaged one cannot be read, or is a live one with no key.
  datatype Record = Live(key: Key, ephemeral: bool, created: int) | Ended | Damaged

  // What the data directory holds: the records, and the vaults that have an entry log.
  datatype Image = Image(records: map<Vid, Record>, logs: set<Vid>)

  datatype Config = Config(persistent: bool, maxVaults: nat, ttl: int)

  datatype Answer =
    | Granted | Proceed | Gone | BadAuth | TryLater | Unknown | Full | BadRequest
    | Mismatch | Revoked | InUse | Down | Lost

  ghost predicate Finished(im: Image, v: Vid) { v in im.records && !im.records[v].Live? }

  function ToSecond(ms: int): int { ms - ms % 1000 }

  predicate Expired(config: Config, r: Record, now: int) { r.Live? && r.ephemeral && now - r.created >= config.ttl }

  predicate HasKey(r: Record, key: Key) { r.Live? && r.key == key }

  // ---------- the disk ----------

  // The directory, every state it has been in since the operation began, and what fails now: the
  // records that cannot be written, and the logs that can be neither opened nor removed.
  datatype Dir = Dir(image: Image, trail: seq<Image>, unwritable: set<Vid>, stuck: set<Vid>)

  const NO_DIR := Dir(Image(map[], {}), [Image(map[], {})], {}, {})

  function Moved(d: Dir, im: Image): Dir { d.(image := im, trail := d.trail + [im]) }

  // durable.WriteFile: the whole record or nothing.
  function Wrote(d: Dir, vid: Vid, r: Record): Dir {
    if vid in d.unwritable then d else Moved(d, d.image.(records := d.image.records[vid := r]))
  }

  function LogOpened(d: Dir, vid: Vid): Dir {
    if vid in d.stuck then d else Moved(d, d.image.(logs := d.image.logs + {vid}))
  }

  function LogRemoved(d: Dir, vid: Vid): Dir {
    if vid in d.stuck && vid in d.image.logs then d else Moved(d, d.image.(logs := d.image.logs - {vid}))
  }

  // ---------- a running server ----------

  // The vaults it serves, by the record each was made with, and those it has revoked.
  datatype World = World(dir: Dir, vaults: map<Vid, Record>, revoked: set<Vid>)

  datatype Done = Done(w: World, ok: bool)

  // endLocked: the record first; a failure there changes nothing.
  function EndedVault(config: Config, w: World, vid: Vid): Done {
    if config.persistent && vid in w.dir.unwritable then Done(w, false)
    else
      var dir := if config.persistent then LogRemoved(Wrote(w.dir, vid, Ended), vid) else w.dir;
      Done(World(dir, w.vaults - {vid}, w.revoked + {vid}), true)
  }

  // sweepLocked, its map visited in this order: every expired vault ends, until one cannot.
  function Swept(config: Config, w: World, order: seq<Vid>, now: int): Done
    decreases |order|
  {
    if order == [] then Done(w, true)
    else
      var s := Swept(config, w, order[..|order| - 1], now);
      var vid := order[|order| - 1];
      if s.ok && vid in s.w.vaults && Expired(config, s.w.vaults[vid], now) then EndedVault(config, s.w, vid) else s
  }

  // A sweep serves and revokes no vault it did not find served.
  lemma {:induction false} SweptServes(config: Config, w: World, order: seq<Vid>, now: int)
    ensures var s := Swept(config, w, order, now).w;
            s.vaults.Keys <= w.vaults.Keys && w.revoked <= s.revoked && forall v :: v in s.revoked ==>
                v in w.revoked || v in w.vaults
    decreases |order|
  {
    if order != [] { SweptServes(config, w, order[..|order| - 1], now); }
  }

  // createVaultLocked: the record first, in one write, then the log.
  function Created(config: Config, w: World, vid: Vid, key: Key, ephemeral: bool, now: int): Done {
    var r := Live(key, ephemeral, ToSecond(now));
    if !config.persistent then Done(w.(vaults := w.vaults[vid := r]), true)
    else if vid in w.dir.unwritable then Done(w, false)
    else if vid in w.dir.stuck then Done(w.(dir := Wrote(w.dir, vid, r)), false)
    else Done(w.(dir := LogOpened(Wrote(w.dir, vid, r), vid), vaults := w.vaults[vid := r]), true)
  }

  datatype Outcome = Outcome(w: World, answer: Answer)

  // handleRegister's sweep and creation.
  function Made(config: Config, w: World, vid: Vid, key: Key, ephemeral: bool, now: int, order: seq<Vid>): Outcome {
    var s := Swept(config, w, order, now);
    if !s.ok then Outcome(s.w, TryLater)
    else if |s.w.vaults| >= config.maxVaults then Outcome(s.w, Full)
    else
      var c := Created(config, s.w, vid, key, ephemeral, now);
      Outcome(c.w, if c.ok then Granted else TryLater)
  }

  // handleRegister; `authentic` when a register key of the server's opens the frame.
  function Registered(config: Config, w: World, vid: Vid, key: Key, ephemeral: bool, authentic: bool, now: int,
      order: seq<Vid>): Outcome {
    if !authentic then Outcome(w, BadAuth)
    else if vid in w.vaults && Expired(config, w.vaults[vid], now) then
      var e := EndedVault(config, w, vid);
      Outcome(e.w, if e.ok then BadAuth else TryLater)
    else if vid in w.revoked then Outcome(w, BadAuth)
    else if vid in w.vaults then Outcome(w, if HasKey(w.vaults[vid], key) then Granted else BadAuth)
    else Made(config, w, vid, key, ephemeral, now, order)
  }

  function Ensured(config: Config, w: World, vid: Vid, key: Key, now: int): Outcome {
    if vid in w.revoked then Outcome(w, Revoked)
    else if vid in w.vaults then Outcome(w, if HasKey(w.vaults[vid], key) then Granted else Mismatch)
    else
      var c := Created(config, w, vid, key, false, now);
      Outcome(c.w, if c.ok then Granted else TryLater)
  }

  // An end asked for, and what is answered when it succeeds.
  function EndAsked(config: Config, w: World, vid: Vid, done: Answer): Outcome {
    var e := EndedVault(config, w, vid);
    Outcome(e.w, if e.ok then done else TryLater)
  }

  function Dropped(config: Config, w: World, vid: Vid): Outcome {
    if vid !in w.vaults then Outcome(w, Unknown) else EndAsked(config, w, vid, Gone)
  }

  // ---------- one sync frame, in the steps its locks divide it into ----------

  // A frame past its lookup: the vault it found there.
  datatype Frame = Frame(vid: Vid, record: Record)

  function LookedUp(w: World, vid: Vid, key: Key): Answer {
    if vid !in w.vaults then Unknown else if HasKey(w.vaults[vid], key) then Proceed else BadAuth
  }

  function ExpiredIfDue(config: Config, w: World, f: Frame, now: int): Outcome {
    if !Expired(config, f.record, now) then Outcome(w, Proceed)
    else if f.vid !in w.vaults then Outcome(w, Unknown)
    else EndAsked(config, w, f.vid, Unknown)
  }

  function DroppedBy(config: Config, w: World, f: Frame): Outcome {
    if !(f.record.Live? && f.record.ephemeral) then Outcome(w, BadRequest)
    else if f.vid !in w.vaults then Outcome(w, Unknown)
    else EndAsked(config, w, f.vid, Gone)
  }

  function Exchanged(w: World, f: Frame): Answer { if f.vid in w.revoked then Unknown else Granted }

  // ---------- a start, and an end with no server running ----------

  // loadPersistedVaults, its directory listed in this order.
  function Loaded(dir: Dir, order: seq<Vid>): World
    decreases |order|
  {
    if order == [] then World(dir, map[], {})
    else
      var w := Loaded(dir, order[..|order| - 1]);
      var vid := order[|order| - 1];
      if vid !in dir.image.records then w
      else
        match dir.image.records[vid]
        case Damaged => w.(revoked := w.revoked + {vid})
        case Ended => w.(dir := LogRemoved(w.dir, vid), revoked := w.revoked + {vid})
        case Live(_, _, _) =>
          if vid in dir.stuck then w
              else w.(dir := LogOpened(w.dir, vid), vaults := w.vaults[vid := dir.image.records[vid]])
  }

  // New: the records, then a sweep that must succeed.
  function Started(config: Config, dir: Dir, listed: seq<Vid>, order: seq<Vid>, now: int): Done {
    if config.persistent then Swept(config, Loaded(dir, listed), order, now) else Done(World(dir, map[], {}), true)
  }

  datatype Closed = Closed(dir: Dir, ok: bool)

  // DropVaultDir
  function DirDropped(d: Dir, vid: Vid): Closed {
    if vid in d.image.logs && vid in d.stuck then Closed(d, false)
    else if vid in d.image.records && d.image.records[vid].Damaged? then Closed(d, false)
    else if vid in d.image.records && d.image.records[vid].Ended? then Closed(LogRemoved(d, vid), true)
    else if vid in d.unwritable then Closed(d, false)
    else Closed(LogRemoved(Wrote(d, vid, Ended), vid), true)
  }

  // ---------- the machine ----------

  datatype Op =
    | Register(vid: Vid, key: Key, ephemeral: bool, authentic: bool, now: int, order: seq<Vid>)
    | Ensure(vid: Vid, key: Key, now: int)
    | DropVault(vid: Vid)
    | Lookup(vid: Vid, key: Key)
    | Expire(frame: nat, now: int)
    | HandleDrop(frame: nat)
    | Exchange(frame: nat)
    | Launch(now: int, listed: seq<Vid>, order: seq<Vid>)
    | DropDir(vid: Vid)
    | Faults(unwritable: set<Vid>, stuck: set<Vid>)

  // An operation, and whether the process dies in it: then the disk is left in one of the states
  // the operation took it through, and nobody sees its answer.
  datatype Turn = Turn(op: Op, dies: bool, moment: nat)

  // A server that is down, or one that runs with its sync frames past their lookup.
  datatype State = Off(dir: Dir) | On(w: World, frames: seq<Frame>)

  function DirOf(s: State): Dir { if s.On? then s.w.dir else s.dir }

  function WithDir(s: State, d: Dir): State { if s.On? then s.(w := s.w.(dir := d)) else Off(d) }

  // The state an operation begins in: only its own disk writes are to come.
  function Begun(s: State, op: Op): State {
    var d := DirOf(s);
    WithDir(s, if op.Faults? then Dir(d.image, [d.image], op.unwritable, op.stuck) else d.(trail := [d.image]))
  }

  function About(s: State, op: Op): Vid {
    match op
    case Launch(_, _, _) => 0
    case Faults(_, _) => 0
    case Expire(frame, _) => if s.On? && frame < |s.frames| then s.frames[frame].vid else 0
    case HandleDrop(frame) => if s.On? && frame < |s.frames| then s.frames[frame].vid else 0
    case Exchange(frame) => if s.On? && frame < |s.frames| then s.frames[frame].vid else 0
    case _ => op.vid
  }

  datatype Result = Result(s: State, answer: Answer)

  function Up(s: State, o: Outcome): Result
    requires s.On?
  {
    Result(s.(w := o.w), o.answer)
  }

  function Operated(config: Config, s: State, op: Op): Result
    requires s.On?
  {
    match op
    case Register(vid, key, ephemeral, authentic, now, order) =>
        Up(s, Registered(config, s.w, vid, key, ephemeral, authentic, now, order))
    case Ensure(vid, key, now) => Up(s, Ensured(config, s.w, vid, key, now))
    case DropVault(vid) => Up(s, Dropped(config, s.w, vid))
    case Lookup(vid, key) =>
      var a := LookedUp(s.w, vid, key);
      Result(if a == Proceed then s.(frames := s.frames + [Frame(vid, s.w.vaults[vid])]) else s, a)
    case Expire(frame, now) =>
        if frame < |s.frames| then Up(s, ExpiredIfDue(config, s.w, s.frames[frame], now)) else Result(s, Lost)
    case HandleDrop(frame) =>
        if frame < |s.frames| then Up(s, DroppedBy(config, s.w, s.frames[frame])) else Result(s, Lost)
    case Exchange(frame) => Result(s, if frame < |s.frames| then Exchanged(s.w, s.frames[frame]) else Lost)
    case DropDir(_) => Result(s, InUse)
    case _ => Result(s, Lost)
  }

  function OperatedOff(config: Config, d: Dir, op: Op): Result {
    match op
    case Launch(now, listed, order) =>
      var r := Started(config, d, listed, order, now);
      Result(if r.ok then On(r.w, []) else Off(r.w.dir), Down)
    case DropDir(vid) =>
      if !config.persistent then Result(Off(d), Down)
      else
        var r := DirDropped(d, vid);
        Result(Off(r.dir), if r.ok then Gone else Down)
    case _ => Result(Off(d), Down)
  }

  function Answered(config: Config, s: State, op: Op): Result {
    var b := Begun(s, op);
    if b.On? then Operated(config, b, op) else OperatedOff(config, b.dir, op)
  }

  // The process dies, the disk as it was at the moment given.
  function Crashed(s: State, moment: nat): State {
    var d := DirOf(s);
    Off(if d.trail == [] then d else d.(image := d.trail[if moment < |d.trail| then moment else |d.trail| - 1]))
  }

  function After(config: Config, s: State, turn: Turn): State {
    var r := Answered(config, s, turn.op);
    if turn.dies then Crashed(r.s, turn.moment) else r.s
  }

  function AnswerTo(config: Config, s: State, turn: Turn): Answer {
    if turn.dies then Lost else Answered(config, s, turn.op).answer
  }

  // Orders are orders of what is there: a sweep that ends well has visited every vault, and a start
  // has read every record.
  ghost predicate Visits(order: seq<Vid>, all: set<Vid>, whole: bool) {
    (forall v :: v in order ==> v in all) && (whole ==> forall v :: v in all ==> v in order)
  }

  predicate Sweeps(w: World, vid: Vid, authentic: bool) { authentic && vid !in w.vaults && vid !in w.revoked }

  ghost predicate Enabled(config: Config, s: State, op: Op) {
    var b := Begun(s, op);
    && (op.Register? && b.On? && Sweeps(b.w, op.vid, op.authentic) ==>
        Visits(op.order, b.w.vaults.Keys, Swept(config, b.w, op.order, op.now).ok))
    && (op.Launch? && b.Off? && config.persistent ==>
          && Visits(op.listed, b.dir.image.records.Keys, true)
          && Visits(op.order, Loaded(b.dir, op.listed).vaults.Keys,
              Started(config, b.dir, op.listed, op.order, op.now).ok))
  }

  ghost predicate IsRun(config: Config, states: seq<State>, turns: seq<Turn>) {
    && |states| == |turns| + 1 && states[0] == Off(NO_DIR)
    && forall k :: 0 <= k < |turns| ==>
        Enabled(config, states[k], turns[k].op)
        && states[k + 1] == After(config, states[k], turns[k])
  }
}
