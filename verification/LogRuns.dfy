/** Whole runs of a log: batches added, writes and truncations that fail, crashes in the middle of a
    write, and reopenings, in any order (kv/store/logstore.go). */
module LogRuns {
  import opened Bytes
  import opened Entries
  import opened Canon
  import opened MemStores
  import opened LogStores

  datatype Step =
    | Add(news: seq<Entry>, disk: Disk)
    | Crash(news: seq<Entry>, written: nat)  // power lost while an Add writes, then a reopening
    | Reopen

  // The committed records of a file, and the bytes a failed write left after them.
  datatype State = State(log: seq<Entry>, junk: seq<byte>)

  const EMPTY := State([], [])

  // ---------- the machine ----------

  // The entries a store holds when its file has these records.
  function Held(id: Ids, log: seq<Entry>): seq<Entry> { AddAll(id, [], log) }

  // The batch's entries it lacks, each once: what an Add writes.
  function New(id: Ids, log: seq<Entry>, news: seq<Entry>): seq<Entry> { Fresh(id, Held(id, log), news) }

  // What a reopening finds after the committed records.
  function Tail(id: Ids, s: State, step: Step): seq<byte> {
    match step
    case Crash(news, written) =>
      var b := Records(New(id, s.log, news));
      Over(b[..Min(written, |b|)], s.junk)
    case _ => s.junk
  }

  // The file after a step: an Add's records if it succeeds, and at a reopening whatever whole
  // records stand after the committed ones.
  function After(id: Ids, s: State, step: Step): State {
    match step
    case Add(news, disk) =>
      var missing := New(id, s.log, news);
      State(if disk.Works? then s.log + missing else s.log, Left(s.junk, missing, disk))
    case _ => State(s.log + Replayed(Tail(id, s, step)), [])
  }

  // The step is an Add that succeeds.
  predicate Acked(id: Ids, s: State, step: Step) {
    step.Add? && (step.disk.Works? || New(id, s.log, step.news) == [])
  }

  ghost predicate IsRun(id: Ids, states: seq<State>, steps: seq<Step>) {
    && |states| == |steps| + 1 && states[0] == EMPTY
    && forall k :: 0 <= k < |steps| ==> states[k + 1] == After(id, states[k], steps[k])
  }

  // ---------- every run ----------

  // No run loses a record, whether or not a failed write could be undone.
  lemma {:induction false} LogGrows(id: Ids, states: seq<State>, steps: seq<Step>, i: nat, j: nat)
    requires IsRun(id, states, steps) && i <= j < |states|
    ensures states[i].log <= states[j].log
    decreases j
  {
    if i < j {
      LogGrows(id, states, steps, i, j - 1);
      assert states[j] == After(id, states[j - 1], steps[j - 1]);
    }
  }

  // Whatever an acknowledged Add was given is held from then on, through every later failure,
  // crash and reopening.
  lemma {:induction false} AckedIsHeld(id: Ids, states: seq<State>, steps: seq<Step>, i: nat, j: nat)
    requires Injective(id) && IsRun(id, states, steps) && i < |steps| && i < j < |states|
             && Acked(id, states[i], steps[i])
    ensures Elements(steps[i].news) <= Elements(Held(id, states[j].log))
  {
    LogGrows(id, states, steps, i + 1, j);
    HeldByLog(id, states[j].log);
    var log := states[i].log;
    var held, missing := Held(id, log), New(id, log, steps[i].news);
    assert states[i + 1] == After(id, states[i], steps[i]);
    assert log + missing == states[i + 1].log;
    AddAllElements(id, held, steps[i].news);
    AddFreshOnly(id, held, steps[i].news);
    AddAllFresh(id, held, steps[i].news);
    AddAllAppend(id, [], log, missing);
    HeldByLog(id, states[i + 1].log);
  }

  // ---------- memory and disk ----------

  // Memory is what the committed records hold, and a replay of the file finds the same.
  ghost predicate Agrees(s: State) { Replayed(Records(s.log) + s.junk) == s.log }

  // It does when what was left after them starts with no whole record.
  lemma {:induction false} DiskAgrees(s: State)
    requires AllValid(s.log)
    ensures Agrees(s) <==> ReadOne(s.junk) == Torn
  {
    ReplayedInverse(s.log, s.junk);
    var more := Replayed(s.junk);
    assert |s.log + more| == |s.log| + |more|;
    if more == [] { assert s.log + more == s.log; }
  }

  // After an Add on a file with nothing left over, memory and disk agree if and only if there was
  // nothing to write, or the write succeeded, or was undone, or stopped within its first record.
  lemma {:induction false} AddAgrees(id: Ids, s: State, news: seq<Entry>, disk: Disk)
    requires s.junk == [] && AllValid(s.log) && AllValid(news)
    ensures var missing := New(id, s.log, news);
            Agrees(After(id, s, Add(news, disk))) <==>
              || missing == [] || disk.Works? || Undone(disk)
              || |Written(missing, disk)| < |Record(missing[0])|
  {
    var missing, t := New(id, s.log, news), After(id, s, Add(news, disk));
    AddAllFresh(id, Held(id, s.log), news);
    DiskAgrees(t);
    if missing == [] || disk.Works? || Undone(disk) {
      assert t.junk == [];
      assert ReadOne(t.junk) == Torn;
    } else {
      var n := |Written(missing, disk)|;
      assert t.junk == Written(missing, disk) == Records(missing)[..n];
      FrontTorn(missing, n);
    }
  }

  // The front of a write is torn exactly when its first record is.
  lemma {:induction false} FrontTorn(es: seq<Entry>, n: nat)
    requires es != [] && AllValid(es) && n <= |Records(es)|
    ensures ReadOne(Records(es)[..n]) == Torn <==> n < |Record(es[0])|
  {
    var record, rest := Record(es[0]), Records(es[1..]);
    TakeAppend(record, rest, n);
    if n < |record| {
      ReadOnePart(es[0], n);
    } else {
      ReadOneInverse(es[0], rest[..n - |record|]);
    }
  }

  // ---------- what is held was given ----------

  // What a step puts on the disk.
  function Put(id: Ids, s: State, step: Step): seq<byte> {
    match step
    case Add(news, disk) => Written(New(id, s.log, news), disk)
    case Crash(news, written) =>
      var b := Records(New(id, s.log, news));
      b[..Min(written, |b|)]
    case Reopen => []
  }

  // A write reaches over everything a failed one left, or it is undone, or it is none. So it does
  // when a failed write is undone or the log opened again before the next.
  ghost predicate Reaches(id: Ids, s: State, step: Step) {
    Put(id, s, step) == [] || |Put(id, s, step)| >= |s.junk| || (step.Add? && Undone(step.disk))
  }

  ghost predicate AllReach(id: Ids, states: seq<State>, steps: seq<Step>) {
    |steps| <= |states| && forall k :: 0 <= k < |steps| ==> Reaches(id, states[k], steps[k])
  }

  // Before step k some step was given e.
  ghost predicate Given(steps: seq<Step>, k: nat, e: Entry) {
    exists i :: 0 <= i < k && i < |steps| && !steps[i].Reopen? && e in steps[i].news
  }

  ghost predicate AllGiven(steps: seq<Step>, k: nat, es: seq<Entry>) { forall e :: e in es ==> Given(steps, k, e) }

  // The bytes are the front of a write of entries that were given.
  ghost predicate FrontOf(steps: seq<Step>, k: nat, b: seq<byte>, es: seq<Entry>) {
    AllValid(es) && AllGiven(steps, k, es) && b <= Records(es)
  }

  lemma {:induction false} GivenLater(steps: seq<Step>, k: nat, es: seq<Entry>)
    requires AllGiven(steps, k, es)
    ensures AllGiven(steps, k + 1, es)
  {
  }

  lemma {:induction false} NewGiven(id: Ids, s: State, steps: seq<Step>, k: nat)
    requires k < |steps| && !steps[k].Reopen?
    ensures AllGiven(steps, k + 1, New(id, s.log, steps[k].news))
    ensures AllValid(steps[k].news) ==> AllValid(New(id, s.log, steps[k].news))
  {
    AddAllFresh(id, Held(id, s.log), steps[k].news);
  }

  // What a replay finds in the front of a write is of that write.
  lemma {:induction false} FrontReplayed(steps: seq<Step>, k: nat, b: seq<byte>, es: seq<Entry>)
    requires FrontOf(steps, k, b, es)
    ensures AllGiven(steps, k, Replayed(b))
  {
    assert b == Records(es)[..|b|];
    ReplayedPart(es, |b|);
  }

  // What stands after the committed records once a step has written: the step's bytes or what stood
  // there before.
  lemma {:induction false} Tails(id: Ids, s: State, step: Step)
    requires Reaches(id, s, step)
    ensures step.Add? ==>
            After(id, s, step).junk == [] || After(id, s, step).junk == Put(id, s, step)
            || After(id, s, step).junk == s.junk
    ensures !step.Add? ==> Tail(id, s, step) == Put(id, s, step) || Tail(id, s, step) == s.junk
  {
    var b := Put(id, s, step);
    assert |b| >= |s.junk| ==> Over(b, s.junk) == b;
    assert b == [] ==> Over(b, s.junk) == s.junk;
  }

  lemma {:induction false} StepGiven(id: Ids, s: State, steps: seq<Step>, k: nat, front: seq<Entry>)
      returns (next: seq<Entry>)
    requires k < |steps| && GoodSteps(steps) && Reaches(id, s, steps[k])
    requires AllGiven(steps, k, s.log) && FrontOf(steps, k, s.junk, front)
    ensures AllGiven(steps, k + 1, After(id, s, steps[k]).log)
            && FrontOf(steps, k + 1, After(id, s, steps[k]).junk, next)
  {
    var step, t := steps[k], After(id, s, steps[k]);
    GivenLater(steps, k, s.log);
    GivenLater(steps, k, front);
    Tails(id, s, step);
    var news := if step.Reopen? then [] else New(id, s.log, step.news);
    if !step.Reopen? { NewGiven(id, s, steps, k); }
    if step.Add? {
      next := if t.junk == s.junk then front else news;
    } else {
      next := [];
      if Tail(id, s, step) == s.junk {
        FrontReplayed(steps, k + 1, s.junk, front);
      } else {
        FrontReplayed(steps, k + 1, Tail(id, s, step), news);
      }
    }
  }

  lemma {:induction false} RunGiven(id: Ids, states: seq<State>, steps: seq<Step>, j: nat) returns (front: seq<Entry>)
    requires IsRun(id, states, steps) && GoodSteps(steps) && AllReach(id, states, steps) && j < |states|
    ensures AllGiven(steps, j, states[j].log) && FrontOf(steps, j, states[j].junk, front)
    decreases j
  {
    front := [];
    if j > 0 {
      front := RunGiven(id, states, steps, j - 1);
      front := StepGiven(id, states[j - 1], steps, j - 1, front);
      assert states[j] == After(id, states[j - 1], steps[j - 1]);
    }
  }

  // What is held was given, in every run in which no write stops short of what a failed one left.
  lemma {:induction false} HeldWasGiven(id: Ids, states: seq<State>, steps: seq<Step>, j: nat, e: Entry)
      returns (i: nat)
    requires IsRun(id, states, steps) && GoodSteps(steps) && AllReach(id, states, steps) && j < |states|
             && e in states[j].log
    ensures i < j && !steps[i].Reopen? && e in steps[i].news
  {
    var front := RunGiven(id, states, steps, j);
    assert Given(steps, j, e);
    var g :| 0 <= g < j && g < |steps| && !steps[g].Reopen? && e in steps[g].news;
    i := g;
  }

  // Every failed write is undone, or nothing more is written until the log is opened again.
  ghost predicate Careful(id: Ids, states: seq<State>, steps: seq<Step>) {
    |steps| <= |states| && forall k :: 0 <= k < |steps| && states[k].junk != [] ==> Put(id, states[k], steps[k]) == []
  }

  lemma {:induction false} CarefulReaches(id: Ids, states: seq<State>, steps: seq<Step>)
    requires Careful(id, states, steps)
    ensures AllReach(id, states, steps)
  {
  }

  // A step on a file with nothing left over: of an interrupted write the whole records stay.
  lemma {:induction false} AfterClean(id: Ids, s: State, step: Step)
    requires s.junk == [] && (!step.Reopen? ==> AllValid(step.news))
    ensures step.Reopen? ==> After(id, s, step) == s
    ensures step.Crash? ==>
              var missing := New(id, s.log, step.news);
              var whole := WholeWithin(missing, Min(step.written, |Records(missing)|));
              After(id, s, step) == State(s.log + missing[..whole], [])
  {
    match step
    case Add(_, _) =>
    case Reopen =>
      ReplayedTorn([]);
      assert s.log + [] == s.log;
    case Crash(news, written) =>
      var missing := New(id, s.log, news);
      var n := Min(written, |Records(missing)|);
      AddAllFresh(id, Held(id, s.log), news);
      ReplayedPart(missing, n);
      assert Records(missing)[..n] + [] == Records(missing)[..n];
  }

  lemma {:induction false} FreshGiven(id: Ids, es: seq<Entry>, news: seq<Entry>, e: Entry)
    ensures e in Fresh(id, es, news) ==> e in news
    decreases |news|
  {
    if news != [] {
      FreshGiven(id, es, news[1..], e);
      FreshGiven(id, es + [news[0]], news[1..], e);
    }
  }

  // ---------- when a truncation fails ----------

  lemma {:induction false} OneNew(id: Ids, e: Entry)
    ensures New(id, [], [e]) == [e]
  {
    assert Held(id, []) == [];
    assert [e][1..] == [];
    assert Fresh(id, [], [e]) == [e] + Fresh(id, [] + [e], []);
  }

  lemma {:induction false} OneRecord(e: Entry)
    ensures Records([e]) == Record(e)
  {
    assert [e][1..] == [];
    assert Record(e) + [] == Record(e);
  }

  lemma {:induction false} LeftBehind(id: Ids, e: Entry)
    ensures After(id, EMPTY, Add([e], SyncFails(false))) == State([], Record(e))
  {
    OneNew(id, e);
    OneRecord(e);
    assert Record(e) + [] == Record(e);
  }

  lemma {:induction false} ReplayedAlone(e: Entry)
    requires Entries.Valid(e)
    ensures Replayed(Record(e)) == [e]
  {
    OneRecord(e);
    ReplayedInverse([e], []);
    ReplayedTorn([]);
    assert Record(e) + [] == Record(e);
  }

  // An Add that was refused, and whose entry memory does not hold, is there after a reopening.
  lemma {:induction false} RefusedComesBack(id: Ids, e: Entry) returns (states: seq<State>, steps: seq<Step>)
    requires Entries.Valid(e)
    ensures steps == [Add([e], SyncFails(false)), Reopen] && IsRun(id, states, steps)
    ensures !Acked(id, states[0], steps[0]) && states[1].log == [] && states[2].log == [e]
  {
    OneNew(id, e);
    LeftBehind(id, e);
    ReplayedAlone(e);
    steps := [Add([e], SyncFails(false)), Reopen];
    states := [EMPTY, State([], Record(e)), State([e], [])];
    assert After(id, states[0], steps[0]) == states[1];
    assert After(id, states[1], steps[1]) == states[2];
  }

  // The record whose front is b's length and timestamp and whose rest is a's.
  lemma {:induction false} RecordMixed(a: Entry, b: Entry)
    requires Entries.Valid(a) && Entries.Valid(b) && |a.ct| == |b.ct|
    ensures |Record(a)| == |Record(b)| && |Record(b)| >= 12
    ensures Entries.Valid(Entry(b.ts, a.nonce, a.ct))
    ensures Record(b)[..12] + Record(a)[12..] == Record(Entry(b.ts, a.nonce, a.ct))
  {
    var c := Entry(b.ts, a.nonce, a.ct);
    RecordParts(a);
    RecordParts(b);
    RecordParts(c);
    assert Record(c)[..12] == Record(b)[..12] && Record(c)[12..] == Record(a)[12..];
    Split(Record(c), 12);
  }

  lemma {:induction false} RecordParts(e: Entry)
    requires Entries.Valid(e)
    ensures |Record(e)| == 4 + Size(e) && |Record(e)| >= 12
    ensures Record(e)[..12] == LittleEndian(Size(e), 4) + LittleEndian(e.ts, 8)
    ensures Record(e)[12..] == e.nonce + LittleEndian(|e.ct|, 2) + e.ct
  {
    Powers();
    RecordIs(e);
    LittleEndianInverse(Size(e), 4);
    LittleEndianInverse(e.ts, 8);
    var len, ts, rest := LittleEndian(Size(e), 4), LittleEndian(e.ts, 8), LittleEndian(|e.ct|, 2);
    Associate(ts, e.nonce, rest);
    Associate(ts, e.nonce + rest, e.ct);
    Associate(len, ts, e.nonce + rest + e.ct);
    TakeAppend(len + ts, e.nonce + rest + e.ct, 12);
    DropAppend(len + ts, e.nonce + rest + e.ct, 12);
  }

  // And a crash in the middle of the write that follows can leave an entry nobody gave.
  lemma {:induction false} NobodysEntry(id: Ids, a: Entry, b: Entry) returns (states: seq<State>, steps: seq<Step>)
    requires Entries.Valid(a) && Entries.Valid(b) && |a.ct| == |b.ct|
    ensures steps == [Add([a], SyncFails(false)), Crash([b], 12)] && IsRun(id, states, steps)
    ensures states[2].log == [Entry(b.ts, a.nonce, a.ct)]
  {
    var c := Entry(b.ts, a.nonce, a.ct);
    OneNew(id, a);
    OneNew(id, b);
    OneRecord(b);
    RecordMixed(a, b);
    LeftBehind(id, a);
    ReplayedAlone(c);
    steps := [Add([a], SyncFails(false)), Crash([b], 12)];
    states := [EMPTY, State([], Record(a)), State([c], [])];
    assert After(id, states[0], steps[0]) == states[1];
    assert Tail(id, states[1], steps[1]) == Record(c);
    assert After(id, states[1], steps[1]) == states[2];
  }

  // ---------- a store that takes the steps ----------

  ghost predicate GoodSteps(steps: seq<Step>) {
    forall k :: 0 <= k < |steps| && !steps[k].Reopen? ==> AllValid(steps[k].news)
  }

  lemma {:induction false} HeldByLog(id: Ids, log: seq<Entry>)
    requires Injective(id)
    ensures Elements(AddAll(id, [], log)) == Elements(log)
  {
    AddAllElements(id, [], log);
  }

  ghost function Now(ls: LogStore): State
    reads ls
  {
    State(ls.log, ls.junk)
  }

  lemma {:induction false} FileRead(log: seq<Entry>, tail: seq<byte>)
    requires AllValid(log)
    ensures var f := MAGIC + Records(log) + tail;
            f != [] && MAGIC <= f && f[8..] == Records(log) + tail && Replayed(f[8..]) == log + Replayed(tail)
  {
    Associate(MAGIC, Records(log), tail);
    assert (MAGIC + (Records(log) + tail))[8..] == Records(log) + tail;
    ReplayedInverse(log, tail);
  }

  method OpenAt(id: Ids, hash: Hash, file: seq<byte>) returns (ls: LogStore)
    requires MAGIC <= file
    ensures fresh(ls) && fresh(ls.mem) && ls.Valid() && ls.mem.id == id && ls.mem.hash == hash
    ensures ls.log == Replayed(file[8..]) && ls.junk == []
  {
    ls := new LogStore(id, hash, file);
    var ok := ls.Init(Works);
  }

  // Power is lost after n bytes of an Add's write; the log is opened again.
  method CrashAndReopen(ls: LogStore, news: seq<Entry>, n: nat) returns (r: LogStore)
    requires ls.Valid() && AllValid(news)
    ensures fresh(r) && fresh(r.mem) && r.Valid() && r.mem.id == ls.mem.id && r.mem.hash == ls.mem.hash
    ensures Now(r) == After(ls.mem.id, Now(ls), Crash(news, n))
  {
    var missing := ls.Missing(news);
    var b := Records(missing)[..Min(n, |Records(missing)|)];
    OverAt(MAGIC + Records(ls.log), ls.junk, b, ls.file);
    var tail := Over(b, ls.file[ls.off..]);
    FileRead(ls.log, tail);
    r := OpenAt(ls.mem.id, ls.mem.hash, ls.file[..ls.off] + tail);
  }

  method Take(ls: LogStore, step: Step) returns (r: LogStore, ok: bool)
    requires ls.Valid() && (!step.Reopen? ==> AllValid(step.news))
    modifies ls, ls.mem
    ensures r == ls || (fresh(r) && fresh(r.mem))
    ensures r.Valid() && r.mem.id == ls.mem.id && r.mem.hash == ls.mem.hash
    ensures Now(r) == After(ls.mem.id, old(Now(ls)), step) && ok == Acked(ls.mem.id, old(Now(ls)), step)
  {
    ok := false;
    match step {
      case Add(news, disk) =>
        r := ls;
        var added;
        added, ok := ls.Add(news, disk);
        assert old(ls.log) + [] == old(ls.log);
      case Crash(news, n) =>
        r := CrashAndReopen(ls, news, n);
      case Reopen =>
        FileRead(ls.log, ls.junk);
        r := OpenAt(ls.mem.id, ls.mem.hash, ls.file);
    }
  }

  lemma {:induction false} RunMore(id: Ids, states: seq<State>, steps: seq<Step>, k: nat, next: State)
    requires k < |steps| && IsRun(id, states, steps[..k]) && next == After(id, states[k], steps[k])
    ensures IsRun(id, states + [next], steps[..k + 1])
  {
    var more, did := states + [next], steps[..k + 1];
    forall i | 0 <= i < k + 1
      ensures more[i + 1] == After(id, more[i], did[i])
    {
      if i < k { assert did[i] == steps[..k][i] && states[i + 1] == After(id, states[i], steps[..k][i]); }
    }
  }

  // Any steps, taken by a store: a run of the machine and what was acknowledged of it, the store's
  // memory at its end what the committed records of its file hold.
  method Run(id: Ids, hash: Hash, steps: seq<Step>) returns (ls: LogStore, oks: seq<bool>, ghost states: seq<State>)
    requires GoodSteps(steps)
    ensures IsRun(id, states, steps) && ls.Valid() && ls.mem.id == id && Now(ls) == states[|steps|]
    ensures ls.mem.entries == Held(id, states[|steps|].log)
    ensures Replayed(ls.file[8..]) == states[|steps|].log + Replayed(states[|steps|].junk)
    ensures |oks| == |steps| && forall k :: 0 <= k < |steps| ==> oks[k] == Acked(id, states[k], steps[k])
  {
    ls := new LogStore(id, hash, []);
    var ok := ls.Init(Works);
    oks, states := [], [EMPTY];
    while |oks| < |steps|
      invariant |oks| <= |steps| && fresh(ls) && fresh(ls.mem) && ls.Valid() && ls.mem.id == id
      invariant Taken(id, states, steps, oks, Now(ls))
    {
      ghost var was := Now(ls);
      ls, ok := Take(ls, steps[|oks|]);
      TakenMore(id, states, steps, oks, was, Now(ls), ok);
      oks, states := oks + [ok], states + [Now(ls)];
    }
    assert steps[..|oks|] == steps;
    FileRead(ls.log, ls.junk);
  }

  // The first steps taken, where they lead, and what was acknowledged of them.
  ghost predicate Taken(id: Ids, states: seq<State>, steps: seq<Step>, oks: seq<bool>, now: State) {
    && |oks| <= |steps| && IsRun(id, states, steps[..|oks|]) && now == states[|oks|]
    && Answered(id, states, steps, oks)
  }

  lemma {:induction false} TakenMore(id: Ids, states: seq<State>, steps: seq<Step>, oks: seq<bool>, now: State,
      next: State, ok: bool)
    requires Taken(id, states, steps, oks, now) && |oks| < |steps|
    requires next == After(id, now, steps[|oks|]) && ok == Acked(id, now, steps[|oks|])
    ensures Taken(id, states + [next], steps, oks + [ok], next)
  {
    RunMore(id, states, steps, |oks|, next);
    AnsweredMore(id, states, steps, oks, next, ok);
  }

  predicate Answered(id: Ids, states: seq<State>, steps: seq<Step>, oks: seq<bool>) {
    |oks| <= |steps| && |oks| <= |states| && forall k :: 0 <= k < |oks| ==> oks[k] == Acked(id, states[k], steps[k])
  }

  lemma {:induction false} AnsweredMore(id: Ids, states: seq<State>, steps: seq<Step>, oks: seq<bool>, next: State,
      ok: bool)
    requires Answered(id, states, steps, oks) && |oks| < |steps| && |states| == |oks| + 1
    requires ok == Acked(id, states[|oks|], steps[|oks|])
    ensures Answered(id, states + [next], steps, oks + [ok])
  {
    var more, did := states + [next], oks + [ok];
    forall k | 0 <= k < |did|
      ensures did[k] == Acked(id, more[k], steps[k])
    {
      assert more[k] == states[k];
      if k < |oks| { assert did[k] == oks[k]; }
    }
  }
}
