/** The append-only log under a store (kv/store/logstore.go): what a reader makes of any file, and
    the store that keeps its memory and its file the same through failed writes and restarts. */
module LogStores {
  import opened Bytes
  import opened Entries
  import opened Canon
  import opened MemStores

  // "ASCONKVA"
  const MAGIC: seq<byte> := [65, 83, 67, 79, 78, 75, 86, 65]

  // ---------- the file ----------

  // rec_len(4) | entry
  function Record(e: Entry): seq<byte> { LittleEndian(Size(e), 4) + Marshal(e) }

  function Records(es: seq<Entry>): seq<byte> {
    if es == [] then [] else Record(es[0]) + Records(es[1..])
  }

  datatype ReadRecord = Torn | Whole(e: Entry, rest: seq<byte>)

  // The record f starts with, if a whole one stands there.
  function ReadOne(f: seq<byte>): (r: ReadRecord)
    ensures r.Whole? ==> |r.rest| < |f|
  {
    if |f| < 4 then Torn
    else
      var recLen := FromLittleEndian(f[..4]);
      if recLen == 0 || recLen > MAX_ENTRY_BYTES || |f| < 4 + recLen then Torn
      else
        match Unmarshal(f[4..4 + recLen])
        case Parsed(e, consumed) => if consumed == recLen then Whole(e, f[4 + recLen..]) else Torn
        case _ => Torn
  }

  // The entries of the whole records f starts with.
  function Replayed(f: seq<byte>): seq<Entry>
    decreases |f|
  {
    match ReadOne(f)
    case Torn => []
    case Whole(e, rest) => [e] + Replayed(rest)
  }

  ghost predicate AllValid(es: seq<Entry>) { forall e :: e in es ==> Entries.Valid(e) }

  lemma {:induction false} RecordIs(e: Entry)
    requires Entries.Valid(e)
    ensures |Record(e)| == 4 + Size(e) && FromLittleEndian(Record(e)[..4]) == Size(e)
    ensures Record(e)[..4] == LittleEndian(Size(e), 4) && Record(e)[4..] == Marshal(e)
  {
    Powers();
    LittleEndianInverse(Size(e), 4);
    UnmarshalInverse(e, []);
  }

  lemma {:induction false} ReadOneInverse(e: Entry, rest: seq<byte>)
    requires Entries.Valid(e)
    ensures ReadOne(Record(e) + rest) == Whole(e, rest)
  {
    var f := Record(e) + rest;
    RecordIs(e);
    assert f[..4] == Record(e)[..4];
    assert f[4..4 + Size(e)] == Marshal(e) && f[4 + Size(e)..] == rest;
    UnmarshalInverse(e, []);
    assert Marshal(e) + [] == Marshal(e);
  }

  // Part of a record is torn, wherever it was cut.
  lemma {:induction false} ReadOnePart(e: Entry, n: nat)
    requires Entries.Valid(e) && n < |Record(e)|
    ensures ReadOne(Record(e)[..n]) == Torn
  {
    RecordIs(e);
    if n >= 4 { assert Record(e)[..n][..4] == Record(e)[..4]; }
  }

  lemma {:induction false} RecordOf(f: seq<byte>, recLen: nat, e: Entry)
    requires 4 <= |f| && 4 + recLen <= |f| && FromLittleEndian(f[..4]) == recLen
    requires f[4..4 + recLen] == Marshal(e) && recLen == Size(e)
    ensures f == Record(e) + f[4 + recLen..]
  {
    assert |f[..4]| == 4;
    FromLittleEndianInverse(f[..4]);
    assert Record(e) == f[..4] + f[4..4 + recLen];
    InThree(f, 4, 4 + recLen);
  }

  lemma {:induction false} InThree(f: seq<byte>, i: nat, j: nat)
    requires i <= j <= |f|
    ensures f == f[..i] + f[i..j] + f[j..]
  {
  }

  lemma {:induction false} ReadOneExact(f: seq<byte>)
    requires ReadOne(f).Whole?
    ensures Entries.Valid(ReadOne(f).e) && f == Record(ReadOne(f).e) + ReadOne(f).rest
  {
    var recLen := FromLittleEndian(f[..4]);
    var body := f[4..4 + recLen];
    UnmarshalExact(body);
    assert body[..recLen] == body;
    RecordOf(f, recLen, Unmarshal(body).e);
  }

  lemma {:induction false} RecordsAppend(a: seq<Entry>, b: seq<Entry>)
    ensures Records(a + b) == Records(a) + Records(b)
  {
    if a == [] {
      assert a + b == b;
    } else {
      RecordsAppend(a[1..], b);
      assert (a + b)[1..] == a[1..] + b;
      Associate(Record(a[0]), Records(a[1..]), Records(b));
    }
  }

  lemma {:induction false} ReplayedStep(f: seq<byte>, e: Entry, rest: seq<byte>)
    requires Entries.Valid(e) && f == Record(e) + rest
    ensures Replayed(f) == [e] + Replayed(rest)
  {
    ReadOneInverse(e, rest);
  }

  lemma {:induction false} ReplayedTorn(f: seq<byte>)
    requires ReadOne(f) == Torn
    ensures Replayed(f) == []
  {
  }

  // Committed records read back whole, whatever follows them.
  lemma {:induction false} ReplayedInverse(es: seq<Entry>, tail: seq<byte>)
    requires AllValid(es)
    ensures Replayed(Records(es) + tail) == es + Replayed(tail)
  {
    if es == [] {
      assert Records(es) + tail == tail;
    } else {
      var rest := Records(es[1..]) + tail;
      Associate(Record(es[0]), Records(es[1..]), tail);
      ReplayedStep(Records(es) + tail, es[0], rest);
      ReplayedInverse(es[1..], tail);
      AppendCons(es, Replayed(tail));
    }
  }

  // What replay keeps is a prefix of the file, and what it drops starts with no whole record.
  lemma {:induction false} ReplayedExact(f: seq<byte>)
    ensures AllValid(Replayed(f))
    ensures var n := |Records(Replayed(f))|; n <= |f| && f[..n] == Records(Replayed(f)) && ReadOne(f[n..]) == Torn
    decreases |f|
  {
    match ReadOne(f)
    case Torn =>
      assert f[0..] == f;
    case Whole(e, rest) =>
      ReadOneExact(f);
      ReplayedExact(rest);
      var more := Replayed(rest);
      assert ([e] + more)[1..] == more;
      var n := |Record(e)| + |Records(more)|;
      TakeAppend(Record(e), rest, n);
      DropAppend(Record(e), rest, n);
  }

  // How many of the records of es lie whole within n bytes.
  function WholeWithin(es: seq<Entry>, n: nat): (k: nat)
    ensures k <= |es|
  {
    if es == [] || n < 4 + Size(es[0]) then 0 else 1 + WholeWithin(es[1..], n - 4 - Size(es[0]))
  }

  lemma {:induction false} ReplayedPart(es: seq<Entry>, n: nat)
    requires AllValid(es) && n <= |Records(es)|
    ensures Replayed(Records(es)[..n]) == es[..WholeWithin(es, n)]
  {
    if es != [] {
      RecordIs(es[0]);
      var record := Record(es[0]);
      TakeAppend(record, Records(es[1..]), n);
      if n < |record| {
        ReadOnePart(es[0], n);
        ReplayedTorn(record[..n]);
      } else {
        var part := Records(es[1..])[..n - |record|];
        ReplayedStep(record + part, es[0], part);
        ReplayedPart(es[1..], n - |record|);
        TakeCons(es, WholeWithin(es[1..], n - |record|));
      }
    }
  }

  // A log cut anywhere in an interrupted append gives back the committed entries and the
  // append's whole records, and no more.
  lemma {:induction false} TornAppend(committed: seq<Entry>, news: seq<Entry>, n: nat)
    requires AllValid(committed) && AllValid(news) && n <= |Records(news)|
    ensures Replayed(Records(committed) + Records(news)[..n]) == committed + news[..WholeWithin(news, n)]
  {
    ReplayedInverse(committed, Records(news)[..n]);
    ReplayedPart(news, n);
  }

  // So does one whose tail a filesystem left zero-filled.
  lemma {:induction false} ZeroTail(committed: seq<Entry>, tail: seq<byte>)
    requires AllValid(committed) && |tail| >= 4 && tail[..4] == [0, 0, 0, 0]
    ensures Replayed(Records(committed) + tail) == committed
  {
    LittleEndianInverse(0, 4);
    assert LittleEndian(0, 4) == [0, 0, 0, 0];
    ReplayedTorn(tail);
    ReplayedInverse(committed, tail);
    assert committed + [] == committed;
  }

  // ---------- what an Add writes ----------

  // The entries of news that es lacks, each once.
  function Fresh(id: Ids, es: seq<Entry>, news: seq<Entry>): seq<Entry>
    decreases |news|
  {
    if news == [] then []
    else if id(news[0]) in IdsOf(id, es) then Fresh(id, es, news[1..])
    else [news[0]] + Fresh(id, es + [news[0]], news[1..])
  }

  lemma {:induction false} AddAllFresh(id: Ids, es: seq<Entry>, news: seq<Entry>)
    ensures AddAll(id, es, news) == es + Fresh(id, es, news)
    ensures forall e :: e in Fresh(id, es, news) ==> e in news
    decreases |news|
  {
    if news != [] {
      AddAllFresh(id, Added(id, es, news[0]), news[1..]);
    }
  }

  lemma {:induction false} FreshStep(id: Ids, es: seq<Entry>, news: seq<Entry>, i: nat)
    requires i < |news|
    ensures Fresh(id, es, news[i..]) ==
            if id(news[i]) in IdsOf(id, es) then Fresh(id, es, news[i + 1..])
            else [news[i]] + Fresh(id, es + [news[i]], news[i + 1..])
  {
    assert news[i..][1..] == news[i + 1..];
  }

  lemma {:induction false} GrowIds(id: Ids, es: seq<Entry>, e: Entry)
    ensures forall x :: x in IdsOf(id, es + [e]) <==> x in IdsOf(id, es) || x == id(e)
  {
    assert IdsOf(id, es + [e]) == IdsOf(id, es) + [id(e)];
  }

  // One entry of a batch looked at: kept in r, or passed over.
  lemma {:induction false} FreshTurn(id: Ids, es: seq<Entry>, news: seq<Entry>, i: nat, r: seq<Entry>,
      whole: seq<Entry>)
    requires i < |news| && r + Fresh(id, es, news[i..]) == whole
    ensures id(news[i]) in IdsOf(id, es) ==> r + Fresh(id, es, news[i + 1..]) == whole
    ensures id(news[i]) !in IdsOf(id, es) ==> r + [news[i]] + Fresh(id, es + [news[i]], news[i + 1..]) == whole
  {
    FreshStep(id, es, news, i);
  }

  // Adding the new entries alone is adding them all.
  lemma {:induction false} AddFreshOnly(id: Ids, es: seq<Entry>, news: seq<Entry>)
    ensures AddAll(id, es, Fresh(id, es, news)) == es + Fresh(id, es, news)
    decreases |news|
  {
    if news != [] {
      if id(news[0]) in IdsOf(id, es) {
        AddFreshOnly(id, es, news[1..]);
      } else {
        AddFreshOnly(id, es + [news[0]], news[1..]);
      }
    }
  }

  // A replay that has read log and stands at offset.
  ghost predicate Reading(f: seq<byte>, offset: nat, log: seq<Entry>) {
    && 8 <= offset <= |f|
    && AllValid(log)
    && f[..offset] == MAGIC + Records(log)
    && log + Replayed(f[offset..]) == Replayed(f[8..])
  }

  lemma {:induction false} RecordsGrow(front: seq<byte>, log: seq<Entry>, e: Entry)
    requires front == MAGIC + Records(log)
    ensures front + Record(e) == MAGIC + Records(log + [e])
  {
    RecordsAppend(log, [e]);
    assert Records([e]) == Record(e);
    Associate(MAGIC, Records(log), Record(e));
  }

  lemma {:induction false} ReplayGrows(log: seq<Entry>, f: seq<byte>, e: Entry, rest: seq<byte>)
    requires Entries.Valid(e) && f == Record(e) + rest
    ensures log + Replayed(f) == log + [e] + Replayed(rest)
  {
    ReplayedStep(f, e, rest);
    AssociateEntries(log, [e], Replayed(rest));
  }

  lemma {:induction false} AssociateEntries(a: seq<Entry>, b: seq<Entry>, c: seq<Entry>)
    ensures a + b + c == a + (b + c)
  {
  }

  lemma {:induction false} ReadingGoesOn(f: seq<byte>, offset: nat, log: seq<Entry>, e: Entry, rest: seq<byte>,
      next: nat)
    requires Reading(f, offset, log) && ReadOne(f[offset..]) == Whole(e, rest) && next == offset + 4 + Size(e)
    ensures Reading(f, next, log + [e]) && Entries.Valid(e)
  {
    ReadOneExact(f[offset..]);
    RecordIs(e);
    PartsAt(f, offset, Record(e), rest, next);
    RecordsGrow(f[..offset], log, e);
    ReplayGrows(log, f[offset..], e, rest);
  }

  lemma {:induction false} ReadingStarts(f: seq<byte>)
    requires MAGIC <= f
    ensures Reading(f, 8, [])
  {
    assert Records([]) == [];
  }

  lemma {:induction false} ReadingEnds(f: seq<byte>, offset: nat, log: seq<Entry>)
    requires Reading(f, offset, log) && ReadOne(f[offset..]) == Torn
    ensures log == Replayed(f[8..])
  {
    ReplayedTorn(f[offset..]);
  }

  lemma {:induction false} AddAllAppend(id: Ids, es: seq<Entry>, a: seq<Entry>, b: seq<Entry>)
    ensures AddAll(id, es, a + b) == AddAll(id, AddAll(id, es, a), b)
    decreases |a|
  {
    if a == [] {
      assert a + b == b;
    } else {
      assert (a + b)[1..] == a[1..] + b;
      AddAllAppend(id, Added(id, es, a[0]), a[1..], b);
    }
  }

  // ---------- the store ----------

  // What the disk makes of one write and one fsync: both succeed, or the file cannot be asked where
  // it stands, or the write stops after some bytes, or the fsync fails after all of them; cut: the
  // truncation that should undo the failure succeeds too.
  datatype Disk = Works | AskFails | WriteFails(written: nat, cut: bool) | SyncFails(cut: bool)

  // A failure that is undone.
  predicate Undone(disk: Disk) { (disk.WriteFails? || disk.SyncFails?) && disk.cut }

  // What a write of b gets onto the disk.
  function Reached(b: seq<byte>, disk: Disk): seq<byte> {
    match disk
    case AskFails => []
    case WriteFails(written, _) => b[..Min(written, |b|)]
    case _ => b
  }

  // A file's bytes from where b is written: b and what it does not reach.
  function Over(b: seq<byte>, tail: seq<byte>): seq<byte> { b + if |b| < |tail| then tail[|b|..] else [] }

  // What an Add's write gets onto the disk.
  function Written(news: seq<Entry>, disk: Disk): seq<byte> {
    Reached(Records(news), disk)
  }

  // What stands after the last committed record once an Add has written news there.
  function Left(junk: seq<byte>, news: seq<Entry>, disk: Disk): seq<byte> {
    if news == [] then junk
    else if disk.Works? then Over(Records(news), junk)[|Records(news)|..]
    else if Undone(disk) then []
    else Over(Written(news, disk), junk)
  }

  lemma {:induction false} OverAt(front: seq<byte>, junk: seq<byte>, b: seq<byte>, file: seq<byte>)
    requires file == front + junk
    ensures file[..|front|] == front && file[|front|..] == junk
    ensures front + Over(b, junk) == front + b + Over(b, junk)[|b|..]
  {
  }

  // The bytes one Add appends, before the write.
  method Lay(news: seq<Entry>) returns (buf: array<byte>)
    requires AllValid(news)
    ensures fresh(buf) && buf[..] == Records(news)
  {
    var total, i := 0, 0;
    while i < |news|
      invariant i <= |news| && total + |Records(news[i..])| == |Records(news)|
    {
      RecordsStep(news, i);
      RecordIs(news[i]);
      total := total + 4 + Size(news[i]);
      i := i + 1;
    }
    buf := new byte[total](_ => 0);
    ghost var done: seq<byte> := [];
    var pos: nat := 0;
    i := 0;
    while i < |news|
      invariant i <= |news| && pos == |done| <= buf.Length == |Records(news)|
      invariant done + Records(news[i..]) == Records(news)
      invariant buf[..pos] == done
    {
      RecordsStep(news, i);
      RecordIs(news[i]);
      Associate(done, Record(news[i]), Records(news[i + 1..]));
      LayOne(buf, pos, news[i]);
      done := done + Record(news[i]);
      pos := pos + 4 + Size(news[i]);
      i := i + 1;
    }
    assert done + [] == done;
  }

  lemma {:induction false} RecordsStep(news: seq<Entry>, i: nat)
    requires i < |news|
    ensures Records(news[i..]) == Record(news[i]) + Records(news[i + 1..])
  {
    assert news[i..][1..] == news[i + 1..];
  }

  method LayOne(buf: array<byte>, pos: nat, e: Entry)
    requires Entries.Valid(e) && pos + |Record(e)| <= buf.Length
    modifies buf
    ensures buf[..pos + |Record(e)|] == old(buf[..pos]) + Record(e)
  {
    RecordIs(e);
    ghost var b, len := buf[..], LittleEndian(Size(e), 4);
    PutLittleEndian(buf, pos, Size(e), 4);
    var n := MarshalTo(e, buf, pos + 4);
    SpliceTwice(b, pos, len, Marshal(e));
    SpliceFront(b, pos, Record(e));
  }

  lemma {:induction false} SpliceFront(b: seq<byte>, at: nat, s: seq<byte>)
    requires at + |s| <= |b|
    ensures Splice(b, at, s)[..at + |s|] == b[..at] + s
  {
  }

  class LogStore {
    const mem: MemStore
    var file: seq<byte>
    var off: nat
    ghost var log: seq<Entry>   // the entries of the file's committed records
    ghost var junk: seq<byte>   // what a failed write left after them

    // The file is the magic, whole records and what could not be cut off after them; the next
    // write goes to the records' end, and memory holds what they hold.
    ghost predicate Valid()
      reads this, mem
    {
      && mem.Valid()
      && AllValid(log)
      && file == MAGIC + Records(log) + junk
      && off == |MAGIC + Records(log)|
      && mem.entries == AddAll(mem.id, [], log)
    }

    // A handle on a file, its memory still empty.
    constructor (id: Ids, hash: Hash, file: seq<byte>)
      ensures fresh(mem) && mem.Valid() && mem.entries == [] && mem.id == id && mem.hash == hash
      ensures this.file == file
    {
      mem := new MemStore(id, hash);
      this.file := file;
      off := 0;
    }

    // init: a new file gets the magic; another's magic is checked and its records replayed, and
    // whatever follows the last whole record is cut off. A disk that fails while the magic is written
    // leaves what it wrote of it; one that fails at another file leaves that as it was.
    method Init(disk: Disk) returns (ok: bool)
      requires mem.Valid() && mem.entries == []
      modifies this, mem
      ensures ok <==> disk.Works? && (old(file) == [] || MAGIC <= old(file))
      ensures ok ==> Valid() && junk == []
      ensures ok ==> log == if old(file) == [] then [] else Replayed(old(file)[8..])
      ensures !ok ==> file == if old(file) == [] then Reached(MAGIC, disk) else old(file)
    {
      if |file| == 0 {
        file := Reached(MAGIC, disk);
        if !disk.Works? { return false; }
        off, log, junk := 8, [], [];
        assert MAGIC + Records([]) + [] == MAGIC;
        return true;
      }
      if !disk.Works? || |file| < 8 || file[..8] != MAGIC { return false; }
      Replay();
      return true;
    }

    // One record replayed: its entry goes to memory.
    method Restore(offset: nat, e: Entry, ghost rest: seq<byte>) returns (next: nat)
      requires mem.Valid() && mem.entries == AddAll(mem.id, [], log)
      requires Reading(file, offset, log) && ReadOne(file[offset..]) == Whole(e, rest)
      modifies this`log, mem
      ensures next > offset && mem.Valid() && mem.entries == AddAll(mem.id, [], log) && Reading(file, next, log)
    {
      next := offset + 4 + Size(e);
      ReadingGoesOn(file, offset, log, e, rest, next);
      AddAllAppend(mem.id, [], log, [e]);
      var added := mem.Add([e]);
      log := log + [e];
    }

    method Replay()
      requires MAGIC <= file && mem.Valid() && mem.entries == []
      modifies this, mem
      ensures Valid() && junk == [] && log == Replayed(old(file)[8..])
    {
      var offset := 8;
      log := [];
      ghost var f := file;
      ReadingStarts(f);
      while true
        invariant file == f && Reading(f, offset, log)
        invariant mem.Valid() && mem.entries == AddAll(mem.id, [], log)
        decreases |f| - offset
      {
        var r := ReadOne(file[offset..]);
        if r == Torn { break; }
        offset := Restore(offset, r.e, r.rest);
      }
      // A torn tail is truncated away; at the end of the file there is nothing to cut.
      ReadingEnds(f, offset, log);
      file, off, junk := file[..offset], offset, [];
      assert file + [] == file;
    }

    // Add: one write and one fsync for the batch's new entries; memory and the committed records
    // follow only if both succeed.
    method Add(news: seq<Entry>, disk: Disk) returns (added: nat, ok: bool)
      requires Valid() && AllValid(news)
      modifies this, mem
      ensures Valid()
      ensures ok <==> disk.Works? || Fresh(mem.id, old(mem.entries), news) == []
      ensures log == if ok then old(log) + Fresh(mem.id, old(mem.entries), news) else old(log)
      ensures mem.entries == if ok then AddAll(mem.id, old(mem.entries), news) else old(mem.entries)
      ensures added == |mem.entries| - |old(mem.entries)|
      ensures junk == Left(old(junk), Fresh(mem.id, old(mem.entries), news), disk)
    {
      var missing := Missing(news);
      AddAllFresh(mem.id, mem.entries, news);
      if |missing| == 0 {
        assert log + [] == log;
        return 0, true;
      }
      AddFreshOnly(mem.id, mem.entries, news);
      AddAllAppend(mem.id, [], log, missing);
      ok := Append(missing, disk);
      if !ok { return 0, false; }
      added := mem.Add(missing);
    }

    // The write, the fsync and what undoes them.
    method Append(missing: seq<Entry>, disk: Disk) returns (ok: bool)
      requires AllValid(log) && AllValid(missing) && missing != []
      requires file == MAGIC + Records(log) + junk && off == |MAGIC + Records(log)|
      modifies this`file, this`off, this`log, this`junk
      ensures ok == disk.Works? && AllValid(log)
      ensures log == (if ok then old(log) + missing else old(log)) && junk == Left(old(junk), missing, disk)
      ensures file == MAGIC + Records(log) + junk && off == |MAGIC + Records(log)|
    {
      var buf := Lay(missing);
      var at := off;
      ghost var front := MAGIC + Records(log);
      match disk {
        case AskFails =>
          return false;
        case Works =>
          OverAt(front, junk, buf[..], file);
          Write(buf[..]);
        case WriteFails(written, cut) =>
          OverAt(front, junk, Written(missing, disk), file);
          Write(buf[..Min(written, buf.Length)]);
          Rollback(at, cut);
          junk := Left(junk, missing, disk);
          return false;
        case SyncFails(cut) =>
          OverAt(front, junk, buf[..], file);
          Write(buf[..]);
          Rollback(at, cut);
          junk := Left(junk, missing, disk);
          return false;
      }
      RecordsAppend(log, missing);
      Associate(MAGIC, Records(log), Records(missing));
      junk := Left(junk, missing, disk);
      log := log + missing;
      return true;
    }

    // The bytes go over what stands at the offset.
    method Write(b: seq<byte>)
      requires off <= |file|
      modifies this`file, this`off
      ensures file == old(file)[..old(off)] + Over(b, old(file)[old(off)..]) && off == old(off) + |b|
    {
      file := file[..off] + b + if off + |b| < |file| then file[off + |b|..] else [];
      off := off + |b|;
    }

    // The batch's entries that the store lacks, each once.
    method Missing(news: seq<Entry>) returns (r: seq<Entry>)
      requires mem.Valid()
      ensures r == Fresh(mem.id, mem.entries, news)
    {
      r := [];
      var seen: set<Id>, i := {}, 0;
      ghost var es := mem.entries;
      mem.HasIs();
      while i < |news|
        invariant i <= |news| && es == mem.entries + r
        invariant forall x :: x in IdsOf(mem.id, es) <==> x in seen || x in mem.has
        invariant r + Fresh(mem.id, es, news[i..]) == Fresh(mem.id, mem.entries, news)
      {
        var x := mem.id(news[i]);
        FreshTurn(mem.id, es, news, i, r, Fresh(mem.id, mem.entries, news));
        if x !in seen && x !in mem.has {
          GrowIds(mem.id, es, news[i]);
          r, seen, es := r + [news[i]], seen + {x}, es + [news[i]];
        }
        i := i + 1;
      }
    }

    // Best effort: a truncation that fails leaves what was written.
    method Rollback(at: nat, cut: bool)
      requires at <= |file|
      modifies this`file, this`off
      ensures file == (if cut then old(file)[..at] else old(file)) && off == at
    {
      if cut { file := file[..at]; }
      off := at;
    }
  }
}
