/** The server's vaults as it keeps them (kv/server/server.go, owner.go): an index of states behind
    one lock, over the data directory. Each method does to them what the specification says. */
module Vaults {
  import opened VaultSpecs

  class Disk {
    var image: Image
    var trail: seq<Image>      // every state the disk has been in since the operation began
    var unwritable: set<Vid>   // records that cannot be written now
    var stuck: set<Vid>        // logs that can be neither opened nor removed now

    function Now(): Dir
      reads this
    {
      Dir(image, trail, unwritable, stuck)
    }

    constructor ()
      ensures Now() == NO_DIR
    {
      image, trail, unwritable, stuck := Image(map[], {}), [Image(map[], {})], {}, {};
    }

    // durable.WriteFile: the whole record or nothing.
    method WriteRecord(vid: Vid, r: Record) returns (ok: bool)
      modifies this`image, this`trail
      ensures ok == (vid !in unwritable) && Now() == Wrote(old(Now()), vid, r)
    {
      if vid in unwritable { return false; }
      image := image.(records := image.records[vid := r]);
      trail := trail + [image];
      ok := true;
    }

    method OpenLog(vid: Vid) returns (ok: bool)
      modifies this`image, this`trail
      ensures ok == (vid !in stuck) && Now() == LogOpened(old(Now()), vid)
    {
      if vid in stuck { return false; }
      image := image.(logs := image.logs + {vid});
      trail := trail + [image];
      ok := true;
    }

    method RemoveLog(vid: Vid) returns (ok: bool)
      modifies this`image, this`trail
      ensures ok == (vid !in stuck || vid !in old(image).logs) && Now() == LogRemoved(old(Now()), vid)
    {
      if vid in stuck && vid in image.logs { return false; }
      image := image.(logs := image.logs - {vid});
      trail := trail + [image];
      ok := true;
    }

    // DropVaultDir, no server running.
    method DropVaultDir(vid: Vid) returns (ok: bool)
      modifies this`image, this`trail
      ensures Closed(Now(), ok) == DirDropped(old(Now()), vid)
      ensures ok ==> Finished(image, vid) && vid !in image.logs
      ensures forall v :: v != vid && v in old(image).records ==>
              v in image.records
              && image.records[v] == old(image).records[v]
    {
      if vid in image.logs && vid in stuck { return false; }
      if vid !in image.records || image.records[vid].Live? {
        ok := WriteRecord(vid, Ended);
        if !ok { return; }
      } else if image.records[vid].Damaged? {
        return false;
      }
      ok := RemoveLog(vid);
    }
  }

  class VaultState {
    const vid: Vid
    const key: Key
    const ephemeral: bool
    const created: int
    var gone: bool

    constructor (vid: Vid, key: Key, ephemeral: bool, created: int)
      ensures this.vid == vid && this.key == key && this.ephemeral == ephemeral && this.created == created && !gone
    {
      this.vid, this.key, this.ephemeral, this.created, gone := vid, key, ephemeral, created, false;
    }

    function Written(): Record { Live(key, ephemeral, created) }

    function Found(): Frame { Frame(vid, Written()) }
  }

  function Records(vaults: map<Vid, VaultState>): map<Vid, Record> { map v | v in vaults :: vaults[v].Written() }

  lemma {:induction false} RecordsPut(vaults: map<Vid, VaultState>, vid: Vid, st: VaultState)
    ensures Records(vaults[vid := st]) == Records(vaults)[vid := st.Written()]
  {
  }

  lemma {:induction false} RecordsCut(vaults: map<Vid, VaultState>, vid: Vid)
    ensures Records(vaults - {vid}) == Records(vaults) - {vid}
  {
  }

  lemma {:induction false} RecordsSize(vaults: map<Vid, VaultState>)
    ensures |Records(vaults)| == |vaults|
  {
    assert Records(vaults).Keys == vaults.Keys;
  }

  class Server {
    const config: Config
    const disk: Disk
    var vaults: map<Vid, VaultState>
    var revoked: set<Vid>
    ghost var all: set<VaultState>   // every state made, served or gone

    // One vault state a served vault, none of them ended; every other state is of a revoked vault.
    ghost predicate Valid()
      reads this, all
    {
      && vaults.Keys !! revoked
      && (forall v :: v in vaults ==> vaults[v] in all && vaults[v].vid == v && !vaults[v].gone)
      && (forall st :: st in all ==> if st.gone then st.vid in revoked else st.vid in vaults && vaults[st.vid] == st)
    }

    function Now(): World
      reads this, disk
    {
      World(disk.Now(), Records(vaults), revoked)
    }

    constructor (config: Config, disk: Disk)
      ensures this.config == config && this.disk == disk && vaults == map[] && revoked == {} && all == {}
    {
      this.config, this.disk, vaults, revoked, all := config, disk, map[], {}, {};
    }

    predicate Expired(st: VaultState, now: int) { st.ephemeral && now - st.created >= config.ttl }

    // endLocked: the record first; a failure there changes nothing.
    method EndLocked(st: VaultState) returns (ok: bool)
      requires Valid() && st in all && !st.gone
      modifies this`vaults, this`revoked, st`gone, disk`image, disk`trail
      ensures Valid() && Done(Now(), ok) == EndedVault(config, old(Now()), st.vid)
      ensures ok ==> vaults == old(vaults) - {st.vid} && revoked == old(revoked) + {st.vid} && st.gone
      ensures ok && config.persistent ==>
              Finished(disk.image, st.vid)
              && (st.vid in disk.image.logs ==> st.vid in disk.stuck)
      ensures !ok ==> unchanged(this) && unchanged(st) && unchanged(disk)
    {
      RecordsCut(vaults, st.vid);
      if config.persistent {
        ok := disk.WriteRecord(st.vid, Ended);
        if !ok { return; }
      }
      revoked := revoked + {st.vid};
      vaults := vaults - {st.vid};
      st.gone := true;
      if config.persistent {
        var removed := disk.RemoveLog(st.vid);
      }
      ok := true;
    }

    // One vault of a sweep.
    method SweepOne(vid: Vid, now: int, ghost w: World, ghost order: seq<Vid>) returns (ok: bool)
      requires Valid() && vid in vaults && Swept(config, w, order, now) == Done(Now(), true)
      modifies this`vaults, this`revoked, all, disk`image, disk`trail
      ensures Valid() && Swept(config, w, order + [vid], now) == Done(Now(), ok)
      ensures vaults == old(vaults) || vaults == old(vaults) - {vid}
    {
      assert (order + [vid])[..|order|] == order;
      if !Expired(vaults[vid], now) { return true; }
      ok := EndLocked(vaults[vid]);
    }

    // sweepLocked: end every expired vault, until one cannot be ended.
    method SweepLocked(now: int) returns (ok: bool, ghost order: seq<Vid>)
      requires Valid()
      modifies this`vaults, this`revoked, all, disk`image, disk`trail
      ensures Valid() && Done(Now(), ok) == Swept(config, old(Now()), order, now)
      ensures Visits(order, old(vaults).Keys, ok)
    {
      var todo := vaults.Keys;
      order := [];
      while todo != {}
        invariant Valid() && todo <= vaults.Keys && Swept(config, old(Now()), order, now) == Done(Now(), true)
        invariant forall v :: v in old(vaults).Keys <==> v in order || v in todo
        decreases |todo|
      {
        var vid :| vid in todo;
        todo := todo - {vid};
        ok := SweepOne(vid, now, old(Now()), order);
        order := order + [vid];
        if !ok { return; }
      }
      ok := true;
    }

    // createVaultLocked: the record first, in one write, then the log.
    method CreateLocked(vid: Vid, key: Key, ephemeral: bool, now: int) returns (ok: bool)
      requires Valid() && vid !in vaults && vid !in revoked
      modifies this`vaults, this`all, disk`image, disk`trail
      ensures Valid() && old(all) <= all && fresh(all - old(all))
      ensures Done(Now(), ok) == Created(config, old(Now()), vid, key, ephemeral, now)
      ensures ok == (!config.persistent || (vid !in disk.unwritable && vid !in disk.stuck))
      ensures ok ==>
                vid in vaults && fresh(vaults[vid]) && vaults[vid].key == key
                && vaults == old(vaults)[vid := vaults[vid]]
      ensures ok ==> MadeAs(vid, ephemeral, now)
      ensures !ok ==> vaults == old(vaults)
    {
      var st := new VaultState(vid, key, ephemeral, ToSecond(now));
      RecordsPut(vaults, vid, st);
      if config.persistent {
        ok := disk.WriteRecord(vid, st.Written());
        if !ok { return; }
        ok := disk.OpenLog(vid);
        if !ok { return; }
      }
      vaults := vaults[vid := st];
      all := all + {st};
      ok := true;
    }

    // A served vault is as it was asked for, and carries the second of this moment.
    predicate MadeAs(vid: Vid, ephemeral: bool, now: int)
      reads this
    {
      vid in vaults && vaults[vid].ephemeral == ephemeral && vaults[vid].created == now - now % 1000
    }

    // handleRegister's sweep and creation.
    method Make(vid: Vid, key: Key, ephemeral: bool, now: int) returns (r: Answer, ghost order: seq<Vid>)
      requires Valid() && vid !in vaults && vid !in revoked
      modifies this`vaults, this`revoked, this`all, all, disk`image, disk`trail
      ensures Valid() && old(revoked) <= revoked && old(all) <= all && fresh(all - old(all))
      ensures Outcome(Now(), r) == Made(config, old(Now()), vid, key, ephemeral, now, order)
      ensures Visits(order, old(vaults).Keys, Swept(config, old(Now()), order, now).ok)
      ensures r == Granted ==> vid in vaults && vid !in revoked && vaults[vid].key == key && MadeAs(vid, ephemeral, now)
      ensures r in {Granted, TryLater, Full}
    {
      ghost var w := Now();
      var swept;
      swept, order := SweepLocked(now);
      SweptServes(config, w, order, now);
      if !swept { return TryLater, order; }
      RecordsSize(vaults);
      if |vaults| >= config.maxVaults { return Full, order; }
      var made := CreateLocked(vid, key, ephemeral, now);
      if !made { return TryLater, order; }
      return Granted, order;
    }

    // handleRegister; `authentic` when a register key of the server's opens the frame.
    method Register(vid: Vid, key: Key, ephemeral: bool, authentic: bool, now: int)
        returns (r: Answer, ghost order: seq<Vid>)
      requires Valid()
      modifies this`vaults, this`revoked, this`all, all, disk`image, disk`trail
      ensures Valid() && old(revoked) <= revoked && old(all) <= all && fresh(all - old(all))
      ensures Outcome(Now(), r) == Registered(config, old(Now()), vid, key, ephemeral, authentic, now, order)
      ensures Sweeps(old(Now()), vid, authentic) ==>
              Visits(order, old(vaults).Keys, Swept(config, old(Now()), order, now).ok)
      ensures vid in old(vaults) && !old(Has(vid, now)) ==> r == BadAuth || r == TryLater
      ensures old(Has(vid, now)) && authentic ==> r == if old(vaults)[vid].key == key then Granted else BadAuth
      ensures vid in old(revoked) || !authentic ==> r == BadAuth
      ensures r == Granted ==> vid in vaults && vid !in revoked && vaults[vid].key == key
      ensures r == Granted && vid !in old(vaults) ==> MadeAs(vid, ephemeral, now)
      ensures r in {Granted, BadAuth, TryLater, Full}
    {
      order := [];
      if !authentic { return BadAuth, order; }
      if vid in vaults && Expired(vaults[vid], now) {
        var ended := EndLocked(vaults[vid]);
        return if ended then BadAuth else TryLater, order;
      }
      if vid in revoked { return BadAuth, order; }
      if vid in vaults {
        return if vaults[vid].key != key then BadAuth else Granted, order;
      }
      r, order := Make(vid, key, ephemeral, now);
    }

    // A served vault that is not past its lifetime.
    predicate Has(vid: Vid, now: int)
      reads this
    {
      vid in vaults && !Expired(vaults[vid], now)
    }

    method EnsureVault(vid: Vid, key: Key, now: int) returns (r: Answer)
      requires Valid()
      modifies this`vaults, this`all, disk`image, disk`trail
      ensures Valid() && old(all) <= all && fresh(all - old(all))
      ensures Outcome(Now(), r) == Ensured(config, old(Now()), vid, key, now)
      ensures r == Revoked <==> vid in revoked
      ensures r == Granted ==> vid in vaults && vid !in revoked && vaults[vid].key == key
      ensures r == Granted && vid !in old(vaults) ==> MadeAs(vid, false, now)
      ensures vid in old(vaults) ==> vaults == old(vaults) && r == if old(vaults)[vid].key == key then Granted
              else Mismatch
      ensures r in {Granted, Revoked, Mismatch, TryLater}
      ensures !config.persistent && vid !in revoked && vid !in old(vaults) ==> r == Granted
    {
      if vid in revoked { return Revoked; }
      if vid in vaults {
        if vaults[vid].key != key { return Mismatch; }
        return Granted;
      }
      var made := CreateLocked(vid, key, false, now);
      if !made { return TryLater; }
      return Granted;
    }

    method DropVault(vid: Vid) returns (r: Answer)
      requires Valid()
      modifies this`vaults, this`revoked, all, disk`image, disk`trail
      ensures Valid() && old(revoked) <= revoked
      ensures Outcome(Now(), r) == Dropped(config, old(Now()), vid)
      ensures r == Gone ==> vid in old(vaults) && vid in revoked
      ensures r == Unknown <==> vid !in old(vaults)
      ensures r == TryLater ==> vaults == old(vaults) && revoked == old(revoked) && disk.image == old(disk.image)
      ensures r == TryLater ==> config.persistent && vid in disk.unwritable
      ensures r in {Gone, Unknown, TryLater}
    {
      if vid !in vaults { return Unknown; }
      var ended := EndLocked(vaults[vid]);
      if !ended { return TryLater; }
      return Gone;
    }

    // ---------- one sync frame, in the steps its locks divide it into ----------

    // The lookup, and the frame opened under the vault's own key.
    method Lookup(vid: Vid, key: Key) returns (r: Answer, st: VaultState?)
      requires Valid()
      ensures st != null ==> st in all && vid in vaults && st.Found() == Frame(vid, Now().vaults[vid])
      ensures r == LookedUp(Now(), vid, key)
      ensures st != null <==> r == Proceed
    {
      if vid !in vaults { return Unknown, null; }
      if vaults[vid].key != key { return BadAuth, null; }
      return Proceed, vaults[vid];
    }

    // expireIfDue; the vault may have ended since the lookup.
    method ExpireIfDue(st: VaultState, now: int) returns (r: Answer)
      requires Valid() && st in all
      modifies this`vaults, this`revoked, st`gone, disk`image, disk`trail
      ensures Valid() && old(revoked) <= revoked
      ensures Outcome(Now(), r) == ExpiredIfDue(config, old(Now()), st.Found(), now)
      ensures r == Unknown ==> st.vid in revoked
      ensures r == Proceed <==> !Expired(st, now)
      ensures r in {Proceed, Unknown, TryLater}
    {
      if !Expired(st, now) { return Proceed; }
      if st.vid !in vaults || vaults[st.vid] != st { return Unknown; }
      var ended := EndLocked(st);
      if !ended { return TryLater; }
      return Unknown;
    }

    method HandleDrop(st: VaultState) returns (r: Answer)
      requires Valid() && st in all
      modifies this`vaults, this`revoked, st`gone, disk`image, disk`trail
      ensures Valid() && old(revoked) <= revoked
      ensures Outcome(Now(), r) == DroppedBy(config, old(Now()), st.Found())
      ensures r == Gone ==> st.ephemeral && !old(st.gone) && st.vid in revoked
      ensures r == BadRequest <==> !st.ephemeral
      ensures r == Unknown ==> st.vid in old(revoked)
      ensures r in {Gone, Unknown, TryLater, BadRequest}
    {
      if !st.ephemeral { return BadRequest; }
      if st.vid !in vaults || vaults[st.vid] != st { return Unknown; }
      var ended := EndLocked(st);
      if !ended { return TryLater; }
      return Gone;
    }

    // The exchange itself, under the vault's lock: an ended vault answers as an unknown one.
    method Exchange(st: VaultState) returns (r: Answer)
      requires Valid() && st in all
      ensures r == Exchanged(Now(), st.Found())
      ensures r == Granted ==> st.vid in vaults && vaults[st.vid] == st
    {
      if st.gone { return Unknown; }
      return Granted;
    }

    // ---------- a start ----------

    // One vault of loadPersistedVaults.
    method LoadOne(vid: Vid, ghost dir: Dir, ghost listed: seq<Vid>)
      requires Valid() && Now() == Loaded(dir, listed) && disk.image.records == dir.image.records
               && disk.stuck == dir.stuck
      requires vid in disk.image.records && vid !in vaults && vid !in revoked
      modifies this`vaults, this`revoked, this`all, disk`image, disk`trail
      ensures Valid() && Now() == Loaded(dir, listed + [vid]) && disk.image.records == dir.image.records
      ensures old(all) <= all && fresh(all - old(all)) && vaults.Keys <= old(vaults).Keys + {vid}
              && revoked <= old(revoked) + {vid}
    {
      assert (listed + [vid])[..|listed|] == listed;
      match disk.image.records[vid] {
        case Damaged =>
          revoked := revoked + {vid};
        case Ended =>
          revoked := revoked + {vid};
          var removed := disk.RemoveLog(vid);
        case Live(key, ephemeral, created) =>
          var ok := disk.OpenLog(vid);
          if !ok { return; }
          var st := new VaultState(vid, key, ephemeral, created);
          RecordsPut(vaults, vid, st);
          vaults := vaults[vid := st];
          all := all + {st};
      }
    }

    // The records listed are loaded, and those to do are not.
    ghost predicate Loading(dir: Dir, listed: seq<Vid>, todo: set<Vid>)
      reads this, disk, all
    {
      && Valid() && Now() == Loaded(dir, listed) && disk.image.records == dir.image.records
      && todo <= dir.image.records.Keys && todo !! vaults.Keys && todo !! revoked
      && forall v :: v in dir.image.records.Keys <==> v in listed || v in todo
    }

    method LoadNext(vid: Vid, ghost dir: Dir, ghost listed: seq<Vid>, ghost todo: set<Vid>)
      requires Loading(dir, listed, todo) && vid in todo && dir.stuck == disk.stuck
      modifies this`vaults, this`revoked, this`all, disk`image, disk`trail
      ensures Loading(dir, listed + [vid], todo - {vid}) && old(all) <= all && fresh(all - old(all))
    {
      LoadOne(vid, dir, listed);
    }

    method Load() returns (ghost listed: seq<Vid>)
      requires vaults == map[] && revoked == {} && all == {}
      modifies this`vaults, this`revoked, this`all, disk`image, disk`trail
      ensures Valid() && fresh(all) && Now() == Loaded(old(disk.Now()), listed)
      ensures Visits(listed, old(disk.image).records.Keys, true)
    {
      var todo := disk.image.records.Keys;
      ghost var dir := disk.Now();
      listed := [];
      while todo != {}
        invariant fresh(all) && Loading(dir, listed, todo)
        decreases |todo|
      {
        var vid :| vid in todo;
        LoadNext(vid, dir, listed, todo);
        listed := listed + [vid];
        todo := todo - {vid};
      }
    }
  }

  // New: a server over what the directory holds, or none when an expired vault cannot be ended.
  method Start(config: Config, disk: Disk, now: int) returns (s: Server?, ghost listed: seq<Vid>, ghost order: seq<Vid>)
    modifies disk`image, disk`trail
    ensures var r := Started(config, old(disk.Now()), listed, order, now);
            && disk.Now() == r.w.dir && (s != null <==> r.ok)
            && (s != null ==> s.config == config && s.disk == disk && s.Valid() && s.Now() == r.w)
    ensures s != null ==> fresh(s) && fresh(s.all)
    ensures config.persistent ==>
              && Visits(listed, old(disk.image).records.Keys, true)
              && Visits(order, Loaded(old(disk.Now()), listed).vaults.Keys,
                  Started(config, old(disk.Now()), listed, order, now).ok)
  {
    s := new Server(config, disk);
    listed, order := [], [];
    assert Records(s.vaults) == map[];
    if !config.persistent { return; }
    listed := s.Load();
    var swept;
    swept, order := s.SweepLocked(now);
    if !swept { s := null; }
  }
}
