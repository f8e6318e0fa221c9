# What is proved

A Dafny model of the parts of this repository that carry its promises: the replicated key-value set of
ASCON-KV and its server, the LZ4s compressor and the ROW codecs built on it, the Knuth-Plass line breaker,
page flow, and the canonical form of a styled row. `dafny verify dfyconfig.toml` checks it.

The model follows the program's form. A loop over arrays stays a loop over arrays, an object with fields
stays a class, and each such method is proved against a function of its inputs or of its state before;
what the program promises is then proved of those functions, for all inputs, all runs and all
interleavings.

**The replicated set** (`Entry`, `Canon`, `MemStore`, `LogStore`, `LogRuns`, `View`, `Relay`, `Talk`,
`Sync`, `Replicas`, `SyncRuns`, `VaultSpec`, `VaultLaws`, `VaultLives`, `Vaults`, `VaultRuns`, `Wait`).
Entries are records that delimit themselves; a store holds them in arrival order under an index that is
their canonical order; a log is a file of records that survives being cut anywhere. `Sync` runs one
client's sync against an honest server nobody else writes to, and shows it converges by its third round.
`Replicas` is the whole network as a state machine: any number of clients, messages lost, repeated and
reordered, requests matched to answers by nonce; `SyncRuns` shows that a client's `Sync`, exchange by
exchange, is a piece of a run of it. `VaultSpec` is the server's vault lifecycle as a machine over a disk
whose every intermediate image a crash may leave, `VaultLaws` and `VaultLives` what holds of all its runs,
and `Vaults` and `VaultRuns` the server's own index and its methods, proved to take the machine's steps.
`Wait` and `LogRuns` are the long poll and the log in the same way: a machine, laws of every run, and the
objects that run it.

**The codecs** (`Lz4s`, `Lz4sLaws`, `Lz4sParse`, `Lz4sAnswers`, `Lz4sCodec`, `Row`, `RowLaws`,
`RowFaults`, `RowDecoder`, `RowText`, `RowDigits`, `RowTokens`, `RowTimes`, `RowTextLaws`, `RowTextValid`,
`RowMeaning`, `RowAnswers`, `RowParser`, `Civil`, `Utf8`, `Utf8Laws`). The compressor's chain walk is
proved equal to an exhaustive search, the stream format to be read back, and ROW's bytes and text each to
be in bijection with rows. `Lz4sParse` says which matches are taken by the bytes they save alone,
`RowMeaning` what a text says place by place, `RowFaults` what is refused and as what, and `Lz4sAnswers`
and `RowAnswers` are the formats' own examples.

**The line breaker** (`Wrap`, `WrapText`, `WrapTurns`, `WrapDp`, `WrapLines`, `WrapBest`, `WrapBreak`,
`WrapGaps`, `WrapCosts`, `WrapJustify`). The dynamic program, the in-place suffix substitution, what a
reader makes of the lines, and what they cost by the widths of lines and gaps alone.

**Rows and pages** (`Raster`, `RasterDraft`, `RasterPen`, `Blocks`, `FlowPieces`, `FlowTurns`,
`FlowColumns`). The one segment form of a picture, the draft that finds it, and the flow of splittable
blocks into columns.

## Where the code and its promises part

- With a first measure narrower than the others, `breakLines` may never end. What is left of a split first
  word is set on the first measure again but split on the wide one (typeset/wrap/wrap.go:594-613); when it
  lies between the two, nothing changes from turn to turn. The comment there says the remainder still
  fits. `WrapTurns.Stuck` is the condition, `WrapTurns.EndsExactly` shows that the loop ends if and only
  if it does not hold, and `WrapJustify.StuckExample` gives a word of 24 runes on measures 5 and 12.
- A link that crosses two backgrounds cannot be drawn: the check refuses two neighbouring segments of one
  target, whatever parts them (typeset/raster/raster.go:210-215), while the comment on `Draft.Row` names
  only a link of two foregrounds (typeset/raster/draft.go:66-70). `RasterDraft.LinkOverTwoBackgrounds` is
  such a drawing; `RasterPen.Draft.Row` states exactly which drafts can be drawn.
- A server without a data directory forgets at a restart which vaults had ended; `VaultLaws.MemoryForgets`
  is such a run; `VaultLaws.NeverAgain` holds of it up to the crash.
- A start refuses a vault with a damaged record so that none can make it afresh
  (kv/server/server.go:206-212), but one whose log it cannot open it only skips (lines 222-226): neither
  served nor revoked, it can be made anew under another key. `VaultLives.SkippedIsAbsent` shows it;
  `VaultLives.OwnersVaultLasts` is of runs whose starts can open the log.
- A full walk starts strictly after position (0, zero id), so an entry exactly there is never pulled or
  pushed by one: it covers a set if and only if there is none (`Syncs.FullWalkCovers`), which
  `Syncs.Syncer.Sync` assumes for convergence.
- The comment on `LogStore.Add` says that memory and disk never disagree and that replay never sees a torn
  record (kv/store/logstore.go:208-213), but the truncation that undoes a failed write is best effort
  (lines 258-262). If it fails, an entry whose Add was refused can be back after a reopening
  (`LogRuns.RefusedComesBack`), and a crash in the next write can leave an entry nobody gave
  (`LogRuns.NobodysEntry`). `LogRuns.AddAgrees` says exactly when an Add leaves the two agreeing, and
  `LogRuns.HeldWasGiven` when nothing strange is ever held; no acknowledged entry is lost either way
  (`LogRuns.AckedIsHeld`).
- The comment on `flow` says that a heading is never left at a column's bottom without two segments of
  what follows (pica/press/flow.go:15-16). It can be. The first heading of a column is given no room for
  what follows it. Another is given room for two segments (lines 69-85), without a lead-in, without the
  half line that is padded after an odd heading (lines 58-59), and counting on a split that an atomic or a
  short block does not have (lines 131-143); what follows then moves alone. In `FlowTurns.HeadingAlone` a
  heading is left above three lines, in `FlowTurns.ChainBroken` above another heading. And a heading too
  high for an empty column is forced into it and closes it (lines 98-105). `FlowTurns.HeadingLast` and
  `FlowTurns.HeadingForced` are the exact conditions, and `FlowTurns.HeadingFollowed` says what holds
  otherwise.

## Model

| member | source | states |
|---|---|---|
| `Syncs.Syncer.Sync` | kv/client/client.go:372-404 | Sync only adds to either set and never to their union; when it returns no error both sets are that union and nothing is left to fast-push, and a failed one keeps what was to be pushed. What was said to the server accounts for all that changed, and a success ends on a probe that matched. A request or an answer may be lost at any point of it. With no other writer, no refusal, no loss, logs that can be written and the vault registered or registrable it returns no error having made at most three rounds, whatever the window and the page sizes |
| `Syncs.Syncer.Rounds` | kv/client/client.go:389-403 | the round loop, which makes at most its budget of 64 rounds: success only on a probe that matched, and within three rounds when nothing is refused |
| `Syncs.Syncer.Turn` | kv/client/client.go:390-399 | one round and what UNKNOWN_VAULT makes of it: from a state where no refusal is possible it either converges or leaves such a state one round further on |
| `Syncs.Syncer.Round` | kv/client/client.go:409-438 | REGISTER, fast push, PROBE, window, PROBE, PUSH: a match means equal sets; a full walk makes them equal; a vault the server does not hold answers UNKNOWN_VAULT and never a match |
| `Syncs.Syncer.Reconcile` | kv/client/client.go:424-437 | the probe and the walks of one round leave the union of the two sets as it was, and a full walk (round above 0) equalizes them |
| `Syncs.Syncer.PullFrom` | kv/client/client.go:604-641 | every entry the server holds after the anchor ends in the client's set, nothing but the server's entries is added, and it gives up only over the page budget or a store that cannot be written |
| `Syncs.Syncer.PullPage` | kv/client/client.go:604-641 | one page is kept whole and the walk behind the new cursor is complete and strictly shorter |
| `Syncs.Syncer.PushFrom` | kv/client/client.go:655-668 | every entry the client holds after the anchor ends in the server's set, and only the client's entries are added |
| `Syncs.Syncer.PushEntries` | kv/client/client.go:672-691 | the fast path: on success every listed entry is on the server; an empty list needs no vault |
| `Syncs.Syncer.NextBatch` | kv/client/client.go:673-685 | a batch is within the page unless it is one entry, and one more would not be |
| `Syncs.Syncer.ReconcileAnchor` | kv/client/client.go:440-455 | round 0 looks back one window from the greatest timestamp held, to zero at most; a later round starts at zero |
| `Syncs.Syncer.SendPush` | kv/client/client.go:694-711 | a batch is taken whole or not at all; without an answer the client does not know which |
| `Syncs.Syncer.Probe` | kv/client/client.go:574-590 | an answered probe matches exactly when the two sets are one |
| `Syncs.Syncer.UnknownVaultErr` | kv/client/client.go:460-471 | an ended or once registered ephemeral vault is an error, so is having no register key; otherwise the next round registers |
| `Syncs.Syncer.RegisterIfNeeded` | kv/client/client.go:413-417 | registering again is tried only when not registered, and brings back a vault the server neither ended nor lacks room for |
| `Syncs.Syncer.Record` | kv/client/client.go:222-230 | a write is in the store and in what the next Sync fast-pushes, or, if the log cannot be written, in neither |
| `Syncs.FullWalkCovers` | kv/client/client.go:444-453 | a full walk covers a set if and only if no entry stands at the position it starts from |
| `Syncs.PageAdvances` | kv/client/client.go:604-641 | what is left of a walk after a nonempty page is the walk less that page, so page loops end |
| `Relays.Relay.Push` | kv/server/server.go:479-510 | PUSH takes all of a page's missing entries or none: refused for an unknown vault, a timestamp too far ahead, a quota, or noPush with something new; a log that cannot be written takes none and answers a failure |
| `Relays.Relay.ValidateNew` | kv/server/server.go:615-644 | only the entries the vault lacks, each counted once, are judged against the skew and the two quotas |
| `Relays.JudgeMeans` | kv/server/server.go:615-644 | what is accepted is just what the vault lacks, each id once, none of it later than allowed, and leaves the set within both quotas; a refusal for skew is of an entry it lacks, one for quota of lacking entries that break one |
| `Relays.Relay.AddValidated` | kv/server/server.go:594-606 | accepted entries are appended as one batch, or none of them if the log cannot be written; the byte count stays the size of the set |
| `Relays.Relay.Pull` | kv/server/server.go:479-510 | PULL answers the page of the canonical order after the cursor within the byte budget |
| `Relays.Relay.Probe` | kv/server/server.go:436-519 | PROBE compares fingerprints of the canonical order |
| `Relays.Relay.Register` | kv/server/server.go:377-434 | REGISTER as the client meets it: refused for an ended vault, repeatable for a held one, else subject to room |
| `Relays.Relay.AdmittedPush` | kv/server/server.go:615-644 | a batch within an admitted set is accepted whatever of it the vault holds already |
| `Replicas.RunGood` | kv/server/server.go:479-510 | in every interleaving of any number of clients' writes, requests, deliveries, losses and repeats, every store only grows and holds only entries some client sealed |
| `Replicas.NonceOnce` | kv/client/client.go:718-756 | a client never uses a request nonce twice |
| `Replicas.MatchMeans` | kv/client/client.go:574-590 | a PROBE answered "same" means the server held exactly the client's set of the moment it asked, at some moment between |
| `Replicas.TakenMeans` | kv/client/client.go:694-711 | a push seen taken is in the server's set at every later moment |
| `Replicas.ServerHoldsUnion` | kv/client/client.go:372-438 | once writes stop, one completed Sync per client leaves the server holding the union of everything sealed |
| `Replicas.EveryClientHoldsUnion` | kv/client/client.go:372-438 | and a second leaves every client holding it, the server still doing so |
| `Talks.TellsMore` | kv/client/client.go:718-756 | exchanges that lead from two sets to two others, and one more, asked of what the client then holds and answered by what the server then holds, lead on to the sets it makes |
| `SyncRuns.ExchangeRuns` | kv/client/client.go:718-756 | one exchange of a sync is a request sent and answered in a run of the network, and received unless the client did not hear it, and changes the sets the same way |
| `SyncRuns.TalkRuns` | kv/client/client.go:372-438 | a whole sync is a piece of a run of the network, and one whose last probe matched is a completed sync of that client there |
| `SyncRuns.SyncTurn` | kv/client/client.go:372-404 | what a real client and server do in Sync, whether or not it succeeds, is such a talk from the sets before to the sets after |
| `SyncRuns.SyncsRun` | kv/client/client.go:372-438 | any syncs of any clients, one after another from any reachable state of the network, are a run that goes on from it |
| `SyncRuns.TwoSyncsEach` | kv/client/client.go:372-438 | from any reachable state, whatever was lost or is still on its way: once every client has completed a sync and then another, in any order, every store holds all that was ever sealed |
| `Entries.UnmarshalInverse` | kv/vault/entry.go:69-94 | a marshaled entry reads back whole whatever bytes follow it |
| `Entries.UnmarshalExact` | kv/vault/entry.go:69-94 | bytes that parse begin with the one marshaled form of what they parse to |
| `Entries.UnmarshalPart` | kv/vault/entry.go:69-94 | no proper prefix of a marshaled entry parses |
| `Entries.MarshalInjective` | kv/vault/entry.go:46-57 | distinct entries have distinct bytes, so an id of the bytes names the entry |
| `Entries.MarshalSays` | kv/vault/entry.go:46-65 | timestamp, nonce, length and ciphertext each in its place |
| `Bytes.LittleEndianAt` | kv/vault/entry.go:53-65 | byte k of a number counts for 256 to the k |
| `Entries.MarshalTo` | kv/vault/entry.go:53-65 | the header and the ciphertext are laid at the offset given and nothing else in the buffer changes |
| `Canon.CanonUnique` | kv/vault/setsync.go:15-33 | a set has one canonical order: two sorted sequences of the same entries are equal |
| `Canon.SortCanonical` | kv/vault/setsync.go:12-33 | the entries end in canonical order and are the same ones: no timestamp falls, and at one timestamp no id does |
| `Canon.OrderedUnique` | kv/vault/setsync.go:15-33 | a multiset of entries has one such order, so every sort of it gives the same |
| `Canon.SortCanon` | kv/vault/setsync.go:15-33 | of the entries of a set, in any order, sorting gives its canonical sequence |
| `Canon.WalkIsComplete` | kv/store/memstore.go:121-143 | a paged walk, even while the set grows between its pages, returns everything after the anchor that was there at its start, strictly increasing and so without repeats, and nothing that is not in the last set |
| `MemStores.MemStore.Add` | kv/store/memstore.go:33-43 | after any Adds the index is the strictly sorted permutation of the entries, and the count of new ones is exact |
| `MemStores.MemStore.AddLocked` | kv/store/memstore.go:55-71 | one entry is inserted at its place in the order unless its id is held |
| `MemStores.MemStore.Search` | kv/store/memstore.go:128-131 | binary search: everything below the result is before the position, nothing from it on is, and found means an exact hit |
| `MemStores.MemStore.SetHash` | kv/store/memstore.go:107-119 | the cached fingerprint is always that of the canonical order of what is held now |
| `MemStores.MemStore.Snapshot` | kv/store/memstore.go:96-104 | Sorted returns the canonical order |
| `MemStores.MemStore.EntriesAfter` | kv/store/memstore.go:125-143 | the entries strictly after the cursor, whole, up to the budget but at least one |
| `Sums.PageFits` | kv/store/memstore.go:121-143 | a page is the start of what stands after the cursor by timestamp and id, within the budget unless it is one entry, and with one more it would not be |
| `MemStores.MemStore.Newest` | kv/store/memstore.go:155-162 | the entry no other has a greater timestamp than, nor at that timestamp a greater id; none only for an empty store |
| `MemStores.AddAllElements` | kv/store/memstore.go:33-71 | adding is union, in any order and any batches |
| `MemStores.StoresOfOneSet` | kv/vault/setsync.go:42-62 | stores of one set have one canonical order and one fingerprint |
| `MemStores.EqualHashEqualSet` | kv/vault/setsync.go:42-62 | with ids and hash injective, equal fingerprints mean equal sets |
| `LogStores.LogStore.Init` | kv/store/logstore.go:100-126 | a new file gets the magic, or what a failing disk took of it; any other opens exactly when it begins with the magic and can be read, and then holds the entries of its whole records, cut after them |
| `LogStores.LogStore.Replay` | kv/store/logstore.go:146-206 | replaying keeps exactly the leading whole records, in memory and in the file |
| `LogStores.LogStore.Add` | kv/store/logstore.go:214-262 | a batch's new entries are one write; memory follows only if write and sync succeed, and a failure leaves memory and the committed records as they were, and after them nothing if the truncation succeeds, else what was written. In every state memory is what a replay of the committed records gives |
| `LogStores.TornAppend` | kv/store/logstore.go:146-196 | the committed records and any byte prefix of an interrupted append replay to the committed entries and the append's whole records, no more |
| `LogStores.ZeroTail` | kv/store/logstore.go:146-196 | a zero-filled tail is dropped |
| `LogStores.ReplayedExact` | kv/store/logstore.go:146-196 | what replay keeps is a prefix of the file, byte for byte, and what it drops starts with no whole record |
| `LogStores.ReplayedInverse` | kv/store/logstore.go:146-196 | committed records read back whole, whatever follows |
| `LogStores.RecordIs` | kv/store/logstore.go:15-30 | a record is the size of its entry in four bytes, then the entry |
| `LogRuns.Run` | kv/store/logstore.go:59-263 | any adds, failing writes and truncations, crashes at any byte and reopenings of a store are a run of the machine, with its acknowledgements, and at its end memory is what the committed records hold |
| `LogRuns.AckedIsHeld` | kv/store/logstore.go:208-256 | in every run whatever an acknowledged Add was given is held from then on, through every later failed write, crash and reopening, even when a truncation fails |
| `LogRuns.HeldWasGiven` | kv/store/logstore.go:214-256 | nothing is held that no earlier step was given, in every run in which each write reaches over what an earlier failure left, or is undone, or is none; so in every run in which a failed write is undone or the log opened again before the next |
| `LogRuns.LogGrows` | kv/store/logstore.go:146-256 | no run loses a record |
| `LogRuns.CrashAndReopen` | kv/store/logstore.go:146-256 | losing power after n bytes of an Add and reopening is the crash step: the committed records, and then what replays of those bytes and of what stood behind them |
| `LogRuns.AfterClean` | kv/store/logstore.go:146-256 | with nothing left over, a crash keeps the log and exactly the records of the batch that lie whole within the bytes written, and a reopening changes nothing |
| `LogRuns.AddAgrees` | kv/store/logstore.go:208-262 | after an Add on a file with nothing left over, memory and a replay of the file agree if and only if there was nothing to write, or the write succeeded, or was undone, or stopped within its first record |
| `LogRuns.CarefulReaches` | kv/store/logstore.go:208-262 | a run that undoes each failed write, or opens the log again before the next, is one of those of HeldWasGiven |
| `LogRuns.RefusedComesBack` | kv/store/logstore.go:208-262 | a run with a failed truncation in which a refused entry is there after a reopening |
| `LogRuns.NobodysEntry` | kv/store/logstore.go:208-262 | a run with a failed truncation, for any two entries of one length, that ends holding an entry with the timestamp of one and the rest of the other |
| `Views.Client.Fold` | kv/client/client.go:265-279 | folding only the entries that arrived since gives the view a replay of the whole set in canonical order gives: it shows each key written, and for it the write of greatest timestamp and, at that, of greatest id |
| `Views.Client.Get` | kv/client/client.go:282-291 | what the write of the key with the greatest timestamp and, at that, the greatest id stores after its format byte; none when there is no write or that one is a tombstone |
| `Views.ShowsLast` | kv/vault/setsync.go:12-33 | canonical order said by timestamps and ids: what a view shows of each key is its write of greatest timestamp and, at that, of greatest id |
| `Views.ShowsUnique` | kv/client/client.go:246-279 | the view is fixed by the set: each key shows its canonically last entry |
| `Views.EqualSetsEqualViews` | kv/client/client.go:246-325 | clients with equal sets that have folded show equal views, whatever order the entries came in and whenever they read |
| `Vaults.Server.EndLocked` | kv/server/server.go:279-302 | ending writes the record first; a failure there changes nothing, a success makes the vault ended on disk and in memory |
| `Vaults.Server.CreateLocked` | kv/server/server.go:662-686 | a vault is served only after its record was written and its log opened, and then as it was asked for |
| `Vaults.Server.Register` | kv/server/server.go:377-434 | an ended vault or an unauthentic frame is refused, an existing one only for its own key, and what is granted is served under that key; what it makes is ephemeral exactly as asked and carries the second of its making |
| `Vaults.Server.EnsureVault` | kv/server/owner.go:25-39 | Revoked exactly for ended vaults; a key mismatch changes nothing; what it makes is never ephemeral and carries the second of its making |
| `Vaults.Server.DropVault` | kv/server/owner.go:46-54 | Gone means ended; a failure leaves the vault, the ended set and the disk as they were |
| `Vaults.Server.ExpireIfDue` | kv/server/server.go:253-263 | an expired vault is ended before anything is answered, and a failure to end it is TryLater |
| `Vaults.Server.SweepLocked` | kv/server/server.go:240-249 | every expired vault is ended until one cannot be |
| `Vaults.Server.HandleDrop` | kv/server/server.go:568-584 | only an ephemeral vault is dropped by its client |
| `Vaults.Server.Exchange` | kv/server/server.go:436-519 | a vault ended between lookup and lock answers as unknown |
| `Vaults.Start` | kv/server/server.go:149-237 | a start reads the records and sweeps the expired vaults as specified, every disk state of it recorded, and yields a server only if the sweep succeeds |
| `VaultLaws.StartServes` | kv/server/server.go:183-237 | a server that starts serves exactly the live, openable, unexpired records, each as written, and revokes what has ended or cannot be read |
| `VaultLaws.NeverAgain` | kv/server/server.go:183-302 | in every run of registrations, owner calls, sync frames, drops, expiries, restarts and crashes at any moment of an operation, a vault revoked or whose end was answered is never served or granted again |
| `VaultLaws.OverForGood` | kv/server/server.go:279-302 | what has ended, on disk or in a living server, stays ended in every later state of the run |
| `VaultLaws.ServedIsNotRevoked` | kv/server/server.go:102-107 | served and revoked vaults are disjoint in every reachable state |
| `VaultLaws.GrantedIsServed` | kv/server/server.go:377-434 | what any turn of a run grants is served in the state after it |
| `VaultLaws.SweptExactly` | kv/server/server.go:240-249 | a sweep that succeeds over all vaults ends exactly the expired ones |
| `VaultLives.TurnLives` | kv/server/server.go:240-302 | in every turn of a running server: what is served anew was asked for, ephemeral exactly as a registration said and never by the owner's call, and carries the second of its making; a record does not change while it is served; and a vault ends only by its owner's drop or, if ephemeral, by its holder's or once its time to live is over |
| `VaultLives.OwnersVaultLasts` | kv/server/owner.go:25-54 | over every run a vault that is not ephemeral is served, or on the disk of a server that is down, until its owner drops it: no sweep, expiry, client, registration or crash ends it, and no start that can open its log passes it over |
| `VaultLives.SkippedIsAbsent` | kv/server/server.go:183-237 | a start that cannot open its log leaves it neither served nor revoked, and then it can be made anew under another key and another second |
| `VaultLives.TurnAnswers` | kv/server/server.go:253-584 | what each turn answers and when: a lookup proceeds exactly for the vault's own key, a frame exactly until the time to live is over, an exchange exactly while the vault is served; Revoked, Mismatch and BadAuth, BadRequest and Unknown each for its one reason |
| `VaultLives.RoomKept` | kv/server/server.go:412-433 | a registration that makes a vault leaves no more than the server has room for, and one refused for room finds that many |
| `VaultLaws.MemoryForgets` | kv/server/server.go:149-181 | the limit of it: a run without a data directory in which a vault is ended, the process dies, and the vault is granted again |
| `Vaults.Disk.DropVaultDir` | kv/server/server.go:702-730 | offline, a vault's record is ended and its log removed, other vaults' records untouched |
| `VaultRuns.Run` | kv/server/server.go:183-302 | whatever turns a server and its directory are put through are a run of the machine, each answer the machine's |
| `Waits.Run` | kv/server/server.go:527-563 | any steps of a vault, its waiters, its server and its owner are a run of the machine, each answer the machine's |
| `Waits.NoLostWakeup` | kv/server/server.go:136-141 | in every run, at every state, a held WAIT whose channel is open sees a vault that has not ended and exactly the set it compared |
| `Waits.WokenIsTold` | kv/server/server.go:544-563 | a WAIT its channel woke is told the set differs or the vault ended, never that nothing changed, unless the server closed |
| `Waits.OkMeansUnchanged` | kv/server/server.go:555-562 | a WAIT answered OK by an open server was answered of the very set it compared |
| `Waits.RunGood` | kv/server/server.go:279-302 | in every run a vault's set only grows and its end is final |
| `Waits.ArrivalMeans` | kv/server/server.go:527-542 | a WAIT with the hash of a client's set is held exactly when that is the set of a live vault of an open server, and told Differ exactly when it is not |
| `Waits.WakeMeans` | kv/server/server.go:544-563 | a held WAIT stays held exactly while its time runs, nothing drains, its vault lives and its set is the one it compared; it is told Differ exactly when the set is another and Unknown exactly when the vault has ended |
| `Waits.Vault.Arrive` | kv/server/server.go:527-542 | up to its select a WAIT is answered, or held on the channel that is open under the same lock, as the machine has it |
| `Waits.Vault.Resume` | kv/server/server.go:544-563 | after its select a WAIT that nothing woke stays, and any other is answered from the state found under the lock |
| `Waits.Vault.Add` | kv/server/server.go:594-606 | what the store takes is added and the waiters are woken exactly when the set grew; a failing or closed store changes nothing |
| `Lz4sLaws.RoundTrip` | lz4s/lz4s.go:65-302 | Undelta(base, Delta(base, src), n) = src for every base and source |
| `Lz4sLaws.DeltaInjective` | lz4s/lz4s.go:65-213 | two texts of one length never share a stream over one base |
| `Lz4sLaws.StreamLength` | lz4s/lz4s.go:65-213 | a stream is at most n + n/255 + 2 bytes, and empty for an empty source |
| `Lz4sLaws.ExpandBound` | lz4s/lz4s.go:218-302 | with no base an accepted stream yields exactly the size asked for, at most 255 bytes a stream byte |
| `Lz4sCodec.DeltaWith` | lz4s/lz4s.go:123-213 | the pruned, bounded hash-chain compressor writes the stream of the naive greedy compressor byte for byte, whatever the hash function and table size |
| `Lz4sCodec.Delta` | lz4s/lz4s.go:129-138 | so does the compressor with its multiplicative hash and its table of 2^10 to 2^16 entries |
| `Lz4sCodec.Search` | lz4s/lz4s.go:157-196 | at every position the chain walk finds the length and distance an exhaustive scan of the 65536-byte window finds |
| `Lz4sCodec.PruneDiffering` | lz4s/lz4s.go:168-172 | a candidate that differs at the best length cannot win |
| `Lz4sCodec.PruneFull` | lz4s/lz4s.go:167-167 | nothing beats a match that reaches the end |
| `Lz4sCodec.SkipOtherHashes` | lz4s/lz4s.go:139-145 | positions of another hash hold no match |
| `Lz4s.ScanIsBest` | lz4s/lz4s.go:180-195 | the scan's match has the greatest gain, and the nearest wins a tie |
| `Lz4sParse.CostIsBytes` | lz4s/lz4s.go:186-194 | the price the compressor puts on a match is the token and the bytes the stream spends on it, so its gain is the bytes saved |
| `Lz4sParse.ScanChooses` | lz4s/lz4s.go:157-200 | the match taken is one the format can hold that saves something; none saves more, no nearer one as much, and none from there is longer; and none is taken exactly when none saves anything |
| `Lz4sParse.ParseGreedy` | lz4s/lz4s.go:150-213 | so at every position of the parse: a literal exactly where no match saves a byte, else the match chosen by bytes saved |
| `Lz4sParse.ChosenOnce` | lz4s/lz4s.go:180-195 | there is one such match |
| `Lz4sParse.ReachIsFormat` | lz4s/lz4s.go:88-100 | a distance is written in one byte up to 256 and in two up to the window, and in no more |
| `Lz4s.MatchLengthIsLongest` | lz4s/lz4s.go:173-176 | the match length is exactly the longest agreement |
| `Lz4sCodec.Undelta` | lz4s/lz4s.go:223-302 | the bounds-checked decoder with its overlapping byte copy accepts exactly the well-formed streams of the given size and yields what their sequences say |
| `Lz4sCodec.Emit` | lz4s/lz4s.go:75-121 | one sequence as the format writes it: token, literal run, distance, length run |
| `Lz4sLaws.ReadAllInverse` | lz4s/lz4s.go:223-302 | reading a stream gives back the sequences written |
| `Lz4sAnswers.Few` | lz4s/lz4s_test.go:92-95 | three literals, and a match of three bytes after them, byte for byte |
| `Lz4sAnswers.Many` | lz4s/lz4s_test.go:96-103 | seven, eight and 262 literals: the full field and its run |
| `Lz4sAnswers.LongMatch` | lz4s/lz4s_test.go:104-109 | a match of sixteen bytes and of seventeen: the full field and its run |
| `Lz4sAnswers.NearAndFar` | lz4s/lz4s_test.go:116-126 | distances of 256 and 257: one byte, and two, the low one first |
| `Lz4sAnswers.Both` | lz4s/lz4s_test.go:112-115 | 272 literals and 272 bytes from 272 back |
| `RowLaws.DecodeEncode` | row/row.go:269-351 | decoding undoes encoding for every valid row: short, long and compressed strings, zigzag and shortest varints, lists |
| `RowLaws.EncodeDecode` | row/row.go:351-566 | every byte string that decodes is the one encoding of what it decodes to, and that row is valid |
| `RowLaws.VarintExact` | row/row.go:372-391 | an accepted varint is in its shortest form |
| `RowLaws.ZigzagInverse` | row/row.go:332-333 | zigzag is undone and keeps the integer range |
| `RowLaws.InflateExact` | row/row.go:528-566 | an accepted compressed string is the compressor's own stream, of the claimed size, and was worth compressing |
| `RowLaws.InflateInverse` | row/row.go:511-545 | a compressed string written by the encoder passes every check of the decoder, the early refusal included |
| `RowDecoder.DecodeVals` | row/row.go:351-362 | the decoder as it runs reads the row, or reports the code of the first fault, that the format's definition gives |
| `RowLaws.EarlyRefusal` | row/row.go:528-532 | the refusal of a claim over 255 bytes a stream byte comes only before a decompression that would have failed with the same code |
| `RowDecoder.Decoder.Uvarint` | row/row.go:372-391 | the shift-and-or loop reads the varint and its two error codes |
| `RowDecoder.Decoder.Item` | row/row.go:429-566 | one item, whatever its tag, with its error |
| `RowFaults.RowCut` | row/ROW.t:138-138 | part of a row is its first items and reads as these, or is refused as cut short (R001) |
| `RowFaults.LongVarint` | row/ROW.t:139-139 | a varint of more than eight bytes is refused (R002) |
| `RowFaults.PaddedVarint` | row/ROW.t:139-139 | so is one longer than its shortest form |
| `RowFaults.NumberRefused` | row/ROW.t:140-140 | an integer, date, datetime or duration outside its range is refused (R003) |
| `RowFaults.TimeRefused` | row/ROW.t:140-140 | so is a time |
| `RowFaults.DecimalRefused` | row/ROW.t:140-141 | a decimal is refused for its scale (R004) before its range (R003) |
| `RowFaults.FloatRefused` | row/ROW.t:142-142 | a NaN, an infinity and -0 are refused (R005) |
| `RowFaults.TextRefused` | row/ROW.t:143-143 | a string that is no UTF-8 is refused (R006) |
| `Utf8Laws.RuneExactly` | row/row.go:420-427 | well-formed is exactly: a code point laid out in one to four bytes, in its shortest form, up to U+10FFFF and no surrogate |
| `RowFaults.FormRefused` | row/ROW.t:144-144 | a string is refused (R007) long though it is short or compresses, and compressed though it is short or saves nothing |
| `RowFaults.NestedRefused` | row/ROW.t:145-145 | a list in a list is refused (R008), wherever it stands there |
| `RowFaults.StreamRefused` | row/ROW.t:146-146 | a stream that is not the compressor's own for its string, or yields none of that size, is refused (R009) |
| `RowAnswers.Strings` | row/ROW.t:56-127 | a string's text, tag and payload: short, long, or compressed when that is the shorter |
| `RowAnswers.Numbers` | row/ROW.t:56-127 | an int's, a decimal's and a float's text, tag and payload |
| `RowAnswers.Dates` | row/ROW.t:56-127 | a date's |
| `RowAnswers.Datetimes` | row/ROW.t:56-127 | a datetime's |
| `RowAnswers.Times` | row/ROW.t:56-127 | a time's |
| `RowAnswers.Durations` | row/ROW.t:56-127 | a duration's |
| `RowAnswers.Blobs` | row/ROW.t:56-127 | a byte string's |
| `RowAnswers.Lists` | row/ROW.t:56-130 | a list's, between brackets and counted |
| `RowTextLaws.RoundTrip` | row/text.go:25-232 | parsing the text of a valid row gives the row: no shape matcher claims another kind's spelling, escapes invert, decimal, date, time and duration digits read back |
| `RowTextLaws.Injective` | row/text.go:25-104 | no two rows are spelt alike |
| `RowTextValid.ParseExact` | row/text.go:198-232 | a line that parses is the one spelling of a valid row |
| `RowTextLaws.WordReads` | row/text.go:531-600 | every kind's bare spelling is matched as that kind by the ordered matchers |
| `RowTextLaws.QuoteReads` | row/text.go:77-106 | a quoted string reads back, whatever follows it |
| `RowTimes.DurationReads` | row/text.go:142-163 | a duration's spelling is matched by the duration matcher and reads back exactly |
| `RowTimes.DatetimeReads` | row/text.go:133-140 | a datetime's calendar date and clock read back as the same millisecond |
| `RowMeaning.IntSays` | row/text.go:46-47 | an int's text is a minus if it is negative and the digits of its value, no zero leading |
| `RowMeaning.DecimalSays` | row/text.go:108-122 | a decimal's text without its point is its mantissa, with as many digits after the point as its scale, so its value times ten to the scale; a zero leads only before the point |
| `RowMeaning.DateSays` | row/text.go:133-136 | by position: the first four characters of a date's text are the digits of its year, the sixth and seventh of its month, the last two of its day, hyphens between |
| `RowMeaning.TimeSays` | row/text.go:138-140 | by position: hours, minutes, seconds and thousandths of a time's text, each in its place and range, add up to its milliseconds |
| `RowMeaning.DatetimeSays` | row/text.go:133-140 | a datetime's text is the date of its day, a T, the time within that day, and a Z |
| `RowMeaning.DurationSays` | row/text.go:142-163 | the hours, minutes, seconds and decimals of a duration's text, each left out when it is none, no zero trailing, add up to its milliseconds |
| `RowMeaning.HexSays` | row/text.go:61-62 | two lower-case hexadecimal digits a byte, the high one first |
| `RowAnswers.Escapes` | row/text.go:77-106 | each escape by its characters |
| `RowAnswers.AString` | row/ROW.t:188-188 | text and bytes of the format's example "EUR" |
| `RowAnswers.NoText` | row/ROW.t:189-189 | text and bytes of the empty string |
| `RowAnswers.Words` | row/ROW.t:190-192 | text and bytes of none, false and true |
| `RowAnswers.Minus7` | row/ROW.t:193-193 | text and bytes of the format's example -7 |
| `RowAnswers.ThreeHundred` | row/ROW.t:194-194 | text and bytes of the format's example 300 |
| `RowAnswers.Money` | row/ROW.t:195-195 | text and bytes of the format's example 90.00 |
| `RowAnswers.Yen` | row/ROW.t:196-196 | text and bytes of the format's example 1500. |
| `RowAnswers.Cents` | row/ROW.t:197-197 | text and bytes of the format's example -0.05 |
| `RowAnswers.Floats` | row/ROW.t:198-199 | the eight bytes of the format's examples 9.05e1 and 1e-3 |
| `RowAnswers.ADate` | row/ROW.t:200-200 | text and bytes of the format's example 2026-10-08 |
| `RowAnswers.TheEve` | row/ROW.t:201-201 | text and bytes of the format's example 1969-12-31 |
| `RowAnswers.ADatetime` | row/ROW.t:202-202 | the text of the format's example 2026-10-08T09:30:00.000Z |
| `RowAnswers.ADatetimeBytes` | row/ROW.t:202-202 | and its bytes |
| `RowAnswers.ATime` | row/ROW.t:203-203 | text and bytes of the format's example 09:30:00.000 |
| `RowAnswers.LongDuration` | row/ROW.t:204-204 | text and bytes of the format's example 1h30m15.25s |
| `RowAnswers.HalfSecond` | row/ROW.t:205-205 | text and bytes of the format's example -0.5s |
| `RowAnswers.NoTime` | row/ROW.t:206-206 | text and bytes of the format's example 0s |
| `RowAnswers.ABlob` | row/ROW.t:207-207 | text and bytes of the format's example 0x00ff |
| `RowAnswers.NoBytes` | row/ROW.t:208-208 | text and bytes of the format's example 0x |
| `RowAnswers.AList` | row/ROW.t:209-209 | text and bytes of the items of the format's example ["ben", 1] |
| `RowAnswers.NoItems` | row/ROW.t:210-210 | text and bytes of the format's example [] |
| `RowParser.Parse` | row/text.go:198-232 | the parser as it runs gives the row or the fault that the notation's definition gives |
| `RowParser.ReadBare` | row/text.go:531-600 | the ordered matchers, each the scan the program runs, read a bare item as the notation's definition does |
| `RowParser.Parser.Str` | row/text.go:304-361 | the string loop with its escapes and surrogate pairs reads what the definition reads |
| `RowParser.Parser.List` | row/text.go:267-300 | the list loop reads what the definition reads |
| `RowParser.Parser.Item` | row/text.go:247-265 | an item, a list only outside a list |
| `Civil.DateInverse` | row/civil.go:10-51 | the date of a date's day is the date, for every date of the proleptic Gregorian calendar |
| `Civil.DayInverse` | row/civil.go:10-51 | every integer day has a real date, and the day of that date is the day |
| `Civil.NextDay` | row/civil.go:30-72 | the next day number is the next calendar date |
| `Civil.Epoch` | row/civil.go:10-51 | day 0 is the first of January 1970 |
| `Civil.YearBounds` | row/civil.go:54-59 | a day has a valid date, of the years 1 to 9999, if and only if it is one of -719162 to 2932896 |
| `WrapBreak.BreakLines` | typeset/wrap/wrap.go:570-642 | whatever the cost model, hyphenator and words: every line fits its measure and the lines, less hyphens added at breaks and with split pieces rejoined, read as the input words in order; where no word is hyphenated or split the breaks cost least of all ways to cut the words into lines that fit. It ends whenever the first word does not stick, having gone through a run of the loop's turns |
| `WrapBreak.StuckRun` | typeset/wrap/wrap.go:589-613 | from a word that sticks any number of turns is a run of the loop that stands at word 0, all its states after the first turn alike |
| `WrapTurns.EndsExactly` | typeset/wrap/wrap.go:589-613 | the loop ends, within two turns a word and one more, exactly when its first word does not stick; from one that does there is a run of any length |
| `WrapTurns.StuckForever` | typeset/wrap/wrap.go:594-613 | after the first turn at a word that sticks every state of every run is the same |
| `WrapTurns.RunsDown` | typeset/wrap/wrap.go:589-641 | otherwise every turn uses up one of the turns left |
| `WrapJustify.StuckExactly` | typeset/wrap/wrap.go:594-613 | for a word without points, sticking is exactly: wider than the first measure, and its leftover on the wide measure wider than the narrow one |
| `WrapJustify.OneMeasureNeverSticks` | typeset/wrap/wrap.go:594-613 | with one measure no word sticks |
| `WrapBest.ChosenIsCheapest` | typeset/wrap/wrap.go:652-738 | the plan's cutting has the least total cost over all cuttings into lines that fit, last line included |
| `WrapBest.NoneCheaper` | typeset/wrap/wrap.go:652-738 | the cost of a position is a lower bound of every cutting from it |
| `WrapDp.Dp` | typeset/wrap/wrap.go:652-738 | the backward pass settles each position at its cheapest break and leaves positions outside its range alone |
| `WrapDp.Scan` | typeset/wrap/wrap.go:668-735 | the scan's early stop on overflow misses no break that fits |
| `WrapDp.Hyphen` | typeset/wrap/wrap.go:749-765 | the cheapest of the points that fit, if any does |
| `WrapLines.Replace` | typeset/wrap/wrap.go:583-588 | putting a suffix in a word's place and planning that position again keeps the whole plan sound |
| `WrapLines.TakeLine` | typeset/wrap/wrap.go:615-638 | a line as planned: whole words, and a hyphenated prefix at a point |
| `WrapLines.SplitTurn` | typeset/wrap/wrap.go:593-613 | the pieces of an overlong word each fit, and what is left takes its place |
| `Wrap.Split` | typeset/wrap/wrap.go:382-411 | every piece is nonempty and fits its line, the pieces and the rest are the word, and the rest fits too; there is no piece exactly when the word fits |
| `Wrap.Piece` | typeset/wrap/wrap.go:382-411 | a piece ends at the rightmost point that fits, a hyphen added unless one stands there, or else holds all that fits |
| `Wrap.FitRunes` | typeset/wrap/wrap.go:416-431 | galloping and bisecting finds the longest prefix that fits, for any measurer whose prefixes only grow |
| `Wrap.Suffix` | typeset/wrap/wrap.go:336-346 | the suffix of a word with its points shifted |
| `Wrap.Measure` | typeset/wrap/wrap.go:349-362 | prefix widths are kept as far as any line can use them |
| `WrapJustify.JustifyMono` | typeset/wrap/wrap.go:199-216 | every line of more than one word but the last is exactly its measure wide, none is wider, words keep a space between, and the lines read as the input. Where no word is hyphenated or split no other way of breaking the words into lines that fit costs less, a line costing the least sum of squares its widened gaps can have, a word alone four times its slack squared, and the last line a quarter of its slack squared if it is shorter than five |
| `WrapJustify.Cell` | typeset/wrap/wrap.go:166-178 | a table cell's lines are the words of each line joined by single spaces, none wider than the cell, one empty line for no text. Where no word is hyphenated or split no other way of breaking them costs less, a line costing its slack squared and the last a quarter of that if it leaves more than half the measure |
| `WrapJustify.Gaps` | typeset/wrap/wrap.go:228-258 | the gaps sum to exactly what the line lacks and differ by at most one unit, the wider ones first |
| `WrapGaps.EvenIsLeast` | typeset/wrap/wrap.go:548-556 | the monospace gap cost is that of the even spread, and no spread of the slack costs less |
| `WrapCosts.CheapestIsLeast` | typeset/wrap/wrap.go:484-556 | a cheapest cutting under either cost model is a way of breaking the words at the least cost, said by the widths of lines and gaps alone |
| `WrapCosts.HyphenWeighed` | typeset/wrap/wrap.go:699-735 | a point is weighed, when its prefix fits, exactly where its word overflows the line or, justified, in any word but the last |
| `WrapCosts.HyphenPrice` | typeset/wrap/wrap.go:749-765 | a line ended at a point costs what its words and the hyphen leave, and 6 for the hyphen when justified and 25 in a cell, 40 more when justified if the rest begins the last line |
| `Raster.SamePictureSameRow` | typeset/raster/raster.go:159-225 | two rows that pass the check with equal index and role and show the same glyph, background, target and visible foreground in every column are identical |
| `Raster.Check` | typeset/raster/raster.go:149-225 | the check accepts exactly the canonical rows |
| `Raster.CheckMeet` | typeset/raster/raster.go:210-225 | two links that meet differ in target; two plain segments on one background differ in foreground and part at a glyph after a glyph |
| `Raster.BlankExactly` | typeset/raster/raster.go:113-125 | among checked rows of role 0, a row that shows nothing is the blank row |
| `Raster.IsBlank` | typeset/raster/raster.go:119-125 | IsBlank is the comparison with the blank row on rows that cover their columns |
| `RasterPen.Draft.Put` | typeset/raster/draft.go:51-64 | a Put that fits changes exactly its columns to the glyphs, colours and target given; one that does not changes nothing |
| `RasterPen.Draft.Row` | typeset/raster/draft.go:71-125 | a row is drawn exactly when the columns can be, and it is canonical and shows just what the draft holds |
| `RasterPen.Draft.Split` | typeset/raster/draft.go:90-125 | a stretch is cut into canonical segments that show it, or refused for two foregrounds under one target |
| `RasterPen.Redraw` | typeset/raster/draft.go:71-86 | a draft that shows a canonical row's picture gives back that row |
| `RasterDraft.DrawnPasses` | typeset/raster/draft.go:71-86 | a drawing without a clash passes the check exactly when its cells are lawful |
| `RasterDraft.LinkOverTwoBackgrounds` | typeset/raster/raster.go:210-215 | a link over two backgrounds, lawful in every column and of one foreground, cannot be drawn |
| `FlowColumns.Flow` | pica/press/flow.go:23-115 | for any blocks and any capacities it ends, having taken the turns of the machine: less pads, separators and lead-ins put again its columns hold every line once and in order; each is the rendering of consecutive pieces; blocks start on whole body lines; a column is over its capacity only when one force-placed piece stands alone in it |
| `FlowColumns.Columns.Turn` | pica/press/flow.go:51-110 | one pass of the inner loop is the machine's turn, and what is still to come shrinks |
| `FlowColumns.Columns.Place` | pica/press/flow.go:35-48 | a piece is put on a whole body line after its pad and separator, and noted |
| `FlowTurns.RunGood` | pica/press/flow.go:23-115 | in every run the pieces are the blocks in order, closed columns are well made and full, and the open one is within its capacity |
| `FlowTurns.EndColumns` | pica/press/flow.go:51-110 | of each column: a block is split only with two segments on each side of the cut beyond its lead-in, or where its piece stands alone, an atomic one never; every heading but the first of its column had room for what follows it; and none is closed before the last unless a part of what did not fit was split off it, as much as may be, or what comes next does not fit and cannot be split, or is a heading without room for what follows |
| `FlowTurns.HeadingLast` | pica/press/flow.go:60-109 | a heading ends its column, what follows it going to the next, if and only if what follows is a heading without room for what follows it in turn, or does not fit and is atomic, or has too few segments to be split, or its lead-in and two segments do not fit |
| `FlowTurns.HeadingFollowed` | pica/press/flow.go:60-109 | else the column goes on with what follows: the whole of it, or its lead-in and two segments at least |
| `FlowTurns.HeadingForced` | pica/press/flow.go:69-109 | a heading that something follows ends its column with a piece of its own if and only if it comes first there and does not fit |
| `FlowTurns.OpeningIs` | pica/press/flow.go:60-88 | the room a heading asks for what follows it: each heading under it with its separator, then a separator and the first two segments of the block that is none, or the only one |
| `FlowTurns.HeadingAlone` | pica/press/flow.go:60-109 | a run that leaves a heading last in its column, before lines that cannot be split |
| `FlowTurns.ChainBroken` | pica/press/flow.go:60-88 | a run that leaves a heading last in its column, before another heading |
| `FlowPieces.CoversLines` | pica/press/flow.go:35-48 | pieces that are the blocks in order hold their lines once and in order |
| `Blocks.FitMost` | pica/press/flow.go:119-126 | so many leading segments fit, and no more |
| `Blocks.SplitAtIs` | pica/press/flow.go:131-143 | the split is the last that keeps two segments on each side after the lead-in and fits, 0 only when there is none |
| `Blocks.ForcedAtIs` | pica/press/flow.go:150-156 | a forced part overflows only with the least it can place, a lead-in and one segment or an atomic block |

## Left out

- Cryptography: sealing, key derivation, nonce generation and channels. An id is any function of
  the entry, a set hash any function of ids, both injective where a claim needs it; an authentic
  frame is a parameter.
- I/O, locks, fsync, HTTP, clocks and signals. `durable.WriteFile` writes a whole record or nothing
  and a failure changes nothing; the time is a parameter.
- Error wording, byte offsets in errors, retries of opening a log, tracing and statistics.
- LogStores.LogStore.Add: the seek that restores the append offset after a failed write always
  succeeds; in the program its failure is ignored (kv/store/logstore.go:261).
- LogStores.LogStore.Init: a file torn inside its eight-byte magic is refused, as in the program, so
  a crash before the magic is whole is not recovered (kv/store/logstore.go:115-117).
- Syncs.Syncer.Sync: the convergence claim assumes no entry at position (0, zero id), a union of
  fewer than 2^20 entries (the page budget), room in the quotas, timestamps within the skew and one client
  at a time; `Replicas` has the concurrent claims.
- Replicas.RunGood: requests and answers are whole messages over a network that loses, repeats and
  delays them; pages are any part of the server's set and a client's window any part of its own.
- SyncRuns.TwoSyncsEach: a REGISTER is not an exchange of the machine, whose server holds its vault
  throughout; syncs follow one another, while the laws of `Replicas` are for any interleaving.
- Vaults.Server.Exchange: what the exchange does with the entries is `Relays`; here it is whether a
  vault that has ended answers as an unknown one.
- Relays.Relay.Register: expiry, the sweep, a key mismatch and a failing creation, which are
  `Vaults.Server.Register`; which of several register keys opened the frame, and a vault served again
  after its log failed to open at a start, whose byte count then starts from zero.
- VaultLives.OwnersVaultLasts: a server without a data directory is followed up to its crash; one with
  it, over starts that can open the vault's log.
- VaultLaws.NeverAgain: records an operator deletes or mends by hand; `DropVaultDir` runs only while no
  server does.
- The client's `All`, `List`, `Wait` and the server's `OnPush` hook, `Entries` and `Vaults`: they
  read what the modelled parts keep.
- Canon.SortCanonical: the library's sort is an insertion here; any other gives the same.
- Lz4sCodec.DeltaWith: base and source together stay under 2^31 bytes, the width of the chain's
  positions.
- RowLaws.DecodeEncode: conversions between the program's types and ROW values (`fromGo`, `toGo`)
  and the float checks of the hardware: a float is its bits, with the canonical ones given by a
  predicate on bits.
- RowFaults.NumberRefused: numbers whose varint fits eight bytes; a longer one is `RowFaults.LongVarint`.
- RowAnswers.Floats: the bytes alone; the digits of a float's text are a parameter.
- RowTextLaws.RoundTrip: float digits are any pair of functions that print and read back;
  `matchShape`'s submatches are fixed positions; `quote` works on the bytes of valid UTF-8.
- Civil.DayInverse: integers are unbounded, where the program's are 64 bits wide.
- WrapBreak.BreakLines: monospace measures only, so hang and shrink are 0 and no rune is wider than
  a measure; costs are counted in quarters. Emphasis and splitting text into words are not modelled. The
  cost of an overlong word is the program's own approximation, so optimality is claimed where no
  word is split or hyphenated; `WrapCosts.HyphenPrice` says what a hyphen costs.
- Raster.SamePictureSameRow: the column rule of Unicode, its normal form and the grammar of targets
  are given as predicates and functions; a code point is a `char`.
- FlowColumns.Flow: each placed line carries a mark of what it is, for stating the properties; a
  lead-in is no longer than its block.
- Waits.NoLostWakeup: the set is a value with a fingerprint, injective where a claim needs it, and the
  deadline and the client that gives up are one flag. The byte count and the quotas are `Relays`.
- Drawing, fonts, PDF, templates, `pica/format.go`, `golay`, `ascon`, `trudge`, the JavaScript twins
  and the commands.
