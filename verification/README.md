# Verified model of the primary-to-replica replication engine

The cache server splits its keys over a fixed number of slots. Each slot of a primary is a versioned map with a write
log; a replica polls the primary over short connections and receives, slot by slot, either the next log records or an
image of the whole slot. This project models that engine in Dafny and proves what the design promises: a replica slot
always holds exactly the primary's map after some write, and catches up once writers pause. Around it stand the codecs
that the protocol uses, the commands whose records are replayed, the key matcher, the sorted-set ranges, SCAN and the
read gate of a replica.

## How the files fit together

| files | what they hold |
|---|---|
| `Core`, `Numbers`, `Order`, `ScoreText` | objects, 64-bit numbers as text, binary string order, printed scores |
| `Binlog`, `HashSlot`, `StagedWrites` | the log with its byte budget, the slot as a class and as a value, its locks as a state machine |
| `SlotWrites`, `Looks`, `Moments`, `Clients` | what polls and maintenance see of the slots while others write them, lock by lock and write by write |
| `Calls` | what one call of the primary's replicator does to all slots, and the step of the model that it is |
| `Commands`, `Mutators`, `Replay` | what each write command does, its loops and guarded arithmetic, and the replay of its record |
| `SnapshotCodec`, `FrameCodec` | the two encodings |
| `Master`, `Slave` | sessions, batches, retention and the replica's state machine as functions of values |
| `Engine`, `MasterReplicator`, `SlaveReplicator`, `Sweeper` | the same as objects with loops over slots, proved against those functions while clients write |
| `History`, `Agreement`, `Primary`, `World` | committed writes, writers at work during polls and maintenance, and agreement in every run |
| `Delivery`, `Link`, `Convergence` | batches cut after any frame, and catching up |
| `Visits`, `Rotation`, `BacklogRace` | what one visit sends, fairness, and the race in which a due slot gets nothing |
| `Greetings`, `QuietPolls`, `Collection`, `Refusals` | what a HELLO settles and DONE announces, what one poll brings, what maintenance takes, and what a replica refuses, told by what goes in and what comes out |
| `Budget`, `BudgetRace`, `Retention` | the byte budget of the logs, the race that exceeds it, and the records that sessions rely on |
| `RepeatedSets` | a slot after any number of SETs of one key, for the two races |
| `Glob`, `Scan`, `ReadGate`, `SortedSets` | the matcher, SCAN, reads on a replica, ranks and ranges |
| `WriteLaws`, `ReadLaws`, `RangeLaws`, `GlobLaws`, `ImageLaws` | what each command stores, refuses, finds or selects, told by its words and by what is stored, and which word lists are images |

The main results, in the order in which they build on each other:

1. `Replay.ReplayIsExactIffTimed`: replaying a record reproduces the primary's write exactly, on every replica, if and only if command times are not 0.
2. `StagedWrites.RunIsSerial`, `Looks.LooksArePoll` and `Looks.LooksAreMaintenance`: with writers interleaved lock by lock, a slot is always the result of its published writes made one after the other, and every poll and every maintenance over all slots is one of the model's, with those writes.
3. `World.RunKeepsAgreement`: in every run (primaries replaced, frames late, repeated, reordered or lost, replicas restarted, writers inside polls and inside maintenance) every replica slot holds exactly its session primary's map after write number `applied`.
4. `Link.LinkRunKeepsInv`, `Link.PullIsSmooth` and `Link.PullNeverMovesBack`: over a link that cuts a batch anywhere, whatever other replicas poll meanwhile, no frame is ever refused, no slot moves back within a session, and a slot turns Online only when it is current.
5. `Convergence.RoundsConverge` and `Link.ReachedStateCatchesUp`: from every state that any run reaches, enough fully delivered polls without writers turn every slot Online with exactly the primary's map.
6. `Rotation.NoSlotStarves`: in every run of a primary that contains as many polls of a replica as there are slots, every slot that the replica's HELLOs name, as a replica's own do, is served: if anything of it is missing, its image or its next record is sent. Whatever the HELLOs name, every slot has its turn (`Rotation.EveryTurnComes`), and gets nothing in it exactly when a writer hides a gap (`Visits.VisitTakesTurn`).
7. `Retention.RunKeepsRetention` and `Budget.BudgetIsMetIffNothingAppended`: in every run the records that an unflagged session relies on are kept at every point, whatever other replicas do, exactly if every slot whose loss one of its own HELLOs leaves unseen (a writer hides the gap, or a first HELLO leaves out a slot whose log was trimmed) gets its image in the same answer; and the byte budget is met, for all budgets, exactly when no writer appends to a slot whose bytes were already counted.
8. `QuietPolls.OnePollIsEnough` and `QuietPolls.QuietPollServesSlot`: one poll without writers turns every slot Online if what the replica misses fits one batch; a batch that visits all slots leaves each Online, or its records cut off by one of the three limits of a batch.
9. `Refusals.WaitsUntilFreed` and `Collection.WhatIsLeftIsNeeded`: a replica slot that lost a record stays unreadable and refuses records until an image or a new session frees it, whatever frames come; and what maintenance leaves in a log is what some session has not acknowledged or what was written since.
10. `WriteLaws.SetStores` and the laws beside it: the map, the deadline and the record that every write command leaves, from its words and the map before, with the exact condition under which it refuses.

The objects are tied to these results over all slots together: `MasterReplicator.Poll` and `MasterReplicator.Maintain` state
what they saw of the slots between the writes that their clients made meanwhile, and `Calls.PollRefines` and
`Calls.MaintainRefines` show that each such call is one poll or one maintenance of `Primary`, with those writes, the same
answer and the same state, which is what the runs of `Primary` and `World` are made of.

## What is assumed

- Commands and sweeps carry a time that is not 0 (`Replay.ReplayIsExactIffTimed` shows that this is needed), and SPOP's random choice is some distinct members of the set, as many as asked for if there are as many.
- Epochs of different primaries differ; that session names never collide is then proved. A slot commits fewer than 2^64 - 1 writes.
- All writes of a primary go through commands or expiry. A slot's image has at most 1,000,000 elements and no score whose printed exponent ends in 0 after a point or that `strtod` refuses (`SnapshotCodec.SnapshotRoundTrip` shows that all three are needed).
- The RESP reader inverts the RESP writer on arrays of bulk strings, and a container visits what it holds in an order that depends on what it holds only; `History.ValidCanBeMet` shows that such a reader and such an order exist for every hash function, scoring and printing of scores.
- A score that is printed and not refused by `strtod` reads back as itself, and a text that denotes another number does not read as it (`ScoreText.PrintsFairly`, asked for stored scores only).
- The results over the objects and over the locks ask of the clients' writes what `Primary.Commits` asks: each commits as above, or changes nothing.
- The server's batches ask for at least one frame (it asks for 4096, src/net/server.cpp:155); a poll for none would move the cursor past a slot.
- Scores are real numbers; score addition is a function that may reject its result. A record costs 48 bytes and each of its words 32 bytes and its length, the sizes of the two types with the 64-bit GNU library.

## Where the code departs from what one would expect

- `HasBacklog` looks at a slot three times under separate locks. A writer that slips in between can make it miss a gap or report a caught-up replica as behind; `History.HasBacklogIsExactUnlessRaced` says exactly when, `History.RacedBacklogMissesAGap` shows the race. Agreement does not depend on it.
- A poll can pass over a slot of which the replica misses records and send nothing of it, neither a record nor the image. It happens, at a visit with room, exactly when `HasBacklog` misses a gap (`Visits.VisitTakesTurn`), and never to a slot that the same HELLO names (`Visits.NamedSlotIsNotPassedOver`). A replica names all its slots (`Visits.OwnHelloNamesAll`), but `Poll` takes HELLOs that leave slots out: after one SET whose record was evicted, a first HELLO that names nothing and one SET during the poll, the answer is BEGIN and DONE (`BacklogRace.WriterHidesGap`), and one poll of one slot has not served it (`BacklogRace.UnnamedSlotStarves`).
- The branch of the batch builder that flags a slot because of a gap between copied records is never taken (`Delivery.NoGapBelowTarget`): even when `HasBacklog` misses a gap, the records behind it lie above the announced number.
- Maintenance can leave more than its budget. `EnforceBudget` counts a slot, reads its highest number and drops its log under three separate locks. A record that a writer appends after the count is freed as well and charged against slots that nobody dropped: with two slots of 149 bytes each, a budget of 148 and one such write, 149 bytes stay (`BudgetRace.WriterDefeatsBudget`). The excess is never more than what was appended after the count (`Budget.BudgetIsMetUnlessAppended`).
- One stored score whose printed form `strtod` reports as out of range (as C libraries do for subnormals, which ZINCRBY can produce) makes the replica refuse the image of the whole slot (`SnapshotCodec.RefusedScoreLosesTheImage`).
- `FormatScore` strips zeros from exponents: a score printed as 1.5e+20 comes back as 150 (`ScoreText.LargeScoreLosesItsZero`).
- A batch can go on past a slot of which it sent fewer than 128 pending records with frames and bytes to spare: the copy of the log stops before a record that does not fit what is left of the 16 MiB, and a later slot may still fit (`QuietPolls.QuietPollServesSlot` has this as one of its three cuts).
- DONE does not name slots that wait for a snapshot, so a slot can stay readable with an older map. Currency is therefore stated at the moment a slot turns Online.

## Model

| member | source | states |
|---|---|---|
| Numbers.ParseU64OfDecimal | src/repl/repl_frame.cpp:14-17 | A printed number parses back exactly when it is a 64-bit number |
| Numbers.ParseInt64OfDecimal | src/common/parse_utils.cpp:10-20 | Every signed 64-bit number comes back from its printed text |
| Numbers.ParseInt64IsExact | src/common/parse_utils.cpp:10-20 | A text is read as a number exactly if it is a sign or none, digits, and then its end or a zero byte, and the number has 64 bits |
| Binlog.BinlogBuffer.Append | src/cache/binlog.cpp:16-19 | The record goes to the end and the byte counter stays the size of what is retained |
| Binlog.BinlogBuffer.CopyAfter | src/cache/binlog.cpp:26-48 | The copying loop with its early exits returns the budgeted copy; its subtraction never wraps around |
| Binlog.LogAfterIsBudgetedStretch | src/cache/binlog.cpp:26-48 | A copy of a contiguous log is the longest stretch right after the number that respects limit and bytes, and never empty while something is there |
| Binlog.RecordGrows | src/cache/binlog.cpp:8-14 | A record costs 48 bytes, and 32 more and one for each character for every word |
| Binlog.BinlogBuffer.AckThroughAndCountBytes | src/cache/binlog.cpp:54-62 | All leading records up to the number go, and the bytes reported are the bytes freed |
| HashSlot.HashSlot.Mutate | src/cache/hash_slot.cpp:126-178 | Map, log and both counters move together as the mutator decides for the live object: one record with the next number if logging is on, no key but its own; an absent or expired object is never erased |
| HashSlot.HashSlot.Del | src/cache/hash_slot.cpp:180-214 | A live key goes, every other stays, and one record DEL with no deadline is logged; a missing or expired key changes nothing |
| HashSlot.HashSlot.Expire | src/cache/hash_slot.cpp:276-316 | A live object gets the saturating deadline and is logged as EXPIRE; with 0 or negative seconds it goes and is logged as DEL; a missing or expired key changes nothing |
| HashSlot.SweepKeepsLive | src/cache/hash_slot.cpp:216-274 | Removing a picked list of expired keys touches no live object, counts what it removes, and leaves no expired object when it stays under its quota |
| HashSlot.HashSlot.InstallReplicaSnapshot | src/cache/hash_slot.cpp:345-354 | Map and both counters are replaced and the log is emptied |
| HashSlot.HashSlot.MarkReplicaAppliedSeq | src/cache/hash_slot.cpp:356-368 | Neither counter ever falls |
| StagedWrites.StepRefines | src/cache/hash_slot.cpp:86-213 | Every step of every thread leaves the atomic slot as it is, performs one whole write at its publication, or trims the log while the lock is free |
| StagedWrites.RunIsSerial | src/cache/hash_slot.cpp:126-213 | At every moment of every interleaving the snapshot pair is the result of exactly the first `published` writes, retained numbers are contiguous, and the last one is `published`, or one more while a write is under way |
| Looks.RunFits | src/cache/hash_slot.cpp:126-213 | In every interleaving, trims included, the slot holds the records of its published writes from the first that is not trimmed, and the map after the last |
| Looks.PollLooksAreInOrder | src/repl/master_replicator.cpp:57-81 | The five looks of a poll, those at the log under the write lock, are the slot between whole writes of one history, in order, and show what the fields hold at those moments |
| Looks.UpkeepLooksAreInOrder | src/repl/master_replicator.cpp:182-213 | The four looks of maintenance are such looks too, and at the end the log is the history less what collection and eviction take |
| Looks.TasksAreWrites | src/cache/hash_slot.cpp:126-213 | What the threads publish in a slot is what the atomic writes commit there, in the same order |
| Looks.LooksArePoll | src/repl/master_replicator.cpp:51-168 | A poll lock by lock over all slots, with any threads at work on each, is a poll of the atomic model: the writes are those that were published, every look of greeting and batch is allowed, and a slot is greeted before it is served |
| Looks.LooksAreMaintenance | src/repl/master_replicator.cpp:182-222 | Maintenance lock by lock over all slots is maintenance of the atomic model, and leaves every slot with the state and history that the model gives it |
| SlotWrites.TogetherApplies | src/cache/hash_slot.cpp:126-213 | Slots share nothing: the writes of all slots, made together, leave each slot as its own writes leave it |
| Mutators.CheckedAddInt64 | src/command/string_cmd.cpp:80-92 | The sum, or a refusal exactly when it overflows, without an overflow in the guards |
| Mutators.CheckedSubtractInt64 | src/command/string_cmd.cpp:94-106 | The difference, or a refusal exactly when it overflows |
| Mutators.CheckedMultiply | src/command/string_cmd.cpp:108-115 | The product, or a refusal exactly when it exceeds 64 bits |
| Mutators.AddWouldOverflow | src/command/hash_cmd.cpp:100-108 | True exactly when the sum leaves the signed 64-bit range |
| Mutators.ComputeDeadline | src/command/string_cmd.cpp:149-181 | Scaled and added deadlines, refused exactly when they exceed 64 bits |
| Mutators.ParseSetOptions | src/command/string_cmd.cpp:183-237 | The option loop accepts and rejects what the recursive grammar does |
| Mutators.SetOptionsAreCompatible | src/command/string_cmd.cpp:183-237 | Accepted options never combine NX with XX or GET, nor KEEPTTL with a deadline |
| Mutators.IncrementIsUndone | src/command/string_cmd.cpp:239-295 | A successful increment is undone by the opposite one, number and deadline alike |
| Mutators.AddMembers | src/command/set_cmd.cpp:124-131 | The union with the arguments, and the number of members that were new |
| Mutators.RemoveMembers | src/command/set_cmd.cpp:192-201 | The difference with the arguments, and the number of members that went |
| Mutators.SetAdd | src/command/set_cmd.cpp:111-138 | SADD's mutator: keeps the deadline, and changes nothing when no member is new |
| Mutators.SetRemove | src/command/set_cmd.cpp:183-215 | SREM's mutator: erases the key with its last member, and changes nothing when no member goes |
| Mutators.Pop | src/command/set_cmd.cpp:315-354 | SPOP's mutator: the chosen members go and are logged as an SREM |
| Mutators.PopTakesWhatItLogs | src/command/set_cmd.cpp:315-354 | SPOP removes as many members as asked for, or all of them, and logs exactly those |
| Mutators.RemoveKeys | src/command/hash_cmd.cpp:201-212 | What is left without the named fields, and how many went |
| Mutators.HashDelete | src/command/hash_cmd.cpp:188-219 | HDEL's mutator: erases the key with its last field |
| Mutators.SortedSetRemove | src/command/zset_cmd.cpp:721-754 | ZREM's mutator: erases the key with its last member |
| Mutators.ApplyFieldValuePairs | src/command/hash_cmd.cpp:87-98 | The fields after all pairs in order, and how many fields are new |
| Mutators.LastPairWins | src/command/hash_cmd.cpp:87-98 | A field ends with the value of its last pair, or keeps what it had |
| Mutators.AddScores | src/command/zset_cmd.cpp:628-661 | ZADD's loop over its inputs, with its two counters |
| Mutators.ZAddKeepsPromises | src/command/zset_cmd.cpp:628-661 | NX leaves members alone, XX adds none, GT never lowers, LT never raises, and counts of 0 mean no change |
| Mutators.ParseZAddOptions | src/command/zset_cmd.cpp:374-415 | Option words are read up to the first other word, and a repeated one is refused |
| Mutators.ExpireWaits | src/cache/hash_slot.cpp:276-316 | EXPIRE leaves the object alive and expires it exactly when its time has passed |
| Replay.ReplayIsExact | src/repl/slave_replicator.cpp:67-87 | Whatever a primary commits, its record takes every replica from the same map to the same next map, deadlines included, whatever the replica's clock and random choices |
| Replay.ReplayIsExactIffTimed | src/repl/slave_replicator.cpp:80-85 | Replay is exact for all writes at a given time exactly when that time is not 0 |
| Replay.UntimedSetDiverges | src/repl/slave_replicator.cpp:80-81 | At time 0, SET with EX gets another deadline on the replica |
| Replay.PopReplays | src/command/set_cmd.cpp:325-344 | The SREM that SPOP logs erases exactly the popped members on every replica |
| Replay.ChangeStaysOnKey | src/cache/hash_slot.cpp:126-178 | A write changes no key but its own |
| ScoreText.ScoreRoundTrip | src/repl/snapshot_codec.cpp:36-50 | A score comes back from its text exactly when no printed exponent loses a zero and the reader takes the printed number |
| ScoreText.LargeScoreLosesItsZero | src/repl/snapshot_codec.cpp:41-48 | The score printed as 1.5e+20 comes back as 150 |
| SnapshotCodec.EncodeSnapshotPayload | src/repl/snapshot_codec.cpp:62-124 | The encoder writes the layout of the map, and the element count announced first is the number written |
| SnapshotCodec.DecodeSnapshotPayload | src/repl/snapshot_codec.cpp:126-220 | The decoder's guards and nested loops compute the recursive decoding |
| SnapshotCodec.SnapshotRoundTrip | src/repl/snapshot_codec.cpp:62-220 | Decoding an encoded slot gives the same map exactly when it has at most a million elements and only scores that survive their text; the size guard never gets in the way |
| SnapshotCodec.RefusedScoreLosesTheImage | src/repl/snapshot_codec.cpp:197-206 | One score that the reader refuses makes the whole image undecodable |
| ImageLaws.ImageIsItsBlocks | src/repl/snapshot_codec.cpp:126-220 | A word list is only taken for an image if it is the magic word, a count and exactly that many well-formed objects and nothing else; each key then holds what its last object says |
| ImageLaws.BlocksAreAnImage | src/repl/snapshot_codec.cpp:126-220 | Every list of that form is taken |
| ImageLaws.ValueIsRead | src/repl/snapshot_codec.cpp:178-209 | A value is read exactly if its kind takes its words, and is what they say, the last pair of a name counting |
| SnapshotCodec.WireIsInjective | src/repl/snapshot_codec.cpp:62-124 | Different lists of words have different wire texts, so a reader that inverts the writer can exist |
| FrameCodec.EncodePositions | src/repl/repl_frame.cpp:86-127 | The position loop writes the count and the pairs |
| FrameCodec.DecodePositions | src/repl/repl_frame.cpp:19-33 | The position loop reads pairs that fill the argument list exactly |
| FrameCodec.FrameRoundTrip | src/repl/repl_frame.cpp:86-170 | A frame comes back from its arguments exactly when HELLO speaks version 2 and BEGIN names a session |
| FrameCodec.DecodedFrameWasEncoded | src/repl/repl_frame.cpp:129-170 | An argument list is only taken for a frame if it is the frame's own list, up to the way its numbers are written |
| Master.BuildUpTo | src/repl/master_replicator.cpp:98-150 | A batch has at most max_frames frames, and at most 16 MiB of payload unless it is a single frame |
| Master.MinAck | src/repl/master_replicator.cpp:187-190 | The lowest acknowledged number: below all of them and one of them |
| MasterReplicator.MasterReplicator.FindReplica | src/repl/master_replicator.cpp:25-33 | The first session with the replica's name |
| MasterReplicator.MasterReplicator.HasBacklog | src/repl/master_replicator.cpp:65-81 | The branches on an empty and a non-empty log, over three looks with writers in between, for slots that exist |
| MasterReplicator.MasterReplicator.OnHello | src/repl/master_replicator.cpp:35-63 | One session is found or created, renamed if it starts over, and its positions are taken in order, each from its own looks at the slot; nothing else moves |
| Greetings.HelloSettlesSlots | src/repl/master_replicator.cpp:47-61 | Session, progress and image flag after a HELLO, for every slot, named or not, as its last position says |
| Greetings.RestHelloFlags | src/repl/master_replicator.cpp:51-61 | At rest a greeted slot is flagged exactly if its number was never published or a record behind it is gone |
| Greetings.NewReplicaStartsOver | src/repl/master_replicator.cpp:40-46 | A replica not seen before starts a new session at slot 0 with nothing sent and nothing flagged |
| MasterReplicator.MasterReplicator.VisitSlot | src/repl/master_replicator.cpp:109-151 | One slot of a batch while writers go on: snapshot, logs or nothing, the cursor, and the announced number, from five looks in order; how much goes out is `Visits.VisitSendsAllThatFits` |
| Visits.VisitSendsAllThatFits | src/repl/master_replicator.cpp:109-151 | With room, an unflagged slot whose next records are there sends them in order from the first, up to 128, up to the announced number, and until frames or bytes run out, writers included; the cursor moves only as that says |
| QuietPolls.RestVisitSendsAllThatFits | src/repl/master_replicator.cpp:109-151 | At rest the same of every pending record, and DONE is told the slot's last number |
| QuietPolls.RestVisitSendsImage | src/repl/master_replicator.cpp:113-124 | A flagged slot, or one whose next record is gone, sends its image, unless that does not fit behind other frames |
| Greetings.VisitAnnouncesNumber | src/repl/master_replicator.cpp:109-151 | A slot is announced exactly if it is not flagged after its visit, with the number of the image that was sent, else with the number published as the visit began |
| MasterReplicator.MasterReplicator.BuildFrames | src/repl/master_replicator.cpp:92-154 | The rotating loop builds the batch of the specification from what it saw of each slot, and only this session's progress and cursor change |
| MasterReplicator.MasterReplicator.Poll | src/repl/master_replicator.cpp:156-168 | The answer is BEGIN, the batch and DONE, from looks at the slots in order between the writes that clients make meanwhile, a slot being greeted before it is served; a foreign version, a missing name or another frame gets nothing and changes nothing |
| Greetings.AnswerIsFramed | src/repl/master_replicator.cpp:156-168 | The answer opens with BEGIN of the greeted session, saying whether it is new, and closes with its DONE |
| QuietPolls.QuietPollServesSlot | src/repl/master_replicator.cpp:92-168 | After a poll without writers, delivered whole, that leaves its cursor where it was, every slot is Online with exactly the primary's map, unless 128 records, the frame limit or 16 MiB cut its records off |
| QuietPolls.OnePollIsEnough | src/repl/master_replicator.cpp:92-168 | If no slot waits for an image or misses more than 128 records, all retained, and together they fit one batch, one such poll turns every slot Online with exactly the primary's map |
| MasterReplicator.MasterReplicator.CollectGarbage | src/repl/master_replicator.cpp:182-195 | Every slot's log, as writers have left it by then, is trimmed through the lowest acknowledged number; what that takes and leaves is `Collection.MaintainTakesExactly` |
| MasterReplicator.MasterReplicator.EnforceBudget | src/repl/master_replicator.cpp:197-222 | The eviction loop with its running total, with writers between sum, maximum and trim, does what the specification does to sessions and slots given what it saw |
| MasterReplicator.MasterReplicator.Maintain | src/repl/master_replicator.cpp:170-174 | Collection, then eviction, with writers in between everywhere |
| Collection.MaintenanceTakesExactly | src/repl/master_replicator.cpp:170-222 | Exactly which records are gone after maintenance: those that every session acknowledged, and those of evicted slots up to the number read |
| Collection.MaintainTakesExactly | src/repl/master_replicator.cpp:170-222 | The same of the object, with clients at work |
| Collection.WhatIsLeftIsNeeded | src/repl/master_replicator.cpp:182-195 | Of what collection found in a log only records remain that one and the same session, the slowest, has not acknowledged |
| Calls.PollRefines | src/repl/master_replicator.cpp:156-168 | Every poll of the object, over all slots and with clients at work, is a poll of the model: it runs unless the HELLO is refused, gives the same frames and reaches the same state |
| Calls.MaintainRefines | src/repl/master_replicator.cpp:170-222 | Every maintenance of the object, with clients at work, is one of the model and reaches the same state |
| Moments.ViewIsSeen | src/repl/master_replicator.cpp:57-81 | Whatever clients write, five looks in order are looks at prefixes of the one history that those writes make |
| Moments.PolledSlotIsSeen | src/repl/master_replicator.cpp:156-168 | A slot that is greeted and then served is seen twice in one history, the greeting first |
| Moments.UpkeepIsSeen | src/repl/master_replicator.cpp:182-222 | What the object's maintenance sees of a slot is what the runs of the primary allow, and the slot ends as its history less what maintenance takes |
| Moments.RestIsAtRest | src/repl/master_replicator.cpp:57-81 | When nobody writes, all looks of a poll are the slot as it stays |
| Moments.UpkeepAtRest | src/repl/master_replicator.cpp:182-222 | When nobody writes, maintenance takes exactly the records that every session acknowledged, all of them if the slot is evicted, and nothing else |
| Clients.Perform | src/cache/hash_slot.cpp:126-274 | A command or a sweep moves the slot by exactly the change that the value model gives it, which `WriteLaws` tells command by command |
| WriteLaws.NamesIgnoreCase | src/common/parse_utils.cpp:35-44 | Words are compared letter by letter in upper case |
| WriteLaws.UnknownIsRefused | src/command/command_dispatcher.cpp:145-153 | Any other word than the twenty write commands' is refused as a write and changes nothing |
| WriteLaws.DelErases | src/command/key_cmd.cpp:99-117 | DEL erases a living key and is logged; any other stays as it is |
| WriteLaws.ExpireSetsDeadline | src/command/key_cmd.cpp:119-150 | EXPIRE stores the value with its new deadline, erases it if the time is not positive, and touches no missing or expired key |
| WriteLaws.SetStores | src/command/string_cmd.cpp:307-361 | SET stores its word exactly if NX and XX let it, with the given deadline, the old one under KEEPTTL, or none; it refuses exactly malformed options and, under GET, another type |
| WriteLaws.SetReadsOptions | src/command/string_cmd.cpp:183-237 | The option words are taken exactly if each stands where it may and none clash, and mean what they spell |
| WriteLaws.GivenDeadlineIsSet | src/command/string_cmd.cpp:183-237 | Accepted options give a deadline, and one that is not 0, exactly if an expiry option is among them |
| WriteLaws.SetNxStoresOnce | src/command/string_cmd.cpp:416-432 | SETNX stores only under a key that is not alive |
| WriteLaws.GetSetReplaces | src/command/string_cmd.cpp:442-470 | GETSET replaces text and drops the deadline; another type refuses |
| WriteLaws.AppendExtends | src/command/string_cmd.cpp:502-536 | APPEND stores the old text with the word behind it and keeps the deadline |
| WriteLaws.CountersAdd | src/command/string_cmd.cpp:239-295 | INCR, DECR, INCRBY and DECRBY store the sum or difference as text and keep the deadline; they refuse what is no number or leaves 64 bits |
| WriteLaws.HashSetStoresPairs | src/command/hash_cmd.cpp:117-149 | Each named field has the value of its last pair, the others and the deadline stay |
| WriteLaws.HashDelErasesFields | src/command/hash_cmd.cpp:180-227 | Exactly the named fields go, and the key with its last one |
| WriteLaws.HashIncrAdds | src/command/hash_cmd.cpp:439-498 | HINCRBY adds to one field, a missing one counting as 0, and keeps the others and the deadline |
| WriteLaws.SetAddAdds | src/command/set_cmd.cpp:102-146 | SADD adds its words and keeps the deadline; if it adds none nothing changes |
| WriteLaws.SetRemRemoves | src/command/set_cmd.cpp:174-224 | SREM removes its words, and the key with the last member |
| WriteLaws.PopRemovesPicked | src/command/set_cmd.cpp:293-368 | SPOP removes what the random choice picks and is logged as that SREM |
| WriteLaws.SortedSetAddSettles | src/command/zset_cmd.cpp:590-675 | After ZADD every member has the score that the options choose among the one it had and those it is given; nothing is stored if no input changes anything |
| WriteLaws.SortedSetAddIncrements | src/command/zset_cmd.cpp:439-513 | ZADD INCR adds to one score if the options let it |
| WriteLaws.SortedSetRemRemoves | src/command/zset_cmd.cpp:714-761 | ZREM removes the named members, and the key with the last one |
| WriteLaws.SortedSetIncrAdds | src/command/zset_cmd.cpp:855-864 | ZINCRBY adds to one score, a missing one counting as 0; a sum that changes nothing is not stored |
| Clients.Clients.Run | src/cache/hash_slot.cpp:126-274 | A batch of writes moves every slot by commands and sweeps only |
| SlaveReplicator.SlaveReplicator.constructor | src/repl/slave_replicator.cpp:13-16 | A replica starts Offline everywhere and its slots stop logging |
| SlaveReplicator.ApplyRecord | src/repl/slave_replicator.cpp:67-87 | The slot moves as the record says, or stays as it is when the record is refused |
| SlaveReplicator.SlaveReplicator.ApplyLog | src/repl/slave_replicator.cpp:50-65 | In-order apply with its five outcomes, told by input and output in `Refusals.LogIsTakenInOrder`; no other slot moves |
| SlaveReplicator.SlaveReplicator.ApplySnapshot | src/repl/slave_replicator.cpp:89-107 | A decodable image whose keys all belong here is installed, any other leaves the slot Offline and waiting |
| SlaveReplicator.SlaveReplicator.EnqueueFrame | src/repl/slave_replicator.cpp:18-48 | The state machine over frames: which are accepted and the whole next state; `Refusals` says what each frame leaves behind |
| Refusals.ForeignFrameIsRefused | src/repl/slave_replicator.cpp:18-48 | Frames of another session, HELLO and unknown slots are refused and change nothing |
| Refusals.BeginOpensSession | src/repl/slave_replicator.cpp:23-33 | BEGIN opens its session; with reset every slot is empty, Offline and waits for nothing |
| Refusals.LogIsTakenInOrder | src/repl/slave_replicator.cpp:50-65 | A record behind a gap, or that does not replay, is refused and leaves the engine as it is, the slot Offline and waiting; a waiting slot refuses; an old record is accepted and changes nothing; the next one is applied |
| Refusals.RecordIsRefused | src/repl/slave_replicator.cpp:67-87 | A record does not replay exactly if it is malformed, of another slot, no write, a DEL of several keys, or its command fails |
| Refusals.ImageIsInstalledOrRefused | src/repl/slave_replicator.cpp:89-107 | An image is installed exactly if it decodes to keys of its slot; otherwise the slot is Offline and waiting |
| Refusals.DoneMarksNamed | src/repl/slave_replicator.cpp:34-43 | DONE makes a slot that it names readable exactly if the slot does not wait and has reached its last number there, and touches no other |
| Refusals.DoneIsTaken | src/repl/slave_replicator.cpp:34-43 | DONE of the session is accepted exactly if every slot that it names exists |
| Refusals.WaitsUntilFreed | src/repl/slave_replicator.cpp:18-107 | Whatever frames come, a waiting slot stays as it is, unreadable and refusing records, until an image is installed in it or a BEGIN resets it |
| SlaveReplicator.SlaveReplicator.Positions | src/repl/slave_replicator.cpp:130-140 | Applied numbers in slot order, and the largest number for slots that wait for a snapshot |
| History.HasBacklogIsExactUnlessRaced | src/repl/master_replicator.cpp:65-81 | HasBacklog is right exactly unless a writer slipped in between its looks at an empty log |
| History.HasBacklogIsExactAtRest | src/repl/master_replicator.cpp:65-81 | On a slot at rest it holds exactly when every published record from the number on is retained |
| History.RacedBacklogMissesAGap | src/repl/master_replicator.cpp:65-81 | The race: a lost record counts as retained |
| History.ValidCanBeMet | src/repl/snapshot_codec.cpp:62-220 | The assumptions on the reader, the visiting order and SPOP's choice can be met for every hash function, scoring and printing |
| Agreement.LogKeepsAgreement | src/repl/slave_replicator.cpp:50-87 | A true record keeps a slot in agreement and never moves it back; the next one is accepted |
| Agreement.SnapshotKeepsAgreement | src/repl/slave_replicator.cpp:89-107 | A true image installs exactly the primary's map after its base number |
| Agreement.TrueFrameKeepsAgreement | src/repl/slave_replicator.cpp:18-48 | Every true frame of the session's primary, in whatever order, keeps all slots in agreement |
| Primary.WriteKeepsPrimary | src/cache/hash_slot.cpp:126-213 | A write extends one history by exactly its record and map |
| Primary.TrimKeepsSlot | src/cache/binlog.cpp:50-62 | Trimming keeps the rest of the log right and drops exactly the records up to the number |
| Primary.MaintenanceKeepsPrimary | src/repl/master_replicator.cpp:170-222 | Maintenance with writers inside extends the histories by their writes, trims logs and keeps every session's name and cursor |
| Primary.RestCallRuns | src/repl/master_replicator.cpp:170-222 | Maintenance without writers is one of the modelled runs of maintenance |
| Primary.PollIsTrue | src/repl/master_replicator.cpp:156-168 | Whatever writers do meanwhile, a poll sends only frames of its session that are true of the primary's history |
| Primary.EventKeepsPrimary | src/repl/master_replicator.cpp:156-222 | Every write, maintenance, poll and change of budget keeps the histories sound and sends only true frames of names that this primary issued |
| World.SessionNamesAreUnique | src/repl/master_replicator.cpp:18-23 | Epoch, replica and counter can be read off a session name |
| World.StepKeepsInv | src/repl/slave_replicator.cpp:18-107 | Every event of the world keeps agreement, with writers inside polls and maintenance |
| World.RunKeepsAgreement | src/repl/slave_replicator.cpp:18-107 | In every run each replica slot holds exactly its session primary's map after write number `applied`, and the engine carries that number |
| Delivery.PollIsAccepted | src/repl/replication_link.cpp:96-107 | Every frame of the answer to the replica's own HELLO is accepted, none moves a slot back, and at the end `sent` is `applied` |
| Delivery.TurningOnlineNeedsDone | src/repl/slave_replicator.cpp:34-43 | Only DONE turns a slot Online, and only one that reached the announced number |
| Delivery.TargetsAreCurrent | src/repl/master_replicator.cpp:109-151 | No announced number lies below what the slot had published when the poll began |
| Delivery.NoGapBelowTarget | src/repl/master_replicator.cpp:127-132 | Copied records up to the announced number follow `sent` without a gap, whatever writers do |
| Delivery.BatchStaysBelowTarget | src/repl/master_replicator.cpp:127-143 | No log record above the number read for its slot is ever sent |
| Delivery.OnlineIsCurrent | src/repl/slave_replicator.cpp:34-43 | At whatever frame a slot turns Online, its map includes every write published before the poll began |
| Link.PullIsSmooth | src/repl/replication_link.cpp:96-107 | Every pull of a reachable state is accepted whole, and what it turns Online is current |
| Link.LinkRunKeepsInv | src/repl/replication_link.cpp:96-107 | Over links, cut anywhere, while others poll and late HELLOs arrive, agreement holds in every run and no slot ever waits for a snapshot that was not offered |
| Link.PullNeverMovesBack | src/repl/slave_replicator.cpp:50-107 | A pull that does not change the session moves no slot back |
| Convergence.QuietPollRuns | src/repl/master_replicator.cpp:156-168 | A poll without writers is one of the polls of the model |
| Convergence.QuietPollCatchesUp | src/repl/master_replicator.cpp:92-168 | Each data frame of a quiet poll lowers what the replica misses, there is one while anything is missing, and otherwise every slot turns Online |
| Convergence.RoundCatchesUp | src/repl/master_replicator.cpp:156-174 | A round of maintenance and poll brings the replica closer, or every slot is Online with the primary's map |
| Convergence.RoundsConverge | src/repl/master_replicator.cpp:92-174 | After more fully delivered polls than the replica was behind, every slot is Online with exactly the primary's map |
| Convergence.QuietRoundExists | src/repl/master_replicator.cpp:156-168 | A quiet round is possible whenever the replica fits its session |
| Link.ReachedStateCatchesUp | src/repl/master_replicator.cpp:92-174 | From every state that any run reaches, and whichever primary is polled, one more quiet round than the replica is behind can follow, and then every slot is Online with exactly that primary's map |
| Visits.VisitTakesTurn | src/repl/master_replicator.cpp:109-150 | At a visit with room the batch ends before the slot and the cursor stays on it, or the slot has its turn: if it is flagged or behind, its image or its next record is sent, exactly unless a writer hides that the record is gone, and then nothing moves |
| Visits.DueSlotIsRetainedUnlessRaced | src/repl/master_replicator.cpp:65-81 | For a slot that is behind, the test of the log is wrong about its next record exactly when an empty log filled up between its two looks |
| Visits.NamedSlotIsNotPassedOver | src/repl/master_replicator.cpp:51-143 | A slot that the HELLO of the same poll names is never passed over |
| Visits.OwnHelloNamesAll | src/repl/slave_replicator.cpp:130-140 | A replica's own HELLO names every slot that it has |
| Rotation.BatchRotates | src/repl/master_replicator.cpp:92-154 | The slots from the cursor on have their turn, at least one, and a batch that ends early leaves the cursor right behind the last of them |
| Rotation.PollRotates | src/repl/master_replicator.cpp:92-168 | A poll gives the slots from the cursor on their turn, as the HELLO left them, and leaves the cursor on the first that had none |
| Rotation.GreetedSlotIsNotPassedOver | src/repl/master_replicator.cpp:51-143 | In every poll, with writers inside, no slot that its HELLO names is passed over |
| Rotation.EveryTurnComes | src/repl/master_replicator.cpp:92-154 | In every run of a primary that contains n polls of a replica over n slots, whatever its HELLOs name and whatever else happens, every slot has its turn in one of them |
| Rotation.NoSlotStarves | src/repl/master_replicator.cpp:92-154 | If the HELLOs name the slot, one of those polls serves it: if it is flagged or behind, the answer holds its image or its next record |
| Rotation.OnlyOwnPollsMoveCursor | src/repl/master_replicator.cpp:35-63 | No write, maintenance, refused HELLO or poll of another replica moves a replica's cursor; its own poll leaves it where the batch ended |
| Retention.HelloKeepsUnlessRaced | src/repl/master_replicator.cpp:51-61 | HELLO leaves an unflagged slot's next records retained exactly unless the race hides a gap |
| Retention.VisitKeeps | src/repl/master_replicator.cpp:111-143 | Building a batch keeps acked <= sent <= published; afterwards the records after `sent` of an unflagged slot are retained exactly if they were before or the slot's image was sent |
| Budget.SlotBalances | src/repl/master_replicator.cpp:205-213 | What is left of a slot and what its eviction freed is what was counted of it and what was appended since |
| Budget.LoopMeetsBudget | src/repl/master_replicator.cpp:205-221 | The loop stops at the first slot at which what was counted less what was freed is within the budget, and always gets there |
| Budget.BudgetIsMetUnlessAppended | src/repl/master_replicator.cpp:197-222 | After maintenance the retained bytes exceed the budget by no more than what was appended to counted slots |
| Budget.BudgetIsMetIffNothingAppended | src/repl/master_replicator.cpp:197-222 | The budget is met, whatever it is, exactly when no writer appends to a slot after its bytes were counted |
| Budget.EvictionFlagsWhoeverNeedsIt | src/repl/master_replicator.cpp:214-219 | Every replica that had not acknowledged what eviction dropped is flagged for a snapshot, and no other progress changes |
| Budget.BudgetIsMet | src/repl/master_replicator.cpp:197-222 | Without writers the retained bytes are within the budget, the logs that went are those of the fewest first slots that made room, and the others were only collected |
| BudgetRace.WriterDefeatsBudget | src/repl/master_replicator.cpp:201-213 | The race, reached from an empty primary by two writes: one more write during eviction leaves 149 bytes over a budget of 148 |
| BacklogRace.WriterHidesGap | src/repl/master_replicator.cpp:65-143 | The race, reached from an empty primary by a write and an eviction: a first poll whose HELLO names no slot, with one write between two looks at the log, answers with BEGIN and DONE only, although the slot's first record is gone and its image was never sent |
| BacklogRace.UnnamedSlotStarves | src/repl/master_replicator.cpp:92-154 | So as many polls as there are slots need not serve a slot that no HELLO names |
| Retention.MaintenanceKeepsRetention | src/repl/master_replicator.cpp:170-222 | Collection and eviction, with writers inside, keep the records that unflagged sessions rely on |
| Retention.PolledSlotIsKept | src/repl/master_replicator.cpp:35-168 | A poll leaves what its session relies on in a slot retained exactly if the answer holds the slot's image, or the HELLO did not hurt the slot: a named slot is hurt exactly by the race, an unnamed one exactly if it lacked a record before |
| Retention.PollKeepsRetention | src/repl/master_replicator.cpp:156-168 | A poll keeps what the sessions of other replicas rely on, raced or not, and what its own session relies on exactly if every slot that its HELLO hurt gets its image |
| Retention.RunKeepsRetention | src/repl/master_replicator.cpp:35-222 | What a replica's session relies on is kept at every point of a run, with writers inside polls and maintenance, exactly if every poll of its own is clean in that sense |
| Retention.NewPrimaryKeepsRetention | src/repl/master_replicator.cpp:35-222 | So in every run of a new primary |
| Sweeper.ExpireSweeper.DeleteExpired | src/cache/hash_slot.cpp:216-274 | Up to maxKeys expired keys are picked from a copy of the map, and each is looked at again before it goes, with writers in between; what went is counted |
| Sweeper.RemovalSparesTheLive | src/cache/hash_slot.cpp:241-252 | A removal touches no live object, whoever wrote it since the copy, and leaves no expired object under its key |
| Sweeper.SweepMissesNothing | src/cache/hash_slot.cpp:216-274 | A sweep under its quota gets rid of every object that it found expired, or finds that somebody renewed it |
| Sweeper.ExpireSweeper.SweepOnce | src/expire/expire_sweeper.cpp:14-28 | The next slots in turn are swept up to their quota, every slot is changed only by sweeps and by what others write, and the removals are counted |
| Sweeper.TickAtRest | src/expire/expire_sweeper.cpp:14-28 | Without others no live object is touched in any slot, and each slot of the tick loses its expired objects or a full quota of them |
| Sweeper.ExpireSweeper.RunTicks | src/main.cpp:70-77 | Ticks in a row, each going on at the slot where the last one stopped, with writers in between |
| Sweeper.EverySlotIsSwept | src/expire/expire_sweeper.cpp:14-28 | In every run of ticks that cover as many slots as there are, every slot is swept in some tick |
| Glob.MatchClass | src/common/glob_match.cpp:30-88 | The class loop finds the members and the end that the class grammar gives, or that the class is not closed |
| Glob.MatchOne | src/common/glob_match.cpp:90-121 | Whether the token takes the character, and where the next token starts |
| Glob.StarStep | src/common/glob_match.cpp:131-137 | A star matches any string |
| Glob.MatchAt | src/common/glob_match.cpp:123-162 | True exactly when the tokenised pattern matches under the recursive meaning, in at most (length + 1) * (pattern length + 1) rounds |
| Glob.EscapedMatchesItself | src/common/glob_match.cpp:108-121 | An escaped string matches itself and nothing else |
| GlobLaws.QuestionMarkTakesAny | src/common/glob_match.cpp:97-100 | A question mark takes every character, and only one |
| GlobLaws.StarTakesAnyNumber | src/common/glob_match.cpp:131-137 | A star takes any number of characters |
| GlobLaws.CharacterTakesItself | src/common/glob_match.cpp:117-121 | An ordinary character takes itself only |
| GlobLaws.BackslashTakesNext | src/common/glob_match.cpp:108-116 | Behind a backslash every character takes itself; at the end a backslash takes a backslash |
| GlobLaws.ClassTakesMembers | src/common/glob_match.cpp:30-88 | A class takes exactly what one of its characters, escaped characters or ranges holds, a range being what lies between its ends in either order; with a caret, exactly what none holds |
| GlobLaws.BracketsInClasses | src/common/glob_match.cpp:30-88 | A bracket right behind the opening one is a member; one behind a dash ends its range and the class |
| GlobLaws.OpenClassMatchesNothing | src/common/glob_match.cpp:30-88 | A class that is not closed matches nothing |
| Scan.ParseOptions | src/command/scan_cmd.cpp:62-100 | The option loop accepts and rejects what the recursive grammar does |
| Scan.ExecuteScan | src/command/scan_cmd.cpp:134-168 | Whole slots are visited until enough live keys were seen; an unreadable slot on the way refuses the call |
| Scan.CallReturnsOnce | src/command/scan_cmd.cpp:134-168 | A call returns a key once if it passes the key's slot and finds it wanted, and never otherwise |
| Scan.FullIteration | src/command/scan_cmd.cpp:134-168 | Following cursors from 0 to 0 takes at most one call per slot, returns a key that stays live and matching exactly once, and one that never does never |
| Scan.IterationEnds | src/command/scan_cmd.cpp:134-168 | Enough calls always complete an iteration, whatever their COUNTs |
| ReadLaws.CallReturnsWhatIsAskedFor | src/command/scan_cmd.cpp:102-152 | A call returns, once, exactly the keys of its slots that are alive, of the type asked for and match the pattern |
| ReadLaws.CallStopsAtCount | src/command/scan_cmd.cpp:138-158 | It stops behind the first slot at which it has come to COUNT living keys, or behind the last |
| ReadLaws.ScanReadsWords | src/command/scan_cmd.cpp:62-100 | Cursor and options are taken exactly if they are in order, the last of each kind counts, and COUNT is 1000 unless given |
| ReadLaws.ScanIsAnswered | src/command/scan_cmd.cpp:134-168 | SCAN on a replica, from its words to its answer |
| ReadGate.ExecuteReadOnly | src/command/command_dispatcher.cpp:117-136 | The dispatch on a replica with its refusals in order |
| ReadGate.GatedScanIsScan | src/command/scan_cmd.cpp:134-168 | A gated SCAN is the SCAN call, refused exactly when it would visit an unreadable slot |
| ReadGate.ReadsShowOnlyReadableSlots | src/command/command_dispatcher.cpp:117-136 | Two engines that agree on every readable slot give the same answer to every command |
| ReadGate.GateOnlyRefuses | src/command/command_dispatcher.cpp:117-136 | An answer that the gate lets through is the answer without the gate |
| ReadGate.ReplicaAnswersFromHistory | src/repl/slave_replicator.cpp:109-119 | A replica refuses, or answers exactly as the primary itself, ungated, with every slot taken right after some write of its own |
| ReadLaws.OneKeyReadSeesObject | src/command/command_dispatcher.cpp:117-136 | A read of one key receives the living object in that key's slot, or is told to try again if the slot is not readable |
| ReadLaws.ManyKeyReadSeesObjects | src/command/command_dispatcher.cpp:117-136 | MGET and EXISTS receive the living object of each key in order, if all the slots are readable |
| ReadLaws.OthersAreRefused | src/command/command_dispatcher.cpp:117-128 | Everything else is refused, as empty, a write, unknown or with the wrong number of words |
| Order.LessIsTotal | src/command/zset_cmd.cpp:163-181 | Two different strings are ordered one way |
| Order.LessIsTransitive | src/command/zset_cmd.cpp:163-181 | Binary order is transitive |
| SortedSets.EntriesByScore | src/command/zset_cmd.cpp:249-259 | All members, by score and then by binary order |
| SortedSets.SortedListingIsUnique | src/command/zset_cmd.cpp:236-259 | There is one such listing, however the container is visited |
| SortedSets.Rank | src/command/zset_cmd.cpp:559-578 | The number of members before it, or behind it: ZREVRANK is the cardinality minus 1 minus ZRANK |
| SortedSets.ApplyRankRange | src/command/zset_cmd.cpp:307-334 | The existing positions between the two, negative ones counted from the end |
| SortedSets.ApplyLimit | src/command/zset_cmd.cpp:336-353 | At most count entries from offset on |
| SortedSets.RangeInvertsRank | src/command/zset_cmd.cpp:559-578 | The range of one position is a member exactly when the position is its rank |
| SortedSets.NegativeIndicesAreASlice | src/command/zset_cmd.cpp:307-334 | For all two indices the range is the stretch of exactly the positions between them, negative ones counted from the end |
| SortedSets.ReverseRangeMirrors | src/command/zset_cmd.cpp:261-265 | A reversed range is the mirrored range, reversed |
| SortedSets.ScoreRangeIsAStretch | src/command/zset_cmd.cpp:281-292 | A score range is one stretch of the sorted listing, between what lies below and what lies above |
| SortedSets.LexRangeIsAStretch | src/command/zset_cmd.cpp:294-305 | So is a range of members in binary order |
| SortedSets.Count | src/command/zset_cmd.cpp:821-845 | ZCOUNT is the number of members whose score lies in the range |
| SortedSets.CountIsRangeLength | src/command/zset_cmd.cpp:821-845 | ZCOUNT is the length of ZRANGE BYSCORE with the same bounds |
| SortedSets.ParseRangeOptions | src/command/zset_cmd.cpp:515-557 | Each option at most once, one mode, LIMIT only with a mode |
| SortedSets.Range | src/command/zset_cmd.cpp:920-941 | ZRANGE returns what the set alone determines, in all three modes, reversed and limited |
| SortedSets.ZRange | src/command/zset_cmd.cpp:874-941 | Bad options and bounds are refused before the key is looked at, a missing key has no entries, another type is refused |
| RangeLaws.LessIsInFront | src/command/zset_cmd.cpp:163-181 | Binary order: the first differing character decides, and a string stands before its extensions |
| RangeLaws.ListingsAreListings | src/command/zset_cmd.cpp:236-259 | The listings are by score with equal scores in binary order, and by binary order |
| RangeLaws.ScoreBoundIsWord | src/command/zset_cmd.cpp:121-161 | What each score bound admits: its end unless it starts with a parenthesis, and the infinities in their spellings |
| RangeLaws.LexBoundIsWord | src/command/zset_cmd.cpp:183-226 | What each member bound admits: its end behind a bracket but not behind a parenthesis, everything or nothing for minus and plus |
| RangeLaws.BoundsAreTaken | src/command/zset_cmd.cpp:888-912 | The two range words are refused exactly if they are not numbers, score bounds or member bounds, as the mode asks |
| RangeLaws.RangeIsBetween | src/command/zset_cmd.cpp:874-941 | ZRANGE BYSCORE and BYLEX return the entries between the bounds as written, the upper one first under REV, in order, and of these what LIMIT cuts out |
| RangeLaws.RankRangeIsAStretch | src/command/zset_cmd.cpp:888-927 | ZRANGE by rank returns the stretch of the positions between its numbers, from the other end under REV |
| RangeLaws.AheadComesFirst | src/command/zset_cmd.cpp:559-578 | ZRANK counts lower scores and, among equal ones, what stands before in binary order |
| RangeLaws.CountIsBetween | src/command/zset_cmd.cpp:821-845 | ZCOUNT counts the members whose score lies between its words |
| RangeLaws.RangeReadsWords | src/command/zset_cmd.cpp:515-557 | The option words are taken exactly if each stands where it may, none clash, and LIMIT comes with a mode; they mean what they spell |

## Left out

- Sockets, coroutines, threads, accept and worker loops, time-outs and the 256 MiB limit of the link's reader: of the link only the order of frames is modelled.
- The RESP byte parser and the immutable containers are libraries that are not part of this model.
- Floating-point printing, parsing and rounding: scores are real numbers, printed forms are a parameter, and addition is a deterministic function.
- Hashing of keys: the slot function and the number of slots are parameters.
- Error texts and the values that successful commands reply, apart from counts, ranks, ranges and SCAN.
- Commands.Run: DEL removes its first key only; every further key of a DEL is a write of its own to another slot.
- MasterReplicator.MasterReplicator.Poll: the replicator's mutex is not modelled, each call is one step; the writes of clients fall between any two moments at which it takes a slot's lock.
- SlaveReplicator.SlaveReplicator.EnqueueFrame: the replica's mutex is not modelled, each call is one step.
- Sweeper.ExpireSweeper.RunTicks: the maintenance that the same thread runs after every hundredth tick is not part of it; it changes logs only, and is `MasterReplicator.MasterReplicator.Maintain`.
- ReadGate.ReadsShowOnlyReadableSlots: what each single-key read command computes from its object is a parameter; which keys it looks up is not.
- SortedSets.EntriesByScore: the library sort is an insertion sort here; the result is the same because the sorted listing is unique.
- Raw writes that bypass the commands (`HashSlot::Set`), and read-only getters.
