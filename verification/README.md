# Ultima: verified models

Ultima is a sharded, Redis-compatible server. Every shard is one goroutine that drains a
FIFO of tasks; connections send it closures, transactions park all shards, and the
append-only file and the snapshot rebuild the keyspace after a restart. This project models
the parts of it that are hard to get right and proves what they promise.

| file | what it models |
|---|---|
| `PauseProtocol.dfy` | `PauseAll`, `run` and `park` as a step system over queues, stashes and control messages |
| `Keyspace.dfy`, `Eviction.dfy`, `ShardObject.dfy` | one shard: table, tombstones, epochs, memory counters, expiry heap; the eviction pass after every task; the object and its loops |
| `Transactions.dfy`, `ExecPause.dfy`, `ExecEviction.dfy` | WATCH, MULTI, EXEC, DISCARD over any number of shards, EXEC as token tasks inside a pause, and what evictions in that pause do to its promise |
| `Decimal.dfy` | `ParseInt64`, `strconv` and decimal printing with 64-bit wrap-around |
| `Commands.dfy`, `HandlerLaws.dfy`, `CommandLaws.dfy`, `OptionLaws.dfy` | what the handlers do to a key, what each leaves and answers, what they undo and conserve, and what the option texts of SET and EXPIRE mean |
| `Burst.dfy` | pipelined bursts and multi-key fan-out against one-at-a-time execution |
| `AofCapture.dfy` | which commands are logged, and how they are rewritten |
| `Resp.dfy`, `RespReader.dfy` | the wire form of commands and the pipelined reader over a growing buffer |
| `AofLog.dfy`, `AofTail.dfy`, `AofMerge.dfy` | stamped records on disk, torn logs and what is appended to them, and the merge by sequence number |
| `AofRewrite.dfy`, `AofResume.dfy`, `LaterReplay.dfy`, `Recovery.dfy` | the rewrite of the log, logging after it, replay at a later clock, and the way from commands to bytes and back |
| `SnapshotFormat.dfy`, `Snapshot.dfy` | entry records, the latching decoder, the snapshot file |
| `RespValue.dfy`, `RespClient.dfy` | the reply printer of the server and the reply parser of the Go client |
| `WsSession.dfy`, `PushQueue.dfy`, `PushWake.dfy`, `Wake.dfy` | resumable sessions, the byte-capped ring and its blocking consumer, waking blocked clients |
| `SetEncoding.dfy`, `IntSet.dfy` | the two-encoding set as a value, what reloading its members gives, and the set object |
| `Glob.dfy` | the glob matcher |

Concurrency is modelled as transition systems whose runs interleave the steps freely. Objects
that the program updates in place are classes, and each loop of the program is a loop here,
proved against a function whose properties are proved as lemmas. The clock, the network, the
interleaving, the random draw of SPOP and the order in which tables and sets are walked are
inputs. Characters stand for bytes. The checksum is any function into 64 bits, compression any
pair of functions of which the second undoes the first, and floating-point print and parse any
pair of functions (a round trip is asked only for the numbers that occur).

## What is not as documented

Each of these is stated as a lemma, and beside it stands the exact condition under which the
code does meet the promise.

- `EXPIRE` and `EXPIREAT` saturate a deadline that does not fit; the logged `PEXPIREAT` wraps
  around instead, and replay then deletes the key (`AofCapture.ExpireCanLoseAKey`). The two
  agree exactly when the handler's guard does not fire or, for `EXPIRE` and a clock of 7
  modulo 8, when the seconds are in one residue class modulo 2^61 (`DeadlineAgrees`).
- `SET … PX` with a sum beyond 64 bits deletes the key at the origin, while the logged `PXAT`
  is refused at replay (`AofCapture.SetCanLeaveAKey`). `CaptureIsExact` gives the condition for
  both defects on the arguments, the clock and the key before the call.
- `ParseInt64` tests for overflow only after the multiplication wrapped: the text of 2^64 + r
  is read as r (`Decimal.WrappedFamily`; exactly which texts in `LongStringsWrap`), so a set of
  integers that holds 1 reports the text of 2^64 + 1 as a member (`IntSet.WrappedMember`;
  exactly which texts are safe in `SetEncoding.ExactIff`), and SREM of that text removes 1
  (`CommandLaws.SRemOfWrappedText`; exactly when SREM undoes SADD: `SRemUndoesSAddIff`).
- A set that has changed its encoding keeps such a text as it is, but a rewritten log and a
  snapshot give its members back to a fresh set one by one, which takes the text for r:
  `SADD s a 18446744073709551617` and `SREM s a` come back as the set of 1
  (`IntSet.ReloadLosesMember`). Listed in a given order, the members come back if and only if
  every such text comes after the change of encoding (`SetEncoding.ReloadIsExact`; when that
  is, in `StillIntegers`), and they come back in every order if and only if there is no such
  text (`EveryOrderIff`). The rewrite and snapshot theorems below are stated with the value
  that comes back and with this condition; a run whose SADD commands name none of these texts
  always comes back (`AofRewrite.ReachableIsRebuilt`).
- A collection command that creates its key caches the size of the empty collection, and the
  memory counter stays behind the value until the next touch (exactly then:
  `Keyspace.SizesStayCurrent`).
- A waiter that times out takes its signal with it, and a signal sent to a waiter that has
  timed out but not yet deregistered is wasted (`Wake.TimedOutWaiterLosesWakeUp`,
  `SignalToTimedOutIsLost`). `StepIsExact` and `RunIsExact` say exactly which steps and runs
  lose no wake-up; a run without timeouts loses none.
- A log cut exactly before a bulk string of its last record is reported as corruption, not
  tolerated as a torn tail (exactly then: `AofLog.CutLog`).
- A tolerated torn tail stays in the file when appending resumes. Whatever the cut, if any of
  the torn record was left the log does not read as the earlier records followed by the
  appended ones, unless the first appended record has the number of the torn one, which can be
  given out again after a restart, and quotes the beginning of its own encoding in an argument
  (`AofTail.TornTailSpoilsAppends`; `SelfQuotingRepairs` builds such a record for every log).
  As for the rest, a cut outside the content of an argument makes the log unreadable; a cut
  inside one that needs more bytes than were appended makes it load without an error and
  without the appended records (`TornTailOutcome`, `SilentLoss`); otherwise the appended bytes
  are read as part of the torn record.
- Inside a pause, too, every task is followed by an eviction pass. A shard that is still over
  its share of maxmemory can evict a watched key after its check came out clean; EXEC commits,
  and the queue does not find the key (`ExecEviction.CheckedKeyCanGo`, and with a concrete
  engine `LostAfterItsCheck`). The queue runs on exactly the state that was checked, whatever
  the passes do, if and only if no checked shard is over its share with a candidate that the
  policy may pick (`QueueStartIff`; for a given run `QueueStart`). In every run a commit still
  means that nothing disturbed a watched key before the checks, and that its entry is then the
  sampled one or has been evicted since (`CommitWithEviction`).
- A record with a deadline that passes before the restart deletes its key at replay, also if a
  later command of the run had taken the deadline away (`LaterReplay.PersistedKeyIsLost`). One
  record is replayed differently at a later clock if and only if it applies and its deadline
  has passed in between (`LaterKeyIff`), and a log in which none has is replayed as at the
  clock of the run (`LogRebuildsLater`).
- After a rewrite a set can be back in the other encoding, and then a text that wraps is added
  to it as another member than in the run (`AofResume.ReloadThenAddDiffers`; exactly which
  texts in `AddTellsApart`). Commands that name texts that mean themselves cannot tell
  (`SameExec`), and dump and log then rebuild the run (`DumpThenLog`).
- A client that resumes a session with a sequence number from the future is attached and sent
  pushes it claims to have, and only then is there a gap or a repeat
  (`WsSession.HonestyIsExact`, `NoGapNoRepeat`).

## Model

| member | source | states |
|---|---|---|
| PauseProtocol.NextKeepsInv | lib/shard/shard.go:699-785 | every step of a shard, of the pause holder or of a connection keeps the invariant that places each shard, its control messages and its stash in the course of the pause |
| PauseProtocol.ReachableInv | lib/shard/shard.go:305-358 | the invariant holds in every reachable state, for any number of shards, connections and repeated pauses |
| PauseProtocol.ControlsReadAsSent | lib/shard/shard.go:699-785 | an empty control message is always read as the park or unpark it was sent as, and a task with a token only meets a shard parked under that token |
| PauseProtocol.OwnedShardRunsOnlyTheHolder | lib/shard/shard.go:757-785 | from its park acknowledgement until its unpark message, a shard runs no task without the holder's token and starts no sweep |
| PauseProtocol.HeldIsExclusive | lib/shard/shard.go:305-323 | over whole runs under a pause, what each shard ran is tasks of the holder and nothing else |
| PauseProtocol.HoldIsAtomic | lib/shard/shard.go:305-358 | between two moments at which the holder waits for nothing, each shard runs exactly the tasks the holder submitted, in its order, and its data moves by those tasks and the eviction pass after each, alone |
| PauseProtocol.OrdinaryTasksRunInOrder | lib/shard/shard.go:699-785 | ordinary tasks run in submission order across stash and replay, none is lost or run twice, and an idle shard has run exactly what was submitted |
| PauseProtocol.ParkComesNearer | lib/shard/shard.go:305-323 | while PauseAll waits for a shard, that shard can step, each of its steps brings the acknowledgement nearer by a fixed measure, and no other event moves it away |
| PauseProtocol.ParkIsReached | lib/shard/shard.go:305-323 | in every run in which that shard takes more steps than its backlog, whatever everybody else does, its park is acknowledged |
| Keyspace.ApplyKeepsInv | lib/shard/shard.go:797-974 | every operation keeps: counters equal the sum of cached sizes per DB and in total, every deadline has its heap item, an entry and a tombstone never coexist |
| Keyspace.RunKeepsInv | lib/shard/shard.go:797-974 | the same after every sequence of lookups, stores, touches, deletes, expiries, evictions and flushes |
| Keyspace.RemoveKeepsInv | lib/shard/evict.go:356-384 | expiry, eviction and deletion give back exactly the cached size |
| Keyspace.FlushKeepsInv | lib/shard/shard.go:965-974 | a flush clears one DB's entries, counter and heap items and keeps the invariant for the others |
| Keyspace.SizesStayCurrent | lib/shard/shard.go:862-939 | cached sizes stay equal to the estimate of the stored value if and only if the operation is not a creating collection write whose filling changed the estimate |
| Keyspace.TableAfter | lib/shard/shard.go:797-974 | for every operation and every key the value and deadline the table then holds: as written, kept, dropped or set; keys go only when deleted, evicted, flushed or past their deadline |
| Keyspace.TombsStayBounded | lib/shard/shard.go:945-953 | the tombstone map never grows beyond its bound |
| ShardObject.Shard.Lookup | lib/shard/shard.go:797-816 | the object's lookup is the state function: passive expiry, then the entry |
| ShardObject.Shard.Store | lib/shard/shard.go:888-911 | the key holds the value and the deadline given and every other key what it held; the entry's version is above the old entry's and the tombstone's, and the counters move by the difference of sizes |
| ShardObject.Shard.Delete | lib/shard/shard.go:916-925 | true exactly for a key that was there and not due; the key is gone either way |
| ShardObject.Shard.Touch | lib/shard/shard.go:933-939 | the entry holds the changed value and deadline, with its version up by one and its size re-estimated, and every other key is as it was |
| ShardObject.Shard.PutTombstone | lib/shard/shard.go:945-953 | at the bound the map is cleared and every epoch raised before the tombstone goes in |
| ShardObject.Shard.PushExpire | lib/shard/shard.go:1093-1096 | a fresh generation and its heap item |
| ShardObject.Shard.FlushDB | lib/shard/shard.go:965-974 | the whole new state of a flush |
| ShardObject.Shard.Sweep | lib/shard/shard.go:1105-1137 | a sweep removes only due keys, and one without limits leaves no due key |
| ShardObject.Shard.LiveCount | lib/shard/shard.go:480-496 | after an unbounded sweep the count is exactly the number of live keys of the DB |
| ShardObject.Shard.EvictTTL | lib/shard/evict.go:305-330 | the victim has a deadline that no key with a deadline undercuts, among those not expired on the way |
| ShardObject.Shard.EvictOffered | lib/shard/evict.go:246-353 | the other policies: due candidates expired on the way, the first live one evicted, for any keys a tracker or sample offers |
| ShardObject.Shard.EvictOne | lib/shard/evict.go:223-241 | one search for a victim, under any policy |
| ShardObject.Shard.MaybeEvict | lib/shard/evict.go:187-220 | the loop after every task is a pass: victims until the shard is under its share, none is found, or the bound is reached |
| Eviction.PassShrinks | lib/shard/evict.go:187-220 | a pass keeps the invariant of the shard and removes entries and nothing else |
| Eviction.PassEnds | lib/shard/evict.go:187-220 | afterwards maxmemory is off, the policy evicts nothing, the shard is within its share, the last search found no victim, or as many victims are gone as a pass may take |
| Eviction.CanEvictIff | lib/shard/evict.go:187-220 | from the state and the limits: exactly when a pass can change anything |
| Eviction.TurnRemoves | lib/shard/evict.go:223-384 | a search removes keys past their deadline and at most one other, exactly when it reports a victim |
| Eviction.VolatileSpares | lib/shard/evict.go:223-353 | under the volatile policies no key without a deadline is removed |
| ShardObject.SweptStep | lib/shard/shard.go:1105-1137 | one turn of the sweep pops one item and takes away at most one key, which was due |
| Transactions.StepWatch | lib/shard/shard.go:888-974 | every operation either leaves a watched entry, its version and its epoch alone or moves the (epoch, version) pair strictly up |
| Transactions.RunWatch | lib/shard/shard.go:1023-1045 | after any interleaved run the pair equals the sample if and only if no event disturbed the key |
| Transactions.WatchIsExact | lib/shard/shard.go:1023-1045 | the EXEC check calls a key dirty if and only if a store, mutation, delete, expiry, eviction, flush or tombstone overflow hit it since the sample, or it is due now |
| Transactions.Connection.Multi | lib/commands/tx.go:28-34 | refused inside MULTI |
| Transactions.Connection.Discard | lib/commands/tx.go:36-42 | refused outside MULTI, otherwise the whole transaction state is cleared |
| Transactions.Connection.Watch | lib/commands/tx.go:44-58 | refused inside MULTI; otherwise appends one sample per key, in order, with the key's shard and slot and the epoch and version of the state that passive expiry of the keys so far has left |
| Transactions.WatchThenExec | lib/commands/tx.go:44-124 | for samples as WATCH takes them and whatever happens after: the checks of EXEC are clean if and only if every key was left alone from its sample on and is not due |
| Transactions.Connection.Enqueue | lib/commands/engine.go:425-532 | inside MULTI, in the order of the gates: an unknown command, a wrong arity and memory pressure dirty the transaction, missing authentication, subscribe mode and a busy script only refuse, anything else is queued |
| Transactions.Connection.Exec | lib/commands/tx.go:65-124 | which of the five outcomes happens, what each leaves of the connection, and that a commit runs the queue in order on the state the check left |
| Transactions.CommitIsIsolated | lib/commands/tx.go:44-124 | with no eviction inside EXEC: if EXEC commits then nothing disturbed any watched key since its sample, every watched entry is the sampled one, and the queue runs on exactly that state |
| Transactions.CheckAllClean | lib/commands/tx.go:65-124 | a check that finds every key clean has changed nothing |
| ExecPause.ProgramIsOneStep | lib/shard/shard.go:305-358 | tasks the pause holder sends one by one to any shards, among any other traffic, leave all shards' data as the program, with the eviction pass after each task, executed in one step |
| ExecPause.ExecIsOneStep | lib/commands/tx.go:65-124 | EXEC's dirty checks and queued commands, run as token tasks inside a pause and each followed by its eviction pass, leave exactly what EXEC with these passes leaves of the state at the start of the hold |
| ExecPause.ExecWithoutEviction | lib/commands/tx.go:65-124 | with maxmemory off or the policy noeviction that is the outcome of the checks, or of the queue run on the state the checks left |
| ExecEviction.QueueStart | lib/shard/shard.go:745-785 | in a given run the queue starts on the checked state if and only if every key was clean and no check was followed by an eviction |
| ExecEviction.QueueStartIff | lib/shard/evict.go:187-216 | whatever the passes do, the queue runs on exactly the checked state if and only if no checked shard is over its share of maxmemory with a candidate for the policy |
| ExecEviction.CommitWithEviction | lib/commands/tx.go:44-124 | with evictions inside EXEC, a commit means that nothing disturbed any watched key before the checks, and that each watched entry is the sampled one or evicted since its check |
| ExecEviction.CheckedKeyCanGo | lib/shard/shard.go:745-785 | on a shard over its share, any live key the policy may pick can be watched and clean and gone when the queue starts, and EXEC commits |
| ExecEviction.LostAfterItsCheck | lib/shard/shard.go:745-785 | the same with one key, policy volatile-ttl and a maxmemory of one byte |
| Decimal.ParseInt64Loop | lib/types/types.go:147-187 | the accumulator loop computes the parse function, wrap-around included |
| Decimal.AccumulateLoop | lib/commands/engine.go:761-804 | the digit loop rejects at the first bad digit or overflow test that fires |
| Decimal.AccumulateMeans | lib/types/types.go:166-176 | the accumulator accepts exactly digit strings all of whose prefixes stay within 2^63 modulo 2^64, and returns the residue |
| Decimal.ParseOfFormat | lib/types/types.go:147-187 | parsing a printed int64 gives it back |
| Decimal.Written | lib/types/types.go:147-187 | numbers are written digit by digit, with a minus sign |
| Decimal.ParseIsExact | lib/types/types.go:147-187 | up to 19 digits the parser accepts exactly the printed int64s |
| Decimal.LongStringsWrap | lib/types/types.go:166-176 | from 20 digits on nothing denotes an int64, and exactly which texts are accepted all the same |
| Decimal.WrappedFamily | lib/types/types.go:166-176 | 2^64 + r is read as r, for every r below 2^63 |
| Decimal.AtoiReads | lib/persist/replay.go:67-85 | Atoi and ParseUint read a sign, leading zeros and digits as the number they denote, if it fits |
| Decimal.AtoiAcceptsNumbers | lib/persist/replay.go:67-85 | and accept nothing else |
| Decimal.WrapIsModular | lib/commands/keys.go:95-171 | machine arithmetic differs from the exact result by a multiple of 2^64 |
| Commands.KeyStaysLive | lib/commands/strings.go:104-405 | no one-key command leaves an overdue deadline behind |
| Commands.ExecStaysLive | lib/commands/keys.go:14-242 | nor does any command on the whole keyspace |
| HandlerLaws.TextCommands | lib/commands/strings.go:169-509 | GET, STRLEN, GETDEL, GETSET and APPEND on a missing key and on a text: what is left and answered |
| HandlerLaws.CountingCommands | lib/commands/strings.go:336-410 | INCR, DECR, INCRBY and DECRBY: the stored text reads back as the sum, the deadline stays, the sum is answered; and when they are refused |
| HandlerLaws.GetExFollowsItsText | lib/commands/strings.go:233-330 | GETEX with any option text: when it is refused, what becomes of the deadline, and that it answers as GET |
| HandlerLaws.TimeLeft | lib/commands/keys.go:189-242 | PTTL answers the time left, TTL the nearest number of seconds; PERSIST takes a deadline away |
| HandlerLaws.TypeNames | lib/commands/keys.go:246-273 | TYPE names what the key holds |
| HandlerLaws.Pushes | lib/commands/list.go:16-74 | LPUSH, RPUSH and their X forms, by index: the new list, its deadline and the answered length |
| HandlerLaws.Pops | lib/commands/list.go:76-154 | LPOP and RPOP take as many elements as asked for and there are from their end and answer them in order |
| HandlerLaws.PopsNothing | lib/commands/list.go:84-154 | and when they change nothing, and answer what |
| HandlerLaws.Moves | lib/commands/list.go:419-576 | LMOVE, RPOPLPUSH and their blocking forms: which element goes where, deadlines, and every other key as it was |
| HandlerLaws.MovesInPlace | lib/commands/list.go:419-576 | on one key they rotate the list |
| HandlerLaws.BlockingPops | lib/commands/block.go:199-235 | BLPOP and BRPOP serve the first named key that exists from their end; another type stops them; with no key they change nothing |
| HandlerLaws.Adds | lib/commands/set.go:14-47 | SADD of texts that mean themselves: the union, the deadline kept, the number of new members |
| HandlerLaws.Removes | lib/commands/set.go:49-85 | SREM of such texts: the difference, an emptied set gone, the number of members that went |
| HandlerLaws.Draws | lib/commands/set.go:165-239 | SPOP takes the members it draws and answers with them |
| HandlerLaws.HSetCounts | lib/commands/hash.go:17-53 | HSET answers the number of fields it made |
| HandlerLaws.ZAddWritesLast | lib/commands/zset.go:24-166 | ZADD gives each member the score of its last mention, leaves the others alone and answers the number of new ones |
| HandlerLaws.Flushes | lib/commands/server.go:313-330 | FLUSHDB and FLUSHALL remove the keys of the DB, or all, and nothing else |
| HandlerLaws.OneKeyOnly | lib/commands/engine.go:374-398 | a one-key command changes no other key |
| CommandLaws.PopTakesTheEnd | lib/commands/list.go:84-154 | what is popped and what is left make up the list in its order |
| CommandLaws.PopUndoesPush | lib/commands/list.go:32-154 | popping as many elements as were pushed at an end returns them last first and restores the key |
| CommandLaws.MoveConserves | lib/commands/list.go:447-576 | LMOVE moves one element exactly when there is one and the destination can take it; nothing is lost, invented or touched besides |
| CommandLaws.MoveOntoItself | lib/commands/list.go:447-576 | on one key it rotates the list, or with equal ends changes nothing |
| CommandLaws.BPopServesFirst | lib/commands/block.go:199-235 | a blocking pop serves the first named key that exists, as the plain pop would |
| OptionLaws.ParseMeans | lib/commands/strings.go:25-72 | option words in any order, spelling and repetition are accepted exactly when they go together, and all of them are recorded, the last expire option counting |
| OptionLaws.OptionWords | lib/commands/strings.go:25-72 | which text is which option word |
| OptionLaws.LetterCase | lib/commands/strings.go:25-72 | letter case does not matter |
| OptionLaws.SetFollowsItsText | lib/commands/strings.go:25-165 | for every list of known options: when SET is refused, when its conditions hold, and the value, deadline and reply it then gives |
| OptionLaws.EveryTextSplits | lib/commands/strings.go:25-72 | every option text is a list of known options, followed by nothing or by something that is none |
| OptionLaws.SetRefusesOtherText | lib/commands/strings.go:25-72 | in the second case SET is refused, with which error, and the key stays as it is |
| CommandLaws.AppendJoins | lib/commands/strings.go:461-489 | appending twice is appending the two texts together |
| CommandLaws.SRemUndoesSAdd | lib/commands/set.go:14-85 | SREM of new members undoes SADD, and both count them, for texts that mean themselves and for any texts on a set that no longer holds integers |
| CommandLaws.SRemUndoesSAddIff | lib/commands/set.go:14-85 | for any texts and any set: exactly when SREM undoes SADD |
| CommandLaws.SRemOfWrappedText | lib/commands/set.go:48-85 | on the set of r, SADD of the text of 2^64 + r adds nothing and SREM of it removes r |
| CommandLaws.HSetWritesLast | lib/commands/hash.go:17-53 | each named field gets the value of its last mention; other fields and the deadline stay |
| CommandLaws.DecrUndoesIncr | lib/commands/strings.go:344-405 | DECRBY undoes INCRBY on every integer and amount that fit |
| CommandLaws.PersistUndoesExpire | lib/commands/keys.go:95-242 | PEXPIREAT keeps the value and gives the time PTTL reports; PERSIST takes it away |
| OptionLaws.ExpireFollowsItsText | lib/commands/keys.go:56-171 | EXPIRE, PEXPIRE, EXPIREAT and PEXPIREAT with any number text, any flag words and on any key: when they are refused, when the flags protect the key, and otherwise the deadline it gets or, if that has passed, that it is gone |
| CommandLaws.DelIsExact | lib/commands/keys.go:14-32 | DEL removes exactly the named keys and counts each that existed once |
| Burst.InterleavingsAgree | lib/shard/shard.go:385-406 | every interleaving of the per-shard groups gives the same keyspace and the same reply in every slot |
| Burst.FanOutIsSequential | lib/commands/burst.go:100-147 | and those are the replies and the keyspace of running the commands one by one |
| Burst.ExecSegment | lib/commands/burst.go:100-147 | a segment, in whatever interleaving its groups ran, equals its commands executed one by one |
| Burst.ExecuteBurst | lib/commands/burst.go:60-95 | a whole burst, cut into maximal eligible runs, gives the reply list and keyspace of one-at-a-time execution |
| Burst.Groups | lib/shard/shard.go:385-406 | the grouping loop gives each shard exactly its positions, in order |
| Burst.MultiKeyFanOut | lib/commands/engine.go:374-398 | MGET, MSET, DEL and EXISTS over any interleaving, duplicate keys included, equal their parts one by one |
| Burst.DelParts | lib/commands/keys.go:14-32 | DEL's parts remove exactly the named keys and count the distinct ones that existed |
| Burst.SetParts | lib/commands/strings.go:526-545 | MSET leaves each key with the value of its last mention and no deadline |
| Burst.GetParts | lib/commands/strings.go:510-524 | MGET changes nothing, and each part answers with the text stored at its key, or nil if there is none or it holds something else |
| Burst.ExistsParts | lib/commands/keys.go:34-47 | EXISTS changes nothing, each part answers 1 exactly for a key that is there, and the total counts duplicates |
| AofCapture.RewriteSetArgs | lib/commands/aof.go:120-310 | the in-place argument loop rewrites exactly EX, PX and EXAT pairs, though it looks at rewritten numbers again |
| AofCapture.RewriteParses | lib/commands/strings.go:25-72 | the rewritten option tail parses to the same options with the absolute deadline, or is refused when a number is not positive |
| AofCapture.SetReplay | lib/commands/strings.go:104-165 | a replayed SET does what the original did, or nothing when a rewritten number is not positive |
| AofCapture.GetExReplay | lib/commands/strings.go:233-332 | a replayed GETEX record leaves the key as GETEX did |
| AofCapture.DeadlineAgrees | lib/commands/aof.go:340-352 | the logged deadline is the one EXPIRE used if and only if the handler's overflow guard does not fire, or clock and seconds are in the one pair of residues where the product wraps to the saturated value; for EXPIREAT there is none |
| AofCapture.ExpireReplay | lib/commands/keys.go:95-171 | a replayed EXPIRE leaves the key as it was left if and only if the two deadlines agree |
| AofCapture.SPopReplay | lib/commands/aof.go:120-310 | SREM of the drawn members leaves what SPOP left |
| AofCapture.BPopReplay | lib/commands/aof.go:315-320 | the plain pop of the replied key leaves what the blocking pop left |
| AofCapture.KeyExact | lib/commands/aof.go:90-310 | for every one-key command: replay agrees if and only if a condition on arguments, clock and key before the call holds |
| AofCapture.CaptureIsExact | lib/commands/aof.go:90-352 | for every command: replaying its record gives its keyspace if and only if that condition holds, which only an overflowing SET that changes its key or an applied, saturated EXPIRE fails |
| AofCapture.LogRebuildsKeyspace | lib/commands/aof.go:90-352 | replaying the log of any safe sequential run gives the keyspace of the run |
| LaterReplay.LaterKeyIff | lib/commands/aof.go:212-352 | one record at a later clock: the key ends differently if and only if the record applies and its deadline has passed in between |
| LaterReplay.LogRebuildsLater | lib/persist/replay.go:152-176 | the log of a safe run, replayed at a later clock before which no deadline in it has passed, rebuilds the keyspace of the run |
| LaterReplay.PersistedKeyIsLost | lib/commands/keys.go:95-171 | a deadline that was set, taken away and has passed since deletes the key at replay |
| AofCapture.ModestIsSafe | lib/commands/aof.go:340-352 | a condition on the arguments alone (deadlines within reach of the clock) makes every command safe |
| AofCapture.ExpireCanLoseAKey | lib/commands/aof.go:340-352 | the saturated EXPIRE whose replay deletes the key |
| AofCapture.SetCanLeaveAKey | lib/commands/strings.go:80-165 | the overflowing SET PX whose replay keeps the old value |
| Resp.HeaderParts | lib/resp/resp.go:366-373 | a header in a text: its type byte, its digits, its line end, and no earlier line end |
| RespReader.ScanCommandLoop | lib/resp/redcon.go:868-1085 | the nested scanning loops compute the scan function |
| RespReader.CommandOnPrefix | lib/resp/redcon.go:868-1085 | a command seen through any non-empty prefix of its stream is returned exactly when all of it is there and is never rejected |
| RespReader.DrainOnPrefix | lib/resp/redcon.go:868-1085 | draining any prefix returns its whole commands in order and leaves the bytes of the rest |
| RespReader.CommandIff | lib/resp/redcon.go:868-1085 | the scan returns a command if and only if one stands at the front of the buffer, its lengths in any spelling that reads as them |
| RespReader.RejectionIsFinal | lib/resp/redcon.go:868-1085 | a rejected buffer stays rejected whatever bytes follow |
| RespReader.DrainedStandThere | lib/resp/redcon.go:868-1085 | whatever the buffer holds, what is drained is commands that stand there, one behind the other |
| RespReader.Reader.Room | lib/resp/redcon.go:868-1085 | rewinding or doubling the buffer keeps the unread bytes |
| RespReader.Reader.Fill | lib/resp/redcon.go:868-1085 | a read of any size appends to the unread bytes and overwrites none |
| RespReader.Reader.ReadCommands | lib/resp/redcon.go:868-1085 | on any input: what is handed out was drained from the front of the unread bytes and the rest stays unread; a protocol error is reported only for bytes that are rejected, and the end only with no whole command left |
| RespReader.OnStream | lib/resp/redcon.go:868-1085 | on a stream of well-formed commands: the next commands in order, never a protocol error, the end only when none are left |
| RespReader.ReadAll | lib/resp/redcon.go:868-1085 | for every list of non-empty commands and every way of cutting their bytes into reads, exactly those commands come out in order |
| AofLog.ParseRecordLoop | lib/persist/replay.go:32-65 | the index-advancing loop computes the record parser |
| AofLog.RecordIff | lib/persist/replay.go:32-85 | the parser returns a record if and only if one stands at the offset, its lengths in any spelling that reads as them |
| AofLog.RecordOnPrefix | lib/persist/replay.go:32-85 | a record of which the log holds c bytes: whole, corrupt exactly when the cut is before a bulk string, torn otherwise |
| AofLog.StampRoundTrip | lib/persist/aof.go:72-78 | unwrapping a stamped record gives back DB, sequence number and command |
| AofLog.StampedIff | lib/persist/replay.go:87-112 | exactly which argument lists are taken for stamped records |
| AofLog.CollectLog | lib/persist/replay.go:114-144 | the collecting loop of one file |
| AofLog.WholeLog | lib/persist/replay.go:114-144 | a log of whole records gives exactly its records |
| AofLog.CutLog | lib/persist/replay.go:114-144 | a log cut inside its last record gives all earlier ones, and fails exactly when the cut is before a bulk string |
| AofTail.TornTailSpoilsAppends | lib/persist/aof.go:85-105 | for every cut and all appended records: the log reads as the earlier records and then the appended ones if nothing was left of the torn record, and otherwise only if the first appended record has the number of the torn one and quotes its own encoding |
| AofTail.TornTailOutcome | lib/persist/replay.go:32-144 | for every cut: failure outside an argument's content, silent loss where the content needs more bytes than were appended, failure where no line end falls in place, and otherwise at best a record under the torn one's number with an argument that ends with the appended bytes |
| AofTail.SilentLoss | lib/persist/replay.go:54-56 | for every log and all appended records, torn records after which the log loads without an error and all appended records are gone |
| AofTail.SelfQuotingRepairs | lib/persist/replay.go:32-144 | such records exist: for every log, number and DB, one that, torn and appended again under its number, reads back whole |
| AofMerge.CollectAll | lib/persist/replay.go:114-144 | all files, first failure stops |
| AofMerge.FilesGiveRecords | lib/persist/replay.go:114-144 | the files of any logs give their records, file after file |
| AofMerge.SortSpec | lib/persist/replay.go:152-176 | the sort orders by number, keeps every record, and keeps equal numbers in order |
| AofMerge.ReplaySorted | lib/persist/replay.go:152-176 | the replay loop executes each record unless its predecessor has its number, and finds the highest number |
| AofMerge.ReplayFiles | lib/persist/replay.go:152-176 | collect, sort and execute, or fail with the first bad log |
| AofMerge.ReplayIsOncePerNumber | lib/persist/replay.go:152-176 | every sequence number is executed once, in ascending order |
| AofMerge.ReplayIsExact | lib/persist/replay.go:152-176 | where equal numbers carry equal records, exactly the collected records are executed |
| AofMerge.FirstIsReplayed | lib/persist/replay.go:152-176 | of several records with one number the first one collected is executed |
| AofMerge.ReplayIgnoresOrder | lib/persist/replay.go:152-176 | the append order within and across the logs does not matter |
| AofMerge.StepKeepsInv | lib/persist/aof.go:121-148 | numbering, broadcasting, writing and restarting keep the history and its copies in step |
| AofMerge.CopiesGoWhereTheyShould | lib/persist/aof.go:121-148 | one copy of an append on the way to its log, one of a broadcast to every log, and a write puts one at the end of its log |
| AofMerge.ReplayIsTheHistory | lib/persist/aof.go:121-148 | in every run, replaying the bytes executes exactly the numbered records of which a copy was written, and the whole history once no write is outstanding |
| AofMerge.LogSet.AppendSeq | lib/persist/aof.go:138-148 | one record at the end of one file |
| AofMerge.LogSet.AppendRecord | lib/persist/aof.go:121-123 | a fresh number per record |
| AofMerge.LogSet.AppendToAll | lib/persist/aof.go:128-136 | one number, one copy in every file |
| AofRewrite.StateReplay | lib/persist/aof.go:258-295 | the state command of any value, members in any order, makes exactly that value, a set being filled again member by member |
| AofRewrite.EntryReplay | lib/persist/aof.go:258-295 | the commands of one entry add it as it comes back, with its deadline, or nothing when it is overdue |
| AofRewrite.ComesBackIff | lib/persist/aof.go:258-295 | an entry comes back the same if and only if it is no set or every wrapping member comes after the change of encoding |
| AofRewrite.RewriteRebuilds | lib/persist/aof.go:214-295 | replaying the dump from empty gives exactly the entries overdue neither at the dump nor at the replay, as they come back; they are the entries there were if and only if every set comes back |
| AofRewrite.ExecGood | lib/commands/list.go:84-154 | no command leaves an empty collection or a score out of range, and none with SADD members that mean themselves leaves a set with another member |
| AofRewrite.ReachableIsRebuilt | lib/persist/aof.go:214-295 | whatever commands ran from an empty keyspace, the dump can be taken, and its replay gives the same keyspace if and only if every set comes back; always so if the SADD arguments of the run mean themselves |
| AofResume.SameExec | lib/types/set.go:65-120 | a command that names texts that mean themselves leaves the same members and replies the same whatever the encodings of the sets |
| AofResume.DumpThenLog | lib/persist/aof.go:214-295 | dump and then the records of a safe run rebuild the keyspace of the run, if every dumped set comes back and the records name such texts |
| AofResume.AddTellsApart | lib/types/set.go:65-98 | a text added to the same members in both encodings: the members stay the same if and only if it means itself or ends the integer encoding |
| AofResume.ReloadThenAddDiffers | lib/persist/aof.go:258-295 | the set for which dump and log give other members than the run |
| Recovery.LogsRestoreTheRun | lib/persist/manager.go:88-143 | a safe run, captured, stamped, written to the logs in any order and restarted, at the clock of the run or a later one before which no deadline in the log has passed, gives the keyspace of the run |
| Recovery.DumpShard | lib/persist/aof.go:214-254 | the dump loop stamps its commands with consecutive numbers |
| Recovery.RewriteFiles | lib/persist/aof.go:214-254 | the new files, shard after shard, and the new counter |
| Recovery.RewrittenLogsRestore | lib/persist/aof.go:214-254 | a restart from rewritten logs rebuilds exactly the live entries as they come back, and the live entries there were if and only if every set comes back |
| SnapshotFormat.NumberRoundTrip | lib/persist/format.go:69-79 | little-endian numbers read back, for every width |
| SnapshotFormat.BytesOf | lib/persist/format.go:69-79 | the bytes of 32-bit and 64-bit numbers, least significant first |
| SnapshotFormat.EntryRoundTrip | lib/persist/format.go:105-279 | decoding an encoded entry followed by any bytes gives key, value and deadline, a set being filled again member by member, and stops at the first of those bytes |
| SnapshotFormat.Decoder.TakeN | lib/persist/format.go:165-176 | the first short read latches and later reads do nothing |
| SnapshotFormat.Decoder.DecodeEntry | lib/persist/format.go:226-279 | the decoding loops, with members added to a new set object, compute the decoder function, errors included |
| Snapshot.WriteSnapshot | lib/persist/snapshot.go:51-143 | the nested loops write header, non-empty segments and trailer |
| Snapshot.HeaderFields | lib/persist/snapshot.go:51-143 | the fields of the file header, by offset |
| Snapshot.LoadSnapshot | lib/persist/snapshot.go:149-226 | the load loop computes the load function, with its six ways to fail |
| Snapshot.FileChecks | lib/persist/snapshot.go:149-185 | on the bytes: what a bad magic, version, length and file checksum are answered with, in this order, before any segment is read |
| Snapshot.SegmentChecks | lib/persist/snapshot.go:186-226 | on the bytes of a segment: truncation, payload checksum and range, in this order, before its entries are read |
| Snapshot.EntryChecks | lib/persist/format.go:226-279 | an entry that is cut short or has an unknown type is refused |
| Snapshot.FileRoundTrip | lib/persist/snapshot.go:51-226 | loading what was written stores exactly the entries not overdue, as they come back, each on its shard and in its DB |
| Snapshot.SnapshotRestores | lib/persist/snapshot.go:51-226 | for a keyspace: exactly the entries overdue neither at the dump nor at the load come back, and each is the same if and only if it is no set or the walk over its members reloads well |
| Snapshot.DumpIsSnapshot | lib/persist/snapshot.go:88-127 | the segments written for a full dump hold exactly the entries that are not overdue |
| Snapshot.SaveThenLoad | lib/persist/snapshot.go:51-226 | the write loop and then the load loop give back exactly those entries, each on the shard of its key, and the same under exactly that condition |
| RespValue.AppendValue | lib/resp/value.go:89-169 | the recursive appender extends the buffer by the rendering |
| RespValue.ScalarFrames | lib/resp/value.go:89-169 | the frames of scalar replies written out, in protocol 3 and as protocol 2 gets them |
| RespValue.AggregateFrames | lib/resp/value.go:89-169 | and of arrays, maps, sets and pushes |
| RespValue.StripAt | lib/resp/value.go:89-169 | in a simple text line ends become blanks and nothing else changes |
| RespValue.PlainIsUnchanged | lib/resp/value.go:89-169 | protocol 3 shows a tree unchanged if and only if no simple text has a line end and no bulk is nil |
| RespClient.Client.NextLine | clients/go/ultima/resp.go:353-359 | the line loop consumes up to the line feed |
| RespClient.Client.NextValue | clients/go/ultima/resp.go:242-337 | the parser consumes exactly what the parse function says |
| RespClient.Client.NextElems | clients/go/ultima/resp.go:339-349 | the element loop stops at the first failure |
| RespClient.ReplyRoundTrip | clients/go/ultima/resp.go:242-349 | for every well-formed tree and either protocol the client reads back what it should see, the RESP2 downgrade in protocol 2, and stops at the first byte after it |
| RespClient.Proto3RoundTrip | clients/go/ultima/resp.go:242-349 | in protocol 3 a well-formed tree comes back unchanged if and only if it is plain, and the rest of the stream is untouched |
| RespClient.BadFrames | clients/go/ultima/resp.go:242-337 | an empty line, an unknown type and a text that the type does not admit are bad frames, and a line without end is the end of the input |
| WsSession.NoGapNoRepeat | lib/wssession/session.go:171-271 | in every run with honest clients each sink, current or displaced, has accepted exactly lastSeq+1, lastSeq+2, … |
| WsSession.ReconnectIsSeamless | lib/wssession/session.go:171-271 | in any honest run a client that got n pushes on any earlier sink and attaches with the last number sees, over both connections and whatever happens until the next attach, one gapless stream up to the latest push |
| WsSession.AttachSucceedsExactly | lib/wssession/session.go:213-253 | for any clocks and in terms of the trimmed buffer: Attach succeeds if and only if the session is alive and every push it needs is still buffered |
| WsSession.AttachSucceedsIff | lib/wssession/session.go:171-253 | after any run with honest clients and a clock that does not go back: Attach succeeds if and only if the session is alive, no more pushes were missed than may be buffered, and none of them is older than the window |
| WsSession.TrimIsExact | lib/wssession/session.go:187-196 | trimming keeps the end of the buffer; every push dropped was one too many or older than the window, and the first one kept is neither |
| WsSession.SinksAreFair | lib/wssession/session.go:171-253 | in every honest run a sink stops taking pushes only at one it is not willing to take |
| WsSession.DetachAndExpire | lib/wssession/session.go:259-313 | a detach with its own token takes the sink away and no other does; an expired session has no sink and takes and keeps nothing |
| WsSession.StaleDetachIsIgnored | lib/wssession/session.go:259-271 | after an attach, over any run of deliveries and other connections' detaches, the sink stays attached |
| WsSession.HonestyIsExact | lib/wssession/session.go:213-253 | after an attach and one delivery the sink has neither gap nor repeat if and only if the reported number was not above the latest one; such a number is always accepted |
| WsSession.Session.Deliver | lib/wssession/session.go:171-183 | number, buffer, trim, offer |
| WsSession.Session.TrimLocked | lib/wssession/session.go:187-196 | drops pushes from the front, each one too many or older than the window when its turn came, up to the first that is neither |
| WsSession.Session.Attach | lib/wssession/session.go:213-253 | the replay loop and the hand-over of aborted requests |
| WsSession.Session.Detach | lib/wssession/session.go:259-271 | only the current token detaches |
| WsSession.Session.RecordAborted | lib/wssession/session.go:276-285 | aborted requests are kept for the next attach |
| WsSession.Session.Expire | lib/wssession/session.go:290-313 | an expired session loses its sink and takes no further one |
| PushQueue.RunIsFifo | lib/pushq/pushq.go:61-204 | over every interleaving what came out and what is queued is what was accepted, in order; bytes are exact and within the cap; refusal is permanent |
| PushQueue.AcceptedIff | lib/pushq/pushq.go:61-86 | an item is accepted, at the back, if and only if the queue is neither closed nor overflowed and its cost fits beside the sum of the queued ones; only an item that does not fit overflows it |
| PushQueue.FrontComesOut | lib/pushq/pushq.go:119-128 | the front item comes out if there is one |
| PushQueue.AllAccepted | lib/pushq/pushq.go:61-204 | over every run in which no item fails to fit and nobody closes the queue, every item put is accepted, in order |
| PushQueue.FirstMisfit | lib/pushq/pushq.go:61-204 | after the first item that does not fit nothing more is accepted |
| PushQueue.DrainAfterClose | lib/pushq/pushq.go:92-141 | items queued before close still come out, in order |
| PushQueue.Ring.Grow | lib/pushq/pushq.go:175-191 | doubling keeps the items in order across the wrap-around |
| PushQueue.Ring.Enqueue | lib/pushq/pushq.go:61-86 | the ring refines the queue, and accepts exactly when it is open and the item fits |
| PushQueue.Ring.TryDequeue | lib/pushq/pushq.go:119-128 | takes the front item and its cost |
| PushQueue.Ring.Close | lib/pushq/pushq.go:132-141 | closing refuses new items and keeps the queued ones |
| PushQueue.Unrolled | lib/pushq/pushq.go:175-191 | the copy loop lays the ring out from its head |
| PushWake.NoMissedWakeUp | lib/pushq/pushq.go:92-173 | in every reachable state a consumer that waits although an item is queued or the queue is closed has its signal in the one-slot channel or is owed it |
| PushWake.LookHandsOut | lib/pushq/pushq.go:92-128 | a look at the queue hands out the front item if there is one, returns empty-handed if it is closed, and waits otherwise |
| PushWake.TwoStepsReturn | lib/pushq/pushq.go:92-114 | and its call returns by its second step, whatever the producers do |
| PushWake.SignalsLetItReturn | lib/pushq/pushq.go:92-173 | from every reachable state in which it waits so, the owed signals can be sent, and once they were, among any other steps of producers, the consumer can receive and its next look returns |
| Wake.StepIsExact | lib/shard/shard.go:1053-1089 | registration, signals, retries, pushes, pops and timeouts: from a state in which no wake-up is lost a step leads to another one if and only if it is not a timeout with the only signal or a signal to a client that timed out |
| Wake.RunIsExact | lib/commands/block.go:84-235 | no wake-up is lost at any moment of a run if and only if every step meets that condition |
| Wake.NoLostWakeUp | lib/commands/block.go:84-235 | in every run without timeouts, at every moment: a non-empty list with a parked client has a client that will try again |
| Wake.StirredClientPops | lib/commands/block.go:132-187 | a signalled client pops within three of its own steps |
| Wake.ElementsAreKept | lib/commands/block.go:84-235 | in every run the list holds what was pushed and not popped |
| Wake.FirstComeFirstSignalled | lib/shard/shard.go:1053-1089 | clients register at the end when they find the list empty, and a signal goes to the one that has waited longest |
| Wake.TimedOutWaiterLosesWakeUp | lib/commands/block.go:176-179 | the timeout that loses a wake-up, from a reachable state |
| Wake.SignalToTimedOutIsLost | lib/shard/shard.go:1080-1089 | the signal that goes to a client which has timed out |
| Glob.GlobMatch | lib/commands/glob.go:6-88 | true if and only if the string can be cut into pieces that fit the tokens of the pattern one by one, and never for a pattern with an unterminated class |
| Glob.MatchClass | lib/commands/glob.go:29-65 | the class loop: escapes, swapped ranges, and None for a class that does not end |
| Glob.MatchesIsMeant | lib/commands/glob.go:6-88 | matching token by token is the existence of such a cut |
| Glob.StarsCollapse | lib/commands/glob.go:11-13 | two stars in a row mean what one means, anywhere |
| Glob.PlainCharacters | lib/commands/glob.go:6-88 | which characters of a pattern stand for themselves, and how to make any do so |
| Glob.ClassRoundTrip | lib/commands/glob.go:29-65 | a class reads back as it was written, sign, ranges and escapes included |
| Glob.ClassMeans | lib/commands/glob.go:29-65 | a class with a range, in either order, and a character: exactly which characters it stands for |
| IntSet.Set.Find | lib/types/set.go:47-61 | the binary search finds the value or the place it belongs |
| IntSet.Set.Contains | lib/types/set.go:32-43 | membership of the text, or of the integer it is taken for |
| IntSet.Set.Add | lib/types/set.go:65-86 | the new value, the answer, and exactly when the encoding changes |
| IntSet.Set.Promote | lib/types/set.go:89-98 | the change of encoding keeps the members and makes the byte count exact |
| IntSet.Set.Remove | lib/types/set.go:101-120 | the new value and the answer |
| IntSet.Set.Cardinality | lib/types/set.go:21-26 | the number of members in either encoding |
| IntSet.Set.AddMembers | lib/commands/set.go:14-46 | members added one after the other give the value that the fold over the list gives |
| IntSet.RunOps | lib/types/set.go:32-120 | over every list of operations on exact members the object answers as the mathematical set |
| SetEncoding.ExactIff | lib/types/types.go:147-187 | a text is exact if and only if it does not parse or has at most 19 digits |
| SetEncoding.StillIntegers | lib/types/set.go:65-98 | from the list of added members alone: when the set still holds integers, and which |
| SetEncoding.RemoveUndoesAddIff | lib/types/set.go:65-120 | exactly when removing texts after adding them gives the members back there were |
| SetEncoding.ReloadIsExact | lib/persist/format.go:246-253 | a fresh set given listed members has those members if and only if every wrapping one comes after the change of encoding |
| SetEncoding.EveryOrderIff | lib/persist/aof.go:258-295 | a set comes back in every order of its members if and only if every member means itself |
| IntSet.WrappedMember | lib/types/set.go:32-43 | the set that reports a member it does not hold |
| IntSet.ReloadLosesMember | lib/persist/format.go:246-253 | the set of 2^64 + r, for every r below 2^63, is reloaded as the set of r |

## Left out

- Shutdown of shards and connections, and the capacity of the shard queues: senders never block in the model.
- An un-paused FLUSHDB: flush is one step, as it is under a pause token.
- The LRU and LFU trackers and random sampling: any key they may offer is taken, and a search may end without one; the loops around them and the removal are modelled.
- `PersistQuiesced` and the drain before a rewrite: the rewrite is taken with no write outstanding.
- Commands besides those named in `Commands.dfy`; of HSET and ZADD the forms without flags; scores are 64-bit integers with exact print and parse, INCRBYFLOAT is not modelled.
- BLMPOP and BZMPOP: they are logged under names the command table does not define.
- Capture of concurrent writers: the order of capture is the order of execution only in a sequential run, which is what the log theorems are about.
- Bursts inside MULTI, with maxmemory on, or of one command: they take the normal path.
- Waiters on several keys, BLMOVE between two lists, and sorted-set waiters: the wake protocol is modelled for one list key.
- Inline commands of the RESP reader (a buffer that does not begin with an asterisk is rejected), and limits on the number and size of arguments that only protect memory.
- Allocation failure: a declared length that fits 64 bits is taken to be allocatable; negative or wrapped sizes are modelled as a panic.
- Aliasing of entries, argument slices and buffers: values are copied.
- fsync, rename, manifests, directories and failing writes: a log or snapshot is the bytes written.
- Appends after the logs are closed, and sequence numbers beyond 64 bits.
- SSCAN and SCAN; the order in which a map-encoded set lists its members is an input.
- HTTP, gRPC, the WebSocket transport, authentication, Lua, pub/sub routing, INFO, CONFIG and metrics.
- Commands.KeyStaysLive: deadlines and the clock are within 64 bits; a clock that moves within one command is not modelled.
- AofCapture.LogRebuildsKeyspace: the clock is fixed and no deadline passes during the run; a later clock at the restart is in `LaterReplay`.
- Transactions.Connection.Exec: runs without the eviction passes between its tasks; these are in `ExecPause` and `ExecEviction`.
- ExecPause.ExecIsOneStep: each queued command works on one shard, and the replies are left to `Transactions.Connection.Exec`; a command that fans out is several such tasks.
- Wake.StirredClientPops: assumes that no other client moves in between; under contention another client pops, and the wake-up stays alive.
