# Verification model of the game-server network, scheduling, combat and map code

This project models four components of the server and proves what they are for.

**Framed TCP socket** (`Wire`, `Buffers`, `SocketModel`, `SocketOutcomes`, `TcpSockets`, `EndToEnd`, `Acceptors`).
Messages become packets with a 6-byte head in one of two send buffers that swap
roles; received chunks are parsed out of one buffer that never grows. `Wire` has
the packet format, the index rule, and the one-pass stream parser with an
independent framing relation. `SocketModel` is one socket as a state machine over
its strand: every handler is one step, and callers, the network, chunk sizes and
the order of completions are arbitrary events. `TcpSockets` is the object itself,
with its two physical send buffers and in-place receive buffer; each handler is a
method proved to perform the model's step on the object's abstract value.
`SocketOutcomes` says what the events come to: the index of every packet sent, what a
failed or cancelled read or send does, and how often the acceptor is told. `EndToEnd`
joins two sockets by their wires. `Acceptors` adds the acceptor's strand
and its registry of sockets.

**Safe unit and leader/follower scheduler** (`SafeUnitModel`, `SafeUnits`,
`SchedulerModel`, `Schedulers`, `UnitScheduling`). Each is an interleaving transition
system over any number of threads, at the granularity of the mutexes: in the safe unit,
taking the lock, pushing, posting the unit to the scheduler, releasing, the unlocked swap, each
closure (which may post again), and every part of the locked hand-off are separate
steps. In the scheduler a push and its notify are separate steps, a worker may wake
spuriously, and the reactor unit is polled with, appended, and spliced in three
steps. The push of the reactor unit is an event of its own, which earlier posts and
running workers may precede and which never happens in the mode without a reactor.
`UnitScheduling` puts the two together: the unit's wake-up posts its task, a worker that
takes that task runs the unit, other tasks share the queue, and other threads post. The
classes `SafeUnit`, `SchedulerList` and `SchedulerLF` are the same code as objects with
updated fields.

**Turn-based combat** (`CombatModel`, `CombatTheorems`, `CombatBattle`, `CombatUnits`,
`CombatRoster`, `Combats`, `CombatStuck`). On values: the speed bar, the attack, the
verdict, and a battle as a chain of turns. On objects: `BattleUnit`, `CampUnit` and
`Combat` with the mutually recursive round phases; a ghost `history` records the turns,
so everything proved of battles holds of a fight that `Combat.Init` has played. A run
of the speed bar that finds no tick count leaves the round without an operating unit,
which the end of the round dereferences; the model sets `crashed` there. For fights
among robots that happens if and only if a run finds no tick count; a condition on the
data rules it out, and `CombatStuck` has fights in which it happens.

**Nine-grid area of interest** (`NineGrid`, `NineMaps`). The three families of tables
built by nested loops, and that the per-direction lists are the exact differences of
neighbouring squares; following them along a walk, looked up in the tables, keeps the
view right.

`Wrappers`, `Arithmetic` and `Sequences` hold the option type and what several
components need about 32-bit numbers and rows of numbers.

## What the model assumes

- Both 16-bit head fields are little-endian, as on the hosts the packed struct is
  written for.
- A successful send may move fewer bytes than it was given. The completion handler
  ignores the count and marks the whole buffer as read, so the model counts the
  difference in `lost`. The byte ledger holds exactly in the runs in which every
  successful send is whole (`SocketModel.SendLedger`), and there is a run in which it
  does not (`SocketModel.PartialSendLoses`). The end-to-end results speak of runs in
  which sends move everything, or of packets accepted and bytes delivered, as stated
  there.
- The 32-bit buffer length wraps at 4 GiB. `Buffers.WrapExactly` says exactly when, and
  `Buffers.Buffer.Reserve` what is left then; the handlers that append a packet ask that
  it does not happen (`TcpSocket.Room`), which no handler of the original checks. In
  `SocketModel` the idle bytes are unbounded: its runs stand for the runs of the socket
  in which there is room at every write.
- Runs of a socket start when its first read has been started (`TcpSocket.Read`), as the
  acceptor and the connector do right after making it.
- `init` of the scheduler has run, `start` runs at most once, and `stop` has not run.
- The living units of a fight have speeds up to 2396745 and attacks up to 5592405
  (`CombatRoster.InScope`): there the bar and every distance stay below 2^24, where the
  single-precision ceiling and product equal the whole-number ones
  (`CombatTheorems.FloatCeilIsExact`, `CombatTheorems.AttackIsExact`,
  `CombatBattle.BattleFits`). Camps may have any two numbers, though only 1 and 2 can be
  fought out: others end after one round (`CombatBattle.NoEnemyOneRound`). Units may be
  dead from the start, a whole camp included, have no speed, or share a uid, in which
  case the last one stands.
- The sentinel 99999 for "no tick count" is reached when every living unit that moves
  needs that many ticks (`CombatTheorems.NoTicksExactly`). A fight in which 7 times the
  highest speed is within 99998 times every other speed that is not 0 never comes to
  that (`CombatRoster.NobodyTooSlow`, `Combats.Combat.Init`); others may, depending on
  the random targets (`CombatStuck.LadderExactly`, `CombatStuck.PlayLadder`).
- A map whose sectors number more than 2^32 has cells that share a 32-bit key
  (`NineGrid.KeysDistinctExactly`); the tables are proved complete for all others. What
  the lists themselves do is proved for every map `init` can be given, because cells
  near each other never share a key (`NineGrid.KeysNear`).
- `std::map` is a sequence of its entries in key order; sockets in the registry are
  identified by number; the chosen target of an attack is any living enemy.

## Model

| member | source | states |
|---|---|---|
| Wire.EncodeHead | boost_network/tcp_socket.cpp:69-80 | a packet can be read back from its encoding whatever bytes follow: same head fields, same body, and the rest of the stream starts where the packet ends |
| Wire.HeadBytes | boost_network/common.hpp:6-15 | six bytes in front of the body: command and body length low byte first, index, flag |
| Wire.MessageKeeps | boost_network/tcp_socket.cpp:224 | a message has the packet's command and body, and its zip bit is the flag's bit of value 2 |
| Wire.DecodedPacketEncodes | boost_network/common.hpp:8-13 | the head layout loses nothing: re-encoding a packet taken from a stream gives the very bytes it was taken from |
| Wire.EncodeAllAppend | boost_network/tcp_socket.cpp:78-80 | packets appended to a buffer one after the other are the encoding of the list of packets |
| Wire.ParseFrames | boost_network/tcp_socket.cpp:196-251 | soundness on every byte stream: what the parser delivers re-encodes to the bytes consumed, its indices were admitted, and what it leaves is stuck for a stated reason |
| Wire.FramingUnique | boost_network/tcp_socket.cpp:196-251 | completeness: a stream has at most one reading as admitted packets plus a stuck remainder, and the parser finds it |
| Wire.ParseAppend | boost_network/tcp_socket.cpp:206-250 | parsing a stream after more bytes have arrived continues exactly where parsing the first part stopped, and a rejection stays a rejection |
| Wire.ChunkingInvariance | boost_network/tcp_socket.cpp:196-251 | for every byte stream, malformed ones included, and every cut into chunks, chunk-by-chunk parsing delivers the same messages, counter and verdict as one pass, and until rejection leaves the same bytes |
| Wire.LeftoverBound | boost_network/tcp_socket.cpp:208-221 | bytes left after an acceptable parse are fewer than one maximal packet |
| Wire.RoundTrip | boost_network/tcp_socket.cpp:196-251 | every cut of a packet stream whose indices a counter admits is acceptable and yields a prefix of the messages sent, the whole stream all of them |
| Wire.CutPacket | boost_network/tcp_socket.cpp:208-221 | whatever the counter, an admitted packet is taken exactly when all its bytes are there; before that the parser waits and does not reject |
| Wire.IndexCycle | boost_network/tcp_socket.cpp:226-243 | from a counter in 1..254 a row of packets is accepted if and only if the k-th carries ((c-1+k) mod 254)+1, and the counter then stands at the next value of that cycle |
| Wire.StreamIndices | boost_network/tcp_socket.cpp:196-251 | on any byte stream a counting receiver takes packets whose indices run through the cycle in turn, and its counter ends where the cycle says |
| Wire.FirstIndex | boost_network/tcp_socket.cpp:226-240 | zero indices leave the counter at 0, the first non-zero index starts it; first index 255 accepts one packet and then nothing |
| Buffers.GrowthCovers | boost_network/buffer.cpp:14-19 | growth is the least number of whole 64 KiB blocks with room for the request |
| Buffers.WrapExactly | boost_network/buffer.cpp:14-19 | for a packet-sized request the 32-bit length wraps if and only if the vector is at its last possible length and the packet does not fit |
| Buffers.Buffer.constructor | boost_network/buffer.cpp:5-11 | an empty buffer of 64 KiB |
| Buffers.Buffer.Reserve | boost_network/buffer.cpp:13-19 | afterwards there is room, with unread bytes and both indices unchanged; storage moves only if it had to; when the 32-bit length wraps, the vector has length 0 under the same indices |
| Buffers.Buffer.Append | boost_network/buffer.hpp:29-34 | the bytes follow the unread ones, in the same storage |
| Buffers.Buffer.AddReadLen | boost_network/buffer.hpp:36-43 | exactly that many of the oldest unread bytes are gone |
| Buffers.Buffer.RefitBuffer | boost_network/buffer.hpp:46-56 | the overlapping in-place move keeps the unread bytes and frees everything before them |
| TcpSockets.PutPacket | boost_network/tcp_socket.cpp:60-80 | one packet, numbered as `SocketOutcomes.WriteNumbers` says, is appended to the unsent bytes, after making room, keeping what was there |
| TcpSockets.TakePacket | boost_network/tcp_socket.cpp:206-247 | one turn of the loop is one step of the stream parser, and a turn that takes nothing changes nothing |
| TcpSockets.CheckIndex | boost_network/tcp_socket.cpp:226-243 | the branch sequence on the packet index decides as the index rule does |
| TcpSockets.ReadParse | boost_network/tcp_socket.cpp:196-251 | the loop over the buffer in place computes the one-pass parser's messages, counter and verdict, and leaves the remainder at the front of the same storage |
| TcpSockets.TcpSocket.constructor | boost_network/tcp_socket.cpp:13-28 | a socket as it is made, with three separate buffers and no read under way |
| TcpSockets.TcpSocket.Read | boost_network/tcp_socket.cpp:38-41 | the first read is under way, which makes it the socket that runs start with |
| TcpSockets.TcpSocket.DoClose | boost_network/tcp_socket.cpp:163-177 | closes once, and calls back only then and only if callbacks are on |
| TcpSockets.TcpSocket.DoWrite | boost_network/tcp_socket.cpp:124-161 | starts the one send with the two physical buffers swapped, or posts the final close when nothing is left |
| TcpSockets.TcpSocket.WriteHandler | boost_network/tcp_socket.cpp:43-85 | the write step, whenever the length does not wrap; the bytes of the send in flight are untouched |
| TcpSockets.TcpSocket.RoomEnough | boost_network/buffer.cpp:14-19 | with an unsent backlog one block below 4 GiB the length does not wrap |
| TcpSockets.TcpSocket.CloseHandler | boost_network/tcp_socket.cpp:87-98 | the close step: flag first, immediate close only when no send is under way |
| TcpSockets.TcpSocket.DoCloseHandler | boost_network/tcp_socket.cpp:134-136 | the posted final close, without callback |
| TcpSockets.TcpSocket.SentHandler | boost_network/tcp_socket.cpp:153-160 | the completion step: the whole buffer in flight counts as sent whatever the reported length, and the next send starts |
| TcpSockets.TcpSocket.SendFailedHandler | boost_network/tcp_socket.cpp:187-193 | a failed send closes, a cancelled one does nothing; the writing flag stays set |
| TcpSockets.TcpSocket.ReadHandler | boost_network/tcp_socket.cpp:100-122 | the read step with its order of checks: close flag, error, parse, next read; what its failures come to is in `SocketOutcomes.ReadsOrCloses` |
| TcpSockets.TcpSocket.RunTask | boost_network/tcp_socket.cpp:43-98 | running the oldest posted task is the model's task step |
| SocketModel.SendLedger | boost_network/tcp_socket.cpp:124-161 | in every run wire ++ in flight ++ idle is the encoding of the accepted packets if and only if every successful send of the run moved its whole buffer; not writing means both buffers are empty; accepted plus still-queued messages are the fitting ones posted, in order |
| SocketModel.LostExactly | boost_network/tcp_socket.cpp:153-160 | from any state a run loses no byte if and only if each of its successful sends is whole |
| SocketModel.PartialSendLoses | boost_network/tcp_socket.cpp:153-160 | a run of three events whose ledger fails: a message is written and its send succeeds without moving a byte |
| SocketModel.ReceiveWindow | boost_network/tcp_socket.cpp:100-122 | whenever a read is outstanding at most 65534 bytes are unread, so the never-grown buffer has room for at least 2 |
| SocketModel.CounterStays | boost_network/tcp_socket.cpp:226-243 | in every run a socket that counts keeps its counter in 1..254 |
| SocketModel.ReceivesStream | boost_network/tcp_socket.cpp:100-122 | in every run, whatever was sent and however it was cut, delivered messages and counter are those of one pass over all the bytes received; while reads go on those bytes are acceptable and the unread ones are what the pass leaves |
| SocketModel.RunIndices | boost_network/tcp_socket.cpp:226-243 | the k-th packet a counting socket takes in a run carries the k-th index of the cycle, and its counter stands at the next one |
| SocketModel.RunFromZero | boost_network/tcp_socket.cpp:226-243 | a socket that starts at 0 takes zeros, then the cycle from the first index that is not; after 255 it takes nothing |
| SocketOutcomes.WriteNumbers | boost_network/tcp_socket.cpp:43-82 | exactly a message of at most 65529 bytes written before the close handler is accepted: with its command and body, flag 2 or 0 for its zip bit, and the low byte of the counter as index |
| SocketOutcomes.AnswerIndex | boost_network/tcp_socket.cpp:72 | in every run of a counting socket a packet's index is the next of the cycle of 254 after the packets received so far, which the counter itself admits |
| SocketOutcomes.NumberedRun | boost_network/tcp_socket.cpp:72 | everything a counting socket ever accepts for sending has an index of 1 to 254 |
| SocketOutcomes.ReadsOrCloses | boost_network/tcp_socket.cpp:100-122 | in every run without a cancelled read an open socket not asked to close has a read outstanding: a failed read or a bad packet closes it |
| SocketOutcomes.SendsOrCloses | boost_network/tcp_socket.cpp:146-151 | in every run without a cancelled send an open socket that has started a send awaits it: a failed send closes it |
| SocketOutcomes.CancelKeeps | boost_network/tcp_socket.cpp:179-193 | a cancelled read or send changes nothing but that it is no longer awaited |
| SocketOutcomes.CloseInTurn | boost_network/tcp_socket.cpp:87-135 | a request to close is obeyed at once unless a send is under way; with nothing left to send, a completed send queues the close behind what is queued |
| SocketOutcomes.ToldOnce | boost_network/tcp_socket.cpp:163-177 | in every run the acceptor is told of a close at most once, never before it, and exactly once if nobody asked for it |
| SocketOutcomes.RequestTellsNobody | boost_network/tcp_socket.cpp:94-135 | from the close handler on the acceptor is told if and only if a send fails before the socket has closed |
| SocketModel.FlightStable | boost_network/tcp_socket.cpp:140-147 | while a send is outstanding no event changes the bytes it was given |
| SocketModel.ClosingRefuses | boost_network/tcp_socket.cpp:46-49 | after the close handler nothing is accepted for sending and nothing delivered, in every run |
| SocketModel.DrainBeforeClose | single_server/sentry/sentry_manager.hpp:34-37 | in a run without failures the socket is closed only once every fitting message posted before close() is on the wire, whole and in order |
| SocketModel.AtMostTwoCompletions | boost_network/tcp_socket.cpp:124-161 | after the close handler at most two sends complete, exactly as many as are counted off; with none left the socket is closed or its final close is queued |
| SocketModel.CloseCompletes | boost_network/tcp_socket.cpp:87-98 | from every draining state the network and the strand can bring the close to its end, by the number of sends left |
| EndToEnd.EndToEndRoundTrip | boost_network/tcp_socket.cpp:43-251 | two connected sockets starting at index 0, any interleaving and any chunking, partial sends excluded: in both directions deliveries are a prefix of what the peer accepted, equal once all bytes are read, and both counters stay 0 |
| EndToEnd.CloseDeliversAll | single_server/sentry/sentry_manager.cpp:21-29 | posting messages and closing at once loses none: when the closed side's wire has been read to its end the peer was delivered exactly the fitting messages posted before the close |
| Acceptors.Acceptor.Find | boost_network/acceptor.cpp:41-46 | the first position of the socket, or the end if it is nowhere |
| Acceptors.Acceptor.ActiveHandler | boost_network/acceptor.cpp:34-54 | a registered socket is closed and removed without a report; an unknown one is left alone |
| Acceptors.Acceptor.PassiveHandler | boost_network/acceptor.cpp:56-76 | a registered socket is reported once and removed; an unknown one is left alone |
| Acceptors.Acceptor.ClearHandler | boost_network/acceptor.cpp:111-122 | every registered socket is closed, in order, and the registry is empty |
| Acceptors.Acceptor.AcceptHandler | boost_network/acceptor.cpp:124-150 | an accepted socket joins the end of the registry, is announced and gets its first read, and the next accept is started; an error only starts the next accept; an aborted accept or a closed acceptor does neither |
| Acceptors.Acceptor.StopHandler | boost_network/acceptor.cpp:97-109 | the acceptor is closed, and nothing else changes |
| Acceptors.ClosedTakesNone | boost_network/acceptor.cpp:124-132 | a closed acceptor announces no further socket in any continuation |
| Acceptors.NextIsTaken | boost_network/acceptor.cpp:134-148 | in every run without a cancelled accept an open acceptor has an accept outstanding, and the next new client is registered last, announced and read from |
| Acceptors.FailedAccept | boost_network/acceptor.cpp:126-148 | a failed accept changes nothing, a cancelled one ends accepting |
| Acceptors.RemovalExactly | boost_network/acceptor.cpp:34-122 | on request a registered socket is told to close and is gone without a report; on its own close it is reported; clearing does the first to all; stopping closes the acceptor only |
| Acceptors.DropAt | boost_network/acceptor.cpp:50-52 | erasing the found position is removing the first entry of the socket, and changes no other |
| Acceptors.CloseProtocol | boost_network/acceptor.cpp:34-122 | over both strands and every interleaving: every socket is announced once, onClose at most once per socket and never for one removed on request, a closed registered socket has its removal queued, every accepted socket is in one place |
| Acceptors.ClosedIsReported | boost_network/acceptor.cpp:56-76 | once the acceptor has run its queue, every socket that had closed has been reported or had been removed on request |
| Acceptors.FailureIsReported | boost_network/tcp_socket.cpp:109-117 | a failed read or send of a registered socket, or bytes that are no packet, end in a report, or in a removal on request, once the acceptor has run its queue |
| SafeUnits.SafeUnit.Post | utils/scheduler_safe_unit.cpp:13-30 | the critical section is the uninterrupted post of the interleaving model, and keeps the unit's invariant |
| SafeUnits.SafeUnit.CancelUnits | utils/scheduler_safe_unit.cpp:52-61 | the same for cancel; the flag goes up after the callback is queued |
| SafeUnits.SafeUnit.HandOff | utils/scheduler_safe_unit.cpp:40-49 | the lists change places and the unit sleeps or asks for another turn |
| SafeUnits.SafeUnit.DoComplete | utils/scheduler_safe_unit.cpp:32-50 | runs exactly the batch, in order; what its closures post waits behind what was waiting; another turn is asked for if and only if something waits |
| SafeUnitModel.FifoOnce | utils/scheduler_safe_unit.cpp:13-50 | in every interleaving executed ++ rest of the batch ++ accessList ++ waitList is the accepted posts in lock order: each closure runs at most once and in turn |
| SafeUnitModel.Exclusive | utils/scheduler_safe_unit.cpp:21-50 | queued tokens plus threads holding one are 1 while access is set and 0 otherwise; closures never overlap; the unlocked swap races with nobody; pending work implies access |
| SafeUnitModel.CancelBarrier | utils/scheduler_safe_unit.cpp:13-61 | after a cancel nothing more is accepted in any continuation, and its callback runs once, after everything accepted before it and before nothing |
| SafeUnitModel.NothingStalls | utils/scheduler_safe_unit.cpp:32-50 | from every reachable state the threads can, without any further post, run every accepted closure to its end and put the unit to sleep |
| SafeUnitModel.PostIsWhole | utils/scheduler_safe_unit.cpp:13-30 | the lock-level steps of one post, from outside or inside a closure, accepted or refused, amount uninterrupted to the whole critical section |
| SafeUnitModel.PostsAreTaken | utils/scheduler_safe_unit.cpp:13-19 | until a cancel is accepted no post is refused, from outside or inside a closure: it is the next closure accepted |
| SchedulerModel.ReactorToken | utils/scheduler_leader_follower.cpp:21-67 | from its first push on, reactor units in the queue plus workers inside reactorFunc are exactly 1 in every run, and 0 before; the unlocked list is empty whenever a worker enters |
| SchedulerModel.QueueConserves | utils/scheduler_list.cpp:21-55 | what was popped is a prefix of what was pushed, and every posted or polled task has been pushed once or is in the poller's list |
| SchedulerModel.WakeupNeverLost | utils/scheduler_list.cpp:5-40 | with single and batch pushes and spurious wakes, with and without a reactor unit, a non-empty queue means some worker is not blocked or a notify is still to come |
| SchedulerModel.IdleBlocks | utils/scheduler_list.cpp:5-15 | a worker that finds nothing blocks, unless work comes in before it looks again |
| SchedulerModel.WorkIsReached | utils/scheduler_leader_follower.cpp:43-58 | whenever there is work some worker can take the oldest task within five of its own steps |
| UnitScheduling.RunOfEach | utils/scheduler_safe_unit.cpp:21-50 | a run of the unit on the scheduler is a run of the unit and a run of the scheduler, so every result about either holds of both together |
| UnitScheduling.TokenIsTask | utils/scheduler_safe_unit.cpp:21-50 | in every run the unit's tokens are the copies of its task in the scheduler, at most one; only a worker that has taken that task is inside doComplete |
| UnitScheduling.WorkersFinish | utils/scheduler_leader_follower.cpp:43-58 | from every reachable state, once the thread in the critical section has left it, the workers alone run every accepted closure to its end and put the unit to sleep, whatever is queued before its task |
| Schedulers.SchedulerList.PushWithNotify | utils/scheduler_list.cpp:21-27 | one unit joins the tail, one notify |
| Schedulers.SchedulerList.PushBatchWithNotify | utils/scheduler_list.cpp:34-40 | the whole batch joins the tail in order, the caller's list is empty, one notify |
| Schedulers.SchedulerList.GetTask | utils/scheduler_list.cpp:47-55 | the oldest unit, or none and no change |
| Schedulers.SchedulerList.GetTaskList | utils/scheduler_list.cpp:57-60 | the caller's list and the queue change places |
| Schedulers.SchedulerLF.Start | utils/scheduler_leader_follower.cpp:21-29 | the model's start step in the mode with a reactor, nothing in the other |
| Schedulers.SchedulerLF.Post | utils/scheduler_leader_follower.cpp:36-41 | the model's post step |
| Schedulers.SchedulerLF.ReactorFunc | utils/scheduler_leader_follower.cpp:60-67 | the model's poll, fill and splice in that order: the queue ends with the polled tasks in their order and then the reactor unit |
| Schedulers.SchedulerLF.Take | utils/scheduler_leader_follower.cpp:46-56 | the model's take step, with the branch to the reactor, a task or waiting |
| CombatModel.TicksLeast | logic_work/battle/combat.cpp:286-289 | a unit's ticks are the least number that fills its bar |
| CombatModel.AllDeadExactly | logic_work/battle/combat.cpp:525-538 | the loop's verdict is that every unit of the camp has 0 hit points |
| CombatTheorems.TicksExact | logic_work/battle/combat.cpp:270-294 | a tick count below the sentinel suffices for some living unit, and one tick less suffices for none |
| CombatTheorems.NoTicksExactly | logic_work/battle/combat.cpp:291-294 | no tick count is found if and only if no living unit that moves would reach the bar within 99998 ticks |
| CombatTheorems.NotSlowRuns | logic_work/battle/combat.cpp:270-294 | one is found whenever somebody moves and nobody who moves takes 99999 ticks or more from an empty bar |
| CombatTheorems.RunExact | logic_work/battle/combat.cpp:296-325 | a run conserves bar plus overflow up to ticks times speed, keeps totals below the bar plus the unit's own speed, leaves the dead alone, and readies somebody |
| CombatTheorems.PickIsGreatest | logic_work/battle/combat.cpp:318-348 | the operating unit is the one ready unit greatest by total, then camp, then uid; there is one if and only if somebody is ready |
| CombatTheorems.FloatCeilIsExact | logic_work/battle/combat.cpp:286 | the ceiling of the single-precision quotient is the whole-number ceiling for every distance below 2^24 |
| CombatTheorems.AttackIsExact | logic_work/battle/combat_calc.cpp:110 | attack times 1.5, rounded to single precision, is the exact product up to 5592405 and truncates to three halves |
| CombatModel.DamageIs | logic_work/battle/combat_calc.cpp:110 | the damage is the whole part of 1.5 times the attack less the defence, or 0 |
| CombatBattle.TurnExists | logic_work/battle/combat.cpp:109-121 | whenever a tick count is found there is an operating unit, one that moves, and with both camps alive it has a living enemy |
| CombatBattle.TurnExact | logic_work/battle/combat.cpp:171-206 | one round lowers the hit points of at most one unit, of camp 2 if the operating unit is of camp 1 and of camp 1 otherwise, by the whole part of 1.5 times the attack less the defence, or to zero, of one exactly while both camps are alive; the operating unit moves, survives and restarts with its excess, below its own speed |
| CombatBattle.TurnInSinglePrecision | logic_work/battle/combat_calc.cpp:110 | the loss is the same with the product rounded to single precision, for every rounding and attacks up to 5592405 |
| CombatBattle.TurnKeepsScope | logic_work/battle/combat.cpp:99-215 | a round leaves units that the next round can be played with |
| CombatBattle.TurnAt | logic_work/battle/combat.cpp:200-215 | every turn of a battle starts where the one before ended, and from the second on not after the fight was decided |
| CombatBattle.BattleScoped | logic_work/battle/combat.cpp:99-215 | however many rounds have been played, everybody alive is below the bar plus its own speed, nobody is lost, added, changed in an attribute or brought back to life |
| CombatBattle.TurnScoped | logic_work/battle/combat.cpp:99-215 | every turn of every battle has every invariant of the speed bar, and from the second on both camps alive at its start |
| CombatBattle.MoverRemains | logic_work/battle/combat.cpp:99-215 | a fight that starts with a unit that moves has one alive after every round |
| CombatBattle.NeverSlowNeverStuck | logic_work/battle/combat.cpp:291-294 | when nobody who moves takes 99999 ticks or more from an empty bar, every round of the fight finds a tick count |
| CombatBattle.BattleFits | logic_work/battle/combat.cpp:286-306 | in scope every number a round computes stays within 32 bits, every distance divided below 2^24, every attack within what single precision keeps |
| CombatBattle.BattleEnds | logic_work/battle/combat.cpp:99-215 | every fight in progress can be played on, within 99 rounds, until it is decided or finds no tick count |
| CombatBattle.VerdictExact | logic_work/battle/combat.cpp:461-478 | after 1 to 99 rounds the verdict is exactly which of the camps 1 and 2 is dead, or both, or timeout at round 99 with both alive; both only if some unit is of another camp |
| CombatBattle.NoEnemyOneRound | logic_work/battle/combat.cpp:461-478 | without living units in both of the camps 1 and 2 the fight is over after one round |
| CombatBattle.SameTurns | logic_work/battle/combat.cpp:484-508 | nothing but the targets is left to chance: fights from the same start that agree on them take the same turns |
| CombatBattle.ReadyActsSoon | logic_work/battle/combat.cpp:200-215 | a ready unit acts, dies, or sees the record end within as many rounds as there are ready units |
| CombatBattle.NobodyTwice | logic_work/battle/combat.cpp:200-348 | nobody acts twice while another living ready unit waits |
| CombatBattle.BattleGrows | logic_work/battle/combat.cpp:200-215 | a round played out extends the battle by one turn |
| CombatUnits.BattleUnit.constructor | logic_work/battle/battle_unit.cpp:9-20 | hit points, attack, defence and speed from attributes 1 to 4, a missing one as 0, and empty bars |
| CombatUnits.CampUnit.constructor | logic_work/battle/camp_unit.cpp:3-12 | a user, kind 2, has to load and to act, anything else is ready and automatic |
| CombatUnits.LeastTicks | logic_work/battle/combat.cpp:271-290 | the loop finds the least tick count among living units that move |
| CombatUnits.MoveUnit | logic_work/battle/combat.cpp:305-312 | the bar is capped and the excess carried |
| CombatUnits.CompareSpeedBar | logic_work/battle/combat.cpp:327-348 | decides by total, camp and uid, the order whose greatest element the run picks; nobody gives way to anybody |
| CombatUnits.MoveAll | logic_work/battle/combat.cpp:296-325 | every living unit has moved, no unit moved twice, and the operating unit is the one picked from the moved units |
| CombatUnits.AliveByCamp | logic_work/battle/combat.cpp:510-523 | exactly the living units of the camp, each once, in the order of the map |
| CombatUnits.IsAllDead | logic_work/battle/combat.cpp:525-538 | true if and only if the camp has no living unit |
| CombatUnits.FindUnit | logic_work/battle/combat.cpp:350-356 | the unit with the uid, or none has it |
| CombatUnits.RandBetween | utils/rand.cpp:52-60 | some number of the range, both ends included |
| CombatUnits.ElementNormalAtk | logic_work/battle/combat_calc.cpp:97-115 | the target loses the whole part of 1.5 times the attack less its defence, at most all it has, and nothing else changes |
| CombatUnits.StrikeIsHit | logic_work/battle/combat_calc.cpp:75-82 | striking a unit by its uid hits that unit and no other |
| CombatUnits.DoOperate | logic_work/battle/combat_calc.cpp:48-95 | skill 1 strikes once per target, in order; any other skill does nothing |
| CombatRoster.PlaceKeeps | logic_work/battle/combat.cpp:28-31 | putting a unit into the map keeps every entry with another key and adds only the unit |
| CombatRoster.PlaceHolds | logic_work/battle/combat.cpp:28-31 | the map stays ordered, and holds exactly the units listed last under their uid |
| CombatRoster.EveryoneListed | logic_work/battle/combat.cpp:23-29 | a unit is of the data if and only if some camp lists it: that uid, that camp, its four attributes, and empty bars |
| CombatRoster.ScopeStarts | logic_work/battle/combat.cpp:19-33 | initial data in scope, once in the map, are units a fight can start with: still or dead ones included |
| CombatRoster.StartIsBattle | logic_work/battle/combat.cpp:78-97 | with a bar of seven times the highest living speed these units are a fight within the exact range whose first run finds a tick count |
| Combats.Combat.CheckInit | logic_work/battle/combat.cpp:378-399 | accepts exactly two different camps that both have units |
| Combats.Combat.InitSpeedBar | logic_work/battle/combat.cpp:248-268 | seven times the highest speed among the living; refused if and only if nobody moves |
| Combats.Combat.RunSpeedBar | logic_work/battle/combat.cpp:270-325 | one run on the objects is one run on the values, and picks the operating unit; without a tick count neither a unit nor the operating unit changes |
| Combats.Combat.GetDefaultSkillTarget | logic_work/battle/combat.cpp:484-508 | one uid, of some living enemy; nobody for another skill, without an operating unit, and exactly when no enemy is alive |
| Combats.Combat.AutoFight | logic_work/battle/combat.cpp:136-169 | in the waiting state of a round the operating unit is told to strike a living enemy, if there is one, and its camp is done, unless a user has to choose; in every other case nothing changes |
| Combats.Combat.RoundStart | logic_work/battle/combat.cpp:99-134 | from any fight in progress, robots play on, keeping the turns played, until END with a recorded battle and its verdict or until a run finds no tick count; if the first run finds none the fight breaks at once with no further turn; with a user it stops in this round at a stated point, with a unit to act exactly if a tick count was found |
| Combats.Combat.RoundFight | logic_work/battle/combat.cpp:171-198 | the same from the moment the operation is given; without an operating unit a fight among robots breaks |
| Combats.Combat.RoundEnd | logic_work/battle/combat.cpp:200-215 | the same from the end of a round: the null dereference happens here exactly if there is no operating unit, or in a later round |
| Combats.Combat.CheckCombatEnd | logic_work/battle/combat.cpp:461-478 | ends if and only if the verdict on the units and the round is settled, and records that verdict |
| Combats.Combat.CheckRoundStart | logic_work/battle/combat.cpp:401-417 | true exactly in the loading step with every camp loaded |
| Combats.Combat.StepLoadingEnd | logic_work/battle/combat.cpp:78-97 | starts the fight from the units as they are, its first round always with an operating unit, or refuses without touching them when nobody moves |
| Combats.Combat.SetLoadingEnd | logic_work/battle/combat.cpp:50-66 | refused without a change for an unknown uid or after loading; otherwise that camp and no other becomes ready, and the fight starts with the last camp |
| Combats.Combat.Init | logic_work/battle/combat.cpp:19-48 | every outcome of set-up: refused data, without a change; users to wait for; refused exactly when nobody moves; otherwise a fight among robots of the units of the data that is over when it returns or has been left without an operating unit, which never happens when the data have nobody too slow |
| Combats.Combat.NeverBroken | logic_work/battle/combat.cpp:200-202 | when 7 times the highest living speed is within 99998 times every speed that is not 0, no null operating unit is dereferenced, whatever the targets |
| Combats.Combat.BrokenExactly | logic_work/battle/combat.cpp:200-294 | a fight that has stopped was left without an operating unit if and only if nobody has won it and all its living units that move, of which there are some, need more than 99998 ticks |
| Combats.Combat.StopsThere | logic_work/battle/combat.cpp:200-202 | a fight that draws the targets of a battle without a tick count at its end breaks there, after the same turns |
| CombatStuck.PlayLadder | logic_work/battle/combat.cpp:200-202 | a fight on the objects from accepted data in scope: when it draws the targets of a given battle of 29 rounds, a null operating unit is dereferenced after them |
| CombatStuck.LadderExactly | logic_work/battle/combat.cpp:270-325 | with units of speed 1, 2, 4 up to 2^n in camp 1 and, in camp 2, of each of these but the highest and one that never moves, some fight is left without an operating unit if and only if n is at least 14 |
| CombatStuck.FirstOfPair | logic_work/battle/combat.cpp:270-348 | the first of two rounds: the fastest unit of camp 1 dies, the totals of all slower ones double, and the next of camp 1 stands ready |
| CombatStuck.SecondOfPair | logic_work/battle/combat.cpp:270-348 | the second: without a further tick that unit kills the one of camp 2 that has just acted, and is the fastest now |
| Combats.Combat.OverVerdict | logic_work/battle/combat.cpp:217-246 | the stored result of a finished fight is the truth about its units, and never that all are dead when all are of camps 1 and 2 |
| NineGrid.SectorsCover | logic_work/aoi_nine/nine_map.cpp:13-16 | the sectors cover an axis if and only if the 32-bit rounding does not wrap, and one fewer would not |
| NineGrid.KeysDistinctExactly | logic_work/aoi_nine/nine_map.cpp:22 | cells have distinct keys if and only if the sector count fits 32 bits |
| NineGrid.KeysNear | logic_work/aoi_nine/nine_map.cpp:22 | cells within three rows and columns of each other have distinct keys however large the map |
| NineGrid.SectorsNarrow | logic_work/aoi_nine/nine_map.cpp:13-16 | every grid whose size the construction computes is narrow enough for that |
| NineGrid.NineIsSquare | logic_work/aoi_nine/nine_map.cpp:23-35 | the nine-list of a cell is its 3x3 square clipped to the map |
| NineGrid.InCoordinates | logic_work/aoi_nine/nine_common.hpp:15-42 | in coordinates and row-major numbers: the nine-list is the 3x3 square, the direct list of a direction the side it faces (up is smaller y, right is greater x), the reverse list the side behind |
| NineGrid.InOrder | logic_work/aoi_nine/nine_map.cpp:23-60 | the lists entry by entry, each starting and running round as the offset table does |
| NineGrid.StepTo | logic_work/aoi_nine/nine_common.hpp:26 | where a step in each direction leads |
| NineGrid.AheadIsNew | logic_work/aoi_nine/nine_map.cpp:38-58 | the three or five directions of a move are exactly those the old centre did not see |
| NineGrid.MoveDeltas | logic_work/aoi_nine/nine_map.cpp:36-88 | for every move on a map of any size the direct list is nine(new) minus nine(old) and the reverse list nine(old) minus nine(new) |
| NineGrid.NoRepeats | logic_work/aoi_nine/nine_map.cpp:23-88 | no list repeats a cell |
| NineGrid.DirectIsOppositeReverse | logic_work/aoi_nine/nine_map.cpp:36-88 | the direct list of a direction is, as a list, the reverse list of the opposite one |
| NineGrid.TrackIsNine | logic_work/aoi_nine/nine_map.cpp:36-88 | folding the two lists along any walk gives the nine-list of its end, on a map of any size |
| NineMaps.RowsComplete | logic_work/aoi_nine/nine_map.cpp:20-90 | inserting the cells row by row leaves in each of the seventeen tables exactly the old entries and one list per cell, whenever keys are distinct |
| NineMaps.NineMap.NineCell | logic_work/aoi_nine/nine_map.cpp:23-35 | the loop over the index array with its bounds test yields the specified list |
| NineMaps.NineMap.DirectCell | logic_work/aoi_nine/nine_map.cpp:39-59 | the same for the direct list of one direction, which `NineGrid.InCoordinates` and `NineGrid.InOrder` give in coordinates |
| NineMaps.NineMap.ReverseCell | logic_work/aoi_nine/nine_map.cpp:66-86 | the same for the reverse list, likewise given in coordinates |
| NineMaps.NineMap.Init | logic_work/aoi_nine/nine_map.cpp:7-93 | the nested loops insert every cell once, so every cell of every map with distinct keys has its lists in all seventeen tables, entries of an earlier call excepted |
| NineMaps.TablesInCoordinates | logic_work/aoi_nine/nine_map.cpp:20-90 | filled from empty ones, the tables hold under y * width + x the square of that cell and, for each direction, the side it faces and the side behind |
| NineMaps.TablesServe | logic_work/aoi_nine/nine_map.cpp:7-93 | with tables filled from empty ones, following any walk on the map with the lists looked up for each step ends at the nine-list looked up for its last cell |

## Left out

- WriteHandler: asks for `Room`, that the 32-bit length does not wrap; what the code does after a wrap is writing past its storage, which has no defined behaviour to state. The length check that follows `reserve` never fires with room.
- PutPacket: asks for the same.
- RunTask: asks for the same of the write it runs.
- EndToEndRoundTrip: is about completed sends that move everything; what a partial send does to one socket is in `SendLedger`.
- WorkIsReached: says a worker can reach the task, not that a fair scheduler makes it.
- NothingStalls: says the threads can finish the work; which of them runs is not modelled.
- DoOperate: the configuration tables are constants, so the lookups of missing sets and elements are not there.
- AutoFight: a camp without a camp unit cannot occur among camps 1 and 2; that error branch returns without effect.
- Init: says nothing of speeds and attacks above the stated bounds, where single precision and 32 bits depart from whole numbers. Which fights among those with a unit too slow break depends on the random targets; given the targets it is exact.
- RoundEnd: what follows the null dereference is undefined in the code; the model stops there.
- WorkersFinish: says the workers can do it, not that a fair scheduler makes them; only the unit itself posts or polls its task.
- Scheduler shutdown and the wait before start: the wait predicate does not look at the stop flag, and only `init` sets it.
- The worker loop `run` is a sequence of steps of the model; only one turn of it is a method.
- A run of the speed bar is modelled in exact integers; that single precision agrees is proved separately, on what rounding guarantees rather than on bit patterns.
- The operating unit is a position in the unit map instead of a pointer; object lifetimes are not modelled.
- Commands of users in a fight (`setOperateSkill`, `setPlayEnd`), which do nothing yet.
- A second `init` of the nine-grid keeps old entries; the model says so but no more about it.
- Compression, encryption and the uid flag of packets; only the zip bit is carried.
- The fixed-size variant of the buffer, whose `reserve` does nothing.
- Connector reconnection, the epoll reactor, stream sockets, timers, databases, logging, clocks and signals.
