# Models of the Wi-Fi test suite's traffic generator, WMM-PS console and control agent

The repository drives Wi-Fi conformance tests: a control agent takes text commands, encodes them as
TLV packets and passes them to a device agent, whose traffic generator sends and receives numbered
frames from worker threads; a separate console plays the access-point side of the WMM power-save
tests. This project models the parts of it that carry state, arithmetic or a protocol, and proves
what they keep over whole runs. `dafny verify dfyconfig.toml` checks all of it.

| file | what it models |
|---|---|
| `CInt.dfy`, `Options.dfy` | C integer widths and division; an option type |
| `Miscs.dfy` | `wfa_itime_diff` and the big-endian integer codec |
| `Traffic.dfy`, `TimeDebt.dfy`, `PacedRun.dfy` | streams, statistics, frames on the wire, the time debt, what a run of a paced sender looks like from outside |
| `BurstSender.dfy`, `BitrateSender.dfy` | `wfaSendBurstData`, `wfaSendBitrateData` |
| `LongFileSender.dfy` | `wfaSendLongFile`, `wfaTxSleepTime`, `buzz_time` |
| `Receiver.dfy` | `wfaRecvFile`, and sender, channel and receiver composed |
| `StreamTable.dfy` | the stream table: configuring, looking up, starting, resetting, reporting |
| `Handoff.dfy`, `HandoffFate.dfy`, `HandoffRounds.dfy`, `HandoffRuns.dfy` | the hand-off of a stream id to a worker thread, as interleaved steps; what becomes of a started id; new rounds after a reset or an alarm; runs that go wrong |
| `ConsoleScript.dfy`, `Console.dfy` | the console's scripts and checks; its receive loop and state handlers, in place and as a step function |
| `ConsoleMatching.dfy`, `ConsoleTables.dfy`, `ConsoleCyclic.dfy`, `ConsoleNumbers.dfy`, `ConsoleExits.dfy` | runs of the console: one station (every test but L.1), the tables (every test), several stations (L.1), what the frames carry, how a run ends and begins again |
| `Tlv.dfy`, `ResponseDrain.dfy` | TLV packets; the control agent's drain loop over its receive buffer |
| `StreamCommand.dfy` | a stream-id list from command text to the traffic generator |

Code that works in place is modelled by methods and classes (`TrafficGenerator`, `ConsoleProcess`,
`ControlAgent`, the sending loops) that are proved against step functions; the theorems are about
those functions over all runs. The console's state handlers (console_src/wfa_sndrcv.c:35-634) are the
`Rcv...` methods of `ConsoleProcess` and its `AwaitStop`, its helpers (console_src/wfa_util.c:229-297,
404-446) the methods they call; each is proved to do what `Console.Handle` says, and `Step` and `Serve`
put them together. The clock and the outcomes of calls are parameters: every `sendto`
may fail and take any time, every sleep may be late (`late` for the paced senders, an arbitrary lag
on every clock reading for the long-file sender), and a channel may drop any frames.

Where the code does something else than its comments or its evident purpose, the model follows the
code and a lemma says exactly when the two agree:

- the bitrate sender subtracts the debt where the burst sender adds it (`RepayOnScheduleIff`, `RepayProlongs`), and its bitrate test
  does not count the frame it sends beyond its rate (`BitrateWithinLimit`), nor the burst sender's a part of a period (`BurstWithinLimit`);
- the long-file sender takes back a frame it never counted when `sendto` is busy (`TxFramesExactIff`);
- a rate below 50 that does not divide a million, and every multicast rate, is exceeded by the pace (`KeepsRateIff`);
- `traffic_agent_receive_start` resets the statistics but not `lastPktSN` (`LossIsExactIffFresh`);
- a generator reset clears as many bytes of the stream table as it has records, so stale streams are still found (`StaleLookup`);
- an alarm before a started id has been read drops it, one after the setter has read `usedThread` can lose the
  wakeup, and one while it locks or holds the mutex makes it unlock another (`IdSurvivesIff`,
  `AlarmDropsIffUnread`, `WakeupLostIff`, `UndefinedUnlockIff`, and the runs in `HandoffRuns.dfy`);
- the console registers a station again after a reset without correcting its running count (`ReregistrationDrifts`);
- the receive branch clears the bytes of a packet it has received in part (`ReceiveKeepsStreamIff`, `SessionFollowsStreamIff`, `CutAfterHeader`), and a
  packet without a value waits for the next byte (`EncodedResponsesAreDispatched`);
- decoding passes over values of 640 bytes and more with success (`DecodeUndoesEncode`, `StreamIdRoundTrip`).

## Model

| member | source | states |
|---|---|---|
| Miscs.ITimeDiffExactIff | lib/wfa_miscs.c:121-152 | on times with tv_usec in [0,1000000], the pacer's loose form, the difference is max(0, t2 - t1) in microseconds if and only if that fits an int |
| Miscs.ITimeDiffNeverOver | lib/wfa_miscs.c:121-152 | whatever the span, the measured difference never exceeds it, and is negative only if it does not fit an int |
| Miscs.Elapsed | lib/wfa_miscs.c:121-152 | measuring two clock readings gives the true span exactly if that fits an int |
| Miscs.BigEndianRoundTrip | lib/wfa_miscs.c:158-179 | decoding undoes encoding for every int |
| Miscs.BigEndianOnto | lib/wfa_miscs.c:158-179 | encoding undoes decoding for every four bytes |
| Miscs.BigEndianDigits | lib/wfa_miscs.c:158-166 | the four bytes are the digits of the unsigned value in base 256, the highest first |
| Miscs.Int2BuffBigEndian | lib/wfa_miscs.c:158-166 | writes the four bytes in place and leaves the rest of the buffer alone |
| Traffic.StampHeader | lib/wfa_tg.c:1619-1628 | the header on the wire carries exactly the counter and the timestamp, big-endian |
| Traffic.WireReads | lib/wfa_tg.c:1623-1630 | read back, the twelve header bytes are the sequence number, the second and the microsecond of the frame, in this order |
| Traffic.TrySend | lib/wfa_tg.c:1618-1647 | one trip through the inner loop: the header gets the counter and the present instant; a success appends the frame with that number and instant and counts it, a failure changes nothing but the time |
| Traffic.CreditTotals | lib/wfa_tg.c:1635-1637 | after a list of sent sizes txFrames has grown by their number, modulo 2^32, and txPayloadBytes by their sum |
| Traffic.StampsAscend | lib/wfa_tg.c:1616-1650 | stamped at the end of the time spent before their attempts, frames leave in order, none before the start and none after the end |
| TimeDebt.DebtIsLargestSuffixExcess | lib/wfa_tg.c:1653-1681 | the debt is the maximum over all suffixes of the run, the empty one included, of the summed excess over the period |
| BurstSender.SendBurst | lib/wfa_tg.c:1616-1650 | whatever sends fail, a burst ends with exactly burstfrags frames, numbered on from the counter, each stamped with the start plus the time spent on all attempts before its own; the statistics and the clock account for every attempt |
| BurstSender.EndOfBurst | lib/wfa_tg.c:1653-1701 | in all four branches the new debt is max(0, debt + d - P), and burst plus sleep last P plus the change of the debt, or at most 1 ms more |
| BurstSender.SendBurstData | lib/wfa_tg.c:1547-1701 | refuses exactly the parameters the checks refuse; every other run, stopped anywhere, conforms |
| BurstSender.BurstPacing | lib/wfa_tg.c:1612-1701 | after n bursts the elapsed time is at least n*P + debt, whatever fails and however late the sleeps, and at most 1000*n us plus their lateness more; the debt is the largest suffix excess |
| BurstSender.BurstFramesPaced | lib/wfa_tg.c:1612-1701 | the frames of a run leave in order, and frame j leaves no earlier than t0 + k*P plus the debt of k = j / burstfrags bursts, and no later than the end of its own burst, which is bounded in the same terms |
| BurstSender.OverSendIff | lib/wfa_tg.c:1690-1699 | the over-send guard ends a run if and only if 1001 bursts ended with time to spare after the configured duration, hence never before 1000 periods more than that |
| BurstSender.BurstWithinLimit | lib/wfa_tg.c:1547-1611 | an accepted run whose frames are at most pksize long never sends more than 26214400 bits a second over its completed periods, a second counting as the whole periods it holds: all of it if the period divides it, none of it if the period is longer |
| BurstSender.BurstGapFree | lib/wfa_tg.c:1616-1650 | the frames of a run carry 1, 2, ..., N without gap or repeat; after k bursts N = k * burstfrags, inside a burst fewer than burstfrags more; txFrames and txPayloadBytes grow by exactly what left |
| BitrateSender.SendSecond | lib/wfa_tg.c:1421-1466 | whatever sends fail, a second ends with exactly rate + 1 frames, each stamped with the start plus the time spent on the attempts and rests before it; from rate 50 on with one 10 ms rest for every multiple of rate / 50 reached, below it with one for every attempt after which exactly one frame has been sent |
| BitrateSender.EndOfSecond | lib/wfa_tg.c:1469-1511 | the debt moves as in the burst sender, in unsigned 64-bit arithmetic; the second is on schedule within 5 ms but for the exact drift of the branch that pays a debt back |
| BitrateSender.RepayOnScheduleIff | lib/wfa_tg.c:1494-1508 | paying a debt back keeps the schedule if and only if the debt is small (or exactly what is left of the second and more than was measured) |
| BitrateSender.RepayProlongs | lib/wfa_tg.c:1469-1511 | two seconds in a row, the first leaving a debt of 0.3 s and the second paying it back, take 2.6 s |
| BitrateSender.SendBitrateData | lib/wfa_tg.c:1340-1518 | refuses exactly the parameters the checks refuse; every other run, stopped anywhere, conforms |
| BitrateSender.BitratePacing | lib/wfa_tg.c:1416-1516 | for every run whose seconds fit an int the debt is the largest suffix excess, and the elapsed time is n seconds, the debt and the summed drift of the repayments, and at most 5 ms a second and the lateness of the sleeps more; without repayments the drift is 0 |
| BitrateSender.BitrateFramesPaced | lib/wfa_tg.c:1416-1516 | the frames of a run leave in order, and for seconds that fit an int frame j leaves no earlier than k = j / (rate + 1) seconds, their debt and the drift of their repayments allow, and no later than its second's frames are all sent |
| BitrateSender.BitrateWithinLimit | lib/wfa_tg.c:1340-1415 | an accepted run whose frames are at most pksize long sends at most 26214400 bits and one frame more in a second |
| BitrateSender.BitrateGapFree | lib/wfa_tg.c:1421-1466 | the frames of a run carry 1, 2, ..., N; after k seconds N = k * (rate + 1); the statistics grow by exactly what left |
| LongFileSender.BuzzTime | lib/wfa_tg.c:907-928 | a spin that ends lasts no shorter than the delay asked for, on any clock that does not run backwards, standing still or jumping ahead, with the difference cut to an int |
| LongFileSender.WaitForDeadline | lib/wfa_tg.c:1048-1062 | sleeping and spinning together never return before the deadline |
| LongFileSender.AwaitTurn | lib/wfa_tg.c:1019-1071 | a throttled trip waits for its deadline, which moves on one interval through the loose renormalisation; any other goes on at once |
| LongFileSender.Settle | lib/wfa_tg.c:1081-1110 | what each outcome of sendto does to the counter, the statistics, runLoop and the clock |
| LongFileSender.SendLongFile | lib/wfa_tg.c:935-1113 | the loop makes a legal run: its trips have possible clock readings; it stays on pace and is tallied exactly |
| LongFileSender.RunsAreOnPace | lib/wfa_tg.c:1018-1113 | every legal run, with any outcomes and any possible clock readings, stays on pace |
| LongFileSender.TxFramesExactIff | lib/wfa_tg.c:1084-1101 | txFrames is the number of frames sent if and only if no attempt was busy; txPayloadBytes is the sum of their sizes in any case |
| LongFileSender.NoFrameEarly | lib/wfa_tg.c:1018-1113 | frame c, tried or sent, leaves no earlier than c / throttledRate intervals after the first reading of the clock, and one that was sent no earlier than that after the last setting of the first deadline, which busy attempts before any frame put off |
| LongFileSender.ThrottleBound | lib/wfa_tg.c:1018-1113 | by time t at most throttledRate frames a whole interval and throttledRate - 1 more have left |
| LongFileSender.ConfiguredRate | lib/wfa_tg.c:838-902 | for IPTV, FILE_TX and BURST: at most rate * (t - t0) / 1000000 + rate / 50 - 1 frames by time t from rate 50 on, below it at most (t - t0) / (1000000 / rate) |
| LongFileSender.RateIsReached | lib/wfa_tg.c:838-902 | for every throttled configuration and every number of seconds s, some run has sent s seconds' frames by then: 50 * (rate / 50) a second for unicast from rate 50 on, rate below, 20000 at rate 0, 500 for multicast from 50 to 499 and 10 * abs(rate) otherwise |
| LongFileSender.RateIsBound | lib/wfa_tg.c:838-902 | and in s seconds no run sends more than that and 20 ms' worth less one, for multicast 100 ms' worth less one (for unicast below rate 50 the bound is ConfiguredRate) |
| LongFileSender.Unthrottled | lib/wfa_tg.c:838-902 | every other configuration is not throttled: some run sends any number of frames in no time |
| LongFileSender.KeepsRateIff | lib/wfa_tg.c:838-902 | in every run the frames sent by any time keep to the configured rate, but for one interval's worth, if and only if the profile is not multicast and the rate is at least 50 or divides a million |
| LongFileSender.ThrottleBoundIsMet | lib/wfa_tg.c:1018-1113 | the bound on the frames sent is exact: a run without delays meets it at the end of every interval |
| LongFileSender.ExcessGrows | lib/wfa_tg.c:838-902 | where the rate is not kept, some run exceeds it by any number of frames |
| LongFileSender.MulticastExceedsRate | lib/wfa_tg.c:858-868 | a multicast stream configured for 100 frames a second can send 549 in its first second |
| Receiver.RecvFile | lib/wfa_tg.c:1257-1322 | a packet advances the statistics and lastPktSN, an unknown stream or a timeout changes nothing |
| Receiver.PayloadIsSummed | lib/wfa_tg.c:1304-1305 | whatever arrives, rxPayloadBytes grows by the sum of the sizes |
| Receiver.ReceivedPlusLost | lib/wfa_tg.c:1301-1313 | whatever arrives, in any order and any number of times, rxFrames + lostPkts - lastPktSN is conserved modulo 2^32 |
| Receiver.InOrderLoss | lib/wfa_tg.c:1301-1313 | over an in-order channel lostPkts grows by exactly the missing sequence numbers, less the lastPktSN the stream started with |
| Receiver.LossIsExactIffFresh | lib/wfa_tg.c:402-410 | on reset statistics the loss is exact if and only if lastPktSN starts at 0, which receive-start does not see to |
| Receiver.EndToEnd | lib/wfa_tg.c:1301-1313 | on a freshly configured stream rxFrames + lostPkts = lastPktSN <= txFrames, lostPkts is the number of sequence numbers up to lastPktSN that never arrived, rxPayloadBytes is the sum of the sizes of the frames that arrived, and with the sizes of those that did not it is txPayloadBytes |
| Receiver.BurstEndToEnd | lib/wfa_tg.c:1616-1650 | the same for the burst sender composed with any in-order channel that drops frames and with the receiver |
| Receiver.BitrateEndToEnd | lib/wfa_tg.c:1421-1466 | the same for the bitrate sender |
| StreamTable.AllocatorSafety | lib/wfa_tg.c:319-353 | over all runs nonzero ids are distinct and at most streamId, and slots below slotCnt carry their own index and strictly increasing ids |
| StreamTable.LookupIffIssued | lib/wfa_tg.c:116-130 | lookup finds exactly the ids issued since the table was last emptied, each with its own profile |
| StreamTable.IdsAreConsecutive | lib/wfa_tg.c:319-353 | the id counter is the number of configurations and pings so far, whatever else happened |
| StreamTable.NewTable | lib/wfa_tg.c:325-345 | after a reset or a timeout n configurations fill the slots from the first on, starting over after every eight; exactly those since then are found, under the next ids in order and with their profiles, and every older id is forgotten |
| StreamTable.ConfiguredIsFresh | lib/wfa_tg.c:319-353 | a stream just configured is found, blank but for its profile, and a start makes it active with statistics of zero and lastPktSN 0 |
| StreamTable.StaleLookup | lib/wfa_tg.c:808-809 | whatever happens until the next configuration, every old stream is still found with its own profile, except the first one after a reset, which is found, and can be started, under id 0 |
| StreamTable.StartsLongestPrefix | lib/wfa_tg.c:652-748 | a start command starts the longest prefix of its list whose streams exist with the right direction, and starting does not change which those are |
| StreamTable.ReportsOnce | lib/wfa_thr.c:298-327 | what was reported is not reported again |
| StreamTable.ReportedIff | lib/wfa_thr.c:298-327 | a report holds exactly the used, active, sending streams with their statistics |
| StreamTable.StartIsReported | lib/wfa_thr.c:298-327 | in any run, after a start and any work of the threads, the report holds a stream with its present statistics if and only if it was started then or was sending before; they are zero before any work |
| StreamTable.TrafficGenerator.constructor | lib/wfa_thr.c:53 | the table starts empty |
| StreamTable.TrafficGenerator.FindStreamProfile | lib/wfa_tg.c:116-130 | the in-place loop finds the first slot with the id |
| StreamTable.TrafficGenerator.TGConfig | lib/wfa_tg.c:319-353 | configuring in place is the table's Config step and answers with the next id |
| StreamTable.TrafficGenerator.TGSendPing | lib/wfa_tg.c:164-166 | a ping uses up an id and touches no slot |
| StreamTable.TrafficGenerator.TGReset | lib/wfa_tg.c:808-809 | a reset empties the count and clears the first slot's id only |
| StreamTable.TrafficGenerator.TimeoutStopSend | lib/wfa_thr.c:126-130 | a timeout empties the count only |
| StreamTable.TrafficGenerator.TGStart | lib/wfa_tg.c:652-748 | starting a list in place is the table's Start step, and says how many were started |
| StreamTable.TrafficGenerator.SentStatsResp | lib/wfa_thr.c:298-327 | reports id and statistics of every active sending stream in slot order and marks all inactive |
| Handoff.WakeupLostIff | lib/wfa_tg.c:719-723 | in every interleaving, with any starts, resets, alarms and spurious wakeups, a worker in its wait with a nonzero flag still has its signal coming if and only if it is the first worker or no alarm struck between the setter's read of usedThread for the store and that for the signal |
| Handoff.UndefinedUnlockIff | lib/wfa_tg.c:720-722 | the setter unlocks a mutex it does not hold if and only if an alarm, resetting usedThread, struck between the evaluation of the lock's argument and that of the unlock's, for a worker other than the first, be it while the setter still waited; that worker's mutex then stays held |
| HandoffRuns.WakeupIsLost | lib/wfa_tg.c:719-723 | a run in which the alarm clears the flags between the read of usedThread and the store, and a worker ends up blocked with its id, the setter idle and no alarm running |
| HandoffRuns.UnlockIsUndefined | lib/wfa_tg.c:720-722 | a run in which the alarm strikes while the setter waits for a mutex, and the setter locks that one and unlocks another |
| HandoffFate.IdSurvivesIff | lib/wfa_tg.c:719-723 | from any state and along any schedule, with any alarms, resets and other starts, an id in a thread's flag survives if and only if neither the store of another id, nor the alarm, nor the end of the thread's previous work, nor the clearing after its previous read comes before its read; and it is taken up at most once |
| HandoffFate.AlarmDropsIffUnread | lib/wfa_thr.c:146-149 | the alarm's clearing of a flag loses the id in it if and only if the worker has not read it yet |
| HandoffRuns.AlarmDropsId | lib/wfa_thr.c:105-150 | a run in which the alarm drops the first started id before anybody reads it |
| HandoffFate.WorkerOrSetterCanStep | lib/wfa_thr.c:620-638 | no deadlock: a worker with a pending id that has to wait waits for the setter, and the setter can step |
| HandoffFate.PickedUpInThirteenRounds | lib/wfa_thr.c:620-638 | an id that is not dropped and whose signal was not missed is picked up within thirteen rounds in which its worker and the setter both get a turn, along any schedule without a new alarm, whatever the other threads do and however often the worker wakes spuriously |
| HandoffFate.PickedUpInFiveTurns | lib/wfa_thr.c:620-638 | once the setter is through with the worker, five turns of the worker are enough |
| HandoffFate.PickedUpExactlyOnce | lib/wfa_thr.c:620-638 | if no thread is re-targeted and no id is 0, every id stored in a flag is picked up exactly once, by its own worker: never twice, never by another, and for certain once worker and setter have had their turns |
| HandoffRounds.RoundIsOver | lib/wfa_thr.c:620-638 | once every started id of an undisturbed round was picked up and no thread is at work, all threads are on their way to the wait with clear flags |
| HandoffRounds.NewRound | lib/wfa_tg.c:790 | all threads being parked, however many starts they have seen, after a reset or a whole alarm and along any undisturbed schedule the k-th id stored goes to thread k, is picked up by it once at most and by no other, and has been picked up once worker and setter have had their turns |
| HandoffRounds.EightStartsInNewRound | lib/wfa_tg.c:790 | after that clean-up the next start is possible if and only if fewer than eight were made since, and aims at the next thread |
| HandoffRounds.NoNinthStart | lib/wfa_thr.c:126-149 | once all eight threads have been used a further start is possible if and only if a reset or an alarm came before it |
| ConsoleScript.ReplyIsCounted | console_src/wfa_sndrcv.c:35-634 | every handler raises msgno by the number of frames it sends, except for the test command answering a HELLO |
| ConsoleScript.Terminal | console_src/wfa_con.c:121-165 | every test's row is a HELLO handler, advancing handlers and then one that never advances: the cyclic one for L.1, the wait for a STOP for all others |
| Console.SlotOf | console_src/wfa_util.c:429-446 | the first slot holding the address, none if there is no such slot |
| Console.RunJoin | console_src/wfa_con.c:328-444 | running on is running from where the first part ended |
| Console.ConsoleProcess.Step | console_src/wfa_con.c:328-443 | one turn of the loop in place is one Next of the state, exit being final |
| Console.ConsoleProcess.Serve | console_src/wfa_con.c:328-444 | the loop over a list of datagrams is the run of Next over it |
| ConsoleMatching.GreedyIsLongestPrefix | console_src/wfa_sndrcv.c:35-634 | a prefix of a script is a subsequence of the messages exactly if it is no longer than what matching greedily finds |
| ConsoleMatching.StateIsLongestPrefix | console_src/wfa_con.c:328-444 | after the accepted HELLO the station's state is 1 plus the length of the longest prefix of the rest of the script that is a subsequence of everything received since |
| ConsoleMatching.OutputIsConserved | console_src/wfa_sndrcv.c:35-634 | the frames sent since the registration number msgno + 1; before the terminal state they are the fixed answers of the first `state` handlers, and in it one STOP more for every message answered |
| ConsoleMatching.BadHelloIsStuck | console_src/wfa_sndrcv.c:35-50 | a station whose HELLO failed the TOS check stays at state 0 forever and nothing is sent to it |
| ConsoleMatching.StopExitIff | console_src/wfa_sndrcv.c:613-634 | a running console exits through a STOP exactly on a STOP of class BE after the whole script was matched |
| ConsoleMatching.StopExitExplained | console_src/wfa_con.c:374-442 | every run that ended through a STOP registered a station, then matched the whole script, then received a STOP of class BE |
| ConsoleNumbers.FramesAreNumbered | console_src/wfa_sndrcv.c:35-634 | in every run with one station that is still going, the first frame since the registration is the test command and frame i carries number i; only the STOPs all carry the number of the first, or 0 where the last handler counts in the receive buffer |
| ConsoleNumbers.DataIsClassed | console_src/wfa_sndrcv.c:35-634 | the data frames sent have the classes that the handlers of the script so far are there to send, in order |
| ConsoleNumbers.FramesAreAddressed | console_src/wfa_sndrcv.c:35-634 | whatever other addresses send, every frame goes to the station that registered, or to all; data and stamped STOPs leave through a socket of their own class, and all STOPs through one of the test's last class |
| ConsoleNumbers.EchoesAreNumbered | console_src/wfa_sndrcv.c:114-183 | in every L.1 run without a reset the frames echoed to a station carry 1, 2, ..., msgno, all are of class VO, and every STOP, of class BE, carries the number of all frames echoed before it |
| ConsoleTables.GetStaIdInverts | console_src/wfa_util.c:404-446 | in every run of every test registered addresses are distinct, nonzero and a prefix of the table, get_sta_id finds each at its own index, and the next station takes the slot behind them |
| ConsoleTables.NoNullHandler | console_src/wfa_con.c:121-165 | in no run of any test is a null table entry called, and every station's state indexes its script |
| ConsoleCyclic.TallyIsTotal | console_src/wfa_sndrcv.c:126-139 | the sum up to the first free slot is the sum over the whole table |
| ConsoleCyclic.CountIsTotal | console_src/wfa_sndrcv.c:114-170 | in every L.1 run without a reset the running count is the sum of all stations' msgno, so recomputing it on a STOP changes nothing |
| ConsoleCyclic.ReregistrationDrifts | console_src/wfa_con.c:374-411 | registering again after a reset takes the station's msgno out of the sum and leaves the count: they agree on if and only if it was 0 |
| ConsoleCyclic.ResetFreezes | console_src/wfa_con.c:412-415 | while reset is set and no HELLO comes, over any number of datagrams, no station, count or can_quit changes and only RESETs are sent |
| ConsoleCyclic.SurvivesOneBadMessage | console_src/wfa_util.c:384-402 | each bad message costs two retries: a console back in its main loop has taken at most one, and it dies exactly when the RESET it sent for the second is answered |
| ConsoleCyclic.QuitNeedsTwoStops | console_src/wfa_util.c:404-428 | after a station registered in any slot but the first, a STOP-driven exit comes at the second STOP accepted from then on at the earliest |
| ConsoleExits.StopsOnSecondPending | console_src/wfa_sndrcv.c:139-170 | in every run of every test the console exits through a STOP exactly when it accepts one with another pending: the first one, or the second since another station registered (also lines 613-634) |
| ConsoleExits.StationEndsIt | console_src/wfa_con.c:425-437 | in every run of every test a registered station, and nobody else, ends the console with a RESET, answered by one RESET_RESP whatever resets went before, or with a RESET_STOP, answered by nothing |
| ConsoleExits.TwoResets | console_src/wfa_con.c:186-240 | the whole of a first bad message: a RESET to its sender, one more to whoever answers, the end of the waiting with the next answer, and nothing else, whatever comes in between (console_src/wfa_util.c:384-402) |
| ConsoleExits.EveryStopIsAnswered | console_src/wfa_sndrcv.c:126-170 | in every L.1 run as many STOPs are sent as are accepted |
| ConsoleExits.StartsOver | console_src/wfa_con.c:374-411 | a HELLO starts a station over, a new one or a known one after a reset: its HELLO and CONFIRM bring it to the cyclic handler, which echoes its next n frames as 1, ..., n, and no other station is touched |
| ConsoleExits.StationsAreCounted | console_src/wfa_con.c:400-407 | in every run of every test without a reset nsta is the number of registered stations |
| Tlv.PacketReadsBack | lib/wfa_tlv.c:42-53 | tag, length and value of an encoded packet are read back whatever follows it |
| Tlv.PacketBytes | lib/wfa_tlv.c:42-53 | tag and length stand on the wire low byte first, and the value as it is |
| Tlv.EncodeTLV | lib/wfa_tlv.c:42-53 | writes the packet in place and leaves the rest of the buffer alone; without a value only the header |
| Tlv.DecodeTLV | lib/wfa_tlv.c:63-84 | fails exactly if the given total is shorter than the value; copies values shorter than 640 bytes and passes over longer ones |
| Tlv.DecodeUndoesEncode | lib/wfa_tlv.c:42-84 | decoding gives tag and length back, and the value if and only if it is shorter than 640 bytes or was in the buffer already |
| ResponseDrain.NothingIsLost | ca/wfa_ca.c:355-384 | the packets taken followed by what is left are the input, and nothing that could be taken is left |
| ResponseDrain.CutsDoNotMatter | ca/wfa_ca.c:355-384 | with the bytes left over kept, draining a and then b is draining a + b, for all byte strings |
| ResponseDrain.EncodedResponsesAreDispatched | ca/wfa_ca.c:355-384 | a stream of encoded responses is dispatched response by response if and only if the last one carries a value |
| ResponseDrain.ReceiveKeepsStreamIff | ca/wfa_ca.c:340-345 | because the buffer is cleared, a receive continues the stream if and only if the bytes kept are all zero |
| ResponseDrain.SessionFollowsStream | ca/wfa_ca.c:335-385 | a session over chunks cut on packet boundaries, or with only zeros left over, handles exactly what the joined stream holds |
| ResponseDrain.SessionFollowsStreamIff | ca/wfa_ca.c:335-385 | after every chunk the packets taken and the bytes left are those of the stream if and only if the stream is cut only there |
| ResponseDrain.CutAfterHeader | ca/wfa_ca.c:335-385 | any response that arrives as a header and then its value is never handled, and its value is read as packets of its own |
| ResponseDrain.ControlAgent.TakePacket | ca/wfa_ca.c:357-383 | one turn of the loop calls the packet's handler, if there is one, and moves the rest to the front |
| ResponseDrain.ControlAgent.Drain | ca/wfa_ca.c:355-384 | the loop over the position handles the packets of the buffer and leaves the rest |
| ResponseDrain.ControlAgent.ReceiveBytes | ca/wfa_ca.c:335-384 | one receive in place: clearing, appending, draining; a failed one empties the buffer |
| StreamCommand.AgentCommand | lib/wfa_cmdproc.c:560-622 | accepts exactly the commands that start with the keyword, and encodes their ids in order (also lines 658-722 and 729-777) |
| StreamCommand.TokenOf | lib/wfa_cmdproc.c:580-593 | a word without the delimiter is one token, with more behind it or not |
| StreamCommand.ParsedRendered | lib/wfa_cmdproc.c:576-606 | parsing the rendering of a list of non-negative ints gives the list |
| StreamCommand.KeywordIff | lib/wfa_cmdproc.c:576-587 | any spelling of the keyword, each letter in either case, is accepted with the same ids, and any other word is refused |
| StreamCommand.AtoiOfNumber | lib/wfa_cmdproc.c:589-606 | a number with anything but a digit behind it counts as the number if that fits an int, as its low 32 bits if it fits a long, and as -1 beyond |
| StreamCommand.IdsOfWord | lib/wfa_cmdproc.c:589-606 | a word that does not start with a digit is passed over, and any other counts with its value |
| StreamCommand.Le32Digits | lib/wfa_cmdproc.c:600-606 | an id is written low byte first |
| StreamCommand.ReadsBack | lib/wfa_tg.c:663-667 | reading four bytes at a time gives back the ids that were written |
| StreamCommand.StreamIdRoundTrip | lib/wfa_tg.c:663-667 | rendering, parsing, encoding, decoding and reading a list that fits the buffer gives the same list in the same order if and only if it has fewer than 160 ids, or the buffer held the same already |

## Left out

- BurstSender.SendBurstData: the period in microseconds has to fit an int, and products of profile fields and the loop counters are unbounded; where they exceed an int the C code is undefined.
- BitrateSender.SendBitrateData: runs are at most 2^31 - 1 seconds long, and products of profile fields are unbounded; beyond, the C code is undefined.
- BurstSender.BurstPacing: sleeps may be late but never short; a SIGALRM delivered to the sending thread can cut the last one short, and the lower bound then holds up to the period before.
- BitrateSender.BitratePacing: the same holds of its last sleep; seconds that do not fit an int are not bounded.
- BitrateSender.BitrateFramesPaced: in runs with such seconds only the order of the frames is stated.
- LongFileSender.SendLongFile: the frame counter is unbounded, and the millisecond diagnostics and the unused act_sleep_time are not modelled.
- LongFileSender.BuzzTime: a clock on which the spin never ends is not modelled.
- Receiver.RecvFile: payload byte counts are unbounded.
- StreamTable.LookupIffIssued: between a timeout or reset and the next configuration lookup finds stale streams, which is StaleLookup.
- StreamTable.TrafficGenerator.TGStart: the hand-off to a thread is in Handoff; the UAPSD, transaction and voice profiles are not modelled.
- Handoff.UndefinedUnlockIff: a run ends where the setter unlocks a mutex it does not hold, which is undefined (IEEE Std 1003.1). Every read and write of thr_flag and usedThread is one step, in program order; the compiler's and the memory's reordering of unprotected accesses is not modelled, and no start happens beyond the last of the eight threads.
- HandoffFate.PickedUpInThirteenRounds: no claim for a start on a thread that is still at work; whether such an id survives is IdSurvivesIff.
- Console.ConsoleProcess.Step: datagrams hold all words the console reads; a datagram shorter than 44 bytes would leave words of the one before. The diagnostics, the timer thread that exits after inactivity, failing system calls and words other than 0, 1 and 10 are not modelled, and the command line names one of the 19 tests.
- Console.ConsoleProcess.RcvThenBcast: one method for the VI and the BE handler; the BE one does not set the TOS a second time, which would set it to the same value.
- ResponseDrain.ControlAgent.ReceiveBytes: what is received fits behind the bytes kept; the C code passes the whole buffer size to recv, and what lies beyond the buffer is not part of this model.
- ResponseDrain.ControlAgent.TakePacket: a tag beyond the end of the handler table counts as one without a handler; the C code reads beyond the table. Such tags can come up when value bytes are read as packets.
- StreamCommand.AgentCommand: the packet fits the output buffer; a null buffer is not modelled, and atoi is glibc's, whose out-of-range results the C standard leaves open.
- StreamCommand.StreamIdRoundTrip: lists longer than the parameter buffer are excluded, since the generator would read beyond it.
- WfaConRcvVISndBcastE and WfaConSndVI, which no script uses.
- wfaSendShortFile and the transaction, voice and UAPSD paths of the worker threads: floating point and conditional variants of the senders modelled here.
- The station side of WMM-PS (lib/wfa_thr.c:361-590): its state table is not part of this model.
- The remaining commands and response formatters of the control agent: long keyword-to-field copies.
- Sockets, select loops, files and everything that runs a shell command; their results appear only as parameters.
- Builds with 32 streams and threads instead of 8 (WFA_PC_CONSOLE), the WFA_PING_UDP_ECHO_ONLY build and ping statistics.
