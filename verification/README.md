# Verification model of the RustChat server

A Dafny 4.11 model of a 500-seat chat server with live voting, and proofs about it. The server shares three things
between its connections: four vote counters (`src/vote.rs`), a room with a member map, a broadcast channel and a
throttle for vote snapshots (`src/room.rs`), and the permits and handles of the accept loop (`src/server.rs`). The
model is built around what can happen when any number of connections interleave on them, and around the sequential
algorithms beside them: the bounded line reader, the bots' apportionment with its ratio language, their message
matching, and their integrity check.

`dafny verify dfyconfig.toml` checks the whole project.

## How the code is modelled

- `Runs` defines runs, reachability and the invariant rule for any step relation; `Sets` holds facts about set sizes.
- `VoteProtocol` is the vote board together with each connection's `current_vote`: every `fetch_add` and every load is
  a step of its own, over an unbounded set of connections. `SnapshotWindow` studies one snapshot inside such a run.
  `VoteBoard` is the board as an object updated in place, tied to the protocol by `UninterruptedVote`.
- `Throttle` is the throttled broadcast with every atomic access and every lock-protected access as a step, and with
  arbitrary clock readings; there a clock reading is taken together with the shared access that follows it, which loses
  nothing as long as readings are arbitrary. `ThrottleDrain` asks what happens when no further submission arrives.
  `TimedThrottle` is the same protocol with whole submissions and whole flushes as steps and a monotone clock.
  `ThrottleClock` puts the monotone clock on the fine grain, with every clock reading a step of its own, and asks when
  two stamps on the time of the last send can come close and when they can go back; `ClockRuns` holds the runs in which
  they do.
  `Room` is the object itself, whose methods are proved to do what the coarse steps say.
- `Delivery` composes the vote protocol with the throttle: a connection submits the snapshot it read. `DeliveryOrder`
  shows that the final board can miss the channel, and that it cannot when connections do not overlap. `DeliveryFate`
  gives the exact condition on a state, over all schedules; `DeliveryView` is the part of the state that decides it.
- `Server` is the life of connections, from the permit to the last Presence event, with the vote protocol inside it;
  `AcceptLoop` holds the accept loop's own fields, `ShutdownDrain` the graceful shutdown, `Replica` the member count
  that the terminal client keeps. The broadcast channel is an append-only log with one cursor per receiver and a
  capacity; a receiver that falls behind resumes at the oldest event still held. `LateLeave` is a run in which the
  terminal's count goes wrong, `TitleUnderflow` the exact condition for its title to underflow.
- `LineReader` is the byte-level reader against a split-on-newline specification. `Bots`, `RatioLanguage` and
  `Allocation` are the bot mix, `RatioGrammar` the language its parser accepts, described without the parser; `BotMessages` and `Integrity` are the bots' own bookkeeping.

In-place objects are classes (`VoteBoard`, `Room`, `Reader`, `AcceptLoop`, `AppState`); loops over local variables are
methods with invariants; the concurrent protocols are state machines over values, because their interleavings cannot be
written as one method.

## Where the code and its documentation disagree

The model follows the code.

- `src/vote.rs:17-20` and `docs/REPORT.md:133-135` say that incrementing first makes every intermediate view an
  over-count. The instantaneous total is one (`InstantTotal`), but a snapshot reads four counters one by one and can
  miss a voter: exactly when the vote moves to a lower index (`UndercountIff`). That no count is ever negative holds,
  for another reason: every decrement takes back an increment of the same connection (`CounterAgreement`), so the clamp
  never acts.
- `src/room.rs:10-13` promises at most one snapshot per 50 ms. Two sends come closer exactly where a fast send overtook
  a waiting snapshot, as long as submissions and flushes are atomic (`CloserThanIntervalIff`, `OvertakingWitness`). When
  they interleave, two neighbouring stamps can come closer exactly when the later is that of a flusher armed before the
  earlier (`CloseStampsIff`, `FlushesTooClose`). A flusher that is held up between reading the clock and storing what it
  read (`src/room.rs:144-148`) can even set the time of the last send back (`StampsGoBackIff`, `StampGoesBack`), and then
  two fast sends can come closer as well, and only then (`FastStampsCloseIff`). From a given state the next stamp can be
  early, or go back, exactly when some flusher holds an early reading or can still take one (`NextStampBelowIff`).
- `src/room.rs:89` and `docs/REPORT.md:178` say a submission inside the interval is skipped. It is left in the mailbox.
- `docs/REPORT.md:180` says the latest state is never dropped. A submission is only ever replaced by a later one
  (`EverySubmissionAccounted`), but an older snapshot can be submitted later, so the final board can miss the channel
  (`FinalBoardMissed`). It is sure to reach it exactly when a snapshot that carries it is on its way, or is owed and no
  other can be written over it (`FinalBoardSureIff`), as when connections do not overlap (`SerialDelivery`). And the
  newest need not be the last one sent (`LatestIsLastIff`, `NewestIsLastIff`).
- `docs/REPORT.md:161` says the shutdown event reaches every client. It reaches the receivers that subscribed before it
  and do not lag past it (`ShutdownReachedIff`). Any other handler keeps the server from returning until its peer hangs up
  or a write to it fails (`ShutdownDrainsIff`, `StuckForGood`, `ShutdownMissed`).
- A terminal client hears its own join, which its Welcome already counts, and its title takes one off again
  (`src/tui.rs:266`). The title is right after an uninterrupted join (`UninterruptedJoin`). It stays wrong for good, and
  its subtraction underflows, when a leave is announced after the client's own insertion (`LateLeaveHeard`);
  `TitleUnderflowIff` says from which insertions on that can come. It also underflows in a frame drawn before the
  Welcome line.
- `src/bot/mod.rs:331` says the receive loop stops at `msg_count`. Asked for none, it still waits for one
  (`RecvUntilCount`).

## Assumptions

Interleavings are sequentially consistent, although the atomics are `Relaxed`: each counter is coherent by itself, and
the mailbox is under a mutex. Tasks do not panic and mutexes are not poisoned. Counters are unbounded integers;
`CounterAgreement` bounds them by twice the number of connections. Snapshots on the throttle are numbered by submission;
their contents appear in `Delivery`. The timed grain assumes atomic submissions and flushes, the wall clock equal to the
monotone clock, and flushers at most `slack` late.

The protocol's payloads are JSON objects on one line. Section 7 of RFC 8259 has control characters inside strings
escaped, and an object ends in a brace, so they meet the first two conditions of `FramingRoundTripIff`; the third is the
line limit.

## Model

| member | source | states |
|---|---|---|
| VoteProtocol.CounterAgreement | src/vote.rs:21-40 | In every reachable state of any number of connections each counter equals the connections whose vote is still counted there plus the increments in flight; so it is between 0 and twice the number of connections and the load's clamp changes nothing. |
| VoteProtocol.InvStep | src/client.rs:150-164 | The counting invariant is kept by every step: vote, re-vote, out-of-range vote, unvote, disconnect, snapshot load. |
| VoteProtocol.CountersKept | src/client.rs:179-184 | Each single `fetch_add` or assignment of `current_vote`, including the clean-up, keeps counters and contributors in step. |
| VoteProtocol.InstantTotal | src/vote.rs:17-30 | At one instant the four counters add up to the settled in-range votes plus the in-flight increments: never fewer than the voters. |
| VoteProtocol.SettledCounters | src/vote.rs:21-36 | With nothing in flight each counter is the number of connected clients whose last vote is that option; departed clients count nowhere. |
| SnapshotWindow.ReadsAtInstants | src/vote.rs:38-40 | Each component of a snapshot interleaved with arbitrary steps is its counter's value at one instant, and the four instants come in index order. |
| SnapshotWindow.SnapshotSkew | src/vote.rs:38-54 | A snapshot's total differs from the total at its start by at most the number of `fetch_add`s performed meanwhile. |
| SnapshotWindow.AscendingNeverMissed | src/vote.rs:17-40 | If every vote moved during a snapshot moves to the same or a higher index, the snapshot counts every client that keeps voting. |
| SnapshotWindow.MissWitness | src/vote.rs:38-40 | For any move to a lower index there is a reachable run whose snapshot totals less than the number of steady voters. |
| SnapshotWindow.UndercountIff | src/vote.rs:17-20 | A snapshot can miss voters that move from option p to option n if and only if n is below p. |
| VoteBoard.VoteBoard.constructor | src/vote.rs:11-15 | A new board is four zeros. |
| VoteBoard.VoteBoard.Vote | src/vote.rs:21-30 | Adds one to the new option and takes one from the previous, net zero when they are equal, and leaves all other counters and out-of-range options alone. |
| VoteBoard.VoteBoard.Unvote | src/vote.rs:32-36 | Takes one from the given option in range and changes nothing else. |
| VoteBoard.VoteBoard.Snapshot | src/vote.rs:38-40 | Returns all four counters, each clamped at zero. |
| VoteBoard.UninterruptedVote | src/client.rs:150-157 | A connection that runs alone through the protocol's steps has the effect of the board's vote and hands over exactly the new counters. |
| VoteBoard.UninterruptedWithdraw | src/client.rs:158-164 | A connection that takes its vote back and runs alone takes one from the counter of that option and from no other, has no vote afterwards, and hands over exactly the new counters. |
| VoteBoard.UninterruptedHangup | src/client.rs:178-185 | The clean-up does the same on its way out; without a vote the connection is gone at once and the board is untouched. |
| VoteBoard.SubmittedGoesOn | src/client.rs:150-188 | After its submission a connection is back at its read loop, or gone if it was closing, and the board is as it was. |
| Throttle.Delay | src/room.rs:123-126 | For any clock readings, even a clock set back, a flusher sleeps between 1 and 50 ms. |
| Throttle.WakeUpTime | src/room.rs:119-132 | The flusher wakes up 50 ms after the last send, or 1 ms from now if that is over; with a clock behind the last send it sleeps for 50 ms. |
| Throttle.NoLostFlush | src/room.rs:107-137 | In every reachable state a waiting snapshot has a submitter short of its flag swap or a flusher that has not done its take; and the tasks that won the flag and have not reset it are one when it is up, none when it is down. |
| Throttle.EverySubmissionAccounted | src/room.rs:91-151 | Over any run each submission is in exactly one place, once: in flight, waiting, taken, sent, or replaced by a write that took effect later. |
| Throttle.InvStep | src/room.rs:91-151 | Flag ownership, rescue of the mailbox, accounting and order of effects are kept by every step. |
| Throttle.Delivery | src/room.rs:107-150 | When all tasks are done, mailbox and flag are clear, each submission was sent exactly once or replaced by a later one, and the one that took effect last was sent. |
| ThrottleDrain.StepsRunOut | src/room.rs:113-151 | Every step of a task already there lowers a measure, so without new submissions every schedule ends and every armed flush happens. |
| ThrottleDrain.LatestIsLastIff | src/room.rs:97-105 | Whatever the schedule, the latest submission ends up last on the channel if and only if nothing older is waiting or in a flusher's hands, and it is itself owed or was the last sent. |
| ThrottleDrain.KeptFlusherSendsLast | src/room.rs:137-149 | Some schedule lets a flusher that still holds an older snapshot send it last. |
| ThrottleClock.ClockedIsFine | src/room.rs:92-95 | The fine grain with a monotone clock and real sleeps only restricts the fine grain: its reachable states are reachable there. |
| ThrottleClock.StampSpacing | src/room.rs:91-151 | With a monotone clock, every reading of it a step of its own, over every interleaving: a fast stamp on the time of the last send is at least 50 ms after the one it replaces; a flusher's at least 50 ms after the last one before it was armed, and not before the last one when it read the clock. |
| ThrottleClock.ClockInvStep | src/room.rs:91-151 | Every step keeps this, what readings are still held, the lateness of a submission at its compare-exchange, and the due times of flushers. |
| ClockRuns.CloseStampsIff | src/room.rs:10-13 | Over all runs neighbouring stamps can be less than 50 ms apart if and only if the later is that of a flusher armed before the earlier. |
| ClockRuns.CloseStamp | src/room.rs:113-149 | In every run a stamp less than 50 ms after the one before it is that of a flusher armed before that one, and one that goes back is that of a flusher that had read the clock before it. |
| ClockRuns.StampsGoBackIff | src/room.rs:143-149 | A stamp can be earlier than the one it replaces if and only if it is that of a flusher that read the clock before the replaced one was written. |
| ClockRuns.FastStampsCloseIff | src/room.rs:97-105 | Two fast stamps, neighbours or not, can be less than 50 ms apart if and only if a stamp between them goes back. |
| ThrottleClock.NextStampBelowIff | src/room.rs:113-149 | For any bound up to 50 ms after the last stamp, from any reachable state the next stamp can be below it if and only if some flusher holds a clock reading below it or can still take one in time. |
| ThrottleClock.NextStampBackIff | src/room.rs:143-149 | In particular the next stamp can go back if and only if some flusher holds a reading older than the last stamp. |
| ClockRuns.FlushesTooClose | src/room.rs:134-149 | A run with two flushes 1 ms apart and no fast send overtaking anything. |
| ClockRuns.StampGoesBack | src/room.rs:143-149 | A run in which a flusher stores 1050 ms over 1060 ms and the next fast send comes 40 ms after the last one. |
| TimedThrottle.SendSpacing | src/room.rs:91-151 | With atomic submissions and flushes, a fast send comes at least 50 ms after every earlier send and flushes are 50 ms apart, so any half-open window of 50 ms holds at most two sends. |
| TimedThrottle.CloserThanIntervalIff | src/room.rs:10-13 | With flushers less than 50 ms late, neighbouring sends are closer than 50 ms if and only if the first one overtook a waiting snapshot. |
| TimedThrottle.BoundedStaleness | src/room.rs:107-150 | A waiting snapshot, or the one that replaced it, is sent within 50 ms plus the flusher's lateness of the first wait. |
| TimedThrottle.EveryoneDelivered | src/room.rs:91-151 | Every submission was sent at once, or it or the last write that replaced it in the mailbox is on the channel within 50 ms plus the flusher's lateness of its own mailbox write, or still waits within that time. |
| TimedThrottle.NewestIsLastIff | src/room.rs:97-105 | At rest the newest submission is last on the channel if and only if it was not sent past a waiting one. |
| TimedThrottle.OvertakingWitness | src/room.rs:97-105 | Submissions at 1000, 1010 and 1050 ms after which two sends carry the same time and the older snapshot is last. |
| TimedThrottle.SubmitIsUninterrupted | src/room.rs:91-132 | A fine-grained submission that runs alone is the coarse step, and spawns a flusher with the computed delay exactly when none was scheduled. |
| TimedThrottle.FlushIsUninterrupted | src/room.rs:134-151 | A fine-grained flush that runs alone is the coarse step. |
| TimedThrottle.LatestNotSureToBeLast | src/room.rs:97-105 | A reachable fine-grained state in which the latest snapshot has been sent and some schedule sends the older one behind it. |
| Room.Room.constructor | src/room.rs:36-46 | A new room is empty, and its throttle is in its initial state. |
| Room.Room.Join | src/room.rs:53-63 | Inserts the member without a name, returns the size after insertion, and announces it; the throttle is untouched. |
| Room.Room.Leave | src/room.rs:65-71 | Removes the member, announces it even if it was not there, and leaves the throttle alone. |
| Room.Room.SetNick | src/room.rs:78-82 | Names a present member; never adds one. |
| Room.Room.BroadcastVoteThrottled | src/room.rs:91-111 | The object's fields change as the coarse submission says, at most one event is sent, and a timer is returned exactly when a flusher has to be spawned. |
| Room.Room.ScheduleVoteFlush | src/room.rs:113-132 | Raises the flag; returns the flusher's delay if it was down, nothing if it was up. |
| Room.Room.FlushPendingVoteSnapshot | src/room.rs:134-151 | The object's fields change as the coarse flush says: nothing is sent when nothing waits. |
| Delivery.InvStep | src/client.rs:150-164 | The coupling of votes, snapshots and submissions is kept by every step of the composed system. |
| Delivery.RunsProject | src/client.rs:150-185 | A run of votes and throttle together is a run of each, so all that holds of the runs of either holds for the two together. |
| Delivery.VoteStepTaken | src/client.rs:155-156 | Whatever step of the vote protocol a connection can take it can take here; the end of its submission it reaches by handing over and running the submission alone. |
| Delivery.FinalDelivery | src/client.rs:150-184 | At rest after any `fetch_add`, some submission carried the final board, the submission that took effect last is on the channel, and if its snapshot began after the last `fetch_add` the final board is on the channel. |
| Delivery.FreshIsFinalBoard | src/client.rs:150-157 | A snapshot on the channel that began after the last `fetch_add` is the present board. |
| DeliveryFate.FinalBoardSureIff | docs/REPORT.md:180-180 | From any reachable state with no `fetch_add` ahead, every schedule without new commands ends with a snapshot of the final board on the channel if and only if one that carries it, whenever it began, is on its way, or is owed and no other snapshot is left that can be written over it: none at all, or just one while a submission is about to win its compare-exchange and no other is going to be stamped. |
| DeliveryFate.BoardFinalIff | src/client.rs:150-185 | The board is final if and only if no continuation without a new command or connection performs another `fetch_add`. |
| DeliveryView.TaskStaysSafe | src/room.rs:91-151 | Every step of the throttle keeps that condition. |
| DeliveryView.UnsafeGoesOn | src/room.rs:91-151 | Where it fails and work is left, some step keeps it failing. |
| DeliveryView.HandKeepsRace | src/client.rs:155-156 | Handing a snapshot over keeps it either way. |
| DeliveryOrder.FinalBoardMissed | src/room.rs:107-111 | A run of two voters that comes to rest with two votes on the board and only a one-vote snapshot on the channel. |
| DeliveryOrder.SerialDelivery | docs/REPORT.md:180-180 | If connections never overlap between their command and the return of their submission, the final board is on the channel once all is at rest. |
| LineReader.Reader.constructor | src/client.rs:84-84 | The buffered stream holds the given bytes, whatever the chunks. |
| LineReader.Reader.FillBuf | src/client.rs:26-27 | Delivers a non-empty prefix of what is left, or the end of the stream, or an error. |
| LineReader.Reader.Consume | src/client.rs:45-64 | Drops exactly the given number of bytes. |
| LineReader.Store | src/client.rs:37-62 | Keeps the buffer equal to the line read so far while it fits, marks overflow exactly when it does not, and never exceeds the limit. |
| LineReader.ReadLineBounded | src/client.rs:19-67 | For every stream, chunking and limit: the result is the specification's next line, empty if over-long, one CR stripped if newline-ended, kept if unterminated, none at the end, error if the stream breaks; exactly the line and its newline are consumed; the loop ends. |
| LineReader.TerminatedLine | src/client.rs:36-53 | The specification on a newline-ended line, by concatenation: the line comes out cooked and what follows the newline is left. |
| LineReader.CrLfLine | src/client.rs:36-53 | A line ended by CR and LF comes out without the two whatever it ends in itself, one ended by LF alone comes out whole unless it ends in CR, and an over-long one comes out empty. |
| LineReader.StreamEnds | src/client.rs:27-35 | An unterminated rest is an error if the stream breaks, the end if it is empty, nothing but an empty line if it is over-long, and otherwise a line with its CR kept. |
| LineReader.ReadAll | src/client.rs:119-176 | Reading until the end gives the specification's list of all lines, under any chunking. |
| LineReader.FramingRoundTripIff | src/bot/mod.rs:363-373 | Framing payloads with newlines and reading them back gives the same list if and only if no payload contains a newline, ends in CR, or exceeds the limit. |
| Allocation.Allocate | src/bot/mod.rs:284-324 | Every entry gets its kind and its share in spec order; an empty spec gives nothing; a ratio sum above 2^32 - 1 or a product above 2^64 - 1 overflows, and a zero sum divides by zero; up to 2^32 bots it succeeds for every ratio sum from 1 to 2^32 - 1. |
| Allocation.NoOverflow | src/bot/mod.rs:303-304 | Up to 2^32 bots no product overflows whatever the ratios; in general one does exactly if it exceeds 2^64 - 1. |
| Allocation.HandOut | src/bot/mod.rs:311-321 | The loop over the sorted indices adds one bot to exactly the entries whose rank is below the remainder. |
| Allocation.RankAt | src/bot/mod.rs:311-314 | In the stable descending order each entry stands at the position given by how many entries are served before it. |
| Allocation.LeftoverBound | src/bot/mod.rs:308-321 | Fewer bots are left over than there are entries with a positive ratio, so the index never wraps around to serve twice. |
| Allocation.QuotaTheorem | src/bot/mod.rs:284-324 | The shares sum exactly to the total, and exactly the leftover is handed out as extras. |
| Allocation.WithinOneOfQuota | src/bot/mod.rs:303-321 | Every share is less than one bot below its exact quota and at most one above. |
| Allocation.ExactQuotaExceededIff | src/bot/mod.rs:303-321 | An entry gets a whole bot more than its exact quota if and only if that quota is a whole number and the entry's rank is below the remainder. |
| Allocation.ExactQuotaExceeded | src/bot/mod.rs:311-321 | It happens: two bots at 2:1:1 both go to the first entry. |
| Allocation.RemainderOrder | src/bot/mod.rs:311-321 | A larger ratio never gets fewer bots; equal ratios differ by at most one in favour of the earlier entry; a zero ratio gets none. |
| Allocation.DefaultShares | src/bot/mod.rs:232-232 | Ten times k bots of the default mix are 4k, 2k, 2k, k and k. |
| RatioLanguage.Parse | src/bot/mod.rs:238-268 | The loop returns the entries in order, or the error of the first bad part. |
| RatioLanguage.PrintParseIff | src/bot/mod.rs:238-280 | Parsing the printed spec gives it back if and only if it is non-empty and all its ratios are positive. |
| RatioLanguage.ParsePrintParse | src/bot/mod.rs:238-280 | Every accepted string stands for a non-empty spec with positive ratios, and printing that spec parses to the same spec. |
| RatioLanguage.EntryRoundTrip | src/bot/mod.rs:245-264 | A printed entry parses to itself, or to the zero-ratio error when its ratio is zero. |
| RatioLanguage.ParseDecimal | src/bot/mod.rs:256-258 | Reading the decimal of a number gives the number if it is below 4294967296, and fails otherwise. |
| RatioLanguage.NamesRoundTrip | src/bot/mod.rs:198-218 | Every bot kind's name is read back as that kind, and contains no separator or space. |
| RatioLanguage.SplitJoin | src/bot/mod.rs:245-278 | Splitting a join on its separator gives the parts back when none contains it. |
| RatioGrammar.SpecAcceptedIff | src/bot/mod.rs:238-268 | A string is accepted for a spec if and only if it consists of the spec's entries in order with commas between them, each a name, a colon and a positive number with any white space around name and number. |
| RatioGrammar.PartAcceptedIff | src/bot/mod.rs:245-264 | A part is accepted for an entry if and only if it is that entry so written. |
| RatioGrammar.PartErrors | src/bot/mod.rs:251-262 | A part cut at its first colon fails for its name if that is no kind's, else for its number if that is no decimal below 2^32, else for a ratio of zero, each error with the trimmed text; otherwise it is accepted. |
| RatioGrammar.ReadHasColon | src/bot/mod.rs:247-249 | A part has the wrong format if and only if it has no colon. |
| RatioGrammar.FirstErrorIff | src/bot/mod.rs:245-264 | The error of a list of parts is that of its first bad part. |
| RatioGrammar.SpecCut | src/bot/mod.rs:239-245 | A blank string is an empty spec; any other is read by its parts, and trimming it first makes no difference. |
| RatioGrammar.TrimOf | src/bot/mod.rs:251-252 | Trimming takes the white space off both ends of a string and nothing else. |
| RatioGrammar.WhitespaceIs | src/bot/mod.rs:239-239 | White space is the 25 characters with Unicode's White_Space property. |
| RatioGrammar.NumberReadIff | src/bot/mod.rs:256-258 | A text is read as a number if and only if it is that number in decimal digits, perhaps after a plus sign, and below 2^32. |
| RatioGrammar.DefaultParses | src/bot/mod.rs:232-232 | The default string parses to the default mix. |
| BotMessages.OwnMessagesOnly | src/bot/normal.rs:36-48 | A chat line of bot b contains the target of bot a if and only if a is b. |
| BotMessages.SequenceRecovered | src/bot/normal.rs:88-94 | From a chat line of its own a bot extracts exactly the number it sent, if that fits 64 bits. |
| BotMessages.ExtractedIff | src/bot/normal.rs:88-94 | From any line a number is extracted if and only if it is the whole run of digits behind the first occurrence of the target and fits 64 bits. |
| BotMessages.RecvUntilCount | src/bot/mod.rs:335-360 | The loop gives the callback a prefix of the matching lines and returns its length: all matches of what arrived, or as many as asked for, but one when asked for none. |
| Integrity.TallyVotes | src/bot/mod.rs:87-97 | Each count is the number of bots whose last vote is that option; absent and out-of-range votes count nowhere. |
| Integrity.CountSnapshots | src/bot/mod.rs:107-112 | The map holds exactly the snapshots seen, each with the number of bots that saw it last. |
| Integrity.PickActualSnapshot | src/bot/mod.rs:105-121 | For any iteration order the pick is a most frequent snapshot with the largest sum among the most frequent, and zeros when nobody received any. |
| Integrity.PickIsBest | src/bot/mod.rs:114-120 | No snapshot was seen last by more bots than the pick, and none seen by as many has a larger sum over its four counts. |
| Integrity.PickWasSeen | src/bot/mod.rs:113-121 | The pick is some bot's last snapshot, or four zeros if no bot has received any. |
| Integrity.MajorityPicked | src/bot/mod.rs:99-104 | A snapshot that more than half of the receiving bots saw last is the one picked. |
| Integrity.SettledBoardIsTally | src/bot/mod.rs:86-97 | With no vote in flight the board equals the tally of the connected clients' last votes, in whatever order they are listed. |
| Server.LifecycleConservation | src/server.rs:48-78 | Over every run permits plus live handlers are 500, ids are handed out one after the other from 1 on, the member map holds exactly the handlers between insertion and removal plus those that left on a failed Welcome, and every unfinished handler has its handle kept. |
| Server.JoinNeverOverwrites | src/room.rs:53-57 | An id about to be inserted is not in the map, so the count returned is the old size plus one. |
| Server.InvStep | src/client.rs:76-188 | Every step of the accept loop, a handler, a write task or the shutdown keeps permits, ids, members, handles, votes, log and cursors consistent. |
| Server.EndedMeansFinished | src/server.rs:93-98 | When the server returns, every handler it admitted has finished. |
| Server.EverythingReturned | src/client.rs:178-185 | When all handlers have finished, all 500 permits are back, every counter is 0, and the map holds only ids whose Welcome could not be written. |
| Server.RetainKeeps | src/server.rs:76-78 | Reaping removes exactly the handles of finished tasks. |
| Server.RetainCounts | src/server.rs:76-78 | It keeps every other handle as often as it was there. |
| Server.AcceptReaps | src/server.rs:76-78 | After every admission the kept handles are those of exactly the handlers that have not finished. |
| Server.VotesAreProtocol | src/client.rs:150-185 | What the handlers do to the board over any run of the server is a run of the vote protocol. |
| Server.ProtocolIsServed | src/client.rs:119-185 | Every step the vote protocol allows a connection is one its handler can take, with the same effect. |
| Server.ChatIsHeard | src/room.rs:84-86 | A message can be sent at any time, appends one event, and is what a receiver that has caught up hears next. |
| Server.NicksKept | src/room.rs:78-82 | A member's name is what it set last; no other step changes it, and a newcomer has none. |
| Server.NickTaken | src/client.rs:130-134 | A connection at its read loop can name itself, and is in the map when it does. |
| Server.DrainedServerReturns | src/server.rs:93-98 | A draining server whose handlers have all finished awaits their handles one by one and returns. |
| AcceptLoop.AcceptLoop.constructor | src/server.rs:38-40 | The loop starts with 500 permits, id 1 and no handles. |
| AcceptLoop.AcceptLoop.Accept | src/server.rs:44-79 | A connection is admitted exactly when a permit is free; the loop's fields then are those of the server's accept step, otherwise unchanged. |
| ShutdownDrain.ShutdownReachedIff | src/client.rs:95-113 | A receiver reaches the shutdown event if and only if it subscribed before it and the event is still in the channel when it gets there. |
| ShutdownDrain.WrittenIs | src/client.rs:95-113 | A peer is sent every event since its subscription, in order and once, up to the shutdown event, except those the channel does not hold any more. |
| ShutdownDrain.AlwaysCanStep | src/client.rs:119-187 | A handler on its way out can always take a step without its peer. |
| ShutdownDrain.StepsTowardsEnd | src/client.rs:95-187 | Every such step finishes the handler or lowers its distance to the end, across lag. |
| ShutdownDrain.OthersDoNotDelay | src/server.rs:93-95 | Steps of other handlers and of the server leave that distance alone. |
| ShutdownDrain.ShutdownDrainsIff | src/server.rs:85-95 | After the accept loop ended the shutdown event is in the log once, and an unfinished handler finishes by its own steps, its vote taken back and its permit returned, if and only if its receiver has neither passed the event nor lags past it, or it has left its loop already. |
| ShutdownDrain.StuckStays | src/client.rs:95-113 | A handler the event does not reach stays so under every step of anyone, except its peer's hang-up or a failed write to it. |
| ShutdownDrain.StuckForGood | src/server.rs:93-95 | Until then it never finishes and the server never returns. |
| ShutdownDrain.PeerEnds | src/client.rs:95-123 | A hang-up of its peer at the read loop, or a failed write of an event, lets any handler finish by its own steps; a failed Welcome ends it at once. |
| ShutdownDrain.ShutdownMissed | docs/REPORT.md:161-161 | A run in which a client admitted before the shutdown subscribes after it and is not reached. |
| Replica.AppState.constructor | src/tui.rs:47-57 | The count starts at zero, where the title's subtraction underflows. |
| Replica.AppState.Receive | src/tui.rs:76-109 | The loop sets the count from the Welcome line and then applies each event in order, saturating at zero. |
| Replica.ReplicaDrift | src/tui.rs:84-104 | With every map change announced, the count less one is the room size, plus the joins and minus the leaves announced to the client although they were in the map before its own insertion, minus the joins and plus the leaves it missed while lagging, plus the leaves that found the count at zero. |
| TitleUnderflow.TitleUnderflowIff | src/tui.rs:96-103 | From the state in which its handler inserts a client into the map, some continuation makes the served client's title underflow if and only if the events sent since its subscription already take the count to zero, or the members gone whose leave alone it hears are at least one more than the members whose join it hears besides counting them and those that never leave. |
| TitleUnderflow.AheadBySetsIff | src/client.rs:85-92 | Unless somebody came in and failed at its Welcome between the client's subscription and its insertion, the events sent in that time add nothing to that condition. |
| Replica.NoLateLeavesNoSaturation | src/tui.rs:96-103 | Without such late leaves the count never has to stop at zero and the title never underflows after the Welcome. |
| Replica.UninterruptedJoin | src/client.rs:85-92 | If subscribing and joining are uninterrupted and no change was waiting to be announced, the title shows exactly the room size. |
| LateLeave.LateLeaveHeard | src/tui.rs:266-266 | A run in which a late leave makes the title underflow and then show no one in a room of one. |

## Left out

- Sockets, TCP accept and back-log, signals, task scheduling and real sleeping: nondeterministic steps and an abstract clock stand for them.
- The inside of the broadcast channel, the semaphore, the lock and the hash map: a log with cursors and capacity, a counter, atomic map updates and an arbitrary map order.
- Weak memory, mutex poisoning and task panics: assumed absent; a panic would skip the clean-up in `handle_client`.
- JSON encoding and lossy UTF-8 decoding: lines are bytes in the reader, and a chat line is an envelope around the bot's text in `BotMessages`.
- Chat contents, nicknames inside messages, and the vote percentages: they carry no shared state; the `f32` division is not modelled.
- The fickle, spammer, ghost and quitter drivers, connect back-off, metrics, command line, report text, and the terminal's rendering and key handling.
- BotMessages.OwnMessagesOnly: speaks of chat lines of bots, which set no nickname; a human message may contain any bot's target.
- BotMessages.RecvUntilCount: the timeout is the choice of which lines arrive, so no time bound is stated.
- Allocation.Allocate: arithmetic is checked as in a debug build; the wrap-around of a release build is not modelled, and the standard library's stable sort is represented by insertion.
- TimedThrottle.SendSpacing: holds for atomic submissions and flushes only, as `ClockRuns.FlushesTooClose` shows.
- TimedThrottle.BoundedStaleness: the same hypothesis; at the fine grain a flusher's lateness is unbounded.
- ShutdownDrain.ShutdownDrainsIff: speaks of the handler's own steps with its socket writes succeeding; events of others may still push the shutdown event out of the channel before the handler gets there.
- DeliveryFate.FinalBoardSureIff: speaks of schedules without new connections and commands, with arbitrary clock readings; a task that has read the clock is not told from one that is about to.
- TitleUnderflow.TitleUnderflowIff: speaks of receivers that do not lag; what a lagging one misses is in `Replica.ReplicaDrift`.
- ThrottleClock.StampSpacing: spaces the stamps on the time of the last send; a task may be held up between its stamp and its send, and nothing in the code bounds that.
- Server.LifecycleConservation: a `Shutdown` sent while nobody has subscribed is kept in the log, where the channel drops it; no receiver can tell the difference.
- Room.Room.BroadcastVoteThrottled: the compare-exchange cannot fail in a method that runs alone; its failure is a step of `Throttle`.
