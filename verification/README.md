# A verified model of the voice chat application

This project models the stateful parts of the voice chat client and server in Dafny and
proves what they guarantee over whole runs. `dafny verify dfyconfig.toml` checks all of it.

Each component is described twice. A class performs the component's operations by updating
its fields in place, as the C++ does, and every method is proved to take the abstract state
to the state given by a step function. The guarantees are lemmas about the step function:
what every step keeps, what holds over every run, and, where a plausible guarantee is false,
exactly when it holds together with a run that breaks it.

| file | component |
|---|---|
| `LoginRateLimiter.dfy`, `LimiterRuns.dfy`, `LockoutBound.dfy`, `SweepInvisible.dfy`, `LimiterKeys.dfy`, `LoginThrottling.dfy` | login throttling and the registration budget |
| `JitterBuffer.dfy`, `PeerPlayback.dfy`, `PlaybackWindow.dfy`, `PlaybackRecovery.dfy`, `RecoveryBound.dfy`, `PromptRecovery.dfy`, `PeerMixer.dfy` | the voice receive path |
| `ChatPaging.dfy`, `ChatWire.dfy`, `ChatModel.dfy`, `ChatContinuity.dfy` | chat history: queries, wire format, client view, and the two ends together |
| `LockFreeQueue.dfy`, `VoiceRouting.dfy` | the update queue and the UDP routing table |
| `TcpSession.dfy`, `Heartbeat.dfy`, `SessionMap.dfy` | framing and outbox, heartbeat timing, session map |
| `AccountStore.dfy` | accounts, sessions and reset tokens behind the worker queue |
| `Basics.dfy` | types and small facts that several components share |

## Main results

- In every run of the server's handlers no key counts more than 15 failures, lockouts are
  exactly 1, 2, 4, ..., 512 s, and neither the 900 s cap nor the ten-doubling cap is ever
  reached. The bounds are attained. What other keys do changes none of a key's replies.
  Because a lapsed window voids the lockout, no key without a failure for 256 s is refused,
  however busy the server is, and a 512 s lockout is never served in full.
- `include/Security/LoginRateLimiter.hpp:26-32` documents the value of `recordFailure` as the
  lockout that now applies and that of `secondsUntilAllowed` as the seconds until the key is
  allowed. Whatever other keys do and however often the key asks meanwhile, the first is true
  exactly when the window has room for the next lockout, which the
  record before the call tells; the second is enough exactly when truncation took nothing off
  it or the window lapses by then.
- Every message strikes and forgives exactly the keys it should, a record holds exactly the
  failures that count, and six wrong passwords for an account in one window shut everybody
  out of it at that moment.
- Runs with the periodic sweep and runs without it give the same replies. No half-open
  interval of 3601 s holds more than three registrations of a key, and longer ones may.
- One decoder is handed strictly increasing packet numbers in every run exactly when senders
  stay below 2^32 - 100; from there on silence carries playback on to number 0, the ring's
  empty marker. The ring is an unbounded map exactly as long as no accepted packet meets
  another pending one of its residue, as inside its 50-packet window.
- A packet taken in d numbers ahead of playback is decoded at the d-th tick, whatever
  in-window packets follow, exactly when it or a packet pending before it is due before the
  eviction counter runs out.
- From any reachable state a peer whose sender delivers one packet per tick plays something
  within 101 ticks, and something of that sender's own within 99 more for each packet still
  pending from before plus one, a bound that is needed for every number of pending packets.
  A sender at most 50 numbers ahead of playback is always heard within
  101 ticks; one behind playback or further ahead is so exactly when no old packet will be
  decoded before the eviction it is waiting for. A sender that restarts at 1 while one old
  packet is pending is the simplest case in which it is not.
- A paging that has stopped holds the whole channel exactly when no page boundary falls
  between messages that share a time; so it does for every page size exactly when all times
  are distinct. Messages that arrive between the pages do not disturb it, and it never
  repeats a message in any case.
- A printed history page parses back to the same channel, flag and messages.
- Every row shown was delivered for the loaded channel. The view shows the selected channel
  only, exactly when nothing arrives for a loaded channel that is no longer selected. With a
  truthful server it is always an unbroken end of the channel's history exactly when no older
  page arrives that was requested for another row than the first one shown, as happens when
  the user leaves and returns, or the view is trimmed, while the page is on its way. While
  nothing is cleared or trimmed, it asks for older rows exactly as long as there are any.
- Every client whose latest update was not dropped is routed to its own channel after each
  drain, and to the one it left from once it has signed out. This is so for everybody exactly
  when at most 255 updates are queued between drains. A packet goes exactly to the others in
  its sender's channel that have been heard from, where they were heard from last.
- The receiver sees a prefix of the messages sent in every interleaving, and all of them
  when their sizes are legal. Closing ends that once and for all.
- Every session is closed after 45 to 90 s of silence. A logged-in client is never timed out
  exactly when lateness and delay stay within 3740 ms.
- A mapped session is the last to have signed in under its uuid. All such sessions stay
  mapped exactly when nobody signs in as someone else while the old uuid is another's. Only
  superseded sessions are told to close.
- After a successful password reset or change the new session is the account's only one; a
  reset token is redeemed at most once for each issue. A token signed out never signs in
  again, and one that is not lasts 30 days.

## Model

| member | source | states |
|---|---|---|
| RateLimiting.LoginRateLimiter.SecondsUntilAllowed | src/Security/LoginRateLimiter.cpp:29-50 | sweeps, voids a lapsed lockout, and answers the whole seconds left, at least 1 while locked; the new tables are exactly those of the step function |
| RateLimiting.LoginRateLimiter.RecordFailure | src/Security/LoginRateLimiter.cpp:52-81 | restarts a lapsed window, counts, locks for the doubled and capped time beyond the budget, and answers the lockout |
| RateLimiting.LoginRateLimiter.RecordSuccess | src/Security/LoginRateLimiter.cpp:83-87 | forgets the key's record and nothing else |
| RateLimiting.LoginRateLimiter.IsAllowedToRegister | src/Security/LoginRateLimiter.cpp:89-109 | prunes the key's timestamps in place and allows fewer than three |
| RateLimiting.LoginRateLimiter.RecordRegistration | src/Security/LoginRateLimiter.cpp:111-115 | appends the time to the key's list |
| RateLimiting.LoginRateLimiter.SweepStaleEntries | src/Security/LoginRateLimiter.cpp:117-161 | at most once a minute, both tables become their swept forms whatever the iteration order |
| RateLimiting.LoginRateLimiter.SweepAttempts | src/Security/LoginRateLimiter.cpp:126-139 | the erase-while-iterating loop leaves exactly the records whose window has not lapsed or that are still locked |
| RateLimiting.LoginRateLimiter.SweepRegistrations | src/Security/LoginRateLimiter.cpp:141-160 | the loop prunes every list and erases exactly the emptied ones |
| RateLimiting.RemoveExpired | src/Security/LoginRateLimiter.cpp:144-151 | keeps exactly the timestamps at most 3600 whole seconds old |
| LimiterRuns.SourceIp | src/Core/Application.cpp:371-371 | the address up to its first colon, so never containing one |
| LimiterRuns.SourceIpCuts | src/Core/Application.cpp:371-371 | the address is all that stands before its first colon |
| LimiterRuns.AccountKeysAgree | src/Core/Application.cpp:372-372 | two names share a throttle key exactly when they agree in their first 64 characters |
| LimiterRuns.KeysDiffer | src/Core/Application.cpp:371-372 | a source address and an account key are never the same throttle key |
| LimiterRuns.LockoutChecksAreDisciplined | src/Core/Application.cpp:377-383 | the two lockout checks keep the run disciplined, and passing both permits a failure on both keys |
| LimiterRuns.LoginIsDisciplined | src/Core/Application.cpp:384-411 | once the lockout checks of LOGIN have passed, its calls record failures only on the keys that were checked |
| LimiterRuns.RegisterIsDisciplined | src/Core/Application.cpp:430-466 | once the checks of REGISTER have passed, it records a failure only on the checked key and a registration only after its budget check allowed it |
| LimiterRuns.ResetPasswordIsDisciplined | src/Core/Application.cpp:487-523 | once the checks of RESET_PASSWORD have passed, it records a failure only on the checked key |
| LimiterRuns.ChangePasswordIsDisciplined | src/Core/Application.cpp:548-579 | once the check of CHANGE_PASSWORD has passed, it records a failure only on the checked key |
| LimiterRuns.HandlersAreDisciplined | src/Core/Application.cpp:364-580 | any handler extends a disciplined run to a disciplined run |
| LimiterRuns.ServerRunsAreDisciplined | src/Core/Application.cpp:353-752 | every run of the server over any messages is disciplined, so the results on disciplined runs hold of the server |
| LoginThrottling.ServedAsJudged | src/Core/Application.cpp:364-580 | every message strikes or forgives each key as the four handlers are meant to: a wrong LOGIN strikes address and account, a right one forgives both, and so on for every message and key |
| LoginThrottling.RecordHoldsScore | src/Security/LoginRateLimiter.cpp:52-87 | in every disciplined run a key's record holds exactly its failures since the last success and since its window began; a missing record had nothing to count |
| LoginThrottling.RightLoginForgives | src/Core/Application.cpp:406-409 | after a right LOGIN neither key has a record |
| LoginThrottling.WrongLoginCounts | src/Core/Application.cpp:387-404 | after a wrong LOGIN the address and the account count one failure more, or the first of a new window |
| LoginThrottling.RulingsAddUp | src/Core/Application.cpp:353-752 | over every served run a key's score is what the messages' rulings add up to |
| LoginThrottling.SixWrongLoginsRefuse | src/Core/Application.cpp:374-404 | six wrong LOGINs on an account in one window, with no right one between and whatever else is served, refuse every message that names the account at that moment |
| LoginThrottling.ServedRegistrations | src/Core/Application.cpp:446-461 | a registration is recorded for the address exactly when a message created an account |
| LockoutBound.WindowLapses | src/Security/LoginRateLimiter.cpp:61-61 | with truncated seconds the 600 s window lapses at 601 s and not before |
| LockoutBound.FailedIsTame | src/Security/LoginRateLimiter.cpp:57-80 | an eleventh over-budget failure inside one window is impossible once lockouts are respected; the lockout is exactly the doubled time |
| LockoutBound.StepIsTame | src/Security/LoginRateLimiter.cpp:29-81 | every legal call keeps the bound on every record |
| LockoutBound.RunIsTame | src/Security/LoginRateLimiter.cpp:29-172 | every disciplined run keeps the bound on every record |
| LockoutBound.FailuresAndLockoutsBounded | src/Security/LoginRateLimiter.cpp:52-81 | at most 15 failures are counted, no lock reaches more than 512 s ahead, and the caps never apply |
| LockoutBound.FailureReply | src/Security/LoginRateLimiter.cpp:68-80 | the reply is 0 for five failures and then 2^(m-1) s, and the m-th over-budget failure comes at least 2^(m-1) - 1 s into its window |
| LockoutBound.RefusedExactly | src/Security/LoginRateLimiter.cpp:40-49 | a check refuses exactly while the lockout lasts and the window has not lapsed, sweep or no sweep |
| LimiterKeys.NoOneWaitsLongerThan256Seconds | src/Security/LoginRateLimiter.cpp:40-49 | in every disciplined run a key for which no failure was recorded for 256 s is allowed, however often it asked meanwhile and whatever other keys do |
| LimiterKeys.ReplyIsHonouredExactly | include/Security/LoginRateLimiter.hpp:29-32 | whatever other keys do and however often the key asks meanwhile, it is refused for the whole lockout that recordFailure reports exactly when the record before the call has a lapsed window, fewer than five failures, or room in its window for the next doubled lockout |
| LimiterKeys.WaitingTheReplyIsEnough | include/Security/LoginRateLimiter.hpp:26-27 | waiting the seconds a check replies, while other keys go on and the key is refused again, is enough exactly when they are not truncated or the window lapses by then |
| LimiterKeys.WaitingLessIsTooShort | include/Security/LoginRateLimiter.hpp:26-27 | waiting one second less, while other keys go on and the key is refused again, is too short exactly when the window lasts until then |
| LimiterKeys.KeysAreIndependent | src/Security/LoginRateLimiter.cpp:29-161 | in every disciplined run each call is answered as after its key's own calls alone, which are a disciplined run by themselves |
| LimiterKeys.HarmlessCallsDoNotMatter | src/Security/LoginRateLimiter.cpp:29-50 | calls of other keys and refused checks of the key itself change none of its later checks |
| LockoutBound.FastestAttackState | src/Security/LoginRateLimiter.cpp:52-81 | the attacker who always strikes as the lockout ends stays disciplined and reaches n failures |
| LockoutBound.BoundsAreAttained | src/Security/LoginRateLimiter.cpp:10-14 | each count from 6 to 15 occurs with the reply 2^(n-6) s and is refused exactly until the lockout ends or the window lapses; the lockout of 512 s lasts 90 s |
| SweepInvisible.PruneTwice | src/Security/LoginRateLimiter.cpp:100-106 | pruning early never changes what a later pruning leaves |
| SweepInvisible.SweepKeepsRecords | src/Security/LoginRateLimiter.cpp:126-139 | a sweep keeps the swept and the never swept records equivalent |
| SweepInvisible.SweepKeepsRegistrations | src/Security/LoginRateLimiter.cpp:141-160 | a sweep keeps the swept and the never swept registrations equivalent |
| SweepInvisible.SameFailure | src/Security/LoginRateLimiter.cpp:57-80 | a failure on an erased key and on its stale record lead to equivalent records and the same reply |
| SweepInvisible.SameStep | src/Security/LoginRateLimiter.cpp:29-161 | one call answers the same with and without the sweep |
| SweepInvisible.SweepIsInvisible | src/Security/LoginRateLimiter.cpp:117-161 | with and without the sweep the same runs are disciplined and every call gets the same reply |
| SweepInvisible.SweepForgetsLapsed | src/Security/LoginRateLimiter.cpp:117-161 | a sweep that is due, after 60 s, forgets exactly the records whose window has lapsed and every timestamp outside the budget's window |
| SweepInvisible.TableHoldsRecentKeys | src/Security/LoginRateLimiter.cpp:117-139 | after every check or failure the table holds only keys whose window was open less than a minute ago |
| SweepInvisible.ListStandsForHistory | src/Security/LoginRateLimiter.cpp:100-114 | the pruned list is equivalent to the key's whole history |
| SweepInvisible.RegistrationBudget | src/Security/LoginRateLimiter.cpp:89-115 | any stretch of 3600 s, wherever it starts, holds at most three registrations of a key |
| SweepInvisible.BudgetExactlyFor3601Seconds | src/Security/LoginRateLimiter.cpp:89-115 | every half-open stretch of a given length holds at most three registrations of a key in all disciplined runs exactly up to 3601 s |
| JitterBuffering.JitterBuffer.constructor | include/Utils/JitterBuffer.hpp:12-20 | starts with every slot empty and no read head |
| JitterBuffering.JitterBuffer.Push | include/Utils/JitterBuffer.hpp:22-41 | an acceptable packet overwrites slot sequence % 50 with exactly its bytes; anything else changes nothing |
| JitterBuffering.JitterBuffer.Pop | include/Utils/JitterBuffer.hpp:43-61 | returns the slot's bytes exactly when it holds the expected number, empties it and moves the read head |
| JitterBuffering.JitterBuffer.Reset | include/Utils/JitterBuffer.hpp:63-70 | every slot is empty again and the read head is 0; the bytes stay |
| JitterBuffering.SlotsAre50Apart | include/Utils/JitterBuffer.hpp:36-36 | numbers share a slot exactly when they are a multiple of 50 apart |
| JitterBuffering.StoredFrom1To4000Bytes | include/Utils/JitterBuffer.hpp:22-41 | a packet is stored exactly when it has 1 to 4000 bytes and its number is not below the read head |
| PeerPlayback.TakeKeepsOrder | include/Utils/JitterBuffer.hpp:43-61 | the number taken is not below the read head and what is left is above it |
| PeerPlayback.RunKeepsInv | src/Audio/PeerMixer.cpp:14-117 | in every run slot i holds only numbers congruent to i, not yet played and not below the read head, and the counter equals the quiet ticks |
| PeerPlayback.EvictsAtExactlyOneHundred | src/Audio/PeerMixer.cpp:109-112 | the counter is the number of ticks since the last played packet, at most 99, and a tick evicts exactly when it would be 100 |
| PeerPlayback.HandedNumbersIncrease | src/Audio/PeerMixer.cpp:60-107 | with duplicates, reordering, far-ahead packets and decode failures a decoder is handed strictly increasing numbers |
| PeerPlayback.SilenceState | src/Audio/PeerMixer.cpp:88-107 | 99 silent ticks after number 2^32 - 100 leave the peer alive at number 2^32 - 1 |
| PeerPlayback.ZeroIsHandedOver | include/Utils/JitterBuffer.hpp:47-49 | from the hundredth silent tick on the decoder has been given the empty marker as packet number 0 |
| PeerPlayback.OrderExactlyBelowTheWrap | src/Audio/PeerMixer.cpp:41-107 | numbers handed over always increase exactly for senders whose numbers stay 100 below the 32-bit wrap |
| PlaybackWindow.PutOverwritesResidue | include/Utils/JitterBuffer.hpp:36-40 | outside the window a packet replaces whatever shares its slot |
| PlaybackWindow.PutAddsExactly | include/Utils/JitterBuffer.hpp:36-40 | storing a packet adds it to the map without loss exactly when no other pending number shares its residue |
| PlaybackWindow.ReceiveRefines | src/Audio/PeerMixer.cpp:41-46 | inside the window receiving is an update of an unbounded map |
| PlaybackWindow.TickRefines | src/Audio/PeerMixer.cpp:60-107 | a tick on the ring and on the map give the decoder the same packet and stay related |
| PlaybackWindow.RingRefinesMap | include/Utils/JitterBuffer.hpp:22-61 | over every run whose accepted packets are at most 50 ahead, the ring and an unbounded map from number to latest payload are indistinguishable |
| PlaybackWindow.RingIsMapExactly | include/Utils/JitterBuffer.hpp:22-61 | the ring goes through the states of the unbounded map throughout a run exactly when no accepted packet meets another pending one of its residue |
| PlaybackWindow.WaitsItsTurn | src/Audio/PeerMixer.cpp:60-107 | until its tick a pending packet keeps its slot, with the latest payload sent under its number, and its peer lives when something is due in time |
| PlaybackWindow.PlayedAtItsTick | src/Audio/PeerMixer.cpp:60-107 | a packet taken in at distance d is decoded at the d-th following tick, whatever in-window packets follow, when it or a packet pending before it is due before the eviction counter runs out |
| PlaybackWindow.PlayedAtItsTickExactly | src/Audio/PeerMixer.cpp:60-117 | it is decoded at the d-th tick of every in-window continuation exactly when it or a packet pending before it is at most 100 minus the timeout counter ahead of playback |
| PlaybackWindow.QuietRun | src/Audio/PeerMixer.cpp:109-112 | with nothing arriving and nothing due in time the counter runs on to the eviction |
| PlaybackRecovery.NewcomerIsHeard | src/Audio/PeerMixer.cpp:18-37 | the first packet of an unknown or evicted sender is played at the next tick |
| PlaybackRecovery.RoundCostsPatience | src/Audio/PeerMixer.cpp:88-117 | a tick that plays nothing of the sender's advances the eviction counter or uses up a leftover packet |
| PlaybackRecovery.LeftoverHeard | src/Audio/PeerMixer.cpp:60-107 | after an old packet is played no other pending one has its residue, so the next is at most 99 ticks away or too late |
| PlaybackRecovery.SenderIsHeard | src/Audio/PeerMixer.cpp:18-117 | from any reachable state a sender with one packet per tick is played within 100 rounds, less the quiet ticks so far, and 99 more for each packet still pending plus one if there is any |
| RecoveryBound.LongestWaitOccurs | src/Audio/PeerMixer.cpp:18-117 | for every number of pending packets up to a full ring there is a run after which a sender that restarts at 1 is not played in any earlier round |
| PromptRecovery.SomethingHeardWithin101Ticks | src/Audio/PeerMixer.cpp:18-117 | from any reachable state some packet is played within 101 ticks, less the quiet ticks so far |
| PromptRecovery.HeardWithin101TicksExactly | src/Audio/PeerMixer.cpp:18-117 | one of the sender's own packets is played within 101 ticks exactly when no old packet, within the reach given by its slot and the counter, will be decoded first |
| PromptRecovery.RestartIsDelayed | src/Audio/PeerMixer.cpp:41-46 | a sender restarting at 1 with one old packet pending is not heard within 101 ticks |
| PromptRecovery.RoundPending | include/Utils/JitterBuffer.hpp:29-56 | over one arrival and one tick every pending number stays except the one overwritten and the one whose turn it is |
| PromptRecovery.HeardAfterGarbled | include/Utils/JitterBuffer.hpp:31-34 | after a packet failed to decode its number is refused and the next one is heard |
| PeerMixing.PeerAudioState.Accept | src/Audio/PeerMixer.cpp:39-46 | drops numbers already played and passes the rest to the ring |
| PeerMixing.PeerAudioState.PlayFrame | src/Audio/PeerMixer.cpp:60-107 | hands the decoder the expected packet or nothing, and updates sequence and counter by the three cases |
| PeerMixing.DecoderGetsItsTurn | src/Audio/PeerMixer.cpp:60-96 | the decoder is handed the packet whose turn it is, or nothing |
| PeerMixing.PeerMixer.PushPacket | src/Audio/PeerMixer.cpp:14-47 | opens a state for a new sender when a decoder is available, and delivers to that sender alone |
| PeerMixing.PeerMixer.Reset | src/Audio/PeerMixer.cpp:136-140 | forgets every peer |
| PeerMixing.PeerMixer.MixAudio | src/Audio/PeerMixer.cpp:49-134 | every output sample is the clamp of the sum over all decoded peers, every peer takes its tick, and exactly the timed-out ones are erased |
| PeerMixing.PeerMixer.MixPeers | src/Audio/PeerMixer.cpp:56-117 | the loop that erases while iterating visits every peer once, in any order |
| PeerMixing.PeerMixer.VisitPeer | src/Audio/PeerMixer.cpp:58-116 | one peer's tick and eviction leave every other peer alone |
| PeerMixing.AddFrame | src/Audio/PeerMixer.cpp:72-75 | adds the frame to every accumulator without overflow |
| PeerMixing.Saturate | src/Audio/PeerMixer.cpp:119-133 | writes the 16-bit clamp of every accumulator |
| PeerMixing.ClampIsNearest | src/Audio/PeerMixer.cpp:119-133 | clamping takes the nearest 16-bit sample |
| PeerMixing.OnePeerIsHeardAsDecoded | src/Audio/PeerMixer.cpp:53-133 | a peer on its own is heard exactly as decoded |
| PeerMixing.SumTakesAnyFirst | src/Audio/PeerMixer.cpp:56-117 | the mix does not depend on the order the map is iterated in |
| PeerMixing.AccumulatorFitsExactly | src/Audio/PeerMixer.cpp:53-53 | 32-bit accumulators suffice for every mix of up to 65536 peers and not for more |
| PeerMixing.PeersAreIndependent | src/Audio/PeerMixer.cpp:14-140 | in every run of the mixer each peer goes through the states of its own calls alone |
| ChatPaging.FetchPage | src/Database/DatabaseManager.cpp:260-321 | limit + 1 selected rows become a page of the newest candidates whose hasMore flag says exactly whether any candidate is missing; fetchMessagesBefore is the same code over fewer candidates |
| ChatPaging.PagingNeverRepeats | src/UI/DiscordBackend.cpp:618-647 | whatever the ties, pages concatenate to an ascending list without repetition |
| ChatPaging.PagingIsBounded | src/UI/DiscordBackend.cpp:618-647 | paging ends: limit times the pages before the last is at most the size of the channel |
| ChatPaging.NothingIsCutOff | src/Database/DatabaseManager.cpp:323-383 | when no page ends inside a tie, what is not yet loaded is exactly what the next cursor selects |
| ChatPaging.NothingIsSkipped | src/Database/DatabaseManager.cpp:337-340 | with distinct times what is not yet loaded is exactly what the next cursor selects |
| ChatPaging.PagingIsComplete | src/Database/DatabaseManager.cpp:323-383 | with distinct positive times and any limit, paging until it stops loads every message of the channel once, oldest first |
| ChatPaging.CarryOn | src/UI/DiscordBackend.cpp:618-647 | every paging can be carried on until it stops |
| ChatPaging.LaterPagesAreOlder | src/Database/DatabaseManager.cpp:337-340 | a message cut off inside a tie is in no later page |
| ChatPaging.TieIsCut | src/Database/DatabaseManager.cpp:278-280 | for every tie some limit ends a page inside it |
| ChatPaging.CompleteExactlyWhenTimesAreDistinct | src/Database/DatabaseManager.cpp:323-383 | paging is complete for every limit exactly when the channel's timestamps are distinct |
| ChatPaging.CompleteExactlyWhenNoTieIsCut | src/Database/DatabaseManager.cpp:260-383 | for each limit by itself, a paging that has stopped holds the whole channel exactly when no multiple of the limit falls strictly inside a group of messages with equal times |
| ChatPaging.BoundaryOfPage | src/Database/DatabaseManager.cpp:278-280 | in a paging that loads everything the first k pages hold exactly the messages from some time on |
| ChatPaging.LivePagingIsPaging | src/Database/DatabaseManager.cpp:323-383 | pages fetched while the channel gains messages are a paging of the channel as it was at the first page |
| ChatPaging.CompleteDespiteNewMessages | src/Database/DatabaseManager.cpp:260-383 | a stopped paging holds everything that was there at its first page, whatever arrived since, exactly when no page boundary falls inside a tie |
| ChatWire.NumberRoundTrip | src/Core/Application.cpp:677-677 | a printed integer parses back within its type's range and contains no delimiter |
| ChatWire.IsValidDisplayName | src/Core/Application.cpp:22-39 | accepts exactly the names of 1 to 32 characters free of delimiters and control characters |
| ChatWire.BuildChatResponse | src/Core/Application.cpp:668-680 | the appending loop prints the header and every line in order |
| ChatWire.ReadLine | src/Core/Application.cpp:1132-1147 | splits a line at its last pipe and falls back to time 0 |
| ChatWire.ReadHistory | src/Core/Application.cpp:1125-1148 | the getline loop yields every non-empty line, parsed, in order |
| ChatWire.EntryRoundTrip | src/UI/DiscordBackend.cpp:551-576 | author and text are recovered from the joined form, whatever the text contains |
| ChatWire.EntryWithoutAuthor | src/UI/DiscordBackend.cpp:551-576 | a text that names no author is the system's, and a missing time is the clock's |
| ChatWire.LineWithoutTime | src/Core/Application.cpp:1160-1204 | a line without a pipe is all text, with time 0 |
| ChatWire.LineRoundTrip | src/Core/Application.cpp:1127-1148 | a stored row survives printing and parsing although its text may hold pipes and colons |
| ChatWire.HistoryRoundTrip | src/Core/Application.cpp:1117-1204 | a printed page parses back to the same kind, channel, flag and messages |
| ChatWire.RequestRoundTrip | src/Core/Application.cpp:1315-1339 | type, uuid and data of a request come back from its printed form |
| ChatWire.PageRequestRoundTrip | src/Core/Application.cpp:683-691 | the cursor the client asks for is the one the server queries with |
| ChatModel.ChatMessageModel.RefreshGrouping | src/UI/ChatMessageModel.cpp:119-139 | the loop makes every row's flags the function of it and its predecessor |
| ChatModel.FlagsMean | src/UI/ChatMessageModel.cpp:119-139 | a divider stands exactly where more than five minutes passed since the row above, and a row is grouped exactly when it is by the same author without one |
| ChatModel.ChatMessageModel.SetHistory | src/UI/ChatMessageModel.cpp:64-70 | shows exactly the page, with correct flags |
| ChatModel.ChatMessageModel.AppendEntry | src/UI/ChatMessageModel.cpp:72-79 | adds the row at the end, with correct flags |
| ChatModel.ChatMessageModel.PrependEntries | src/UI/ChatMessageModel.cpp:81-92 | puts the page in front, with correct flags |
| ChatModel.ChatMessageModel.TrimToLimit | src/UI/ChatMessageModel.cpp:101-117 | keeps the newest rows up to the limit, with correct flags |
| ChatModel.ChatMessageModel.OldestTimestampMs | src/UI/ChatMessageModel.cpp:59-62 | the time of the first row, 0 when there is none |
| ChatModel.AppendKeepsFlags | src/UI/ChatMessageModel.cpp:72-79 | an append changes no earlier row's flags |
| ChatModel.PrependKeepsFlags | src/UI/ChatMessageModel.cpp:81-92 | a prepend changes the flags of the old first row and of no other |
| ChatModel.TrimKeepsFlags | src/UI/ChatMessageModel.cpp:101-117 | a trim resets the flags of the new first row and changes no other |
| ChatModel.NewestTwoHundredStay | src/UI/DiscordBackend.cpp:796-816 | a message is added to the view, and to a full one at the cost of the oldest of its 200 rows |
| ChatModel.DiscordBackend.SelectTextChannel | src/UI/DiscordBackend.cpp:410-435 | clears the view and the paging flags when the new channel is not the loaded one |
| ChatModel.DiscordBackend.RequestOlderMessages | src/UI/DiscordBackend.cpp:618-647 | queues one page request, anchored on the oldest row, under its four guards |
| ChatModel.DiscordBackend.DequeuePendingHistoryRequest | src/UI/DiscordBackend.cpp:773-785 | requests leave in the order they were queued |
| ChatModel.DiscordBackend.OnAppendMessage | src/UI/DiscordBackend.cpp:796-816 | appends and trims only for the loaded channel |
| ChatModel.DiscordBackend.OnSetHistory | src/UI/DiscordBackend.cpp:818-849 | replaces the view only for the selected channel, which becomes the loaded one |
| ChatModel.DiscordBackend.OnPrependHistory | src/UI/DiscordBackend.cpp:851-885 | ends the request in flight and prepends only for the loaded channel |
| ChatModel.DiscordBackend.OnConfirmLogout | src/UI/DiscordBackend.cpp:1110-1136 | empties the view, the paging flags and the requests |
| ChatModel.HasMoreIsLastFlag | src/UI/DiscordBackend.cpp:818-885 | over every run hasMore is the flag of the last page accepted since the view was cleared, false when there is none |
| ChatModel.InFlightIsWaiting | src/UI/DiscordBackend.cpp:618-647 | over every run the in-flight flag is on exactly while a request was made that neither an older page nor a clearing has ended |
| ChatModel.OneRequestAtATime | src/UI/DiscordBackend.cpp:620-634 | while one is on its way, or another channel is selected than the one shown, no request is queued |
| ChatModel.RequestsLeaveInOrder | src/UI/DiscordBackend.cpp:636-647 | over every run the pending requests are those made since the last logout, in order, less those that left |
| ChatModel.SelectedAndLoaded | src/UI/DiscordBackend.cpp:410-435 | over every run the selected channel is the one chosen last and the loaded one that of the last history page accepted since the last logout |
| ChatModel.RowsBelongToLoadedChannel | src/UI/DiscordBackend.cpp:796-885 | over all interleavings every row shown was delivered for the loaded channel, and every queued request carries the positive time of a row of its channel |
| ChatModel.ShownUnlessLeaked | src/UI/DiscordBackend.cpp:796-885 | a step puts rows of another channel than the selected one into the view exactly when something arrives for a loaded channel that is not selected |
| ChatModel.SelectedChannelExactly | src/UI/DiscordBackend.cpp:796-885 | over a whole run only rows of the selected channel are shown exactly when nothing ever arrives that way, and then every row was delivered for the selected channel |
| ChatModel.MessageOfLeftChannelIsShown | src/UI/DiscordBackend.cpp:800-803 | a run in which a message of the channel left behind is shown under the newly selected one |
| ChatContinuity.JoinsExactly | src/UI/DiscordBackend.cpp:851-885 | a page that ends before one row joins the history from another row on exactly when the two are the same |
| ChatContinuity.RequestsAreAnchored | src/UI/DiscordBackend.cpp:618-647 | every request on its way carries the time of a row that was delivered for its channel |
| ChatContinuity.UnbrokenExactly | src/UI/DiscordBackend.cpp:796-885 | with a server that answers truthfully, the view is at every moment an unbroken end of the loaded channel's history exactly when no non-empty older page arrives for it whose cursor is not the time of the first row shown |
| ChatContinuity.HasMoreTells | src/UI/DiscordBackend.cpp:618-885 | with a truthful server, while nothing is cleared or trimmed and older pages answer for the first row shown, hasMore says exactly whether the channel has rows not shown |
| ChatContinuity.AsksExactlyWhileMoreIsThere | src/UI/DiscordBackend.cpp:618-647 | then the client asks for the page in front of the first row exactly while there is one, and for nothing once the whole channel is shown |
| ChatContinuity.ReturningBreaksView | src/UI/DiscordBackend.cpp:410-435 | an honest run: leaving a channel and coming back while an older page is on its way shows that page without the rows after it |
| ChatContinuity.TrimmingBreaksView | src/UI/ChatMessageModel.cpp:101-117 | an honest run: a message that arrives while an older page is on its way to a full view trims the row the page was requested for |
| LockFreeQueues.LockFreeQueue.ForcePush | include/Utils/LockFreeQueue.hpp:16-29 | the queue holds the newest capacity - 1 of what it held and the item |
| LockFreeQueues.LockFreeQueue.Pop | include/Utils/LockFreeQueue.hpp:31-43 | takes the oldest item, or reports empty |
| LockFreeQueues.LockFreeQueue.IsEmpty | include/Utils/LockFreeQueue.hpp:45-48 | true exactly when nothing is held |
| QueueRuns.StepKeepsNewest | include/Utils/LockFreeQueue.hpp:16-43 | one step of a run of calls is what forcePush and pop are proved to do to the contents |
| QueueRuns.EveryItemAccountedFor | include/Utils/LockFreeQueue.hpp:16-48 | over every sequence of calls the items that left, in order, followed by those held are the items pushed: each is popped, dropped or held once |
| QueueRuns.DropsOnlyWhenFull | include/Utils/LockFreeQueue.hpp:24-28 | an item is dropped exactly when capacity - 1 are held and another is pushed |
| VoiceRouting.ApplyAllSame | src/Core/Application.cpp:162-175 | only the updates naming a client decide its channel |
| VoiceRouting.EnqueueKeeps | src/Core/Application.cpp:331-339 | an update decides its own client's route to come, and the one it pushes out changes no other's |
| VoiceRouting.StepAgrees | src/Core/Application.cpp:315-342 | signing in, changing state, signing out, single pops and relays all keep routing and clients in agreement |
| VoiceRouting.DrainedTableAgrees | src/Core/Application.cpp:159-175 | whenever the queue is drained every signed-in client whose latest update was not dropped is routed to its channel, however the threads interleaved |
| VoiceRouting.PacedTableAgrees | src/Core/Application.cpp:159-175 | with at most 255 updates between drains this holds for every signed-in client |
| VoiceRouting.FloodLosesTheFirst | include/Utils/LockFreeQueue.hpp:24-28 | from the 256th undrained update on the first one's client is lost and has no route to come |
| VoiceRouting.AgreesExactlyUpTo255 | src/Core/Application.cpp:159-175 | the drained table agrees in every run with at most n updates between drains exactly when n is at most 255 |
| VoiceRouting.RoutedWhereLastSeen | src/Core/Application.cpp:600-634 | over every run a client whose latest update was not dropped is routed to its channel while signed in and afterwards to the channel it left from |
| VoiceRouting.VoiceServer.CompleteAuthentication | src/Core/Application.cpp:317-342 | registers the client outside every channel and queues that |
| VoiceRouting.VoiceServer.OnState | src/Core/Application.cpp:612-637 | a signed-in client's channel changes and the change is queued; others are ignored |
| VoiceRouting.VoiceServer.OnLogout | src/Core/Application.cpp:600-611 | the client is forgotten without a routing update |
| VoiceRouting.VoiceServer.DrainRoutingQueue | src/Core/Application.cpp:161-175 | applies every queued update in order and leaves the queue empty |
| VoiceRouting.EndpointIsLastHeard | src/Core/Application.cpp:161-208 | over every run a client's endpoint is valid exactly when it was heard while routed into a channel, and is where it was heard from last; updates of its channel keep it |
| VoiceRouting.ReceiversExactly | src/Core/Application.cpp:193-208 | over every run a packet goes exactly to the others that are routed into its sender's channel and have been heard from |
| VoiceRouting.ClientsAreSignedIn | src/Core/Application.cpp:315-342 | over every run a client is known exactly while signed in, with the channel it last asked for since then |
| VoiceRouting.VoiceServer.OnServerUdpPacket | src/Core/Application.cpp:159-209 | after the drain the packet goes exactly once to each other entry of the sender's channel with a learned endpoint, never to the sender, and to nobody when the sender is unknown or in no channel |
| VoiceRouting.RelayTo | src/Core/Application.cpp:202-208 | the relay loop sends to exactly the entitled entries, once each |
| VoiceRouting.LogoutKeepsRoutes | src/Core/Application.cpp:600-611 | after a drain a signed-out client is routed into a channel exactly when it was in that channel at its last sign-out |
| VoiceRouting.SignedOutStillHears | src/Core/Application.cpp:202-208 | a run in which a signed-out client is still relayed what is said in the channel it left from |
| TcpSessions.HeaderRoundTrip | src/Network/TcpSession.cpp:45-49 | a 32-bit size survives the four header bytes |
| TcpSessions.FramesRoundTrip | src/Network/TcpSession.cpp:109-154 | decoding framed messages gives them back up to the first whose size is refused, where the receiver closes |
| TcpSessions.AllArriveExactlyWhenLegal | src/Network/TcpSession.cpp:116-124 | all messages arrive exactly when every size is between 1 and 1048575 |
| TcpSessions.LegalFrom1To1048575 | src/Network/TcpSession.cpp:116-124 | a single message arrives exactly when it has 1 to 1048575 bytes; any other makes the receiver close |
| TcpSessions.ReceivePrefix | src/Network/TcpSession.cpp:109-154 | fewer bytes yield a prefix of the messages |
| TcpSessions.ReadLoop | src/Network/TcpSession.cpp:109-154 | header, size check, body, message, and again |
| TcpSessions.TcpSession.SendData | src/Network/TcpSession.cpp:35-60 | a live session frames and queues the message and starts a write only when none is active |
| TcpSessions.TcpSession.OnWriteDone | src/Network/TcpSession.cpp:163-174 | a completed write leaves the outbox and the next one starts, or writing ends |
| TcpSessions.TcpSession.OnWriteFailed | src/Network/TcpSession.cpp:175-178 | a failed write starts nothing and asks for the session to close |
| TcpSessions.TcpSession.OnClose | src/Network/TcpSession.cpp:62-81 | the first close marks the session dead and reports the disconnect; a later one does nothing |
| TcpSessions.ClosingTakesEffectOnce | src/Network/TcpSession.cpp:35-81 | over every run a session takes in exactly what is sent before it is closed, is dead exactly from then on, and reports one disconnect |
| TcpSessions.ClosedForGood | src/Network/TcpSession.cpp:40-43 | once closed nothing is queued or written any more; the write under way may finish |
| TcpSessions.RunKeepsInv | src/Network/TcpSession.cpp:35-180 | over every interleaving at most one write is outstanding, it is the outbox front, and the flag is on exactly while the outbox is non-empty |
| TcpSessions.PeerSeesPrefixOfSent | src/Network/TcpSession.cpp:35-180 | what the other side has decoded, even in the middle of a write, is a prefix of what was sent, and legal sizes never make it close |
| TcpSessions.QuietSessionHasDelivered | src/Network/TcpSession.cpp:165-173 | when a healthy session stops writing everything sent has arrived |
| Heartbeat.TimerSteps | src/Network/TcpSession.cpp:182-202 | arrivals and expiries keep the timer's flag meaning what it says |
| Heartbeat.WatchKeepsInv | src/Network/TcpSession.cpp:182-202 | every run of a started timer keeps the flag's meaning: off only when nothing arrived in the current period |
| Heartbeat.SilentSessionIsClosed | src/Network/TcpSession.cpp:182-202 | in every run of the timer a session found open has been silent for at most 90 s |
| Heartbeat.ClosedBetween45And90Seconds | src/Network/TcpSession.cpp:182-202 | in every run of the timer the closing expiry comes after 45 to 90 s of silence |
| Heartbeat.BothEndsAreAttained | src/Network/TcpSession.cpp:182-202 | runs that close after exactly 45 s and after exactly 90 s of silence |
| Heartbeat.IterationKeepsGap | src/Core/Application.cpp:778-790 | whatever early wake-ups occur two sends are less than 41260 ms plus the lateness apart |
| Heartbeat.GapIsAttained | src/Core/Application.cpp:784-786 | a gap one microsecond short of 41260 ms occurs |
| Heartbeat.LoginStartsGap | src/Core/Application.cpp:766-790 | the bound holds from the login on, however stale the heartbeat time is |
| Heartbeat.LoggedInSessionNeverTimesOut | src/Core/Application.cpp:894-902 | client, network and server together: a logged-in session is never timed out while lateness and delay stay within 3740 ms |
| Heartbeat.TooLateRun | src/Core/Application.cpp:778-790 | with any more lateness and delay a legal run from a login times the session out |
| Heartbeat.SafeExactlyWithin3740Ms | src/Core/Application.cpp:894-902 | no legal run times a logged-in session out exactly when lateness and delay together stay within 3740 ms |
| SessionMap.TailscaleNetwork.OnAuthenticated | src/Network/TailscaleNetwork.cpp:167-195 | maps the session under its new uuid, erases its old entry, and tells exactly the previous holder to close |
| SessionMap.TailscaleNetwork.OnDisconnect | src/Network/TailscaleNetwork.cpp:202-222 | erases the session's own entry and nothing else |
| SessionMap.TailscaleNetwork.BroadcastTcp | src/Network/TailscaleNetwork.cpp:423-434 | reaches exactly the mapped sessions, each once while the map is injective |
| SessionMap.MapIsInjectiveAndLive | src/Network/TailscaleNetwork.cpp:167-222 | in every run a mapped session carries its uuid, is connected, and is mapped once |
| SessionMap.DisconnectRemovesOnlyItself | src/Network/TailscaleNetwork.cpp:210-220 | a superseded session's disconnect never removes its replacement |
| SessionMap.AuthenticationDisplacesExactly | src/Network/TailscaleNetwork.cpp:178-182 | signing in leaves all other entries alone exactly when the session's old uuid is unmapped, its own or the new one |
| SessionMap.SupersededSessionUnmapsItsSuccessor | src/Network/TailscaleNetwork.cpp:178-182 | a superseded session that signs in again unmaps a live, authenticated one |
| SessionMap.OnlyHoldersAreMapped | src/Network/TailscaleNetwork.cpp:167-222 | in every run a mapped session is the last to have signed in under its uuid, still connected and not signed in as someone else |
| SessionMap.AlwaysMappedExactly | src/Network/TailscaleNetwork.cpp:167-222 | every such session is mapped throughout a run exactly when no session signs in as someone else while its old uuid is mapped to another |
| SessionMap.OnlySupersededAreClosed | src/Network/TailscaleNetwork.cpp:183-188 | in every run only sessions superseded by another sign-in are told to close |
| SessionMap.SupersededAreClosed | src/Network/TailscaleNetwork.cpp:178-188 | all of them are, as long as nobody displaces another's entry or reclaims its own from a successor |
| SessionMap.ReclaimedIsNotClosed | src/Network/TailscaleNetwork.cpp:178-188 | a run in which a superseded session signs in again as the same and its successor is not told to close |
| AccountStore.DatabaseManager.FindAccount | src/Database/DatabaseManager.cpp:590-631 | finds an account with the name exactly when there is one |
| AccountStore.DatabaseManager.FindSession | src/Database/DatabaseManager.cpp:679-718 | finds an account exactly when an unexpired session with the token exists |
| AccountStore.DatabaseManager.Execute | src/Database/DatabaseManager.cpp:184-212 | one queued call has exactly its effect on the tables and its answer |
| AccountStore.DatabaseManager.WorkerStep | src/Database/DatabaseManager.cpp:203-210 | the worker executes the front of the queue |
| AccountStore.DatabaseManager.Await | src/Database/DatabaseManager.cpp:633-677 | a caller that waits sees its own call executed after everything queued before it |
| AccountStore.NamesAlwaysUnique | src/Database/DatabaseManager.cpp:64-70 | no sequence of tasks gives two accounts the same name |
| AccountStore.NewSessionIsTheOnlyOne | src/Database/DatabaseManager.cpp:746-770 | a revocation queued before the new session's insert leaves only that session, whatever was queued before and whatever the console adds |
| AccountStore.OnlyItsTokenSignsIn | src/Database/DatabaseManager.cpp:697-704 | then a presented token signs in to the account exactly when it is the new one and unexpired |
| AccountStore.RevokedTokenFindsNobody | src/Database/DatabaseManager.cpp:720-744 | a token that was signed out signs nobody in again, whatever else happens |
| AccountStore.RevocationSparesOthers | src/Database/DatabaseManager.cpp:720-744 | it changes no answer about any other token |
| AccountStore.SessionLasts30Days | src/Database/DatabaseManager.cpp:633-718 | a new session signs its account in for 30 days to the second unless it is revoked |
| AccountStore.RegisteredAccountIsFound | src/Database/DatabaseManager.cpp:590-631 | a registered account is found by its name with the password it was given; a taken name is refused and changes nothing |
| AccountStore.IssuedTokenRedeems | src/Database/DatabaseManager.cpp:865-924 | an issued reset token redeems for its account up to the second it expires |
| AccountStore.RefusedTasksChangeNothing | src/Database/DatabaseManager.cpp:633-677 | what a key conflict or a missing row refuses changes nothing |
| AccountStore.TokenRedeemedAtMostOncePerIssue | src/Database/DatabaseManager.cpp:865-924 | over every run redemptions of a token never exceed its issues |
| AccountStore.AnyAttemptUsesTheToken | src/Database/DatabaseManager.cpp:909-917 | after any attempt, late or rejected, the token is refused until it is issued again |
| AccountStore.ReplaceSessions | src/Core/Application.cpp:575-579 | revoke without waiting, create with waiting: the new session is the only one, and sessions of other accounts are untouched |
| AccountStore.ReplacePassword | src/Core/Application.cpp:566-579 | the new password is stored and the new session is the only one, exactly when the account exists |
| AccountStore.ResetPassword | src/Core/Application.cpp:495-523 | succeeds exactly for a valid token of the named user; then the returned session is the only one and other accounts are untouched; otherwise the token is gone and nothing else has changed |
| AccountStore.ChangePassword | src/Core/Application.cpp:552-579 | succeeds exactly when an account of that name exists and its current password matches; then the new password is stored, the returned session is the only one and other accounts are untouched; otherwise nothing changes |

## Left out

- RateLimiting.LoginRateLimiter.SecondsUntilAllowed: each public call reads the clock once, where the code reads it two or three times in a row; counters and durations are unbounded integers.
- RateLimiting.LoginRateLimiter.RecordFailure: the same, one clock reading per call.
- LimiterRuns.HandlersAreDisciplined: the IPv6 form of an endpoint is just another string; the 500 ms penalty sleeps are not modelled.
- JitterBuffering.JitterBuffer.Push: calls are atomic, as PeerMixer's mutex makes them; the memory orderings are not modelled.
- PeerMixing.PeerAudioState.PlayFrame: the jitter buffer, a member held by value, is the ring the JitterBuffer class is proved against rather than an object of that class.
- PeerMixing.PeerMixer.MixAudio: opus_decode is an arbitrary function that fails or fills a whole frame; a short decode, which would leave another peer's samples in the shared buffer, is not modelled.
- PlaybackWindow.PlayedAtItsTickExactly: assumes that every packet decodes and that the pipeline is not reset before the turn.
- PlaybackRecovery.SenderIsHeard: assumes real packets decode; the bound counts leftover packets because each one that decodes restarts the eviction counter.
- PromptRecovery.HeardWithin101TicksExactly: assumes real packets decode and senders stay 100 numbers short of the 32-bit wrap.
- ChatPaging.CompleteDespiteNewMessages: the server's clock does not go back while a client pages.
- ChatPaging.FetchPage: the rows the SQL statement selects are a parameter, any selection that honours its ORDER BY and LIMIT; limits are not negative.
- ChatWire.HistoryRoundTrip: strings are sequences of code units, without UTF-8 conversion; a page that exceeds the 1 MB frame limit is not considered.
- ChatModel.RowsBelongToLoadedChannel: formatted times and avatars are omitted from the rows.
- ChatContinuity.UnbrokenExactly: requests are answered in the order they were sent and none is lost; the time a message is broadcast with is taken to be the time it is stored with, although the code reads the clock for each.
- LockFreeQueues.LockFreeQueue.ForcePush: calls are atomic; when a pop runs between the tail store and the head test (lines 22-25) a full queue cannot be told from a drained one, and that interleaving is not modelled.
- VoiceRouting.VoiceServer.OnServerUdpPacket: uuids have 36 characters, so the fixed-size copies neither truncate nor pad; names, mute and deafen flags of the client profile are omitted.
- TcpSessions.ReadLoop: the chain of completion handlers readHeader and readBody is written as one loop over the bytes; header bytes are little-endian on both sides.
- Heartbeat.LoggedInSessionNeverTimesOut: the server's timer fires on time; processing time counts as lateness of an iteration.
- AccountStore.DatabaseManager.Execute: statements fail only for key conflicts or missing rows, not for I/O errors; hashes are uninterpreted and tokens and ids are fresh.
- AccountStore.ResetPassword: the calls to the limiter and the format checks before the token is looked at are modelled elsewhere or omitted.
- Sockets, scheduling, audio hardware, SQLite and Qt themselves; their effects are events, tables and parameters.
- Voice activation with its hold of 25 frames after speech (`src/Audio/AudioEngine.cpp:141-148`).
- The settings file, error texts, channel creation, WAV files, window management and the program entry point.
