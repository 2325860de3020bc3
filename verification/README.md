# A model of the Freeciv proxy

The proxy stands between LLM agents and the Freeciv C server. This project models its stateful
cores and proves what each keeps over whole runs. Objects that the program updates in place are
classes, their methods proved against functions on values; what the program promises is proved
about those functions, over every run of a state machine that interleaves them.

- `WireCodec` - frames between the proxy and the civserver: printer, reference parser, byte
  machine, and the running receiver over arbitrary `recv` results.
- `Delivery` - batching, holding back and flushing of packets across authentication;
  `AuthenticationGate` - what an agent can be sent before it is let in; `ConnectionLife` - when the
  connection stays open, and that packets then arrive.
- `TokenBuckets`, `ApiRateLimiter`, `ConfiguredLimits`, `RateLimiter` - token buckets with lazy refill and deletion
  of idle buckets; the sliding log in Redis; the in-memory fallback.
- `GameSessions` (specification and state machine), `GameSessionObject` (the class), and the
  theorems in `SessionRules`, `StartOnce`, `PortRelease`, `PauseResume` and `SessionSweep`.
- `HandshakePermits`, `HandshakeObjects` - handshake permits per civserver port.
- `UnitWalk`, `CitySpacing` - tile arithmetic, unit orders, distances on a wrapped map.
- `Bits`, `BitVectors` - byte-packed and word-packed bit sets.
- `Text`, `ApiKeys` - printing and parsing of API keys.
- `JsonLimits` - structure limits on messages.

Assumptions: each method of the program is one atomic step; in a session, a step is the code
between two awaits or under the players' lock. The clock is a parameter that never goes back, read
once per request, and times and tokens are real numbers. A socket is a sequence of readable pieces,
an empty piece being a timeout, which changes nothing. Commands to the civserver and writes to an
open WebSocket arrive.

Where the code does not do what one expects, the model follows the code:

- A peer that closes after half a header is never noticed, and a length of 0 or 2 stalls the
  receiver; a length of 1 is skipped (`WireCodec`).
- The exception exits of authentication turn buffering off before they close the CivCom, whose
  closing flush then reaches the agent; the state-mismatch exit of a fresh CivCom neither closes nor
  detaches it, so all later packets reach an agent that was refused
  (`AuthenticationGate.RefusedAgentGetsPacketsIff`).
- With negative rates, deleting an idle bucket gives its tokens back
  (`ApiRateLimiter.DeletionIsUnobservableIff`).
- Two checks of one key at the same instant share a log entry (`RateLimiter.LogIsExactIff`).
- Two releases of one session can overlap, and then players get in during the second
  (`PortRelease.ReleaseIsExclusiveIff`).
- A pause before the CivCom knows the server's timeout remembers 0, and one above an hour is
  restored as 60 (`PauseResume.ResumeRestoresIff`).
- Returning a port during handshakes gives it a fresh semaphore
  (`HandshakePermits.PortLimitHoldsIff`).
- A batch above the critical size is overtaken, and a second success writes held batches ahead of
  scheduled ones (`Delivery.DeliveredInOrderIff`).
- The stored map information carries no wrap flags (`CitySpacing.FlagsMayBeMissingIff`,
  `CitySpacing.SpacingIsSafeIff`).
- The inline bit tests take a negative number as counting from the end (`Bits.ByteTestAgreesIff`),
  and freeciv-proxy/civcom.py:148 has 116 actions where freeciv-proxy/action_constants.py:70 has 117.
- An agent id that begins another one, up to a colon, resets that one's limits too
  (`RateLimiter.ResetTouchesIff`).
- A game id with a colon makes a key that never validates (`ApiKeys.GeneratedKeyValidatesIff`).

## Model

| member | source | states |
|---|---|---|
| WireCodec.RoundTrip | freeciv-proxy/civcom.py:1427-1434 | Any list of payloads of at most 65532 bytes, framed one after another, is read back as exactly that list, in order, whatever bytes follow. |
| WireCodec.FrameIs | freeciv-proxy/civcom.py:1427-1434 | A frame is its length, counting its own two bytes, high byte first; the payload; and a NUL. |
| WireCodec.MalformedIs | freeciv-proxy/civcom.py:1195-1222 | What a stream that begins with no frame gives: a length of 1 is passed over; a length of 0 or 2, a body cut short, or one without its NUL ends all reading. |
| WireCodec.FeedDecodes | freeciv-proxy/civcom.py:1073-1222 | The receiver taken byte by byte emits, on every byte stream from any frame boundary, exactly what the frame-by-frame reference parser reads, malformed streams included. |
| WireCodec.ArrivesCompleteIffAllFit | freeciv-proxy/civcom.py:1425-1465 | A queue of messages arrives complete if and only if every message is at most 65532 bytes. |
| WireCodec.AnyCutsRoundTrip | freeciv-proxy/civcom.py:1073-1222 | For every list of framable payloads and every way to cut their frames into pieces, the receiver emits exactly those payloads and ends at a frame boundary. |
| WireCodec.FeedAllConcat | freeciv-proxy/civcom.py:1180-1222 | Feeding two pieces one after the other is feeding them glued together: cuts do not matter. |
| WireCodec.CivCom.ReadHeader | freeciv-proxy/civcom.py:1183-1205 | Over any pieces, the header half takes bytes off the socket and advances the byte machine by just those; a closed peer is noticed only with an empty header buffer. |
| WireCodec.CivCom.ReadFromConnection | freeciv-proxy/civcom.py:1180-1228 | Bytes taken plus bytes returned plus bytes unread are the bytes there were; the body never overruns the announced size; when it stops, and when it goes on, is stated both ways. |
| WireCodec.CivCom.AppendToBody | freeciv-proxy/civcom.py:1080-1161 | Appending a piece and completing a frame is feeding those bytes one at a time. |
| WireCodec.CivCom.Run | freeciv-proxy/civcom.py:1073-1164 | However `recv` cuts the stream, the packets handed on are `Decode` of the whole stream, so for framed payloads exactly those payloads, until it is read, closed, or stuck on a length that no branch serves. |
| WireCodec.CivCom.SendPacketsToCivserver | freeciv-proxy/civcom.py:1419-1465 | The wire grows by the frames of the longest sendable prefix, failure is reported iff that is not everything, and the queue ends empty; without a socket nothing changes. |
| AuthenticationGate.AuthSuccessComesFirstIff | freeciv-proxy/llm_handler.py:660-664 | For every run, failures and further attempts on the same connection included: at each point the agent has, and on every continuation will have, `auth_success` before any civserver packet, if and only if no attempt fails in a way that leaks (see `RefusedAgentGetsPacketsIff`). |
| AuthenticationGate.AuthSuccessComesFirst | freeciv-proxy/llm_handler.py:1136-1149 | In every run without such a failure `auth_success` is the first thing sent. The hypothesis leaves out only a failure by exception while packets wait to be batched, and one of a fresh CivCom on an unexpected turn, each before any success. |
| AuthenticationGate.StepKeepsAuthFirstIff | freeciv-proxy/llm_handler.py:1155-1165 | One step, whatever it is, keeps that promise if and only if it is not a failure that leaks. |
| Delivery.DeliveredInOrder | freeciv-proxy/llm_handler.py:1136-1149 | In every run in which no attempt fails and nothing overtakes, the agent has a prefix of the decoded packets in order (those waiting in a reused CivCom first), and while the connection stands, received followed by in-flight is exactly what was decoded. |
| Delivery.NothingLostOrRepeated | freeciv-proxy/civcom.py:1302-1399 | With batches of any size and any number of successful attempts, the packets received and the packets under way are, as a multiset, the packets decoded, while the connection stands. |
| Delivery.BufferStaysBounded | freeciv-proxy/civcom.py:1310-1366 | The held-back buffer never exceeds 200 batches or 5 MB, in any run. |
| ConnectionLife.FlushIs | freeciv-proxy/civcom.py:1302-1399 | Everything a flush does to an open connection, in octets and numbers: it closes it iff packets are to be held back and 200 batches or 5 MB would be exceeded; else the batch is held, delayed above 2 MB, or scheduled, and nothing else changes. |
| ConnectionLife.StaysOpenIff | freeciv-proxy/civcom.py:1322-1344 | A connection is open at the end of a run if and only if nothing closed it: the agent, a join rejected twice, or a flush without room. |
| ConnectionLife.EverythingArrives | freeciv-proxy/llm_handler.py:1136-1149 | In a run in which no attempt fails, nothing overtakes and nothing closes, once the agent is let in, one more flush and the callbacks it leaves complete what was received to all that was decoded, in order. |
| ConnectionLife.RenderedLength | freeciv-proxy/civcom.py:1401-1417 | A batch goes out in brackets and is as long as its packets, its commas and its brackets. |
| ConnectionLife.SuccessIs | freeciv-proxy/llm_handler.py:1136-1149 | A success sends `auth_success` and then each held batch once, in order, and turns buffering off. |
| ConnectionLife.SuccessOnClosedIs | freeciv-proxy/llm_handler.py:1155-1165 | On a closed connection a success is a failure: nothing is sent, and the CivCom is let go. |
| ConnectionLife.FailureIs | freeciv-proxy/llm_handler.py:326-355 | For each of the five failures: whether the CivCom stays attached, what is still held, whether packets are scheduled, and whether the connection closes. |
| ConnectionLife.RetryIs | freeciv-proxy/llm_handler.py:660-674 | A further attempt holds packets back again and reuses the attached CivCom or starts a fresh one. |
| ConnectionLife.ReplacementIs | freeciv-proxy/llm_handler.py:770-800 | A CivCom given up after a rejected join takes its unbatched packets with it and nothing else. |
| ConnectionLife.ClosingIs | freeciv-proxy/civcom.py:1302-1307 | After a close the CivCom is detached and a flush forgets what was decoded. |
| ConnectionLife.WritesAre | freeciv-proxy/civcom.py:1392-1399 | A callback writes the batch scheduled first, a timer the one it was set for. |
| Delivery.DeliveredInOrderIff | freeciv-proxy/civcom.py:1392-1399 | At every point of a run in which no attempt fails the agent has, and on every continuation will have, a prefix of what was decoded, if and only if no flush sends it a batch above the critical size and no repeated success writes held batches ahead of different ones still scheduled. |
| Delivery.StepKeepsOrderIff | freeciv-proxy/civcom.py:1392-1399 | In any ordered state one step keeps that promise if and only if it is neither of the two. |
| Delivery.CriticalBatchIsOvertaken | freeciv-proxy/civcom.py:1392-1399 | After any flush of such a batch, whatever is scheduled, the next small packet arrives before it and the batch after that. |
| AuthenticationGate.RefusedAgentGetsPacketsIff | freeciv-proxy/llm_handler.py:326-355 | Of the five ways in which an attempt fails: an agent never let in can afterwards be sent packets without `auth_success` if and only if the CivCom is left attached with buffering off (a fresh one on an unexpected turn), or an exception found packets not yet batched. |
| Delivery.LlmConnection.SendPacketsToClient | freeciv-proxy/civcom.py:1302-1399 | Batches what waits and holds it, drops it, schedules it or delays it exactly as `SendToClient` says. |
| Delivery.LlmConnection.FlushPacketBuffer | freeciv-proxy/llm_handler.py:4512-4557 | Writes every held batch in order after what was sent before, or none if the connection is closed, and empties the buffer. |
| Delivery.LlmConnection.AbortAuthentication | freeciv-proxy/llm_handler.py:1155-1165 | The exception exits: buffering off, buffer dropped, then the CivCom closes, which flushes; it ends detached with nothing waiting. |
| Delivery.LlmConnection.AbortWithStateMismatch | freeciv-proxy/llm_handler.py:326-355 | The state-mismatch exit: buffering off and buffer dropped; a reused CivCom has been closed before, a fresh one stays attached. |
| Delivery.LlmConnection.ConnectAgain | freeciv-proxy/llm_handler.py:660-674 | A further `llm_connect` turns buffering on again, keeps what is held, and reuses the attached CivCom or starts with a fresh one. |
| Delivery.LlmConnection.CompleteAuthentication | freeciv-proxy/llm_handler.py:1136-1149 | The success exit sends `auth_success` and then the held batches; on a closed connection it is the error exit. |
| TokenBuckets.RefillComposes | freeciv-proxy/api_rate_limiter.py:26-39 | Refilling at t1 and then at t2 leaves the level that refilling at t2 alone leaves. |
| TokenBuckets.LevelInRange | freeciv-proxy/api_rate_limiter.py:26-39 | A level that starts within [0, capacity] stays there. |
| TokenBuckets.HourFills | freeciv-proxy/api_rate_limiter.py:147-176 | A bucket idle for an hour is full, since the fill rate is a sixtieth of the capacity per second. |
| ApiRateLimiter.DeletionIsUnobservableIff | freeciv-proxy/api_rate_limiter.py:147-176 | On every clocked request sequence, with deletion of idle buckets and without, verdicts and retry times agree, if and only if the address rate is zero, or it is positive and the player rate is not negative. |
| ApiRateLimiter.SameAnswers | freeciv-proxy/api_rate_limiter.py:125-145 | The simulation behind it: limiters that agree on all levels answer alike for ever, one deleting and the other not. |
| ApiRateLimiter.NegativeRateShows | freeciv-proxy/api_rate_limiter.py:147-176 | For every other configuration, two requests an hour apart tell the two limiters apart. |
| ApiRateLimiter.WindowBound | freeciv-proxy/api_rate_limiter.py:59-67 | With n the configured number a minute, in every run and for every interval [s, t], a player or an address is granted at most n + n * (t - s) / 60 requests, and none if n is negative. |
| ConfiguredLimits.AddressGetsItsNumber | freeciv-proxy/api_rate_limiter.py:59-61 | From the start, an address whose number a minute is n is granted n requests at one instant (the player's number being no smaller), and the next is refused with a wait of 60/n seconds; with n zero, it raises. |
| ConfiguredLimits.PlayerGetsItsNumber | freeciv-proxy/api_rate_limiter.py:65-67 | Likewise a player, the address's number being greater. |
| ApiRateLimiter.StepSpends | freeciv-proxy/api_rate_limiter.py:125-145 | One request takes one token from each key it is granted on and leaves every other key's level, now and later, alone; deletion changes no level. |
| ApiRateLimiter.RetryAfterIsExact | freeciv-proxy/api_rate_limiter.py:41-47 | For all rates: after a denial with wait r, every attempt before r has passed is denied and does not postpone it, and the first asked at or after r is granted, whatever else is served or deleted meanwhile; at a negative rate of its own, r is negative and nothing is ever granted. |
| ApiRateLimiter.RunSoundWhereRated | freeciv-proxy/api_rate_limiter.py:125-145 | Every run leaves the limiter in a state that theorem is about. |
| ApiRateLimiter.APIRateLimiter.CleanupOldBuckets | freeciv-proxy/api_rate_limiter.py:147-176 | Deletes exactly the buckets idle for more than an hour, and only if five minutes have passed since the last cleanup. |
| ApiRateLimiter.APIRateLimiter.CheckPlayerLimit | freeciv-proxy/api_rate_limiter.py:73-97 | Verdict, retry time and new bucket table are those of `CheckKey`; the address table is untouched. |
| ApiRateLimiter.APIRateLimiter.CheckIpLimit | freeciv-proxy/api_rate_limiter.py:99-123 | The same for addresses. |
| ApiRateLimiter.APIRateLimiter.CheckLimit | freeciv-proxy/api_rate_limiter.py:125-145 | Cleanup, then the address, then the player only if the address was granted. |
| RateLimiter.LogDecidesAsHistory | freeciv-proxy/rate_limiter.py:116-150 | The sorted-set log, which forgets expired entries and expires itself, gives the verdicts of a limiter that counts the full history on every run whose clock does not go back and in which no check falls on the instant of an accepted one. |
| RateLimiter.LogIsExactIff | freeciv-proxy/rate_limiter.py:116-150 | On such a clock, log and history agree on every check and, at each point, on all that could strictly follow, if and only if no check falls on the instant of an accepted one (or the limit lets nothing through). |
| RateLimiter.RepeatIsHarmlessIff | freeciv-proxy/rate_limiter.py:126-148 | From any state that refines a history, one more check at the instant of the last is decided rightly, and every strictly later run is too, if and only if that instant is not an accepted one or the limit is not positive. |
| RateLimiter.LogWindowBound | freeciv-proxy/rate_limiter.py:116-150 | In such runs no half-open window of the configured length ever holds more accepted requests than the limit. |
| RateLimiter.RepeatForgets | freeciv-proxy/rate_limiter.py:126-148 | What goes wrong: an accepted repeat adds no entry, a refused one takes the earlier entry away, so the log refines a history that lacks one request. |
| RateLimiter.EqualTimesForget | freeciv-proxy/rate_limiter.py:126-148 | An instance of it: at limit one, a refused repeat lets a third request through that the history refuses. |
| RateLimiter.MemoryWindowBound | freeciv-proxy/rate_limiter.py:39-62 | Between resets, a key of the in-memory limiter is granted at most limit + limit * (t - s) / window requests in any interval. |
| RateLimiter.MemoryGrantsItsLimit | freeciv-proxy/rate_limiter.py:39-62 | And it is granted as many: of k checks at one instant on a new key, the smaller of k and the limit. |
| RateLimiter.ResetMeetsIff | freeciv-proxy/rate_limiter.py:274-278 | The prefix test of a reset meets a key if and only if the agent id with a colon begins the other id, colon and operation; so it meets every key of the agent itself. |
| RateLimiter.ResetTouchesIff | freeciv-proxy/rate_limiter.py:257-278 | A reset takes a key of another agent if and only if the ids are equal or one with a colon begins the other; without colons, only if they are equal. |
| RateLimiter.RedisRateLimiter.CheckLimit | freeciv-proxy/rate_limiter.py:116-150 | The verdict and the key's new log are those of `LogCheck`; other keys keep theirs. |
| RateLimiter.InMemoryRateLimiter.CheckLimit | freeciv-proxy/rate_limiter.py:39-62 | Verdict and bucket table are those of `MemoryCheck`. |
| RateLimiter.InMemoryRateLimiter.ResetLimits | freeciv-proxy/rate_limiter.py:257-278 | Deletes exactly the keys with the agent's prefix. |
| StartOnce.StartSentAtMostOnce | freeciv-proxy/game_session_manager.py:606-810 | Under every interleaving of joins, marks, departures, game over, sweeps and task resumptions, `/start` is sent at most once, it has been sent iff `game_started`, and all start tasks but the last are done. |
| StartOnce.StartIsSentIff | freeciv-proxy/game_session_manager.py:646-727 | In any state, a step sends `/start` if and only if it wakes a sleeping start task that finds players, every one of them ready, a registry with a CivCom that is alive, live CivComs at all handlers, and one at the first player. |
| StartOnce.WakeSendsIff | freeciv-proxy/game_session_manager.py:656-727 | The same for a start task by itself, with where it and the started flag go. |
| StartOnce.StartNeedsEveryoneReady | freeciv-proxy/game_session_manager.py:656-727 | The step that sends `/start` finds at least one registered player and every one of them marked ready. |
| PortRelease.ClaimedSessionIsEmpty | freeciv-proxy/llm_handler.py:5038-5057 | At every point of every run, a session held by a claim of `on_close` or of the game-over sweep has no players. |
| PortRelease.ClaimsAreJustified | freeciv-proxy/llm_handler.py:5038-5057 | Every step that begins a release begins it without players (unless it is a stale pause), sets the flag, and by `on_close` never for a paused game that is not over. |
| SessionRules.ReleaseBeginsIff | freeciv-proxy/game_session_manager.py:1272-1328 | A step begins a release if and only if the last player leaves a game that is over or not paused, or a sweep finds a finished or an abandoned session. |
| PortRelease.NobodyJoinsDuringRelease | freeciv-proxy/game_session_manager.py:519-574 | From a claim on, until some release reports back or 60 s have passed, no join succeeds and nobody new is registered, whatever joins, closes and sweeps interleave. |
| PortRelease.ReleaseIsExclusiveIff | freeciv-proxy/llm_handler.py:5038-5057 | In every run, at each point no player is inside during a release younger than 60 s that is not of a stale pause, and would not be if any release reported back and anybody then joined, if and only if neither the last player leaving nor the game-over sweep begins a release while one is under way. |
| PortRelease.ReportOpensGateIff | freeciv-proxy/game_session_manager.py:519-574 | In any session with room, whoever joins after a release reported back meets no other release, whichever it was, if and only if there was at most one. |
| PortRelease.StepIsSafeIff | freeciv-proxy/llm_handler.py:5038-5057 | In a session whose young release is alone, one step keeps players out in that sense if and only if it begins no such release while one is under way. |
| PortRelease.LoneReleaseIsExclusive | freeciv-proxy/game_session_manager.py:185-197 | Without such a step in a run, the session is without players for the whole of every such release. |
| PortRelease.RefusedAgentClaimsAgain | freeciv-proxy/llm_handler.py:5038-5057 | While a young release keeps players out of an empty session, an agent that is refused and then leaves starts a second release. |
| PortRelease.OverlappingReleaseMeetsPlayer | freeciv-proxy/llm_handler.py:5038-5057 | The run from the start that shows it: one agent joins and leaves, one is refused and leaves, the first release reports back, and a third agent is inside while the second is under way. |
| PauseResume.PausedMeansStopped | freeciv-proxy/game_session_manager.py:227-296 | Every reachable paused state has server timeout 0 and autotoggle disabled. |
| PauseResume.ResumeRestoresIff | freeciv-proxy/game_session_manager.py:298-373 | After every resume autotoggle is enabled, and the timeout is the original one if and only if there was none, or the CivCom knew it at the first pause and it is at most 3600. |
| PauseResume.ResumesAreSpaced | freeciv-proxy/game_session_manager.py:298-373 | Successful resumes are at least two seconds apart in every run. |
| PauseResume.ResumeNeedsEveryone | freeciv-proxy/llm_handler.py:4764-4832 | A resume happens only on a reconnect to a paused game, with every registered player connected. |
| SessionSweep.SelectedOnce | freeciv-proxy/game_session_manager.py:1274-1328 | No session is selected both as finished and as abandoned. |
| SessionSweep.SelectedAre | freeciv-proxy/game_session_manager.py:1272-1328 | Which sessions are selected, in their fields and in numbers: over, empty and unclaimed; or paused for as long as the limit, not over, with no live socket and no claim younger than a minute. |
| SessionSweep.SweepConserves | freeciv-proxy/game_session_manager.py:1332-1372 | The sessions before are the disjoint union of those kept and those removed; unselected ones are unchanged; selected ones whose release failed are left unclaimed with their players. |
| SessionSweep.FailedReleaseIsRetried | freeciv-proxy/game_session_manager.py:1227-1372 | A session whose release failed is selected again, for the same reason, by every later sweep. |
| SessionSweep.ClaimedIsNotSelected | freeciv-proxy/game_session_manager.py:1274-1328 | While claimed and for 60 s, a selected session is not selected a second time. |
| SessionSweep.GameSessionManager.ClaimFinished | freeciv-proxy/game_session_manager.py:1272-1285 | The first loop collects, each once, exactly the game-over, player-free, unclaimed sessions and claims exactly those. |
| SessionSweep.GameSessionManager.ClaimAbandoned | freeciv-proxy/game_session_manager.py:1289-1328 | The second collects, each once, exactly the stale-paused sessions with no live socket and no claim younger than 60 s. |
| SessionSweep.GameSessionManager.ReleaseCandidates | freeciv-proxy/game_session_manager.py:1332-1370 | Drops the released sessions, frees the others, and returns the number dropped. |
| SessionSweep.GameSessionManager.CleanupStalePausedSessions | freeciv-proxy/game_session_manager.py:1227-1372 | The whole sweep settles exactly the selected sessions and returns how many are gone; disabled or re-entered it changes nothing. |
| SessionRules.JoinIs | freeciv-proxy/game_session_manager.py:513-574 | A joiner is let in if and only if fewer than 30 are in and no release holds the session (see `HeldIs`); let in, it is admitted (see `AdmittedIs`) and no claim remains; refused, nobody changes. |
| SessionRules.HeldIs | freeciv-proxy/game_session_manager.py:519-540 | A release holds the session while its flag is set and it is at most 60 s old or has no time. |
| SessionRules.AdmittedIs | freeciv-proxy/game_session_manager.py:541-574 | A newcomer has no marks, one who is back keeps them, nobody else changes, and enough players move the phase on. |
| SessionRules.ReadinessIs | freeciv-proxy/game_session_manager.py:606-644 | The phase moves on if and only if the session is idle, has enough players, and all of them chose and are ready; then a start task is created if and only if none is pending. |
| SessionRules.MarksAre | freeciv-proxy/game_session_manager.py:576-596 | A mark is set on one registered player alone; a stranger changes nothing. |
| SessionRules.LastMarkCreatesTask | freeciv-proxy/game_session_manager.py:576-644 | The mark that completes an idle session creates a start task. |
| SessionRules.StartPhases | freeciv-proxy/game_session_manager.py:656-810 | Where the phase goes when the start task wakes and when it ends. |
| SessionRules.PauseIs | freeciv-proxy/game_session_manager.py:227-296 | Success, commands, the time of the pause and the timeout remembered, for every session, CivCom and number of failing attempts. |
| SessionRules.ResumeIs | freeciv-proxy/game_session_manager.py:298-373 | Success, commands and new state of a resume, for every session and time. |
| SessionRules.ReconnectIs | freeciv-proxy/llm_handler.py:4764-4832 | A reconnect marks its agent connected, and resumes if and only if everybody then is and the last resume is two seconds ago. |
| SessionRules.EndingsAre | freeciv-proxy/llm_handler.py:5038-5057 | The end of a game is recorded once, with its time; leaving takes out the leaver alone and claims the port if and only if nobody else is left and the game is over or not paused. |
| SessionRules.SweptAre | freeciv-proxy/game_session_manager.py:1199-1328 | What each sweep looks for in one session. |
| SessionRules.DropIs | freeciv-proxy/llm_handler.py:4980-5001 | A socket that closes while its session is kept leaves the player registered, without socket or CivCom. |
| SessionRules.TimesAre | freeciv-proxy/civcom.py:1547-1556 | The clock goes forward only, and a CivCom remembers the last positive timeout it was told. |
| SessionRules.EventsAre | freeciv-proxy/game_session_manager.py:576-596 | Marks, the end of a start task and the end of the game change the session as those operations do, and nothing around it. |
| GameSessionObject.GameSession.AddPlayer | freeciv-proxy/game_session_manager.py:513-574 | Refused while a young release holds the session or 30 players are in; let in, the agent is registered, nobody else changes, and no claim remains; refused, nobody changes. |
| GameSessionObject.GameSession.CheckReadyToStart | freeciv-proxy/game_session_manager.py:606-644 | A task is started only for a session not started, with enough players, all of whom chose a nation and are ready; never two at once. |
| GameSessionObject.GameSession.MarkNationSelected | freeciv-proxy/game_session_manager.py:576-585 | Marks one registered player, leaves the others as they are, and rechecks readiness. |
| GameSessionObject.GameSession.MarkPlayerReady | freeciv-proxy/game_session_manager.py:587-596 | Likewise for readiness. |
| GameSessionObject.GameSession.InitiateGameStart | freeciv-proxy/game_session_manager.py:646-735 | From the end of the sleep to the first await after `/start`: it is sent if and only if there are players, all ready, the registry and all handlers are alive, and the first player has a live CivCom; then the game counts as started. |
| GameSessionObject.GameSession.PauseGame | freeciv-proxy/game_session_manager.py:227-296 | Succeeds iff not paused, with a CivCom, and one of three attempts goes through; sends timeout 0 and autotoggle off; keeps a timeout once remembered. |
| GameSessionObject.GameSession.ResumeGame | freeciv-proxy/game_session_manager.py:298-373 | A resume unpauses and restores the remembered timeout last; a refused one, within two seconds of the last, changes and sends nothing. |
| GameSessionObject.GameSession.CheckAndResumeGame | freeciv-proxy/llm_handler.py:4764-4832 | Marks the agent connected and resumes only a paused game whose players its loop finds all connected. |
| GameSessionObject.GameSession.MarkGameOver | freeciv-proxy/game_session_manager.py:139-183 | Sets the game over once; a second call changes nothing. |
| GameSessionObject.GameSession.OnClose | freeciv-proxy/llm_handler.py:5038-5057 | Removes the player and claims the port iff nobody is left and the game is not paused, or is over. |
| HandshakePermits.PermitsAreConserved | freeciv-proxy/freeciv-proxy.py:202-255 | For every semaphore ever created, in every run, free permits plus connections holding one are six, and permits acquired are permits returned plus permits held. |
| HandshakePermits.ConnectedToOwn | freeciv-proxy/freeciv-proxy.py:202-255 | In every run, who asks for a connection is given one made for its own key, and the one the dictionary has under it. |
| HandshakePermits.ConnectIs | freeciv-proxy/freeciv-proxy.py:202-255 | All answers of a connection request and what each changes: the connection the key already has; refused below port 5000 or if the thread cannot start; waiting without a permit; or a new one. |
| HandshakePermits.ExitIs | freeciv-proxy/freeciv-proxy.py:181-192 | What each exit does to the dictionary: a join reply nothing, the others take out the leaver's key; no other connection changes. |
| HandshakePermits.ExitKeeps | freeciv-proxy/civcom.py:448-464 | Connect failure, crash, join reply, close and socket close each keep that law and leave the connection without a permit. |
| HandshakePermits.PortLimitHoldsIff | freeciv-proxy/freeciv-proxy.py:86-117 | Of the connections made by `WSHandler`: at every point of a run, no continuation that returns only idle ports puts more than six handshakes on any port, if and only if the run itself returns only idle ports. |
| HandshakePermits.PortLimitHolds | freeciv-proxy/freeciv-proxy.py:86-102 | If ports are returned only when no handshake of `WSHandler` on them is under way, no port ever has more than six of them. |
| HandshakePermits.EarlyReturnBreaksPortLimitIff | freeciv-proxy/freeciv-proxy.py:105-117 | After a port is returned, six stays the limit on `WSHandler` connections to it from then on if and only if no handshake of theirs on it was under way. |
| HandshakePermits.SevenOnOnePort | freeciv-proxy/freeciv-proxy.py:105-117 | A run from the start that exceeds it: six connections, the return, and one more make seven. |
| HandshakeObjects.Proxy.GetPortSemaphore | freeciv-proxy/freeciv-proxy.py:86-102 | Finds or makes the port's current semaphore. |
| HandshakeObjects.Proxy.GetCivcom | freeciv-proxy/freeciv-proxy.py:202-255 | Hands out the connection the dictionary has for the key, which is one made for that key; refuses; waits iff the port's semaphore has no permit left; or makes a connection with one permit of the current semaphore, given back if the thread cannot start. |
| HandshakeObjects.Proxy.ReleaseHandshakeSemaphore | freeciv-proxy/civcom.py:448-464 | Gives the permit back the first time and does nothing after that. |
| HandshakeObjects.Proxy.CloseConnection | freeciv-proxy/civcom.py:1230-1263 | Gives the permit back if still held, and takes an attached connection out of the dictionary. |
| UnitWalk.IndexDecodesIff | freeciv-proxy/packet_converter.py:210-217 | A tile index gives back the coordinates it was made from if and only if the column is on the map. |
| UnitWalk.CoordinatesEncode | freeciv-proxy/coordinate_utils.py:114-117 | Every tile index is made from the coordinates it decodes to. |
| UnitWalk.OrderBringsCloser | freeciv-proxy/packet_converter.py:210-232 | From any tile, known or not, to any destination: the order names the direction that lowers the Chebyshev distance by exactly one, on the way to the destination, and -1 iff the unit is there. |
| UnitWalk.OrderNamesTiles | freeciv-proxy/packet_converter.py:210-245 | The order is for the unit's own tile and names the destination by its index. |
| UnitWalk.DirectionIs | freeciv-proxy/packet_converter.py:218-230 | The eight directions are counted row by row from the north-west, leaving out the middle. |
| UnitWalk.WalkArrives | freeciv-proxy/packet_converter.py:210-232 | On the map, repeating it, the unit is n closer after n orders, arrives after exactly max(|dx|, |dy|), and never leaves the rectangle spanned by start and goal. |
| UnitWalk.WalkEndsIff | freeciv-proxy/packet_converter.py:210-232 | The orders come to an end if and only if the destination is a tile: its column on the map and its row not negative. |
| CitySpacing.AxisDistanceIsLeast | freeciv-proxy/civcom.py:1025-1033 | min(d, size - d) is the least distance over all translates of a wrapped axis, is attained, and is symmetric. |
| CitySpacing.ApartIff | freeciv-proxy/civcom.py:1025-1035 | On the map, the computed distance reaches the minimum if and only if every pair of translates is that far apart. |
| CitySpacing.AllowedIff | freeciv-proxy/civcom.py:993-1040 | A founding is allowed if and only if the tile is not ocean and every known city is far enough away over all translates. |
| CitySpacing.ReasonIs | freeciv-proxy/civcom.py:1010-1040 | The reason given is the ocean if and only if the tile is ocean, else the first city that is too close, with its distance. |
| CitySpacing.SpacingIsKept | freeciv-proxy/civcom.py:993-1040 | From well-spaced cities, any sequence of attempted foundings leaves them well spaced. |
| CitySpacing.FlagsMayBeMissingIff | freeciv-proxy/civcom.py:1525-1532 | Stored map information has no wrap flags; the check without them is right everywhere on the map if and only if the minimum is trivial or at least the size of every wrapping axis. |
| CitySpacing.SpacingIsSafeIff | freeciv-proxy/civcom.py:993-1040 | With the map information as stored, every sequence of foundings from well-spaced cities leaves them well spaced on the real map if and only if that same condition holds. |
| BitVectors.BitVector.IsSet | freeciv-proxy/bitvector.py:52-68 | Answers membership, false for negative and out-of-range numbers. |
| BitVectors.BitVector.Set | freeciv-proxy/bitvector.py:70-85 | Adds exactly one member; the list grows with zero bytes just as far as it must; negative numbers change nothing. |
| BitVectors.BitVector.Unset | freeciv-proxy/bitvector.py:87-99 | Removes exactly one member, never changes the length, and changes nothing for a non-member. |
| BitVectors.BitVector.ToSet | freeciv-proxy/bitvector.py:101-107 | Returns exactly the members. |
| BitVectors.BitVector.ToList | freeciv-proxy/bitvector.py:109-115 | Returns the strictly increasing list of exactly the members. |
| BitVectors.BitVector.Length | freeciv-proxy/bitvector.py:117-119 | Is eight times the number of bytes and above every member. |
| BitVectors.IncreasingListIsUnique | freeciv-proxy/bitvector.py:109-115 | There is only one strictly increasing list of a set. |
| BitVectors.UnitTypeActions | freeciv-proxy/civcom.py:893-908 | Lists, in ascending order, exactly the members below the action count. |
| Bits.SetDeterminesBytes | freeciv-proxy/bitvector.py:44-68 | Equally long byte lists that stand for the same set are the same list. |
| Bits.UnsetUndoesSet | freeciv-proxy/bitvector.py:70-99 | Unsetting after setting restores the bytes if and only if the bit was clear before. |
| Bits.ByteTestIsMembership | freeciv-proxy/civcom.py:855-864 | What the inline byte test answers for every integer: membership, counting back from the end for negative numbers, or an index error. |
| Bits.ByteTestAgreesIff | freeciv-proxy/civcom.py:882-891 | It agrees with the class if and only if the number is not negative, or counts back to a bit that is clear. |
| Bits.ActionTestIsMembership | freeciv-proxy/civcom.py:698-734 | For actions the range check comes first, so the test never fails and is membership below the action count. |
| Bits.CityTestIsMembership | freeciv-proxy/civcom.py:837-891 | For what a city can build, and every integer id: an empty or missing list allows everything; otherwise membership, negative ids counting from the end or raising an index error. |
| Bits.WordTestAgrees | freeciv-proxy/civcom.py:962-984 | The 32-bit-word test is membership in the words split into little-endian bytes; without words, every unit class is native. |
| ApiKeys.GeneratedKeyValidatesIff | freeciv-proxy/auth.py:73-144 | A generated key is accepted, for the same player and the same game, if and only if the game id has no colon and the key is not too old; otherwise it is rejected (or, on a clock beyond the range of floats, raises). |
| ApiKeys.AcceptedIffGenuine | freeciv-proxy/auth.py:92-144 | A key is accepted, for a player and a game, if and only if it is `fcv_player:game:time_` and then the first 16 hexadecimal digits of the hash of just that payload, digit by digit, with numbers where numbers belong, and at most the configured days old. |
| ApiKeys.ForeignSignatureIsRejected | freeciv-proxy/auth.py:113-124 | One payload's signature under another payload is rejected, whenever their hashes differ in the first eight bytes. |
| ApiKeys.SignaturesAgreeIff | freeciv-proxy/auth.py:84-89 | Two payloads have the same signature if and only if their hashes begin with the same eight bytes. |
| ApiKeys.GeneratedIs | freeciv-proxy/auth.py:73-90 | What is generated: nothing without a secret, else the player, the game and the second, with the hash of just that, digit by digit. |
| ApiKeys.RaisedIff | freeciv-proxy/auth.py:119-137 | Validation ends in an exception if and only if the text after the last underscore has a character outside ASCII, or a rightly signed key of the documented form has a time too large for a float. |
| ApiKeys.KeyLeadsToPayload | freeciv-proxy/auth.py:107-124 | A key made for any payload, underscores included, is taken apart into exactly that payload and passes the signature test. |
| Text.SplitIff | freeciv-proxy/auth.py:126-130 | Splitting is the only way to cut a text into separator-free pieces that join back to it. |
| Text.SplitLastIff | freeciv-proxy/auth.py:107-111 | Splitting once from the right cuts at the last separator. |
| Text.ParsePrint | freeciv-proxy/auth.py:130-132 | Every integer is read back from its decimal form. |
| Text.ParseIntIff | freeciv-proxy/auth.py:130-132 | What is read as an integer: exactly a numeral with one sign or none and blanks around it, as its signed value. |
| Text.ParseNatIff | freeciv-proxy/auth.py:130-132 | A numeral is digits with single underscores between them, worth what it shows from left to right. |
| Text.BlanksAre | freeciv-proxy/auth.py:130-132 | The blanks around a number are the ASCII characters 9 to 13 and 28 to 32. |
| JsonLimits.MessagePassesIff | freeciv-proxy/message_validator.py:311-362 | A message passes if and only if it is an object and every value in it, by path, is at depth at most 10 and obeys the limits on keys, arrays and strings. |
| JsonLimits.CheckIsExact | freeciv-proxy/message_validator.py:326-362 | The same for any value at any starting depth. |
| JsonLimits.ComplaintIsJustified | freeciv-proxy/message_validator.py:328-362 | Every complaint is true of some value in the message. |
| JsonLimits.MessageComplaint | freeciv-proxy/message_validator.py:318-362 | A message is refused as no object if and only if it is none; every other complaint is true of some value in it. |
| JsonLimits.MessageIsBounded | freeciv-proxy/message_validator.py:65-70 | A message that passes has at most 1 + 50 * (1 + 100 + ... + 100^9) values, less than the sum of 100^i for i up to 10. |
| JsonLimits.BoundIsReached | freeciv-proxy/message_validator.py:65-70 | A message that a parser can return (no object has a key twice) passes and has exactly that many. |

## Left out

- Sockets, WebSockets, HTTP, Redis networking, tracing, logging and the event loop itself: step inputs, reliable queues or parameters.
- Preemption inside one method: `_release_handshake_semaphore` and the buffer check of `send_packets_to_client` check and then act; each is one step here.
- Packet contents in the receiver: UTF-8 decoding, the parsing and storing of state, and the ping filter. Packets are byte strings and all are forwarded.
- Chat events, which the receiver thread hands straight to the agent's socket beside the packets (freeciv-proxy/civcom.py:1115-1138).
- A size above 32767 in a header is only logged by the program, so the model accepts it.
- The CivCom and the handler it refers to are one class in `Delivery`: every call between them goes to the other's fields anyway.
- A further attempt that makes a second CivCom while the first is still attached: the model reuses the attached one. Batches delayed by `call_later` come back in any order.
- Token buckets and player records are values in a map, not objects, so aliasing of one bucket object is not captured; likewise the byte list a `BitVector` shares with its creator, and the sessions in the manager's dictionary.
- SessionSweep.GameSessionManager.CleanupStalePausedSessions: nothing else changes the table while the releases run; what may interleave with one session's release is the subject of `PortRelease`.
- A reset in Redis matches its keys as a glob pattern; only the in-memory reset is modelled.
- PortRelease.ReleaseIsExclusiveIff: does not promise a session without players during the release of a stale pause, which may begin with players registered but not connected.
- The CivComs of LLM agents and of observers, which take no handshake permit (freeciv-proxy/llm_handler.py:4465).
- Redis errors and the fallback to memory; the Redis clock is taken to be the proxy's, with one caller at a time. `get_remaining`, burst limits and the circuit breaker would only add easy members.
- GameSessionObject.GameSession.PauseGame: an attempt that raises sends nothing; how many do so is a parameter.
- The polling of the start task after `/start` is one later step that may succeed or fail at any time, which allows more runs than the program has. A caller that must wait for a handshake permit is a step that changes nothing.
- The minimum number of players at `/start`: the program does not recheck it after its wait.
- That ENDED is final for `phase`: the start task may overwrite it; `gameIsOver` is what stays.
- Liveness of start, pause and resume: several paths deliberately give up.
- Delivery.DeliveredInOrder: leaves out failed attempts and CivComs replaced after a rejected join, which give up packets on purpose, and the runs that `Delivery.DeliveredInOrderIff` shows to break the order.
- The welcome message that opens every WebSocket (freeciv-proxy/llm_handler.py:318-323): `Delivery` begins later, when buffering is switched on.
- UnitWalk.WalkArrives: takes a known tile and a destination on the map, since it is about arriving there; `UnitWalk.WalkEndsIff` says what happens otherwise. That the server moves the unit as ordered is an assumption.
- CitySpacing.SpacingIsKept: takes cities and attempts on the map, which the server guarantees.
- `native_to` given as a single integer, and words wider than 32 bits, in the terrain test; other packings of bits.
- In `int(s)`, digits and blanks outside ASCII and the limit on very long numbers. Player ids are integers; HMAC is an arbitrary function to bytes.
- The session table, session caps and cleanup in freeciv-proxy/auth.py, message schemas, content rules and the byte limit in freeciv-proxy/message_validator.py: long but easy.
- Priorities among the ways to name a target in freeciv-proxy/coordinate_utils.py, and the other branches of the packet converter.
- Vision sharing, disbanding, the wonder cache, the local moves check, AI slots, game settings, prompts, monitoring pages and admin handlers.
