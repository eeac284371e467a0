# Spot client: verified model

Spot is a messaging network: clients hold websocket connections to relay
servers and exchange end-to-end encrypted messages addressed to `k.<key hash>`.
This project models the client and its wire protocol in Dafny and proves what
they promise. It has two halves.

**The concurrent client core.** Each shared structure is a labelled step system,
one step per atomic operation or lock-protected section, with any number of
threads interleaving. `After(ls)` is the state after the steps `ls` (if each was
enabled), so a lemma about `After(ls)` is about every reachable state.

- `Outgoing`: the outgoing queue drained by writers that put a message back in
  front when a send fails, and die. Bounded reordering, conservation, FIFO with
  one writer, and exactly when FIFO holds.
- `OnlineLock`: everything under the online-count lock: sessions, `wait_online`,
  the moving threshold, `close`, events. No lost wake-up, event history.
- `Supervision`: host registry, connection counters, threshold, connection cap.
- `Sessions`: the two together, with one writer for each online session.
- `GiveUp`: one connection thread's retry loop.
- `Queries`: reply queues keyed by UUID text, and routing.
- `Rpc`: a remote call from end to end, between two clients or to a server.
- `Cascade`: a network of clients; replies never cascade and exchanges end.
- `WasmOut`: the browser client's queue and shared sink; a refinement of `Outgoing`.
- `Events`: the event hub and the online counter, as objects.

**Codecs and folds.** Loops over machine words are methods proved equal to
reference functions over unbounded integers, and the laws are proved of those.

- `Bits`, `Radix`: bitwise operators on naturals; byte strings and symbol strings
  as one big number in two bases.
- `Base64Url` (section 5 of RFC 4648), `Base32` (section 6 of RFC 4648).
- `Varint`, `Utf8`, `Wire`: the message and packet formats.
- `Address`, `Uuid`: client addresses and UUID text.
- `Groups`: group memberships updated in place, against a plain map.

Modelling choices. A Rust `String` is the sequence of its UTF-8 bytes. `usize` is
64 bits. Cryptography is a parameter. What a call needs of it is that what is
sealed for a key opens with it, and what is only signed opens with any
(`Rpc.Ideal`, `Rpc.SigningIdeal`, both met in `Rpc.IdealExists`). What the
acceptance results need is that opening follows a log of what key holders have
issued: it reports a signer only for what that signer issued, and opens what was
sealed for one of the opening keys (`Rpc.OpensExactly`). The log may hold as little
as nothing: `Rpc.LogExists` meets the law for every log of seals.
Dialing, sending, clocks and handlers are parameters or nondeterministic labels.
The `bottlers` varint functions are not part of the repository and are modelled
as unsigned LEB128 of at most ten bytes. The relay puts `k.<hash>` of the origin
in front of a sender. Identifiers of unfinished queries are taken to differ.

Where the code falls short of a natural reading, the model follows the code:

- The threshold is capped by the length of the host list so that `wait_online`
  can be satisfied (comment at spotlib/src/conn.rs:77-78). With a host listed
  twice it still may not be: `Supervision.WaitSatisfiable` gives the exact
  condition and `Supervision.DuplicateHostDefeatsWait` an instance.
- Falling below the threshold should bring a fresh host list
  (spotlib/src/conn.rs:42-44). After an empty list it never does
  (`Supervision.EmptyListIsFinal`); `Supervision.RefetchExactly` shows that this is
  the only case while the client is open.
- `close` notifies without the lock, so a waiter can miss it:
  `OnlineLock.CloseCanBeMissed` is a run, `OnlineLock.CloseMissedExactly` says who.
- A session is to count as healthy after 30 s online, past the handshake
  (spotlib/src/conn.rs:37-41). The clock starts before the handshake:
  `GiveUp.SlowHandshakeKeepsHost`, with the condition in `GiveUp.DocumentedExactly`.
- Two failed sends can swap messages: `Outgoing.TwoFailuresSwap`. In the browser
  two sends awaited at once can: `WasmOut.Overtakes`.
- A failing group update leaves the card changed but its signed form stale:
  `Groups.FailureMidwayDesyncs`, with the condition in `Groups.SyncAfterHandled`.
- A malformed name can grow past 256 bytes when decoded lossily, so a parsed
  message need not parse again: `Wire.ReparseCanFail`.
- In the browser a closing connection clears the sink of another one
  (`WasmOut.OnlineWithoutSink`), and so does a late failed send
  (`WasmOut.StaleSendStrands`); `WasmOut.SinkExactly` says when a sink is installed.

Verify with `dafny verify dfyconfig.toml`.

## Model

| member | source | states |
|---|---|---|
| Outgoing.Invariant | spotlib/src/client.rs:86-111 | In every interleaving of pushes with any number of writers: what was ever popped is a prefix of the pushes; the queue is the messages put back, then the never-popped rest in push order; every push is queued, held or sent exactly once; put back plus held is at most the largest number of writers alive at once. |
| Outgoing.StepKeepsInv | spotlib/src/conn.rs:195-225 | Each step (push, spawn, pop, send, failed send, requeue, exit) keeps that invariant. |
| Outgoing.PopKeepsInv | spotlib/src/client.rs:97-111 | Popping takes a message put back if there is one, else the next push, and only then the prefix of popped pushes grows. |
| Outgoing.BoundedReordering | spotlib/src/conn.rs:209-223 | The k-th message sent was among the first k + (writers at once) pushes, and none is sent twice. |
| Outgoing.SingleWriterFifo | spotlib/src/conn.rs:227-230 | With one writer alive at a time (each session joins its writer), sent ++ held ++ queued is the push history in order, across failures and reconnects. |
| Outgoing.BoundIsTight | spotlib/src/conn.rs:195-225 | For every n, n writers can send the n-th push first: the reordering bound is reached. |
| Outgoing.FifoExactly | spotlib/src/client.rs:76-83 | Sending in push order is guaranteed if and only if no two writers coexist. |
| Outgoing.TwoFailuresSwap | spotlib/src/conn.rs:219-223 | Two failed sends put their messages back in swapped order. |
| Outgoing.Drains | spotlib/src/conn.rs:195-225 | From every reachable state an idle writer whose sends succeed, undisturbed, sends all that is queued, in queue order, and is idle again; the other writers stay as they are. |
| Outgoing.WriteQueue.Push | spotlib/src/client.rs:87-90 | Refines the push step: takes the queue of any state to the queue after that step. |
| Outgoing.WriteQueue.PushFront | spotlib/src/client.rs:92-95 | Refines the requeue step of any failing writer that holds this message. |
| Outgoing.WriteQueue.TryPop | spotlib/src/client.rs:97-111 | One pass of the waiting loop refines the pop step: it yields a message exactly when that step is enabled for an idle writer, the one the writer then holds, and leaves the queue after the step. |
| Outgoing.WriterLoop | spotlib/src/conn.rs:195-225 | One writer's loop: what it sent followed by what is left is what was queued, every send it counts succeeded, and it stops at the first that fails with that message back in front. |
| OnlineLock.Invariant | spotlib/src/client.rs:278-301 | Over all interleavings: mutual exclusion, the threshold and count a waiter decides on are current, the count equals the sessions between increment and decrement, and no wake-up is lost. |
| OnlineLock.NoLostWakeup | spotlib/src/client.rs:1205-1227 | A waiter parked while enough connections are online (the threshold and at least one) has been signalled or a notification is on its way; with the lock free only by the main thread between unlock and notify. |
| OnlineLock.WaitAnswers | spotlib/src/client.rs:1208-1226 | Whatever the interleaving: the waiter answers success if and only if its check, under the lock, finds at least the threshold of that moment and at least one online, even when closed; closed if and only if there are too few and the flag is set; after that it times out if the deadline has passed and parks if and only if not, with too few online still. |
| OnlineLock.WaitRuns | spotlib/src/client.rs:1205-1227 | Alone with the lock, from any reachable state: `wait_online` ends in success when enough are online, else in closed when the flag is set, else in a time-out when the deadline has passed, else parked; in each case with the lock free and everything else as it was. |
| OnlineLock.ParkedResumes | spotlib/src/client.rs:1220-1225 | A parked waiter can resume at any time, the lock held or not, and then starts over. |
| OnlineLock.IncrRuns | spotlib/src/client.rs:278-289 | Alone with the lock: one more is counted, every parked waiter is signalled, and from zero live subscribers hear Status(1) then Online, nothing otherwise. |
| OnlineLock.DecrRuns | spotlib/src/client.rs:291-301 | Alone with the lock: one less is counted, nobody is signalled, and to zero live subscribers hear Status(0) then Offline, nothing otherwise. |
| OnlineLock.MainRuns | spotlib/src/conn.rs:82-89 | Alone with the lock: the threshold is the new one, every parked waiter is signalled, nothing else changes. |
| OnlineLock.CloseRuns | spotlib/src/client.rs:1135-1141 | Whoever holds the lock: the flag is set, every parked waiter is signalled, nothing else changes. |
| OnlineLock.CloseMissedExactly | spotlib/src/client.rs:1135-1147 | In every reachable state in which a thread is about to notify in `close`: a thread can be parked, unsignalled, at some time after that notification if and only if it is a waiter that has found the client open and not parked yet. |
| OnlineLock.CloseCanBeMissed | spotlib/src/client.rs:1135-1147 | A run in which a waiter parks, unsignalled, after `close` stored the flag and notified. |
| OnlineLock.DecrementIsSafe | spotlib/src/client.rs:291-293 | Whoever is about to decrement finds the count at least one. |
| OnlineLock.EventHistory | spotlib/src/client.rs:278-301 | The event log is always a prefix of Status(1), Online, Status(0), Offline repeated; Online minus Offline is 0 or 1, and with the lock free 1 exactly when the count is positive; every live subscriber has the whole log since it subscribed, and one that left a contiguous part. |
| OnlineLock.HearsEverythingSince | spotlib/src/events.rs:31-43 | Over all interleavings, whoever subscribes hears exactly the events since then, as long as the subscription is not dropped. |
| OnlineLock.LogInvariant | spotlib/src/events.rs:31-43 | The log's position in the cycle follows from the count and the lock holder's position, in every reachable state. |
| OnlineLock.CountCyclic | spotlib/src/client.rs:281-287 | In such a log of n events there are (n+2)/4 Online and n/4 Offline. |
| Events.Hub.Subscribe | spotlib/src/events.rs:31-35 | A new live subscriber with an empty stream is added at the end. |
| Events.Hub.Emit | spotlib/src/events.rs:38-43 | Every live subscriber receives the event once, the others nothing, and exactly the live ones stay, in order. |
| Events.SendAll | spotlib/src/events.rs:39-42 | The retain loop: every channel in turn receives the event if live, and the live ones are returned in order. |
| Events.LiveSubset | spotlib/src/events.rs:38-43 | The subscribers kept are exactly the live ones, still distinct. |
| Events.OnlineCount.Incr | spotlib/src/client.rs:278-289 | From zero, live subscribers receive Status(1, total) then Online; otherwise nothing. |
| Events.OnlineCount.Decr | spotlib/src/client.rs:291-301 | To zero, live subscribers receive Status(0, total) then Offline; otherwise nothing. |
| Supervision.Invariant | spotlib/src/conn.rs:91-111 | Over all interleavings of the main thread with any number of connection threads: registry, counters, cap and offered hosts are as the next rows use them. |
| Supervision.Supervised | spotlib/src/conn.rs:110-157 | The registry is exactly the hosts of registered threads and the one about to be spawned; no two registered threads share a host; both counters are exact, never negative, and online never exceeds connections. |
| Supervision.ConnectionCap | spotlib/src/conn.rs:56-72 | Whatever lists the server returns, connections stay within 19 plus the threads spawned but uncounted when the main thread compared counts. |
| Supervision.CapIsTight | spotlib/src/conn.rs:64-69 | A run reaches 19 connections with every thread counted at each comparison. |
| Supervision.ThresholdRange | spotlib/src/conn.rs:75-81 | A refresh sets a threshold of at most 10 and at most the hosts fetched, zero only for an empty list: the reported one when it is possible, otherwise all the hosts. |
| Supervision.EmptyListIsFinal | spotlib/src/conn.rs:64-69 | After an empty host list no run ever fetches or spawns again. |
| Supervision.Refetches | spotlib/src/conn.rs:42-44 | From every reachable state with the client open and a positive threshold, losing connections can bring the main thread to fetch, without closing and without an answer in between. |
| Supervision.RefetchExactly | spotlib/src/conn.rs:64-69 | As long as the client stays open, another fetch can come if and only if the last list fetched was not empty. |
| Supervision.FirstFetchIsRetried | spotlib/src/conn.rs:49-71 | As long as no fetch has succeeded and the client is open, another fetch can still come. |
| Supervision.ShutsDown | spotlib/src/conn.rs:56-157 | From every reachable state, a close can be followed by steps after which the main thread has stopped, every connection thread has left, both counters are zero and the registry is empty. |
| Supervision.OnlineWithinOffered | spotlib/src/conn.rs:91-101 | Connections online never exceed the registered hosts, nor the different hosts ever offered. |
| Supervision.WaitSatisfiable | spotlib/src/conn.rs:77-81 | For a server that keeps giving one answer: enough connections for `wait_online` can come online if and only if a host is listed and either no host is listed twice or the reported number is between 1 and the number of different hosts. |
| Supervision.DuplicateHostDefeatsWait | spotlib/src/conn.rs:77-81 | A host listed twice with no reported number makes the wait unsatisfiable. |
| Supervision.Registry.RunConnect | spotlib/src/conn.rs:74-106 | One refresh: sets the threshold, registers every host seen before closing, and spawns one thread for each that was not registered, once, in order; a failed fetch changes nothing. |
| Supervision.UnregisteredOnce | spotlib/src/conn.rs:95-98 | The hosts spawned for are exactly those listed and not yet registered, without repetition. |
| Sessions.ReorderingCap | spotlib/src/conn.rs:186-230 | In every interleaving of connection threads, sessions, their writers and pushes, the k-th message sent was among the first k + 19 pushes, plus one for each thread spawned but uncounted when the main thread compared counts. |
| Sessions.WritersWithinSessions | spotlib/src/conn.rs:186-230 | Writers alive at once never outnumber online sessions: each session starts one and joins it before it ends. |
| Sessions.Invariant | spotlib/src/conn.rs:186-230 | Every live writer belongs to an online session of its own, and the largest number alive at once stays within the connection cap. |
| Sessions.Projects | spotlib/src/conn.rs:110-230 | The supervision part and the queue part of every run are runs of `Supervision` and `Outgoing`. |
| Sessions.SessionSends | spotlib/src/conn.rs:186-225 | From every reachable state an online session without a live writer can start one that sends all that is queued, in queue order, while no thread moves. |
| Sessions.AnySupervision | spotlib/src/conn.rs:110-157 | Conversely every run of `Supervision` is a run here, with nothing pushed and no writer started. |
| GiveUp.ConnThread | spotlib/src/conn.rs:118-153 | Gives up exactly at the 11th consecutive attempt without a healthy session unless the client closes first; always ends when healthy sessions are finitely many, after at most 11(k+1) attempts for k of them. Healthy is the code's test: handshake completed and at least 30 s from dialing done. |
| GiveUp.GetsThereExactly | spotlib/src/conn.rs:118-153 | Whatever the attempts, healthy or not: the thread comes to its check before attempt n if and only if no streak without a healthy session has reached 11 by then and no earlier check saw the client closed; and then its counter is that streak. |
| GiveUp.EndsWhereCounterEnds | spotlib/src/conn.rs:118-153 | What the loop's method promises fixes where it ends: it comes to every check before its last attempt, and to none after. |
| GiveUp.AttemptsBounded | spotlib/src/conn.rs:118-153 | While it keeps trying, n attempts need n <= 11 k + (attempts since the last session the code takes for healthy). |
| GiveUp.StreakMeaning | spotlib/src/conn.rs:131-146 | The failure counter is the number of attempts since the last session that completed its handshake and lasted at least 30 s, handshake included. |
| GiveUp.DocumentedExactly | spotlib/src/conn.rs:37-41 | Over any number of attempts the counter follows the documented rule (30 s online, past the handshake) if and only if no session under 30 s online is brought to 30 s by its handshake. |
| GiveUp.SlowHandshakeKeepsHost | spotlib/src/conn.rs:131-141 | Sessions of 29 s handshake and 1 s online keep the counter at zero for ever, where the documented rule counts every one. |
| GiveUp.NeverHealthy | spotlib/src/conn.rs:113-127 | Without healthy sessions the counter equals the attempts made. |
| GiveUp.BoundIsTight | spotlib/src/conn.rs:118-153 | For every k, a sequence with k healthy sessions lasts exactly 11(k+1) attempts. |
| Queries.Invariant | spotlib/src/client.rs:305-334 | Over all interleavings of queries and readers: map entries and open queries correspond one to one, each query is bound to at most one message, and only to one addressed to its key. |
| Queries.ReplyMatching | spotlib/src/client.rs:431-461 | The map's keys are exactly those of queries registered and neither answered nor returned; each query is sent at most one message, with its own key as first path segment; and whatever it returns is that message (that it does return it: next rows). |
| Queries.KeyGoneOnExit | spotlib/src/client.rs:538-549 | However a query ends, its key is gone and no entry leads to it. |
| Queries.ReplyReachesItsQuery | spotlib/src/client.rs:316-325 | A message with an open query's key is taken for that query; one with the key of a query not open is not. |
| Queries.CanRegister | spotlib/src/client.rs:434-446 | From every reachable state a query with an unused identifier can begin and register, open and with an empty mailbox. |
| Queries.AnsweredQueryReturns | spotlib/src/client.rs:452-478 | From every reachable state with an open query, a message with its key, once routed, delivered and received, is what the query returns; its key is gone then. |
| Queries.ExpiredQueryReturns | spotlib/src/client.rs:448-460 | From every reachable state a registered query can expire and return without a message; its key is gone then. |
| Queries.LeftBecause | spotlib/src/client.rs:452-461 | In every run a query that leaves with a message has received it, and one that leaves without has expired. |
| Queries.Router.MakeInQ | spotlib/src/client.rs:305-309 | Stores a fresh empty mailbox under the key, as the register step does for the query of that key. |
| Queries.Router.TakeInQ | spotlib/src/client.rs:311-313 | Refines both uses: a map that mirrors a state mirrors it after the guard's removal, and after routing a message for the key, when it yields the mailbox of the query the message is wanted by, if any. |
| Queries.Router.RouteMessage | spotlib/src/client.rs:316-335 | The first path segment selects: a waiting query gets the message and leaves the map, else a handler of that name, else nothing; no other mailbox changes; and the map follows the route step. |
| Rpc.Transparent | spotlib/src/client.rs:415-479 | A call to a key-based address returns exactly Ok(r) or Remote(e) as the remote handler returned it, for every payload, endpoint and handler; it is lost exactly when the address exceeds 256 bytes, the remote client waits for a reply of that name or has no such handler, or the handler stays silent. |
| Rpc.PlainTransparent | spotlib/src/client.rs:415-479 | A call to a target that is not key-based returns exactly Ok(r) or Remote(e) as the server answered to exactly the payload, for every target, payload and server, whether the answer is no bottle or a bottle with or without a recipient card; it is lost exactly when the target exceeds 256 bytes or the server stays silent. |
| Rpc.PlainReply | spotlib/src/client.rs:372-407 | A request marked as no bottle is answered with what its handler returned, as it is, marked ERROR exactly when the handler failed, and with nothing when it returned nothing. |
| Rpc.RefusedExactly | spotlib/src/client.rs:421-429 | A query is refused as an invalid target if and only if the target is empty, and for want of a card if and only if the target is key-based and has none. |
| Rpc.PrintedAddressCalls | spotlib/src/client.rs:257-267 | Every printed address of a client, with any server id, endpoint and further path, is such a target. |
| Rpc.RunHandler | spotlib/src/client.rs:340-408 | Running a handler queues exactly the reply, if any. |
| Rpc.HandlerInput | spotlib/src/client.rs:340-361 | Whatever message the relay hands over: a handler is given a bottled one if and only if a key on the card of the sender it names sealed it for this client, with the body that was sealed; one marked as no bottle is given as it is. |
| Rpc.ReplyShape | spotlib/src/client.rs:372-407 | A reply has the request's id, goes to its sender from /noreply, is marked RESPONSE, ERROR exactly when the handler failed, NOT_BOTTLE exactly as the request; a RESPONSE gets none. |
| Rpc.StartQuery | spotlib/src/client.rs:421-446 | Either fails changing nothing, or registers a fresh mailbox under the UUID text and queues one request. |
| Rpc.AcceptedIsAuthentic | spotlib/src/client.rs:463-478 | Whatever message the relay hands over: a query to a key-based target accepts it as the result x if and only if a key on the target's card sealed x for this client in that bottle and neither ERROR nor NOT_BOTTLE is set. |
| Rpc.ErrorsAreAuthentic | spotlib/src/client.rs:463-477 | The failures of a query to a key-based target, exactly: a reply that is no bottle; a bottle no key on the target's card sealed for this client; and a remote error with the text that such a key sealed, when the ERROR flag is set. |
| Rpc.DecodedExactly | spotlib/src/client.rs:213-227 | A client decodes as signed under a card exactly the bottles a key of that card sealed for it. |
| Rpc.NothingSealedNothingAccepted | spotlib/src/client.rs:213-227 | If no key on a card has sealed anything for a client, no message makes its query to that card's owner succeed or reaches a handler in that owner's name. |
| Rpc.LogExists | spotlib/src/client.rs:200-227 | The law about opening is met for every log of seals, the empty one included. |
| Rpc.FlagsAreOutside | spotlib/src/client.rs:473-477 | The flags are not covered: the same bottle with the ERROR flag set is taken for an error. |
| Rpc.SealedOpens | spotlib/src/client.rs:200-227 | What one client prepares for another's card the other decodes to the same bytes. |
| Rpc.TransmitArrives | spotproto/src/packet.rs:28-73 | Through both hops a message arrives with its origin before the sender if and only if its names fit. |
| Rpc.ReplyAddressWorks | spotlib/src/client.rs:440-446 | The reply address is text of 82 bytes, gives back the sender's key hash, and routes to the query's own key. |
| Cascade.ExchangeEnds | spotlib/src/client.rs:340-408 | With handlers that do not send, every run, from any messages of clients and server in flight, is at most as long as its start is heavy, makes at most one reply per request handled, and no new requests. |
| Cascade.StepDecreases | spotlib/src/client.rs:316-408 | Every delivery, lookup, answer and reply lowers the weighted count of messages and tasks, whoever the message is from. |
| Cascade.OneMessage | spotlib/src/client.rs:372-375 | One request of a client or of the server is followed by at most 12 steps and one reply; one response by at most 6 and none. |
| Cascade.HandledIsAnswered | spotlib/src/client.rs:340-408 | From any state, a message a handler takes can be handled at once, and then leaves behind exactly the reply of `Rpc.Reply`, or nothing. |
| Cascade.LookupCompletes | spotlib/src/client.rs:482-494 | From any state, a handler task that needs an ID card can look it up and go on: the request goes to the server, its answer comes back to that task, and nothing else is disturbed. |
| Cascade.LookupIsPlain | spotlib/src/client.rs:482-494 | Looking up an ID card needs no card itself, so lookups do not nest. |
| Cascade.AnswerIsPrivate | spotlib/src/client.rs:324-334 | The server's answer to a lookup reaches its reply queue or nothing, never a handler. |
| WasmOut.Invariant | spotlib/src/client.rs:599-658 | Over all interleavings at the send await: no message lost or duplicated, an installed sink belongs to an online connection, and nothing waits queued beside a sink unless a flush is at work. |
| WasmOut.ExactlyOnePlace | spotlib/src/client.rs:626-658 | Each pushed message is in exactly one of queued, in flight, sent. |
| WasmOut.RefinesOutgoing | spotlib/src/client.rs:626-658 | Every run of the browser client is a run of the native queue, flushes being its writers, with the same pushes, queue and sends. |
| WasmOut.BoundedReordering | spotlib/src/client.rs:626-658 | In every run the k-th message sent was among the first k + (sends awaited at once) pushes. |
| WasmOut.SingleSendFifo | spotlib/src/client.rs:634-658 | In every run with at most one send awaited at a time, sent ++ awaited ++ queued is the push history in order. |
| WasmOut.Overtakes | spotlib/src/client.rs:634-658 | A run with two sends awaited at once in which the second push goes first. |
| WasmOut.SinkMeansOnline | spotlib/src/conn_wasm.rs:177-185 | Whenever a sink is installed the online count is at least one. |
| WasmOut.OnlineWithoutSink | spotlib/src/client.rs:604-608 | A closing connection clears another's sink: online, yet a pushed message stays queued. |
| WasmOut.SinkExactly | spotlib/src/client.rs:599-658 | In every run a sink is installed if and only if some connection came online and since then no connection went offline and no send failed, on any connection. |
| WasmOut.StaleSendStrands | spotlib/src/client.rs:651-655 | With one connection at a time: a send still awaited on a connection that left fails after the next one came online, clears its sink, and leaves the message queued. |
| WasmOut.IdleUntilOnline | spotlib/src/client.rs:634-658 | Without a sink and without a send awaited, nothing is sent until a connection comes online. |
| WasmOut.Output.FlushOut | spotlib/src/client.rs:634-658 | One undisturbed flush: sent ++ queued is what was queued; it stops with an empty queue, or at a failed send with that message back in front and the sink dropped. |
| WasmOut.Output.PushOut | spotlib/src/client.rs:626-629 | After appending: sent ++ queued is what was queued with the message at the end, every send counted succeeded, and it stops as a flush does. |
| Base64Url.EncodeChunks | spotproto/src/encoding.rs:7-24 | The chunked loop computes the big-number encoding. |
| Base64Url.DecodeChunks | spotproto/src/encoding.rs:27-57 | The chunked loop computes the big-number decoding: failure exactly on length 1 mod 4 or a foreign character. |
| Base64Url.GatherChunk | spotproto/src/encoding.rs:44-47 | OR-ing shifted symbols gathers a chunk, or finds a foreign character. |
| Base64Url.DecodeEncode | spotproto/src/encoding.rs:7-57 | Decode undoes encode for all bytes. |
| Base64Url.EncodeDecode | spotproto/src/encoding.rs:27-57 | Re-encoding a decoded string keeps its length and all but the last character, and all of it if and only if the spare bits are zero. |
| Base64Url.EncodeHasNoSeparator | spotproto/src/encoding.rs:4-24 | Encoded text holds no slash and no dot. |
| Base64Url.EncodeIsAscii | spotproto/src/encoding.rs:7-24 | Encoded text is ASCII of length ceil(8n/6). |
| Base64Url.SymbolIsAlphabet | spotproto/src/encoding.rs:4 | The symbols are the URL-safe alphabet of table 2 of RFC 4648, in order. |
| Radix.UnpackPack | spotproto/src/encoding.rs:7-57 | For any symbol width up to 8, unpacking undoes packing of bytes. |
| Radix.RepackDiffersInLast | spotproto/src/encoding.rs:7-57 | When less than a symbol is spare, packing what was unpacked clears exactly the spare bits of the last symbol. |
| Base32.DecodeLoop | spotlib/src/resolver.rs:53-76 | With a wrapping 32-bit accumulator the loop yields the first floor(5n/8) bytes of the 5n-bit string, and succeeds exactly when all characters are in the alphabet and the leftover bits are zero; at most 7 bits are pending at each loop head. |
| Base32.EncodeLoop | spotlib/src/resolver.rs:112-129 | The 64-bit accumulator loop computes the big-number encoding. |
| Base32.DecodeEncode | spotlib/src/resolver.rs:53-129 | Decode undoes encode for all bytes. |
| Base32.SymbolIsAlphabet | spotlib/src/resolver.rs:58-63 | The symbols are the alphabet of table 3 of RFC 4648, in order. |
| Base32.DecodeIgnoresCase | spotlib/src/resolver.rs:58-63 | Decoding does not depend on letter case. |
| Base32.IpLengths | spotlib/src/resolver.rs:37-50 | IPv4 addresses have 7 characters, IPv6 addresses 26 or 27, and nothing else is accepted. |
| Base32.Ipv4Spelling | spotlib/src/resolver.rs:37-50 | Up to case an IPv4 address has exactly one accepted spelling. |
| Base32.Ipv6Spellings | spotlib/src/resolver.rs:37-76 | Up to case an IPv6 address has exactly two: the canonical one and that one followed by A. |
| Varint.ReadAppend | spotproto/src/message.rs:72-76 | Reading an appended 64-bit varint returns it and its length, whatever follows. |
| Varint.ReadFromPrefix | spotproto/src/message.rs:72-76 | Reading depends only on the bytes it consumes. |
| Varint.AppendDigits | spotproto/src/message.rs:37-48 | An appended varint is the number in base 128, least digit first, with the high bit on every byte but the last. |
| Utf8.LossyKeepsValid | spotproto/src/message.rs:86 | Lossy decoding returns its input if and only if it is well-formed. |
| Utf8.ValidExactly | spotproto/src/message.rs:86 | Well-formed is exactly what encodes a sequence of scalar values as section 3 of RFC 3629 has it. |
| Utf8.ReplacesMaximal | spotproto/src/message.rs:86 | What one replacement character stands for is a byte no scalar value starts with, or the longest stretch that some scalar value starts with. |
| Utf8.LossyIsValid | spotproto/src/message.rs:86 | Lossy decoding always yields well-formed text. |
| Utf8.LossyGrowth | spotproto/src/message.rs:86 | Lossy decoding at most triples the length. |
| Wire.MessageToBytes | spotproto/src/message.rs:37-48 | Appends the seven segments in order. |
| Wire.ParseMessage | spotproto/src/message.rs:51-63 | Reading at a moving position computes the reference parse. |
| Wire.ReadVarint | spotproto/src/message.rs:72-76 | Stays in bounds and moves past exactly what it read, or reports truncation. |
| Wire.ReadName | spotproto/src/message.rs:78-89 | Stays in bounds and moves past length and name, or reports a long name or truncation. |
| Wire.ParseToBytes | spotproto/src/message.rs:37-63 | Parsing a printed message returns it if both names are at most 256 bytes, and NameTooLong otherwise. |
| Wire.ParseLayout | spotproto/src/message.rs:51-63 | On every buffer that parses, id, varints, names and body partition the buffer. |
| Wire.LayoutParses | spotproto/src/message.rs:51-63 | Conversely every buffer so laid out parses to the message it describes. |
| Wire.Reparse | spotproto/src/message.rs:78-89 | A parsed message prints and parses again if and only if its decoded names still fit. |
| Wire.ReparseCanFail | spotproto/src/message.rs:78-89 | A buffer that parses to a message whose printed form is refused. |
| Wire.ParseEncodedPacket | spotproto/src/packet.rs:28-73 | Every packet kind comes back from its encoding, messages exactly when their names fit. |
| Wire.PacketErrors | spotproto/src/packet.rs:50-73 | Which first bytes give an empty-buffer, version or unknown-packet error, and that message errors pass through. |
| Wire.Nibbles | spotproto/src/packet.rs:43-45 | The masks and shift split a byte into quotient and remainder by 16. |
| Wire.ReplyFlags | spotlib/src/client.rs:377-399 | OR-ing the flag constants sets exactly the flags meant. |
| Wire.ReplyFlagBits | spotproto/src/message.rs:5-13 | The flags are the bits 1, 2 and 4. |
| Address.RecipientHashExact | spotlib/src/client.rs:259-267 | A recipient is accepted if and only if the part before any slash starts with `k.` and what follows its last dot decodes; that is the hash. |
| Address.RecipientHashOfPrinted | spotproto/src/clientid.rs:33-42 | For every hash, slash-free server id and path, the printed address gives the hash back. |
| Address.PrintedParts | spotproto/src/clientid.rs:33-42 | Split at its dots, a printed address is its type, its server id unless that is empty, and its target. |
| Address.TargetIdParses | spotlib/src/client.rs:251-255 | The client's own address parses back to its hash, with or without an endpoint. |
| Address.RouteNameOfPath | spotlib/src/client.rs:317-322 | The first path segment routes, whatever follows it. |
| Uuid.Format | spotlib/src/utils.rs:15-24 | The loop builds the hyphenated lowercase text. |
| Uuid.TextReads | spotlib/src/utils.rs:15-24 | Reading the two hex digits at the place of byte i gives byte i. |
| Uuid.TextHyphens | spotlib/src/utils.rs:15-24 | The hyphens stand at 8, 13, 18 and 23. |
| Uuid.UuidStringInjective | spotlib/src/utils.rs:15-24 | Different UUIDs print differently. |
| Uuid.UuidStringLength | spotlib/src/utils.rs:15-24 | The text has 36 characters. |
| Uuid.UuidStringHasNoSlash | spotlib/src/utils.rs:15-24 | The text is ASCII without a slash. |
| Uuid.StampV4 | spotlib/src/utils.rs:6-12 | In place, sets the version and variant bits and keeps all others. |
| Uuid.StampedText | spotlib/src/utils.rs:26-39 | A stamped UUID prints version digit 4 and variant digit 8, 9, a or b. |
| Groups.IdCard.UpdateGroups | spotlib/src/identity.rs:85-111 | Succeeds if and only if every record parses and, when about this card, verifies; otherwise fails with the first such record's own error, the records before it applied. Every membership stored afterwards was there before, or some record handed in was for this card, verified and valid, and is stored without its subject. |
| Groups.StoredWasVerified | spotlib/src/identity.rs:85-111 | Whatever the records and wherever the batch stops: a membership on the card was there before, or comes from a record that parsed, was for this card, verified and valid. |
| Groups.AcceptedExactly | spotlib/src/identity.rs:86-94 | A batch is applied up to its first record that does not parse or, being about this card, does not verify; to its end if and only if there is none. |
| Groups.Retain | spotlib/src/identity.rs:98 | Keeps exactly the entries with another key, in order. |
| Groups.FindKey | spotlib/src/identity.rs:104-108 | Finds the first entry with the key, where the record is stored, or the end. |
| Groups.FoldRefinesMap | spotlib/src/identity.rs:85-111 | The list viewed as a map is the fold of put-if-valid, remove-otherwise over the accepted records for this subject, and its keys stay distinct. |
| Groups.IdState.HandleGroups | spotlib/src/client.rs:185-190 | Updates the card and, only if all records were accepted and signing worked, its signed form. |
| Groups.LastDecides | spotlib/src/identity.rs:85-111 | For every key the last record about it that applies decides whether it is held afterwards, and with what. |
| Groups.LastRecordDecides | spotlib/src/identity.rs:85-111 | The last record for this card about a key that parses and verifies, in a batch, decides: held afterwards if and only if its status is valid, and then as that record says. |
| Groups.FoldOrdered | spotlib/src/identity.rs:96-108 | The list stays in the order in which its keys took their places: those never removed as before, those added (again) after them in the order of the adding records. |
| Groups.UnchangedExactly | spotlib/src/identity.rs:85-111 | A batch leaves the list as it was if and only if every key's last record asks for what is held and no key was removed and added back out of order. |
| Groups.ReaddedMovesBack | spotlib/src/identity.rs:96-108 | An entry dropped and added again as it was moves to the end of the list. |
| Groups.SyncAfterHandled | spotlib/src/client.rs:185-190 | From a card in sync: with no record rejected the signed form is the card's if and only if signing works; after a rejected one, if and only if over the records before it every key's last record asks for what the card held, no key was removed and added back out of order, and a card without a list got none or signs an empty one alike. |
| Groups.FailureMidwayDesyncs | spotlib/src/client.rs:187-188 | On any card, a valid record for a membership it does not already hold followed by a rejected one leaves the signed form stale. |

## Left out

- TLS, WebSocket framing, dialing, DNS, the REST call and its JSON: input and output over libraries that are not part of this model; connecting, sending and receiving are nondeterministic outcomes.
- The insides of bottles, ID cards, CBOR handshakes and membership records: opaque functions with stated laws; `bottlers` and `ciborium` are not part of this model.
- `lookup_host` and its fallback to regular DNS: only the decoding of the encoded address is modelled.
- Key storage on disk, `packetconn`, blob, time and group helpers, `im`, and the web bindings: thin callers that would add only easy members.
- Real time and sleeping: deadlines, poll intervals and the 30-second rule are nondeterministic timeouts or parameters.
- Handler panics: a handler is a total function; a panic acts as one that returned an error.
- Condition-variable timing inside `pop_timeout` and spurious wake-ups with the lock's fairness: a parked waiter may resume at any time.
- Liveness of reconnection, bounds on the ID card cache, and FIFO with several writers: the code does not provide them.
- `add_keychain` and `add_key_purposes`: list updates of the kind already covered by group memberships.
- The browser version of `wait_online`, `query` and `run_handler`: the same branches as the native ones; they run between awaits on one event loop.
- Outgoing.WriteQueue.TryPop: one pass of the waiting loop only; how long the caller waits between passes is not modelled.
- OnlineLock.NoLostWakeup: does not cover `closed`, because `close` notifies without the lock; `OnlineLock.CloseMissedExactly` says who can miss it.
- Supervision.RefetchExactly: says a fetch can come, not that it must; and the failed attempts that make a thread leave are single steps (how many it takes is in `GiveUp`).
- GiveUp.SlowHandshakeKeepsHost: times are in nanoseconds, the native clock's; the browser client compares whole seconds, which rounds both ends.
- Rpc.AcceptedIsAuthentic: covers the body. Message id and flags are outside the bottle, so nothing ties an accepted bottle to the query it answers; that each key on a card is held by one client only is taken for granted.
- OnlineLock.Invariant: counters are unbounded integers; that they never wrap below zero is proved, wrap-around at 2^32 sessions is not modelled.
- Supervision.ConnectionCap: without the assumption that spawned threads have counted themselves the bound grows with the number that have not; that number is tracked exactly.
- Rpc.PlainTransparent: the server takes what is signed or sealed for it and answers with no bottle, a signed one or one sealed for the caller; how a real server chooses is not part of this model.
- Rpc.Transparent: the reply is taken to arrive before the deadline; a lost or late reply makes the query time out.
- Groups.SyncAfterHandled: signing is taken to give different lists different signed forms; an absent list and an empty one may or may not differ. The card's keys are taken to be distinct, which every update keeps (`Groups.FoldRefinesMap`).
- GiveUp.ConnThread: that the loop ends assumes finitely many healthy sessions, since a healthy host is retried forever; when it gives up is exact without that (see the other `GiveUp` rows).
- Queries.Invariant: with two unfinished queries of one identifier the second would replace the first's entry; random identifiers are taken not to collide.
- Cascade.ExchangeEnds: handlers that send messages of their own are outside it, as is an endpoint named like a UUID. Of the server it is assumed that it answers a request at most once, to its sender, and never a response; notifications it sends on its own, such as ID-card updates for a handler, are part of the start.
- Address.RecipientHashOfPrinted: the address type is one ASCII byte, as all types in use are.
- Wire.ParseEncodedPacket: handshake bodies stay in their CBOR form.
