# Veil: a verified model of the message fabric

Veil is an onion-routed relay network. A sender cuts a message into 512-byte cells, encrypts each
cell for the recipient, wraps it in one onion layer per relay of a freshly drawn path, and writes
it to the path's first relay. A relay peels one layer and either forwards what is inside or, at the
last hop, queues it in a mailbox. The recipient polls mailboxes, decrypts what opens under its key
and puts messages together again.

The project states what that pipeline promises, from the bytes of a cell to the messages a
receiver ends up with, and proves it for every input, every run and every interleaving.

| module | what it is about |
|---|---|
| `Cells`, `Fragmentation` | the 512-byte codec and the cutting of a message, with its 16-bit counters |
| `ReassemblySpec`, `Reassembly`, `RoundTrip` | reassembly told from the history of calls; the class that implements it; every order of arrival |
| `Crypto`, `Encryption`, `Onion` | the laws of the primitives, sealed cells, envelopes, onion layers |
| `Framing`, `PullProtocol`, `Mailboxes` | length-prefixed frames on a socket, the mailbox port's protocol, the delivery queue |
| `Topologies`, `PathPreference`, `PathSelection` | the relays a client knows, and choosing among them as diversely as possible |
| `Circuits` | building an onion from the exit backwards, and relays executing it from the front |
| `ConnectionLoop` | what a relay does with an inbound stream |
| `ForwardPool`, `ForwardBytes`, `ForwardRetry` | concurrent forwarding over pooled connections, what it amounts to on the wire, and when it gives up |
| `RelaySteps` | why the loop, the forwarding tasks and the network's relay step are one relay |
| `Clients`, `Receivers` | the two ends |
| `Separation` | when the cells of a message stay apart |
| `Network` | the whole network as a step system |
| `Completeness`, `EndToEnd`, `Senders` | from cells to messages, the safety and delivery theorems, and many senders at once |
| `Wrappers`, `ByteStrings`, `Sequences`, `Utf8` | shared vocabulary |

Main results:

- **Safety in every state** (`EndToEnd.OnlyWhatWasSent`). Whatever links fail and pulls break off, the
  completed messages, with their ids, are among those sent, none twice; a message is completed exactly
  if the receiver has been handed every one of its cells; and the reassembler holds exactly the cells
  found of the others.
- **End to end** (`EndToEnd.EndToEndDelivery`, `Senders.CallsReachTheReceiver`). For any calls of `send`
  with distinct message ids and any interleaving of sends, relay steps, mailbox pushes and polls without
  a failing link or pull, once nothing is in transit the messages completed over all polls are exactly
  those sent, each once, and the reassembler is empty.
- **Reassembly refines its history** (`ReassemblySpec.HistoryIsItsBlocks`, `Reassembly.Reassembler.Insert`).
  The map with its redundant counter answers exactly what the greedy cut of each id's history into
  minimal covering blocks says, with duplicates, conflicting cells and evictions anywhere.
- **Compile and execute** (`Circuits.CircuitExecution`). Relays running the built onion visit exactly
  the path and deliver exactly the body, if and only if the written addresses fit 16 bits.
- **Concurrent forwarding** (`ForwardBytes.ForwardWritesOneCopy`, `ForwardBytes.WhatIsReadIsWhatSucceeded`).
  However tasks interleave and connections break, the step with which `forward` returns Ok makes exactly
  one more frame readable, its own, at its next hop, and no other step makes one appear or disappear; so
  what can be read off all connections is what the successful calls were asked to send. Between the pool
  lock, the connection locks and the retry there is no deadlock (`ForwardPool.SomeTaskCanStep`), and a call
  gives up only after a refused dial or two failed writes (`ForwardRetry.GivesUpAfterRetry`).
- **Fragments and relays** (`Separation.KeptApartIffOneCell`). That no relay sees two fragments of a
  message is certain if and only if the message fits one cell.
- **Optimal diversity** (`PathSelection.DiversePathIsOptimal`). The greedy pass with its fill and cut
  is as diverse as any selection of that size, for every shuffle and every subnet classifier, and the
  shuffle and the subnets settle it relay by relay (`PathPreference.MostPreferredIsUnique`).
- **Network invariant, conservation, progress** (`Network`), for every send, served or not: each cell is
  in exactly one place, and every schedule comes to rest, exactly where nothing is in transit.

Assumptions are explicit. `Crypto` is a subset type: a suite of functions that satisfies these laws:
agreement commutes (section 6.1 of RFC 7748); opening undoes sealing, a sealed message is 16 bytes
longer than its plaintext, and so is anything that opens (section 2.8 of RFC 8439). A toy suite that
satisfies them all is its witness (`Crypto.ToySuiteIsLawful`). No law says that another key fails to
open; where that matters (`EndToEnd.Manifest`) it is a hypothesis about what the receiver is handed.
Randomness (ids, nonces, ephemeral secrets, shuffles) is an explicit argument. A socket is the bytes
that will arrive before the peer closes, the bytes written so far, and the room left before a write fails.

Where the code and its documents differ, the model follows the code:

- `docs/ARCHITECTURE.md:103-105` says no relay sees more than one fragment of a message. A path is
  drawn per cell, but nothing keeps two paths from sharing a relay. The claim holds for whatever a
  send may draw if and only if the message fits one cell (`Separation.KeptApartIffOneCell`). It fails,
  for instance, for 489 bytes over two hops of three relays (`Separation.TwoCellsThroughB`), and it
  cannot be met by any draw once the cells need more hops in all than there are relays
  (`Separation.SomeRelaySeesTwoCells`).
- `docs/ARCHITECTURE.md:99` says `send` calls `select_path`; it calls `select_diverse_path`.
- The documented protocol specification, section 5, says an outer layer is larger by about
  `next_hop_len + 3` bytes; a layer also carries a key, a nonce and a tag, so it is larger by
  `next_hop_len + 63` (`Circuits.FrameSizeAtHop`).
- The comment at `crates/veil-core/src/reassembly.rs:11-15` leaves filtering of dummy cells to the
  caller; `Receiver.poll` does not look at the cell type. A dummy that opens under the receiver's key
  is handed out as a message of noise if nothing is pending for its id, and is otherwise rejected as
  mismatched (`RoundTrip.DummyIsNotFiltered`).
- A completed message leaves no trace, so a full second copy of its cells is emitted again
  (`RoundTrip.ResentMessageComesOutAgain`). A message comes out exactly once if and only if the cells
  that arrive after it is complete do not cover it again (`RoundTrip.OnceUnlessCoveredAgain`); the
  delivery theorems speak of one copy of each cell.

Other traffic is not always harmless. A relay that cannot forward one frame of a connection stops
reading it (`crates/veil-relay/src/node.rs:125`), so a frame for a next hop that does not answer, or for
one that was never there, costs every frame behind it on that connection, good ones included
(`RelaySteps.LoopIsRelaySteps`). The network counts all of them as cut. "No link fails" therefore asks
of the other traffic, too, that its forwards get through.

## Model

| member | source | states |
|---|---|---|
| EndToEnd.OnlyWhatWasSent | crates/veil-sdk/src/receiver.rs:63-109 | In every reachable state, with any failures: completed (id, text) pairs are a sub-multiset of those sent; a message is completed iff every one of its cells was handed over; what is pending is exactly the cells found of incomplete messages |
| EndToEnd.EndToEndDelivery | crates/veil-sdk/src/receiver.rs:95-109 | For any interleaving of sends, relay steps, enqueues and polls without failures, once nothing is in transit the completed (id, text) pairs are, as a multiset, exactly those sent, and no id has cells pending |
| EndToEnd.PollsFeedTheReceiver | crates/veil-sdk/src/receiver.rs:95-109 | In the network only a finished poll reaches the reassembler, and it appends the cells that opened among those pulled |
| EndToEnd.PollAlong | crates/veil-sdk/src/receiver.rs:79-109 | A new receiver that polls along any run, failing polls included, has for history exactly what the network has handed over, and its polls have returned exactly the messages that completes |
| EndToEnd.ReceiverHasEverything | crates/veil-sdk/src/receiver.rs:112-114 | After a run without failures that receiver's polls have returned exactly the messages sent, and `pending_count` is zero |
| Senders.CallsReachTheReceiver | crates/veil-sdk/src/client.rs:61-88 | For any calls of `send` by any clients, in any order and among other traffic: only their messages are ever completed, none twice, and without failures all of them are |
| Senders.CallsMakeManifest | crates/veil-sdk/src/client.rs:61-88 | What any number of calls wrote, whole or broken off, is sends on good paths that carry cells of their messages to the recipient: all of them, when no call broke off |
| Senders.ClientSendsCargo | crates/veil-sdk/src/client.rs:70-82 | What the client writes for a cell is the circuit of a body that carries that cell to the recipient, sent to the path's first relay |
| Senders.ClientSendsAreGood | crates/veil-sdk/src/client.rs:70-82 | With a topology whose addresses lead to the holders of its keys, each such send is one the relays can serve |
| Senders.ReportedExit | crates/veil-sdk/src/client.rs:79-85 | With a truthful topology the id reported for a cell is that of the relay at which running its frame delivers its body |
| Completeness.OnlyCompleteMessages | crates/veil-core/src/reassembly.rs:44-77 | From some of the cells of a set of messages, each at most once, in any order: nothing unsent is completed, nothing twice, a message iff all its cells are there, and the others' cells are what is in flight |
| Completeness.AllMessagesComplete | crates/veil-core/src/reassembly.rs:44-77 | All cells of any set of messages with distinct ids, in any order whatever, complete exactly those messages, each once, and leave nothing in flight |
| Completeness.EmittedPerId | crates/veil-core/src/reassembly.rs:44-77 | For one id: its message once if all its cells are there, otherwise nothing and its cells pending |
| Network.EveryCellIsInOnePlace | crates/veil-relay/src/node.rs:104-133 | Conservation: after every run each cell sent is in exactly one of link, queue, mailbox, poll in progress, finished poll, lost |
| Network.RunsKeepInv | crates/veil-relay/src/node.rs:104-133 | In every reachable state a cell under way is byte for byte the circuit for the rest of its path, and a delivered one is the body sent, at the last relay of its path |
| Network.HandleOnPath | crates/veil-relay/src/node.rs:123-132 | The j-th relay forwards the next suffix circuit to the next address of the path, or delivers the body if it is the last |
| Network.OnlyFailuresLose | crates/veil-sdk/src/receiver.rs:39-40 | Without failing links and pulls only cells whose path the relays cannot serve are lost; frames behind one whose forward failed, on the same connection, count as frames on a failing link |
| Network.RelayUsesOneHop | crates/veil-relay/src/node.rs:123-132 | Each forward or deliver step, of any frame, takes exactly one off the total of remaining hops, and a dropped frame adds none |
| Network.EventsAdvance | crates/veil-relay/src/node.rs:104-133 | In every reachable state every event but a send strictly decreases what is left to do, or changes nothing |
| Network.NothingGetsStuck | crates/veil-relay/src/main.rs:73-81 | While anything is in transit a step without failure is possible that brings it closer to its end |
| Network.CanSettle | crates/veil-sdk/src/receiver.rs:63-73 | From every reachable state some run without failures and without new sends leaves nothing in transit |
| Network.RunsAreBounded | crates/veil-relay/src/node.rs:104-133 | However the network is scheduled and whatever fails, a run of events that do something, sends aside, has at most as many steps as the measure says |
| Network.OnlyQuietIsFinal | crates/veil-relay/src/main.rs:73-81 | No event but a send can do anything iff nothing is in transit |
| Network.GoodArePolled | crates/veil-sdk/src/receiver.rs:33-61 | Without failures, once nothing is in transit, each send on a good path was handed over exactly once |
| Network.PolledAtMostOnce | crates/veil-relay/src/mailbox.rs:38-41 | Whatever fails, no send is handed over twice |
| Network.MailboxStep | crates/veil-relay/src/mailbox.rs:31-41 | Each relay's mailbox in the network does what the class `Mailbox` does: pushes at the end, drains whole and oldest first, and is touched by nothing else |
| Network.QuietMeansAllPolled | crates/veil-sdk/src/receiver.rs:33-61 | When all paths are good, the byte strings handed over by all polls are then exactly the bodies sent, each once |
| RelaySteps.LoopIsRelaySteps | crates/veil-relay/src/node.rs:104-133 | The connection loop delivers and forwards exactly what the network's relay step makes of each frame, in order: of all of them, or of those before the first forward that fails, where it stops for good |
| RelaySteps.ConnectionsAreLinks | crates/veil-relay/src/node.rs:136-163 | When the calls of `forward` are those the relay steps ask for, what the next hops can read, address by address, is what the steps put on the links, but for the calls that failed |
| ForwardBytes.ForwardWritesOneCopy | crates/veil-relay/src/node.rs:136-151 | On the streams: the step with which a call returns Ok makes exactly one more frame readable, its own, at its next hop; no other step, failure or break makes a frame appear or disappear |
| ForwardBytes.WhatIsReadIsWhatSucceeded | crates/veil-relay/src/node.rs:136-151 | In every reachable state the frames that can be read off all connections, with their addresses, are exactly those of the calls that returned Ok, each once |
| ForwardPool.RunsKeepInv | crates/veil-relay/src/node.rs:136-163 | Under every interleaving: connection locks have one holder, pool entries lead to their address, every stream is whole frames and at most one torn one |
| ForwardPool.RunsKeepPoolLock | crates/veil-relay/src/node.rs:153-162 | The pool lock is held exactly by the one task that is dialling, if any, and for an address not in the pool |
| ForwardPool.NextHopReadsTheLog | crates/veil-relay/src/node.rs:104-112 | What the next hop reads off a connection is the bodies of the forwards that succeeded on it, in order, all meant for its address, then no further frame |
| ForwardPool.SomeTaskCanStep | crates/veil-relay/src/node.rs:136-163 | No deadlock between pool lock, connection locks and retry: while a task is unfinished some task gets on, giving up a connection only if it is broken and with its dial accepted |
| ForwardPool.CanFinish | crates/veil-relay/src/node.rs:136-163 | From every reachable state the tasks' own steps, with dials accepted, can bring all of them to their end |
| ForwardPool.TaskEventsTerminate | crates/veil-relay/src/node.rs:144-149 | Every task step uses up a finite budget, whatever other tasks and connections do |
| ForwardPool.TaskRunsAreBounded | crates/veil-relay/src/node.rs:136-163 | However the tasks are scheduled, together they take at most as many steps as their budget allows |
| ForwardRetry.GivesUpAfterRetry | crates/veil-relay/src/node.rs:136-151 | In every reachable state a call has returned Err iff its dial was refused or two of its writes failed, never after one failed write alone; and no call fails more than two writes |
| ForwardRetry.RetryUsesNewerConnection | crates/veil-relay/src/node.rs:144-149 | The second attempt is on a connection opened after the one the first failed on, whatever other tasks dial, evict and break in between |
| ForwardRetry.EvictDropsTheEntry | crates/veil-relay/src/node.rs:146 | Dropping the stale entry takes exactly that address out of the pool, and no connection away |
| ForwardRetry.PooledIsReused | crates/veil-relay/src/node.rs:153-162 | A pooled connection is used as it is; only a successful dial opens one, for its address, and pools it |
| ForwardPool.OnlyFinishedIsFinal | crates/veil-relay/src/node.rs:136-163 | No task can get on iff every call has returned |
| ForwardPool.EventKeepsInv | crates/veil-relay/src/node.rs:136-163 | Each single step of a task, and each break, keeps the invariant |
| ConnectionLoop.RelayNode.HandleConnection | crates/veil-relay/src/node.rs:96-134 | On any byte stream: exactly the maximal sequence of complete frames is served until a forward fails, with queue, forwards and all three counters as the tally says; Ok below 4 trailing bytes, Err on a truncated body |
| ConnectionLoop.RelayNode.ServeFrame | crates/veil-relay/src/node.rs:114-132 | One frame: dropped and counted, delivered and counted, or forwarded and counted; a failed forward ends the connection |
| ConnectionLoop.RelayNode.Forward | crates/veil-relay/src/node.rs:125-126 | What the loop sees of `forward`: one attempt, recorded as forwarded exactly when it got through |
| ConnectionLoop.NextFrame | crates/veil-relay/src/node.rs:105-112 | A missing header and a missing body are told apart |
| ConnectionLoop.ServeAccounts | crates/veil-relay/src/node.rs:104-133 | Frames read are forwarded plus delivered plus peel failures plus one if a forward failed; what was done is what the frames call for, in order, up to the first forward that fails |
| Circuits.CircuitExecution | crates/veil-routing/src/lib.rs:33-58 | Running the relays on the built onion visits exactly the path and delivers exactly the body at its last relay, iff the addresses fit their 16-bit lengths |
| Circuits.BuildCircuit | crates/veil-routing/src/lib.rs:33-58 | The loop from the exit backwards builds the onion read from the entry; only an empty path is an error |
| Circuits.ViewAtHop | crates/veil-relay/src/forwarding.rs:78-101 | After i forwards the frame is at the i-th address and is the circuit for the path from i on |
| Circuits.CoinsAtHop | crates/veil-routing/src/lib.rs:36-55 | The frame the i-th relay receives starts with the ephemeral key and the nonce drawn for the i-th layer |
| Circuits.SuffixOnlyView | crates/veil-routing/src/lib.rs:36-55 | What a relay receives is a function of the rest of the path, its randomness and the body alone |
| Circuits.CircuitSize | crates/veil-relay/src/forwarding.rs:70-74 | An onion's length is the body's plus 61 plus 63 and the address length for every further hop |
| Circuits.FrameSizeAtHop | crates/veil-relay/src/forwarding.rs:115-133 | The frame size at each hop depends on body size and remaining addresses only, and shrinks by 63 plus the address length per hop |
| Onion.DecodeEncode | crates/veil-relay/src/forwarding.rs:115-157 | Decoding inverts encoding iff the next hop's length survives the unchecked 16-bit cast; otherwise it fails or yields a shorter hop |
| Onion.EncodeDecode | crates/veil-relay/src/forwarding.rs:135-157 | Every accepted byte string re-encodes to itself, so decoding is injective on what it accepts |
| Utf8.Utf8IffEncoded | crates/veil-relay/src/forwarding.rs:146-149 | The next hops a relay accepts are exactly the UTF-8 encodings of sequences of characters |
| Onion.EncodePayload | crates/veil-relay/src/forwarding.rs:115-133 | The bytes appended are the flag, the 16-bit hop length, hop and body, or the flag and the body |
| Onion.BuildOnionLayer | crates/veil-relay/src/forwarding.rs:51-75 | A layer is the ephemeral key, the nonce and the sealed payload |
| Onion.PeelLayer | crates/veil-relay/src/forwarding.rs:78-101 | The relay a layer was built for recovers its payload, iff the hop length fits |
| Onion.PeelsToThePayload | crates/veil-relay/src/forwarding.rs:78-101 | A peel yields a payload iff the frame is long enough and its ciphertext opens, under the derived key and the nonce, to that payload's encoding |
| Onion.PeelFailures | crates/veil-relay/src/forwarding.rs:78-101 | Exactly when a frame is too short, not sealed for this relay, or sealed but no payload |
| Onion.LayerLayout | crates/veil-relay/src/forwarding.rs:51-75 | A layer starts with its own ephemeral key and nonce, and the rest opens under them to the payload |
| Onion.PayloadLayout | crates/veil-relay/src/forwarding.rs:115-133 | Flag, big-endian hop length, hop and body, offset by offset |
| Onion.PeelShrinks | crates/veil-relay/src/forwarding.rs:78-101 | Whatever a peel yields is smaller than the frame by exactly 61 bytes, or 63 plus the hop's length |
| ReassemblySpec.HistoryIsItsBlocks | crates/veil-core/src/reassembly.rs:44-93 | Every history of an id has a cut into minimal covering blocks and evicted ones, and any such cut names exactly the messages emitted, in order, and the cells pending |
| ReassemblySpec.DecompositionDecides | crates/veil-core/src/reassembly.rs:44-93 | A given cut determines outputs and pending cells |
| ReassemblySpec.Decompose | crates/veil-core/src/reassembly.rs:44-93 | A cut exists for every history |
| ReassemblySpec.AnswerFromCut | crates/veil-core/src/reassembly.rs:44-77 | From any cut of the history: a cell is rejected iff the open block started with another total, and completes a message iff it closes the block |
| ReassemblySpec.FirstPayloadIsFirst | crates/veil-core/src/reassembly.rs:59-62 | Of several cells with one index the first one's payload is used, later ones are ignored |
| ReassemblySpec.CompletionsPerId | crates/veil-core/src/reassembly.rs:44-77 | The outputs for an id over a whole history are those of its own events |
| ReassemblySpec.NonInterference | crates/veil-core/src/reassembly.rs:44-77 | Outputs and pending cells of an id are the same when all operations on other ids are taken out |
| ReassemblySpec.PendingIsOpen | crates/veil-core/src/reassembly.rs:55-76 | Pending cells never cover their sequence and agree on its length |
| Reassembly.Reassembler.Insert | crates/veil-core/src/reassembly.rs:44-77 | The map reflects the history extended by this cell, the answer is the specification's, a rejected cell changes nothing, a completed message is removed |
| Reassembly.Reassembler.Evict | crates/veil-core/src/reassembly.rs:91-93 | The entry goes, and the map reflects the history with the eviction |
| Reassembly.InsertCorrect | crates/veil-core/src/reassembly.rs:49-76 | For any map that reflects a history: the counter test, the slot write and the removal give the specified answer and a map that reflects the longer history, and all slots are filled when the message is assembled |
| Reassembly.EntriesAreWellFormed | crates/veil-core/src/reassembly.rs:21-25 | Each entry has `seq_total` slots, `received` counts the filled ones, and 1 <= `received` < `seq_total` |
| Reassembly.FullMeansCovers | crates/veil-core/src/reassembly.rs:64-73 | The counter equals the total iff every index is present, and then the slots in order are the message |
| Reassembly.FillRepresents | crates/veil-core/src/reassembly.rs:59-62 | Writing a slot once and counting it represents the accepted cells extended by this one |
| Reassembly.InFlightIds | crates/veil-core/src/reassembly.rs:81-83 | An id has an entry iff accepted cells of it are pending |
| Reassembly.NothingInFlight | crates/veil-core/src/reassembly.rs:81-83 | `pending_count` is zero iff no id has pending cells |
| Reassembly.PendingCountIsIds | crates/veil-core/src/reassembly.rs:81-83 | `pending_count` is the number of ids with pending cells |
| Reassembly.Assemble | crates/veil-core/src/reassembly.rs:69-72 | The loop concatenates the fragments in index order |
| Reassembly.FillSlot | crates/veil-core/src/reassembly.rs:59-62 | An empty slot is written and counted, a filled one is left alone |
| RoundTrip.OrderIndependentRoundTrip | crates/veil-core/src/reassembly.rs:41-43 | Cells of one message in any order with repetitions emit exactly the message, exactly at the last missing index, and leave no entry |
| RoundTrip.PermutationRoundTrip | crates/veil-core/src/reassembly.rs:41-43 | The same for every permutation of the message's cells, completed by its last cell and by none before |
| RoundTrip.InterleavedRoundTrip | crates/veil-core/src/reassembly.rs:34-77 | The same among operations on any other ids: nothing for the id before its last missing index, then exactly the message, and no entry left |
| RoundTrip.PartialRoundTrip | crates/veil-core/src/reassembly.rs:64-76 | Some or all cells of a message, each at most once: the message comes out iff they are all there, and otherwise all of them stay pending |
| RoundTrip.ResentMessageComesOutAgain | crates/veil-core/src/reassembly.rs:64-74 | A full second copy of the cells after completion emits the message a second time |
| RoundTrip.OnceUnlessCoveredAgain | crates/veil-core/src/reassembly.rs:49-74 | Cells of one message with any repetitions emit it exactly once iff those after the first covering prefix do not cover it again |
| RoundTrip.LoneCell | crates/veil-core/src/reassembly.rs:49-74 | A cell with `seq_total` 1 is a message at once if nothing is pending for its id, and is otherwise rejected as mismatched |
| RoundTrip.DummyIsNotFiltered | crates/veil-sdk/src/receiver.rs:99-105 | So is a dummy that opens: its noise is handed out as a message, unless its id is in flight |
| RoundTrip.PermutationCoversAtTheEnd | crates/veil-core/src/fragmentation.rs:45-52 | A permutation of the cells covers all indices, and no proper prefix of it does |
| Fragmentation.FragmentMessage | crates/veil-core/src/fragmentation.rs:25-55 | Succeeds exactly for 1 to MAX_MESSAGE_SIZE bytes, with the cells of the specification; the error carries length and limit |
| Fragmentation.FragmentsPartition | crates/veil-core/src/fragmentation.rs:11-55 | At most 65535 cells, the least number possible, indices 0..n-1 of n under one id, all but the last full, none empty, payloads concatenating to the message |
| Cells.CodecBijection | crates/veil-core/src/cell.rs:160-218 | Parsing accepts exactly the images of serialisation and names the one cell behind each, padding included |
| Cells.NewData | crates/veil-core/src/cell.rs:80-111 | Succeeds iff the payload fits and the index is below the total, with these fields, the data and zeros behind it; the errors in the code's order |
| Cells.ToBytes | crates/veil-core/src/cell.rs:160-170 | The buffer filled in place is the wire image |
| Cells.FromBytes | crates/veil-core/src/cell.rs:178-218 | Agrees with the parser on every buffer, errors included |
| Cells.WireLayout | crates/veil-core/src/cell.rs:160-170 | The wire image has the tabulated field at each offset |
| Cells.Rejections | crates/veil-core/src/cell.rs:178-204 | A buffer is accepted iff its four header checks hold, and otherwise the error is that of the first that fails |
| Cells.DummyCell | crates/veil-core/src/cell.rs:121-136 | A dummy is the one cell of its message, and its payload is all the random bytes drawn for it |
| Encryption.EncryptCell | crates/veil-core/src/crypto/encryption.rs:28-44 | The nonce drawn for the call stands in front, and the rest opens under it to the wire image |
| Encryption.DecryptCell | crates/veil-core/src/crypto/encryption.rs:54-67 | A cell comes out iff the ciphertext opens, under the key and the nonce in front, to that cell's wire image; a failed tag is an error |
| Encryption.DecryptEncrypt | crates/veil-core/src/crypto/encryption.rs:28-67 | Decrypting an encrypted cell gives the cell back |
| Encryption.SealedLayout | crates/veil-core/src/crypto/encryption.rs:31-42 | An encrypted cell starts with its nonce and opens under it to the cell |
| Encryption.OpensToTheCell | crates/veil-core/src/crypto/encryption.rs:54-67 | The same for the function the receiver's theorems speak of: nothing of a ciphertext that does not open is looked at |
| Encryption.OpensForThisIdentity | crates/veil-sdk/src/receiver.rs:43-56 | A receiver takes a cell from a byte string iff it is 572 bytes long and its cell part opens, under the key derived from the first 32 bytes, to that cell |
| Encryption.EnvelopeBijection | crates/veil-sdk/src/envelope.rs:27-56 | Unwrapping accepts exactly the 572-byte strings and inverts wrapping both ways |
| Encryption.EnvelopeRoundTrip | crates/veil-sdk/src/session.rs:24-36 | Sender and recipient derive one key, and the recipient recovers the very cell |
| Encryption.Wrap | crates/veil-sdk/src/envelope.rs:27-35 | The sender's key and then the encrypted cell |
| Encryption.Unwrap | crates/veil-sdk/src/envelope.rs:40-56 | Any other length is an error that names both lengths |
| Framing.ReadWritten | crates/veil-relay/src/forwarding.rs:160-176 | A written frame reads back with nothing lost or left over, iff its length fits 32 bits |
| Framing.WrittenRead | crates/veil-relay/src/forwarding.rs:169-176 | A frame that was read is the written image of its body followed by the rest |
| Framing.FrameLayout | crates/veil-relay/src/forwarding.rs:160-166 | The body's length in 32 bits, most significant byte first, and the body |
| Framing.SplitIsMaximal | crates/veil-relay/src/node.rs:104-112 | Cutting a stream into frames loses nothing and stops only where no complete frame is left |
| Framing.SplitWritten | crates/veil-relay/src/node.rs:104-112 | Frames written one after another are cut apart as they were written |
| Framing.Socket.WriteFrame | crates/veil-relay/src/forwarding.rs:160-166 | All of the frame goes out, or the part the connection takes before it breaks |
| Framing.Socket.ReadFrame | crates/veil-relay/src/forwarding.rs:169-176 | Reads exactly one frame off the stream, or fails |
| PullProtocol.PullRoundTrip | crates/veil-relay/src/pull_listener.rs:77-85 | The client recovers exactly the list the server writes, with no bytes left over, iff count and lengths fit 32 bits |
| PullProtocol.PullNeverTruncates | crates/veil-relay/src/pull_listener.rs:115-128 | Every proper prefix of a response makes the client fail, never return a shorter list |
| PullProtocol.ResponseLayout | crates/veil-relay/src/pull_listener.rs:77-85 | The count in 32 bits, most significant byte first, and the frames in order |
| PullProtocol.IdentityLayout | crates/veil-relay/src/pull_listener.rs:86-90 | Id, key and address, both strings behind big-endian 16-bit lengths, offset by offset |
| PullProtocol.Pull | crates/veil-relay/src/pull_listener.rs:115-128 | The client loop asks with the byte 1 and returns what the response parses to, or fails |
| PullProtocol.HandleRequest | crates/veil-relay/src/pull_listener.rs:68-94 | Byte 1 empties the mailbox and writes its contents, even if writing breaks off; byte 2 writes the identity; other requests write nothing |
| PullProtocol.WriteResponse | crates/veil-relay/src/pull_listener.rs:78-84 | Count and frames go out in order, or the part the connection takes |
| PullProtocol.WriteIdentity | crates/veil-relay/src/pull_listener.rs:87-89 | Id, key and address go out in order, or the part the connection takes |
| PullProtocol.WriteLenPrefixed | crates/veil-relay/src/pull_listener.rs:96-101 | A 16-bit length and the bytes, or the part the connection takes |
| PullProtocol.Describe | crates/veil-relay/src/pull_listener.rs:132-149 | The client asks with the byte 2 and returns what the response parses to, or fails |
| PullProtocol.ReadLenPrefixedString | crates/veil-relay/src/pull_listener.rs:103-111 | Takes one string off the stream if it is whole and well-formed UTF-8, and fails otherwise |
| PullProtocol.DescribeRoundTrip | crates/veil-relay/src/pull_listener.rs:86-90 | What `describe` parses from the bytes the server writes is the identity sent, iff both strings fit 16-bit lengths |
| Mailboxes.MailboxConserves | crates/veil-relay/src/mailbox.rs:31-41 | Over any interleaving of pushes and drains by any clients, the drained batches in order and then the queue are the pushes in order |
| Mailboxes.Mailbox.Push | crates/veil-relay/src/mailbox.rs:31-33 | Appends, and keeps the conservation invariant |
| Mailboxes.Mailbox.Drain | crates/veil-relay/src/mailbox.rs:38-41 | Hands out the whole queue oldest first, leaves it empty, and keeps the conservation invariant |
| PathSelection.SelectDiversePath | crates/veil-routing/src/path_selection.rs:56-97 | Fails iff there are too few relays; else exactly `hop_count` distinct relays of the topology, the most preferred of the shuffle, most preferred first, with all the diversity that fits |
| PathSelection.DiversePathIsMostPreferred | crates/veil-routing/src/path_selection.rs:70-96 | In terms of the shuffle and the subnets alone: the first of each subnet before any repeat, each kind in shuffle order, and every relay left out less preferred than every one chosen |
| PathPreference.MostPreferredIsUnique | crates/veil-routing/src/path_selection.rs:70-96 | That settles the path: there is one such path of each length |
| PathPreference.FirstsComeFirst | crates/veil-routing/src/path_selection.rs:85-93 | Once a repeat is in the path only repeats follow, and every first is in the path before it |
| PathSelection.DiversePathIsOptimal | crates/veil-routing/src/path_selection.rs:40-55 | No selection of that many relays is more diverse than the chosen one |
| PathSelection.GreedyPass | crates/veil-routing/src/path_selection.rs:74-83 | The loop over subnets used so far sorts the relays into the first of their subnet and the repeats |
| PathSelection.FillUp | crates/veil-routing/src/path_selection.rs:88-93 | The fill stops at the wanted length, or takes every leftover when the path has already outgrown it |
| PathSelection.GreedyIsMaximal | crates/veil-routing/src/path_selection.rs:74-83 | The relays set aside add nothing: the greedy path is as diverse as all candidates, and as it is long |
| PathSelection.NoSelectionIsMoreDiverse | crates/veil-routing/src/path_selection.rs:40-55 | No selection exceeds its own size or the diversity of all candidates |
| PathSelection.SelectPath | crates/veil-routing/src/path_selection.rs:23-38 | Fails iff there are too few relays; else the first `hop_count` of the shuffle, distinct and known |
| Topologies.Topology.AddRelay | crates/veil-routing/src/topology.rs:26-28 | Files the relay under its id, in place of any earlier one, and keeps every relay under its own id |
| Topologies.Topology.All | crates/veil-routing/src/topology.rs:34-36 | Every filed relay once, ids distinct |
| Clients.VeilClient.Send | crates/veil-sdk/src/client.rs:61-88 | One circuit per cell in order, each its own draw; stops at the first failure with what was written, and says which it was; reports the id of the last relay of every path |
| Clients.CellBodyLayout | crates/veil-sdk/src/client.rs:71-72 | What a circuit carries for a cell is the sender's key, the nonce drawn for this cell, and what opens under it to the cell |
| Separation.KeptApartIffOneCell | docs/ARCHITECTURE.md:97-105 | Exactly when the documented claim holds: with enough relays for a path, a send keeps its cells on disjoint paths for whatever it draws iff the message fits one cell |
| Separation.TwoCellsThroughB | docs/ARCHITECTURE.md:97-105 | One input for which it fails: 489 bytes, three relays, two hops; the cells enter at different relays and still share one |
| Separation.SomeRelaySeesTwoCells | docs/ARCHITECTURE.md:97-105 | Whatever is drawn: when a message's cells need more hops in all than there are relays, some relay lies on two of its paths |
| Clients.VeilClient.Prepare | crates/veil-sdk/src/client.rs:71-79 | A cell is encrypted, wrapped and built into the onion of the path chosen for it; too few relays or an empty path are the only errors |
| Clients.VeilClient.CarriesEach | crates/veil-sdk/src/client.rs:70-86 | The i-th frame sent carries the i-th cell of the message |
| Receivers.Receiver.Poll | crates/veil-sdk/src/receiver.rs:95-109 | Feeds every cell that opened, in order, and returns exactly the messages that completes; a failed pull leaves the reassembler as it was |
| Receivers.Receive | crates/veil-sdk/src/receiver.rs:33-61 | Succeeds iff every pull did, with the cells that open among everything pulled, in order |
| Receivers.TryOpen | crates/veil-sdk/src/receiver.rs:43-56 | The loop body takes a cell iff the string is 572 bytes long and opens to it under the key derived for this identity; anything else is passed over |
| Receivers.PollsAccumulate | crates/veil-sdk/src/receiver.rs:86-94 | Two polls feed the reassembler what one poll of everything would |

## Left out

- The primitives themselves (ChaCha20-Poly1305, X25519, HKDF, the random generator): only the laws above; sealing and key derivation are total functions, so their library error returns are absent. No secrecy or anonymity claim is made.
- Key zeroisation, hex identities, TOML configuration, JSON topology files, discovery, command line, logging, Docker: plumbing around foreign libraries.
- Cover traffic and jitter scheduling: when dummy cells are sent is not modelled; a dummy that was sent is foreign traffic to the theorems, which hold for any.
- Real sockets, task scheduling, TCP segmentation and name lookup: byte sequences and nondeterministic events stand for them.
- Connection permits in `run` and the metric for rejected connections: a rejected connection is closed before any frame is read, so the frames written to it are among those the network counts as cut.
- `subnet_key`'s parsing of an IPv4 literal: a parameter; the theorems of `PathSelection` hold for every classification of addresses.
- The shuffle in `rand`: an argument that may be any order of the topology's relays.
- ConnectionLoop.RelayNode.Forward: the outcome of `forward` is a parameter of the relay here; how it comes about, with pool, locks and retry, is the subject of `ForwardPool`.
- ForwardPool: concurrent tasks are a state machine on values, not objects on the heap; it assumes that a failed write is incomplete and that a broken connection stays broken, and claims no order across connections to one hop.
- Network: a forwarded frame is one step and a mailbox pull one step; `RelaySteps.ConnectionsAreLinks`, `RelaySteps.LoopIsRelaySteps` and `PullProtocol.PullRoundTrip` say why the bytes in between do not matter. A frame that is written and never read, for whatever reason, is the event `Cut`. The network has one poller; `Mailboxes.MailboxConserves` is what holds with several.
- EndToEnd.EndToEndDelivery: supposes that nothing handed over of foreign traffic opens under the receiver's key, and that the paths of the cells sent to it lead to the relays they name.
- Reassembly.Reassembler.Insert: the source holds a reference into the map while it fills a slot; the model writes the entry back once, at the end of the call.
- Clients.VeilClient.Send: connecting and writing to first hops is a number of successes before the first failure.
