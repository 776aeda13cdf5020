# wmq-server event coordinator, in Dafny

This project models the event coordinator of wmq-server, an in-memory
publish/subscribe broker. The coordinator is `handle_events` in
`src/main.rs`. It is one task that owns four tables:

- pending connections, keyed by socket address;
- consumers that are assigned but not started, keyed by id;
- producers, keyed by id;
- declared queues, keyed by name, each backed by a bounded broadcast channel.

It applies one event at a time, in arrival order. Nothing else touches
those tables, so the model is a pure step function over an immutable
state: `Coordinator.Step(State, Event) -> Outcome(State, Option<Reply>)`.
`Coordinator.Run` folds it over a sequence of events.

Modules:

- `Wrappers`: `Option`.
- `Utf8`: the UTF-8 encoding behind Rust's `as_bytes`, with a decoder and a
  proved round trip.
- `Response`: the `ACK` and `NACK` constants, `nack_msg`, and a producer-side
  reader of replies.
- `Broadcast`: the part of a tokio broadcast channel that the coordinator's
  decisions depend on. That is its capacity and its count of attached
  receivers: a subscribe adds one, a drop removes one, and a send fails
  exactly when the count is zero.
- `Consumers`: the `Consumer` record (`src/consumer.rs`), which is a write
  handle plus an ordered list of receivers. It also holds the receiver
  accounting over a table or a list of consumers.
- `Commands`: the shape of `Message` (`src/message.rs`), used as the
  published payload in the scenarios.
- `Coordinator`: the state, the events as `handle_events` destructures them,
  `Step`, `Run`, and the invariant `Inv`.
- `CoordinatorProperties`: per-event lemmas and lemmas over event sequences.
- `Scenarios`: end-to-end runs from the empty state.

The central invariant `Coordinator.Inv` says three things:

- Each channel's receiver count equals the number of its receivers actually
  held. That is the receivers held by unstarted consumers plus those held by
  started consumers.
- Nobody holds a receiver of an undeclared queue.
- Every capacity lies between 1 and 5000.

A started consumer's delivery task is kept in `State.running`. It is treated
as living forever. The coordinator's decisions never read `running`; only
the accounting does.

Behaviour of the code that the model reproduces:

- A consumer's receivers are an ordered `Vec` with no de-duplication
  (src/consumer.rs:27-29). Assigning the same queue twice gives two
  receivers (`CoordinatorProperties.QueueAssignedTwice`).
- The delivery task reads only `queues[0]` (src/consumer.rs:20-21); see
  `Consumers.Drained`.
- A `DeclareQueue` of a new name with size 0 passes both guards, and
  `broadcast::channel(0)` then panics the coordinator task
  (src/main.rs:92-95). `Step` is not defined for that event
  (`Coordinator.Panics`). `Run` stops there with `halted` set and processes
  nothing after it (`Scenarios.ZeroSizeScenario`).
- The events are the variants that `handle_events` matches
  (src/main.rs:47-103), not the older enum in `src/events.rs`.

Types and representation choices:

- The published payload is a type parameter. The code publishes `bytes::Bytes`
  while `Consumer` expects receivers of `Message`.
- A write handle is an opaque socket identity.
- A reply names its destination socket and the outcome (`Ack` or
  `Nack(reason)`). `Reply.Bytes` gives the bytes of that one reply.
- Queue sizes are `nat`. The source's `usize` bound never matters, because
  every size above 5000 is rejected.
- A channel's receiver count is an `int`, so that dropping several receivers
  can be written as one subtraction. `CoordinatorProperties.ReachableInv`
  proves it is never negative in a reachable state.

## Model

| member | source | states |
|---|---|---|
| Utf8.Encode | src/main.rs:179 | The encoding of a string (`as_bytes`) has at least one byte per character. |
| Utf8.EncodeAppend | src/main.rs:179 | The bytes of a concatenated string are the bytes of the first part followed by the bytes of the second. |
| Utf8.EncodeAscii | src/main.rs:19-20 | ASCII text is encoded as its code points, one byte per character. |
| Utf8.DecodeEncode | src/main.rs:179 | Decoding the bytes of any string gives that string back. |
| Response.NackMsg | src/main.rs:178-180 | The bytes are "NACK", then ':', then the UTF-8 bytes of the reason. |
| Response.NackMsgIsFormatted | src/main.rs:178-180 | The negative reply is the encoding of the single string "NACK:" followed by the reason. |
| Response.ParseEncodeAck | src/main.rs:19-20 | The bytes of one reply, read on their own, give back exactly the outcome that was written. |
| Response.EncodeAck | src/main.rs:106-127 | The bytes written are ACK exactly for a successful publish; every failure is written with the `NACK:` prefix. |
| Response.UnframedReplies | src/main.rs:106-127 | Replies on one socket carry no delimiter, so a NACK followed by an ACK reads as one NACK whose reason ends in "ACK". |
| Response.EncodeAckInjective | src/main.rs:19-20 | Distinct outcomes are written as distinct bytes. |
| Broadcast.Send | src/main.rs:106-123 | A send fails exactly when no receiver is attached; otherwise it reaches every attached receiver. |
| Broadcast.Subscribe | src/main.rs:81 | Subscribing attaches exactly one more receiver and leaves the capacity alone. |
| Broadcast.Release | src/main.rs:58 | Dropping receivers lowers the attached count by their number and leaves the capacity alone (also the discarded receiver at line 95). |
| Broadcast.Open | src/main.rs:95 | A new channel needs a positive capacity and starts with the one receiver it returns. |
| Consumers.New | src/consumer.rs:11-16 | A new consumer writes to the given socket and holds no receiver of any queue. |
| Consumers.AddQueue | src/consumer.rs:27-29 | The list grows by exactly one: the earlier receivers keep their order, the new one is last, and the socket is unchanged. |
| Consumers.AddQueueCount | src/consumer.rs:27-29 | A new receiver raises its own queue's count by one and leaves every other queue's count unchanged. |
| Consumers.AddQueueTwice | src/consumer.rs:27-29 | Adding the same queue's receiver twice keeps two entries; there is no de-duplication. |
| Consumers.Drained | src/consumer.rs:18-21 | The delivery loop reads a receiver exactly when the list is non-empty, and the receiver it reads belongs to the consumer. |
| Consumers.AddQueueKeepsDrained | src/consumer.rs:20-21 | Once a consumer has a receiver, later receivers never change which one is read, so they are never drained. |
| Consumers.HeldByUpdate | src/main.rs:56-58 | Registering a consumer under an id replaces the receivers held under that id with the new consumer's receivers. |
| Coordinator.ReleaseAll | src/main.rs:58 | Dropping a consumer lowers each queue's receiver count by the number of its receivers that the consumer held; capacities are unchanged. |
| Coordinator.Panics | src/main.rs:92-95 | The only event that kills the coordinator is a declaration of a new name that passed the size guard; every declaration of a new name with a positive size, and every other kind of event, is survived. |
| Coordinator.Step | src/main.rs:45-137 | Only a publish attempt is answered, and it changes no state. Queues are never removed or resized. A new queue's capacity is between 1 and 5000. |
| Coordinator.Run | src/main.rs:45-137 | At most one reply per event. Every queue declared at the start survives with its capacity. |
| CoordinatorProperties.NewConnectionEffect | src/main.rs:47-48 | The address becomes pending with the given socket and replaces any earlier entry; all other state is unchanged. |
| CoordinatorProperties.AssignUnknownAddrIsNoop | src/main.rs:53-55 | A consumer or producer assignment for an address that is not pending changes nothing and writes nothing (also lines 71-73). |
| CoordinatorProperties.ConsumerAssignedEffect | src/main.rs:51-59 | The pending entry is consumed and a fresh consumer on that socket is registered under the id. An overwritten consumer's receivers stop counting as attached. Producers and queue names are unchanged. |
| CoordinatorProperties.ProducerAssignedEffect | src/main.rs:69-76 | The pending entry is consumed and its socket is registered as the producer under the id, overwriting any earlier one. Consumers and queues are unchanged. |
| CoordinatorProperties.ConsumerStartedEffect | src/main.rs:61-68 | The id leaves the unstarted table and the consumer joins the running tasks. Every receiver stays attached. An unknown id changes nothing. |
| CoordinatorProperties.ConsumerIdReuse | src/main.rs:61-68 | After a start, the same id can be registered again while the started consumer keeps running with all of its receivers. |
| CoordinatorProperties.QueueAssignedEffect | src/main.rs:78-86 | State changes if and only if the consumer is unstarted and the queue is declared. In that case exactly one receiver of the queue is appended to the consumer and the queue's count rises by one. |
| CoordinatorProperties.QueueAssignedTwice | src/main.rs:78-86 | Assigning the same queue twice appends two receivers and raises the attached count by two. |
| CoordinatorProperties.QueueDeclaredEffect | src/main.rs:87-97 | State changes if and only if the name is new and the size is at most 5000. The new queue gets that capacity and zero receivers; existing queues are untouched. |
| CoordinatorProperties.FreshQueueRefusesPublish | src/main.rs:95-96 | The receiver created with a new channel is discarded, so a publish straight after a declaration gets NACK "failed to publish message". |
| CoordinatorProperties.MessageReceivedReply | src/main.rs:99-135 | State is unchanged. The reply depends on the case: none for an unknown producer; NACK "queue does not exist" for an undeclared queue; NACK "failed to publish message" when nobody holds a receiver; ACK when some consumer does. |
| CoordinatorProperties.StepPreservesInv | src/main.rs:45-137 | Every event the coordinator survives preserves the invariant. |
| CoordinatorProperties.RunPreservesInv | src/main.rs:45-137 | The invariant holds after any sequence of events. |
| CoordinatorProperties.ReachableInv | src/main.rs:39-45 | Every state reached from the empty tables satisfies the invariant, and no receiver count is ever negative. |
| CoordinatorProperties.PanicHalts | src/main.rs:92-95 | A zero-size declaration of a new name ends the coordinator: it and every later event are ignored. |
| CoordinatorProperties.RedeclarationsIgnored | src/main.rs:89-91 | Any number of declarations of an existing name change nothing, write nothing and do not panic. |
| CoordinatorProperties.FirstDeclarationWins | src/main.rs:87-97 | In a run of declarations of one new name, oversize ones are skipped and the first with a size from 1 to 5000 fixes the capacity; later ones never change it. |
| CoordinatorProperties.ReplyReadsBack | src/main.rs:106-133 | The bytes of each reply, read on their own, give back the outcome it carries, and a NACK's bytes are the nack_msg of its reason. |
| Scenarios.OrdersScenario | src/main.rs:45-137 | Declare, assign a consumer, assign it the queue, start it, then assign a producer and publish. The producer gets ACK and the running consumer reads that queue. |
| Scenarios.UnregisteredProducerScenario | src/main.rs:104 | A publish from an id that was never assigned as a producer gets no reply. |
| Scenarios.ZeroSizeScenario | src/main.rs:92-95 | A zero-size declaration stops the coordinator, so later events are never processed. |

## Left out

- `main`, `handle_tcp` and `handle_command` (src/main.rs:22-37, 140-176): TCP accept and read, configuration loading, task spawning and `BUFF_SIZE`. These are I/O.
- `Event::from_network_command`: it is not part of this model, because its source is not available. The events therefore start at the coordinator.
- The body of `Consumer::consume`: asynchronous socket writes, JSON serialisation and its `unwrap` panics. This includes the panic on a lagged or closed receiver and the panic on a failed write. Started consumers are treated as living forever and holding their receivers. A task that dies would drop its receivers, and later publishes to its queues could then be NACKed.
- The channel's ring of buffered values, the lagging receiver's drop-oldest behaviour, and the rounding of capacity up to a power of two. A queue's capacity is recorded as the requested number, and the published value itself is not stored.
- JSON decoding of `Command` and `Message` (`src/command.rs`, `src/message.rs`): that behaviour belongs to a serialisation library. Only `Message` is mirrored, in `Commands`; the event fields carry the command fields.
- `src/server.rs`, `src/messages.rs`, `src/events.rs`: the first is service glue that duplicates the reply constants; the other two are older types that `handle_events` does not use.
- Write failures on ACK/NACK: the code ignores them. All logging is left out.
- How replies reach the socket (src/main.rs:108, 115-117, 125-127): `write` may send only a prefix of the reply and its count is discarded; the write is awaited inside the coordinator loop, so a producer that stops reading stalls every later event; and consecutive replies are not delimited (`Response.UnframedReplies`). A `Reply` is the whole reply the coordinator asks to write, and the read-back lemmas are about one reply's bytes on their own.
- Disconnection: `handle_events` has no event for a dropped connection, so pending entries, producers and consumers are never removed on disconnect.
