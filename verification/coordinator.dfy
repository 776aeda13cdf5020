/** The event coordinator (`handle_events`, src/main.rs lines 39-138): the one
    task that owns the pending connections, the unstarted consumers, the
    producers and the declared queues, and applies one event at a time in
    arrival order. Because nothing else touches that state it is modelled as
    a pure step function over an immutable state. */
module Coordinator {
  import opened Wrappers
  import opened Utf8
  import opened Response
  import opened Broadcast
  import opened Consumers

  type ProducerId = string

  /** The largest capacity a queue may be declared with. */
  const MaxQueueSize: nat := 5000

  type Port = p: nat | p < 0x1_0000

  /** The peer address of an accepted connection. */
  datatype SocketAddr = SocketAddr(ip: seq<byte>, port: Port)

  /** The events as the coordinator destructures them. `P` is the published
      payload, which the coordinator passes to the channel without looking at. */
  datatype Event<P> =
    | NewConnection(addr: SocketAddr, outStream: WriteHandle)
    | ConsumerAssigned(addr: SocketAddr, id: ConsumerId)
    | ConsumerStarted(id: ConsumerId)
    | ProducerAssigned(addr: SocketAddr, id: ProducerId)
    | QueueAssigned(consumerId: ConsumerId, queue: QueueName)
    | QueueDeclared(queueName: QueueName, size: nat)
    | MessageReceived(queueName: QueueName, producerId: ProducerId, message: P)

  /** Everything the coordinator owns, plus the consumers it has started.
      A started consumer's delivery task keeps its receivers for good; the
      coordinator keeps no handle to it, so `running` is only read by the
      accounting below, never by `Step`'s decisions. */
  datatype State = State(
    pending: map<SocketAddr, WriteHandle>,
    consumers: map<ConsumerId, Consumer>,
    producers: map<ProducerId, WriteHandle>,
    queues: map<QueueName, Channel>,
    running: seq<Consumer>)

  const Init: State := State(map[], map[], map[], map[], [])

  /** An acknowledgement written to one producer's socket. */
  datatype Reply = Reply(to: WriteHandle, ack: Ack) {
    /** The bytes that go on the wire. */
    function Bytes(): seq<byte> {
      EncodeAck(ack)
    }
  }

  datatype Outcome = Outcome(state: State, reply: Option<Reply>)

  /** Dropping a consumer drops its receivers, each detaching from its own
      queue's channel. */
  function ReleaseAll(queues: map<QueueName, Channel>, subs: seq<Receiver>): (r: map<QueueName, Channel>)
    ensures r.Keys == queues.Keys
    ensures forall q :: q in r ==> r[q].receivers == queues[q].receivers - Count(subs, q)
    ensures forall q :: q in r ==> r[q].capacity == queues[q].capacity
  {
    map q | q in queues :: Release(queues[q], Count(subs, q))
  }

  /** Declaring a new queue with size zero passes both guards, and creating
      its channel then panics inside the coordinator task, which ends it;
      `Step` is not defined there and `Run` stops. */
  predicate Panics<P>(s: State, ev: Event<P>): (p: bool)
    ensures p ==> ev.QueueDeclared? && ev.queueName !in s.queues && ev.size <= MaxQueueSize
    ensures ev.QueueDeclared? && ev.queueName !in s.queues && ev.size > 0 ==> !p
    ensures !ev.QueueDeclared? ==> !p
  {
    ev.QueueDeclared? && ev.queueName !in s.queues && ev.size == 0
  }

  /** Applies one event. Only a publish attempt is answered, and it changes
      no state; declared queues are never removed or resized. */
  function Step<P>(s: State, ev: Event<P>): (o: Outcome)
    requires !Panics(s, ev)
    ensures o.reply.Some? ==> ev.MessageReceived?
    ensures ev.MessageReceived? ==> o.state == s
    ensures s.queues.Keys <= o.state.queues.Keys
    ensures forall q :: q in s.queues ==> o.state.queues[q].capacity == s.queues[q].capacity
    ensures forall q :: q in o.state.queues && q !in s.queues ==> 0 < o.state.queues[q].capacity <= MaxQueueSize
  {
    match ev
    case NewConnection(addr, outStream) =>
      Outcome(s.(pending := s.pending[addr := outStream]), None)

    case ConsumerAssigned(addr, id) =>
      if addr !in s.pending then Outcome(s, None)
      else
        var outStream := s.pending[addr];
        var dropped := if id in s.consumers then s.consumers[id].queues else [];
        Outcome(s.(pending := s.pending - {addr},
                   consumers := s.consumers[id := New(outStream)],
                   queues := ReleaseAll(s.queues, dropped)), None)

    case ConsumerStarted(id) =>
      if id in s.consumers then
        Outcome(s.(consumers := s.consumers - {id}, running := s.running + [s.consumers[id]]), None)
      else Outcome(s, None)

    case ProducerAssigned(addr, id) =>
      if addr !in s.pending then Outcome(s, None)
      else
        Outcome(s.(pending := s.pending - {addr},
                   producers := s.producers[id := s.pending[addr]]), None)

    case QueueAssigned(consumerId, queue) =>
      if consumerId in s.consumers && queue in s.queues then
        Outcome(s.(consumers := s.consumers[consumerId := AddQueue(s.consumers[consumerId], Receiver(queue))],
                   queues := s.queues[queue := Subscribe(s.queues[queue])]), None)
      else Outcome(s, None)

    case QueueDeclared(queueName, size) =>
      if queueName in s.queues then Outcome(s, None)
      else if size > MaxQueueSize then Outcome(s, None)
      else
        // the receiver created with the channel is discarded at once
        Outcome(s.(queues := s.queues[queueName := Release(Open(size), 1)]), None)

    case MessageReceived(queueName, producerId, _) =>
      if producerId !in s.producers then Outcome(s, None)
      else
        var conn := s.producers[producerId];
        if queueName !in s.queues then
          Outcome(s, Some(Reply(conn, Nack(QueueDoesNotExist))))
        else
          match Send(s.queues[queueName])
          case Sent(_) => Outcome(s, Some(Reply(conn, Ack)))
          case SendError => Outcome(s, Some(Reply(conn, Nack(FailedToPublish))))
  }

  /** The result of feeding a sequence of events: the last state, the replies
      written, in order, and whether the coordinator died on the way. */
  datatype Trace = Trace(final: State, replies: seq<Reply>, halted: bool)

  function Replies(r: Option<Reply>): seq<Reply> {
    match r
    case None => []
    case Some(reply) => [reply]
  }

  /** Processes events in arrival order until they run out or one panics. */
  function Run<P>(s: State, evs: seq<Event<P>>): (t: Trace)
    ensures |t.replies| <= |evs|
    ensures s.queues.Keys <= t.final.queues.Keys
    ensures forall q :: q in s.queues ==> t.final.queues[q].capacity == s.queues[q].capacity
    decreases |evs|
  {
    if evs == [] then Trace(s, [], false)
    else if Panics(s, evs[0]) then Trace(s, [], true)
    else
      var o := Step(s, evs[0]);
      var t := Run(o.state, evs[1..]);
      Trace(t.final, Replies(o.reply) + t.replies, t.halted)
  }

  /** How many receivers of `q` are held, by unstarted and started consumers. */
  ghost function Attached(s: State, q: QueueName): nat {
    HeldBy(s.consumers, q) + HeldByAll(s.running, q)
  }

  /** Some unstarted or started consumer holds a receiver of `q`. */
  ghost predicate Subscribed(s: State, q: QueueName) {
    AnyHolds(s.consumers, q) || exists i :: 0 <= i < |s.running| && Receiver(q) in s.running[i].queues
  }

  /** What holds of every state the coordinator reaches: capacities are in
      range, each channel's receiver count is the number of its receivers
      actually held, and nobody holds a receiver of an undeclared queue. */
  ghost predicate Inv(s: State) {
    && (forall q :: q in s.queues ==> 0 < s.queues[q].capacity <= MaxQueueSize)
    && (forall q :: q in s.queues ==> s.queues[q].receivers == Attached(s, q))
    && (forall q :: q !in s.queues ==> Attached(s, q) == 0)
  }
}
