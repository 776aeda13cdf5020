/** What the coordinator promises, one event kind at a time and over whole
    event sequences. */
module CoordinatorProperties {
  import opened Wrappers
  import opened Response
  import opened Broadcast
  import opened Consumers
  import opened Coordinator

  /** The receivers of `q` that assigning a consumer under `id` throws away:
      those of the unstarted consumer it overwrites, if any. */
  function Dropped(s: State, id: ConsumerId, q: QueueName): nat {
    if id in s.consumers then Count(s.consumers[id].queues, q) else 0
  }

  lemma InitInv()
    ensures Inv(Init)
  {
  }

  /** A new connection is recorded as pending under its address, replacing
      any earlier entry for that address; nothing else changes. */
  lemma NewConnectionEffect<P>(s: State, addr: SocketAddr, w: WriteHandle)
    ensures var o := Step<P>(s, NewConnection(addr, w));
      && o.reply == None
      && o.state.pending.Keys == s.pending.Keys + {addr}
      && o.state.pending[addr] == w
      && (forall a :: a in s.pending && a != addr ==> o.state.pending[a] == s.pending[a])
      && o.state.consumers == s.consumers && o.state.producers == s.producers
      && o.state.queues == s.queues && o.state.running == s.running
  {
  }

  /** A role assignment for an address that is not pending changes nothing
      and writes nothing. */
  lemma AssignUnknownAddrIsNoop<P>(s: State, addr: SocketAddr, id: string)
    requires addr !in s.pending
    ensures Step<P>(s, ConsumerAssigned(addr, id)) == Outcome(s, None)
    ensures Step<P>(s, ProducerAssigned(addr, id)) == Outcome(s, None)
  {
  }

  /** Assigning a pending connection the consumer role consumes the pending
      entry and registers a fresh consumer on that socket under `id`. A
      consumer already registered under `id` is overwritten, and its
      receivers detach from their channels. */
  lemma ConsumerAssignedEffect<P>(s: State, addr: SocketAddr, id: ConsumerId)
    requires addr in s.pending
    ensures var o := Step<P>(s, ConsumerAssigned(addr, id));
      && o.reply == None
      && o.state.pending.Keys == s.pending.Keys - {addr}
      && (forall a :: a in o.state.pending ==> o.state.pending[a] == s.pending[a])
      && o.state.consumers.Keys == s.consumers.Keys + {id}
      && o.state.consumers[id].outStream == s.pending[addr]
      && o.state.consumers[id].queues == []
      && (forall k :: k in s.consumers && k != id ==> o.state.consumers[k] == s.consumers[k])
      && o.state.producers == s.producers && o.state.running == s.running
      && o.state.queues.Keys == s.queues.Keys
      && (forall q :: q in s.queues ==> o.state.queues[q].receivers == s.queues[q].receivers - Dropped(s, id, q))
      && (forall q :: Attached(o.state, q) == Attached(s, q) - Dropped(s, id, q))
  {
    var o := Step<P>(s, ConsumerAssigned(addr, id));
    forall q
      ensures Attached(o.state, q) == Attached(s, q) - Dropped(s, id, q)
    {
      HeldByUpdate(s.consumers, id, New(s.pending[addr]), q);
      if id !in s.consumers {
        assert s.consumers - {id} == s.consumers;
      }
    }
  }

  /** Assigning a pending connection the producer role consumes the pending
      entry and registers its socket under `id`, overwriting any producer
      already there; consumers and queues are untouched. */
  lemma ProducerAssignedEffect<P>(s: State, addr: SocketAddr, id: ProducerId)
    requires addr in s.pending
    ensures var o := Step<P>(s, ProducerAssigned(addr, id));
      && o.reply == None
      && o.state.pending.Keys == s.pending.Keys - {addr}
      && (forall a :: a in o.state.pending ==> o.state.pending[a] == s.pending[a])
      && o.state.producers.Keys == s.producers.Keys + {id}
      && o.state.producers[id] == s.pending[addr]
      && (forall k :: k in s.producers && k != id ==> o.state.producers[k] == s.producers[k])
      && o.state.consumers == s.consumers && o.state.queues == s.queues && o.state.running == s.running
  {
  }

  /** Starting a consumer hands it to a delivery task: its id leaves the
      table of unstarted consumers, while every receiver it holds stays
      attached. Starting an unknown id does nothing. */
  lemma ConsumerStartedEffect<P>(s: State, id: ConsumerId)
    ensures var o := Step<P>(s, ConsumerStarted(id));
      && o.reply == None
      && (id !in s.consumers ==> o.state == s)
      && (id in s.consumers ==>
            && id !in o.state.consumers
            && o.state.consumers == s.consumers - {id}
            && o.state.running == s.running + [s.consumers[id]]
            && o.state.pending == s.pending && o.state.producers == s.producers
            && o.state.queues == s.queues)
      && (forall q :: Attached(o.state, q) == Attached(s, q))
  {
    var o := Step<P>(s, ConsumerStarted(id));
    if id in s.consumers {
      forall q
        ensures Attached(o.state, q) == Attached(s, q)
      {
        HeldByRemove(s.consumers, id, q);
        assert (s.running + [s.consumers[id]])[..|s.running|] == s.running;
      }
    }
  }

  /** Once a consumer is started its id is free again: a second connection
      can be registered under the same id while the first consumer keeps
      running with all its receivers. */
  lemma ConsumerIdReuse<P>(s: State, id: ConsumerId, addr: SocketAddr)
    requires id in s.consumers && addr in s.pending
    ensures var s1 := Step<P>(s, ConsumerStarted(id)).state;
      var s2 := Step<P>(s1, ConsumerAssigned(addr, id)).state;
      && id in s2.consumers
      && s2.consumers[id].outStream == s.pending[addr]
      && s2.running == s.running + [s.consumers[id]]
      && (forall q :: Attached(s2, q) == Attached(s, q))
  {
    var s1 := Step<P>(s, ConsumerStarted(id)).state;
    ConsumerStartedEffect<P>(s, id);
    ConsumerAssignedEffect<P>(s1, addr, id);
  }

  /** Assigning a queue to a consumer attaches exactly one new receiver of
      that queue, appended to the consumer's list, when the consumer is
      registered and not started and the queue is declared; otherwise
      nothing changes. */
  lemma QueueAssignedEffect<P>(s: State, c: ConsumerId, q: QueueName)
    ensures var o := Step<P>(s, QueueAssigned(c, q));
      && o.reply == None
      && (o.state == s <==> !(c in s.consumers && q in s.queues))
      && (c in s.consumers && q in s.queues ==>
            && o.state.consumers.Keys == s.consumers.Keys
            && o.state.consumers[c].queues == s.consumers[c].queues + [Receiver(q)]
            && o.state.consumers[c].outStream == s.consumers[c].outStream
            && (forall k :: k in s.consumers && k != c ==> o.state.consumers[k] == s.consumers[k])
            && o.state.queues.Keys == s.queues.Keys
            && o.state.queues[q].receivers == s.queues[q].receivers + 1
            && (forall q' :: q' in s.queues && q' != q ==> o.state.queues[q'] == s.queues[q'])
            && o.state.pending == s.pending && o.state.producers == s.producers
            && o.state.running == s.running)
      && (forall q' :: Attached(o.state, q') == Attached(s, q') + (if q' == q && c in s.consumers && q in s.queues then 1 else 0))
  {
    var o := Step<P>(s, QueueAssigned(c, q));
    if c in s.consumers && q in s.queues {
      var old_c := s.consumers[c];
      var new_c := AddQueue(old_c, Receiver(q));
      assert |o.state.consumers[c].queues| != |s.consumers[c].queues|;
      forall q'
        ensures Attached(o.state, q') == Attached(s, q') + (if q' == q then 1 else 0)
      {
        HeldByUpdate(s.consumers, c, new_c, q');
        AddQueueCount(old_c, Receiver(q), q');
      }
    }
  }

  /** Assigning the same queue to the same consumer twice gives it two
      receivers of that queue: the assignments are not de-duplicated. */
  lemma QueueAssignedTwice<P>(s: State, c: ConsumerId, q: QueueName)
    requires c in s.consumers && q in s.queues
    ensures var s1 := Step<P>(s, QueueAssigned(c, q)).state;
      var s2 := Step<P>(s1, QueueAssigned(c, q)).state;
      && s2.consumers[c].queues == s.consumers[c].queues + [Receiver(q), Receiver(q)]
      && Attached(s2, q) == Attached(s, q) + 2
      && s2.queues[q].receivers == s.queues[q].receivers + 2
  {
    var s1 := Step<P>(s, QueueAssigned(c, q)).state;
    QueueAssignedEffect<P>(s, c, q);
    QueueAssignedEffect<P>(s1, c, q);
    assert s.consumers[c].queues + [Receiver(q)] + [Receiver(q)]
        == s.consumers[c].queues + [Receiver(q), Receiver(q)];
  }

  /** Declaring a queue registers it, with the requested capacity and no
      attached receiver, exactly when the name is new and the size within
      the maximum; otherwise nothing changes, and in particular an existing
      queue keeps its capacity and its receivers. */
  lemma QueueDeclaredEffect<P>(s: State, n: QueueName, size: nat)
    requires Inv(s)
    requires !Panics<P>(s, QueueDeclared(n, size))
    ensures var o := Step<P>(s, QueueDeclared(n, size));
      && o.reply == None
      && (o.state != s <==> n !in s.queues && size <= MaxQueueSize)
      && (n !in s.queues && size <= MaxQueueSize ==>
            && o.state.queues.Keys == s.queues.Keys + {n}
            && o.state.queues[n].capacity == size
            && o.state.queues[n].receivers == 0
            && Attached(o.state, n) == 0
            && (forall q :: q in s.queues ==> o.state.queues[q] == s.queues[q])
            && o.state.pending == s.pending && o.state.consumers == s.consumers
            && o.state.producers == s.producers && o.state.running == s.running)
  {
  }

  /** The reply to a publish attempt, by case: none for an unknown producer;
      for a known one, a NACK citing the missing queue, a NACK citing the
      failed publish when nobody holds a receiver of the queue, and an ACK
      when somebody does. */
  lemma MessageReceivedReply<P>(s: State, q: QueueName, p: ProducerId, m: P)
    requires Inv(s)
    ensures var o := Step<P>(s, MessageReceived(q, p, m));
      && o.state == s
      && (p !in s.producers ==> o.reply == None)
      && (p in s.producers && q !in s.queues ==>
            o.reply == Some(Reply(s.producers[p], Nack(QueueDoesNotExist))))
      && (p in s.producers && q in s.queues && !Subscribed(s, q) ==>
            o.reply == Some(Reply(s.producers[p], Nack(FailedToPublish))))
      && (p in s.producers && q in s.queues && Subscribed(s, q) ==>
            o.reply == Some(Reply(s.producers[p], Ack)))
  {
    HeldByPositive(s.consumers, q);
    HeldByAllPositive(s.running, q);
  }

  /** A queue that was just declared has no receiver, so a publish to it is
      refused even though it exists. */
  lemma FreshQueueRefusesPublish<P>(s: State, n: QueueName, size: nat, p: ProducerId, m: P)
    requires p in s.producers
    requires n !in s.queues && 0 < size <= MaxQueueSize
    ensures var s1 := Step<P>(s, QueueDeclared(n, size)).state;
      Step<P>(s1, MessageReceived(n, p, m)).reply == Some(Reply(s.producers[p], Nack(FailedToPublish)))
  {
  }

  lemma InvAfterConsumerAssigned<P>(s: State, addr: SocketAddr, id: ConsumerId)
    requires Inv(s)
    ensures Inv(Step<P>(s, ConsumerAssigned(addr, id)).state)
  {
    if addr in s.pending {
      ConsumerAssignedEffect<P>(s, addr, id);
    }
  }

  lemma InvAfterConsumerStarted<P>(s: State, id: ConsumerId)
    requires Inv(s)
    ensures Inv(Step<P>(s, ConsumerStarted(id)).state)
  {
    ConsumerStartedEffect<P>(s, id);
  }

  lemma InvAfterQueueAssigned<P>(s: State, c: ConsumerId, q: QueueName)
    requires Inv(s)
    ensures Inv(Step<P>(s, QueueAssigned(c, q)).state)
  {
    QueueAssignedEffect<P>(s, c, q);
  }

  lemma InvAfterQueueDeclared<P>(s: State, n: QueueName, size: nat)
    requires Inv(s) && !Panics<P>(s, QueueDeclared(n, size))
    ensures Inv(Step<P>(s, QueueDeclared(n, size)).state)
  {
    QueueDeclaredEffect<P>(s, n, size);
  }

  /** Every event the coordinator survives keeps the invariant. */
  lemma StepPreservesInv<P>(s: State, ev: Event<P>)
    requires Inv(s) && !Panics(s, ev)
    ensures Inv(Step(s, ev).state)
  {
    match ev
    case NewConnection(_, _) =>
    case ConsumerAssigned(addr, id) => InvAfterConsumerAssigned<P>(s, addr, id);
    case ConsumerStarted(id) => InvAfterConsumerStarted<P>(s, id);
    case ProducerAssigned(_, _) =>
    case QueueAssigned(c, q) => InvAfterQueueAssigned<P>(s, c, q);
    case QueueDeclared(n, size) => InvAfterQueueDeclared<P>(s, n, size);
    case MessageReceived(_, _, _) =>
  }

  /** Every state reached by feeding events to a state that satisfies the
      invariant satisfies it too. */
  lemma {:induction false} RunPreservesInv<P>(s: State, evs: seq<Event<P>>)
    requires Inv(s)
    ensures Inv(Run(s, evs).final)
    decreases |evs|
  {
    if evs != [] && !Panics(s, evs[0]) {
      StepPreservesInv(s, evs[0]);
      RunPreservesInv(Step(s, evs[0]).state, evs[1..]);
    }
  }

  /** Every reachable state satisfies the invariant; in particular no
      channel's receiver count is ever negative. */
  lemma ReachableInv<P>(evs: seq<Event<P>>)
    ensures Inv(Run(Init, evs).final)
    ensures forall q :: q in Run(Init, evs).final.queues ==> Run(Init, evs).final.queues[q].receivers >= 0
  {
    RunPreservesInv(Init, evs);
  }

  /** An event that panics ends the coordinator: it and every later event are
      ignored and nothing more is written. */
  lemma PanicHalts<P>(s: State, evs: seq<Event<P>>)
    requires evs != [] && Panics(s, evs[0])
    ensures Run(s, evs) == Trace(s, [], true)
  {
  }

  /** Repeated declarations of one name, with any sizes. */
  function Declarations<P>(n: QueueName, sizes: seq<nat>): (evs: seq<Event<P>>)
    ensures |evs| == |sizes|
    ensures forall i :: 0 <= i < |sizes| ==> evs[i] == QueueDeclared(n, sizes[i])
  {
    if sizes == [] then [] else [QueueDeclared(n, sizes[0])] + Declarations(n, sizes[1..])
  }

  /** Once a name is declared, any number of further declarations of it are
      ignored: no state changes, nothing is written and nothing panics. */
  lemma {:induction false} RedeclarationsIgnored<P>(s: State, n: QueueName, sizes: seq<nat>)
    requires n in s.queues
    ensures Run(s, Declarations<P>(n, sizes)) == Trace(s, [], false)
    decreases |sizes|
  {
    if sizes != [] {
      var evs := Declarations<P>(n, sizes);
      assert evs[1..] == Declarations<P>(n, sizes[1..]);
      RedeclarationsIgnored<P>(s, n, sizes[1..]);
    }
  }

  /** Declarations of a new name whose size is over the maximum are skipped
      without effect. */
  lemma {:induction false} OversizeDeclarationsIgnored<P>(s: State, n: QueueName, bigs: seq<nat>, rest: seq<Event<P>>)
    requires n !in s.queues
    requires forall i :: 0 <= i < |bigs| ==> bigs[i] > MaxQueueSize
    ensures Run(s, Declarations<P>(n, bigs) + rest) == Run(s, rest)
    decreases |bigs|
  {
    if bigs != [] {
      var evs := Declarations<P>(n, bigs) + rest;
      assert evs[0] == QueueDeclared(n, bigs[0]);
      assert evs[1..] == Declarations<P>(n, bigs[1..]) + rest;
      assert Step(s, evs[0]) == Outcome(s, None);
      OversizeDeclarationsIgnored(s, n, bigs[1..], rest);
    } else {
      assert Declarations<P>(n, bigs) + rest == rest;
    }
  }

  /** Of a run of declarations of one new name, the first whose size is
      within the maximum is the one that counts: the oversize ones before it
      are skipped, it registers the queue with its capacity, and every later
      one leaves that capacity alone. */
  lemma FirstDeclarationWins<P>(s: State, n: QueueName, bigs: seq<nat>, size: nat, sizes: seq<nat>)
    requires n !in s.queues
    requires forall i :: 0 <= i < |bigs| ==> bigs[i] > MaxQueueSize
    requires 0 < size <= MaxQueueSize
    ensures var t := Run(s, Declarations<P>(n, bigs + [size] + sizes));
      && !t.halted && t.replies == []
      && n in t.final.queues && t.final.queues[n].capacity == size
  {
    var rest := Declarations<P>(n, [size] + sizes);
    assert Declarations<P>(n, bigs + [size] + sizes) == Declarations<P>(n, bigs) + rest;
    OversizeDeclarationsIgnored(s, n, bigs, rest);
    assert rest[1..] == Declarations<P>(n, sizes);
    RedeclarationsIgnored<P>(Step(s, rest[0]).state, n, sizes);
  }

  /** The bytes of each reply, read on their own, give the outcome the
      coordinator meant. */
  lemma ReplyReadsBack(r: Reply)
    ensures ParseAck(r.Bytes()) == Some(r.ack)
    ensures r.ack.Nack? ==> r.Bytes() == NackMsg(r.ack.reason)
  {
    ParseEncodeAck(r.ack);
  }
}
