/** End-to-end runs of the coordinator from its empty start state. */
module Scenarios {
  import opened Wrappers
  import opened Response
  import opened Broadcast
  import opened Consumers
  import opened Commands
  import opened Coordinator

  /** Feeding a non-empty sequence is one step followed by the rest. */
  lemma RunCons<P>(s: State, e: Event<P>, rest: seq<Event<P>>)
    requires !Panics(s, e)
    ensures var o := Step(s, e);
      Run(s, [e] + rest) == Trace(Run(o.state, rest).final, Replies(o.reply) + Run(o.state, rest).replies, Run(o.state, rest).halted)
  {
  }

  /** The states of the scenario below, after each of its first events. */
  function Declared(): State {
    Init.(queues := map["orders" := Channel(10, 0)])
  }

  function Subscribed1(wa: WriteHandle): State {
    Init.(consumers := map["c1" := Consumer(wa, [Receiver("orders")])],
          queues := map["orders" := Channel(10, 1)])
  }

  function Started(wa: WriteHandle): State {
    Init.(queues := map["orders" := Channel(10, 1)], running := [Consumer(wa, [Receiver("orders")])])
  }

  lemma {:induction false} OrdersPrefix(a: SocketAddr, wa: WriteHandle)
    ensures Step<Message>(Init, QueueDeclared("orders", 10)) == Outcome(Declared(), None)
    ensures Step<Message>(Declared(), NewConnection(a, wa)) == Outcome(Declared().(pending := map[a := wa]), None)
  {
  }

  lemma {:induction false} OrdersAssign(a: SocketAddr, wa: WriteHandle)
    ensures Step<Message>(Declared().(pending := map[a := wa]), ConsumerAssigned(a, "c1"))
         == Outcome(Declared().(consumers := map["c1" := Consumer(wa, [])]), None)
  {
  }

  lemma {:induction false} OrdersSubscribe(wa: WriteHandle)
    ensures Step<Message>(Declared().(consumers := map["c1" := Consumer(wa, [])]), QueueAssigned("c1", "orders"))
         == Outcome(Subscribed1(wa), None)
  {
  }

  lemma {:induction false} OrdersStart(wa: WriteHandle)
    ensures Step<Message>(Subscribed1(wa), ConsumerStarted("c1")) == Outcome(Started(wa), None)
  {
  }

  lemma {:induction false} OrdersPublish(b: SocketAddr, wa: WriteHandle, wb: WriteHandle, m: Message)
    ensures Step<Message>(Started(wa), NewConnection(b, wb)) == Outcome(Started(wa).(pending := map[b := wb]), None)
    ensures Step<Message>(Started(wa).(pending := map[b := wb]), ProducerAssigned(b, "p1"))
         == Outcome(Started(wa).(producers := map["p1" := wb]), None)
    ensures Step<Message>(Started(wa).(producers := map["p1" := wb]), MessageReceived("orders", "p1", m))
         == Outcome(Started(wa).(producers := map["p1" := wb]), Some(Reply(wb, Ack)))
  {
  }

  /** A queue is declared, connection `a` becomes consumer "c1" subscribed
      to it and is started, connection `b` becomes producer "p1" and
      publishes: the producer gets ACK, and the started consumer's delivery
      loop reads the queue's receiver. */
  lemma {:induction false} OrdersScenario(a: SocketAddr, b: SocketAddr, wa: WriteHandle, wb: WriteHandle, m: Message)
    ensures var t := Run(Init, [QueueDeclared("orders", 10), NewConnection(a, wa), ConsumerAssigned(a, "c1"),
                                QueueAssigned("c1", "orders"), ConsumerStarted("c1"),
                                NewConnection(b, wb), ProducerAssigned(b, "p1"),
                                MessageReceived("orders", "p1", m)]);
      && !t.halted
      && t.replies == [Reply(wb, Ack)]
      && t.final.running == [Consumer(wa, [Receiver("orders")])]
      && Drained(t.final.running[0]) == Some(Receiver("orders"))
      && t.final.consumers == map[] && t.final.pending == map[]
  {
    var e0: Event<Message> := QueueDeclared("orders", 10);
    var e1: Event<Message> := NewConnection(a, wa);
    var e2: Event<Message> := ConsumerAssigned(a, "c1");
    var e3: Event<Message> := QueueAssigned("c1", "orders");
    var e4: Event<Message> := ConsumerStarted("c1");
    var tail: seq<Event<Message>> := [NewConnection(b, wb), ProducerAssigned(b, "p1"), MessageReceived("orders", "p1", m)];
    var t := Trace(Started(wa).(producers := map["p1" := wb]), [Reply(wb, Ack)], false);
    OrdersPrefix(a, wa);
    OrdersAssign(a, wa);
    OrdersSubscribe(wa);
    OrdersStart(wa);
    OrdersTail(b, wa, wb, m);
    RunCons(Subscribed1(wa), e4, tail);
    RunCons(Declared().(consumers := map["c1" := Consumer(wa, [])]), e3, [e4] + tail);
    RunCons(Declared().(pending := map[a := wa]), e2, [e3] + ([e4] + tail));
    RunCons(Declared(), e1, [e2] + ([e3] + ([e4] + tail)));
    RunCons(Init, e0, [e1] + ([e2] + ([e3] + ([e4] + tail))));
    assert [e0] + ([e1] + ([e2] + ([e3] + ([e4] + tail))))
        == [e0, e1, e2, e3, e4, NewConnection(b, wb), ProducerAssigned(b, "p1"), MessageReceived("orders", "p1", m)];
  }

  /** The second half of the scenario: once the consumer runs, a producer
      connects, is assigned and publishes, and gets ACK. */
  lemma {:induction false} OrdersTail(b: SocketAddr, wa: WriteHandle, wb: WriteHandle, m: Message)
    ensures Run<Message>(Started(wa), [NewConnection(b, wb), ProducerAssigned(b, "p1"), MessageReceived("orders", "p1", m)])
         == Trace(Started(wa).(producers := map["p1" := wb]), [Reply(wb, Ack)], false)
  {
    var e5: Event<Message> := NewConnection(b, wb);
    var e6: Event<Message> := ProducerAssigned(b, "p1");
    var e7: Event<Message> := MessageReceived("orders", "p1", m);
    var s7 := Started(wa).(producers := map["p1" := wb]);
    OrdersPublish(b, wa, wb, m);
    RunCons(s7, e7, []);
    RunCons(Started(wa).(pending := map[b := wb]), e6, [e7]);
    RunCons(Started(wa), e5, [e6, e7]);
    assert [e5] + [e6, e7] == [e5, e6, e7];
  }

  /** A publish from a producer id that was never assigned gets no reply at
      all, even to a declared queue. */
  lemma UnregisteredProducerScenario(m: Message)
    ensures var t := Run(Init, [QueueDeclared("orders", 10), MessageReceived("orders", "p1", m)]);
      !t.halted && t.replies == []
  {
    var evs: seq<Event<Message>> := [QueueDeclared("orders", 10), MessageReceived("orders", "p1", m)];
    var s1 := Step(Init, evs[0]).state;
    assert Run(s1, evs[1..]) == Trace(s1, [], false);
  }

  /** A declaration with size zero kills the coordinator: the later
      declaration and every event after it are never processed. */
  lemma ZeroSizeScenario(a: SocketAddr, w: WriteHandle)
    ensures var t := Run<Message>(Init, [QueueDeclared("orders", 0), QueueDeclared("orders", 10), NewConnection(a, w)]);
      t.halted && t.final == Init && t.replies == []
  {
  }
}
