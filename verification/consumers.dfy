/** A consumer as the coordinator holds it before it is started: the write
    half of its socket and the ordered list of receivers it has been
    subscribed to (src/consumer.rs), plus the accounting of how many
    receivers of a queue a collection of consumers holds. */
module Consumers {
  import opened Wrappers
  import opened Broadcast

  type ConsumerId = string

  /** The write half of one accepted socket, identified by that socket. */
  datatype WriteHandle = WriteHandle(socket: nat)

  datatype Consumer = Consumer(outStream: WriteHandle, queues: seq<Receiver>)

  /** A fresh consumer writes to the given socket and is subscribed to nothing. */
  function New(outStream: WriteHandle): (c: Consumer)
    ensures c.outStream == outStream
    ensures forall q :: Count(c.queues, q) == 0
  {
    Consumer(outStream, [])
  }

  /** Appends one receiver; the earlier receivers keep their order and the
      socket is untouched. */
  function AddQueue(c: Consumer, rx: Receiver): (c': Consumer)
    ensures |c'.queues| == |c.queues| + 1
    ensures c'.queues[..|c.queues|] == c.queues && c'.queues[|c.queues|] == rx
    ensures c'.outStream == c.outStream
  {
    c.(queues := c.queues + [rx])
  }

  /** How many of `subs` are receivers of queue `q`. */
  function Count(subs: seq<Receiver>, q: QueueName): nat {
    multiset(subs)[Receiver(q)]
  }

  /** A new receiver raises the count of its own queue by one and leaves
      every other queue's count alone. */
  lemma AddQueueCount(c: Consumer, rx: Receiver, q: QueueName)
    ensures Count(AddQueue(c, rx).queues, q) == Count(c.queues, q) + (if rx.queue == q then 1 else 0)
  {
  }

  /** Adding the same queue's receiver twice keeps both: there is no
      de-duplication. */
  lemma AddQueueTwice(c: Consumer, rx: Receiver)
    ensures AddQueue(AddQueue(c, rx), rx).queues == c.queues + [rx, rx]
    ensures Count(AddQueue(AddQueue(c, rx), rx).queues, rx.queue) == Count(c.queues, rx.queue) + 2
  {
  }

  /** The receiver the delivery loop of a started consumer reads from: only
      the first one. With no receiver at all the loop's first read indexes an
      empty list and panics, so nothing is ever delivered. */
  function Drained(c: Consumer): (r: Option<Receiver>)
    ensures r.Some? <==> |c.queues| > 0
    ensures r.Some? ==> r.value in c.queues
  {
    if |c.queues| == 0 then None else Some(c.queues[0])
  }

  /** Once a consumer has a receiver, further ones never change what its
      delivery loop reads: they stay attached but are never drained. */
  lemma AddQueueKeepsDrained(c: Consumer, rx: Receiver)
    ensures |c.queues| > 0 ==> Drained(AddQueue(c, rx)) == Drained(c)
    ensures |c.queues| == 0 ==> Drained(AddQueue(c, rx)) == Some(rx)
  {
  }

  /** An arbitrary key of a non-empty table, fixed once so that the sum
      below and the lemmas about it agree on it. */
  ghost function Pick(m: map<ConsumerId, Consumer>): (k: ConsumerId)
    requires m != map[]
    ensures k in m
  {
    assert m.Keys != {};
    var k :| k in m.Keys; k
  }

  /** The number of receivers of queue `q` held by all consumers of a table. */
  ghost function HeldBy(m: map<ConsumerId, Consumer>, q: QueueName): nat
    decreases m.Keys
  {
    if m == map[] then 0
    else
      var k := Pick(m);
      Count(m[k].queues, q) + HeldBy(m - {k}, q)
  }

  /** The sum does not depend on which key is taken first. */
  lemma {:induction false} HeldByRemove(m: map<ConsumerId, Consumer>, k: ConsumerId, q: QueueName)
    requires k in m
    ensures HeldBy(m, q) == Count(m[k].queues, q) + HeldBy(m - {k}, q)
    decreases m.Keys
  {
    var j := Pick(m);
    if j != k {
      HeldByRemove(m - {j}, k, q);
      HeldByRemove(m - {k}, j, q);
      assert m - {j} - {k} == m - {k} - {j};
    }
  }

  /** Registering `v` under `k` replaces whatever `k` held before by what
      `v` holds. */
  lemma HeldByUpdate(m: map<ConsumerId, Consumer>, k: ConsumerId, v: Consumer, q: QueueName)
    ensures HeldBy(m[k := v], q) == HeldBy(m - {k}, q) + Count(v.queues, q)
    ensures k in m ==> HeldBy(m[k := v], q) == HeldBy(m, q) - Count(m[k].queues, q) + Count(v.queues, q)
  {
    HeldByRemove(m[k := v], k, q);
    assert m[k := v] - {k} == m - {k};
    if k in m {
      HeldByRemove(m, k, q);
    }
  }

  /** Some consumer of the table holds a receiver of `q`. */
  ghost predicate AnyHolds(m: map<ConsumerId, Consumer>, q: QueueName) {
    exists k :: k in m && Receiver(q) in m[k].queues
  }

  /** A table holds a receiver of `q` exactly when some consumer in it does. */
  lemma {:induction false} HeldByPositive(m: map<ConsumerId, Consumer>, q: QueueName)
    ensures HeldBy(m, q) > 0 <==> AnyHolds(m, q)
    decreases m.Keys
  {
    if m != map[] {
      var k := Pick(m);
      HeldByPositive(m - {k}, q);
      if AnyHolds(m, q) && Count(m[k].queues, q) == 0 {
        var j :| j in m && Receiver(q) in m[j].queues;
        assert j != k;
        assert j in m - {k};
      }
    }
  }

  /** The number of receivers of queue `q` held by a list of consumers. */
  function HeldByAll(cs: seq<Consumer>, q: QueueName): nat {
    if cs == [] then 0 else HeldByAll(cs[..|cs| - 1], q) + Count(cs[|cs| - 1].queues, q)
  }

  /** A list of consumers holds a receiver of `q` exactly when one of its
      members does. */
  lemma {:induction false} HeldByAllPositive(cs: seq<Consumer>, q: QueueName)
    ensures HeldByAll(cs, q) > 0 <==> exists i :: 0 <= i < |cs| && Receiver(q) in cs[i].queues
  {
    if cs != [] {
      var front := cs[..|cs| - 1];
      HeldByAllPositive(front, q);
      if exists i :: 0 <= i < |cs| && Receiver(q) in cs[i].queues {
        var i :| 0 <= i < |cs| && Receiver(q) in cs[i].queues;
        if i < |cs| - 1 {
          assert front[i] == cs[i];
        }
      }
      if HeldByAll(front, q) > 0 {
        var i :| 0 <= i < |front| && Receiver(q) in front[i].queues;
        assert cs[i] == front[i];
      }
    }
  }
}
