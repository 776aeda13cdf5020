/** The part of a bounded multi-subscriber broadcast channel that the
    coordinator's decisions depend on: its capacity and how many receivers
    are currently attached. The ring of buffered values is not modelled. */
module Broadcast {

  type QueueName = string

  /** The sending side of one queue's channel. `receivers` is the channel's
      own count of attached receivers; it rises on subscribe and falls when a
      receiver is dropped. It is an `int` so that a drop can be written as a
      subtraction; in every reachable coordinator state it equals the number
      of receivers actually held, hence is never negative. */
  datatype Channel = Channel(capacity: nat, receivers: int)

  /** One receiver, identified by the queue whose channel it was subscribed to. */
  datatype Receiver = Receiver(queue: QueueName)

  /** Creating a channel hands back the sender together with one receiver,
      so the count starts at one. The constructor refuses a capacity of zero
      (it panics), hence the precondition. */
  function Open(capacity: nat): (ch: Channel)
    requires capacity > 0
    ensures ch.capacity == capacity && ch.receivers == 1
  {
    Channel(capacity, 1)
  }

  /** Subscribing attaches one more receiver. */
  function Subscribe(ch: Channel): (ch': Channel)
    ensures ch'.receivers == ch.receivers + 1 && ch'.capacity == ch.capacity
  {
    ch.(receivers := ch.receivers + 1)
  }

  /** Dropping `n` receivers of this channel detaches them. */
  function Release(ch: Channel, n: nat): (ch': Channel)
    ensures ch'.receivers == ch.receivers - n && ch'.capacity == ch.capacity
  {
    ch.(receivers := ch.receivers - n)
  }

  /** The outcome of a send: the number of receivers reached, or an error
      when nobody is listening. */
  datatype SendResult = Sent(reached: nat) | SendError

  /** A send fails exactly when no receiver is attached; otherwise every
      attached receiver is reached. */
  function Send(ch: Channel): (r: SendResult)
    ensures r.SendError? <==> ch.receivers <= 0
    ensures r.Sent? ==> r.reached == ch.receivers && r.reached > 0
  {
    if ch.receivers <= 0 then SendError else Sent(ch.receivers)
  }
}
