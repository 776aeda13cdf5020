/** The replies the coordinator writes to a producer after a publish
    attempt: the literal `ACK`, or `NACK:` followed by a reason
    (src/main.rs lines 19-20 and 178-180). */
module Response {
  import opened Wrappers
  import opened Utf8

  /** The positive acknowledgement, the bytes of "ACK". */
  const ACK: seq<byte> := Encode("ACK")

  /** The prefix of every negative acknowledgement, the bytes of "NACK". */
  const NACK: seq<byte> := Encode("NACK")

  /** The two reasons the coordinator ever cites. */
  const QueueDoesNotExist: string := "queue does not exist"
  const FailedToPublish: string := "failed to publish message"

  /** `NACK` followed by the bytes of the formatted string ":" + msg. */
  function NackMsg(msg: string): (r: seq<byte>)
    ensures r == Encode("NACK:") + Encode(msg)
    ensures |r| >= 5 && r[..4] == NACK && r[4] as int == ':' as int
  {
    EncodeAppend(":", msg);
    EncodeAppend("NACK", ":");
    EncodeAppend("NACK:", msg);
    assert "NACK" + ":" == "NACK:";
    EncodeAscii("NACK:");
    NACK + Encode(":" + msg)
  }

  /** The negative acknowledgement is the UTF-8 encoding of the single
      string "NACK:" followed by the reason. */
  lemma NackMsgIsFormatted(msg: string)
    ensures NackMsg(msg) == Encode("NACK:" + msg)
  {
    EncodeAppend("NACK:", msg);
  }

  /** What a producer learns from one reply. */
  datatype Ack = Ack | Nack(reason: string)

  /** The bytes the coordinator writes for each outcome. */
  function EncodeAck(a: Ack): (r: seq<byte>)
    ensures r == ACK <==> a == Ack
    ensures a.Nack? ==> |r| >= 5 && r[..5] == Encode("NACK:")
  {
    EncodeAscii("ACK");
    EncodeAscii("NACK:");
    match a
    case Ack => ACK
    case Nack(reason) => NackMsg(reason)
  }

  /** A producer's reading of one reply: `ACK` exactly, or the `NACK:` prefix
      followed by a UTF-8 reason; anything else is not a reply. */
  function ParseAck(bs: seq<byte>): (r: Option<Ack>)
    ensures r == Some(Ack) <==> bs == ACK
  {
    if bs == ACK then Some(Ack)
    else if |bs| >= 5 && bs[..5] == Encode("NACK:") then
      match Decode(bs[5..])
      case Some(reason) => Some(Nack(reason))
      case None => None
    else None
  }

  /** Every reply the coordinator writes reads back as the outcome it
      encodes, so a producer can always tell the cases apart. */
  lemma ParseEncodeAck(a: Ack)
    ensures ParseAck(EncodeAck(a)) == Some(a)
  {
    EncodeAscii("ACK");
    EncodeAscii("NACK:");
    match a
    case Ack =>
    case Nack(reason) =>
      var bs := NackMsg(reason);
      assert bs[0] != ACK[0];
      assert bs[..5] == Encode("NACK:");
      assert bs[5..] == Encode(reason);
      DecodeEncode(reason);
  }

  /** Distinct outcomes are written as distinct bytes. */
  lemma EncodeAckInjective(a: Ack, b: Ack)
    requires EncodeAck(a) == EncodeAck(b)
    ensures a == b
  {
    ParseEncodeAck(a);
    ParseEncodeAck(b);
  }

  /** Replies written one after another on the same socket carry no
      delimiter: a NACK followed by an ACK reads as a single NACK whose reason
      ends in "ACK". */
  lemma UnframedReplies(reason: string)
    ensures ParseAck(NackMsg(reason) + ACK) == Some(Nack(reason + "ACK"))
  {
    EncodeAscii("ACK");
    EncodeAscii("NACK:");
    EncodeAppend(reason, "ACK");
    var bs := NackMsg(reason) + ACK;
    assert bs == Encode("NACK:") + Encode(reason + "ACK");
    assert bs != ACK;
    assert bs[..5] == Encode("NACK:");
    assert bs[5..] == Encode(reason + "ACK");
    DecodeEncode(reason + "ACK");
  }
}
