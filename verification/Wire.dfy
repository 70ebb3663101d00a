/** How large an application payload may be: the three size checks between a caller and the wire. */
module Wire {
  import Postcard

  const MAX_MESSAGE_SIZE: nat := 1024 * 1024

  /** The largest payload that reaches the other end. */
  const MAX_DELIVERED: nat := MAX_MESSAGE_SIZE - 84

  /** Size of a serialized message: a 16-byte id, two 32-byte keys, and the length-prefixed payload. */
  function MessageSize(payload: nat): (n: nat)
    ensures n > 80 + payload
  {
    80 + |Postcard.Varint(payload)| + payload
  }

  /** The frame a link's writer puts on the wire adds one tag byte. */
  function FrameSize(payload: nat): nat {
    MessageSize(payload) + 1
  }

  datatype Transit = Arrives | Refused | Lost

  /** A sender is told of a payload or message over the limit. A link's writer drops an oversized frame without
      telling anyone. */
  function SendOver(payload: nat): Transit {
    if payload > MAX_MESSAGE_SIZE || MessageSize(payload) > MAX_MESSAGE_SIZE then Refused
    else if FrameSize(payload) > MAX_MESSAGE_SIZE then Lost
    else Arrives
  }

  lemma {:induction false} VarintOfThree(n: nat)
    requires 0x4000 <= n < 0x20_0000
    ensures |Postcard.Varint(n)| == 3
  {
    var m := n / 0x80;
    assert 0x80 <= m < 0x4000;
    assert 1 <= m / 0x80 < 0x80;
    assert |Postcard.Varint(m)| == 1 + |Postcard.Varint(m / 0x80)|;
  }

  lemma {:induction false} ShortVarint(n: nat)
    requires n < 0x20_0000
    ensures |Postcard.Varint(n)| <= 3
  {
    if n >= 0x4000 {
      VarintOfThree(n);
    } else if n >= 0x80 {
      assert |Postcard.Varint(n)| == 1 + |Postcard.Varint(n / 0x80)|;
    }
  }

  /** The boundary, to the byte: one payload length is accepted by every check a sender sees and still never
      arrives. */
  lemma {:induction false} TransitBounds(payload: nat)
    ensures SendOver(payload) == Arrives <==> payload <= MAX_DELIVERED
    ensures SendOver(payload) == Lost <==> payload == MAX_DELIVERED + 1
    ensures SendOver(payload) == Refused <==> payload > MAX_DELIVERED + 1
  {
    if payload < 0x20_0000 {
      ShortVarint(payload);
      if payload >= 0x4000 { VarintOfThree(payload); }
    }
  }
}
