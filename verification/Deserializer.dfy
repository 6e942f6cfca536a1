/** Argument deserialization in place, over a cursor into the packet, and the packet handlers using it. */
module Deserializer {
  import opened Common
  import opened ArgumentCodec

  class Cursor {
    const buffer: seq<Byte>
    var data: nat
    var remaining: nat

    ghost predicate Valid()
      reads this
    {
      data + remaining <= |buffer|
    }

    /** The bytes still to be read. */
    ghost function Left(): seq<Byte>
      requires Valid()
      reads this
    {
      buffer[data..data + remaining]
    }

    constructor (buffer: seq<Byte>)
      ensures Valid() && Left() == buffer && this.buffer == buffer && data == 0
    {
      this.buffer, data, remaining := buffer, 0, |buffer|;
    }

    method ReadPrimitive(size: nat) returns (value: Option<seq<Byte>>)
      requires Valid()
      modifies this`data, this`remaining
      ensures Valid() && data + remaining == old(data + remaining)
      ensures Parsed(value, Left()) == ParsePrimitive(size, old(Left()))
    {
      if remaining < size {
        return None;
      }
      SplitSlice(buffer, data, size, remaining);
      value := Some(buffer[data..data + size]);
      data, remaining := data + size, remaining - size;
    }

    method ReadString() returns (value: Option<seq<Byte>>)
      requires Valid()
      modifies this`data, this`remaining
      ensures Valid() && data + remaining == old(data + remaining)
      ensures Parsed(if value.Some? then Some(String(value.value)) else None, Left()) == ParseOne(Text, old(Left()))
    {
      var lengthOpt := ReadPrimitive(LENGTH_SIZE);
      if lengthOpt.None? {
        return None;
      }
      var length := DecodeLength(lengthOpt.value);
      if remaining < length {
        return None;
      }
      SplitSlice(buffer, data, length, remaining);
      value := Some(buffer[data..data + length]);
      data, remaining := data + length, remaining - length;
    }

    method DeserializeOne(t: ArgType) returns (value: Option<Value>)
      requires Valid()
      modifies this`data, this`remaining
      ensures Valid() && data + remaining == old(data + remaining)
      ensures Parsed(value, Left()) == ParseOne(t, old(Left()))
    {
      if t.Text? {
        var s := ReadString();
        value := if s.Some? then Some(String(s.value)) else None;
      } else {
        var p := ReadPrimitive(t.size);
        value := if p.Some? then Some(Bytes(p.value)) else None;
      }
    }

    /** Reads a whole parameter list. The cursor never leaves the buffer and what it passes over plus
        what remains is constant, also when a read fails. */
    method DeserializeImpl(ts: seq<ArgType>) returns (values: Option<seq<Value>>)
      requires Valid()
      modifies this`data, this`remaining
      ensures Valid() && data + remaining == old(data + remaining)
      ensures Parsed(values, Left()) == Parse(ts, old(Left()))
      decreases |ts|
    {
      if |ts| == 0 {
        return Some([]);
      }
      var firstOpt := DeserializeOne(ts[0]);
      if firstOpt.None? {
        return None;
      }
      if |ts| == 1 {
        OnlyOne(ts, old(Left()));
        return Some([firstOpt.value]);
      }
      var restOpt := DeserializeImpl(ts[1..]);
      if restOpt.None? {
        return None;
      }
      values := Some([firstOpt.value] + restOpt.value);
    }
  }

  lemma OnlyOne(ts: seq<ArgType>, input: seq<Byte>)
    requires |ts| == 1 && ParseOne(ts[0], input).result.Some?
    ensures var p := ParseOne(ts[0], input); Parse(ts, input) == Parsed(Some([p.result.value]), p.left)
  {
    var p := ParseOne(ts[0], input);
    assert Parse(ts[1..], p.left) == Parsed(Some([]), p.left);
    assert [p.result.value] + [] == [p.result.value];
  }

  lemma SplitSlice(b: seq<Byte>, from: nat, n: nat, size: nat)
    requires n <= size && from + size <= |b|
    ensures b[from..from + size][..n] == b[from..from + n]
    ensures b[from..from + size][n..] == b[from + n..from + size]
  {
  }

  type PacketId = nat

  const PACKET_ID_SIZE := 4

  /** What a packet makes its actor do: call the handler of an id, or nothing when its arguments do not decode. */
  datatype Message = Call(id: PacketId, args: seq<Value>) | Nothing

  function DecodeId(b: seq<Byte>): PacketId
    requires |b| == PACKET_ID_SIZE
  {
    DecodeLength(b[..2]) + MAX_TEXT * DecodeLength(b[2..])
  }

  /** A packet id as a sender writes it: four bytes, the low one first. */
  function IdBytes(id: PacketId): seq<Byte>
    requires id < 0x1_0000_0000
  {
    [(id % 256) as Byte, (id / 256 % 256) as Byte, (id / 0x1_0000 % 256) as Byte, (id / 0x100_0000) as Byte]
  }

  /** It is read back, and is the number those bytes make with the low one first. */
  lemma IdBack(id: PacketId)
    requires id < 0x1_0000_0000
    ensures DecodeId(IdBytes(id)) == id
    ensures var b := IdBytes(id);
      |b| == 4 && id == b[0] as int + 256 * b[1] as int + 0x1_0000 * b[2] as int + 0x100_0000 * b[3] as int
  {
    var b := IdBytes(id);
    assert b[..2] == [b[0], b[1]] && b[2..] == [b[2], b[3]];
    assert b[0] as int + 256 * b[1] as int == id % 0x1_0000;
    assert b[2] as int + 256 * b[3] as int == id / 0x1_0000;
  }

  /** A packet that a sender begins with an id is one of that id. */
  lemma SentId(packet: seq<Byte>)
    ensures forall id: PacketId :: id < 0x1_0000_0000 && IdBytes(id) <= packet ==>
      |packet| >= PACKET_ID_SIZE && DecodeId(packet[..PACKET_ID_SIZE]) == id
  {
    forall id: PacketId | id < 0x1_0000_0000 && IdBytes(id) <= packet
      ensures |packet| >= PACKET_ID_SIZE && DecodeId(packet[..PACKET_ID_SIZE]) == id
    {
      IdBack(id);
      assert packet[..PACKET_ID_SIZE] == IdBytes(id);
    }
  }

  /** An actor's packet handlers, each with the types of its parameters. */
  class PacketHandlers {
    var messageFactories: map<PacketId, seq<ArgType>>

    constructor ()
      ensures messageFactories == map[]
    {
      messageFactories := map[];
    }

    /** Registers a handler once; a second handler for the same id is refused, which the source does by throwing. */
    method RegisterPacketHandler(id: PacketId, ts: seq<ArgType>) returns (registered: bool)
      modifies this
      ensures registered == (id !in old(messageFactories))
      ensures messageFactories == if registered then old(messageFactories)[id := ts] else old(messageFactories)
    {
      if id in messageFactories {
        return false;
      }
      messageFactories := messageFactories[id := ts];
      return true;
    }

    /** A packet becomes a message exactly when it holds the id of a registered handler, and that
        message is a call with some arguments exactly when their encoding is what comes after the id. */
    method CreateMessageFromPacket(packet: seq<Byte>) returns (message: Option<Message>)
      ensures |packet| < 4 ==> message.None?
      ensures forall id: PacketId :: id < 0x1_0000_0000 && IdBytes(id) <= packet ==>
        (message.Some? <==> id in messageFactories)
      ensures forall id: PacketId, args, left ::
        (id < 0x1_0000_0000 && IdBytes(id) <= packet && id in messageFactories
         && Begins(messageFactories[id], args, left, packet[4..])) ==> message == Some(Call(id, args))
      ensures message.Some? <==> |packet| >= PACKET_ID_SIZE && DecodeId(packet[..PACKET_ID_SIZE]) in messageFactories
      ensures message.Some? ==>
        var id, rest := DecodeId(packet[..PACKET_ID_SIZE]), packet[PACKET_ID_SIZE..];
        && (forall args, left :: Begins(messageFactories[id], args, left, rest) ==> message == Some(Call(id, args)))
        && (message.value.Nothing? ==> forall args, left :: !Begins(messageFactories[id], args, left, rest))
        && (message.value.Call? ==>
              message.value.id == id && exists left :: Begins(messageFactories[id], message.value.args, left, rest))
    {
      SentId(packet);
      if |packet| < PACKET_ID_SIZE {
        return None;
      }
      var id, rest := DecodeId(packet[..PACKET_ID_SIZE]), packet[PACKET_ID_SIZE..];
      if id !in messageFactories {
        return None;
      }
      var ts := messageFactories[id];
      var cursor := new Cursor(rest);
      var args := cursor.DeserializeImpl(ts);
      message := Some(if args.Some? then Call(id, args.value) else Nothing);
      BeginsExactly(ts, rest);
    }
  }
}
