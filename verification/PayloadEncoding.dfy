/** The bytes hashed for a message payload (internal/model/message_metadata.go): a version tag, the message
    type, and two strings, each behind its length as eight big-endian bytes. */
module PayloadEncoding {
  import opened Wrappers

  type Byte = b: int | 0 <= b < 256

  /** Go's int8. */
  type Int8 = t: int | -128 <= t < 128

  /** The fields of a message that are hashed. Strings are their UTF-8 bytes. */
  datatype Message = Message(messageType: Int8, content: seq<Byte>, fileId: seq<Byte>)

  const VERSION: seq<Byte> := ['v' as int, '1' as int]
  const LENGTH_BYTES := 8

  function Pow256(k: nat): nat { if k == 0 then 1 else 256 * Pow256(k - 1) }

  /** The low width bytes of n, which for eight of them is the uint64 that n converts to. */
  function BigEndian(n: nat, width: nat): (bytes: seq<Byte>)
    ensures |bytes| == width
  {
    if width == 0 then [] else BigEndian(n / 256, width - 1) + [n % 256]
  }

  function FromBigEndian(bytes: seq<Byte>): nat {
    if bytes == [] then 0 else 256 * FromBigEndian(bytes[..|bytes| - 1]) + bytes[|bytes| - 1]
  }

  /** Go's byte conversion of an int8: two's complement. */
  function TypeByte(t: Int8): Byte { if t < 0 then t + 256 else t }

  function TypeOf(b: Byte): Int8 { if b >= 128 then b - 256 else b }

  function Framed(value: seq<Byte>, width: nat): seq<Byte> {
    BigEndian(|value|, width) + value
  }

  function Preimage(m: Message): seq<Byte> {
    VERSION + [TypeByte(m.messageType)] + Framed(m.content, LENGTH_BYTES) + Framed(m.fileId, LENGTH_BYTES)
  }

  // ---- the writer ------------------------------------------------------------------------

  class Buffer {
    var data: seq<Byte>

    constructor ()
      ensures data == []
    {
      data := [];
    }

    method Write(bytes: seq<Byte>)
      modifies this
      ensures data == old(data) + bytes
    {
      data := data + bytes;
    }
  }

  method WriteMetadataHashString(payload: Buffer, value: seq<Byte>)
    modifies payload
    ensures payload.data == old(payload.data) + Framed(value, LENGTH_BYTES)
  {
    payload.Write(BigEndian(|value|, LENGTH_BYTES));
    payload.Write(value);
  }

  /** The payload handed to SHA-256; a missing message has none. */
  method MessagePayload(message: Option<Message>) returns (payload: Option<seq<Byte>>)
    ensures payload == if message.None? then None else Some(Preimage(message.value))
  {
    if message.None? {
      return None;
    }
    var buffer := new Buffer();
    buffer.Write(VERSION);
    buffer.Write([TypeByte(message.value.messageType)]);
    WriteMetadataHashString(buffer, message.value.content);
    WriteMetadataHashString(buffer, message.value.fileId);
    assert [] + VERSION == VERSION;
    return Some(buffer.data);
  }

  // ---- the decoder -----------------------------------------------------------------------

  /** Reads one framed string off the front. */
  function Unframe(bytes: seq<Byte>, width: nat): Option<(seq<Byte>, seq<Byte>)> {
    if |bytes| < width then None
    else
      var n := FromBigEndian(bytes[..width]);
      var rest := bytes[width..];
      if |rest| < n then None else Some((rest[..n], rest[n..]))
  }

  /** Reads one message off the front, and says what is left. */
  function Decode(bytes: seq<Byte>): Option<(Message, seq<Byte>)> {
    if |bytes| < 3 || bytes[..2] != VERSION then None
    else
      match Unframe(bytes[3..], LENGTH_BYTES)
      case None => None
      case Some((content, more)) =>
        match Unframe(more, LENGTH_BYTES)
        case None => None
        case Some((fileId, rest)) => Some((Message(TypeOf(bytes[2]), content, fileId), rest))
  }

  // ---- round trips -----------------------------------------------------------------------

  lemma {:induction false} BigEndianRoundTrip(n: nat, width: nat)
    requires n < Pow256(width)
    ensures FromBigEndian(BigEndian(n, width)) == n
  {
    if width > 0 {
      assert n / 256 < Pow256(width - 1);
      BigEndianRoundTrip(n / 256, width - 1);
      assert BigEndian(n, width)[..width - 1] == BigEndian(n / 256, width - 1);
    }
  }

  lemma {:induction false} BigEndianOfBytes(bytes: seq<Byte>)
    ensures FromBigEndian(bytes) < Pow256(|bytes|)
    ensures BigEndian(FromBigEndian(bytes), |bytes|) == bytes
  {
    if bytes != [] {
      var last := |bytes| - 1;
      BigEndianOfBytes(bytes[..last]);
      assert bytes == bytes[..last] + [bytes[last]];
    }
  }

  /** Every length a Go string can have is below 2^63. */
  predicate Representable(value: seq<Byte>, width: nat) { |value| < Pow256(width) }

  lemma UnframeFramed(value: seq<Byte>, rest: seq<Byte>, width: nat)
    requires Representable(value, width)
    ensures Unframe(Framed(value, width) + rest, width) == Some((value, rest))
  {
    var bytes := Framed(value, width) + rest;
    BigEndianRoundTrip(|value|, width);
    assert bytes[..width] == BigEndian(|value|, width);
    assert bytes[width..] == value + rest;
  }

  lemma Regroup(head: seq<Byte>, a: seq<Byte>, b: seq<Byte>, rest: seq<Byte>)
    requires |head| == 3
    ensures (head + a + b + rest)[3..] == a + (b + rest)
    ensures (head + a + b + rest)[..3] == head
  {}

  lemma SplitAt(bytes: seq<Byte>, i: nat)
    requires i <= |bytes|
    ensures bytes == bytes[..i] + bytes[i..]
  {}

  /** Decoding recovers the message whatever follows it, with no restriction on its content. */
  lemma DecodePreimage(m: Message, rest: seq<Byte>)
    requires Representable(m.content, LENGTH_BYTES) && Representable(m.fileId, LENGTH_BYTES)
    ensures Decode(Preimage(m) + rest) == Some((m, rest))
  {
    var bytes := Preimage(m) + rest;
    var content, fileId := Framed(m.content, LENGTH_BYTES), Framed(m.fileId, LENGTH_BYTES);
    var head := VERSION + [TypeByte(m.messageType)];
    UnframeFramed(m.content, fileId + rest, LENGTH_BYTES);
    UnframeFramed(m.fileId, rest, LENGTH_BYTES);
    Regroup(head, content, fileId, rest);
    assert bytes[..2] == bytes[..3][..2] == VERSION && bytes[2] == bytes[..3][2];
    assert TypeOf(bytes[2]) == m.messageType;
  }

  lemma FramedUnframe(bytes: seq<Byte>, width: nat)
    requires Unframe(bytes, width).Some?
    ensures var (value, rest) := Unframe(bytes, width).value;
      Representable(value, width) && Framed(value, width) + rest == bytes
  {
    var (value, rest) := Unframe(bytes, width).value;
    BigEndianOfBytes(bytes[..width]);
    assert Framed(value, width) == bytes[..width] + value;
    assert bytes == bytes[..width] + (value + rest);
  }

  /** The decoder accepts nothing but preimages: what it reads prints back as the bytes it read. */
  lemma PreimageDecode(bytes: seq<Byte>)
    requires Decode(bytes).Some?
    ensures var (m, rest) := Decode(bytes).value;
      Representable(m.content, LENGTH_BYTES) && Representable(m.fileId, LENGTH_BYTES) && Preimage(m) + rest == bytes
  {
    var (content, more) := Unframe(bytes[3..], LENGTH_BYTES).value;
    var (fileId, rest) := Unframe(more, LENGTH_BYTES).value;
    FramedUnframe(bytes[3..], LENGTH_BYTES);
    FramedUnframe(more, LENGTH_BYTES);
    assert TypeByte(TypeOf(bytes[2])) == bytes[2];
    var head := bytes[..2] + [bytes[2]];
    assert bytes[..3] == head;
    Regroup(head, Framed(content, LENGTH_BYTES), Framed(fileId, LENGTH_BYTES), rest);
    SplitAt(bytes, 3);
    SplitAt(head + Framed(content, LENGTH_BYTES) + Framed(fileId, LENGTH_BYTES) + rest, 3);
  }

  /** Equal bytes mean equal messages, and no preimage is the beginning of another. */
  lemma PreimagesArePrefixFree(a: Message, b: Message)
    requires Representable(a.content, LENGTH_BYTES) && Representable(a.fileId, LENGTH_BYTES)
    requires Representable(b.content, LENGTH_BYTES) && Representable(b.fileId, LENGTH_BYTES)
    ensures Preimage(a) <= Preimage(b) <==> a == b
  {
    if Preimage(a) <= Preimage(b) {
      var tail := Preimage(b)[|Preimage(a)|..];
      assert Preimage(b) == Preimage(a) + tail == Preimage(b) + [];
      DecodePreimage(a, tail);
      DecodePreimage(b, []);
    }
  }
}
