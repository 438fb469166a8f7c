/** Where everything stands in the bytes hashed for a message payload (internal/model/message_metadata.go). */
module PayloadLayout {
  import opened Wrappers
  import opened PayloadEncoding

  /** A number in eight bytes, the most significant first. */
  predicate EightBytes(b: seq<Byte>, n: nat) {
    && |b| == 8
    && n == 0x100_0000_0000_0000 * (b[0] as int) + 0x1_0000_0000_0000 * (b[1] as int) + 0x100_0000_0000 * (b[2] as int)
            + 0x1_0000_0000 * (b[3] as int) + 0x100_0000 * (b[4] as int) + 0x1_0000 * (b[5] as int)
            + 0x100 * (b[6] as int) + (b[7] as int)
  }

  lemma OneMoreByte(b: seq<Byte>, k: nat)
    requires k < |b|
    ensures FromBigEndian(b[..k + 1]) == 256 * FromBigEndian(b[..k]) + b[k]
  {
    assert b[..k + 1][..k] == b[..k];
  }

  lemma EightBytesExactly(b: seq<Byte>, n: nat)
    requires |b| == 8
    ensures EightBytes(b, n) <==> FromBigEndian(b) == n
  {
    OneMoreByte(b, 0);
    OneMoreByte(b, 1);
    OneMoreByte(b, 2);
    OneMoreByte(b, 3);
    OneMoreByte(b, 4);
    OneMoreByte(b, 5);
    OneMoreByte(b, 6);
    OneMoreByte(b, 7);
    assert b[..0] == [] && b[..8] == b;
  }

  lemma Pow256Of8()
    ensures Pow256(8) == 0x1_0000_0000_0000_0000
  {
    assert Pow256(4) == 0x1_0000_0000 by { assert Pow256(2) == 0x1_0000; }
    assert Pow256(8) == 256 * (256 * (256 * (256 * Pow256(4))));
  }

  /** The bytes of a message are "v1", its type in two's complement, and each string behind its length. */
  ghost predicate LaidOut(m: Message, p: seq<Byte>) {
    var n, k := |m.content|, |m.fileId|;
    && |p| == 19 + n + k
    && p[0] == 0x76 && p[1] == 0x31 && (p[2] - m.messageType) % 256 == 0
    && EightBytes(p[3..11], n) && p[11..11 + n] == m.content
    && EightBytes(p[11 + n..19 + n], k) && p[19 + n..] == m.fileId
  }

  lemma FrameIs(value: seq<Byte>)
    requires |value| < 0x1_0000_0000_0000_0000
    ensures var f := Framed(value, LENGTH_BYTES);
      |f| == 8 + |value| && EightBytes(f[..8], |value|) && f[8..] == value
  {
    Pow256Of8();
    BigEndianRoundTrip(|value|, LENGTH_BYTES);
    EightBytesExactly(BigEndian(|value|, LENGTH_BYTES), |value|);
    assert Framed(value, LENGTH_BYTES)[..8] == BigEndian(|value|, LENGTH_BYTES);
  }

  lemma Positions(head: seq<Byte>, a: seq<Byte>, b: seq<Byte>)
    requires |head| == 3 && |a| >= 8 && |b| >= 8
    ensures var p := head + a + b;
      && |p| == 3 + |a| + |b| && p[..3] == head
      && p[3..11] == a[..8] && p[11..3 + |a|] == a[8..]
      && p[3 + |a|..11 + |a|] == b[..8] && p[11 + |a|..] == b[8..]
  {}

  /** The payload of every message is laid out so, and no other bytes are. */
  lemma PayloadIsLaidOut(m: Message, p: seq<Byte>)
    requires |m.content| < 0x1_0000_0000_0000_0000 && |m.fileId| < 0x1_0000_0000_0000_0000
    ensures p == Preimage(m) <==> LaidOut(m, p)
  {
    var q := Preimage(m);
    var head := VERSION + [TypeByte(m.messageType)];
    FrameIs(m.content);
    FrameIs(m.fileId);
    Positions(head, Framed(m.content, LENGTH_BYTES), Framed(m.fileId, LENGTH_BYTES));
    assert q[0] == q[..3][0] && q[1] == q[..3][1] && q[2] == q[..3][2];
    assert LaidOut(m, q);
    if LaidOut(m, p) { LaidOutOnce(m, p, q); }
  }

  lemma SameEight(a: seq<Byte>, b: seq<Byte>, n: nat)
    requires EightBytes(a, n) && EightBytes(b, n)
    ensures a == b
  {
    EightBytesExactly(a, n);
    EightBytesExactly(b, n);
    BigEndianOfBytes(a);
    BigEndianOfBytes(b);
  }

  lemma FiveSlices(p: seq<Byte>, a: nat, b: nat, c: nat, d: nat)
    requires a <= b <= c <= d <= |p|
    ensures p == p[..a] + p[a..b] + p[b..c] + p[c..d] + p[d..]
  {}

  lemma LaidOutOnce(m: Message, p: seq<Byte>, q: seq<Byte>)
    requires LaidOut(m, p) && LaidOut(m, q)
    ensures p == q
  {
    var n := |m.content|;
    SameEight(p[3..11], q[3..11], n);
    SameEight(p[11 + n..19 + n], q[11 + n..19 + n], |m.fileId|);
    SameHead(p, q, m.messageType);
    FiveSlices(p, 3, 11, 11 + n, 19 + n);
    FiveSlices(q, 3, 11, 11 + n, 19 + n);
  }

  lemma SameHead(p: seq<Byte>, q: seq<Byte>, t: Int8)
    requires |p| >= 3 && |q| >= 3 && p[0] == q[0] && p[1] == q[1]
    requires (p[2] - t) % 256 == 0 && (q[2] - t) % 256 == 0
    ensures p[..3] == q[..3]
  {
    assert p[2] == q[2];
  }
}
