/**
 * Wire framing of the receiver.
 *
 * A chunk datagram is a 4-byte big-endian unsigned sequence number followed
 * by the payload; an acknowledgment is the 4-byte big-endian encoding of the
 * acknowledged number. Datagrams too short to carry a header are noise.
 */
module Wire {
  import opened Wrappers

  type uint8 = x: int | 0 <= x < 0x100
  type uint32 = x: int | 0 <= x < 0x1_0000_0000

  /** Length of the sequence-number header. */
  const HeaderLength: nat := 4

  /** The reserved sequence number that marks the end of a file. */
  const EofSentinel: uint32 := 0xFFFF_FFFF

  /** A decoded chunk: its sequence number and the bytes after the header. */
  datatype Chunk = Chunk(number: uint32, payload: seq<uint8>)

  /** The unsigned value of four bytes read most significant first. */
  function BigEndian32(b: seq<uint8>): (n: uint32)
    requires |b| == HeaderLength
  {
    var b0: int, b1: int, b2: int, b3: int := b[0], b[1], b[2], b[3];
    ((b0 * 0x100 + b1) * 0x100 + b2) * 0x100 + b3
  }

  /** The 4-byte big-endian encoding of `n`, as sent in an acknowledgment. */
  function EncodeAck(n: uint32): (r: seq<uint8>)
    ensures |r| == HeaderLength
    ensures BigEndian32(r) == n
  {
    var b3 := n % 0x100;
    var m1 := n / 0x100;
    var b2 := m1 % 0x100;
    var m2 := m1 / 0x100;
    var b1 := m2 % 0x100;
    var b0 := m2 / 0x100;
    [b0, b1, b2, b3]
  }

  /** Splits a datagram into header and payload; `None` for noise. */
  function Decode(d: seq<uint8>): (r: Option<Chunk>)
    ensures r.None? <==> |d| < HeaderLength
    ensures r.Some? ==> EncodeAck(r.value.number) + r.value.payload == d
  {
    if |d| < HeaderLength then None
    else
      var header := d[..HeaderLength];
      HeaderRoundTrip(header);
      assert header + d[HeaderLength..] == d;
      Some(Chunk(BigEndian32(header), d[HeaderLength..]))
  }

  /** Re-encoding a decoded header gives back the same four bytes. */
  lemma HeaderRoundTrip(b: seq<uint8>)
    requires |b| == HeaderLength
    ensures EncodeAck(BigEndian32(b)) == b
  {
    var n := BigEndian32(b);
    var b0: int, b1: int, b2: int, b3: int := b[0], b[1], b[2], b[3];
    var mid := b0 * 0x100 + b1;
    var hi := mid * 0x100 + b2;
    assert n == hi * 0x100 + b3;
    assert n % 0x100 == b3 && n / 0x100 == hi;
    assert hi % 0x100 == b2 && hi / 0x100 == mid;
    assert mid % 0x100 == b1 && mid / 0x100 == b0;
  }

  /** Decoding an encoded header followed by a payload gives back both. */
  lemma DecodeEncode(n: uint32, p: seq<uint8>)
    ensures Decode(EncodeAck(n) + p) == Some(Chunk(n, p))
  {
  }

  /** Distinct sequence numbers are acknowledged with distinct datagrams. */
  lemma EncodeAckInjective(m: uint32, n: uint32)
    ensures EncodeAck(m) == EncodeAck(n) <==> m == n
  {
  }
}
