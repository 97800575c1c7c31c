// The 64-byte frames client and server exchange (parse_cmd.h), and their little-endian 32-bit fields.
module Packets {
  import opened Words

  const PACKET_SIZE: nat := 64
  const FRAME_LEN_POS := 0
  const FRAME_REQ_NUMBER_POS := 1
  const FRAME_CMD_POS := 5
  const FRAME_PARSE_TYPE_POS := 6
  const FRAME_VALUE_TYPE_POS := 7
  const FRAME_VALUE_POS := 8

  const CMD_REQUEST: uint8 := 0x11
  const CMD_ANSWER: uint8 := 0x22
  const CMD_DATA: uint8 := 0x33

  const POSITIVE_RESP: uint8 := 0xFF
  const NEGATIVE_RESP: uint8 := 0xFE

  const PC_KEEP_ALIVE: uint8 := 0
  const PC_SET_UINT32: uint8 := 1
  const PC_GET_UINT32: uint8 := 2
  const PC_SET_STRING: uint8 := 3
  const PC_GET_STRING: uint8 := 4

  // The bytes memcpy takes from a uint32_t on the little-endian target, and back.
  function Le32(v: uint32): (b: seq<uint8>)
    ensures |b| == 4
  {
    var w := v / 256;
    var x := w / 256;
    [v % 256, w % 256, x % 256, x / 256]
  }

  function FromLe32(b: seq<uint8>): uint32
    requires |b| >= 4
  {
    var x: int := b[2] + 256 * (b[3] as int);
    var w: int := b[1] + 256 * x;
    b[0] + 256 * w
  }

  lemma Le32RoundTrip(v: uint32)
    ensures FromLe32(Le32(v)) == v
  {
  }

  function Zeros(n: nat): (z: seq<uint8>)
    ensures |z| == n && forall i | 0 <= i < n :: z[i] == 0
  {
    seq(n, _ => 0)
  }

  // A frame: length byte, request number, command, parse type, value type, and the value field
  // padded with zeros.
  function Frame(number: uint32, cmd: uint8, ptype: uint8, val: uint8, value: seq<uint8>): (p: seq<uint8>)
    requires |value| <= PACKET_SIZE - FRAME_VALUE_POS
    ensures |p| == PACKET_SIZE
  {
    [PACKET_SIZE] + Le32(number) + [cmd, ptype, val] + value + Zeros(PACKET_SIZE - FRAME_VALUE_POS - |value|)
  }

  type Packet = p: seq<uint8> | |p| == PACKET_SIZE witness Zeros(PACKET_SIZE)

  function Number(p: seq<uint8>): uint32
    requires |p| >= FRAME_VALUE_POS
  {
    FromLe32(p[FRAME_REQ_NUMBER_POS..FRAME_REQ_NUMBER_POS + 4])
  }

  function Value32(p: seq<uint8>): uint32
    requires |p| >= FRAME_VALUE_POS + 4
  {
    FromLe32(p[FRAME_VALUE_POS..FRAME_VALUE_POS + 4])
  }

  // Reading a frame gives back what it was built from.
  lemma FrameFields(number: uint32, cmd: uint8, ptype: uint8, val: uint8, value: seq<uint8>)
    requires |value| <= PACKET_SIZE - FRAME_VALUE_POS
    ensures var p := Frame(number, cmd, ptype, val, value);
      p[FRAME_LEN_POS] == PACKET_SIZE && Number(p) == number && p[FRAME_CMD_POS] == cmd
      && p[FRAME_PARSE_TYPE_POS] == ptype && p[FRAME_VALUE_TYPE_POS] == val
      && p[FRAME_VALUE_POS..FRAME_VALUE_POS + |value|] == value
  {
    var p := Frame(number, cmd, ptype, val, value);
    assert p[FRAME_REQ_NUMBER_POS..FRAME_REQ_NUMBER_POS + 4] == Le32(number);
    Le32RoundTrip(number);
  }

  lemma FrameValue32(number: uint32, cmd: uint8, ptype: uint8, val: uint8, v: uint32)
    ensures Value32(Frame(number, cmd, ptype, val, Le32(v))) == v
  {
    FrameFields(number, cmd, ptype, val, Le32(v));
    Le32RoundTrip(v);
  }

  // A frame without a value, byte by byte.
  lemma HeaderIsFrame(p: seq<uint8>, number: uint32, cmd: uint8, ptype: uint8, val: uint8)
    requires |p| == PACKET_SIZE && p[0] == PACKET_SIZE
    requires var b := Le32(number); p[1] == b[0] && p[2] == b[1] && p[3] == b[2] && p[4] == b[3]
    requires p[5] == cmd && p[6] == ptype && p[7] == val && forall i | 8 <= i < PACKET_SIZE :: p[i] == 0
    ensures p == Frame(number, cmd, ptype, val, [])
  {
    assert p[..8] == [PACKET_SIZE] + Le32(number) + [cmd, ptype, val];
    assert p[8..] == [] + Zeros(PACKET_SIZE - FRAME_VALUE_POS);
    assert p == p[..8] + p[8..];
  }

  // Four bytes are the number they are written for, lowest byte first.
  lemma LittleEndian(b: seq<uint8>)
    requires |b| == 4
    ensures FromLe32(b) == b[0] + 256 * (b[1] as int) + 65536 * (b[2] as int) + 16777216 * (b[3] as int)
    ensures Le32(FromLe32(b)) == b
  {
    var x: int := b[2] + 256 * (b[3] as int);
    var w: int := b[1] + 256 * x;
    LowByte(b[2], b[3]);
    LowByte(b[1], x);
    LowByte(b[0], w);
  }

  lemma LowByte(low: uint8, high: nat)
    ensures (low + 256 * high) % 256 == low && (low + 256 * high) / 256 == high
  {
  }

  lemma Le32Bytes(v: uint32)
    ensures Le32(v) == [v % 256, v / 256 % 256, v / 65536 % 256, v / 16777216]
  {
  }

  // A frame's bytes.
  lemma FrameBytes(n: uint32, cmd: uint8, ptype: uint8, val: uint8, value: seq<uint8>)
    requires |value| <= 56
    ensures Frame(n, cmd, ptype, val, value)
         == [64, n % 256, n / 256 % 256, n / 65536 % 256, n / 16777216, cmd, ptype, val] + value + Zeros(56 - |value|)
  {
    Le32Bytes(n);
    assert [64] + Le32(n) + [cmd, ptype, val] == [64, n % 256, n / 256 % 256, n / 65536 % 256, n / 16777216, cmd, ptype, val];
  }

  // Packets one after the other, as a stream carries them.
  function Joined(ps: seq<Packet>): seq<uint8> {
    if ps == [] then [] else ps[0] + Joined(ps[1..])
  }

  lemma {:induction false} JoinedLength(ps: seq<Packet>)
    ensures |Joined(ps)| == |ps| * PACKET_SIZE
  {
    if ps != [] { JoinedLength(ps[1..]); }
  }

  // The stream from a packet boundary on is the remaining packets.
  lemma {:induction false} JoinedFrom(ps: seq<Packet>, k: nat)
    requires k <= |ps|
    ensures |Joined(ps)| == |ps| * PACKET_SIZE && Joined(ps)[k * PACKET_SIZE..] == Joined(ps[k..])
  {
    JoinedLength(ps);
    if k > 0 {
      JoinedFrom(ps[1..], k - 1);
      assert ps[1..][k - 1..] == ps[k..];
      assert Joined(ps)[k * PACKET_SIZE..] == Joined(ps[1..])[(k - 1) * PACKET_SIZE..];
    }
  }

  lemma JoinedAt(ps: seq<Packet>, k: nat)
    requires k < |ps|
    ensures |Joined(ps)| == |ps| * PACKET_SIZE && Joined(ps)[k * PACKET_SIZE..(k + 1) * PACKET_SIZE] == ps[k]
  {
    JoinedFrom(ps, k);
    assert Joined(ps[k..]) == ps[k] + Joined(ps[k + 1..]);
    assert Joined(ps)[k * PACKET_SIZE..(k + 1) * PACKET_SIZE] == Joined(ps)[k * PACKET_SIZE..][..PACKET_SIZE];
  }
}
