/** Wire protocol v2 frames and their translation to v1 messages (src/wire_v2.c, src/common.c). */
module WireV2 {
  import opened Bytes

  const FRAME_SERVER_HELLO := 2
  const FRAME_MESSAGE := 16
  const MAX_PAYLOAD := 64 * 1024

  // ---- Frames ----

  function EncodeFrame(ftype: nat, payload: Bytes): Bytes {
    U16(ftype) + [0, 0] + U32(|payload|) + payload
  }

  datatype Parse = Incomplete | Invalid | Frame(ftype: nat, payload: Bytes, consumed: nat)

  function ParseFrame(buf: Bytes): (p: Parse)
    ensures p.Frame? ==> 8 <= p.consumed <= |buf| && p.consumed == 8 + |p.payload|
  {
    if |buf| < 8 then Incomplete
    else if Get16(buf[2..4]) != 0 then Invalid
    else
      var l := Get32(buf[4..8]);
      if l > MAX_PAYLOAD then Invalid
      else if |buf| < 8 + l then Incomplete
      else Frame(Get16(buf[..2]), buf[8..8 + l], 8 + l)
  }

  lemma FrameFields(ftype: nat, payload: Bytes, rest: Bytes)
    requires ftype < 0x1_0000 && |payload| < 0x1_0000_0000
    ensures var b := EncodeFrame(ftype, payload) + rest;
            && b[..2] == U16(ftype) && b[2..4] == [0, 0] && b[4..8] == U32(|payload|)
            && b[8..8 + |payload|] == payload && b[8 + |payload|..] == rest
            && Get16(b[..2]) == ftype && Get16(b[2..4]) == 0 && Get32(b[4..8]) == |payload|
  {
    U16RoundTrip(ftype);
    U32RoundTrip(|payload|);
  }

  /**
   Parsing an encoded frame followed by anything returns that frame and its length if and only if its
   payload is at most 64 KiB; the encoder itself has no such bound, and what it makes of a larger
   payload is rejected.
   */
  lemma ParseEncoded(ftype: nat, payload: Bytes, rest: Bytes)
    requires ftype < 0x1_0000 && |payload| < 0x1_0000_0000
    ensures ParseFrame(EncodeFrame(ftype, payload) + rest) ==
            if |payload| <= MAX_PAYLOAD then Frame(ftype, payload, |EncodeFrame(ftype, payload)|) else Invalid
  {
    FrameFields(ftype, payload, rest);
  }

  /** Every proper prefix of an acceptable frame is reported incomplete. */
  lemma PrefixIncomplete(ftype: nat, payload: Bytes, k: nat)
    requires ftype < 0x1_0000 && |payload| <= MAX_PAYLOAD && k < |EncodeFrame(ftype, payload)|
    ensures ParseFrame(EncodeFrame(ftype, payload)[..k]) == Incomplete
  {
    FrameFields(ftype, payload, []);
    var b := EncodeFrame(ftype, payload);
    assert b + [] == b;
    if k >= 8 {
      assert b[..k][2..4] == b[2..4] && b[..k][4..8] == b[4..8];
    }
  }

  /** A verdict other than "incomplete" is not changed by the bytes that follow. */
  lemma ParseThenMore(buf: Bytes, more: Bytes)
    requires !ParseFrame(buf).Incomplete?
    ensures ParseFrame(buf + more) == ParseFrame(buf)
  {
    var b := buf + more;
    assert b[..2] == buf[..2] && b[2..4] == buf[2..4] && b[4..8] == buf[4..8];
    if ParseFrame(buf).Frame? {
      var l := Get32(buf[4..8]);
      assert b[8..8 + l] == buf[8..8 + l];
    }
  }

  // ---- Message types ----

  /** The v1 type characters, in the order of their v2 ids 1 to 18. */
  const V1_TYPES := "o1p2cwrsv3h4uinm56"

  function MsgTypeToId(t: char): nat {
    match t
    case 'o' => 1
    case '1' => 2
    case 'p' => 3
    case '2' => 4
    case 'c' => 5
    case 'w' => 6
    case 'r' => 7
    case 's' => 8
    case 'v' => 9
    case '3' => 10
    case 'h' => 11
    case '4' => 12
    case 'u' => 13
    case 'i' => 14
    case 'n' => 15
    case 'm' => 16
    case '5' => 17
    case '6' => 18
    case _ => 0
  }

  /** `None` is the C value 0. */
  function IdToMsgType(id: nat): Option<char> {
    match id
    case 1 => Some('o')
    case 2 => Some('1')
    case 3 => Some('p')
    case 4 => Some('2')
    case 5 => Some('c')
    case 6 => Some('w')
    case 7 => Some('r')
    case 8 => Some('s')
    case 9 => Some('v')
    case 10 => Some('3')
    case 11 => Some('h')
    case 12 => Some('4')
    case 13 => Some('u')
    case 14 => Some('i')
    case 15 => Some('n')
    case 16 => Some('m')
    case 17 => Some('5')
    case 18 => Some('6')
    case _ => None
  }

  /** The two switches are inverse to each other and cover exactly ids 1 to 18. */
  lemma TypeMapsInverse(t: char, id: nat)
    ensures MsgTypeToId(t) != 0 ==> IdToMsgType(MsgTypeToId(t)) == Some(t)
    ensures IdToMsgType(id).Some? <==> 1 <= id <= 18
    ensures IdToMsgType(id).Some? ==> MsgTypeToId(IdToMsgType(id).value) == id
    ensures MsgTypeToId(t) != 0 ==> t == V1_TYPES[MsgTypeToId(t) - 1] && t as int < 128
  {}

  // ---- Messages ----

  function EncodeMessage(t: char, json: Bytes): Option<Bytes> {
    var id := MsgTypeToId(t);
    if id == 0 then None else Some(EncodeFrame(FRAME_MESSAGE, U16(id) + json))
  }

  /** A v1 message: type character, 64-bit big-endian length, data. */
  function V1Message(t: char, json: Bytes): Bytes {
    [t as int % 256] + ToBigEndian(|json|, 8) + json
  }

  /** The payload length is a 32-bit number. */
  function PayloadToV1(payload: Bytes): Option<Bytes>
    requires |payload| < 0x1_0000_0000
  {
    if |payload| < 2 then None
    else
      var id := Get16(payload[..2]);
      var t := IdToMsgType(id);
      if t.None? then None
      else
        Some([t.value as int % 256] + LittleEndianImage(Hton64(|payload| - 2), 8) + payload[2..])
  }

  lemma PayloadToV1Is(id: nat, t: char, json: Bytes)
    requires IdToMsgType(id) == Some(t) && |json| + 2 < 0x1_0000_0000 && id < 0x1_0000
    ensures PayloadToV1(U16(id) + json) == Some(V1Message(t, json))
  {
    var payload := U16(id) + json;
    U16RoundTrip(id);
    assert payload[..2] == U16(id) && payload[2..] == json;
    Hton64Image(|json|);
  }

  /**
   Sending a message and translating what is parsed back gives the v1 header with the big-endian length
   and the same JSON, for each mapped type and every JSON text that fits a frame; the one unmapped type
   is refused by the encoder.
   */
  lemma MessageRoundTrip(t: char, json: Bytes, rest: Bytes)
    requires 2 + |json| <= MAX_PAYLOAD
    ensures MsgTypeToId(t) == 0 <==> EncodeMessage(t, json).None?
    ensures MsgTypeToId(t) != 0 ==>
              var wire := EncodeMessage(t, json).value;
              var p := ParseFrame(wire + rest);
              p.Frame? && p.ftype == FRAME_MESSAGE && p.consumed == |wire|
              && PayloadToV1(p.payload) == Some(V1Message(t, json))
  {
    TypeMapsInverse(t, 0);
    var id := MsgTypeToId(t);
    if id != 0 {
      var payload := U16(id) + json;
      ParseEncoded(FRAME_MESSAGE, payload, rest);
      PayloadToV1Is(id, t, json);
    }
  }

  // ---- hton64 on a little-endian machine ----

  /** How an n-byte value lies in memory on the little-endian host. */
  function LittleEndianImage(v: nat, n: nat): (s: Bytes)
    ensures |s| == n
  {
    if n == 0 then [] else [v % 256] + LittleEndianImage(v / 256, n - 1)
  }

  /** `htonl` and `ntohl` on that host: read the bytes of the value in the other order. */
  function Swap32(v: nat): nat {
    BigEndian(LittleEndianImage(v, 4))
  }

  /** `hton64` and `ntoh64` are the same expression. */
  function Hton64(v: nat): nat {
    Swap32(v % 0x1_0000_0000) * 0x1_0000_0000 + Swap32(v / 0x1_0000_0000)
  }

  function Reverse(s: Bytes): Bytes {
    if s == [] then [] else Reverse(s[1..]) + [s[0]]
  }

  lemma {:induction false} ReverseLast(s: Bytes, x: Byte)
    ensures Reverse(s + [x]) == [x] + Reverse(s)
  {
    if s == [] {
    } else {
      assert (s + [x])[1..] == s[1..] + [x];
      ReverseLast(s[1..], x);
    }
  }

  lemma {:induction false} ImageReversed(v: nat, n: nat)
    ensures ToBigEndian(v, n) == Reverse(LittleEndianImage(v, n))
  {
    if n == 0 {
    } else {
      ImageReversed(v / 256, n - 1);
    }
  }

  lemma LastDigit(v: nat, x: Byte)
    ensures (v * 256 + x) % 256 == x && (v * 256 + x) / 256 == v
  {}

  lemma {:induction false} ImageOfBigEndian(s: Bytes)
    ensures LittleEndianImage(BigEndian(s), |s|) == Reverse(s)
  {
    if s == [] {
    } else {
      var n := |s| - 1;
      ImageOfBigEndian(s[..n]);
      ReverseLast(s[..n], s[n]);
      assert s == s[..n] + [s[n]];
      LastDigit(BigEndian(s[..n]), s[n]);
    }
  }

  /** Storing a swapped word puts its bytes into memory most significant first. */
  lemma Swap32Image(v: nat)
    ensures LittleEndianImage(Swap32(v), 4) == ToBigEndian(v, 4)
    ensures Swap32(v) < 0x1_0000_0000
    ensures v < 0x1_0000_0000 ==> Swap32(Swap32(v)) == v
  {
    ImageOfBigEndian(LittleEndianImage(v, 4));
    ImageReversed(v, 4);
    BigEndianBound(LittleEndianImage(v, 4));
    assert Pow256(4) == 0x1_0000_0000;
    if v < 0x1_0000_0000 {
      ToBigEndianRoundTrip(v, 4);
    }
  }

  lemma {:induction false} ImageSplit(lo: nat, hi: nat, k: nat, n: nat)
    requires lo < Pow256(k)
    ensures LittleEndianImage(hi * Pow256(k) + lo, k + n) == LittleEndianImage(lo, k) + LittleEndianImage(hi, n)
  {
    if k == 0 {
    } else {
      CarryOut(hi, lo, k);
      ImageSplit(lo / 256, hi, k - 1, n);
    }
  }

  lemma ImageOfHalves(v: nat, lo: nat, hi: nat)
    requires lo < 0x1_0000_0000 && v == hi * 0x1_0000_0000 + lo
    ensures LittleEndianImage(v, 8) == LittleEndianImage(lo, 4) + LittleEndianImage(hi, 4)
  {
    assert Pow256(4) == 0x1_0000_0000;
    ImageSplit(lo, hi, 4, 4);
  }

  lemma BigEndianOfHalves(v: nat, hi: nat, lo: nat)
    requires lo < 0x1_0000_0000 && v == hi * 0x1_0000_0000 + lo
    ensures ToBigEndian(v, 8) == ToBigEndian(hi, 4) + ToBigEndian(lo, 4)
  {
    assert Pow256(4) == 0x1_0000_0000;
    ToBigEndianSplit(hi, lo, 4, 4);
  }

  lemma Hton64Of(v: nat, hi: nat, lo: nat)
    requires lo < 0x1_0000_0000 && v == hi * 0x1_0000_0000 + lo
    ensures Hton64(v) == Swap32(lo) * 0x1_0000_0000 + Swap32(hi)
  {
    Halves(hi, lo);
  }

  lemma Halves(hi: nat, lo: nat)
    requires lo < 0x1_0000_0000
    ensures (hi * 0x1_0000_0000 + lo) % 0x1_0000_0000 == lo
    ensures (hi * 0x1_0000_0000 + lo) / 0x1_0000_0000 == hi
  {}

  lemma Hton64ImageOf(v: nat, hi: nat, lo: nat)
    requires lo < 0x1_0000_0000 && v == hi * 0x1_0000_0000 + lo
    ensures LittleEndianImage(Hton64(v), 8) == ToBigEndian(v, 8)
  {
    var w, x, y := Hton64(v), Swap32(hi), Swap32(lo);
    assert w == y * 0x1_0000_0000 + x by { Hton64Of(v, hi, lo); }
    assert x < 0x1_0000_0000 && LittleEndianImage(x, 4) == ToBigEndian(hi, 4) by { Swap32Image(hi); }
    assert LittleEndianImage(y, 4) == ToBigEndian(lo, 4) by { Swap32Image(lo); }
    assert LittleEndianImage(w, 8) == LittleEndianImage(x, 4) + LittleEndianImage(y, 4) by { ImageOfHalves(w, x, y); }
    BigEndianOfHalves(v, hi, lo);
  }

  /** The length field that `hton64` stores is the big-endian encoding. */
  lemma Hton64Image(v: nat)
    ensures LittleEndianImage(Hton64(v), 8) == ToBigEndian(v, 8)
  {
    Hton64ImageOf(v, v / 0x1_0000_0000, v % 0x1_0000_0000);
  }

  lemma Hton64Twice(v: nat, hi: nat, lo: nat)
    requires hi < 0x1_0000_0000 && lo < 0x1_0000_0000 && v == hi * 0x1_0000_0000 + lo
    ensures Hton64(Hton64(v)) == v
  {
    var w, x, y := Hton64(v), Swap32(hi), Swap32(lo);
    assert w == y * 0x1_0000_0000 + x by { Hton64Of(v, hi, lo); }
    assert x < 0x1_0000_0000 by { Swap32Image(hi); }
    assert Hton64(w) == Swap32(x) * 0x1_0000_0000 + Swap32(y) by { Hton64Of(w, y, x); }
    assert Swap32(x) == hi by { Swap32Image(hi); }
    assert Swap32(y) == lo by { Swap32Image(lo); }
  }

  /** `ntoh64` undoes `hton64`. */
  lemma Hton64Involution(v: nat)
    requires v < 0x1_0000_0000_0000_0000
    ensures Hton64(Hton64(v)) == v
  {
    var hi, lo := v / 0x1_0000_0000, v % 0x1_0000_0000;
    Hton64Twice(v, hi, lo);
  }
}
