/** The 12-byte frame header of the multiplexer (src/tcpmux.c, `tcp_mux_encode`, `validate_tcp_mux_protocol`). */
module MuxFrames {
  import opened Bytes

  const HEADER_SIZE := 12
  const DATA := 0
  const WINDOW_UPDATE := 1
  const PING := 2
  const GO_AWAY := 3
  const MAX_STREAM_WINDOW := 8 * 1024 * 1024

  datatype Header = Header(version: Byte, kind: Byte, flags: nat, id: nat, length: nat)
  {
    predicate Fits() {
      flags < 0x1_0000 && id < 0x1_0000_0000 && length < 0x1_0000_0000
    }

    predicate Valid() {
      version == 0 && kind <= GO_AWAY
    }
  }

  function EncodeHeader(h: Header): (b: Bytes)
    ensures |b| == HEADER_SIZE
  {
    [h.version, h.kind] + U16(h.flags) + U32(h.id) + U32(h.length)
  }

  function DecodeHeader(b: Bytes): Header
    requires |b| == HEADER_SIZE
  {
    Header(b[0], b[1], Get16(b[2..4]), Get32(b[4..8]), Get32(b[8..12]))
  }

  /** The layout on the wire: version, type, then flags, stream id and length, each most significant byte first. */
  lemma HeaderLayout(h: Header)
    requires h.Fits()
    ensures var b := EncodeHeader(h);
            && b[0] == h.version && b[1] == h.kind
            && BigEndian(b[2..4]) == h.flags && BigEndian(b[4..8]) == h.id && BigEndian(b[8..12]) == h.length
  {
    var b := EncodeHeader(h);
    assert b[2..4] == U16(h.flags) && b[4..8] == U32(h.id) && b[8..12] == U32(h.length);
    assert Pow256(2) == 0x1_0000 && Pow256(4) == 0x1_0000_0000;
    ToBigEndianRoundTrip(h.flags, 2);
    ToBigEndianRoundTrip(h.id, 4);
    ToBigEndianRoundTrip(h.length, 4);
  }

  lemma HeaderRoundTrip(h: Header)
    requires h.Fits()
    ensures DecodeHeader(EncodeHeader(h)) == h
  {
    U16RoundTrip(h.flags);
    U32RoundTrip(h.id);
    U32RoundTrip(h.length);
    var b := EncodeHeader(h);
    assert b[2..4] == U16(h.flags) && b[4..8] == U32(h.id) && b[8..12] == U32(h.length);
  }
}
