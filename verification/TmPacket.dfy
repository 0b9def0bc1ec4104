/** PUS-C TM packets as `src/pus/pus_tm.c` lays them out, and how a receiver reads them back. */
module TmPacket {
  import opened Bytes
  import SpacePacket

  const SEC_HDR_LEN := 11
  const PUS_VERSION: u8 := 0x20
  /** Octets before the application data. */
  const DATA_OFFSET := 17
  /** OBSW_TM_MAX_PACKET_LEN. */
  const MAX_PACKET_LEN := 1024
  /** Most application data one packet of the store carries. */
  const MAX_DATA_LEN := 1007
  /** Beyond this the 16-bit length arithmetic of the builder wraps. */
  const NO_WRAP_LEN := 65518

  /** The arguments of `obsw_pus_tm_build`. */
  datatype Packet = Packet(
    apid: u16, seqCount: u16, service: u8, subservice: u8,
    msgCounter: u16, destId: u16, timestamp: u32, data: bytes)
  {
    predicate Fits() {
      |data| <= MAX_DATA_LEN
    }
  }

  function PrimaryHeader(p: Packet): SpacePacket.Header
    requires p.Fits()
  {
    SpacePacket.Header(0, SpacePacket.TYPE_TM, 1, p.apid, SpacePacket.SEQ_UNSEGMENTED, p.seqCount,
                       SEC_HDR_LEN + |p.data| - 1)
  }

  function SecondaryHeader(p: Packet): (r: bytes)
    ensures |r| == SEC_HDR_LEN
  {
    [PUS_VERSION, p.service, p.subservice] + Enc16(p.msgCounter) + Enc16(p.destId) + Enc32(p.timestamp)
  }

  /** The octets of the packet. */
  function Encode(p: Packet): (r: bytes)
    requires p.Fits()
    ensures |r| == DATA_OFFSET + |p.data| <= MAX_PACKET_LEN
  {
    SpacePacket.Encode(PrimaryHeader(p)) + SecondaryHeader(p) + p.data
  }

  /** What a receiver reads: a space packet whose payload starts with the 11-octet header. */
  function Decode(b: bytes): Option<Packet> {
    var sp := SpacePacket.Parse(b);
    if sp.Parsed? && |sp.payload| >= SEC_HDR_LEN then
      var q := sp.payload;
      Some(Packet(sp.header.apid, sp.header.seqCount, q[1], q[2], Be16(q[3..]), Be16(q[5..]), Be32(q[7..]),
                  q[SEC_HDR_LEN..]))
    else None
  }

  /** The header carries 11 bits of APID and 14 of the sequence count; all else survives exactly. */
  lemma DecodeEncode(p: Packet)
    requires p.Fits()
    ensures Decode(Encode(p)) == Some(p.(apid := p.apid % 0x800, seqCount := p.seqCount % 0x4000))
  {
    EncodeParses(p);
    SecondaryFields(p);
  }

  /** The header of an encoded packet as it is read back, and the rest as the payload. */
  lemma EncodeParses(p: Packet)
    requires p.Fits()
    ensures var h := PrimaryHeader(p);
      SpacePacket.Parse(Encode(p)) == SpacePacket.Parsed(
        h.(apid := h.apid % 0x800, seqCount := h.seqCount % 0x4000), SecondaryHeader(p) + p.data)
  {
    hide SpacePacket.Fields, SpacePacket.Encode, SecondaryHeader;
    var h := PrimaryHeader(p);
    var carried := h.(apid := h.apid % 0x800, seqCount := h.seqCount % 0x4000);
    var b := Encode(p);
    MaskedHeader(h, carried);
    SpacePacket.DecodeEncode(carried);
    assert b[..6] == SpacePacket.Encode(h);
    HeaderOfPrefix(b);
    assert b[6..] == SecondaryHeader(p) + p.data;
    assert b[6..|b|] == b[6..];
  }

  lemma MaskedHeader(h: SpacePacket.Header, m: SpacePacket.Header)
    requires m == h.(apid := h.apid % 0x800, seqCount := h.seqCount % 0x4000)
    ensures SpacePacket.Encode(m) == SpacePacket.Encode(h)
  {
    Masked(h.apid, 8);
    Masked(h.seqCount, 64);
  }

  lemma Masked(x: nat, k: nat)
    requires k == 8 || k == 64
    ensures x % (256 * k) / 256 % k == x / 256 % k && x % (256 * k) % 256 == x % 256
  {
    if k == 8 {
      Masked11(x, x / 2048, x % 2048);
    } else {
      Masked14(x, x / 16384, x % 16384);
    }
  }

  lemma Masked11(x: nat, q: nat, r: nat)
    requires r < 2048 && x == 2048 * q + r
    ensures r / 256 % 8 == x / 256 % 8 && r % 256 == x % 256
  {
    assert x / 256 == 8 * q + r / 256;
  }

  lemma Masked14(x: nat, q: nat, r: nat)
    requires r < 16384 && x == 16384 * q + r
    ensures r / 256 % 64 == x / 256 % 64 && r % 256 == x % 256
  {
    assert x / 256 == 64 * q + r / 256;
  }

  lemma HeaderOfPrefix(b: bytes)
    requires |b| >= 6
    ensures SpacePacket.Decode(b) == SpacePacket.Decode(b[..6])
  {
  }

  lemma SecondaryFields(p: Packet)
    ensures var q := SecondaryHeader(p) + p.data;
      && q[1] == p.service && q[2] == p.subservice && Be16(q[3..]) == p.msgCounter
      && Be16(q[5..]) == p.destId && Be32(q[7..]) == p.timestamp && q[SEC_HDR_LEN..] == p.data
  {
    var q := SecondaryHeader(p) + p.data;
    assert q[3..][..2] == Enc16(p.msgCounter);
    assert q[5..][..2] == Enc16(p.destId);
    assert q[7..][..4] == Enc32(p.timestamp);
    Be32OfPrefix(q[7..]);
  }

  lemma Be32OfPrefix(b: bytes)
    requires |b| >= 4
    ensures Be32(b) == Be32(b[..4])
  {
  }
}
