/** CCSDS space packets: `src/ccsds/space_packet.c` (section 4.1.3 of CCSDS 133.0-B-2). */
module SpacePacket {
  import opened Bytes

  const HEADER_LEN := 6
  const TYPE_TM: u8 := 0
  const TYPE_TC: u8 := 1
  const SEQ_UNSEGMENTED: u8 := 3

  /** Header fields as the C struct holds them: wider than their place on the wire. */
  datatype Header = Header(
    version: u8, kind: u8, secHdr: u8, apid: u16, seqFlags: u8, seqCount: u16, dataLen: u16)
  {
    /** Every field fits its place in the primary header. */
    predicate InRange() {
      version < 8 && kind < 2 && secHdr < 2 && apid < 0x800 && seqFlags < 4 && seqCount < 0x4000
    }
  }

  /** Version, type, secondary header flag and the top of the APID, each masked to its width. */
  function IdOctet(h: Header): u8 {
    h.version % 8 * 32 + h.kind % 2 * 16 + h.secHdr % 2 * 8 + h.apid / 256 % 8
  }

  function SeqOctet(h: Header): u8 {
    h.seqFlags % 4 * 64 + h.seqCount / 256 % 64
  }

  /** The six header octets. */
  function Encode(h: Header): (r: bytes)
    ensures |r| == HEADER_LEN
  {
    [IdOctet(h), h.apid % 256, SeqOctet(h), h.seqCount % 256, h.dataLen / 256, h.dataLen % 256]
  }

  /** `obsw_sp_encode_primary`. */
  method EncodePrimary(h: Header, buf: array<u8>)
    requires buf.Length >= HEADER_LEN
    modifies buf
    ensures buf[..HEADER_LEN] == Encode(h)
    ensures buf[HEADER_LEN..] == old(buf[HEADER_LEN..])
  {
    buf[0] := h.version % 8 * 32 + h.kind % 2 * 16 + h.secHdr % 2 * 8 + h.apid / 256 % 8;
    buf[1] := h.apid % 256;
    buf[2] := h.seqFlags % 4 * 64 + h.seqCount / 256 % 64;
    buf[3] := h.seqCount % 256;
    buf[4] := h.dataLen / 256;
    buf[5] := h.dataLen % 256;
  }

  /** The fields `obsw_sp_decode_primary` reads from the six header octets. */
  function Fields(b0: u8, b1: u8, b2: u8, b3: u8, b4: u8, b5: u8): (h: Header)
    ensures h.InRange()
  {
    Header(b0 / 32, b0 / 16 % 2, b0 / 8 % 2, b0 as int % 8 * 256 + b1,
           b2 / 64, b2 as int % 64 * 256 + b3, b4 as int * 256 + b5)
  }

  function Decode(b: bytes): (h: Header)
    requires |b| >= HEADER_LEN
    ensures h.InRange()
  {
    Fields(b[0], b[1], b[2], b[3], b[4], b[5])
  }

  datatype Packet = Parsed(header: Header, payload: bytes) | BufTooSmall | BadVersion | BadLength

  /** `obsw_sp_parse`. The payload length is kept in 16 bits, so a data length field of 65535
      yields an empty payload. */
  function Parse(buf: bytes): Packet {
    if |buf| < HEADER_LEN then BufTooSmall
    else
      var h := Decode(buf);
      if h.version != 0 then BadVersion
      else if |buf| < HEADER_LEN + h.dataLen + 1 then BadLength
      else Parsed(h, buf[HEADER_LEN..HEADER_LEN + Next16(h.dataLen)])
  }

  lemma PackOctet(v: nat, t: nat, s: nat, a: nat)
    requires v < 8 && t < 2 && s < 2 && a < 8
    ensures var b := v * 32 + t * 16 + s * 8 + a;
      b / 32 == v && b / 16 % 2 == t && b / 8 % 2 == s && b % 8 == a
  {
    var b := v * 32 + t * 16 + s * 8 + a;
    var c := v * 4 + t * 2 + s;
    var d := v * 2 + t;
    assert b / 8 == c && b % 8 == a;
    assert c / 2 == d && c % 2 == s;
    assert d / 2 == v && d % 2 == t;
    assert b / 16 == d;
    assert b / 32 == v;
  }

  lemma UnpackOctet(b: nat)
    ensures b == b / 32 * 32 + b / 16 % 2 * 16 + b / 8 % 2 * 8 + b % 8
  {
    var c := b / 8;
    var d := b / 16;
    assert d == c / 2 && b / 32 == d / 2;
    assert c == 2 * d + c % 2;
    assert d == 2 * (d / 2) + d % 2;
  }

  lemma Join(x: nat)
    ensures x / 256 * 256 + x % 256 == x
  {
  }

  lemma IdFields(h: Header)
    requires h.InRange()
    ensures var b: int := IdOctet(h);
      b / 32 == h.version && b / 16 % 2 == h.kind && b / 8 % 2 == h.secHdr
      && b % 8 * 256 + h.apid % 256 == h.apid
  {
    PackOctet(h.version, h.kind, h.secHdr, h.apid / 256);
    assert IdOctet(h) == h.version as int * 32 + h.kind as int * 16 + h.secHdr as int * 8 + h.apid as int / 256;
    Join(h.apid);
  }

  lemma SeqFields(h: Header)
    requires h.InRange()
    ensures var b: int := SeqOctet(h);
      b / 64 == h.seqFlags && b % 64 * 256 + h.seqCount % 256 == h.seqCount
  {
    Join(h.seqCount);
  }

  /** A header whose fields fit is recovered from its octets. */
  lemma DecodeEncode(h: Header)
    requires h.InRange()
    ensures Decode(Encode(h)) == h
  {
    IdFields(h);
    SeqFields(h);
    Join(h.dataLen);
    var e := Encode(h);
    assert e[0] == IdOctet(h) && e[1] == h.apid % 256 && e[2] == SeqOctet(h) && e[3] == h.seqCount % 256;
    assert e[4] == h.dataLen / 256 && e[5] == h.dataLen % 256;
  }

  lemma Split(hi: nat, lo: nat)
    requires lo < 256
    ensures (hi * 256 + lo) / 256 == hi && (hi * 256 + lo) % 256 == lo
  {
  }

  lemma IdOctetOf(b0: u8, b1: u8, h: Header)
    requires h.version == b0 / 32 && h.kind == b0 / 16 % 2 && h.secHdr == b0 / 8 % 2
    requires h.apid == b0 as int % 8 * 256 + b1
    ensures IdOctet(h) == b0 && h.apid % 256 == b1
  {
    Split(b0 % 8, b1);
    assert h.apid as int / 256 == b0 as int % 8;
    FieldOctet(b0);
  }

  lemma FieldOctet(b: nat)
    requires b < 256
    ensures b / 32 % 8 * 32 + b / 16 % 2 % 2 * 16 + b / 8 % 2 % 2 * 8 + b % 8 % 8 == b
  {
    UnpackOctet(b);
    Small(b / 32, 8);
    Small(b / 16 % 2, 2);
    Small(b / 8 % 2, 2);
    Small(b % 8, 8);
  }

  lemma Small(x: nat, n: nat)
    requires x < n
    ensures x % n == x
  {
  }

  lemma SeqOctetOf(b2: u8, b3: u8, h: Header)
    requires h.seqFlags == b2 / 64 && h.seqCount == b2 as int % 64 * 256 + b3
    ensures SeqOctet(h) == b2 && h.seqCount % 256 == b3
  {
    Split(b2 % 64, b3);
  }

  /** Re-encoding the decoded fields gives back the header octets: no bit is ignored. */
  lemma EncodeDecode(b: bytes)
    requires |b| == HEADER_LEN
    ensures Encode(Decode(b)) == b
  {
    var h := Decode(b);
    IdOctetOf(b[0], b[1], h);
    SeqOctetOf(b[2], b[3], h);
    Split(b[4], b[5]);
    assert b == [b[0], b[1], b[2], b[3], b[4], b[5]];
  }
}
