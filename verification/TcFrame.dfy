/** TC transfer frame decoding of `src/ccsds/tc_frame.c` (section 4.1.2 of CCSDS 232.0-B-4). */
module TcFrame {
  import opened Bytes
  import BitString
  import Crc16

  const PRIMARY_HDR_LEN := 5
  const CRC_LEN := 2
  const MIN_LEN := 8

  datatype Header = Header(
    version: u8, bypass: u8, ctrlCmd: u8, spacecraftId: u16, virtualChannel: u8, frameLen: u16, seqNum: u8)

  datatype Result = Ok(header: Header, data: bytes) | ErrTooShort | ErrCrc

  function HeaderOf(buf: bytes): Header
    requires |buf| >= PRIMARY_HDR_LEN
  {
    Header(buf[0] / 64, buf[0] / 32 % 2, buf[0] / 16 % 2, Be16([buf[0] % 4, buf[1]]),
           buf[2] / 4, Be16([buf[2] % 4, buf[3]]), buf[4])
  }

  /** The CRC of all octets but two against the last two. */
  method Checked(buf: bytes) returns (ok: bool)
    requires |buf| >= MIN_LEN
    ensures ok <==> Crc16.FecfOk(buf)
  {
    var len := |buf|;
    var computed := Crc16.Crc16Ccitt(buf[..len - 2]);
    var received := ((buf[len - 2] as bv16) << 8) | (buf[len - 1] as bv16);
    Crc16.WordOfField(buf[len - 2], buf[len - 1]);
    Crc16.WordInjective(computed, received);
    assert buf[len - 2..] == [buf[len - 2], buf[len - 1]];
    return computed == received;
  }

  /** `obsw_tc_frame_decode`. A frame is accepted exactly when it is long enough, its last two
      octets are the CRC of the rest, and its length field is its length less one. */
  method Decode(buf: bytes) returns (r: Result)
    ensures r.Ok? <==> |buf| >= MIN_LEN && Crc16.FecfOk(buf) && HeaderOf(buf).frameLen + 1 == |buf|
    ensures r.ErrCrc? <==> |buf| >= MIN_LEN && !Crc16.FecfOk(buf)
    ensures r.Ok? ==> r.header == HeaderOf(buf) && r.data == buf[PRIMARY_HDR_LEN..|buf| - CRC_LEN]
  {
    hide Crc16.FecfOk;
    var len := |buf|;
    if len < MIN_LEN {
      return ErrTooShort;
    }
    var checked := Checked(buf);
    if !checked {
      return ErrCrc;
    }
    var h := HeaderOf(buf);
    if h.frameLen + 1 != len {
      return ErrTooShort;
    }
    return Ok(h, buf[PRIMARY_HDR_LEN..len - CRC_LEN]);
  }

  /** The frames `Decode` accepts. */
  predicate Accepted(buf: bytes) {
    |buf| >= MIN_LEN && Crc16.FecfOk(buf) && HeaderOf(buf).frameLen + 1 == |buf|
  }

  /** An accepted frame hit by any burst of at most 16 bits is rejected by the CRC check. */
  lemma BurstRejected(f: bytes, g: bytes, p: nat)
    requires Accepted(f) && |g| == |f| && g != f
    requires forall i | 0 <= i < 8 * |f| && !(p <= i < p + 16) :: BitString.Bits(f)[i] == BitString.Bits(g)[i]
    ensures !Crc16.FecfOk(g) && !Accepted(g)
  {
    Crc16.BurstDetected(f, g, p);
  }

  function ReservedBits(buf: bytes): u8
    requires |buf| >= 1
  {
    buf[0] / 4 % 4
  }

  /** Decoding loses nothing but the two reserved bits: header and data determine an accepted frame. */
  lemma DecodeInjective(f: bytes, g: bytes)
    requires Accepted(f) && Accepted(g)
    requires HeaderOf(f) == HeaderOf(g) && ReservedBits(f) == ReservedBits(g)
    requires f[PRIMARY_HDR_LEN..|f| - CRC_LEN] == g[PRIMARY_HDR_LEN..|g| - CRC_LEN]
    ensures f == g
  {
    FirstOctet(f[0]);
    FirstOctet(g[0]);
    ChannelOctet(f, g);
    var x, y := f[..5] + f[5..|f| - 2], g[..5] + g[5..|g| - 2];
    assert f[..5] == [f[0], f[1], f[2], f[3], f[4]] == g[..5];
    assert f[..|f| - 2] == x && g[..|g| - 2] == y;
    BitString.BitsInjective(f[|f| - 2..], g[|g| - 2..]);
    assert f == x + f[|f| - 2..] && g == y + g[|g| - 2..];
  }

  lemma FirstOctet(b: u8)
    ensures b == b / 64 * 64 + b / 32 % 2 * 32 + b / 16 % 2 * 16 + b / 4 % 4 * 4 + b % 4
  {
    assert b / 32 == 2 * (b / 64) + b / 32 % 2;
    assert b / 16 == 2 * (b / 32) + b / 16 % 2;
    assert b / 4 == 4 * (b / 16) + b / 4 % 4;
  }

  lemma ChannelOctet(f: bytes, g: bytes)
    requires |f| >= PRIMARY_HDR_LEN && |g| >= PRIMARY_HDR_LEN && HeaderOf(f) == HeaderOf(g)
    ensures f[0] % 4 == g[0] % 4 && f[1] == g[1] && f[2] == g[2] && f[3] == g[3] && f[4] == g[4]
  {
  }
}
