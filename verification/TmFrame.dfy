/** TM transfer frames: `src/ccsds/tm_frame.c` (section 4.1.2 of CCSDS 132.0-B-2). */
module TmFrame {
  import opened Bytes
  import BitString
  import Crc16
  import SpacePacket

  const PRIMARY_HDR_LEN := 6
  const FECF_LEN := 2
  const FHP_NO_PACKET: u16 := 0x07FF
  const FHP_START_ZERO: u16 := 0
  /** An idle packet is at least a header and one octet. */
  const IDLE_MIN_LEN := 7

  datatype Config = Config(
    spacecraftId: u16, virtualChannel: u8, masterCount: u8, channelCount: u8, fecf: bool, zoneLen: u16)
  {
    function Total(): nat {
      PRIMARY_HDR_LEN + zoneLen + if fecf then FECF_LEN else 0
    }
  }

  datatype Status = Ok | ErrBufSmall

  function Header(c: Config, empty: bool): (h: bytes)
    ensures |h| == PRIMARY_HDR_LEN
  {
    [c.spacecraftId / 16 % 64, c.spacecraftId % 16 * 16 + c.virtualChannel % 8 * 2, c.masterCount, c.channelCount]
    + Enc16(0x1800 + if empty then FHP_NO_PACKET else FHP_START_ZERO)
  }

  /** One idle packet of n octets: APID 0x7FF, unsegmented, data all zero. */
  function Idle(n: nat): (p: bytes)
    requires IDLE_MIN_LEN <= n < U16
    ensures |p| == n
  {
    [0x07, 0xFF, 0xC0, 0x00] + Enc16(n - IDLE_MIN_LEN) + seq(n - SpacePacket.HEADER_LEN, _ => 0)
  }

  /** The data zone: as much of the payload as fits, then an idle packet in the rest. A rest of one to
      six octets cannot hold one and keeps what the buffer held. */
  function Zone(c: Config, payload: bytes, before: bytes): (z: bytes)
    requires |before| == c.zoneLen
    ensures |z| == c.zoneLen
  {
    if |payload| >= c.zoneLen then payload[..c.zoneLen]
    else
      var rest := c.zoneLen - |payload|;
      payload + (if rest >= IDLE_MIN_LEN then Idle(rest) else before[|payload|..])
  }

  /** `write_idle_packet` into the zone from offset start. */
  method WriteIdle(buf: array<u8>, start: nat, n: nat)
    requires start + n <= buf.Length && n < U16
    modifies buf
    ensures var b := old(buf[..]);
      buf[..] == b[..start] + (if n >= IDLE_MIN_LEN then Idle(n) else b[start..start + n]) + b[start + n..]
  {
    if n < IDLE_MIN_LEN {
      return;
    }
    hide Idle;
    forall i | start <= i < start + n {
      buf[i] := 0;
    }
    assert buf[..] == old(buf[..start]) + seq(n, _ => 0) + old(buf[start + n..]);
    WriteIdleHeader(buf, start, n);
    IdleParts(n);
    ghost var head := [0x07, 0xFF, 0xC0, 0x00] + Enc16(n - IDLE_MIN_LEN);
    assert buf[..] == old(buf[..start]) + (head + seq(n - 6, _ => 0)) + old(buf[start + n..]);
  }

  method WriteIdleHeader(buf: array<u8>, start: nat, n: nat)
    requires start + 6 <= buf.Length && IDLE_MIN_LEN <= n < U16
    modifies buf
    ensures var b := old(buf[..]);
      buf[..] == b[..start] + ([0x07, 0xFF, 0xC0, 0x00] + Enc16(n - IDLE_MIN_LEN)) + b[start + 6..]
  {
    buf[start], buf[start + 1], buf[start + 2], buf[start + 3] := 0x07, 0xFF, 0xC0, 0x00;
    var len: u16 := n - IDLE_MIN_LEN;
    buf[start + 4], buf[start + 5] := len / 0x100, len % 0x100;
  }

  lemma IdleParts(n: nat)
    requires IDLE_MIN_LEN <= n < U16
    ensures Idle(n) == ([0x07, 0xFF, 0xC0, 0x00] + Enc16(n - IDLE_MIN_LEN)) + seq(n - 6, _ => 0)
  {
  }

  /** The idle fill parses as one packet of the idle APID that takes the space exactly. */
  lemma IdleParses(n: nat)
    requires IDLE_MIN_LEN <= n < U16
    ensures var sp := SpacePacket.Parse(Idle(n));
      && sp.Parsed? && |sp.payload| == n - SpacePacket.HEADER_LEN
      && sp.header == SpacePacket.Header(0, SpacePacket.TYPE_TM, 0, 0x7FF, SpacePacket.SEQ_UNSEGMENTED, 0, n - 7)
  {
    hide Enc16;
    var p := Idle(n);
    var len := Enc16(n - 7);
    assert p[..6] == [0x07, 0xFF, 0xC0, 0x00] + len;
    assert p[0] == 0x07 && p[1] == 0xFF && p[2] == 0xC0 && p[3] == 0;
    assert p[4] == len[0] && p[5] == len[1];
    LengthOctets(n - 7);
    IdleFields(len[0], len[1]);
  }

  lemma LengthOctets(v: u16)
    ensures Enc16(v)[0] as int * 256 + Enc16(v)[1] as int == v
  {
  }

  lemma IdleFields(hi: u8, lo: u8)
    ensures SpacePacket.Fields(0x07, 0xFF, 0xC0, 0x00, hi, lo)
         == SpacePacket.Header(0, SpacePacket.TYPE_TM, 0, 0x7FF, SpacePacket.SEQ_UNSEGMENTED, 0, hi as int * 256 + lo)
  {
  }

  /** `obsw_tm_frame_build`. */
  method Build(c: Config, payload: bytes, buf: array<u8>) returns (r: Status, written: nat)
    requires |payload| < U16
    modifies buf
    ensures r == if buf.Length < c.Total() then ErrBufSmall else Ok
    ensures r == ErrBufSmall ==> buf[..] == old(buf[..])
    ensures r == Ok ==> written == c.Total() <= buf.Length && buf[written..] == old(buf[written..])
    ensures r == Ok ==>
      var body := Header(c, payload == []) + Zone(c, payload, old(buf[6..6 + c.zoneLen]));
      buf[..written] == if c.fecf then body + Crc16.Field(Crc16.CrcBits(body)) else body
  {
    var total := c.Total();
    if buf.Length < total {
      return ErrBufSmall, 0;
    }
    hide Header, Zone;
    ghost var before := buf[6..6 + c.zoneLen];
    WriteHeader(c, payload == [], buf);
    assert buf[6..6 + c.zoneLen] == buf[6..][..c.zoneLen] == before;
    assert buf[6 + c.zoneLen..] == buf[6..][c.zoneLen..] == old(buf[6..])[c.zoneLen..];
    WriteZone(c, payload, buf);
    ghost var body := Header(c, payload == []) + Zone(c, payload, before);
    assert buf[..6 + c.zoneLen] == body;
    if c.fecf {
      WriteFecf(buf, total);
    }
    return Ok, total;
  }

  /** The error control field over the octets before it. */
  method WriteFecf(buf: array<u8>, total: nat)
    requires FECF_LEN <= total <= buf.Length
    modifies buf
    ensures var body := old(buf[..total - 2]); buf[..total] == body + Crc16.Field(Crc16.CrcBits(body))
    ensures buf[total..] == old(buf[total..])
  {
    var crc := Crc16.Crc16Ccitt(buf[..total - FECF_LEN]);
    var f := Crc16.WordOctets(crc);
    buf[total - 2], buf[total - 1] := f[0], f[1];
    assert buf[..total - 2] == old(buf[..total - 2]) && buf[total - 2..total] == f;
    assert buf[..total] == buf[..total - 2] + buf[total - 2..total];
  }

  method WriteHeader(c: Config, empty: bool, buf: array<u8>)
    requires buf.Length >= PRIMARY_HDR_LEN
    modifies buf
    ensures buf[..6] == Header(c, empty) && buf[6..] == old(buf[6..])
  {
    var fhp := if empty then FHP_NO_PACKET else FHP_START_ZERO;
    buf[0] := c.spacecraftId / 16 % 64;
    buf[1] := c.spacecraftId % 16 * 16 + c.virtualChannel % 8 * 2;
    buf[2] := c.masterCount;
    buf[3] := c.channelCount;
    var word: u16 := 0x1800 + fhp;
    buf[4], buf[5] := word / 0x100, word % 0x100;
  }

  method WriteZone(c: Config, payload: bytes, buf: array<u8>)
    requires buf.Length >= PRIMARY_HDR_LEN + c.zoneLen && |payload| < U16
    modifies buf
    ensures buf[..] == old(buf[..6]) + Zone(c, payload, old(buf[6..6 + c.zoneLen])) + old(buf[6 + c.zoneLen..])
  {
    ghost var before := buf[..];
    if |payload| >= c.zoneLen {
      CopyIn(payload[..c.zoneLen], buf, 6);
    } else {
      CopyIn(payload, buf, 6);
      FillRest(c, payload, buf, before);
    }
  }

  /** The idle fill after a payload shorter than the zone. */
  method FillRest(c: Config, payload: bytes, buf: array<u8>, ghost before: bytes)
    requires buf.Length == |before| >= PRIMARY_HDR_LEN + c.zoneLen && |payload| < c.zoneLen
    requires buf[..] == before[..6] + payload + before[6 + |payload|..]
    modifies buf
    ensures buf[..] == before[..6] + Zone(c, payload, before[6..6 + c.zoneLen]) + before[6 + c.zoneLen..]
  {
    hide Idle, Zone;
    ghost var mid := buf[..];
    WriteIdle(buf, 6 + |payload|, c.zoneLen - |payload|);
    ZoneFilled(c, payload, before, mid, buf[..]);
  }

  lemma ZoneFilled(c: Config, payload: bytes, before: bytes, mid: bytes, after: bytes)
    requires |before| == |mid| >= PRIMARY_HDR_LEN + c.zoneLen && |payload| < c.zoneLen
    requires mid == before[..6] + payload + before[6 + |payload|..]
    requires var start, n := 6 + |payload|, c.zoneLen - |payload|;
      after == mid[..start] + (if n >= IDLE_MIN_LEN then Idle(n) else mid[start..start + n]) + mid[start + n..]
    ensures after == before[..6] + Zone(c, payload, before[6..6 + c.zoneLen]) + before[6 + c.zoneLen..]
  {
    hide Idle, Zone;
    ZoneParts(before, payload, |payload|, c.zoneLen - |payload|, Fill(c, payload, before));
  }

  /** What the zone holds after a short payload. */
  function Fill(c: Config, payload: bytes, before: bytes): (f: bytes)
    requires |before| >= PRIMARY_HDR_LEN + c.zoneLen && |payload| < c.zoneLen
    ensures |f| == c.zoneLen - |payload|
    ensures Zone(c, payload, before[6..6 + c.zoneLen]) == payload + f
  {
    var rest := c.zoneLen - |payload|;
    assert before[6..6 + c.zoneLen][|payload|..] == before[6 + |payload|..6 + c.zoneLen];
    if rest >= IDLE_MIN_LEN then Idle(rest) else before[6 + |payload|..6 + c.zoneLen]
  }

  lemma ZoneParts(before: bytes, payload: bytes, n: nat, rest: nat, fill: bytes)
    requires |payload| == n && |fill| == rest && |before| >= 6 + n + rest
    ensures var mid := before[..6] + payload + before[6 + n..];
      mid[..6 + n] + fill + mid[6 + n + rest..] == before[..6] + (payload + fill) + before[6 + n + rest..]
    ensures before[6 + n..6 + n + rest] == before[6..6 + n + rest][n..]
    ensures var mid := before[..6] + payload + before[6 + n..];
      mid[6 + n..6 + n + rest] == before[6 + n..6 + n + rest]
  {
  }

  /** `memcpy` into the buffer at an offset. */
  method CopyIn(src: bytes, buf: array<u8>, at: nat)
    requires at + |src| <= buf.Length
    modifies buf
    ensures buf[..] == old(buf[..at]) + src + old(buf[at + |src|..])
  {
    forall i | 0 <= i < |src| {
      buf[at + i] := src[i];
    }
  }

  /** A frame built with its error control field has zero residue, whatever its length and content,
      and so passes the check of the receiving side. */
  lemma BuiltFrameChecks(header: bytes, zone: bytes)
    ensures var body := header + zone;
      Crc16.FecfOk(body + Crc16.Field(Crc16.CrcBits(body)))
      && Crc16.CrcBits(body + Crc16.Field(Crc16.CrcBits(body))) == Crc16.Zero()
  {
    Crc16.AppendedCrcOk(header + zone);
  }

  /** Unused space of seven octets or more is one idle space packet that fills it exactly. */
  lemma UnusedSpaceIsOnePacket(c: Config, payload: bytes, before: bytes)
    requires |before| == c.zoneLen && |payload| + IDLE_MIN_LEN <= c.zoneLen
    ensures var z := Zone(c, payload, before);
      var sp := SpacePacket.Parse(z[|payload|..]);
      && z[..|payload|] == payload
      && sp.Parsed? && sp.header.apid == 0x7FF
      && SpacePacket.HEADER_LEN + |sp.payload| == c.zoneLen - |payload|
  {
    hide SpacePacket.Parse, Idle;
    IdleParses(c.zoneLen - |payload|);
    assert Zone(c, payload, before)[|payload|..] == Idle(c.zoneLen - |payload|);
  }

  /** A built frame hit by a burst of at most 16 bits fails the check. */
  lemma DamagedFrameFails(body: bytes, g: bytes, p: nat)
    requires var f := body + Crc16.Field(Crc16.CrcBits(body));
      |g| == |f| && g != f
      && forall i | 0 <= i < 8 * |f| && !(p <= i < p + 16) :: BitString.Bits(f)[i] == BitString.Bits(g)[i]
    ensures !Crc16.FecfOk(g)
  {
    Crc16.AppendedCrcOk(body);
    Crc16.BurstDetected(body + Crc16.Field(Crc16.CrcBits(body)), g, p);
  }
}
