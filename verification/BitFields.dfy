/**
  The headers of frames and packets, field by field at the bit positions the standards give: TC transfer frames
  (section 4.1.2 of CCSDS 232.0-B-4), TM transfer frames (section 4.1.2 of CCSDS 132.0-B-2), space packets
  (section 4.1.3 of CCSDS 133.0-B-2) and the secondary header of TM packets (`src/pus/pus_tm.c`).
  */
module BitFields {
  import opened BitString
  import opened Bytes
  import Crc16
  import HkLayout
  import HkPool
  import SpacePacket
  import TcFrame
  import TmFrame
  import TmPacket
  import Xtce

  // ----- Numbers at bit positions -------------------------------------------------------------------------

  lemma {:induction false} TopBits(b: u8, i: nat)
    requires i <= 8
    ensures Value(BitsOfByte(b)[..i]) == Top(b, i)
  {
    if i > 0 {
      TopBits(b, i - 1);
      ByteDigit(b, i - 1);
    } else {
      assert BitsOfByte(b)[..0] == [];
    }
  }

  /** Bits a to a + n of one octet. */
  lemma OctetBits(b: u8, a: nat, n: nat)
    requires a + n <= 8
    ensures Value(BitsOfByte(b)[a..a + n]) == Top(b, a + n) - Top(b, a) * Pow2(n)
  {
    hide BitsOfByte, Top, Value, Pow2;
    var x := BitsOfByte(b);
    TopBits(b, a);
    TopBits(b, a + n);
    assert x[..a + n] == x[..a] + x[a..a + n];
    ValueConcat(x[..a], x[a..a + n]);
  }

  lemma OctetAt(d: bytes, i: nat, k: nat)
    requires i < |d| && k == 8 * i
    ensures Bits(d)[k..k + 8] == BitsOfByte(d[i])
  {
    hide BitsOfByte, Bits;
    HkLayout.BitsSlice(d, i, i + 1);
    assert d[i..i + 1] == [d[i]];
    OneOctet(d[i]);
  }

  lemma OneOctet(b: u8)
    ensures Bits([b]) == BitsOfByte(b)
  {
    hide BitsOfByte;
    assert [b][1..] == [];
  }

  /** The same of an octet in a packet. */
  lemma InOctet(d: bytes, i: nat, a: nat, n: nat)
    requires i < |d| && a + n <= 8
    ensures HkLayout.ReadBits(d, 8 * i + a, n) == Top(d[i], a + n) - Top(d[i], a) * Pow2(n)
  {
    hide BitsOfByte, Top, Bits, Value, Pow2;
    OctetAt(d, i, 8 * i);
    OctetBits(d[i], a, n);
    var k := 8 * i;
    HkPool.SliceOfSlice(Bits(d), k, k + 8, a, a + n);
  }

  /** Bits a to 8 of an octet and the first n of the octet behind it. */
  lemma IntoNext(d: bytes, i: nat, a: nat, n: nat)
    requires i + 1 < |d| && a <= 8 && n <= 8
    ensures HkLayout.ReadBits(d, 8 * i + a, 8 - a + n)
         == (d[i] - Top(d[i], a) * Pow2(8 - a)) * Pow2(n) + Top(d[i + 1], n)
  {
    hide BitsOfByte, Top, Bits, Value, Pow2;
    OctetBits(d[i], a, 8 - a);
    OctetBits(d[i + 1], 0, n);
    WholeOctet(d[i]);
    WholeOctet(d[i + 1]);
    var x, y := BitsOfByte(d[i])[a..8], BitsOfByte(d[i + 1])[..n];
    assert BitsOfByte(d[i + 1])[0..n] == y;
    AcrossOctets(d, i, 8 * i, a, n);
    ValueConcat(x, y);
  }

  lemma AcrossOctets(d: bytes, i: nat, k: nat, a: nat, n: nat)
    requires i + 1 < |d| && k == 8 * i && a <= 8 && n <= 8
    ensures Bits(d)[k + a..k + 8 + n] == BitsOfByte(d[i])[a..8] + BitsOfByte(d[i + 1])[..n]
  {
    hide BitsOfByte, Bits;
    OctetAt(d, i, k);
    OctetAt(d, i + 1, k + 8);
    Cut(Bits(d), BitsOfByte(d[i]), BitsOfByte(d[i + 1]), k, a, n);
  }

  lemma Cut(s: seq<bool>, x: seq<bool>, y: seq<bool>, k: nat, a: nat, n: nat)
    requires k + 16 <= |s| && a <= 8 && n <= 8 && s[k..k + 8] == x && s[k + 8..k + 8 + 8] == y
    ensures s[k + a..k + 8 + n] == x[a..8] + y[..n]
  {
    HkPool.SliceOfSlice(s, k, k + 8, a, 8);
    HkPool.SliceOfSlice(s, k + 8, k + 8 + 8, 0, n);
    assert y[0..n] == y[..n];
    Halves(s, k + a, k + 8, k + 8 + n);
  }

  lemma Halves(s: seq<bool>, i: nat, j: nat, l: nat)
    requires i <= j <= l <= |s|
    ensures s[i..l] == s[i..j] + s[j..l]
  {
  }

  lemma WholeOctet(b: u8)
    ensures Top(b, 8) == b && Top(b, 0) == 0
  {
  }

  lemma Powers()
    ensures Pow2(0) == 1 && Pow2(1) == 2 && Pow2(2) == 4 && Pow2(3) == 8 && Pow2(4) == 16 && Pow2(5) == 32
    ensures Pow2(6) == 64 && Pow2(8) == 256
  {
  }

  /** The parts of an octet, cut behind bits 1, 2, 3, 5, as parts between cuts. */
  lemma PartsTop(b: u8)
    ensures b / 64 == Top(b, 2) - Top(b, 0) * 4 && b / 32 % 2 == Top(b, 3) - Top(b, 2) * 2
    ensures b / 16 % 2 == Top(b, 4) - Top(b, 3) * 2 && b / 4 % 4 == Top(b, 6) - Top(b, 4) * 4
    ensures b % 4 == b - Top(b, 6) * 4 && b / 4 == Top(b, 6) - Top(b, 0) * 64
  {
  }

  // ----- TC transfer frames -------------------------------------------------------------------------------

  /** What the decoder makes of the header of a TC transfer frame: version, bypass flag, control command flag, two
      reserved bits, spacecraft, virtual channel, length, sequence number. */
  lemma TcFrameHeader(d: bytes)
    requires |d| >= 5
    ensures var h := TcFrame.HeaderOf(d);
      && h.version == HkLayout.ReadBits(d, 0, 2) && h.bypass == HkLayout.ReadBits(d, 2, 1)
      && h.ctrlCmd == HkLayout.ReadBits(d, 3, 1) && TcFrame.ReservedBits(d) == HkLayout.ReadBits(d, 4, 2)
      && h.spacecraftId == HkLayout.ReadBits(d, 6, 10) && h.virtualChannel == HkLayout.ReadBits(d, 16, 6)
      && h.frameLen == HkLayout.ReadBits(d, 22, 10) && h.seqNum == HkLayout.ReadBits(d, 32, 8)
  {
    hide HkLayout.ReadBits, Top, Pow2;
    InOctet(d, 0, 0, 2);
    InOctet(d, 0, 2, 1);
    InOctet(d, 0, 3, 1);
    InOctet(d, 0, 4, 2);
    IntoNext(d, 0, 6, 8);
    InOctet(d, 2, 0, 6);
    IntoNext(d, 2, 6, 8);
    InOctet(d, 4, 0, 8);
    Powers();
    PartsTop(d[0]);
    PartsTop(d[2]);
    WholeOctet(d[1]);
    WholeOctet(d[3]);
    WholeOctet(d[4]);
  }

  /** Which frames are accepted: eight octets at least, the CRC in the last two, and the length less one in the ten
      bits from bit 22. */
  lemma TcFrameAccepted(d: bytes)
    ensures TcFrame.Accepted(d) <==>
      && |d| >= 8 && Crc16.CrcBits(d[..|d| - 2]) == Bits(d[|d| - 2..]) && HkLayout.ReadBits(d, 22, 10) == |d| - 1
  {
    hide HkLayout.ReadBits, Crc16.CrcBits, Bits;
    if |d| >= 8 {
      TcFrameHeader(d);
    }
  }

  // ----- TM transfer frames -------------------------------------------------------------------------------

  /** The header a TM transfer frame is built with: version 0, spacecraft, virtual channel, no operational control
      field, both counters, no secondary header, no synchronisation and forward order, segment length 3, first
      header pointer 0, or 2047 where no packet starts. */
  lemma TmFrameHeader(c: TmFrame.Config, empty: bool)
    ensures var d := TmFrame.Header(c, empty);
      && HkLayout.ReadBits(d, 0, 2) == 0 && HkLayout.ReadBits(d, 2, 10) == c.spacecraftId % 1024
      && HkLayout.ReadBits(d, 12, 3) == c.virtualChannel % 8 && HkLayout.ReadBits(d, 15, 1) == 0
      && HkLayout.ReadBits(d, 16, 8) == c.masterCount && HkLayout.ReadBits(d, 24, 8) == c.channelCount
      && HkLayout.ReadBits(d, 32, 3) == 0 && HkLayout.ReadBits(d, 35, 2) == 3
      && HkLayout.ReadBits(d, 37, 11) == if empty then 2047 else 0
  {
    hide HkLayout.ReadBits, Top, Pow2, TmFrame.Header;
    var d := TmFrame.Header(c, empty);
    FrameOctets(c, empty);
    Powers();
    ChannelParts(c.spacecraftId, c.virtualChannel, d[0], d[1]);
    StatusParts(d[4]);
    InOctet(d, 0, 0, 2);
    IntoNext(d, 0, 2, 4);
    InOctet(d, 1, 4, 3);
    InOctet(d, 1, 7, 1);
    InOctet(d, 2, 0, 8);
    InOctet(d, 3, 0, 8);
    InOctet(d, 4, 0, 3);
    InOctet(d, 4, 3, 2);
    IntoNext(d, 4, 5, 8);
    WholeOctet(d[1]);
    WholeOctet(d[2]);
    WholeOctet(d[3]);
    WholeOctet(d[5]);
  }

  lemma FrameOctets(c: TmFrame.Config, empty: bool)
    ensures var d := TmFrame.Header(c, empty);
      && d[0] == c.spacecraftId / 16 % 64 && d[1] == c.spacecraftId % 16 * 16 + c.virtualChannel % 8 * 2
      && d[2] == c.masterCount && d[3] == c.channelCount
      && d[4] == (if empty then 0x1F else 0x18) && d[5] == if empty then 0xFF else 0
  {
  }

  lemma ChannelParts(x: u16, v: u8, b: u8, b': u8)
    requires b == x / 16 % 64 && b' == x % 16 * 16 + v % 8 * 2
    ensures Top(b, 0) == Top(b, 2) == 0 && b * 16 + Top(b', 4) == x % 1024
    ensures Top(b', 7) - Top(b', 4) * 8 == v % 8 && Top(b', 8) - Top(b', 7) * 2 == 0
  {
    var s, w := x % 16, v % 8;
    assert b' / 16 == s && b' / 2 == s * 8 + w;
    assert x == x / 1024 * 1024 + x / 16 % 64 * 16 + x % 16;
  }

  lemma StatusParts(b: u8)
    requires b == 0x1F || b == 0x18
    ensures Top(b, 0) == Top(b, 3) == 0 && Top(b, 5) == 3
  {
  }

  /** The data zone of a built frame, octet by octet: the payload as far as it fits; behind it a packet of the idle APID
      that fills the rest, or, where fewer than seven octets are left, what the buffer held. */
  lemma TmFrameZone(c: TmFrame.Config, payload: bytes, before: bytes, k: nat)
    requires |before| == c.zoneLen && k < c.zoneLen
    ensures var z, rest := TmFrame.Zone(c, payload, before), c.zoneLen - |payload|;
      var j := k - |payload|;
      z[k] == if j < 0 then payload[k] else if rest < 7 then before[k]
              else if j == 0 then 7 else if j == 1 then 0xFF else if j == 2 then 0xC0 else if j == 3 then 0
              else if j == 4 then (rest - 7) / 256 else if j == 5 then (rest - 7) % 256 else 0
  {
    if |payload| < c.zoneLen && c.zoneLen - |payload| >= 7 {
      IdleOctets(c.zoneLen - |payload|);
      hide TmFrame.Idle;
      var z, idle := TmFrame.Zone(c, payload, before), TmFrame.Idle(c.zoneLen - |payload|);
      assert z == payload + idle;
    }
  }

  lemma IdleOctets(n: nat)
    requires 7 <= n < U16
    ensures var p := TmFrame.Idle(n);
      && p[0] == 7 && p[1] == 0xFF && p[2] == 0xC0 && p[3] == 0 && p[4] == (n - 7) / 256 && p[5] == (n - 7) % 256
      && forall j | 6 <= j < n :: p[j] == 0
  {
  }

  // ----- TM packets ---------------------------------------------------------------------------------------

  /** The 18 octets up to the first of the data. */
  lemma PacketOctets(p: TmPacket.Packet)
    requires p.Fits() && p.data != []
    ensures var d := TmPacket.Encode(p);
      && |d| >= 18
      && d[0] == 8 + p.apid / 256 % 8 && d[1] == p.apid % 256
      && d[2] == 192 + p.seqCount / 256 % 64 && d[3] == p.seqCount % 256
      && d[4] as int * 256 + d[5] as int == 10 + |p.data|
      && d[6] == 32 && d[7] == p.service && d[8] == p.subservice
      && d[9] as int * 256 + d[10] as int == p.msgCounter && d[11] as int * 256 + d[12] as int == p.destId
      && (d[13] as int * 256 + d[14] as int) * 65536 + (d[15] as int * 256 + d[16] as int) == p.timestamp
      && d[17] == p.data[0]
  {
    var h, d := TmPacket.PrimaryHeader(p), TmPacket.Encode(p);
    var b, t := SpacePacket.Encode(h), TmPacket.SecondaryHeader(p);
    assert d == b + t + p.data && |b| == 6 && |t| == 11;
    PrimaryOctets(p);
    SecondaryOctets(p);
    hide SpacePacket.Encode, TmPacket.SecondaryHeader, TmPacket.PrimaryHeader;
    assert forall i | 0 <= i < 6 :: d[i] == b[i];
    assert forall i | 0 <= i < 11 :: d[6 + i] == t[i];
  }

  lemma PrimaryOctets(p: TmPacket.Packet)
    requires p.Fits()
    ensures var b := SpacePacket.Encode(TmPacket.PrimaryHeader(p));
      && b[0] == 8 + p.apid / 256 % 8 && b[1] == p.apid % 256
      && b[2] == 192 + p.seqCount / 256 % 64 && b[3] == p.seqCount % 256
      && b[4] as int * 256 + b[5] as int == 10 + |p.data|
  {
  }

  lemma SecondaryOctets(p: TmPacket.Packet)
    ensures var t := TmPacket.SecondaryHeader(p);
      && t[0] == 32 && t[1] == p.service && t[2] == p.subservice
      && t[3] as int * 256 + t[4] as int == p.msgCounter && t[5] as int * 256 + t[6] as int == p.destId
      && (t[7] as int * 256 + t[8] as int) * 65536 + (t[9] as int * 256 + t[10] as int) == p.timestamp
  {
    var t := TmPacket.SecondaryHeader(p);
    var hi, lo := p.timestamp / U16, p.timestamp % U16;
    assert Enc32(p.timestamp) == Enc16(hi) + Enc16(lo);
    assert t[7] == hi / 256 && t[8] == hi % 256 && t[9] == lo / 256 && t[10] == lo % 256;
    assert hi * U16 + lo == p.timestamp;
  }

  /** A number over four octets. */
  lemma FourOctets(d: bytes, i: nat)
    requires i + 4 <= |d|
    ensures HkLayout.ReadBits(d, 8 * i, 32)
         == (d[i] as int * 256 + d[i + 1] as int) * 65536 + (d[i + 2] as int * 256 + d[i + 3] as int)
  {
    hide Bits, Value, Pow2, Top;
    IntoNext(d, i, 0, 8);
    IntoNext(d, i + 2, 0, 8);
    Powers();
    WholeOctet(d[i]);
    WholeOctet(d[i + 1]);
    WholeOctet(d[i + 2]);
    WholeOctet(d[i + 3]);
    var k := 8 * i;
    var x, y := Bits(d)[k..k + 16], Bits(d)[k + 16..k + 32];
    assert Bits(d)[k..k + 32] == x + y;
    ValueConcat(x, y);
    LongPower();
  }

  lemma LongPower()
    ensures Pow2(16) == 65536
  {
    assert Pow2(12) == 4096;
  }

  /** What the octets of a TM packet say at the 14 positions the database declares for its header, whatever the
      packet: version 0, telemetry, secondary header, APID, unsegmented, sequence count, length, PUS version, service,
      subservice, message counter, destination, time, and the first octet of its data. */
  lemma TmPacketHeader(p: TmPacket.Packet)
    requires p.Fits() && p.data != []
    ensures var d := TmPacket.Encode(p);
      forall k | 0 <= k < |Xtce.HEADER| :: HkLayout.ReadBits(d, Xtce.HEADER[k].bit, Xtce.HEADER[k].width) ==
        [0, 0, 1, p.apid % 2048, 3, p.seqCount % 16384, 10 + |p.data|, 32, p.service, p.subservice, p.msgCounter,
         p.destId, p.timestamp, p.data[0]][k]
  {
    hide HkLayout.ReadBits, TmPacket.Encode, Top, Pow2;
    var d := TmPacket.Encode(p);
    PacketOctets(p);
    PrimaryFields(d, p.apid, p.seqCount);
    OtherFields(d);
  }

  lemma PrimaryFields(d: bytes, apid: u16, seqCount: u16)
    requires |d| >= 18 && d[0] == 8 + apid / 256 % 8 && d[1] == apid % 256
    requires d[2] == 192 + seqCount / 256 % 64 && d[3] == seqCount % 256
    ensures HkLayout.ReadBits(d, 0, 3) == 0 && HkLayout.ReadBits(d, 3, 1) == 0 && HkLayout.ReadBits(d, 4, 1) == 1
    ensures HkLayout.ReadBits(d, 5, 11) == apid % 2048
    ensures HkLayout.ReadBits(d, 16, 2) == 3 && HkLayout.ReadBits(d, 18, 14) == seqCount % 16384
  {
    hide HkLayout.ReadBits, Top, Pow2;
    InOctet(d, 0, 0, 3);
    InOctet(d, 0, 3, 1);
    InOctet(d, 0, 4, 1);
    IntoNext(d, 0, 5, 8);
    InOctet(d, 2, 0, 2);
    IntoNext(d, 2, 2, 8);
    Powers();
    WholeOctet(d[1]);
    WholeOctet(d[3]);
    IdParts(apid, d[0]);
    SeqParts(seqCount, d[2]);
  }

  lemma IdParts(x: u16, b: u8)
    requires b == 8 + x / 256 % 8
    ensures Top(b, 0) == Top(b, 3) == Top(b, 4) == 0 && Top(b, 5) == 1
    ensures (b - Top(b, 5) * 8) * 256 + x % 256 == x % 2048
  {
    assert x == x / 2048 * 2048 + x / 256 % 8 * 256 + x % 256;
  }

  lemma SeqParts(x: u16, b: u8)
    requires b == 192 + x / 256 % 64
    ensures Top(b, 0) == 0 && Top(b, 2) == 3 && (b - Top(b, 2) * 64) * 256 + x % 256 == x % 16384
  {
    assert x == x / 16384 * 16384 + x / 256 % 64 * 256 + x % 256;
  }

  lemma Octet(d: bytes, i: nat)
    requires i < |d|
    ensures HkLayout.ReadBits(d, 8 * i, 8) == d[i]
  {
    hide HkLayout.ReadBits, Top;
    InOctet(d, i, 0, 8);
    WholeOctet(d[i]);
  }

  lemma TwoOctets(d: bytes, i: nat)
    requires i + 2 <= |d|
    ensures HkLayout.ReadBits(d, 8 * i, 16) == d[i] as int * 256 + d[i + 1] as int
  {
    hide HkLayout.ReadBits, Top, Pow2;
    IntoNext(d, i, 0, 8);
    Powers();
    WholeOctet(d[i]);
    WholeOctet(d[i + 1]);
  }

  lemma OtherFields(d: bytes)
    requires |d| >= 18
    ensures HkLayout.ReadBits(d, 32, 16) == d[4] as int * 256 + d[5] as int
    ensures HkLayout.ReadBits(d, 48, 8) == d[6] && HkLayout.ReadBits(d, 56, 8) == d[7]
    ensures HkLayout.ReadBits(d, 64, 8) == d[8]
    ensures HkLayout.ReadBits(d, 72, 16) == d[9] as int * 256 + d[10] as int
    ensures HkLayout.ReadBits(d, 88, 16) == d[11] as int * 256 + d[12] as int
    ensures HkLayout.ReadBits(d, 104, 32)
         == (d[13] as int * 256 + d[14] as int) * 65536 + (d[15] as int * 256 + d[16] as int)
    ensures HkLayout.ReadBits(d, 136, 8) == d[17]
  {
    hide HkLayout.ReadBits;
    TwoOctets(d, 4);
    Octet(d, 6);
    Octet(d, 7);
    Octet(d, 8);
    TwoOctets(d, 9);
    TwoOctets(d, 11);
    FourOctets(d, 13);
    Octet(d, 17);
  }
}
