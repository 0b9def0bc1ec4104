/** How the dispatcher reads a telecommand: the parsing parts of `src/tc/dispatcher.c`. */
module TcPacket {
  import opened Bytes
  import SpacePacket
  import Verification

  /** PUS_TC_SEC_HDR_LEN. */
  const SEC_HDR_LEN := 5

  /** `obsw_tc_packet_check`: the service of a complete PUS TC packet, for services that store TCs. */
  function Check(pkt: bytes): Option<u8> {
    match SpacePacket.Parse(pkt)
    case Parsed(h, q) =>
      if h.kind == SpacePacket.TYPE_TC && h.secHdr != 0 && |q| >= SEC_HDR_LEN then Some(q[1]) else None
    case _ => None
  }

  /** The telecommand `obsw_tc_dispatcher_feed` extracts, or None where it returns a parse error. */
  function Extract(frame: bytes): Option<Verification.Tc> {
    match SpacePacket.Parse(frame)
    case Parsed(h, q) =>
      if h.secHdr == 0 || |q| < SEC_HDR_LEN then None
      else Some(Verification.Tc(h.apid, q[1], q[2], h.seqCount, q[SEC_HDR_LEN..]))
    case _ => None
  }

  /** What was checked at storage time is what dispatch finds: the packet parses, to that service. */
  lemma CheckedExtracts(pkt: bytes)
    requires Check(pkt).Some?
    ensures Extract(pkt).Some? && Extract(pkt).value.service == Check(pkt).value
  {
  }

  /** The reference in every service 1 report is the first four octets of the telecommand, for any
      unsegmented TC packet: ground can match reports to what it sent. */
  lemma ReferenceIsHeader(pkt: bytes)
    requires Check(pkt).Some? && SpacePacket.Decode(pkt).seqFlags == SpacePacket.SEQ_UNSEGMENTED
    ensures Verification.TcRef(Extract(pkt).value) == pkt[..4]
  {
    var h := SpacePacket.Decode(pkt);
    SpacePacket.EncodeDecode(pkt[..6]);
    assert SpacePacket.Decode(pkt[..6]) == h;
    var e := SpacePacket.Encode(h);
    assert e == pkt[..6];
    assert pkt[..4] == [e[0], e[1], e[2], e[3]];
    var tc := Extract(pkt).value;
    RefOctets(h);
    assert Verification.TcRef(tc) == [e[0], e[1], e[2], e[3]];
  }

  lemma RefOctets(h: SpacePacket.Header)
    requires h.InRange() && h.version == 0 && h.kind == 1 && h.secHdr == 1 && h.seqFlags == 3
    ensures Enc16(0x1800 + h.apid % 0x800) == [SpacePacket.IdOctet(h), h.apid % 256]
    ensures Enc16(0xC000 + h.seqCount % 0x4000) == [SpacePacket.SeqOctet(h), h.seqCount % 256]
  {
    Above(0x18, h.apid);
    Above(0xC0, h.seqCount);
  }

  lemma Above(k: nat, x: nat)
    ensures (k * 256 + x) / 256 == k + x / 256 && (k * 256 + x) % 256 == x % 256
  {
  }
}
