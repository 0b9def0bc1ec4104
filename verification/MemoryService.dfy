/** The handlers of `src/pus/s6.c`, proved against `MemoryModel`. */
module MemoryService {
  import opened Bytes
  import opened MemoryModel
  import BitString
  import Crc16
  import PusTm
  import TmPacket
  import Verification

  class S6 {
    const s1: Verification.S1
    const apid: u16
    var msgCounter: u16
    var timestamp: u32
    const regions: seq<Region>
    /** The local memory regions map to. */
    const mem: array<u8>

    ghost predicate Valid()
      reads this, s1, s1.store, s1.store.slots
    {
      s1.store.Valid() && Backed(regions, mem.Length)
    }

    ghost function View(): Mem
      reads this, mem
    {
      Mem(mem[..], apid, msgCounter, timestamp)
    }

    constructor (s1: Verification.S1, apid: u16, regions: seq<Region>, mem: array<u8>)
      requires s1.store.Valid() && Backed(regions, mem.Length)
      ensures Valid() && this.s1 == s1 && this.regions == regions && this.mem == mem
    {
      this.s1, this.apid, this.regions, this.mem := s1, apid, regions, mem;
      msgCounter, timestamp := 0, 0;
    }

    /** `s6_resolve`: a scan of the region table. */
    method ResolveRange(addr: u32, len: u16, a: Access) returns (p: Option<nat>)
      requires Backed(regions, mem.Length)
      ensures p == Resolve(regions, addr, len, a)
      ensures p.Some? ==> p.value + len <= mem.Length
    {
      for i := 0 to |regions|
        invariant Resolve(regions, addr, len, a) == Resolve(regions[i..], addr, len, a)
      {
        var r := regions[i];
        assert regions[i..][1..] == regions[i + 1..];
        if !r.Grants(a) || addr < r.start {
          continue;
        }
        var off := addr - r.start;
        if off > r.size || len as int > r.size - off {
          continue;
        }
        return Some(r.base + off);
      }
      return None;
    }

    /** A service 6 report. */
    method Report(subservice: u8, app: bytes)
      requires Valid() && |app| <= TmPacket.NO_WRAP_LEN
      modifies this`msgCounter, s1.store, s1.store.slots
      ensures Valid() && (View(), s1.View()) == old(View()).Report(old(s1.View()), subservice, app)
    {
      var seqCount := msgCounter;
      msgCounter := Next16(msgCounter);
      var _ := PusTm.Build(s1.store, TmPacket.Packet(apid, seqCount, 6, subservice, seqCount, 0, timestamp, app));
    }

    /** The `memcpy` of a load. */
    method CopyIn(at: nat, data: bytes)
      requires at + |data| <= mem.Length
      modifies mem
      ensures mem[..] == Overwrite(old(mem[..]), at, data)
    {
      forall i | 0 <= i < |data| {
        mem[at + i] := data[i];
      }
    }

    /** `obsw_s6_load`, TC(6,2). */
    method Load(tc: Tc) returns (rc: int)
      requires Valid()
      modifies mem, s1, s1.store, s1.store.slots
      ensures Valid()
      ensures (View(), s1.View(), rc == 0) == MemoryModel.Load(regions, old(View()), old(s1.View()), tc)
    {
      var u := tc.userData;
      if |u| < LOAD_MIN_LEN || LOAD_MIN_LEN + Be16(u[4..]) > |u| {
        s1.AcceptFailure(tc, Verification.FAIL_ILLEGAL_APP_DATA);
        return -1;
      }
      var dst := ResolveRange(Be32(u), Be16(u[4..]), Write);
      if dst.None? {
        s1.AcceptFailure(tc, Verification.FAIL_MEM_ACCESS);
        return -1;
      }
      s1.AcceptSuccess(tc);
      CopyIn(dst.value, u[6..6 + Be16(u[4..])]);
      s1.CompletionSuccess(tc);
      return 0;
    }

    /** `obsw_s6_check`, TC(6,5). */
    method Check(tc: Tc) returns (rc: int)
      requires Valid()
      modifies this`msgCounter, s1, s1.store, s1.store.slots
      ensures Valid()
      ensures (View(), s1.View(), rc == 0) == MemoryModel.Check(regions, old(View()), old(s1.View()), tc)
    {
      hide Verification.Reporter.Report, Verification.TcRef, PusTm.Downlink.Offer, MemoryModel.Resolve;
      hide Crc16.CrcBits, Crc16.Field;
      var u := tc.userData;
      if |u| < CHECK_LEN {
        s1.AcceptFailure(tc, Verification.FAIL_ILLEGAL_APP_DATA);
        return -1;
      }
      var src := ResolveRange(Be32(u), Be16(u[4..]), Read);
      if src.None? {
        s1.AcceptFailure(tc, Verification.FAIL_MEM_ACCESS);
        return -1;
      }
      s1.AcceptSuccess(tc);
      var actual, same := Compare(mem[src.value..src.value + Be16(u[4..])], u[7], u[8]);
      assert u[7..9] == [u[7], u[8]];
      if same {
        Report(10, u[..6]);
        s1.CompletionSuccess(tc);
        return 0;
      } else {
        Report(11, u[..6] + Crc16.WordOctets(actual));
        s1.CompletionFailure(tc, Verification.FAIL_EXEC_ERROR);
        return -1;
      }
    }

    /** The CRC of a range against the expected value of the TC. */
    method Compare(data: bytes, hi: u8, lo: u8) returns (actual: bv16, same: bool)
      ensures Crc16.Word(actual) == Crc16.CrcBits(data)
      ensures same <==> Crc16.CrcBits(data) == BitString.Bits([hi, lo])
    {
      actual := Crc16.Crc16Ccitt(data);
      var expected := ((hi as bv16) << 8) | (lo as bv16);
      Crc16.WordOfField(hi, lo);
      Crc16.WordInjective(actual, expected);
      same := actual == expected;
    }

    /** The data field of a TM(6,6). */
    method DumpData(addr: u32, memId: u8, at: nat, len: u16) returns (data: bytes)
      requires at + len <= mem.Length
      ensures data == Enc32(addr) + [memId] + Slice(mem[..], at, len)
    {
      data := Enc32(addr) + [memId] + mem[at..at + len];
      assert mem[at..at + len] == mem[..][at..at + len];
    }

    /** `obsw_s6_dump`, TC(6,9). */
    method Dump(tc: Tc) returns (rc: int)
      requires Valid()
      modifies this`msgCounter, s1, s1.store, s1.store.slots
      ensures Valid()
      ensures (View(), s1.View(), rc == 0) == MemoryModel.Dump(regions, old(View()), old(s1.View()), tc)
    {
      var u := tc.userData;
      if |u| < DUMP_LEN || Be16(u[4..]) > MAX_DUMP_DATA {
        s1.AcceptFailure(tc, Verification.FAIL_ILLEGAL_APP_DATA);
        return -1;
      }
      var len := Be16(u[4..]);
      var src := ResolveRange(Be32(u), len, Read);
      if src.None? {
        s1.AcceptFailure(tc, Verification.FAIL_MEM_ACCESS);
        return -1;
      }
      s1.AcceptSuccess(tc);
      var data := DumpData(Be32(u), u[6], src.value, len);
      Report(6, data);
      s1.CompletionSuccess(tc);
      return 0;
    }
  }
}
