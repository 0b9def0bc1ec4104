/** PUS service 6, memory management: region access control and the three TCs of `src/pus/s6.c`. */
module MemoryModel {
  import opened Bytes
  import BitString
  import Crc16
  import TmPacket
  import Verification

  const LOAD_MIN_LEN := 6
  const CHECK_LEN := 9
  const DUMP_LEN := 7
  /** Data octets of one TM(6,6): 1024 - 6 - (11 + 5). */
  const MAX_DUMP_DATA := 1002

  type Verify = Verification.Reporter
  type Tc = Verification.Tc

  datatype Access = Read | Write

  /** Ground addresses from start, size octets long, backed by local memory from base. */
  datatype Region = Region(start: u32, size: u32, base: nat, readable: bool, writable: bool) {
    predicate Grants(a: Access) {
      if a.Read? then readable else writable
    }

    /** The whole range [addr, addr + len) lies inside. */
    predicate Contains(addr: u32, len: u16) {
      start <= addr && addr as int + len <= start as int + size
    }

    function Local(addr: u32): int {
      base + addr - start
    }
  }

  /** `s6_resolve`, with its 32-bit differences: the local address of a range, or None. */
  function Resolve(rs: seq<Region>, addr: u32, len: u16, a: Access): Option<nat> {
    if rs == [] then None
    else
      var r := rs[0];
      if r.Grants(a) && addr >= r.start && addr - r.start <= r.size && len as int <= r.size - (addr - r.start)
      then Some(r.base + (addr - r.start))
      else Resolve(rs[1..], addr, len, a)
  }

  /** A range resolves exactly when some region grants the access and holds all of it; then to the
      first such region. */
  lemma {:induction false} ResolveExact(rs: seq<Region>, addr: u32, len: u16, a: Access)
    ensures Resolve(rs, addr, len, a).Some? <==>
      exists i :: 0 <= i < |rs| && rs[i].Grants(a) && rs[i].Contains(addr, len)
    ensures Resolve(rs, addr, len, a).Some? ==>
      exists i :: 0 <= i < |rs| && rs[i].Grants(a) && rs[i].Contains(addr, len)
                  && Resolve(rs, addr, len, a).value == rs[i].Local(addr)
  {
    if rs != [] {
      ResolveExact(rs[1..], addr, len, a);
      if rs[0].Grants(a) && rs[0].Contains(addr, len) {
        assert Resolve(rs, addr, len, a) == Some(rs[0].base + (addr - rs[0].start));
      } else {
        forall i | 0 <= i < |rs| && rs[i].Grants(a) && rs[i].Contains(addr, len) ensures rs[1..][i - 1] == rs[i] {
        }
        if Resolve(rs, addr, len, a).Some? {
          var j :| 0 <= j < |rs| - 1 && rs[1..][j].Grants(a) && rs[1..][j].Contains(addr, len)
                   && Resolve(rs, addr, len, a).value == rs[1..][j].Local(addr);
          assert rs[1..][j] == rs[j + 1];
        }
      }
    }
  }

  /** Regions are backed by memory that exists. */
  ghost predicate Backed(rs: seq<Region>, size: nat) {
    forall i | 0 <= i < |rs| :: rs[i].base + rs[i].size <= size
  }

  lemma ResolveBacked(rs: seq<Region>, size: nat, addr: u32, len: u16, a: Access)
    requires Backed(rs, size) && Resolve(rs, addr, len, a).Some?
    ensures Resolve(rs, addr, len, a).value + len <= size
  {
    ResolveExact(rs, addr, len, a);
  }

  /** Local memory and the header fields of the service's reports. */
  datatype Mem = Mem(data: bytes, apid: u16, msgCounter: u16, timestamp: u32) {
    function Report(v: Verify, subservice: u8, app: bytes): (Mem, Verify) {
      (this.(msgCounter := Next16(msgCounter)),
       v.(down := v.down.Offer(TmPacket.Packet(apid, msgCounter, 6, subservice, msgCounter, 0, timestamp, app))))
    }
  }

  function Slice(d: bytes, at: nat, len: nat): (r: bytes) {
    if at + len <= |d| then d[at..at + len] else []
  }

  function Overwrite(d: bytes, at: nat, s: bytes): (r: bytes)
    ensures |r| == |d|
  {
    if at + |s| <= |d| then d[..at] + s + d[at + |s|..] else d
  }

  /** TC(6,2). */
  function Load(rs: seq<Region>, m: Mem, v: Verify, tc: Tc): (Mem, Verify, bool) {
    var u := tc.userData;
    if |u| < LOAD_MIN_LEN || LOAD_MIN_LEN + Be16(u[4..]) > |u| then
      (m, v.Reject(tc, Verification.FAIL_ILLEGAL_APP_DATA), false)
    else
      match Resolve(rs, Be32(u), Be16(u[4..]), Write)
      case None => (m, v.Reject(tc, Verification.FAIL_MEM_ACCESS), false)
      case Some(at) =>
        (m.(data := Overwrite(m.data, at, u[6..6 + Be16(u[4..])])), v.Accept(tc).Complete(tc), true)
  }

  /** TC(6,5): TM(6,10) if the CRC of the range is the expected one, else TM(6,11) with the actual. */
  function Check(rs: seq<Region>, m: Mem, v: Verify, tc: Tc): (Mem, Verify, bool) {
    var u := tc.userData;
    if |u| < CHECK_LEN then (m, v.Reject(tc, Verification.FAIL_ILLEGAL_APP_DATA), false)
    else
      match Resolve(rs, Be32(u), Be16(u[4..]), Read)
      case None => (m, v.Reject(tc, Verification.FAIL_MEM_ACCESS), false)
      case Some(at) =>
        var actual := Crc16.CrcBits(Slice(m.data, at, Be16(u[4..])));
        if actual == BitString.Bits(u[7..9]) then
          var (m1, v1) := m.Report(v.Accept(tc), 10, u[..6]);
          (m1, v1.Complete(tc), true)
        else
          var (m1, v1) := m.Report(v.Accept(tc), 11, u[..6] + Crc16.Field(actual));
          (m1, v1.Fail(tc, Verification.FAIL_EXEC_ERROR), false)
  }

  /** TC(6,9): TM(6,6) carries the address, the memory identifier and the octets of the range. */
  function Dump(rs: seq<Region>, m: Mem, v: Verify, tc: Tc): (Mem, Verify, bool) {
    var u := tc.userData;
    if |u| < DUMP_LEN || Be16(u[4..]) > MAX_DUMP_DATA then
      (m, v.Reject(tc, Verification.FAIL_ILLEGAL_APP_DATA), false)
    else
      match Resolve(rs, Be32(u), Be16(u[4..]), Read)
      case None => (m, v.Reject(tc, Verification.FAIL_MEM_ACCESS), false)
      case Some(at) =>
        var (m1, v1) := m.Report(v.Accept(tc), 6, Enc32(Be32(u)) + [u[6]] + Slice(m.data, at, Be16(u[4..])));
        (m1, v1.Complete(tc), true)
  }

  // ----- Load, then read back -----------------------------------------------------------------

  /** No ground address belongs to two regions. */
  ghost predicate Disjoint(rs: seq<Region>) {
    forall i, j | 0 <= i < j < |rs| ::
      rs[i].start as int + rs[i].size <= rs[j].start || rs[j].start as int + rs[j].size <= rs[i].start
  }

  /** Every writable region may also be read. */
  ghost predicate WritableReadable(rs: seq<Region>) {
    forall i | 0 <= i < |rs| :: rs[i].writable ==> rs[i].readable
  }

  /** A range that may be written resolves, for reading, to the same local address. */
  lemma ReadsWhereWritten(rs: seq<Region>, addr: u32, len: u16)
    requires Disjoint(rs) && WritableReadable(rs) && len > 0
    requires Resolve(rs, addr, len, Write).Some?
    ensures Resolve(rs, addr, len, Read) == Resolve(rs, addr, len, Write)
  {
    ResolveExact(rs, addr, len, Write);
    ResolveExact(rs, addr, len, Read);
    var i :| 0 <= i < |rs| && rs[i].Grants(Write) && rs[i].Contains(addr, len)
             && Resolve(rs, addr, len, Write).value == rs[i].Local(addr);
    assert rs[i].Grants(Read);
    var j :| 0 <= j < |rs| && rs[j].Grants(Read) && rs[j].Contains(addr, len)
             && Resolve(rs, addr, len, Read).value == rs[j].Local(addr);
  }

  /** What a read finds in a range just written, at whatever region it resolves. */
  lemma ReadsBack(rs: seq<Region>, d: bytes, addr: u32, s: bytes)
    requires Disjoint(rs) && WritableReadable(rs) && Backed(rs, |d|) && |s| < U16
    requires Resolve(rs, addr, |s|, Write).Some?
    ensures Resolve(rs, addr, |s|, Read).Some?
    ensures Slice(Overwrite(d, Resolve(rs, addr, |s|, Write).value, s), Resolve(rs, addr, |s|, Read).value, |s|) == s
  {
    var at := Resolve(rs, addr, |s|, Write).value;
    ResolveBacked(rs, |d|, addr, |s|, Write);
    if s == [] {
      ResolveExact(rs, addr, 0, Write);
      ResolveExact(rs, addr, 0, Read);
      var i :| 0 <= i < |rs| && rs[i].Grants(Write) && rs[i].Contains(addr, 0);
      assert rs[i].Grants(Read);
    } else {
      ReadsWhereWritten(rs, addr, |s|);
      SliceOfOverwrite(d, at, s);
    }
  }

  /** A load changes the named range and no other octet of memory. */
  lemma LoadChangesOnlyRange(d: bytes, at: nat, s: bytes, k: nat)
    requires at + |s| <= |d| && k < |d|
    ensures Overwrite(d, at, s)[k] == if at <= k < at + |s| then s[k - at] else d[k]
  {
  }

  lemma SliceOfOverwrite(d: bytes, at: nat, s: bytes)
    requires at + |s| <= |d|
    ensures Slice(Overwrite(d, at, s), at, |s|) == s
  {
  }

  /** The data of a well-formed TC(6,2). */
  function Loaded(tc: Tc): bytes
    requires |tc.userData| >= LOAD_MIN_LEN && LOAD_MIN_LEN + Be16(tc.userData[4..]) <= |tc.userData|
  {
    tc.userData[6..6 + Be16(tc.userData[4..])]
  }

  /** After a successful load, dumping the same range succeeds, reports exactly the loaded octets and
      changes no memory. */
  lemma LoadThenDump(rs: seq<Region>, m: Mem, v: Verify, load: Tc, dump: Tc, w: Verify)
    requires Disjoint(rs) && WritableReadable(rs) && Backed(rs, |m.data|)
    requires Load(rs, m, v, load).2 && Be16(load.userData[4..]) <= MAX_DUMP_DATA
    requires |dump.userData| >= DUMP_LEN && dump.userData[..6] == load.userData[..6]
    ensures var m1 := Load(rs, m, v, load).0;
      var (m2, w2, ok) := Dump(rs, m1, w, dump);
      && ok && m2.data == m1.data
      && (m2, w2) == (var (x, y) := m1.Report(w.Accept(dump), 6,
                        load.userData[..4] + [dump.userData[6]] + Loaded(load)); (x, y.Complete(dump)))
  {
    var u, t := load.userData, dump.userData;
    SameHead(u, t);
    ReadsBack(rs, m.data, Be32(u), Loaded(load));
    ReEncode(t);
  }

  lemma SameHead(u: bytes, t: bytes)
    requires |u| >= 6 && |t| >= 6 && t[..6] == u[..6]
    ensures Be32(u) == Be32(t) && Be16(u[4..]) == Be16(t[4..]) && u[..4] == t[..4]
  {
    assert forall i | 0 <= i < 6 :: u[i] == u[..6][i] && t[i] == t[..6][i];
  }

  lemma ReEncode(t: bytes)
    requires |t| >= 4
    ensures Enc32(Be32(t)) == t[..4]
  {
    var hi: int, lo: int := Be16(t), Be16(t[2..]);
    assert (hi * U16 + lo) / U16 == hi && (hi * U16 + lo) % U16 == lo;
    ReEncode16(t);
    ReEncode16(t[2..]);
    assert t[..4] == t[..2] + t[2..][..2];
  }

  lemma ReEncode16(t: bytes)
    requires |t| >= 2
    ensures Enc16(Be16(t)) == t[..2]
  {
  }

  /** After a successful load, checking the same range against the CRC of the loaded octets reports
      success. */
  lemma LoadThenCheck(rs: seq<Region>, m: Mem, v: Verify, load: Tc, check: Tc, w: Verify)
    requires Disjoint(rs) && WritableReadable(rs) && Backed(rs, |m.data|)
    requires Load(rs, m, v, load).2
    requires |check.userData| >= CHECK_LEN && check.userData[..6] == load.userData[..6]
    requires check.userData[7..9] == Crc16.Field(Crc16.CrcBits(Loaded(load)))
    ensures var (m2, w2, ok) := Check(rs, Load(rs, m, v, load).0, w, check);
      ok && m2.data == Load(rs, m, v, load).0.data
  {
    var u, t := load.userData, check.userData;
    SameHead(u, t);
    ReadsBack(rs, m.data, Be32(u), Loaded(load));
  }
}
