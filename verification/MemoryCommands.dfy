/** What the telecommands of service 6 do, from their octets to memory and back (`src/pus/s6.c`). */
module MemoryCommands {
  import opened Bytes
  import opened Executive
  import opened Uplink
  import BitString
  import Crc16
  import M = MemoryModel
  import TmPacket
  import Verification

  /** The region grants the access and holds the octets from addr to addr + len. */
  predicate Holds(r: M.Region, addr: u32, len: u16, write: bool) {
    (if write then r.writable else r.readable) && r.start <= addr && addr as int + len as int <= r.start as int + r.size
  }

  predicate NoRegion(rs: seq<M.Region>, addr: u32, len: u16, write: bool) {
    forall i | 0 <= i < |rs| :: !Holds(rs[i], addr, len, write)
  }

  predicate FirstRegion(rs: seq<M.Region>, addr: u32, len: u16, write: bool, i: nat) {
    i < |rs| && Holds(rs[i], addr, len, write) && forall j | 0 <= j < i :: !Holds(rs[j], addr, len, write)
  }

  lemma {:induction false} ResolvedFirst(rs: seq<M.Region>, addr: u32, len: u16, write: bool, i: nat)
    requires FirstRegion(rs, addr, len, write, i)
    ensures M.Resolve(rs, addr, len, if write then M.Write else M.Read) == Some(rs[i].base + (addr - rs[i].start))
  {
    if i > 0 {
      assert !Holds(rs[0], addr, len, write);
      assert forall j | 0 <= j < i - 1 :: rs[1..][j] == rs[j + 1];
      ResolvedFirst(rs[1..], addr, len, write, i - 1);
    }
  }

  lemma {:induction false} ResolvedNone(rs: seq<M.Region>, addr: u32, len: u16, write: bool)
    requires NoRegion(rs, addr, len, write)
    ensures M.Resolve(rs, addr, len, if write then M.Write else M.Read) == None
  {
    if rs != [] {
      assert !Holds(rs[0], addr, len, write);
      assert forall j | 0 <= j < |rs| - 1 :: rs[1..][j] == rs[j + 1];
      ResolvedNone(rs[1..], addr, len, write);
    }
  }

  lemma {:induction false} SomeFirst(rs: seq<M.Region>, addr: u32, len: u16, write: bool) returns (i: nat)
    requires !NoRegion(rs, addr, len, write)
    ensures FirstRegion(rs, addr, len, write, i)
  {
    if Holds(rs[0], addr, len, write) {
      i := 0;
    } else {
      var rest := rs[1..];
      assert forall j | 0 <= j < |rest| :: rest[j] == rs[j + 1];
      var k := SomeFirst(rest, addr, len, write);
      i := k + 1;
    }
  }

  lemma OneFirst(rs: seq<M.Region>, addr: u32, len: u16, write: bool, i: nat, j: nat)
    requires FirstRegion(rs, addr, len, write, i) && FirstRegion(rs, addr, len, write, j)
    ensures i == j
  {
  }

  /** A range resolves through the first region that holds it, if there is one. */
  lemma Resolved(rs: seq<M.Region>, addr: u32, len: u16, write: bool) returns (i: nat)
    ensures var at := M.Resolve(rs, addr, len, if write then M.Write else M.Read);
      if NoRegion(rs, addr, len, write) then at.None?
      else i < |rs| && FirstRegion(rs, addr, len, write, i) && at == Some(rs[i].base + (addr - rs[i].start))
    ensures forall j: nat | FirstRegion(rs, addr, len, write, j) :: j == i && !NoRegion(rs, addr, len, write)
  {
    i := 0;
    if NoRegion(rs, addr, len, write) {
      ResolvedNone(rs, addr, len, write);
    } else {
      hide NoRegion, FirstRegion, M.Resolve;
      i := SomeFirst(rs, addr, len, write);
      ResolvedFirst(rs, addr, len, write, i);
      forall j: nat | FirstRegion(rs, addr, len, write, j) ensures j == i {
        OneFirst(rs, addr, len, write, i, j);
      }
    }
  }

  /** The local octets of a range of region i. */
  function Range(rs: seq<M.Region>, data: bytes, addr: u32, len: u16, i: nat): (r: bytes)
    requires M.Backed(rs, |data|) && i < |rs|
    requires rs[i].start <= addr && addr as int + len <= rs[i].start as int + rs[i].size
    ensures |r| == len
  {
    data[rs[i].base + addr - rs[i].start..rs[i].base + addr - rs[i].start + len]
  }

  lemma HandledMem(c: Config, o: Obsw, h: Handler, tc: Tc)
    requires h.Service() == 6
    ensures var (x, v, ok) := MemOp(c.regions, o.mem, o.s1, h, tc); Handle(c, o, h, tc) == (o.(mem := x, s1 := v), ok)
  {
    hide MemOp;
  }

  // ----- TC(6,2) ------------------------------------------------------------------------------------------

  /** Octet for octet: s from position `at`, and everything else as before. */
  ghost predicate Copied(before: bytes, after: bytes, at: int, s: bytes) {
    && |after| == |before|
    && forall k | 0 <= k < |before| :: after[k] == if at <= k < at + |s| then s[k - at] else before[k]
  }

  /** The answer to TC(6,2). */
  ghost predicate Loaded(c: Config, o: Obsw, f: (Obsw, Result), u: Uplink)
    requires u.Valid()
  {
    var d := u.data;
    if |d| < 6 || 6 + Word(d, 4) > |d| then Rejects(o, f, u, 5)
    else if NoRegion(c.regions, Long(d, 0), Word(d, 4), true) then Rejects(o, f, u, 6)
    else forall i: nat | FirstRegion(c.regions, Long(d, 0), Word(d, 4), true, i) ::
      var r := c.regions[i];
      && Copied(o.mem.data, f.0.mem.data, r.base + Long(d, 0) - r.start, d[6..6 + Word(d, 4)])
      && Completes(o, f, u, o.(mem := o.mem.(data := f.0.mem.data)), [])
  }

  lemma Load(c: Config, o: Obsw, u: Uplink)
    requires Sent(c, o, u, 6, 2) && M.Backed(c.regions, |o.mem.data|)
    ensures Loaded(c, o, Feed(c, o, u.Octets()), u)
  {
    hide Handle, Feed, Verification.Reporter.Report, Verification.TcRef, Done, FirstRegion, Copied, M.Resolve, Refused;
    hide M.Overwrite, M.Backed, NoRegion;
    FedTo(c, o, u, 6, 2);
    HandledMem(c, o, MemLoad, u.Tc());
    var o' := Feed(c, o, u.Octets()).0;
    var d := u.data;
    if |d| < 6 {
      RefusedBy(o, o', u, 5);
    } else {
      Fields(d);
      var addr, len := Long(d, 0), Word(d, 4);
      var i := Resolved(c.regions, addr, len, true);
      if 6 + len > |d| {
        RefusedBy(o, o', u, 5);
      } else if NoRegion(c.regions, addr, len, true) {
        RefusedBy(o, o', u, 6);
      } else {
        InMemory(c.regions, |o.mem.data|, addr, len, true, i);
        CopyIs(o.mem.data, c.regions[i].base + (addr - c.regions[i].start), d[6..6 + len]);
        DoneBy(o, o', u);
      }
    }
  }

  /** Address and length are where the code reads them. */
  lemma Fields(d: bytes)
    requires |d| >= 6
    ensures Be32(d) == Long(d, 0) && Be16(d[4..]) == Word(d, 4)
    ensures d[..4] == Enc32(Be32(d))
  {
    ReadLong(d, 0);
    ReadWord(d, 4);
    assert d[0..] == d;
    M.ReEncode(d);
  }

  lemma InMemory(rs: seq<M.Region>, size: nat, addr: u32, len: u16, write: bool, i: nat)
    requires M.Backed(rs, size) && FirstRegion(rs, addr, len, write, i)
    ensures rs[i].start <= addr && addr as int + len <= rs[i].start as int + rs[i].size
    ensures rs[i].base + (addr - rs[i].start) + len <= size
  {
  }

  lemma CopyIs(data: bytes, at: nat, s: bytes)
    requires at + |s| <= |data|
    ensures Copied(data, M.Overwrite(data, at, s), at, s)
  {
    hide M.Overwrite;
    forall k | 0 <= k < |data|
      ensures M.Overwrite(data, at, s)[k] == if at <= k < at + |s| then s[k - at] else data[k]
    {
      M.LoadChangesOnlyRange(data, at, s, k);
    }
  }

  lemma SliceIsRange(rs: seq<M.Region>, data: bytes, addr: u32, len: u16, i: nat)
    requires M.Backed(rs, |data|) && FirstRegion(rs, addr, len, false, i)
    ensures rs[i].start <= addr && addr as int + len <= rs[i].start as int + rs[i].size
    ensures M.Slice(data, rs[i].base + (addr - rs[i].start), len) == Range(rs, data, addr, len, i)
  {
  }

  // ----- TC(6,5) ------------------------------------------------------------------------------------------

  /** One report more has been made. */
  function Counted(m: M.Mem): M.Mem {
    m.(msgCounter := (m.msgCounter + 1) % 65536)
  }

  /** The answer to TC(6,5) about a range: success if the two octets at position 7 are the CRC of the range, else the
      CRC it has, and failure. */
  ghost predicate CheckedRange(o: Obsw, f: (Obsw, Result), u: Uplink, range: bytes)
    requires u.Valid() && |u.data| >= 9
  {
    var crc := Crc16.Field(Crc16.CrcBits(range));
    if u.data[7..9] == crc then Completes(o, f, u, o.(mem := Counted(o.mem)), [Tm(6, 10, u.data[..6])])
    else Fails(o, f, u, o.(mem := Counted(o.mem)), [Tm(6, 11, u.data[..6] + crc)], 4)
  }

  ghost predicate Checked(c: Config, o: Obsw, f: (Obsw, Result), u: Uplink)
    requires u.Valid() && M.Backed(c.regions, |o.mem.data|)
  {
    var d := u.data;
    if |d| < 9 then Rejects(o, f, u, 5)
    else if NoRegion(c.regions, Long(d, 0), Word(d, 4), false) then Rejects(o, f, u, 6)
    else forall i: nat | FirstRegion(c.regions, Long(d, 0), Word(d, 4), false, i) ::
      CheckedRange(o, f, u, Range(c.regions, o.mem.data, Long(d, 0), Word(d, 4), i))
  }

  lemma FieldIs(f: bytes, crc: Crc16.Reg)
    requires |f| == 2
    ensures BitString.Bits(f) == crc <==> f == Crc16.Field(crc)
  {
    if BitString.Bits(f) == crc {
      BitString.BitsInjective(f, Crc16.Field(crc));
    }
  }

  lemma CheckAnswers(c: Config, o: Obsw, f: (Obsw, Result), u: Uplink, at: nat)
    requires u.Valid() && |u.data| >= 9
    requires M.Resolve(c.regions, Be32(u.data), Be16(u.data[4..]), M.Read) == Some(at)
    requires var (x, v, ok) := M.Check(c.regions, o.mem, o.s1, u.Tc());
      f == (o.(mem := x, s1 := v), if ok then Ok else ErrHandler)
    ensures CheckedRange(o, f, u, M.Slice(o.mem.data, at, Be16(u.data[4..])))
  {
    hide Verification.Reporter.Report, Verification.TcRef, M.Resolve, Crc16.CrcBits, BitString.Bits, M.Slice;
    var d := u.data;
    var crc := Crc16.CrcBits(M.Slice(o.mem.data, at, Be16(d[4..])));
    FieldIs(d[7..9], crc);
    var a := o.s1.Accept(u.Tc());
    if d[7..9] == Crc16.Field(crc) {
      var (m, v) := o.mem.Report(a, 10, d[..6]);
      DoneWith(o, v, f.0, u, [Packet(o.mem, 10, d[..6])]);
    } else {
      var (m, v) := o.mem.Report(a, 11, d[..6] + Crc16.Field(crc));
      FailedWith(o, v, f.0, u, [Packet(o.mem, 11, d[..6] + Crc16.Field(crc))], 4);
    }
  }

  function Packet(m: M.Mem, subservice: u8, data: bytes): TmPacket.Packet {
    TmPacket.Packet(m.apid, m.msgCounter, 6, subservice, m.msgCounter, 0, m.timestamp, data)
  }

  lemma Check(c: Config, o: Obsw, u: Uplink)
    requires Sent(c, o, u, 6, 5) && M.Backed(c.regions, |o.mem.data|)
    ensures Checked(c, o, Feed(c, o, u.Octets()), u)
  {
    hide Handle, Feed, Verification.Reporter.Report, Verification.TcRef, FirstRegion, M.Resolve, Refused, Range;
    hide M.Backed, NoRegion, CheckedRange, Crc16.CrcBits, M.Slice;
    FedTo(c, o, u, 6, 5);
    HandledMem(c, o, MemCheck, u.Tc());
    var f := Feed(c, o, u.Octets());
    var d := u.data;
    if |d| < 9 {
      RefusedBy(o, f.0, u, 5);
    } else {
      Fields(d);
      var addr, len := Long(d, 0), Word(d, 4);
      var i := Resolved(c.regions, addr, len, false);
      if NoRegion(c.regions, addr, len, false) {
        RefusedBy(o, f.0, u, 6);
      } else {
        SliceIsRange(c.regions, o.mem.data, addr, len, i);
        CheckAnswers(c, o, f, u, c.regions[i].base + (addr - c.regions[i].start));
      }
    }
  }

  // ----- TC(6,9) ------------------------------------------------------------------------------------------

  /** The answer to TC(6,9): address, memory identifier and the octets of the range. */
  ghost predicate Dumped(c: Config, o: Obsw, f: (Obsw, Result), u: Uplink)
    requires u.Valid() && M.Backed(c.regions, |o.mem.data|)
  {
    var d := u.data;
    if |d| < 7 || Word(d, 4) > 1002 then Rejects(o, f, u, 5)
    else if NoRegion(c.regions, Long(d, 0), Word(d, 4), false) then Rejects(o, f, u, 6)
    else forall i: nat | FirstRegion(c.regions, Long(d, 0), Word(d, 4), false, i) ::
      var range := Range(c.regions, o.mem.data, Long(d, 0), Word(d, 4), i);
      Completes(o, f, u, o.(mem := Counted(o.mem)), [Tm(6, 6, d[..4] + [d[6]] + range)])
  }

  lemma DumpAnswers(c: Config, o: Obsw, f: (Obsw, Result), u: Uplink, at: nat)
    requires u.Valid() && |u.data| >= 7 && Be16(u.data[4..]) <= 1002
    requires M.Resolve(c.regions, Be32(u.data), Be16(u.data[4..]), M.Read) == Some(at)
    requires |M.Slice(o.mem.data, at, Be16(u.data[4..]))| <= 1002
    requires var (x, v, ok) := M.Dump(c.regions, o.mem, o.s1, u.Tc());
      f == (o.(mem := x, s1 := v), if ok then Ok else ErrHandler)
    ensures Completes(o, f, u, o.(mem := Counted(o.mem)),
      [Tm(6, 6, u.data[..4] + [u.data[6]] + M.Slice(o.mem.data, at, Be16(u.data[4..])))])
  {
    hide Verification.Reporter.Report, Verification.TcRef, M.Resolve, M.Slice;
    var d := u.data;
    Fields(d);
    var data := d[..4] + [d[6]] + M.Slice(o.mem.data, at, Be16(d[4..]));
    var (m, v) := o.mem.Report(o.s1.Accept(u.Tc()), 6, data);
    DoneWith(o, v, f.0, u, [Packet(o.mem, 6, data)]);
  }

  lemma Dump(c: Config, o: Obsw, u: Uplink)
    requires Sent(c, o, u, 6, 9) && M.Backed(c.regions, |o.mem.data|)
    ensures Dumped(c, o, Feed(c, o, u.Octets()), u)
  {
    hide Handle, Feed, Verification.Reporter.Report, Verification.TcRef, FirstRegion, M.Resolve, Refused, Range;
    hide M.Backed, NoRegion, Completes, M.Slice;
    FedTo(c, o, u, 6, 9);
    HandledMem(c, o, MemDump, u.Tc());
    var f := Feed(c, o, u.Octets());
    var d := u.data;
    if |d| < 7 {
      RefusedBy(o, f.0, u, 5);
    } else {
      Fields(d);
      var addr, len := Long(d, 0), Word(d, 4);
      var i := Resolved(c.regions, addr, len, false);
      if len > 1002 {
        RefusedBy(o, f.0, u, 5);
      } else if NoRegion(c.regions, addr, len, false) {
        RefusedBy(o, f.0, u, 6);
      } else {
        SliceIsRange(c.regions, o.mem.data, addr, len, i);
        DumpAnswers(c, o, f, u, c.regions[i].base + (addr - c.regions[i].start));
      }
    }
  }
}
