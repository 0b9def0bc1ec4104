/**
  Telecommands as ground encodes them, octet by octet, and where the simulation's dispatcher takes them
  (section 7.4.4 of ECSS-E-ST-70-41C; `src/tc/dispatcher.c`, `sim/main.c`).
  */
module Uplink {
  import opened Bytes
  import opened Executive
  import Dispatcher
  import Fsm
  import SimTarget
  import SpacePacket
  import TcPacket
  import TmPacket
  import Verification

  // ----- Octets -----------------------------------------------------------------------------------------

  /** An unsegmented telecommand. The source identifier and the acknowledgement flags are not looked at. */
  datatype Uplink = Uplink(
    apid: u16, seqCount: u16, flags: u8, service: u8, subservice: u8, source: u16, data: bytes)
  {
    predicate Valid() {
      apid < 0x800 && seqCount < 0x4000 && |data| <= 65530
    }

    /** The four octets every report about it repeats. */
    function Ref(): (r: bytes)
      requires Valid()
      ensures |r| == 4
    {
      [0x18 + apid / 256, apid % 256, 0xC0 + seqCount / 256, seqCount % 256]
    }

    function Octets(): (r: bytes)
      requires Valid()
    {
      Ref() + [(|data| + 4) / 256, (|data| + 4) % 256] + [flags, service, subservice, source / 256, source % 256] + data
    }

    function Tc(): Verification.Tc {
      Verification.Tc(apid, service, subservice, seqCount, data)
    }
  }

  /** The integers at octet k of some data, most significant octet first. */
  function Word(d: bytes, k: nat): u16
    requires k + 2 <= |d|
  {
    d[k] as int * 256 + d[k + 1] as int
  }

  function Long(d: bytes, k: nat): u32
    requires k + 4 <= |d|
  {
    d[k] as int * 0x100_0000 + d[k + 1] as int * 0x1_0000 + d[k + 2] as int * 256 + d[k + 3] as int
  }

  function WordOctets(v: u16): (r: bytes)
    ensures |r| == 2
  {
    [v / 256, v % 256]
  }

  function LongOctets(v: u32): (r: bytes)
    ensures |r| == 4
  {
    [v / 0x100_0000, v / 0x1_0000 % 256, v / 256 % 256, v % 256]
  }

  /** They are what the code reads and writes. */
  lemma ReadWord(d: bytes, k: nat)
    requires k + 2 <= |d|
    ensures Be16(d[k..]) == Word(d, k)
  {
  }

  lemma ReadLong(d: bytes, k: nat)
    requires k + 4 <= |d|
    ensures Be32(d[k..]) == Long(d, k)
  {
    ReadWord(d, k);
    assert d[k..][2..] == d[k + 2..];
    ReadWord(d, k + 2);
  }

  lemma WrittenWord(v: u16)
    ensures Enc16(v) == WordOctets(v)
  {
  }

  lemma WrittenLong(v: u32)
    ensures Enc32(v) == LongOctets(v)
  {
    hide Enc16;
    var hi: u16, lo: u16 := v / U16, v % U16;
    LongParts(v);
    WrittenWord(hi);
    WrittenWord(lo);
    assert Enc32(v) == Enc16(hi) + Enc16(lo);
  }

  lemma LongParts(v: u32)
    ensures v / U16 / 256 == v / 0x100_0000 && v / U16 % 256 == v / 0x1_0000 % 256
    ensures v % U16 / 256 == v / 256 % 256 && v % U16 % 256 == v % 256
  {
    Quotients(v);
    var x: nat, y: nat := v / 256 % 256, v % 256;
    LowPart(v, v / 256, x, y);
    Pair(x, y);
  }

  lemma Quotients(v: nat)
    ensures v / 0x1_0000 / 256 == v / 0x100_0000
  {
  }

  lemma LowPart(v: nat, q: nat, x: nat, y: nat)
    requires v == q * 256 + y && y < 256 && x == q % 256
    ensures v % 0x1_0000 == x * 256 + y
  {
    assert q == q / 256 * 256 + x;
    assert v == q / 256 * 0x1_0000 + (x * 256 + y);
  }

  lemma Pair(x: nat, y: nat)
    requires x < 256 && y < 256
    ensures (x * 256 + y) / 256 == x && (x * 256 + y) % 256 == y
  {
  }

  /** The length field of a packet, and the octets behind the primary header it announces. */
  function Announced(b: bytes): nat
    requires |b| >= 6
  {
    b[4] as int * 256 + b[5] as int + 1
  }

  /** A packet the dispatcher reads: version 0, complete, with a secondary header of five octets. The one length
      that does not fit 16 bits counts as none. */
  predicate Readable(b: bytes) {
    && |b| >= 6 && b[0] < 32 && |b| >= 6 + Announced(b)
    && b[0] / 8 % 2 == 1 && 5 <= Announced(b) < 65536
  }

  /** What is read where. */
  lemma ExtractedFields(b: bytes)
    ensures TcPacket.Extract(b).Some? <==> Readable(b)
    ensures Readable(b) ==> TcPacket.Extract(b).value == Verification.Tc(
      b[0] as int % 8 * 256 + b[1] as int, b[7], b[8], b[2] as int % 64 * 256 + b[3] as int, b[11..6 + Announced(b)])
  {
    if Readable(b) {
      var n := Announced(b);
      var q := b[6..6 + n];
      assert q[1] == b[7] && q[2] == b[8] && q[5..] == b[11..6 + n];
    }
  }

  lemma HeadOctets(apid: u16, seqCount: u16)
    requires apid < 0x800 && seqCount < 0x4000
    ensures var b0: int, b2: int := 0x18 + apid / 256, 0xC0 + seqCount / 256;
      && b0 < 32 && b0 / 8 % 2 == 1 && b0 % 8 * 256 + apid % 256 == apid && b2 % 64 * 256 + seqCount % 256 == seqCount
  {
    SpacePacket.Join(apid);
    SpacePacket.Join(seqCount);
  }

  /** Every telecommand is read back as it was encoded, whatever follows it in the buffer. */
  lemma RoundTrip(u: Uplink, rest: bytes)
    requires u.Valid()
    ensures TcPacket.Extract(u.Octets() + rest) == Some(u.Tc())
  {
    var b := u.Octets() + rest;
    HeadOctets(u.apid, u.seqCount);
    SpacePacket.Join(|u.data| + 4);
    assert b[0] == 0x18 + u.apid / 256 && b[1] == u.apid % 256;
    assert b[2] == 0xC0 + u.seqCount / 256 && b[3] == u.seqCount % 256;
    assert b[4] == (|u.data| + 4) / 256 && b[5] == (|u.data| + 4) % 256;
    assert b[7] == u.service && b[8] == u.subservice;
    assert b[11..11 + |u.data|] == u.data;
    ExtractedFields(b);
  }

  /** The reference of its reports is its own first four octets. */
  lemma RefIsOwn(u: Uplink)
    requires u.Valid()
    ensures Verification.TcRef(u.Tc()) == u.Ref()
  {
  }

  // ----- Routes -------------------------------------------------------------------------------------------

  /** What the simulation has for each pair of service and subservice. */
  function HandlerOf(service: u8, subservice: u8): Option<Handler> {
    match (service, subservice)
    case (3, 1) => Some(HkDefine)
    case (3, 3) => Some(HkDelete)
    case (3, 5) => Some(HkEnable)
    case (3, 6) => Some(HkDisable)
    case (6, 2) => Some(MemLoad)
    case (6, 5) => Some(MemCheck)
    case (6, 9) => Some(MemDump)
    case (8, 1) => Some(Perform)
    case (9, 128) => Some(SetObt)
    case (11, 4) => Some(SchedInsert)
    case (11, 5) => Some(SchedDelete)
    case (11, 6) => Some(SchedDeleteAll)
    case (11, 17) => Some(SchedEnable)
    case (11, 18) => Some(SchedDisable)
    case (12, 1) => Some(MonEnable)
    case (12, 2) => Some(MonDisable)
    case (12, 3) => Some(MonAdd)
    case (12, 4) => Some(MonDelete)
    case (12, 5) => Some(MonDeleteAll)
    case (17, 1) => Some(Ping)
    case (19, 1) => Some(ActAdd)
    case (19, 2) => Some(ActDelete)
    case (19, 3) => Some(ActDeleteAll)
    case (19, 4) => Some(ActEnable)
    case (19, 5) => Some(ActDisable)
    case (20, 1) => Some(SetParam)
    case (20, 3) => Some(GetParam)
    case _ => None
  }

  predicate Served(service: u8) {
    service in {3, 6, 8, 9, 11, 12, 17, 19, 20}
  }

  ghost predicate RouteAgrees(i: nat)
    requires i < |SimTarget.ROUTES|
  {
    var r := SimTarget.ROUTES[i];
    r.apid == 0xFFFF && HandlerOf(r.service, r.subservice) == Some(r.handler) && Served(r.service)
  }

  lemma FirstRoutesAgree()
    ensures forall i | 0 <= i < 9 :: RouteAgrees(i)
  {
  }

  lemma MiddleRoutesAgree()
    ensures forall i | 9 <= i < 18 :: RouteAgrees(i)
  {
  }

  lemma LastRoutesAgree()
    ensures forall i | 18 <= i < |SimTarget.ROUTES| :: RouteAgrees(i)
  {
  }

  lemma RoutesAgree(i: nat)
    requires i < |SimTarget.ROUTES|
    ensures RouteAgrees(i)
  {
    hide RouteAgrees;
    FirstRoutesAgree();
    MiddleRoutesAgree();
    LastRoutesAgree();
  }

  /** Where a handler's route is in the table. */
  function RouteIndex(h: Handler): (i: nat)
    ensures i < |SimTarget.ROUTES|
  {
    match h
    case Ping => 0 case Perform => 1 case HkDefine => 2 case HkDelete => 3 case HkEnable => 4 case HkDisable => 5
    case SetParam => 6 case GetParam => 7 case SetObt => 8 case MemLoad => 9 case MemCheck => 10 case MemDump => 11
    case MonEnable => 12 case MonDisable => 13 case MonAdd => 14 case MonDelete => 15 case MonDeleteAll => 16
    case SchedInsert => 17 case SchedDelete => 18 case SchedDeleteAll => 19 case SchedEnable => 20
    case SchedDisable => 21 case ActAdd => 22 case ActDelete => 23 case ActDeleteAll => 24 case ActEnable => 25
    case ActDisable => 26
  }

  ghost predicate HasRoute(service: u8, subservice: u8)
    requires HandlerOf(service, subservice).Some?
  {
    var r := SimTarget.ROUTES[RouteIndex(HandlerOf(service, subservice).value)];
    r.apid == 0xFFFF && r.service == service && r.subservice == subservice
  }

  lemma FirstHas(service: u8, subservice: u8)
    requires HandlerOf(service, subservice).Some? && service in {3, 8, 17, 20}
    ensures HasRoute(service, subservice)
  {
  }

  lemma MiddleHas(service: u8, subservice: u8)
    requires HandlerOf(service, subservice).Some? && service in {6, 9, 12}
    ensures HasRoute(service, subservice)
  {
  }

  lemma LastHas(service: u8, subservice: u8)
    requires HandlerOf(service, subservice).Some? && service in {11, 19}
    ensures HasRoute(service, subservice)
  {
  }

  lemma HandledServed(service: u8, subservice: u8)
    requires HandlerOf(service, subservice).Some?
    ensures Served(service)
  {
  }

  lemma RouteHas(service: u8, subservice: u8)
    requires HandlerOf(service, subservice).Some?
    ensures HasRoute(service, subservice)
  {
    hide HandlerOf, HasRoute;
    HandledServed(service, subservice);
    if service in {3, 8, 17, 20} {
      FirstHas(service, subservice);
    } else if service in {6, 9, 12} {
      MiddleHas(service, subservice);
    } else {
      LastHas(service, subservice);
    }
  }

  /** Some route of each service. */
  function AnyRoute(service: u8): (i: nat)
    requires Served(service)
    ensures i < |SimTarget.ROUTES| && SimTarget.ROUTES[i].service == service && SimTarget.ROUTES[i].apid == 0xFFFF
  {
    if service == 17 then 0 else if service == 8 then 1 else if service == 3 then 2 else if service == 20 then 6
    else if service == 9 then 8 else if service == 6 then 9 else if service == 12 then 12
    else if service == 11 then 17 else 22
  }

  /** The routing table takes a telecommand to the handler of its service and subservice, from any APID. */
  lemma RoutedTo(tc: Tc)
    ensures FindRoute(SimTarget.ROUTES, tc) ==
      match HandlerOf(tc.service, tc.subservice)
      case Some(h) => Found(h)
      case None => if Served(tc.service) then NoSubservice else NoService
  {
    hide FindRoute, HandlerOf, Served, RouteIndex, AnyRoute, RouteAgrees;
    Dispatcher.FirstMatch(SimTarget.ROUTES, tc);
    if HandlerOf(tc.service, tc.subservice).Some? {
      RouteHas(tc.service, tc.subservice);
      var i := RouteIndex(HandlerOf(tc.service, tc.subservice).value);
      assert SimTarget.ROUTES[i].Matches(tc) && SimTarget.ROUTES[i].ForService(tc);
    } else if Served(tc.service) {
      var i := AnyRoute(tc.service);
      assert SimTarget.ROUTES[i].ForService(tc);
    }
    RouteOfMatch(tc);
  }

  /** A matching route has the handler of the pair. */
  lemma RouteOfMatch(tc: Tc)
    ensures forall i | 0 <= i < |SimTarget.ROUTES| && SimTarget.ROUTES[i].Matches(tc) ::
      HandlerOf(tc.service, tc.subservice) == Some(SimTarget.ROUTES[i].handler)
    ensures forall i | 0 <= i < |SimTarget.ROUTES| && SimTarget.ROUTES[i].ForService(tc) :: Served(tc.service)
  {
    hide HandlerOf, Served;
    forall i | 0 <= i < |SimTarget.ROUTES|
      ensures SimTarget.ROUTES[i].Matches(tc) ==>
        HandlerOf(tc.service, tc.subservice) == Some(SimTarget.ROUTES[i].handler)
      ensures SimTarget.ROUTES[i].ForService(tc) ==> Served(tc.service)
    {
      RoutesAgree(i);
    }
  }

  // ----- Feeding ----------------------------------------------------------------------------------------------

  /** The gate is open for it: in NOMINAL for everything, otherwise for what the whitelist has. */
  predicate Open(c: Config, o: Obsw, u: Uplink) {
    u.Valid() && (o.fsm.mode == Fsm.Nominal || Fsm.Pair(u.service, u.subservice) in c.whitelist)
  }

  /** On the simulation an encoded telecommand that passes the gate is handled by the handler of its pair. */
  lemma Fed(c: Config, o: Obsw, u: Uplink)
    requires c.routes == SimTarget.ROUTES && Open(c, o, u) && HandlerOf(u.service, u.subservice).Some?
    ensures var (x, ok) := Handle(c, o, HandlerOf(u.service, u.subservice).value, u.Tc());
      Feed(c, o, u.Octets()) == (x, if ok then Ok else ErrHandler)
  {
    hide Handle, FindRoute, HandlerOf, TcPacket.Extract;
    RoundTrip(u, []);
    assert u.Octets() + [] == u.Octets();
    RoutedTo(u.Tc());
  }

  /** The same for a telecommand sent to the handler of its pair. */
  predicate Sent(c: Config, o: Obsw, u: Uplink, service: u8, subservice: u8) {
    && c.routes == SimTarget.ROUTES && Open(c, o, u) && u.service == service && u.subservice == subservice
    && HandlerOf(service, subservice).Some?
  }

  lemma FedTo(c: Config, o: Obsw, u: Uplink, service: u8, subservice: u8)
    requires Sent(c, o, u, service, subservice)
    ensures var (x, ok) := Handle(c, o, HandlerOf(service, subservice).value, u.Tc());
      Feed(c, o, u.Octets()) == (x, if ok then Ok else ErrHandler)
  {
    hide Handle, Feed, HandlerOf;
    Fed(c, o, u);
  }

  // ----- Reports ----------------------------------------------------------------------------------------------

  /** A report by what it says. */
  datatype Tm = Tm(service: u8, subservice: u8, data: bytes)

  function Tms(ps: seq<TmPacket.Packet>): (r: seq<Tm>)
    ensures |r| == |ps|
  {
    seq(|ps|, i requires 0 <= i < |ps| => Tm(ps[i].service, ps[i].subservice, ps[i].data))
  }

  /** The reports built from a to b. */
  function Since(a: Obsw, b: Obsw): seq<Tm> {
    var m, n := |a.s1.down.log|, |b.s1.down.log|;
    if m <= n then Tms(b.s1.down.log[m..]) else []
  }

  /** Accepted and completed, with these reports in between. */
  predicate Done(o: Obsw, o': Obsw, u: Uplink, reports: seq<Tm>)
    requires u.Valid()
  {
    Since(o, o') == [Tm(1, 1, u.Ref())] + reports + [Tm(1, 7, u.Ref())]
  }

  /** Rejected with a code, and nothing changed. */
  predicate Refused(o: Obsw, o': Obsw, u: Uplink, code: u8)
    requires u.Valid()
  {
    o' == o.(s1 := o'.s1) && Since(o, o') == [Tm(1, 2, u.Ref() + [0, code])]
  }

  /** The answers of a handler: completed with these reports, the state being `next` but for service 1 ... */
  predicate Completes(o: Obsw, f: (Obsw, Result), u: Uplink, next: Obsw, reports: seq<Tm>)
    requires u.Valid()
  {
    f.1 == Ok && Done(o, f.0, u, reports) && f.0 == next.(s1 := f.0.s1)
  }

  /** ... accepted and failed ... */
  predicate Fails(o: Obsw, f: (Obsw, Result), u: Uplink, next: Obsw, reports: seq<Tm>, code: u8)
    requires u.Valid()
  {
    && f.1 == ErrHandler && f.0 == next.(s1 := f.0.s1)
    && Since(o, f.0) == [Tm(1, 1, u.Ref())] + reports + [Tm(1, 8, u.Ref() + [0, code])]
  }

  /** ... or rejected, with nothing changed. */
  predicate Rejects(o: Obsw, f: (Obsw, Result), u: Uplink, code: u8)
    requires u.Valid()
  {
    f.1 == ErrHandler && Refused(o, f.0, u, code)
  }

  lemma SinceIs(a: Obsw, b: Obsw, ps: seq<TmPacket.Packet>)
    requires b.s1.down.log == a.s1.down.log + ps
    ensures Since(a, b) == Tms(ps)
  {
  }

  lemma ReportLog(v: Verification.Reporter, subservice: u8, data: bytes)
    requires |data| <= TmPacket.MAX_DATA_LEN
    ensures v.Report(subservice, data).down.log == v.down.log + [v.Packet(subservice, data)]
  {
  }

  lemma RefusedBy(o: Obsw, o': Obsw, u: Uplink, code: u8)
    requires u.Valid() && o' == o.(s1 := o.s1.Reject(u.Tc(), code))
    ensures Refused(o, o', u, code)
  {
    hide Verification.Reporter.Report;
    RefIsOwn(u);
    ReportLog(o.s1, 2, u.Ref() + Enc16(code));
    SinceIs(o, o', [o.s1.Packet(2, u.Ref() + Enc16(code))]);
  }

  lemma DoneBy(o: Obsw, o': Obsw, u: Uplink)
    requires u.Valid() && o'.s1 == o.s1.Accept(u.Tc()).Complete(u.Tc())
    ensures Done(o, o', u, [])
  {
    hide Verification.Reporter.Report;
    RefIsOwn(u);
    var a := o.s1.Accept(u.Tc());
    ReportLog(o.s1, 1, u.Ref());
    ReportLog(a, 7, u.Ref());
    SinceIs(o, o', [o.s1.Packet(1, u.Ref()), a.Packet(7, u.Ref())]);
  }

  lemma DoneWith(o: Obsw, mid: Verification.Reporter, o': Obsw, u: Uplink, ps: seq<TmPacket.Packet>)
    requires u.Valid() && mid.down.log == o.s1.Accept(u.Tc()).down.log + ps
    requires o'.s1 == mid.Complete(u.Tc())
    ensures Done(o, o', u, Tms(ps))
  {
    hide Verification.Reporter.Report;
    RefIsOwn(u);
    ReportLog(o.s1, 1, u.Ref());
    ReportLog(mid, 7, u.Ref());
    SinceIs(o, o', [o.s1.Packet(1, u.Ref())] + ps + [mid.Packet(7, u.Ref())]);
  }

  lemma FailedWith(o: Obsw, mid: Verification.Reporter, o': Obsw, u: Uplink, ps: seq<TmPacket.Packet>, code: u8)
    requires u.Valid() && mid.down.log == o.s1.Accept(u.Tc()).down.log + ps
    requires o'.s1 == mid.Fail(u.Tc(), code)
    ensures Since(o, o') == [Tm(1, 1, u.Ref())] + Tms(ps) + [Tm(1, 8, u.Ref() + [0, code])]
  {
    hide Verification.Reporter.Report;
    RefIsOwn(u);
    ReportLog(o.s1, 1, u.Ref());
    ReportLog(mid, 8, u.Ref() + Enc16(code));
    SinceIs(o, o', [o.s1.Packet(1, u.Ref())] + ps + [mid.Packet(8, u.Ref() + Enc16(code))]);
  }

  // ----- What the dispatcher itself refuses -------------------------------------------------------------------

  /** A closed gate, an unknown service and an unknown subservice are told apart. */
  lemma DispatcherRefuses(c: Config, o: Obsw, u: Uplink)
    requires c.routes == SimTarget.ROUTES && u.Valid()
    requires !Open(c, o, u) || HandlerOf(u.service, u.subservice).None?
    ensures var (o', r) := Feed(c, o, u.Octets());
      && (r == ErrGated <==> !Open(c, o, u)) && (r == ErrNoRoute <==> Open(c, o, u))
      && Refused(o, o', u, if !Open(c, o, u) then 7 else if Served(u.service) then 3 else 2)
  {
    hide Handle, FindRoute, HandlerOf, TcPacket.Extract, Served;
    RoundTrip(u, []);
    assert u.Octets() + [] == u.Octets();
    RoutedTo(u.Tc());
    hide Refused;
    var o' := Feed(c, o, u.Octets()).0;
    RefusedBy(o, o', u, if !Open(c, o, u) then 7 else if Served(u.service) then 3 else 2);
  }
}
