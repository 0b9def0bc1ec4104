/**
  Message counters over every run: the packets a service builds are numbered one after the other, so that ground
  sees from a gap that packets were lost.
  */
module CounterRuns {
  import opened Bytes
  import opened Dispatcher
  import opened Executive
  import opened MicroSteps
  import opened Runs
  import opened Safety
  import BitString
  import Crc16
  import EventAction
  import Events
  import HkCommands
  import HkLayout
  import HkModel
  import Invariants
  import MemoryModel
  import Monitoring
  import Obt
  import Parameters
  import PusTm
  import ReportGrammar
  import Schedule
  import SmallServices
  import TcPacket
  import TmPacket
  import Verification

  // ----- Numbered packets ---------------------------------------------------------------------------------

  /** What a service puts into the headers of its packets, and the number of the next. */
  datatype Head = Head(apid: u16, next: u16, timestamp: u32)

  function Later(h: Head, n: nat): Head {
    h.(next := (h.next + n) % 65536)
  }

  predicate Carries(p: TmPacket.Packet, h: Head) {
    p.apid == h.apid && p.seqCount == h.next && p.msgCounter == h.next && p.destId == 0 && p.timestamp == h.timestamp
  }

  /** How many of some packets are of a service. */
  function Of(service: u8, ps: seq<TmPacket.Packet>): nat {
    if ps == [] then 0
    else Of(service, ps[..|ps| - 1]) + if ps[|ps| - 1].service == service then 1 else 0
  }

  predicate NumberedAt(service: u8, h: Head, ps: seq<TmPacket.Packet>, i: nat)
    requires i < |ps|
  {
    ps[i].service == service ==> Carries(ps[i], Later(h, Of(service, ps[..i])))
  }

  /** Each packet of the service carries the number after that of the one before it. */
  ghost predicate Numbered(service: u8, h: Head, ps: seq<TmPacket.Packet>) {
    forall i | 0 <= i < |ps| :: NumberedAt(service, h, ps, i)
  }

  lemma {:induction false} OfConcat(service: u8, x: seq<TmPacket.Packet>, y: seq<TmPacket.Packet>)
    ensures Of(service, x + y) == Of(service, x) + Of(service, y)
  {
    if y == [] {
      assert x + y == x;
    } else {
      assert (x + y)[..|x + y| - 1] == x + y[..|y| - 1];
      OfConcat(service, x, y[..|y| - 1]);
    }
  }

  lemma LaterTwice(h: Head, m: nat, n: nat)
    ensures Later(Later(h, m), n) == Later(h, m + n)
  {
    var x: nat := h.next + m;
    assert x == x / 65536 * 65536 + x % 65536;
  }

  lemma FrontNumbered(service: u8, h: Head, x: seq<TmPacket.Packet>, y: seq<TmPacket.Packet>, i: nat)
    requires i < |x| && NumberedAt(service, h, x, i)
    ensures NumberedAt(service, h, x + y, i)
  {
    assert (x + y)[..i] == x[..i];
  }

  lemma BackNumbered(service: u8, h: Head, x: seq<TmPacket.Packet>, y: seq<TmPacket.Packet>, j: nat)
    requires j < |y| && NumberedAt(service, Later(h, Of(service, x)), y, j)
    ensures NumberedAt(service, h, x + y, |x| + j)
  {
    hide Carries, Later, Of;
    assert (x + y)[..|x| + j] == x + y[..j];
    OfConcat(service, x, y[..j]);
    LaterTwice(h, Of(service, x), Of(service, y[..j]));
  }

  lemma NumberedConcat(service: u8, h: Head, x: seq<TmPacket.Packet>, y: seq<TmPacket.Packet>)
    requires Numbered(service, h, x) && Numbered(service, Later(h, Of(service, x)), y)
    ensures Numbered(service, h, x + y)
  {
    hide NumberedAt, Of, Later;
    forall i | 0 <= i < |x + y| ensures NumberedAt(service, h, x + y, i) {
      if i < |x| {
        FrontNumbered(service, h, x, y, i);
      } else {
        BackNumbered(service, h, x, y, i - |x|);
      }
    }
  }

  /** From one state of a service and the store to another, the packets built are numbered. */
  ghost predicate Counts(service: u8, h: Head, a: PusTm.Downlink, h': Head, b: PusTm.Downlink) {
    && a.log <= b.log && Numbered(service, h, b.log[|a.log|..])
    && h' == Later(h, Of(service, b.log[|a.log|..]))
  }

  lemma CountsSelf(service: u8, h: Head, d: PusTm.Downlink)
    ensures Counts(service, h, d, h, d)
  {
  }

  lemma CountsTrans(service: u8, h: Head, a: PusTm.Downlink, i: Head, b: PusTm.Downlink, j: Head, d: PusTm.Downlink)
    requires Counts(service, h, a, i, b) && Counts(service, i, b, j, d)
    ensures Counts(service, h, a, j, d)
  {
    hide Of, Later, Numbered;
    var x, y := b.log[|a.log|..], d.log[|b.log|..];
    assert d.log[|a.log|..] == x + y;
    NumberedConcat(service, h, x, y);
    OfConcat(service, x, y);
    LaterTwice(h, Of(service, x), Of(service, y));
  }

  lemma OneCounts(service: u8, h: Head, p: TmPacket.Packet)
    requires p.service == service ==> Carries(p, h)
    ensures Numbered(service, h, [p]) && Of(service, [p]) == if p.service == service then 1 else 0
  {
    assert [p][..0] == [];
  }

  lemma OfferCounts(service: u8, h: Head, d: PusTm.Downlink, p: TmPacket.Packet)
    requires p.Fits() && (p.service == service ==> Carries(p, h))
    ensures Counts(service, h, d, if p.service == service then Later(h, 1) else h, d.Offer(p))
  {
    hide TmPacket.Encode, Numbered, Of, Carries;
    OneCounts(service, h, p);
    assert d.Offer(p).log[|d.log|..] == [p];
  }

  // ----- Services -----------------------------------------------------------------------------------------

  /** The services that build packets. */
  predicate Numbering(service: u8) {
    service in {1, 3, 5, 6, 17, 20}
  }

  function SenderHead(s: SmallServices.Sender): Head {
    Head(s.apid, s.msgCounter, s.timestamp)
  }

  /** The counter of a service. */
  function HeadOf(o: Obsw, service: u8): Head
    requires Numbering(service)
  {
    if service == 1 then ReporterHead(o.s1)
    else if service == 3 then Head(o.hk.apid, o.hk.msgCounter, o.hk.timestamp)
    else if service == 5 then SenderHead(o.s5)
    else if service == 6 then Head(o.mem.apid, o.mem.msgCounter, o.mem.timestamp)
    else if service == 17 then SenderHead(o.ping)
    else SenderHead(o.params.sender)
  }

  function ReporterHead(v: Verification.Reporter): Head {
    Head(v.apid, v.msgCounter, v.timestamp)
  }

  /** The counter of service 1 or of another service, from the reporter and the other service's. */
  function Pick(service: u8, v: Verification.Reporter, own: Head): Head {
    if service == 1 then ReporterHead(v) else own
  }

  /** A service and the reporter move on together. */
  ghost predicate Moves(service: u8, v: Verification.Reporter, own: Head, v': Verification.Reporter, own': Head) {
    Counts(service, Pick(service, v, own), v.down, Pick(service, v', own'), v'.down)
  }

  lemma ReportMoves(service: u8, v: Verification.Reporter, own: Head, subservice: u8, data: bytes)
    requires |data| <= 1007
    ensures Moves(service, v, own, v.Report(subservice, data), own)
  {
    hide Counts, PusTm.Downlink.Offer;
    var p := v.Packet(subservice, data);
    OfferCounts(service, Pick(service, v, own), v.down, p);
  }

  lemma MovesTrans(service: u8, a: Verification.Reporter, x: Head, b: Verification.Reporter, y: Head,
                   d: Verification.Reporter, z: Head)
    requires Moves(service, a, x, b, y) && Moves(service, b, y, d, z)
    ensures Moves(service, a, x, d, z)
  {
    hide Counts;
    CountsTrans(service, Pick(service, a, x), a.down, Pick(service, b, y), b.down, Pick(service, d, z), d.down);
  }

  /** A packet of another service than 1. */
  lemma OwnMoves(service: u8, v: Verification.Reporter, own: Head, p: TmPacket.Packet)
    requires p.Fits() && p.service != 1 && (p.service == service ==> Carries(p, own))
    ensures Moves(service, v, own, v.(down := v.down.Offer(p)), if p.service == service then Later(own, 1) else own)
  {
    hide Counts, PusTm.Downlink.Offer;
    OfferCounts(service, Pick(service, v, own), v.down, p);
  }

  /** Acceptance, perhaps a packet of the service, and the end. */
  lemma EndMoves(service: u8, v: Verification.Reporter, own: Head, mid: Verification.Reporter, own': Head, tc: Tc,
                 code: u16)
    requires Moves(service, v.Accept(tc), own, mid, own')
    ensures Moves(service, v, own, mid.Complete(tc), own') && Moves(service, v, own, mid.Fail(tc, code), own')
  {
    hide Moves, Verification.Reporter.Report, Verification.TcRef;
    var ref := Verification.TcRef(tc);
    var a := v.Accept(tc);
    ReportMoves(service, v, own, 1, ref);
    MovesTrans(service, v, own, a, own, mid, own');
    ReportMoves(service, mid, own', 7, ref);
    MovesTrans(service, v, own, mid, own', mid.Complete(tc), own');
    ReportMoves(service, mid, own', 8, ref + Enc16(code));
    MovesTrans(service, v, own, mid, own', mid.Fail(tc, code), own');
  }

  lemma PlainMoves(service: u8, v: Verification.Reporter, own: Head, tc: Tc, code: u16)
    ensures Moves(service, v, own, v.Accept(tc).Complete(tc), own) && Moves(service, v, own, v.Reject(tc, code), own)
  {
    hide Moves, Verification.Reporter.Report, Verification.TcRef;
    SelfMoves(service, v.Accept(tc), own);
    EndMoves(service, v, own, v.Accept(tc), own, tc, code);
    ReportMoves(service, v, own, 2, Verification.TcRef(tc) + Enc16(code));
  }

  lemma SelfMoves(service: u8, v: Verification.Reporter, own: Head)
    ensures Moves(service, v, own, v, own)
  {
    CountsSelf(service, Pick(service, v, own), v.down);
  }

  // ----- Handlers -----------------------------------------------------------------------------------------

  /** Rejected, or accepted and completed at once. */
  ghost predicate Plain(v: Verification.Reporter, v': Verification.Reporter, tc: Tc) {
    v' == v.Accept(tc).Complete(tc) || v' == v.Reject(tc, 4) || v' == v.Reject(tc, 5) || v' == v.Reject(tc, 6)
  }

  lemma PlainAny(service: u8, v: Verification.Reporter, own: Head, v': Verification.Reporter, tc: Tc)
    requires Plain(v, v', tc)
    ensures Moves(service, v, own, v', own)
  {
    hide Moves, Verification.Reporter.Report, Verification.TcRef;
    PlainMoves(service, v, own, tc, 4);
    PlainMoves(service, v, own, tc, 5);
    PlainMoves(service, v, own, tc, 6);
  }

  lemma HkPlain(c: Config, o: Obsw, h: Handler, tc: Tc)
    requires h.Service() == 3
    ensures var (x, v, _) := HkOp(c.hk, o.hk, o.s1, h, tc);
      Plain(o.s1, v, tc) && x == o.hk.(sets := x.sets)
  {
    hide Verification.Reporter.Report, Verification.TcRef, HkModel.DefineWellFormed, HkModel.DeleteWellFormed;
    hide HkModel.Without, HkModel.NewSet;
  }

  lemma SchedulePlain(c: Config, o: Obsw, h: Handler, tc: Tc)
    requires h.Service() == 11
    ensures Plain(o.s1, ScheduleOp(c.scheduleCap, o.schedule, o.s1, h, tc).1, tc)
  {
    hide Verification.Reporter.Report, Verification.TcRef, Schedule.Storable, Schedule.FreshId;
  }

  lemma MonitorPlain(c: Config, o: Obsw, h: Handler, tc: Tc)
    requires h.Service() == 12
    ensures Plain(o.s1, MonitorOp(c.monitorCap, o.params.table, o.monitor, o.s1, h, tc).1, tc)
  {
    hide Verification.Reporter.Report, Verification.TcRef, Monitoring.AddWellFormed, Monitoring.Described;
  }

  lemma ActionsPlain(c: Config, o: Obsw, h: Handler, tc: Tc)
    requires h.Service() == 19
    ensures Plain(o.s1, ActionsOp(c.actionCap, o.actions, o.s1, h, tc).1, tc)
  {
    hide Verification.Reporter.Report, Verification.TcRef, EventAction.ActionValid;
  }

  /** The counter of service 6, or that of another service. */
  function OwnMem(service: u8, m: MemoryModel.Mem, other: Head): Head {
    if service == 6 then Head(m.apid, m.msgCounter, m.timestamp) else other
  }

  lemma MemReports(service: u8, m: MemoryModel.Mem, other: Head, v: Verification.Reporter, subservice: u8, app: bytes)
    requires |app| <= 1007
    ensures var (m', v') := m.Report(v, subservice, app);
      Moves(service, v, OwnMem(service, m, other), v', OwnMem(service, m', other))
  {
    hide Moves, PusTm.Downlink.Offer;
    var p := TmPacket.Packet(m.apid, m.msgCounter, 6, subservice, m.msgCounter, 0, m.timestamp, app);
    OwnMoves(service, v, OwnMem(service, m, other), p);
  }

  lemma CheckMoves(service: u8, rs: seq<MemoryModel.Region>, m: MemoryModel.Mem, other: Head,
                   v: Verification.Reporter, tc: Tc)
    ensures var (x, w, _) := MemoryModel.Check(rs, m, v, tc);
      Moves(service, v, OwnMem(service, m, other), w, OwnMem(service, x, other))
  {
    hide Moves, Verification.Reporter.Report, Verification.TcRef, MemoryModel.Resolve, MemoryModel.Mem.Report;
    hide MemoryModel.Slice, Crc16.CrcBits, BitString.Bits, OwnMem;
    var own, d, a := OwnMem(service, m, other), tc.userData, v.Accept(tc);
    PlainMoves(service, v, own, tc, 5);
    PlainMoves(service, v, own, tc, 6);
    if |d| >= 9 && MemoryModel.Resolve(rs, Be32(d), Be16(d[4..]), MemoryModel.Read).Some? {
      var at := MemoryModel.Resolve(rs, Be32(d), Be16(d[4..]), MemoryModel.Read).value;
      var field := Crc16.Field(Crc16.CrcBits(MemoryModel.Slice(m.data, at, Be16(d[4..]))));
      MemReports(service, m, other, a, 10, d[..6]);
      MemReports(service, m, other, a, 11, d[..6] + field);
      var (m1, v1) := m.Report(a, 10, d[..6]);
      var (m2, v2) := m.Report(a, 11, d[..6] + field);
      EndMoves(service, v, own, v1, OwnMem(service, m1, other), tc, 4);
      EndMoves(service, v, own, v2, OwnMem(service, m2, other), tc, 4);
    }
  }

  lemma DumpMoves(service: u8, rs: seq<MemoryModel.Region>, m: MemoryModel.Mem, other: Head,
                  v: Verification.Reporter, tc: Tc)
    ensures var (x, w, _) := MemoryModel.Dump(rs, m, v, tc);
      Moves(service, v, OwnMem(service, m, other), w, OwnMem(service, x, other))
  {
    hide Moves, Verification.Reporter.Report, Verification.TcRef, MemoryModel.Resolve, MemoryModel.Mem.Report, OwnMem;
    var own, d, a := OwnMem(service, m, other), tc.userData, v.Accept(tc);
    PlainMoves(service, v, own, tc, 5);
    PlainMoves(service, v, own, tc, 6);
    if |d| >= 7 && Be16(d[4..]) <= 1002
       && MemoryModel.Resolve(rs, Be32(d), Be16(d[4..]), MemoryModel.Read).Some? {
      var at := MemoryModel.Resolve(rs, Be32(d), Be16(d[4..]), MemoryModel.Read).value;
      var data := Enc32(Be32(d)) + [d[6]] + MemoryModel.Slice(m.data, at, Be16(d[4..]));
      MemReports(service, m, other, a, 6, data);
      var (m1, v1) := m.Report(a, 6, data);
      EndMoves(service, v, own, v1, OwnMem(service, m1, other), tc, 4);
    }
  }

  lemma LoadMoves(service: u8, rs: seq<MemoryModel.Region>, m: MemoryModel.Mem, other: Head,
                  v: Verification.Reporter, tc: Tc)
    ensures var (x, w, _) := MemoryModel.Load(rs, m, v, tc);
      Moves(service, v, OwnMem(service, m, other), w, OwnMem(service, x, other))
  {
    hide Moves, Verification.Reporter.Report, Verification.TcRef, MemoryModel.Resolve, MemoryModel.Overwrite;
    PlainMoves(service, v, OwnMem(service, m, other), tc, 5);
    PlainMoves(service, v, OwnMem(service, m, other), tc, 6);
  }

  /** The counter of a service with a sender of its own, or that of another service. */
  function OwnSender(service: u8, mine: u8, s: SmallServices.Sender, other: Head): Head {
    if service == mine then SenderHead(s) else other
  }

  lemma SenderReports(service: u8, mine: u8, s: SmallServices.Sender, other: Head, v: Verification.Reporter,
                      subservice: u8, app: bytes)
    requires |app| <= 1007 && mine != 1
    ensures var (s', v') := s.Report(v, mine, subservice, app);
      Moves(service, v, OwnSender(service, mine, s, other), v', OwnSender(service, mine, s', other))
  {
    hide Moves, PusTm.Downlink.Offer;
    var p := TmPacket.Packet(s.apid, s.msgCounter, mine, subservice, s.msgCounter, 0, s.timestamp, app);
    OwnMoves(service, v, OwnSender(service, mine, s, other), p);
  }

  lemma PingMoves(service: u8, s: SmallServices.Sender, other: Head, v: Verification.Reporter, tc: Tc)
    ensures var (x, w, _) := SmallServices.PingSpec(s, v, tc);
      Moves(service, v, OwnSender(service, 17, s, other), w, OwnSender(service, 17, x, other))
  {
    hide Moves, Verification.Reporter.Report, Verification.TcRef, SmallServices.Sender.Report, OwnSender;
    SenderReports(service, 17, s, other, v.Accept(tc), 2, []);
    var (s1, v1) := s.Report(v.Accept(tc), 17, 2, []);
    EndMoves(service, v, OwnSender(service, 17, s, other), v1, OwnSender(service, 17, s1, other), tc, 4);
  }

  lemma GetMoves(service: u8, p: SmallServices.Params, other: Head, v: Verification.Reporter, tc: Tc)
    ensures var (x, w, _) := SmallServices.GetParam(p, v, tc);
      Moves(service, v, OwnSender(service, 20, p.sender, other), w, OwnSender(service, 20, x.sender, other))
  {
    hide Moves, Verification.Reporter.Report, Verification.TcRef, SmallServices.Sender.Report, OwnSender;
    var own, d, a := OwnSender(service, 20, p.sender, other), tc.userData, v.Accept(tc);
    PlainMoves(service, v, own, tc, 5);
    PlainMoves(service, v, own, tc, 4);
    if |d| >= 2 && Parameters.Position(p.table, Be16(d)) < |p.table| {
      var data := Enc16(Be16(d)) + Enc32(p.table[Parameters.Position(p.table, Be16(d))].value);
      SenderReports(service, 20, p.sender, other, a, 2, data);
      var (s1, v1) := p.sender.Report(a, 20, 2, data);
      EndMoves(service, v, own, v1, OwnSender(service, 20, s1, other), tc, 4);
    }
  }

  lemma SetMoves(service: u8, p: SmallServices.Params, other: Head, v: Verification.Reporter, tc: Tc)
    ensures var (x, w, _) := SmallServices.SetParam(p, v, tc);
      Moves(service, v, OwnSender(service, 20, p.sender, other), w, OwnSender(service, 20, x.sender, other))
  {
    hide Moves, Verification.Reporter.Report, Verification.TcRef;
    PlainMoves(service, v, OwnSender(service, 20, p.sender, other), tc, 5);
    PlainMoves(service, v, OwnSender(service, 20, p.sender, other), tc, 4);
  }

  lemma TimeMoves(service: u8, own: Head, t: Obt.Time, v: Verification.Reporter, tc: Tc)
    ensures Moves(service, v, own, SmallServices.SetObt(t, v, tc).1, own)
  {
    hide Moves, Verification.Reporter.Report, Verification.TcRef;
    PlainMoves(service, v, own, tc, 5);
  }

  // ----- Events -------------------------------------------------------------------------------------------

  /** The counter of service 5, or that of another service. */
  function OwnBus(service: u8, b: Events.Bus, other: Head): Head {
    if service == 5 then Head(b.apid, b.msgCounter, b.timestamp) else other
  }

  lemma RaiseCounts(service: u8, b: Events.Bus, other: Head, triggers: seq<u16>, severity: u8, event: u16, aux: bytes)
    requires |aux| <= 255
    ensures var b' := b.Raise(triggers, severity, event, aux);
      Counts(service, OwnBus(service, b, other), b.down, OwnBus(service, b', other), b'.down)
  {
    hide Counts, PusTm.Downlink.Offer, PusTm.Downlink.HasRoom;
    OfferCounts(service, OwnBus(service, b, other), b.down, b.Packet(severity, event, aux));
  }

  lemma CallMoves(service: u8, fn: SmallServices.Function, n: u8, b: Events.Bus, other: Head, triggers: seq<u16>,
                  v: Verification.Reporter)
    requires b.down == v.down
    ensures var b' := SmallServices.Call(fn, n, b, triggers).0;
      Moves(service, v, OwnBus(service, b, other), v.(down := b'.down), OwnBus(service, b', other))
  {
    hide Events.Bus.Raise, Counts;
    var own := OwnBus(service, b, other);
    CountsSelf(service, Pick(service, v, own), v.down);
    if fn.ReportEvent? {
      RaiseCounts(service, b, Pick(service, v, own), triggers, fn.severity, fn.event, []);
      RaiseCounts(service, b, other, triggers, fn.severity, fn.event, []);
    }
  }

  lemma RunMoves(service: u8, fn: SmallServices.Function, n: u8, b: Events.Bus, other: Head, triggers: seq<u16>,
                 v: Verification.Reporter, tc: Tc)
    ensures var (b', v', _) := SmallServices.RunFunction(fn, n, b, triggers, v, tc);
      Moves(service, v, OwnBus(service, b, other), v', OwnBus(service, b', other))
  {
    hide Moves, Verification.Reporter.Report, Verification.TcRef, SmallServices.Call;
    var a := v.Accept(tc);
    var b0 := b.(down := a.down);
    CallMoves(service, fn, n, b0, other, triggers, a);
    var b1 := SmallServices.Call(fn, n, b0, triggers).0;
    EndMoves(service, v, OwnBus(service, b, other), a.(down := b1.down), OwnBus(service, b1, other), tc, 4);
  }

  lemma PerformMoves(service: u8, t: seq<SmallServices.FnEntry>, b: Events.Bus, other: Head, triggers: seq<u16>,
                     v: Verification.Reporter, tc: Tc)
    ensures var (b', v', _) := SmallServices.Perform(t, b, triggers, v, tc);
      Moves(service, v, OwnBus(service, b, other), v', OwnBus(service, b', other))
  {
    hide Moves, Verification.Reporter.Report, Verification.TcRef, SmallServices.RunFunction;
    var own, d := OwnBus(service, b, other), tc.userData;
    PlainMoves(service, v, own, tc, 5);
    PlainMoves(service, v, own, tc, 4);
    if |d| >= 3 && 3 + d[2] as int <= |d| {
      var k := SmallServices.FnPosition(t, Be16(d));
      if k < |t| {
        RunMoves(service, t[k].fn, d[2], b, other, triggers, v, tc);
      }
    }
  }

  lemma RaisedCounts(service: u8, b: Events.Bus, other: Head, triggers: seq<u16>, d: Monitoring.Def, v: u32)
    ensures var b' := Monitoring.Raised(b, triggers, d, v);
      Counts(service, OwnBus(service, b, other), b.down, OwnBus(service, b', other), b'.down)
  {
    hide Counts, Events.Bus.Raise, Parameters.Less, OwnBus;
    var low, high := d.BelowLow(v) && !d.inLow, d.AboveHigh(v) && !d.inHigh;
    var b1 := Monitoring.RaiseIf(low, b, triggers, d, d.eventLow, v);
    var b2 := Monitoring.RaiseIf(high, b1, triggers, d, d.eventHigh, v);
    var h, h1, h2 := OwnBus(service, b, other), OwnBus(service, b1, other), OwnBus(service, b2, other);
    CountsSelf(service, h, b.down);
    CountsSelf(service, h1, b1.down);
    RaiseCounts(service, b, other, triggers, d.severity, d.eventLow, Enc32(v));
    RaiseCounts(service, b1, other, triggers, d.severity, d.eventHigh, Enc32(v));
    CountsTrans(service, h, b.down, h1, b1.down, h2, b2.down);
  }

  lemma {:induction false} CheckCounts(service: u8, t: seq<Monitoring.Def>, b: Events.Bus, other: Head,
                                       triggers: seq<u16>, r: Monitoring.Readings, n: nat)
    requires n <= |t|
    ensures var b' := Monitoring.CheckUpTo(t, b, triggers, r, n).1;
      Counts(service, OwnBus(service, b, other), b.down, OwnBus(service, b', other), b'.down)
  {
    hide Counts, Monitoring.Raised, OwnBus;
    var h := OwnBus(service, b, other);
    if n == 0 {
      CountsSelf(service, h, b.down);
    } else {
      CheckCounts(service, t, b, other, triggers, r, n - 1);
      var b1 := Monitoring.CheckUpTo(t, b, triggers, r, n - 1).1;
      match r(t[n - 1].paramId) {
        case None =>
        case Some(v) =>
          RaisedCounts(service, b1, other, triggers, t[n - 1], v);
          var b2 := Monitoring.Raised(b1, triggers, t[n - 1], v);
          CountsTrans(service, h, b.down, OwnBus(service, b1, other), b1.down, OwnBus(service, b2, other), b2.down);
      }
    }
  }

  // ----- Telecommands -------------------------------------------------------------------------------------

  /** From o to o' the packets of a service were numbered on. */
  ghost predicate CountsOn(service: u8, o: Obsw, o': Obsw)
    requires Numbering(service)
  {
    Counts(service, HeadOf(o, service), o.s1.down, HeadOf(o', service), o'.s1.down)
  }

  lemma PlainCounts(service: u8, o: Obsw, o': Obsw, tc: Tc)
    requires Numbering(service) && Plain(o.s1, o'.s1, tc)
    requires service == 1 || HeadOf(o', service) == HeadOf(o, service)
    ensures CountsOn(service, o, o')
  {
    hide Counts, Plain;
    PlainAny(service, o.s1, HeadOf(o, service), o'.s1, tc);
  }

  lemma HkCounts(service: u8, c: Config, o: Obsw, h: Handler, tc: Tc)
    requires Numbering(service) && h.Service() == 3
    ensures CountsOn(service, o, HandleHk(c, o, h, tc).0)
  {
    hide CountsOn, Plain, HkOp;
    HkPlain(c, o, h, tc);
    PlainCounts(service, o, HandleHk(c, o, h, tc).0, tc);
  }

  lemma MemCounts(service: u8, c: Config, o: Obsw, h: Handler, tc: Tc)
    requires Numbering(service) && h.Service() == 6
    ensures CountsOn(service, o, HandleMem(c, o, h, tc).0)
  {
    hide Counts, MemoryModel.Load, MemoryModel.Check, MemoryModel.Dump;
    var other := HeadOf(o, service);
    LoadMoves(service, c.regions, o.mem, other, o.s1, tc);
    CheckMoves(service, c.regions, o.mem, other, o.s1, tc);
    DumpMoves(service, c.regions, o.mem, other, o.s1, tc);
  }

  lemma TableCounts(service: u8, c: Config, o: Obsw, h: Handler, tc: Tc)
    requires Numbering(service) && (h.Service() == 11 || h.Service() == 12 || h.Service() == 19)
    ensures CountsOn(service, o, Handle(c, o, h, tc).0)
  {
    hide CountsOn, Plain, ScheduleOp, MonitorOp, ActionsOp;
    var o' := Handle(c, o, h, tc).0;
    if h.Service() == 11 {
      SchedulePlain(c, o, h, tc);
    } else if h.Service() == 12 {
      MonitorPlain(c, o, h, tc);
    } else {
      ActionsPlain(c, o, h, tc);
    }
    PlainCounts(service, o, o', tc);
  }

  lemma FunctionCounts(service: u8, c: Config, o: Obsw, tc: Tc)
    requires Numbering(service)
    ensures CountsOn(service, o, HandleFunction(c, o, tc).0)
  {
    hide Counts, SmallServices.Perform;
    PerformMoves(service, c.functions, o.Bus(), HeadOf(o, service), c.triggers, o.s1, tc);
    PerformBus(c.functions, o.Bus(), c.triggers, o.s1, tc);
  }

  /** A function call leaves the bus with the reporter's store and its own header fields. */
  lemma PerformBus(t: seq<SmallServices.FnEntry>, b: Events.Bus, triggers: seq<u16>, v: Verification.Reporter, tc: Tc)
    ensures var (b', v', _) := SmallServices.Perform(t, b, triggers, v, tc);
      b'.down == v'.down && b'.apid == b.apid && b'.timestamp == b.timestamp
  {
    hide Verification.Reporter.Report, Verification.TcRef, PusTm.Downlink.Offer, PusTm.Downlink.HasRoom;
    hide EventAction.OnEvent;
  }

  lemma OtherCounts(service: u8, o: Obsw, h: Handler, tc: Tc)
    requires Numbering(service) && (h.SetObt? || h.Ping? || h.SetParam? || h.GetParam?)
    ensures CountsOn(service, o, HandleOther(o, h, tc).0)
  {
    hide Counts, SmallServices.PingSpec, SmallServices.GetParam, SmallServices.SetParam, SmallServices.SetObt;
    var other := HeadOf(o, service);
    match h {
      case SetObt => TimeMoves(service, other, o.obt, o.s1, tc);
      case Ping => PingMoves(service, o.ping, other, o.s1, tc);
      case SetParam => SetMoves(service, o.params, other, o.s1, tc);
      case GetParam => GetMoves(service, o.params, other, o.s1, tc);
    }
  }

  lemma DispatchCounts(service: u8, c: Config, o: Obsw, tc: Tc)
    requires Numbering(service)
    ensures CountsOn(service, o, Executive.Dispatch(c, o, tc).0)
  {
    hide FindRoute, CountsOn, Verification.Reporter.Report, HandleHk, HandleMem, HandleFunction, HandleOther;
    var o' := Executive.Dispatch(c, o, tc).0;
    if Reached(c, o, tc).None? {
      RejectCounts(service, c, o, tc);
    } else {
      var h := Reached(c, o, tc).value;
      var s := h.Service();
      if s == 3 {
        HkCounts(service, c, o, h, tc);
      } else if s == 6 {
        MemCounts(service, c, o, h, tc);
      } else if s == 8 {
        FunctionCounts(service, c, o, tc);
      } else if s == 11 || s == 12 || s == 19 {
        TableCounts(service, c, o, h, tc);
      } else {
        OtherCounts(service, o, h, tc);
      }
    }
  }

  lemma RejectCounts(service: u8, c: Config, o: Obsw, tc: Tc)
    requires Numbering(service) && Reached(c, o, tc).None?
    ensures CountsOn(service, o, Executive.Dispatch(c, o, tc).0)
  {
    hide FindRoute, Moves, Counts, Verification.Reporter.Report, Handle;
    var own := HeadOf(o, service);
    PlainMoves(service, o.s1, own, tc, Verification.FAIL_MODE_GATED);
    PlainMoves(service, o.s1, own, tc, Verification.FAIL_ILLEGAL_SVC);
    PlainMoves(service, o.s1, own, tc, Verification.FAIL_ILLEGAL_SUBSVC);
    var o' := Executive.Dispatch(c, o, tc).0;
    assert Moves(service, o.s1, own, o'.s1, own);
    MovesOn(service, o, o');
  }

  lemma MovesOn(service: u8, o: Obsw, o': Obsw)
    requires Numbering(service) && Moves(service, o.s1, HeadOf(o, service), o'.s1, HeadOf(o, service))
    requires o' == o.(s1 := o'.s1)
    ensures CountsOn(service, o, o')
  {
    hide Counts;
  }

  // ----- Housekeeping -------------------------------------------------------------------------------------

  /** The values of a set fit a packet, or do not even fit the buffer they are collected in. */
  predicate Sendable(s: HkModel.HkSet) {
    HkLayout.Extent(s.params) <= 1006 || HkLayout.Extent(s.params) > 1023
  }

  function HkHead(h: HkModel.Hk): Head {
    Head(h.apid, h.msgCounter, h.timestamp)
  }

  /** A report moves the counter on by one, or by nothing; it builds as many packets if and only if the set is
      sendable: between 1007 and 1023 octets a number is used and no packet built. */
  lemma ReportCounts(h: HkModel.Hk, d: PusTm.Downlink, s: HkModel.HkSet, m: HkModel.Memory)
    ensures var (h', d') := HkModel.Report(h, d, s, m);
      Counts(3, HkHead(h), d, HkHead(h'), d') <==> Sendable(s)
  {
    hide HkModel.Serialise, Counts, PusTm.Downlink.Offer;
    HkLayout.SerialisedLength(s.params, m);
    var values := HkModel.Serialise(s.params, m);
    var p := HkModel.ReportPacket(h, s, values);
    if |values| > 1023 {
      CountsSelf(3, HkHead(h), d);
    } else if |values| <= 1006 {
      OfferCounts(3, HkHead(h), d, p);
    } else {
      NotBuilt(h, d, p);
    }
  }

  function LongSet(): HkModel.HkSet {
    HkModel.HkSet(1, false, seq(252, i requires 0 <= i < 252 => HkModel.Param(HkModel.App(i), 4)), 1, 1, true)
  }

  /** A boot-time set of 252 four-octet variables is such a set: its report uses a number that no packet carries. */
  lemma NumberWithoutPacket(h: HkModel.Hk, d: PusTm.Downlink, m: HkModel.Memory)
    ensures var (h', d') := HkModel.Report(h, d, LongSet(), m);
      d' == d && h'.msgCounter == (h.msgCounter + 1) % 65536
  {
    hide HkModel.Serialise;
    HkCommands.ExtentOfFours(LongSet().params);
    HkLayout.SerialisedLength(LongSet().params, m);
  }

  lemma NotBuilt(h: HkModel.Hk, d: PusTm.Downlink, p: TmPacket.Packet)
    requires !p.Fits()
    ensures !Counts(3, HkHead(h), d, HkHead(h.(msgCounter := Next16(h.msgCounter))), d.Offer(p))
  {
    assert d.log[|d.log|..] == [];
  }

  ghost predicate AllSendable(sets: seq<HkModel.HkSet>) {
    forall i | 0 <= i < |sets| :: Sendable(sets[i])
  }

  lemma {:induction false} TickCounts(h: HkModel.Hk, d: PusTm.Downlink, m: HkModel.Memory, n: nat)
    requires n <= |h.sets| && AllSendable(h.sets)
    ensures var (h', d') := HkModel.TickUpTo(h, d, m, n); Counts(3, HkHead(h), d, HkHead(h'), d')
  {
    hide HkModel.Report, Counts, HkModel.Count;
    if n == 0 {
      CountsSelf(3, HkHead(h), d);
    } else {
      TickCounts(h, d, m, n - 1);
      var (h1, d1) := HkModel.TickUpTo(h, d, m, n - 1);
      if HkModel.Count(h.sets[n - 1]).1 {
        assert Sendable(h.sets[n - 1]);
        ReportCounts(h1, d1, h.sets[n - 1], m);
        var (h2, d2) := HkModel.Report(h1, d1, h.sets[n - 1], m);
        CountsTrans(3, HkHead(h), d, HkHead(h1), d1, HkHead(h2), d2);
      }
    }
  }

  /** For the other services a round of housekeeping builds nothing. */
  lemma {:induction false} TickOthers(service: u8, own: Head, h: HkModel.Hk, d: PusTm.Downlink, m: HkModel.Memory,
                                      n: nat)
    requires n <= |h.sets| && service != 3
    ensures Counts(service, own, d, own, HkModel.TickUpTo(h, d, m, n).1)
  {
    hide Counts, HkModel.Count, PusTm.Downlink.Offer, HkModel.Serialise;
    if n == 0 {
      CountsSelf(service, own, d);
    } else {
      TickOthers(service, own, h, d, m, n - 1);
      var (h1, d1) := HkModel.TickUpTo(h, d, m, n - 1);
      var s := h.sets[n - 1];
      var values := HkModel.Serialise(s.params, m);
      if HkModel.Count(s).1 && |values| <= 1006 {
        var p := HkModel.ReportPacket(h1, s, values);
        OfferCounts(service, own, d1, p);
        CountsTrans(service, own, d, own, d1, own, d1.Offer(p));
      } else if HkModel.Count(s).1 {
        TooLarge(d1, HkModel.ReportPacket(h1, s, values));
      }
    }
  }

  lemma TooLarge(d: PusTm.Downlink, p: TmPacket.Packet)
    requires !p.Fits()
    ensures d.Offer(p) == d
  {
  }

  // ----- Sendable sets stay sendable ----------------------------------------------------------------------

  lemma DefineSendable(c: Config, h: HkModel.Hk, v: Verification.Reporter, tc: Tc)
    requires AllSendable(h.sets)
    ensures AllSendable(HkModel.Define(c.hk, h, v, tc).0.sets)
  {
    hide Verification.Reporter.Report, Verification.TcRef, Sendable, HkModel.NewSet;
    var u := tc.userData;
    if HkModel.DefineWellFormed(c.hk, h.sets, u) {
      NewSendable(c, h.sets, u);
    }
  }

  lemma NewSendable(c: Config, sets: seq<HkModel.HkSet>, u: bytes)
    requires HkModel.DefineWellFormed(c.hk, sets, u)
    ensures Sendable(HkModel.NewSet(c.hk, sets, u))
  {
    hide HkModel.NewSet;
    HkCommands.NewSetAsked(c, sets, u);
    HkCommands.FoursFit(c, u, HkModel.NewSet(c.hk, sets, u));
  }

  lemma DeleteSendable(c: Config, h: HkModel.Hk, v: Verification.Reporter, tc: Tc)
    requires AllSendable(h.sets)
    ensures AllSendable(HkModel.Delete(c.hk, h, v, tc).0.sets)
  {
    hide Verification.Reporter.Report, Verification.TcRef, Sendable, HkModel.Without, HkModel.DeleteWellFormed;
    var u := tc.userData;
    if HkModel.DeleteWellFormed(c.hk, h.sets, u) {
      HkCommands.DeleteHasList(c, h.sets, u);
      WithoutSendable(h.sets, HkModel.Listed(u[1..]));
    }
  }

  lemma WithoutSendable(sets: seq<HkModel.HkSet>, ids: set<u8>)
    requires AllSendable(sets)
    ensures AllSendable(HkModel.Without(sets, ids))
  {
    hide Sendable, HkModel.Without;
    var r := HkModel.Without(sets, ids);
    forall i | 0 <= i < |r| ensures Sendable(r[i]) {
      HkModel.WithoutMembers(sets, ids, r[i]);
    }
  }

  lemma RetimeSendable(h: HkModel.Hk, v: Verification.Reporter, tc: Tc)
    requires AllSendable(h.sets)
    ensures AllSendable(HkModel.Enable(h, v, tc).0.sets) && AllSendable(HkModel.Disable(h, v, tc).0.sets)
  {
    hide Verification.Reporter.Report, Verification.TcRef;
  }

  lemma FeedSendable(c: Config, o: Obsw, frame: bytes)
    requires AllSendable(o.hk.sets)
    ensures AllSendable(Feed(c, o, frame).0.hk.sets)
  {
    hide FindRoute, AllSendable, HkModel.Define, HkModel.Delete, HkModel.Enable, HkModel.Disable, TcPacket.Extract;
    hide Verification.Reporter.Report;
    if TcPacket.Extract(frame).Some? {
      var tc := TcPacket.Extract(frame).value;
      if Reached(c, o, tc).Some? {
        var h := Reached(c, o, tc).value;
        if h.Service() == 3 {
          DefineSendable(c, o.hk, o.s1, tc);
          DeleteSendable(c, o.hk, o.s1, tc);
          RetimeSendable(o.hk, o.s1, tc);
        } else {
          hide Handle;
          HandleFrame(c, o, h, tc);
        }
      }
    }
  }

  lemma StepSendable(c: Config, o: Obsw, m: Micro)
    requires AllSendable(o.hk.sets)
    ensures AllSendable(Apply(c, o, m).hk.sets)
  {
    hide Feed, CheckLimits, AllSendable, ControlStep;
    match m {
      case FeedFrame(frame) => FeedSendable(c, o, frame);
      case Check => CheckKeepsSets(c, o);
      case Control(s) => ControlKeepsSets(o, s);
      case Housekeep(app) =>
        hide HkModel.TickUpTo;
        var mem := MemoryOf(o.params.table, app);
        Invariants.TickLayout(o.hk, o.s1.down, mem, |o.hk.sets|);
        LayoutSendable(o.hk.sets, TickHk(o, app).hk.sets);
      case _ =>
    }
  }

  lemma CheckKeepsSets(c: Config, o: Obsw)
    ensures CheckLimits(c, o).hk == o.hk
  {
  }

  lemma ControlKeepsSets(o: Obsw, s: Step)
    ensures ControlStep(o, s).hk == o.hk
  {
  }

  lemma LayoutSendable(s: seq<HkModel.HkSet>, t: seq<HkModel.HkSet>)
    requires AllSendable(s) && Invariants.SameLayout(s, t)
    ensures AllSendable(t)
  {
    forall i | 0 <= i < |t| ensures Sendable(t[i]) {
      assert Sendable(s[i]);
    }
  }

  // ----- Steps and runs -----------------------------------------------------------------------------------

  lemma FeedCounts(service: u8, c: Config, o: Obsw, frame: bytes)
    requires Numbering(service)
    ensures CountsOn(service, o, Feed(c, o, frame).0)
  {
    hide Executive.Dispatch, Counts, TcPacket.Extract;
    match TcPacket.Extract(frame) {
      case None => CountsSelf(service, HeadOf(o, service), o.s1.down);
      case Some(tc) => DispatchCounts(service, c, o, tc);
    }
  }

  lemma LimitsCount(service: u8, c: Config, o: Obsw)
    requires Numbering(service)
    ensures CountsOn(service, o, CheckLimits(c, o))
  {
    hide Counts, Monitoring.CheckUpTo;
    var r := Monitoring.ReadingsOf(o.params.table, c.convert);
    CountsSelf(service, HeadOf(o, service), o.s1.down);
    if service == 5 {
      CheckCounts(5, o.monitor.defs, o.Bus(), HeadOf(o, 5), c.triggers, r, |o.monitor.defs|);
      CheckHeader(o.monitor.defs, o.Bus(), c.triggers, r);
    } else {
      CheckCounts(service, o.monitor.defs, o.Bus(), HeadOf(o, service), c.triggers, r, |o.monitor.defs|);
    }
  }

  lemma CheckHeader(t: seq<Monitoring.Def>, b: Events.Bus, triggers: seq<u16>, r: Monitoring.Readings)
    ensures var b' := Monitoring.CheckUpTo(t, b, triggers, r, |t|).1; b'.apid == b.apid && b'.timestamp == b.timestamp
  {
    hide Monitoring.CheckUpTo, ReportGrammar.Quiet;
    Invariants.CheckHeard(t, b, triggers, r, |t|);
  }

  lemma HousekeepCounts(service: u8, o: Obsw, app: nat -> u32)
    requires Numbering(service) && (service == 3 ==> AllSendable(o.hk.sets))
    ensures CountsOn(service, o, TickHk(o, app))
  {
    hide Counts, HkModel.TickUpTo;
    var m := MemoryOf(o.params.table, app);
    if service == 3 {
      TickCounts(o.hk, o.s1.down, m, |o.hk.sets|);
    } else {
      TickOthers(service, HeadOf(o, service), o.hk, o.s1.down, m, |o.hk.sets|);
    }
  }

  lemma StepCounts(service: u8, c: Config, o: Obsw, m: Micro)
    requires Numbering(service) && (service == 3 ==> AllSendable(o.hk.sets))
    ensures CountsOn(service, o, Apply(c, o, m))
  {
    hide Feed, CheckLimits, TickHk, Write, CountsOn;
    match m {
      case FeedFrame(frame) => FeedCounts(service, c, o, frame);
      case Check => LimitsCount(service, c, o);
      case Housekeep(app) => HousekeepCounts(service, o, app);
      case _ => SameCounts(service, o, Apply(c, o, m));
    }
  }

  lemma SameCounts(service: u8, o: Obsw, o': Obsw)
    requires Numbering(service) && HeadOf(o', service) == HeadOf(o, service) && o'.s1.down.log == o.s1.down.log
    ensures CountsOn(service, o, o')
  {
    assert o'.s1.down.log[|o.s1.down.log|..] == [];
  }

  lemma CountsOnTrans(service: u8, a: Obsw, b: Obsw, d: Obsw)
    requires Numbering(service) && CountsOn(service, a, b) && CountsOn(service, b, d)
    ensures CountsOn(service, a, d)
  {
    hide Counts;
    CountsTrans(service, HeadOf(a, service), a.s1.down, HeadOf(b, service), b.s1.down, HeadOf(d, service), d.s1.down);
  }

  lemma {:induction false} StepsCount(service: u8, c: Config, o: Obsw, ms: seq<Micro>)
    requires Numbering(service) && (service == 3 ==> AllSendable(o.hk.sets))
    ensures CountsOn(service, o, After(c, o, ms)) && (service == 3 ==> AllSendable(After(c, o, ms).hk.sets))
  {
    hide Apply, CountsOn, AllSendable;
    if ms == [] {
      SameCounts(service, o, o);
    } else {
      var n := |ms| - 1;
      var before := After(c, o, ms[..n]);
      StepsCount(service, c, o, ms[..n]);
      StepCounts(service, c, before, ms[n]);
      CountsOnTrans(service, o, before, After(c, o, ms));
      if service == 3 {
        StepSendable(c, before, ms[n]);
      }
    }
  }

  /**
    In every state of every run the packets a service has built since the start carry its APID and one number after
    the other, and its counter is as far on as they are many: a number that ground misses is a packet that found no
    room. For service 3 this needs boot-time sets whose values fit a packet, or not even the buffer.
    */
  lemma RunNumbered(service: u8, c: Config, o: Obsw, inputs: seq<Input>, k: nat)
    requires Numbering(service) && (service == 3 ==> AllSendable(o.hk.sets)) && k <= |RunMicros(c, o, inputs)|
    ensures var o' := After(c, o, RunMicros(c, o, inputs)[..k]);
      && o.s1.down.log <= o'.s1.down.log
      && var ps := o'.s1.down.log[|o.s1.down.log|..];
         Numbered(service, HeadOf(o, service), ps) && HeadOf(o', service) == Later(HeadOf(o, service), Of(service, ps))
  {
    hide RunMicros, After, Numbered, AllSendable;
    StepsCount(service, c, o, RunMicros(c, o, inputs)[..k]);
  }
}
