/**
  The service 1 reports a telecommand gives rise to (section 6.1 of ECSS-E-ST-70-41C): one TM(1,2),
  or TM(1,1) followed by one TM(1,7) or TM(1,8), whichever handler it reaches.
  */
module ReportGrammar {
  import opened Bytes
  import EventAction
  import Events
  import HkModel
  import MemoryModel
  import Monitoring
  import BitString
  import Crc16
  import Obt
  import Parameters
  import PusTm
  import Schedule
  import SmallServices
  import TmPacket
  import TmStore
  import Verification

  type Verify = Verification.Reporter
  type Tc = Verification.Tc

  /** A service 1 report, without its header fields. */
  datatype Ack = Ack(subservice: u8, data: bytes)

  /** How a telecommand ends. */
  datatype Verdict = Rejected(code: u16) | Completed | Failed(code: u16)

  /** The reports of one telecommand. */
  function Expected(tc: Tc, w: Verdict): seq<Ack> {
    var ref := Verification.TcRef(tc);
    match w
    case Rejected(code) => [Ack(2, ref + Enc16(code))]
    case Completed => [Ack(1, ref), Ack(7, ref)]
    case Failed(code) => [Ack(1, ref), Ack(8, ref + Enc16(code))]
  }

  /** The service 1 reports among all packets built. */
  function Acks(log: seq<TmPacket.Packet>): seq<Ack> {
    if log == [] then []
    else
      var p := log[|log| - 1];
      Acks(log[..|log| - 1]) + (if p.service == 1 then [Ack(p.subservice, p.data)] else [])
  }

  function AcksOf(v: Verify): seq<Ack> {
    Acks(v.down.log)
  }

  /** The event a packet reports, if it is a service 5 report. */
  function EventOf(p: TmPacket.Packet): seq<u16> {
    if p.service == 5 && |p.data| >= 2 then [Be16(p.data)] else []
  }

  /** The events reported among all packets built. */
  function EventsIn(log: seq<TmPacket.Packet>): seq<u16> {
    if log == [] then [] else EventsIn(log[..|log| - 1]) + EventOf(log[|log| - 1])
  }

  /** The service 3 reports among all packets built. */
  function HkReports(log: seq<TmPacket.Packet>): seq<TmPacket.Packet> {
    if log == [] then []
    else
      var p := log[|log| - 1];
      HkReports(log[..|log| - 1]) + if p.service == 3 then [p] else []
  }

  lemma AcksAppend(log: seq<TmPacket.Packet>, p: TmPacket.Packet)
    ensures Acks(log + [p]) == Acks(log) + if p.service == 1 then [Ack(p.subservice, p.data)] else []
    ensures EventsIn(log + [p]) == EventsIn(log) + EventOf(p)
    ensures HkReports(log + [p]) == HkReports(log) + if p.service == 3 then [p] else []
  {
    assert (log + [p])[..|log|] == log;
  }

  /** The store is within its capacity and every waiting packet is one that some service built. */
  ghost predicate Sane(d: PusTm.Downlink) {
    PusTm.Faithful(d) && |d.queue| <= TmStore.CAPACITY
  }

  lemma OfferSane(d: PusTm.Downlink, p: TmPacket.Packet)
    requires Sane(d)
    ensures Sane(d.Offer(p))
  {
    PusTm.OfferFaithful(d, p);
  }

  /** Packets were built and at most stored: none left. */
  ghost predicate Grew(a: PusTm.Downlink, b: PusTm.Downlink) {
    a.queue <= b.queue && PusTm.Built(a, b) && (Sane(a) ==> Sane(b))
  }

  lemma OfferGrew(d: PusTm.Downlink, p: TmPacket.Packet)
    ensures Grew(d, d.Offer(p))
  {
    hide PusTm.Faithful, PusTm.Built;
    PusTm.BuiltOffer(d, p);
    if Sane(d) {
      OfferSane(d, p);
    }
  }

  lemma GrewSelf(d: PusTm.Downlink)
    ensures Grew(d, d)
  {
    PusTm.BuiltSelf(d);
  }

  lemma GrewTrans(a: PusTm.Downlink, b: PusTm.Downlink, d: PusTm.Downlink)
    requires Grew(a, b) && Grew(b, d)
    ensures Grew(a, d)
  {
    hide Sane, PusTm.Built;
    PusTm.BuiltTrans(a, b, d);
  }

  lemma ReportAcks(v: Verify, subservice: u8, data: bytes)
    requires |data| <= TmPacket.MAX_DATA_LEN
    ensures AcksOf(v.Report(subservice, data)) == AcksOf(v) + [Ack(subservice, data)]
    ensures EventsIn(v.Report(subservice, data).down.log) == EventsIn(v.down.log)
    ensures HkReports(v.Report(subservice, data).down.log) == HkReports(v.down.log)
    ensures Grew(v.down, v.Report(subservice, data).down)
  {
    hide Grew;
    AcksAppend(v.down.log, v.Packet(subservice, data));
    OfferGrew(v.down, v.Packet(subservice, data));
  }

  /** From a to b only packets of services other than 1 were built, and the events among them are these. */
  ghost predicate Carried(a: PusTm.Downlink, b: PusTm.Downlink, es: seq<u16>) {
    Acks(b.log) == Acks(a.log) && EventsIn(b.log) == EventsIn(a.log) + es && Grew(a, b)
  }

  /** And no housekeeping report. */
  ghost predicate Quiet(a: PusTm.Downlink, b: PusTm.Downlink, es: seq<u16>) {
    Carried(a, b, es) && HkReports(b.log) == HkReports(a.log)
  }

  lemma OfferQuiet(d: PusTm.Downlink, p: TmPacket.Packet)
    requires p.service != 1 && p.service != 3 && p.Fits()
    ensures Quiet(d, d.Offer(p), EventOf(p))
  {
    hide Grew;
    AcksAppend(d.log, p);
    OfferGrew(d, p);
  }

  /** Packets that are not event reports, too large ones included. */
  lemma OfferSilent(d: PusTm.Downlink, p: TmPacket.Packet)
    requires p.service != 1 && p.service != 5
    ensures Carried(d, d.Offer(p), []) && (p.service != 3 ==> Quiet(d, d.Offer(p), []))
  {
    hide Grew;
    AcksAppend(d.log, p);
    OfferGrew(d, p);
  }

  lemma QuietSelf(d: PusTm.Downlink)
    ensures Quiet(d, d, [])
  {
    hide Grew;
    GrewSelf(d);
  }

  lemma QuietTrans(a: PusTm.Downlink, b: PusTm.Downlink, d: PusTm.Downlink, x: seq<u16>, y: seq<u16>)
    requires Quiet(a, b, x) && Quiet(b, d, y)
    ensures Quiet(a, d, x + y)
  {
    hide Carried;
    CarriedTrans(a, b, d, x, y);
  }

  lemma CarriedTrans(a: PusTm.Downlink, b: PusTm.Downlink, d: PusTm.Downlink, x: seq<u16>, y: seq<u16>)
    requires Carried(a, b, x) && Carried(b, d, y)
    ensures Carried(a, d, x + y)
  {
    hide Grew;
    GrewTrans(a, b, d);
  }

  lemma CarriedSelf(d: PusTm.Downlink)
    ensures Carried(d, d, [])
  {
    hide Grew;
    GrewSelf(d);
  }

  /** From v to w exactly the reports of one telecommand were made, with this verdict; in between the
      events es were reported. */
  ghost predicate Reported(v: Verify, w: Verify, tc: Tc, verdict: Verdict, es: seq<u16>) {
    && AcksOf(w) == AcksOf(v) + Expected(tc, verdict)
    && EventsIn(w.down.log) == EventsIn(v.down.log) + es
    && HkReports(w.down.log) == HkReports(v.down.log)
    && Grew(v.down, w.down)
  }

  lemma RejectReported(v: Verify, tc: Tc, code: u16)
    ensures Reported(v, v.Reject(tc, code), tc, Rejected(code), [])
  {
    ReportAcks(v, 2, Verification.TcRef(tc) + Enc16(code));
  }

  /** Acceptance, other services' packets, then completion. */
  lemma CompleteReported(v: Verify, mid: Verify, tc: Tc, es: seq<u16>)
    requires Quiet(v.Accept(tc).down, mid.down, es)
    ensures Reported(v, mid.Complete(tc), tc, Completed, es)
  {
    hide Grew;
    var ref := Verification.TcRef(tc);
    ReportAcks(v, 1, ref);
    ReportAcks(mid, 7, ref);
    GrewTrans(v.down, v.Accept(tc).down, mid.down);
    GrewTrans(v.down, mid.down, mid.Complete(tc).down);
    assert AcksOf(v) + [Ack(1, ref)] + [Ack(7, ref)] == AcksOf(v) + [Ack(1, ref), Ack(7, ref)];
  }

  /** Acceptance and completion with nothing in between. */
  lemma CompletedReported(v: Verify, tc: Tc)
    ensures Reported(v, v.Accept(tc).Complete(tc), tc, Completed, [])
  {
    hide Quiet, Reported;
    QuietSelf(v.Accept(tc).down);
    CompleteReported(v, v.Accept(tc), tc, []);
  }

  lemma FailReported(v: Verify, mid: Verify, tc: Tc, code: u16, es: seq<u16>)
    requires Quiet(v.Accept(tc).down, mid.down, es)
    ensures Reported(v, mid.Fail(tc, code), tc, Failed(code), es)
  {
    hide Grew;
    var ref := Verification.TcRef(tc);
    var failure := ref + Enc16(code);
    ReportAcks(v, 1, ref);
    ReportAcks(mid, 8, failure);
    GrewTrans(v.down, v.Accept(tc).down, mid.down);
    GrewTrans(v.down, mid.down, mid.Fail(tc, code).down);
    assert AcksOf(v) + [Ack(1, ref)] + [Ack(8, failure)] == AcksOf(v) + [Ack(1, ref), Ack(8, failure)];
  }

  /** What every handler promises: one verdict, success exactly when completed, and a rejected
      telecommand leaves the service as it was. */
  ghost predicate Handled<S>(s: S, s': S, v: Verify, v': Verify, ok: bool, tc: Tc, verdict: Verdict) {
    && Reported(v, v', tc, verdict, [])
    && (ok <==> verdict.Completed?)
    && (verdict.Rejected? ==> s' == s)
  }

  /** The verdict of a handler that either rejects or completes. */
  function Simple(ok: bool, code: u16): Verdict {
    if ok then Completed else Rejected(code)
  }

  lemma DefineHandled(c: HkModel.Config, h: HkModel.Hk, v: Verify, tc: Tc) returns (w: Verdict)
    ensures var (h', v', ok) := HkModel.Define(c, h, v, tc); Handled(h, h', v, v', ok, tc, w)
  {
    hide Reported, Quiet;
    var (h', v', ok) := HkModel.Define(c, h, v, tc);
    w := Simple(ok, if HkModel.DefineWellFormed(c, h.sets, tc.userData) then Verification.FAIL_EXEC_ERROR
                    else Verification.FAIL_ILLEGAL_APP_DATA);
    if ok {
      CompletedReported(v, tc);
    } else {
      RejectReported(v, tc, w.code);
    }
  }

  lemma DeleteHandled(c: HkModel.Config, h: HkModel.Hk, v: Verify, tc: Tc) returns (w: Verdict)
    ensures var (h', v', ok) := HkModel.Delete(c, h, v, tc); Handled(h, h', v, v', ok, tc, w)
  {
    hide Reported, Quiet;
    var (h', v', ok) := HkModel.Delete(c, h, v, tc);
    w := Simple(ok, Verification.FAIL_ILLEGAL_APP_DATA);
    if ok {
      CompletedReported(v, tc);
    } else {
      RejectReported(v, tc, w.code);
    }
  }

  lemma HkTimingHandled(h: HkModel.Hk, v: Verify, tc: Tc, enable: bool) returns (w: Verdict)
    ensures var (h', v', ok) := if enable then HkModel.Enable(h, v, tc) else HkModel.Disable(h, v, tc);
      Handled(h, h', v, v', ok, tc, w)
  {
    hide Reported, Quiet;
    var (h', v', ok) := if enable then HkModel.Enable(h, v, tc) else HkModel.Disable(h, v, tc);
    w := Simple(ok, if |tc.userData| < (if enable then 5 else 1) then Verification.FAIL_ILLEGAL_APP_DATA
                    else Verification.FAIL_EXEC_ERROR);
    if ok {
      CompletedReported(v, tc);
    } else {
      RejectReported(v, tc, w.code);
    }
  }

  lemma LoadHandled(rs: seq<MemoryModel.Region>, m: MemoryModel.Mem, v: Verify, tc: Tc) returns (w: Verdict)
    ensures var (m', v', ok) := MemoryModel.Load(rs, m, v, tc); Handled(m, m', v, v', ok, tc, w)
  {
    hide Reported, Quiet;
    var (m', v', ok) := MemoryModel.Load(rs, m, v, tc);
    var u := tc.userData;
    w := Simple(ok, if |u| < 6 || 6 + Be16(u[4..]) > |u| then Verification.FAIL_ILLEGAL_APP_DATA
                    else Verification.FAIL_MEM_ACCESS);
    if ok {
      CompletedReported(v, tc);
    } else {
      RejectReported(v, tc, w.code);
    }
  }

  lemma CheckHandled(rs: seq<MemoryModel.Region>, m: MemoryModel.Mem, v: Verify, tc: Tc) returns (w: Verdict)
    ensures var (m', v', ok) := MemoryModel.Check(rs, m, v, tc); Handled(m, m', v, v', ok, tc, w)
  {
    hide Reported, Quiet;
    var u := tc.userData;
    var a := v.Accept(tc);
    if |u| < MemoryModel.CHECK_LEN {
      w := Rejected(Verification.FAIL_ILLEGAL_APP_DATA);
      RejectReported(v, tc, w.code);
    } else {
      match MemoryModel.Resolve(rs, Be32(u), Be16(u[4..]), MemoryModel.Read) {
        case None =>
          w := Rejected(Verification.FAIL_MEM_ACCESS);
          RejectReported(v, tc, w.code);
        case Some(at) =>
          var actual := Crc16.CrcBits(MemoryModel.Slice(m.data, at, Be16(u[4..])));
          if actual == BitString.Bits(u[7..9]) {
            w := Completed;
            MemReportQuiet(m, a, 10, u[..6]);
            CompleteReported(v, m.Report(a, 10, u[..6]).1, tc, []);
          } else {
            w := Failed(Verification.FAIL_EXEC_ERROR);
            var data := u[..6] + Crc16.Field(actual);
            MemReportQuiet(m, a, 11, data);
            FailReported(v, m.Report(a, 11, data).1, tc, w.code, []);
          }
      }
    }
  }

  lemma MemReportQuiet(m: MemoryModel.Mem, v: Verify, subservice: u8, app: bytes)
    ensures Quiet(v.down, m.Report(v, subservice, app).1.down, [])
  {
    OfferSilent(v.down, TmPacket.Packet(m.apid, m.msgCounter, 6, subservice, m.msgCounter, 0, m.timestamp, app));
  }

  lemma DumpHandled(rs: seq<MemoryModel.Region>, m: MemoryModel.Mem, v: Verify, tc: Tc) returns (w: Verdict)
    ensures var (m', v', ok) := MemoryModel.Dump(rs, m, v, tc); Handled(m, m', v, v', ok, tc, w)
  {
    hide Reported, Quiet;
    var u := tc.userData;
    var a := v.Accept(tc);
    if |u| < MemoryModel.DUMP_LEN || Be16(u[4..]) > MemoryModel.MAX_DUMP_DATA {
      w := Rejected(Verification.FAIL_ILLEGAL_APP_DATA);
      RejectReported(v, tc, w.code);
    } else {
      match MemoryModel.Resolve(rs, Be32(u), Be16(u[4..]), MemoryModel.Read) {
        case None =>
          w := Rejected(Verification.FAIL_MEM_ACCESS);
          RejectReported(v, tc, w.code);
        case Some(at) =>
          w := Completed;
          var data := Enc32(Be32(u)) + [u[6]] + MemoryModel.Slice(m.data, at, Be16(u[4..]));
          MemReportQuiet(m, a, 6, data);
          CompleteReported(v, m.Report(a, 6, data).1, tc, []);
      }
    }
  }

  lemma InsertHandled(cap: nat, s: Schedule.Schedule, v: Verify, tc: Tc) returns (w: Verdict)
    ensures var (s', v', ok) := Schedule.Insert(cap, s, v, tc); Handled(s, s', v, v', ok, tc, w)
  {
    hide Reported, Quiet;
    var (s', v', ok) := Schedule.Insert(cap, s, v, tc);
    var u := tc.userData;
    w := Simple(ok, if |u| <= Schedule.TAG_LEN || !Schedule.Storable(u[Schedule.TAG_LEN..])
                    then Verification.FAIL_ILLEGAL_APP_DATA else Verification.FAIL_EXEC_ERROR);
    if ok {
      CompletedReported(v, tc);
    } else {
      RejectReported(v, tc, w.code);
    }
  }

  lemma ScheduleDeleteHandled(s: Schedule.Schedule, v: Verify, tc: Tc) returns (w: Verdict)
    ensures var (s', v', ok) := Schedule.Delete(s, v, tc); Handled(s, s', v, v', ok, tc, w)
  {
    hide Reported, Quiet;
    w := Simple(Schedule.Delete(s, v, tc).2, Verification.FAIL_ILLEGAL_APP_DATA);
    if w.Completed? {
      CompletedReported(v, tc);
    } else {
      RejectReported(v, tc, w.code);
    }
  }

  lemma AddHandled(cap: nat, params: seq<Parameters.Entry>, m: Monitoring.Monitor, v: Verify, tc: Tc)
    returns (w: Verdict)
    ensures var (m', v', ok) := Monitoring.Add(cap, params, m, v, tc); Handled(m, m', v, v', ok, tc, w)
  {
    hide Reported, Quiet;
    w := Simple(Monitoring.Add(cap, params, m, v, tc).2,
                if !Monitoring.AddWellFormed(params, tc.userData) then Verification.FAIL_ILLEGAL_APP_DATA
                else Verification.FAIL_EXEC_ERROR);
    if w.Completed? {
      CompletedReported(v, tc);
    } else {
      RejectReported(v, tc, w.code);
    }
  }

  lemma MonitorDeleteHandled(m: Monitoring.Monitor, v: Verify, tc: Tc) returns (w: Verdict)
    ensures var (m', v', ok) := Monitoring.Delete(m, v, tc); Handled(m, m', v, v', ok, tc, w)
  {
    hide Reported, Quiet;
    w := Simple(Monitoring.Delete(m, v, tc).2, Verification.FAIL_ILLEGAL_APP_DATA);
    if w.Completed? {
      CompletedReported(v, tc);
    } else {
      RejectReported(v, tc, w.code);
    }
  }

  lemma ActionAddHandled(cap: nat, a: EventAction.Actions, v: Verify, tc: Tc) returns (w: Verdict)
    ensures var (a', v', ok) := EventAction.Add(cap, a, v, tc); Handled(a, a', v, v', ok, tc, w)
  {
    hide Reported, Quiet;
    var u := tc.userData;
    w := Simple(EventAction.Add(cap, a, v, tc).2,
                if |u| < 2 || !EventAction.ActionValid(u[2..]) then Verification.FAIL_ILLEGAL_APP_DATA
                else Verification.FAIL_EXEC_ERROR);
    if w.Completed? {
      CompletedReported(v, tc);
    } else {
      RejectReported(v, tc, w.code);
    }
  }

  lemma ActionDeleteHandled(a: EventAction.Actions, v: Verify, tc: Tc) returns (w: Verdict)
    ensures var (a', v', ok) := EventAction.Delete(a, v, tc); Handled(a, a', v, v', ok, tc, w)
  {
    hide Reported, Quiet;
    w := Simple(EventAction.Delete(a, v, tc).2, Verification.FAIL_ILLEGAL_APP_DATA);
    if w.Completed? {
      CompletedReported(v, tc);
    } else {
      RejectReported(v, tc, w.code);
    }
  }

  lemma PingHandled(s: SmallServices.Sender, v: Verify, tc: Tc) returns (w: Verdict)
    ensures var (s', v', ok) := SmallServices.PingSpec(s, v, tc); Handled(s, s', v, v', ok, tc, w)
  {
    hide Reported, Quiet;
    w := Completed;
    var a := v.Accept(tc);
    OfferSilent(a.down, TmPacket.Packet(s.apid, s.msgCounter, 17, 2, s.msgCounter, 0, s.timestamp, []));
    CompleteReported(v, s.Report(a, 17, 2, []).1, tc, []);
  }

  lemma SetObtHandled(t: Obt.Time, v: Verify, tc: Tc) returns (w: Verdict)
    ensures var (t', v', ok) := SmallServices.SetObt(t, v, tc); Handled(t, t', v, v', ok, tc, w)
  {
    hide Reported, Quiet;
    w := Simple(SmallServices.SetObt(t, v, tc).2, Verification.FAIL_ILLEGAL_APP_DATA);
    if w.Completed? {
      CompletedReported(v, tc);
    } else {
      RejectReported(v, tc, w.code);
    }
  }

  lemma SetParamHandled(p: SmallServices.Params, v: Verify, tc: Tc) returns (w: Verdict)
    ensures var (p', v', ok) := SmallServices.SetParam(p, v, tc); Handled(p, p', v, v', ok, tc, w)
  {
    hide Reported, Quiet;
    w := Simple(SmallServices.SetParam(p, v, tc).2,
                if |tc.userData| < 6 then Verification.FAIL_ILLEGAL_APP_DATA else Verification.FAIL_EXEC_ERROR);
    if w.Completed? {
      CompletedReported(v, tc);
    } else {
      RejectReported(v, tc, w.code);
    }
  }

  lemma GetParamHandled(p: SmallServices.Params, v: Verify, tc: Tc) returns (w: Verdict)
    ensures var (p', v', ok) := SmallServices.GetParam(p, v, tc); Handled(p, p', v, v', ok, tc, w)
  {
    hide Reported, Quiet;
    var u := tc.userData;
    w := Simple(SmallServices.GetParam(p, v, tc).2,
                if |u| < 2 then Verification.FAIL_ILLEGAL_APP_DATA else Verification.FAIL_EXEC_ERROR);
    if w.Completed? {
      var a := v.Accept(tc);
      var s := p.sender;
      var data := Enc16(Be16(u)) + Enc32(p.table[Parameters.Position(p.table, Be16(u))].value);
      OfferSilent(a.down, TmPacket.Packet(s.apid, s.msgCounter, 20, 2, s.msgCounter, 0, s.timestamp, data));
      CompleteReported(v, s.Report(a, 20, 2, data).1, tc, []);
    } else {
      RejectReported(v, tc, w.code);
    }
  }

  lemma RaiseQuiet(b: Events.Bus, triggers: seq<u16>, severity: u8, event: u16, aux: bytes)
    requires |aux| <= 255
    ensures Quiet(b.down, b.Raise(triggers, severity, event, aux).down, [event])
  {
    hide Quiet;
    var p := b.Packet(severity, event, aux);
    assert (Enc16(event) + aux)[..2] == Enc16(event);
    assert EventOf(p) == [event];
    OfferQuiet(b.down, p);
  }

  /** What a function call reports: the event of a report function called without arguments. */
  function FunctionEvents(fn: SmallServices.Function, n: u8): seq<u16> {
    if fn.ReportEvent? && n == 0 then [fn.event] else []
  }

  /** The events a TC(8,1) that is let through reports. */
  function PerformEvents(t: seq<SmallServices.FnEntry>, tc: Tc): seq<u16> {
    var u := tc.userData;
    if |u| < 3 || 3 + u[2] as int > |u| then []
    else
      var k := SmallServices.FnPosition(t, Be16(u));
      if k == |t| then [] else FunctionEvents(t[k].fn, u[2])
  }

  /** A function call may raise an event between acceptance and completion; a rejected TC(8,1) leaves
      everything but the downlink as it was. */
  lemma PerformHandled(t: seq<SmallServices.FnEntry>, b: Events.Bus, triggers: seq<u16>, v: Verify, tc: Tc)
    returns (w: Verdict)
    requires b.down == v.down
    ensures var (b', v', ok) := SmallServices.Perform(t, b, triggers, v, tc);
      && Reported(v, v', tc, w, PerformEvents(t, tc)) && (ok <==> w.Completed?)
      && (w.Rejected? ==> b'.(down := b.down) == b) && b'.down == v'.down
  {
    hide Reported;
    var u := tc.userData;
    if |u| < 3 || 3 + u[2] as int > |u| {
      w := Rejected(Verification.FAIL_ILLEGAL_APP_DATA);
      RejectReported(v, tc, w.code);
    } else {
      var k := SmallServices.FnPosition(t, Be16(u));
      if k == |t| {
        w := Rejected(Verification.FAIL_EXEC_ERROR);
        RejectReported(v, tc, w.code);
      } else {
        w := RunFunctionHandled(t[k].fn, u[2], b, triggers, v, tc);
      }
    }
  }

  lemma RunFunctionHandled(fn: SmallServices.Function, n: u8, b: Events.Bus, triggers: seq<u16>, v: Verify, tc: Tc)
    returns (w: Verdict)
    ensures var (b', v', ok) := SmallServices.RunFunction(fn, n, b, triggers, v, tc);
      && Reported(v, v', tc, w, FunctionEvents(fn, n))
      && (ok <==> w.Completed?) && !w.Rejected? && b'.down == v'.down
  {
    hide Quiet, Reported;
    var a := v.Accept(tc);
    var (b1, ok) := SmallServices.Call(fn, n, b.(down := a.down), triggers);
    QuietSelf(a.down);
    if fn.ReportEvent? {
      RaiseQuiet(b.(down := a.down), triggers, fn.severity, fn.event, []);
    }
    var mid := a.(down := b1.down);
    if ok {
      w := Completed;
      CompleteReported(v, mid, tc, FunctionEvents(fn, n));
    } else {
      w := Failed(Verification.FAIL_EXEC_ERROR);
      FailReported(v, mid, tc, w.code, FunctionEvents(fn, n));
    }
  }
}
