/**
  What every telecommand meets on its way through the dispatcher, whichever door it came by: one
  verification grammar, the mode gate, and the first matching route (`src/tc/dispatcher.c`).
  */
module Dispatcher {
  import opened Bytes
  import opened Executive
  import opened ReportGrammar
  import EventAction
  import Fsm
  import HkModel
  import MemoryModel
  import Monitoring
  import Schedule
  import SmallServices
  import TcPacket
  import Verification

  // ----- One verification grammar -------------------------------------------------------------

  /** From o to o' one telecommand was served: exactly its service 1 reports were made, and these event
      reports; success means completion, and a rejected telecommand changed no service table, no mode and
      no clock. */
  ghost predicate Served(o: Obsw, o': Obsw, ok: bool, tc: Tc, w: Verdict, es: seq<u16>) {
    && Reported(o.s1, o'.s1, tc, w, es)
    && (ok <==> w.Completed?)
    && (w.Rejected? ==> o' == o.(s1 := o'.s1))
  }

  lemma HkServed(c: Config, o: Obsw, h: Handler, tc: Tc) returns (w: Verdict)
    requires h.Service() == 3
    ensures var (o', ok) := HandleHk(c, o, h, tc); Served(o, o', ok, tc, w, [])
  {
    hide HkModel.Define, HkModel.Delete, HkModel.Enable, HkModel.Disable, Reported;
    if h.HkDefine? {
      w := DefineHandled(c.hk, o.hk, o.s1, tc);
    } else if h.HkDelete? {
      w := DeleteHandled(c.hk, o.hk, o.s1, tc);
    } else {
      w := HkTimingHandled(o.hk, o.s1, tc, h.HkEnable?);
    }
  }

  lemma MemServed(c: Config, o: Obsw, h: Handler, tc: Tc) returns (w: Verdict)
    requires h.Service() == 6
    ensures var (o', ok) := HandleMem(c, o, h, tc); Served(o, o', ok, tc, w, [])
  {
    hide MemoryModel.Load, MemoryModel.Check, MemoryModel.Dump, Reported;
    if h.MemLoad? {
      w := LoadHandled(c.regions, o.mem, o.s1, tc);
    } else if h.MemCheck? {
      w := CheckHandled(c.regions, o.mem, o.s1, tc);
    } else {
      w := DumpHandled(c.regions, o.mem, o.s1, tc);
    }
  }

  lemma ScheduleServed(c: Config, o: Obsw, h: Handler, tc: Tc) returns (w: Verdict)
    requires h.Service() == 11
    ensures var (o', ok) := HandleSchedule(c, o, h, tc); Served(o, o', ok, tc, w, [])
  {
    hide Schedule.Insert, Schedule.Delete, Reported, Verification.Reporter.Report, Verification.TcRef;
    if h.SchedInsert? {
      w := InsertHandled(c.scheduleCap, o.schedule, o.s1, tc);
    } else if h.SchedDelete? {
      w := ScheduleDeleteHandled(o.schedule, o.s1, tc);
    } else {
      w := Completed;
      CompletedReported(o.s1, tc);
    }
  }

  lemma MonitorServed(c: Config, o: Obsw, h: Handler, tc: Tc) returns (w: Verdict)
    requires h.Service() == 12
    ensures var (o', ok) := HandleMonitor(c, o, h, tc); Served(o, o', ok, tc, w, [])
  {
    hide Monitoring.Add, Monitoring.Delete, Reported, Verification.Reporter.Report, Verification.TcRef;
    if h.MonAdd? {
      w := AddHandled(c.monitorCap, o.params.table, o.monitor, o.s1, tc);
    } else if h.MonDelete? {
      w := MonitorDeleteHandled(o.monitor, o.s1, tc);
    } else {
      w := Completed;
      CompletedReported(o.s1, tc);
    }
  }

  lemma ActionsServed(c: Config, o: Obsw, h: Handler, tc: Tc) returns (w: Verdict)
    requires h.Service() == 19
    ensures var (o', ok) := HandleActions(c, o, h, tc); Served(o, o', ok, tc, w, [])
  {
    hide EventAction.Add, EventAction.Delete, Reported, Verification.Reporter.Report, Verification.TcRef;
    if h.ActAdd? {
      w := ActionAddHandled(c.actionCap, o.actions, o.s1, tc);
    } else if h.ActDelete? {
      w := ActionDeleteHandled(o.actions, o.s1, tc);
    } else {
      w := Completed;
      CompletedReported(o.s1, tc);
    }
  }

  lemma FunctionServed(c: Config, o: Obsw, tc: Tc) returns (w: Verdict)
    ensures var (o', ok) := HandleFunction(c, o, tc); Served(o, o', ok, tc, w, PerformEvents(c.functions, tc))
  {
    hide SmallServices.Perform, Reported;
    w := PerformHandled(c.functions, o.Bus(), c.triggers, o.s1, tc);
  }

  lemma OtherServed(o: Obsw, h: Handler, tc: Tc) returns (w: Verdict)
    requires h.SetObt? || h.Ping? || h.SetParam? || h.GetParam?
    ensures var (o', ok) := HandleOther(o, h, tc); Served(o, o', ok, tc, w, [])
  {
    hide SmallServices.SetObt, SmallServices.PingSpec, SmallServices.SetParam, SmallServices.GetParam, Reported;
    match h {
      case SetObt => w := SetObtHandled(o.obt, o.s1, tc);
      case Ping => w := PingHandled(o.ping, o.s1, tc);
      case SetParam => w := SetParamHandled(o.params, o.s1, tc);
      case GetParam => w := GetParamHandled(o.params, o.s1, tc);
    }
  }

  /** The events a handler reports: those of function calls. */
  function HandledEvents(c: Config, h: Handler, tc: Tc): seq<u16> {
    if h.Service() == 8 then PerformEvents(c.functions, tc) else []
  }

  lemma HandleServed(c: Config, o: Obsw, h: Handler, tc: Tc) returns (w: Verdict)
    ensures var (o', ok) := Handle(c, o, h, tc); Served(o, o', ok, tc, w, HandledEvents(c, h, tc))
  {
    hide HandleHk, HandleMem, HandleSchedule, HandleMonitor, HandleActions, HandleFunction, HandleOther, Served;
    var s := h.Service();
    if s == 3 {
      w := HkServed(c, o, h, tc);
    } else if s == 6 {
      w := MemServed(c, o, h, tc);
    } else if s == 8 {
      w := FunctionServed(c, o, tc);
    } else if s == 11 {
      w := ScheduleServed(c, o, h, tc);
    } else if s == 12 {
      w := MonitorServed(c, o, h, tc);
    } else if s == 19 {
      w := ActionsServed(c, o, h, tc);
    } else {
      w := OtherServed(o, h, tc);
    }
  }

  /** The handler a telecommand reaches in a state: let through by the gate, and routed. */
  function Reached(c: Config, o: Obsw, tc: Tc): Option<Handler> {
    if !Fsm.Allowed(o.fsm.mode, c.whitelist, tc.service, tc.subservice) then None
    else match FindRoute(c.routes, tc) case Found(h) => Some(h) case _ => None
  }

  function DispatchEvents(c: Config, o: Obsw, tc: Tc): seq<u16> {
    match Reached(c, o, tc)
    case None => []
    case Some(h) => HandledEvents(c, h, tc)
  }

  /** The events one feed reports. */
  function FeedEvents(c: Config, o: Obsw, frame: bytes): seq<u16> {
    match TcPacket.Extract(frame)
    case None => []
    case Some(tc) => DispatchEvents(c, o, tc)
  }

  /** Every parseable telecommand gets one TM(1,2), or TM(1,1) and then one TM(1,7) or TM(1,8), with
      other services' reports in between at most; the dispatcher returns OK exactly on TM(1,7). */
  lemma DispatchServed(c: Config, o: Obsw, tc: Tc) returns (w: Verdict)
    ensures var (o', r) := Dispatch(c, o, tc);
      Served(o, o', r == Ok, tc, w, DispatchEvents(c, o, tc)) && r != ErrParse
  {
    hide Handle, FindRoute, Reported, Verification.Reporter.Report, Verification.TcRef;
    if !Fsm.Allowed(o.fsm.mode, c.whitelist, tc.service, tc.subservice) {
      w := Rejected(Verification.FAIL_MODE_GATED);
      RejectReported(o.s1, tc, w.code);
    } else {
      match FindRoute(c.routes, tc) {
        case NoService =>
          w := Rejected(Verification.FAIL_ILLEGAL_SVC);
          RejectReported(o.s1, tc, w.code);
        case NoSubservice =>
          w := Rejected(Verification.FAIL_ILLEGAL_SUBSVC);
          RejectReported(o.s1, tc, w.code);
        case Found(h) =>
          w := HandleServed(c, o, h, tc);
      }
    }
  }

  lemma FeedServed(c: Config, o: Obsw, frame: bytes) returns (w: Verdict)
    ensures TcPacket.Extract(frame).None? ==> Feed(c, o, frame) == (o, ErrParse)
    ensures TcPacket.Extract(frame).Some? ==>
      var (o', r) := Feed(c, o, frame);
      Served(o, o', r == Ok, TcPacket.Extract(frame).value, w, FeedEvents(c, o, frame)) && r != ErrParse
  {
    hide Executive.Dispatch, Served, DispatchEvents;
    if TcPacket.Extract(frame).Some? {
      w := DispatchServed(c, o, TcPacket.Extract(frame).value);
    } else {
      w := Completed;
    }
  }

  // ----- The gate -----------------------------------------------------------------------------

  /** Outside NOMINAL a telecommand that is not on the whitelist has one effect: its TM(1,2). */
  lemma GateHolds(c: Config, o: Obsw, tc: Tc)
    requires o.fsm.mode != Fsm.Nominal && Fsm.Pair(tc.service, tc.subservice) !in c.whitelist
    ensures Dispatch(c, o, tc) == (o.(s1 := o.s1.Reject(tc, Verification.FAIL_MODE_GATED)), ErrGated)
  {
    hide Handle, FindRoute;
  }

  // ----- Routing ------------------------------------------------------------------------------

  /** The lookup finds the first route that matches all three fields; without one it tells whether
      some route serves the same APID and service. */
  lemma {:induction false} FirstMatch(routes: seq<Route>, tc: Tc)
    ensures match FindRoute(routes, tc)
      case Found(h) => exists i :: 0 <= i < |routes| && routes[i].Matches(tc) && routes[i].handler == h
                         && forall j | 0 <= j < i :: !routes[j].Matches(tc)
      case NoSubservice => (exists i :: 0 <= i < |routes| && routes[i].ForService(tc))
                           && forall j | 0 <= j < |routes| :: !routes[j].Matches(tc)
      case NoService => forall j | 0 <= j < |routes| :: !routes[j].ForService(tc)
  {
    if routes != [] && !routes[0].Matches(tc) {
      var rest := routes[1..];
      FirstMatch(rest, tc);
      match FindRoute(rest, tc) {
        case Found(h) =>
          var i :| 0 <= i < |rest| && rest[i].Matches(tc) && rest[i].handler == h
                   && forall j | 0 <= j < i :: !rest[j].Matches(tc);
          assert routes[i + 1] == rest[i];
          assert forall j | 0 < j < i + 1 :: routes[j] == rest[j - 1];
        case NoSubservice =>
          var i :| 0 <= i < |rest| && rest[i].ForService(tc);
          assert routes[i + 1] == rest[i];
          assert forall j | 0 < j < |routes| :: routes[j] == rest[j - 1];
        case NoService =>
          assert forall j | 0 < j < |routes| :: routes[j] == rest[j - 1];
      }
    }
  }

  /** The handler of every route belongs to the service the route names. */
  ghost predicate WellRouted(routes: seq<Route>) {
    forall i | 0 <= i < |routes| :: routes[i].handler.Service() == routes[i].service
  }

  lemma FoundService(routes: seq<Route>, tc: Tc)
    requires WellRouted(routes) && FindRoute(routes, tc).Found?
    ensures FindRoute(routes, tc).handler.Service() == tc.service
  {
    FirstMatch(routes, tc);
  }
}
