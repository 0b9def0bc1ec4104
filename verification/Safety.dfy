/** Safety of the whole executive: what every telecommand keeps, whatever it contains, and which
    tables it cannot touch. */
module Safety {
  import opened Bytes
  import opened Dispatcher
  import opened Executive
  import opened Invariants
  import EventAction
  import Fsm
  import HkModel
  import MemoryModel
  import Monitoring
  import Parameters
  import ReportGrammar
  import Schedule
  import SmallServices
  import TcPacket
  import Verification

  /** The invariant of all service tables, the downlink and the clock. */
  ghost predicate Sound(c: Config, o: Obsw) {
    && HkSound(c.hk, o.hk.sets)
    && ScheduleSound(c.scheduleCap, o.schedule)
    && ActionsSound(c.actionCap, o.actions)
    && MonitorSound(c.monitorCap, o.monitor)
    && MemoryModel.Backed(c.regions, |o.mem.data|)
    && c.hk.ids == Parameters.Ids(o.params.table)
    && o.obt.Valid()
    && ReportGrammar.Sane(o.s1.down)
  }

  /** `capacity` is an 8-bit count in the C tables. */
  ghost predicate Bounded(c: Config) {
    c.scheduleCap <= 255 && c.actionCap <= 255 && c.monitorCap <= 255 && c.hk.slots <= 255
  }

  /** A step keeps the invariant and the sets defined at boot. */
  ghost predicate Kept(c: Config, o: Obsw, o': Obsw) {
    Sound(c, o) ==> Sound(c, o') && BootSets(o'.hk.sets) == BootSets(o.hk.sets)
  }

  // ----- One service table at a time ------------------------------------------------------------

  /** A handler touches its own service's state, the service 1 reports and nothing else; a function
      call may change the mode and report an event, which queues at most. */
  lemma HandleFrame(c: Config, o: Obsw, h: Handler, tc: Tc)
    ensures var o' := Handle(c, o, h, tc).0;
      && (h.Service() != 3 ==> o'.hk == o.hk)
      && (h.Service() != 6 ==> o'.mem == o.mem)
      && (h.Service() != 9 ==> o'.obt == o.obt)
      && (h.Service() != 11 ==> o'.schedule == o.schedule)
      && (h.Service() != 12 ==> o'.monitor == o.monitor)
      && (h.Service() != 20 ==> o'.params == o.params)
      && (h.Service() != 8 ==> o'.fsm == o.fsm && o'.s5 == o.s5)
      && (h.Service() != 19 && h.Service() != 8 ==> o'.actions == o.actions)
      && (h.Service() != 19 ==> o'.actions == HearAll(o.actions, HandledEvents(c, h, tc)))
  {
    hide HkModel.Define, HkModel.Delete, HkModel.Enable, HkModel.Disable;
    hide MemoryModel.Load, MemoryModel.Check, MemoryModel.Dump, Schedule.Insert, Schedule.Delete;
    hide Monitoring.Add, Monitoring.Delete, EventAction.Add, EventAction.Delete, SmallServices.Perform;
    hide ReportGrammar.PerformEvents;
    hide SmallServices.SetObt, SmallServices.PingSpec, SmallServices.SetParam, SmallServices.GetParam;
    PerformHeard(c.functions, o.Bus(), c.triggers, o.s1, tc);
    assert HearAll(o.actions, []) == o.actions;
  }

  lemma HkHandlerKept(c: Config, o: Obsw, h: Handler, tc: Tc)
    requires h.Service() == 3
    ensures HkKept(c.hk, o.hk.sets, HandleHk(c, o, h, tc).0.hk.sets)
  {
    hide HkModel.Define, HkModel.Delete, HkModel.Enable, HkModel.Disable, HkKept;
    DefineKept(c.hk, o.hk, o.s1, tc);
    DeleteKept(c.hk, o.hk, o.s1, tc);
    EnableKept(c.hk, o.hk, o.s1, tc);
    DisableKept(c.hk, o.hk, o.s1, tc);
  }

  lemma ScheduleHandlerSound(c: Config, o: Obsw, h: Handler, tc: Tc)
    requires h.Service() == 11 && c.scheduleCap <= 255 && ScheduleSound(c.scheduleCap, o.schedule)
    ensures ScheduleSound(c.scheduleCap, HandleSchedule(c, o, h, tc).0.schedule)
  {
    hide Schedule.Insert, Schedule.Delete;
    InsertSound(c.scheduleCap, o.schedule, o.s1, tc);
    ScheduleDeleteSound(c.scheduleCap, o.schedule, o.s1, tc);
  }

  lemma ActionsHandlerSound(c: Config, o: Obsw, h: Handler, tc: Tc)
    requires h.Service() == 19 && ActionsSound(c.actionCap, o.actions)
    ensures ActionsSound(c.actionCap, HandleActions(c, o, h, tc).0.actions)
  {
    hide EventAction.Add, EventAction.Delete, EventAction.ActionValid;
    hide Verification.Reporter.Report, Verification.TcRef;
    ActionAddSound(c.actionCap, o.actions, o.s1, tc);
    ActionDeleteSound(c.actionCap, o.actions, o.s1, tc);
  }

  lemma MonitorHandlerSound(c: Config, o: Obsw, h: Handler, tc: Tc)
    requires h.Service() == 12 && MonitorSound(c.monitorCap, o.monitor)
    ensures MonitorSound(c.monitorCap, HandleMonitor(c, o, h, tc).0.monitor)
  {
    hide Verification.Reporter.Report, Verification.TcRef, Monitoring.AddWellFormed;
    Monitoring.AddSound(c.monitorCap, o.params.table, o.monitor, o.s1, tc);
    Monitoring.DeleteSound(o.monitor, o.s1, tc);
  }

  /** Loads move no region boundary: memory keeps its size. */
  lemma MemHandlerSize(c: Config, o: Obsw, h: Handler, tc: Tc)
    requires h.Service() == 6
    ensures |HandleMem(c, o, h, tc).0.mem.data| == |o.mem.data|
  {
    hide Verification.Reporter.Report, Verification.TcRef;
  }

  lemma OtherHandlerKept(o: Obsw, h: Handler, tc: Tc)
    requires h.SetObt? || h.Ping? || h.SetParam? || h.GetParam?
    ensures var o' := HandleOther(o, h, tc).0;
      Parameters.Ids(o'.params.table) == Parameters.Ids(o.params.table) && (o.obt.Valid() ==> o'.obt.Valid())
  {
    hide Verification.Reporter.Report, Verification.TcRef;
    SmallServices.SetParamKeepsIds(o.params, o.s1, tc);
  }

  /** Each handler keeps the invariant of the table it changes. */
  lemma OwnTableKept(c: Config, o: Obsw, h: Handler, tc: Tc)
    requires Bounded(c)
    ensures var o' := Handle(c, o, h, tc).0;
      && (h.Service() == 3 ==> HkKept(c.hk, o.hk.sets, o'.hk.sets))
      && (h.Service() == 6 ==> |o'.mem.data| == |o.mem.data|)
      && (h.Service() == 11 && ScheduleSound(c.scheduleCap, o.schedule) ==> ScheduleSound(c.scheduleCap, o'.schedule))
      && (h.Service() == 12 && MonitorSound(c.monitorCap, o.monitor) ==> MonitorSound(c.monitorCap, o'.monitor))
      && (h.Service() == 19 && ActionsSound(c.actionCap, o.actions) ==> ActionsSound(c.actionCap, o'.actions))
      && (h.Service() == 9 || h.Service() == 20 ==>
            Parameters.Ids(o'.params.table) == Parameters.Ids(o.params.table) && (o.obt.Valid() ==> o'.obt.Valid()))
  {
    hide HandleHk, HandleMem, HandleFunction, HandleSchedule, HandleMonitor, HandleActions, HandleOther;
    hide HkKept, ScheduleSound, MonitorSound, ActionsSound, Parameters.Ids;
    var s := h.Service();
    if s == 3 {
      HkHandlerKept(c, o, h, tc);
    } else if s == 6 {
      MemHandlerSize(c, o, h, tc);
    } else if s == 11 && ScheduleSound(c.scheduleCap, o.schedule) {
      ScheduleHandlerSound(c, o, h, tc);
    } else if s == 12 && MonitorSound(c.monitorCap, o.monitor) {
      MonitorHandlerSound(c, o, h, tc);
    } else if s == 19 && ActionsSound(c.actionCap, o.actions) {
      ActionsHandlerSound(c, o, h, tc);
    } else if s == 9 || s == 20 {
      OtherHandlerKept(o, h, tc);
    }
  }

  lemma HandleKept(c: Config, o: Obsw, h: Handler, tc: Tc)
    requires Bounded(c)
    ensures Kept(c, o, Handle(c, o, h, tc).0)
  {
    hide Handle, HkSound, BootSets, ScheduleSound, MonitorSound, EventAction.AllValid, Parameters.Ids;
    hide ReportGrammar.Sane;
    hide MemoryModel.Backed, ReportGrammar.AcksOf, ReportGrammar.Expected, HandledEvents, HearAll;
    var o' := Handle(c, o, h, tc).0;
    var w := HandleServed(c, o, h, tc);
    HandleFrame(c, o, h, tc);
    HearKeeps(o.actions, HandledEvents(c, h, tc));
    OwnTableKept(c, o, h, tc);
  }

  // ----- Any telecommand ------------------------------------------------------------------------

  /** Whatever the telecommand, the invariant holds afterwards and the boot-time sets are untouched. */
  lemma DispatchKept(c: Config, o: Obsw, tc: Tc)
    requires Bounded(c)
    ensures Kept(c, o, Dispatch(c, o, tc).0)
  {
    hide Handle, FindRoute, Sound, HandledEvents;
    var o' := Dispatch(c, o, tc).0;
    var w := DispatchServed(c, o, tc);
    if Fsm.Allowed(o.fsm.mode, c.whitelist, tc.service, tc.subservice) && FindRoute(c.routes, tc).Found? {
      HandleKept(c, o, FindRoute(c.routes, tc).handler, tc);
    } else {
      ReportsOnly(c, o, o');
    }
  }

  /** Reports alone keep everything. */
  lemma ReportsOnly(c: Config, o: Obsw, o': Obsw)
    requires o' == o.(s1 := o'.s1) && (ReportGrammar.Sane(o.s1.down) ==> ReportGrammar.Sane(o'.s1.down))
    ensures Kept(c, o, o')
  {
  }

  lemma FeedKept(c: Config, o: Obsw, frame: bytes)
    requires Bounded(c)
    ensures Kept(c, o, Feed(c, o, frame).0)
  {
    hide Executive.Dispatch, Kept;
    if TcPacket.Extract(frame).Some? {
      DispatchKept(c, o, TcPacket.Extract(frame).value);
    } else {
      ReportsOnly(c, o, o);
    }
  }

  /** The tables of the services that store telecommands are beyond the reach of every other service. */
  ghost predicate Isolated(o: Obsw, o': Obsw, service: u8) {
    && (service != 11 ==> o'.schedule == o.schedule)
    && (service != 19 ==> QueuesOnly(o, o'))
  }

  /** Service 19 keeps its definitions and its switch; events may have joined the queue. */
  ghost predicate QueuesOnly(o: Obsw, o': Obsw) {
    && o'.actions.defs == o.actions.defs && o'.actions.enabled == o.actions.enabled
    && o.actions.queue <= o'.actions.queue
  }

  lemma DispatchIsolated(c: Config, o: Obsw, tc: Tc)
    requires WellRouted(c.routes)
    ensures Isolated(o, Dispatch(c, o, tc).0, tc.service)
  {
    hide Handle, FindRoute, HandledEvents, HearAll;
    if Reached(c, o, tc).Some? {
      FoundService(c.routes, tc);
      HandleFrame(c, o, Reached(c, o, tc).value, tc);
      HearKeeps(o.actions, HandledEvents(c, Reached(c, o, tc).value, tc));
    }
  }

  lemma FeedIsolated(c: Config, o: Obsw, frame: bytes)
    requires WellRouted(c.routes) && TcPacket.Extract(frame).Some?
    ensures Isolated(o, Feed(c, o, frame).0, TcPacket.Extract(frame).value.service)
  {
    hide Executive.Dispatch, Isolated;
    DispatchIsolated(c, o, TcPacket.Extract(frame).value);
  }
}
