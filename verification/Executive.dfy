/**
  The command executive as one state and the operations that change it: a telecommand is parsed,
  gated, routed and handled (`src/tc/dispatcher.c`); stored telecommands come back through the same
  door (`src/pus/s11.c`, `src/pus/s19.c`); a control tick runs everything in the order of `sim/main.c`.
  */
module Executive {
  import opened Bytes
  import EventAction
  import Events
  import Fsm
  import HkModel
  import MemoryModel
  import Monitoring
  import Obt
  import Parameters
  import Schedule
  import SmallServices
  import TcPacket
  import Verification

  type Tc = Verification.Tc

  /** The handlers of the routing table. */
  datatype Handler =
    | HkDefine | HkDelete | HkEnable | HkDisable
    | MemLoad | MemCheck | MemDump
    | Perform | SetObt | Ping | SetParam | GetParam
    | SchedInsert | SchedDelete | SchedDeleteAll | SchedEnable | SchedDisable
    | MonEnable | MonDisable | MonAdd | MonDelete | MonDeleteAll
    | ActAdd | ActDelete | ActDeleteAll | ActEnable | ActDisable
  {
    /** The service a handler belongs to. */
    function Service(): u8 {
      if HkDefine? || HkDelete? || HkEnable? || HkDisable? then 3
      else if MemLoad? || MemCheck? || MemDump? then 6
      else if Perform? then 8
      else if SetObt? then 9
      else if SchedInsert? || SchedDelete? || SchedDeleteAll? || SchedEnable? || SchedDisable? then 11
      else if MonEnable? || MonDisable? || MonAdd? || MonDelete? || MonDeleteAll? then 12
      else if Ping? then 17
      else if SetParam? || GetParam? then 20
      else 19
    }
  }

  datatype Route = Route(apid: u16, service: u8, subservice: u8, handler: Handler) {
    predicate ForService(tc: Tc) {
      (apid == 0xFFFF || apid == tc.apid) && service == tc.service
    }

    predicate Matches(tc: Tc) {
      ForService(tc) && subservice == tc.subservice
    }
  }

  /** What is fixed at boot. */
  datatype Config = Config(
    routes: seq<Route>, whitelist: seq<Fsm.Pair>, triggers: seq<u16>, hk: HkModel.Config,
    regions: seq<MemoryModel.Region>, functions: seq<SmallServices.FnEntry>,
    scheduleCap: nat, monitorCap: nat, actionCap: nat, convert: (Parameters.Kind, u32) -> u32)

  /** Every service table, the mode, the clock and the downlink. */
  datatype Obsw = Obsw(
    s1: Verification.Reporter, hk: HkModel.Hk, mem: MemoryModel.Mem, obt: Obt.Time,
    schedule: Schedule.Schedule, monitor: Monitoring.Monitor, ping: SmallServices.Sender,
    actions: EventAction.Actions, params: SmallServices.Params, fsm: Fsm.State, s5: SmallServices.Sender)
  {
    function Bus(): Events.Bus {
      Events.Bus(s5.apid, s5.msgCounter, s5.timestamp, s1.down, fsm, actions)
    }

    function WithBus(b: Events.Bus): Obsw {
      this.(s5 := s5.(msgCounter := b.msgCounter), s1 := s1.(down := b.down), fsm := b.fsm, actions := b.actions)
    }
  }

  // ----- Handlers -----------------------------------------------------------------------------

  function HkOp(c: HkModel.Config, x: HkModel.Hk, v: Verification.Reporter, h: Handler, tc: Tc)
    : (HkModel.Hk, Verification.Reporter, bool)
    requires h.Service() == 3
  {
    if h.HkDefine? then HkModel.Define(c, x, v, tc)
    else if h.HkDelete? then HkModel.Delete(c, x, v, tc)
    else if h.HkEnable? then HkModel.Enable(x, v, tc)
    else HkModel.Disable(x, v, tc)
  }

  function HandleHk(c: Config, o: Obsw, h: Handler, tc: Tc): (Obsw, bool)
    requires h.Service() == 3
  {
    var (x, v, ok) := HkOp(c.hk, o.hk, o.s1, h, tc);
    (o.(hk := x, s1 := v), ok)
  }

  function MemOp(rs: seq<MemoryModel.Region>, x: MemoryModel.Mem, v: Verification.Reporter, h: Handler, tc: Tc)
    : (MemoryModel.Mem, Verification.Reporter, bool)
    requires h.Service() == 6
  {
    if h.MemLoad? then MemoryModel.Load(rs, x, v, tc)
    else if h.MemCheck? then MemoryModel.Check(rs, x, v, tc)
    else MemoryModel.Dump(rs, x, v, tc)
  }

  function HandleMem(c: Config, o: Obsw, h: Handler, tc: Tc): (Obsw, bool)
    requires h.Service() == 6
  {
    var (x, v, ok) := MemOp(c.regions, o.mem, o.s1, h, tc);
    (o.(mem := x, s1 := v), ok)
  }

  function ScheduleOp(cap: nat, x: Schedule.Schedule, v: Verification.Reporter, h: Handler, tc: Tc)
    : (Schedule.Schedule, Verification.Reporter, bool)
    requires h.Service() == 11
  {
    if h.SchedInsert? then Schedule.Insert(cap, x, v, tc)
    else if h.SchedDelete? then Schedule.Delete(x, v, tc)
    else if h.SchedDeleteAll? then Schedule.DeleteAll(x, v, tc)
    else if h.SchedEnable? then Schedule.Enable(x, v, tc)
    else Schedule.Disable(x, v, tc)
  }

  function HandleSchedule(c: Config, o: Obsw, h: Handler, tc: Tc): (Obsw, bool)
    requires h.Service() == 11
  {
    var (x, v, ok) := ScheduleOp(c.scheduleCap, o.schedule, o.s1, h, tc);
    (o.(schedule := x, s1 := v), ok)
  }

  function MonitorOp(cap: nat, params: seq<Parameters.Entry>, x: Monitoring.Monitor, v: Verification.Reporter,
                     h: Handler, tc: Tc): (Monitoring.Monitor, Verification.Reporter, bool)
    requires h.Service() == 12
  {
    if h.MonEnable? then Monitoring.Enable(x, v, tc)
    else if h.MonDisable? then Monitoring.Disable(x, v, tc)
    else if h.MonAdd? then Monitoring.Add(cap, params, x, v, tc)
    else if h.MonDelete? then Monitoring.Delete(x, v, tc)
    else Monitoring.DeleteAll(x, v, tc)
  }

  function HandleMonitor(c: Config, o: Obsw, h: Handler, tc: Tc): (Obsw, bool)
    requires h.Service() == 12
  {
    var (x, v, ok) := MonitorOp(c.monitorCap, o.params.table, o.monitor, o.s1, h, tc);
    (o.(monitor := x, s1 := v), ok)
  }

  function ActionsOp(cap: nat, x: EventAction.Actions, v: Verification.Reporter, h: Handler, tc: Tc)
    : (EventAction.Actions, Verification.Reporter, bool)
    requires h.Service() == 19
  {
    if h.ActAdd? then EventAction.Add(cap, x, v, tc)
    else if h.ActDelete? then EventAction.Delete(x, v, tc)
    else if h.ActDeleteAll? then EventAction.DeleteAll(x, v, tc)
    else if h.ActEnable? then EventAction.Enable(x, v, tc)
    else EventAction.Disable(x, v, tc)
  }

  function HandleActions(c: Config, o: Obsw, h: Handler, tc: Tc): (Obsw, bool)
    requires h.Service() == 19
  {
    var (x, v, ok) := ActionsOp(c.actionCap, o.actions, o.s1, h, tc);
    (o.(actions := x, s1 := v), ok)
  }

  function HandleFunction(c: Config, o: Obsw, tc: Tc): (Obsw, bool) {
    var (b, v, ok) := SmallServices.Perform(c.functions, o.Bus(), c.triggers, o.s1, tc);
    (o.(s1 := v).WithBus(b), ok)
  }

  function HandleOther(o: Obsw, h: Handler, tc: Tc): (Obsw, bool)
    requires h.SetObt? || h.Ping? || h.SetParam? || h.GetParam?
  {
    match h
    case SetObt => var (x, v, ok) := SmallServices.SetObt(o.obt, o.s1, tc); (o.(obt := x, s1 := v), ok)
    case Ping => var (x, v, ok) := SmallServices.PingSpec(o.ping, o.s1, tc); (o.(ping := x, s1 := v), ok)
    case SetParam => var (x, v, ok) := SmallServices.SetParam(o.params, o.s1, tc); (o.(params := x, s1 := v), ok)
    case GetParam => var (x, v, ok) := SmallServices.GetParam(o.params, o.s1, tc); (o.(params := x, s1 := v), ok)
  }

  function Handle(c: Config, o: Obsw, h: Handler, tc: Tc): (Obsw, bool) {
    var s := h.Service();
    if s == 3 then HandleHk(c, o, h, tc)
    else if s == 6 then HandleMem(c, o, h, tc)
    else if s == 8 then HandleFunction(c, o, tc)
    else if s == 11 then HandleSchedule(c, o, h, tc)
    else if s == 12 then HandleMonitor(c, o, h, tc)
    else if s == 19 then HandleActions(c, o, h, tc)
    else HandleOther(o, h, tc)
  }

  // ----- Dispatch -----------------------------------------------------------------------------

  datatype Lookup = Found(handler: Handler) | NoSubservice | NoService

  /** First match wins; a miss says whether the service at least is routed. */
  function FindRoute(routes: seq<Route>, tc: Tc): Lookup {
    if routes == [] then NoService
    else if routes[0].Matches(tc) then Found(routes[0].handler)
    else
      var rest := FindRoute(routes[1..], tc);
      if rest.NoService? && routes[0].ForService(tc) then NoSubservice else rest
  }

  datatype Result = Ok | ErrNoRoute | ErrHandler | ErrParse | ErrGated

  /** A parsed telecommand: gate, lookup, handler. */
  function Dispatch(c: Config, o: Obsw, tc: Tc): (Obsw, Result) {
    if !Fsm.Allowed(o.fsm.mode, c.whitelist, tc.service, tc.subservice) then
      (o.(s1 := o.s1.Reject(tc, Verification.FAIL_MODE_GATED)), ErrGated)
    else
      match FindRoute(c.routes, tc)
      case NoService => (o.(s1 := o.s1.Reject(tc, Verification.FAIL_ILLEGAL_SVC)), ErrNoRoute)
      case NoSubservice => (o.(s1 := o.s1.Reject(tc, Verification.FAIL_ILLEGAL_SUBSVC)), ErrNoRoute)
      case Found(h) => var (o1, ok) := Handle(c, o, h, tc); (o1, if ok then Ok else ErrHandler)
  }

  /** `obsw_tc_dispatcher_feed`. */
  function Feed(c: Config, o: Obsw, frame: bytes): (Obsw, Result) {
    match TcPacket.Extract(frame)
    case None => (o, ErrParse)
    case Some(tc) => Dispatch(c, o, tc)
  }

  // ----- Stored telecommands ------------------------------------------------------------------

  /** Release the listed activities in turn: each leaves the schedule, then is fed like an uplink. */
  function Release(c: Config, o: Obsw, ids: seq<u16>): Obsw {
    if ids == [] then o
    else
      var before := Release(c, o, ids[..|ids| - 1]);
      ReleaseOne(c, before, ids[|ids| - 1])
  }

  function ReleaseOne(c: Config, o: Obsw, id: u16): Obsw {
    if id !in o.schedule.jobs then o
    else
      Feed(c, o.(schedule := o.schedule.(jobs := o.schedule.jobs - {id})), o.schedule.jobs[id].tc).0
  }

  /** `obsw_s11_run` at the time held by the clock on entry. */
  ghost function RunSchedule(c: Config, o: Obsw): Obsw {
    if !o.schedule.enabled then o
    else Release(c, o, Schedule.DueOrder(o.schedule.jobs, Schedule.Key(o.obt.coarse, o.obt.fine)))
  }

  /** Dispatch the action of one queued event, if it still has a definition. */
  function RunAction(c: Config, o: Obsw, event: u16): Obsw {
    if event in o.actions.defs then Feed(c, o, o.actions.defs[event]).0 else o
  }

  function RunBatch(c: Config, o: Obsw, batch: seq<u16>): Obsw {
    if batch == [] then o
    else RunAction(c, RunBatch(c, o, batch[..|batch| - 1]), batch[|batch| - 1])
  }

  /** `obsw_s19_run`: events queued while the batch runs wait for the next call. */
  function RunActions(c: Config, o: Obsw): Obsw {
    RunBatch(c, o.(actions := o.actions.(queue := [])), o.actions.queue)
  }

  // ----- The control tick ---------------------------------------------------------------------

  /** What the control step feeds in: parameter values it writes, elapsed time, application variables. */
  datatype Step = Step(writes: seq<(nat, u32)>, dt: u32, app: nat -> u32)

  function Write(t: seq<Parameters.Entry>, w: seq<(nat, u32)>): (r: seq<Parameters.Entry>)
    ensures |r| == |t|
  {
    if w == [] then t
    else
      var t1 := Write(t, w[..|w| - 1]);
      var (k, v) := w[|w| - 1];
      if k < |t1| then t1[k := t1[k].(value := v)] else t1
  }

  /** The live value behind a housekeeping parameter. */
  function CellValue(t: seq<Parameters.Entry>, app: nat -> u32, s: HkModel.Source): u32 {
    match s
    case App(k) => app(k)
    case Table(i) => if i < |t| then t[i].value else 0
  }

  function MemoryOf(t: seq<Parameters.Entry>, app: nat -> u32): HkModel.Memory {
    (s: HkModel.Source) => CellValue(t, app, s)
  }

  function CheckLimits(c: Config, o: Obsw): Obsw {
    var (m, b) := Monitoring.Check(o.monitor, o.Bus(), c.triggers, Monitoring.ReadingsOf(o.params.table, c.convert));
    o.(monitor := m).WithBus(b)
  }

  function TickHk(o: Obsw, app: nat -> u32): Obsw {
    var (h, d) := HkModel.Tick(o.hk, o.s1.down, MemoryOf(o.params.table, app));
    o.(hk := h, s1 := o.s1.(down := d))
  }

  function Drain(o: Obsw): Obsw {
    o.(s1 := o.s1.(down := o.s1.down.(queue := [])))
  }

  /** The control step between the stored telecommands and the checks. */
  function ControlStep(o: Obsw, s: Step): Obsw {
    o.(params := o.params.(table := Write(o.params.table, s.writes)), obt := Obt.Advance(o.obt, s.dt))
  }

  /** One sensor frame: `sim/main.c` runs the due activities, the queued actions, the control step, the
      limit checks and the housekeeping, and then sends what is in the store. */
  ghost function Tick(c: Config, o: Obsw, s: Step): Obsw {
    Drain(BeforeDrain(c, o, s))
  }

  ghost function BeforeDrain(c: Config, o: Obsw, s: Step): Obsw {
    var stored := RunActions(c, RunSchedule(c, o));
    TickHk(CheckLimits(c, ControlStep(stored, s)), s.app)
  }

  datatype Input = Uplink(frame: bytes) | Sensor(step: Step)

  /** One pass of the main loop. */
  ghost function Next(c: Config, o: Obsw, i: Input): Obsw {
    match i
    case Uplink(frame) => Drain(Feed(c, o, frame).0)
    case Sensor(s) => Tick(c, o, s)
  }
}
