/** What the gate protects over whole runs: the configuration of the services. */
module SafeMode {
  import opened Bytes
  import opened Dispatcher
  import opened Executive
  import opened MicroSteps
  import opened Release
  import opened Safety
  import Events
  import Fsm
  import HkModel
  import HkTicks
  import Invariants
  import Monitoring
  import Obt
  import ReportGrammar
  import SimTarget
  import TcPacket
  import Verification
  import Whitelist

  /** Services whose telecommands change tables or memory. */
  predicate Configures(service: u8) {
    service == 3 || service == 6 || service == 11 || service == 12 || service == 19
  }

  /** Limit checks that differ in their latches only. */
  ghost predicate SameChecks(s: seq<Monitoring.Def>, t: seq<Monitoring.Def>) {
    |s| == |t| && forall i | 0 <= i < |s| :: t[i] == s[i].(inLow := t[i].inLow, inHigh := t[i].inHigh)
  }

  /** Housekeeping sets that differ in their countdowns only. */
  ghost predicate SameSets(s: seq<HkModel.HkSet>, t: seq<HkModel.HkSet>) {
    |s| == |t| && forall i | 0 <= i < |s| :: t[i] == s[i].(countdown := t[i].countdown)
  }

  /** The configuration of a service is as it was: housekeeping sets but for their countdowns, memory, limit
      checks but for their latches, event-actions; a schedule has at most lost activities. */
  ghost predicate SameConfig(service: u8, o: Obsw, o': Obsw) {
    && (service == 3 ==> SameSets(o.hk.sets, o'.hk.sets))
    && (service == 6 ==> o'.mem.data == o.mem.data)
    && (service == 11 ==>
          && o'.schedule.enabled == o.schedule.enabled && o'.schedule.nextId == o.schedule.nextId
          && forall id: u16 | id in o'.schedule.jobs ::
               id in o.schedule.jobs && o'.schedule.jobs[id] == o.schedule.jobs[id])
    && (service == 12 ==>
          SameChecks(o.monitor.defs, o'.monitor.defs) && o'.monitor.enabled == o.monitor.enabled)
    && (service == 19 ==> o'.actions.defs == o.actions.defs && o'.actions.enabled == o.actions.enabled)
  }

  lemma SameTrans(service: u8, a: Obsw, b: Obsw, d: Obsw)
    requires SameConfig(service, a, b) && SameConfig(service, b, d)
    ensures SameConfig(service, a, d)
  {
  }

  lemma SameSelf(service: u8, o: Obsw)
    ensures SameConfig(service, o, o)
  {
  }

  /** A call that is let through by the gate in the mode of that moment, and routed to a handler of the
      service. */
  predicate Admitted(c: Config, call: Call, service: u8) {
    match TcPacket.Extract(call.frame)
    case None => false
    case Some(tc) =>
      && Fsm.Allowed(call.before.fsm.mode, c.whitelist, tc.service, tc.subservice)
      && FindRoute(c.routes, tc).Found? && FindRoute(c.routes, tc).handler.Service() == service
  }

  lemma DispatchSame(c: Config, o: Obsw, tc: Tc, service: u8)
    requires Reached(c, o, tc).Some? ==> Reached(c, o, tc).value.Service() != service
    ensures SameConfig(service, o, Executive.Dispatch(c, o, tc).0)
  {
    hide Handle, FindRoute, Verification.Reporter.Report, HandledEvents, Invariants.HearAll;
    if Reached(c, o, tc).Some? {
      var h := Reached(c, o, tc).value;
      HandleFrame(c, o, h, tc);
      Invariants.HearKeeps(o.actions, HandledEvents(c, h, tc));
    }
  }

  lemma FeedSame(c: Config, call: Call, service: u8)
    requires !Admitted(c, call, service)
    ensures SameConfig(service, call.before, Feed(c, call.before, call.frame).0)
  {
    hide Executive.Dispatch, SameConfig, FindRoute;
    if TcPacket.Extract(call.frame).Some? {
      DispatchSame(c, call.before, TcPacket.Extract(call.frame).value, service);
    } else {
      SameSelf(service, call.before);
    }
  }

  lemma ControlSame(o: Obsw, s: Step, service: u8)
    ensures SameConfig(service, o, ControlStep(o, s))
  {
    hide Write, Obt.Advance;
  }

  lemma LimitsSame(c: Config, o: Obsw, service: u8)
    ensures SameConfig(service, o, CheckLimits(c, o))
  {
    hide Monitoring.CheckUpTo, Monitoring.Latched, ReportGrammar.Quiet, Invariants.HearAll;
    var r := Monitoring.ReadingsOf(o.params.table, c.convert);
    if o.monitor.enabled {
      var n := |o.monitor.defs|;
      Invariants.CheckHeard(o.monitor.defs, o.Bus(), c.triggers, r, n);
      Invariants.HearKeeps(o.actions, Invariants.CheckEvents(o.monitor.defs[..n], r));
      ChecksSame(o.monitor.defs, o.Bus(), c.triggers, r);
    }
  }

  lemma ChecksSame(t: seq<Monitoring.Def>, b: Events.Bus, triggers: seq<u16>, r: Monitoring.Readings)
    ensures SameChecks(t, Monitoring.CheckUpTo(t, b, triggers, r, |t|).0)
  {
    hide Monitoring.CheckUpTo;
    var t' := Monitoring.CheckUpTo(t, b, triggers, r, |t|).0;
    forall i | 0 <= i < |t| ensures t'[i] == t[i].(inLow := t'[i].inLow, inHigh := t'[i].inHigh) {
      Monitoring.CheckEach(t, b, triggers, r, |t|, i);
    }
  }

  lemma HousekeepSame(o: Obsw, app: nat -> u32, service: u8)
    ensures SameConfig(service, o, TickHk(o, app))
  {
    hide HkModel.TickUpTo;
    var s, t := o.hk.sets, TickHk(o, app).hk.sets;
    forall i | 0 <= i < |s| ensures t[i] == s[i].(countdown := t[i].countdown) {
      HkTicks.TickEach(o.hk, o.s1.down, MemoryOf(o.params.table, app), |s|, i);
    }
  }

  lemma MicroSame(c: Config, o: Obsw, m: Micro, service: u8)
    requires m.FeedFrame? ==> !Admitted(c, Call(o, m.frame), service)
    ensures SameConfig(service, o, Apply(c, o, m))
  {
    hide Feed, ControlStep, CheckLimits, TickHk, Admitted;
    match m {
      case FeedFrame(frame) => FeedSame(c, Call(o, frame), service);
      case Control(s) => ControlSame(o, s, service);
      case Check => LimitsSame(c, o, service);
      case Housekeep(app) => HousekeepSame(o, app, service);
      case _ =>
    }
  }

  /** None of the calls reaches a handler of the service. */
  ghost predicate NoneAdmitted(c: Config, calls: seq<Call>, service: u8) {
    forall k | 0 <= k < |calls| :: !Admitted(c, calls[k], service)
  }

  lemma {:induction false} MicrosSame(c: Config, o: Obsw, ms: seq<Micro>, service: u8)
    requires NoneAdmitted(c, CallsOf(c, o, ms), service)
    ensures SameConfig(service, o, After(c, o, ms))
  {
    hide Apply, SameConfig, Admitted;
    if ms == [] {
      SameSelf(service, o);
    } else {
      var n := |ms| - 1;
      var front, calls := CallsOf(c, o, ms[..n]), CallsOf(c, o, ms);
      assert forall k | 0 <= k < |front| :: front[k] == calls[k];
      MicrosSame(c, o, ms[..n], service);
      var before := After(c, o, ms[..n]);
      assert ms[n].FeedFrame? ==> calls[|front|] == Call(before, ms[n].frame);
      MicroSame(c, before, ms[n], service);
      SameTrans(service, o, before, After(c, o, ms));
    }
  }

  /**
    Between any two states of any run, a service's configuration differs only if in between a telecommand,
    uplinked, scheduled or event-triggered, was let through in the mode it met and handled by that service.
    */
  lemma ChangeNeedsTc(c: Config, o: Obsw, inputs: seq<Input>, j: nat, k: nat, service: u8) returns (call: Call)
    requires j <= k <= |RunMicros(c, o, inputs)|
    requires var ms := RunMicros(c, o, inputs);
      !SameConfig(service, After(c, o, ms[..j]), After(c, o, ms[..k]))
    ensures var ms := RunMicros(c, o, inputs); call in CallsOf(c, After(c, o, ms[..j]), ms[j..k])
    ensures call in RunCalls(c, o, inputs) && Admitted(c, call, service)
  {
    hide RunMicros, After, CallsOf, SameConfig, Admitted;
    var ms := RunMicros(c, o, inputs);
    var from := After(c, o, ms[..j]);
    assert ms[..k] == ms[..j] + ms[j..k] && ms == ms[..k] + ms[k..];
    AfterConcat(c, o, ms[..j], ms[j..k]);
    AfterConcat(c, o, ms[..k], ms[k..]);
    var calls := CallsOf(c, from, ms[j..k]);
    if NoneAdmitted(c, calls, service) {
      MicrosSame(c, from, ms[j..k], service);
      assert false;
    }
    var i :| 0 <= i < |calls| && Admitted(c, calls[i], service);
    call := calls[i];
  }

  // ----- SAFE and STANDBY -------------------------------------------------------------------------------

  /** The whitelist lets no configuring service through. */
  ghost predicate Restrictive(whitelist: seq<Fsm.Pair>) {
    forall i | 0 <= i < |whitelist| :: !Configures(whitelist[i].service)
  }

  /** Every call was made outside NOMINAL. */
  ghost predicate Outside(calls: seq<Call>) {
    forall k | 0 <= k < |calls| :: calls[k].before.fsm.mode != Fsm.Nominal
  }

  lemma OutsideAdmitsNone(c: Config, calls: seq<Call>, service: u8)
    requires WellRouted(c.routes) && Restrictive(c.whitelist) && Configures(service) && Outside(calls)
    ensures NoneAdmitted(c, calls, service)
  {
    hide FindRoute, TcPacket.Extract;
    forall k | 0 <= k < |calls| ensures !Admitted(c, calls[k], service) {
      var tc := TcPacket.Extract(calls[k].frame);
      if tc.Some? && FindRoute(c.routes, tc.value).Found? {
        FoundService(c.routes, tc.value);
      }
    }
  }

  /**
    Over any run all of whose telecommands, uplinked, scheduled or event-triggered, meet a mode other than
    NOMINAL, no service is reconfigured: the same housekeeping sets, memory, limit checks and event-actions,
    and no activity in the schedule that was not there.
    */
  lemma RunFrozen(c: Config, o: Obsw, inputs: seq<Input>, service: u8)
    requires WellRouted(c.routes) && Restrictive(c.whitelist) && Outside(RunCalls(c, o, inputs))
    requires Configures(service)
    ensures SameConfig(service, o, Run(c, o, inputs))
  {
    hide RunMicros, Run, Apply, SameConfig, Admitted;
    OutsideAdmitsNone(c, RunCalls(c, o, inputs), service);
    MicrosSame(c, o, RunMicros(c, o, inputs), service);
    RunIs(c, o, inputs);
  }

  /** The whitelist generated from the database is of this kind. */
  lemma DatabaseRestricts(whitelist: seq<Fsm.Pair>)
    requires Whitelist.Lists(whitelist, SimTarget.DATABASE)
    ensures Restrictive(whitelist)
  {
    forall i | 0 <= i < |whitelist| ensures !Configures(whitelist[i].service) {
      var p := whitelist[i];
      assert p in whitelist;
      SimTarget.DatabaseAllows(p.service, p.subservice);
    }
  }
}
