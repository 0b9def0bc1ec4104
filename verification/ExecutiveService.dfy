/**
  The command executive as the C program runs it: service objects wired together as in `sim/main.c`,
  the dispatcher of `src/tc/dispatcher.c`, and the release loops of services 11 and 19. Proved against
  `Executive`.
  */
module ExecutiveService {
  import opened Bytes
  import opened Executive
  import EventAction
  import EventActionService
  import Dispatcher
  import Events
  import HkModel
  import HkPool
  import Invariants
  import Housekeeping
  import KeyedTable
  import MemoryModel
  import MemoryService
  import Monitoring
  import MonitoringService
  import Obt
  import Parameters
  import Release
  import ReportGrammar
  import Safety
  import Schedule
  import ScheduleService
  import SmallServices
  import TcPacket
  import TmPacket
  import TmStore
  import Verification

  class Obc {
    const s1: Verification.S1
    const s3: Housekeeping.S3
    const s5: Events.S5
    const s6: MemoryService.S6
    const s8: SmallServices.S8
    const s9: SmallServices.S9
    const s11: ScheduleService.S11
    const s12: MonitoringService.S12
    const s17: SmallServices.S17
    const s19: EventActionService.S19
    const s20: SmallServices.S20
    const routes: seq<Route>

    /** Which objects the services share. */
    ghost predicate Wired() {
      && s3.s1 == s1 && s6.s1 == s1 && s8.s1 == s1 && s9.s1 == s1 && s11.s1 == s1 && s12.s1 == s1
      && s17.s1 == s1 && s19.s1 == s1 && s20.s1 == s1
      && s5.store == s1.store && s5.s19 == s19 && s8.s5 == s5 && s12.s5 == s5
      && s12.params == s20.table
    }

    /** Every object a telecommand or a tick may read. */
    ghost function Repr(): set<object> {
      {s1, s1.store, s1.store.slots, s3, s3.sets, s5, s5.fsm, s6, s6.mem, s9.obt, s11, s11.acts, s12, s12.defs,
       s17, s19, s19.defs, s19.queue, s20, s20.table}
      + if s3.pool == null then {} else {s3.pool}
    }

    ghost predicate Valid()
      reads Repr()
    {
      && Wired()
      && s1.store.Valid() && s3.Valid() && s5.Valid() && s6.Valid() && s11.Valid() && s12.Valid() && s19.Valid()
    }

    ghost function Config(): Executive.Config {
      Executive.Config(routes, s5.fsm.whitelist, s5.triggers, s3.Config(), s6.regions, s8.table,
                       s11.acts.Length, s12.defs.Length, s19.defs.Length, s12.convert)
    }

    ghost function View(): Obsw
      requires Valid()
      reads Repr()
    {
      Obsw(s1.View(), s3.View(), s6.View(), s9.obt.View(), s11.View(), s12.View(), s17.View(), s19.View(), s20.View(),
           s5.fsm.View(), SmallServices.Sender(s5.apid, s5.msgCounter, s5.timestamp))
    }

    /** The services are given, wired and initialised. */
    constructor (s1: Verification.S1, s3: Housekeeping.S3, s5: Events.S5, s6: MemoryService.S6, s8: SmallServices.S8,
                 s9: SmallServices.S9, s11: ScheduleService.S11, s12: MonitoringService.S12, s17: SmallServices.S17,
                 s19: EventActionService.S19, s20: SmallServices.S20, routes: seq<Route>)
      requires s3.s1 == s1 && s6.s1 == s1 && s8.s1 == s1 && s9.s1 == s1 && s11.s1 == s1 && s12.s1 == s1
      requires s17.s1 == s1 && s19.s1 == s1 && s20.s1 == s1
      requires s5.store == s1.store && s5.s19 == s19 && s8.s5 == s5 && s12.s5 == s5 && s12.params == s20.table
      requires s3.Valid() && s5.Valid() && s6.Valid() && s11.Valid() && s12.Valid()
      ensures Valid() && this.routes == routes
    {
      this.s1, this.s3, this.s5, this.s6, this.s8, this.s9 := s1, s3, s5, s6, s8, s9;
      this.s11, this.s12, this.s17, this.s19, this.s20, this.routes := s11, s12, s17, s19, s20, routes;
    }

    /** What the services keep object by object is the invariant of the whole executive, given that the
        store holds what was built, the identifiers agree and the clock is in range. */
    lemma ValidIsSound()
      requires Valid() && ReportGrammar.Sane(View().s1.down) && s3.ids == Parameters.Ids(s20.table[..])
      requires s9.obt.rem < 1000
      ensures Safety.Bounded(Config()) && Safety.Sound(Config(), View())
    {
      hide HkPool.Tiled, HkModel.DistinctIds, Monitoring.Sound, Schedule.Storable, EventAction.ActionValid;
      s3.UsedIsCells();
      KeyedTable.MapSize(s11.Rows());
      KeyedTable.MapSize(s19.Rows());
      assert Invariants.HkSound(Config().hk, View().hk.sets);
      assert Invariants.ScheduleSound(Config().scheduleCap, View().schedule);
      assert Invariants.ActionsSound(Config().actionCap, View().actions);
      assert Invariants.MonitorSound(Config().monitorCap, View().monitor);
      assert MemoryModel.Backed(Config().regions, |View().mem.data|);
      assert View().obt.Valid();
    }

    // ----- One service at a time --------------------------------------------------------------------

    method RouteHk(h: Handler, tc: Tc) returns (rc: int)
      requires s3.s1 == s1 && s3.Valid() && h.Service() == 3
      modifies s3, s3.sets, s3.pool, s1, s1.store, s1.store.slots
      ensures s3.Valid() && (s3.View(), s1.View(), rc == 0) == HkOp(s3.Config(), old(s3.View()), old(s1.View()), h, tc)
    {
      hide HkModel.Define, HkModel.Delete, HkModel.Enable, HkModel.Disable, Housekeeping.S3.Intact;
      if h.HkDefine? {
        rc := s3.Define(tc);
      } else if h.HkDelete? {
        rc := s3.Delete(tc);
      } else if h.HkEnable? {
        rc := s3.Enable(tc);
      } else {
        rc := s3.Disable(tc);
      }
    }

    method CallHk(h: Handler, tc: Tc) returns (rc: int)
      requires Valid() && h.Service() == 3
      modifies s3, s3.sets, s3.pool, s1, s1.store, s1.store.slots
      ensures Valid() && (View(), rc == 0) == HandleHk(Config(), old(View()), h, tc)
    {
      hide HkOp, Verification.S1.View;
      hide Housekeeping.S3.Intact, ScheduleService.S11.Intact, MonitoringService.S12.Intact;
      hide EventActionService.S19.Intact;
      hide Housekeeping.S3.View, ScheduleService.S11.View, MonitoringService.S12.View, EventActionService.S19.View;
      rc := RouteHk(h, tc);
    }

    method RouteMem(h: Handler, tc: Tc) returns (rc: int)
      requires s6.s1 == s1 && s6.Valid() && h.Service() == 6
      modifies s6`msgCounter, s6.mem, s1, s1.store, s1.store.slots
      ensures s6.Valid() && (s6.View(), s1.View(), rc == 0) == MemOp(s6.regions, old(s6.View()), old(s1.View()), h, tc)
    {
      hide MemoryModel.Load, MemoryModel.Check, MemoryModel.Dump, MemoryModel.Backed;
      if h.MemLoad? {
        rc := s6.Load(tc);
      } else if h.MemCheck? {
        rc := s6.Check(tc);
      } else {
        rc := s6.Dump(tc);
      }
    }

    method CallMem(h: Handler, tc: Tc) returns (rc: int)
      requires Valid() && h.Service() == 6
      modifies s6`msgCounter, s6.mem, s1, s1.store, s1.store.slots
      ensures Valid() && (View(), rc == 0) == HandleMem(Config(), old(View()), h, tc)
    {
      hide MemOp;
      hide Housekeeping.S3.Intact, ScheduleService.S11.Intact, MonitoringService.S12.Intact;
      hide EventActionService.S19.Intact;
      hide Housekeeping.S3.View, ScheduleService.S11.View, MonitoringService.S12.View, EventActionService.S19.View;
      rc := RouteMem(h, tc);
    }

    method RouteSchedule(h: Handler, tc: Tc) returns (rc: int)
      requires s11.s1 == s1 && s11.Valid() && h.Service() == 11
      modifies s11, s11.acts, s1, s1.store, s1.store.slots
      ensures s11.Valid()
      ensures (s11.View(), s1.View(), rc == 0)
           == ScheduleOp(s11.acts.Length, old(s11.View()), old(s1.View()), h, tc)
    {
      hide Schedule.Insert, Schedule.Delete, Schedule.DeleteAll, Schedule.Enable, Schedule.Disable;
      hide ScheduleService.S11.Intact;
      if h.SchedInsert? {
        rc := s11.Insert(tc);
      } else if h.SchedDelete? {
        rc := s11.Delete(tc);
      } else if h.SchedDeleteAll? {
        rc := s11.DeleteAll(tc);
      } else if h.SchedEnable? {
        rc := s11.Enable(tc);
      } else {
        rc := s11.Disable(tc);
      }
    }

    method CallSchedule(h: Handler, tc: Tc) returns (rc: int)
      requires Valid() && h.Service() == 11
      modifies s11, s11.acts, s1, s1.store, s1.store.slots
      ensures Valid() && (View(), rc == 0) == HandleSchedule(Config(), old(View()), h, tc)
    {
      hide ScheduleOp;
      hide Housekeeping.S3.Intact, ScheduleService.S11.Intact, MonitoringService.S12.Intact;
      hide EventActionService.S19.Intact;
      hide Housekeeping.S3.View, ScheduleService.S11.View, MonitoringService.S12.View, EventActionService.S19.View;
      rc := RouteSchedule(h, tc);
    }

    method RouteMonitor(h: Handler, tc: Tc) returns (rc: int)
      requires s12.s1 == s1 && s12.Valid() && h.Service() == 12
      modifies s12, s12.defs, s1, s1.store, s1.store.slots
      ensures s12.Valid()
      ensures (s12.View(), s1.View(), rc == 0)
           == MonitorOp(s12.defs.Length, old(s12.params[..]), old(s12.View()), old(s1.View()), h, tc)
    {
      hide Monitoring.Enable, Monitoring.Disable, Monitoring.Add, Monitoring.Delete, Monitoring.DeleteAll;
      hide MonitoringService.S12.Intact;
      if h.MonEnable? {
        rc := s12.Enable(tc);
      } else if h.MonDisable? {
        rc := s12.Disable(tc);
      } else if h.MonAdd? {
        rc := s12.Add(tc);
      } else if h.MonDelete? {
        rc := s12.Delete(tc);
      } else {
        rc := s12.DeleteAll(tc);
      }
    }

    method CallMonitor(h: Handler, tc: Tc) returns (rc: int)
      requires Valid() && h.Service() == 12
      modifies s12, s12.defs, s1, s1.store, s1.store.slots
      ensures Valid() && (View(), rc == 0) == HandleMonitor(Config(), old(View()), h, tc)
    {
      hide MonitorOp;
      hide Housekeeping.S3.Intact, ScheduleService.S11.Intact, MonitoringService.S12.Intact;
      hide EventActionService.S19.Intact;
      hide Housekeeping.S3.View, ScheduleService.S11.View, MonitoringService.S12.View, EventActionService.S19.View;
      rc := RouteMonitor(h, tc);
    }

    method RouteActions(h: Handler, tc: Tc) returns (rc: int)
      requires s19.s1 == s1 && s19.Valid() && h.Service() == 19
      modifies s19, s19.defs, s1, s1.store, s1.store.slots
      ensures s19.Valid()
      ensures (s19.View(), s1.View(), rc == 0)
           == ActionsOp(s19.defs.Length, old(s19.View()), old(s1.View()), h, tc)
    {
      hide EventAction.Add, EventAction.Delete, EventAction.DeleteAll, EventAction.Enable, EventAction.Disable;
      hide EventActionService.S19.Intact;
      if h.ActAdd? {
        rc := s19.Add(tc);
      } else if h.ActDelete? {
        rc := s19.Delete(tc);
      } else if h.ActDeleteAll? {
        rc := s19.DeleteAll(tc);
      } else if h.ActEnable? {
        rc := s19.Enable(tc);
      } else {
        rc := s19.Disable(tc);
      }
    }

    method CallActions(h: Handler, tc: Tc) returns (rc: int)
      requires Valid() && h.Service() == 19
      modifies s19, s19.defs, s1, s1.store, s1.store.slots
      ensures Valid() && (View(), rc == 0) == HandleActions(Config(), old(View()), h, tc)
    {
      hide ActionsOp;
      hide Housekeeping.S3.Intact, ScheduleService.S11.Intact, MonitoringService.S12.Intact;
      hide EventActionService.S19.Intact;
      hide Housekeeping.S3.View, ScheduleService.S11.View, MonitoringService.S12.View, EventActionService.S19.View;
      rc := RouteActions(h, tc);
    }

    method CallFunction(tc: Tc) returns (rc: int)
      requires Valid()
      modifies s1, s5`msgCounter, s1.store, s1.store.slots, s5.fsm, s19`queued, s19`dropped, s19.queue
      ensures Valid() && (View(), rc == 0) == HandleFunction(Config(), old(View()), tc)
    {
      hide SmallServices.Perform;
      hide Housekeeping.S3.Intact, ScheduleService.S11.Intact, MonitoringService.S12.Intact;
      hide EventActionService.S19.Intact;
      hide Housekeeping.S3.View, ScheduleService.S11.View, MonitoringService.S12.View, EventActionService.S19.View;
      rc := s8.PerformFunction(tc);
    }

    method CallClock(tc: Tc) returns (rc: int)
      requires Valid()
      modifies s9.obt, s1, s1.store, s1.store.slots
      ensures Valid() && (View(), rc == 0) == HandleOther(old(View()), SetObt, tc)
    {
      hide SmallServices.SetObt;
      hide Housekeeping.S3.Intact, ScheduleService.S11.Intact, MonitoringService.S12.Intact;
      hide EventActionService.S19.Intact;
      hide Housekeeping.S3.View, ScheduleService.S11.View, MonitoringService.S12.View, EventActionService.S19.View;
      rc := s9.SetTime(tc);
    }

    method CallPing(tc: Tc) returns (rc: int)
      requires Valid()
      modifies s17`msgCounter, s1, s1.store, s1.store.slots
      ensures Valid() && (View(), rc == 0) == HandleOther(old(View()), Ping, tc)
    {
      hide SmallServices.PingSpec;
      hide Housekeeping.S3.Intact, ScheduleService.S11.Intact, MonitoringService.S12.Intact;
      hide EventActionService.S19.Intact;
      hide Housekeeping.S3.View, ScheduleService.S11.View, MonitoringService.S12.View, EventActionService.S19.View;
      rc := s17.Ping(tc);
    }

    method CallSetParam(tc: Tc) returns (rc: int)
      requires Valid()
      modifies s20.table, s1, s1.store, s1.store.slots
      ensures Valid() && (View(), rc == 0) == HandleOther(old(View()), SetParam, tc)
    {
      hide SmallServices.SetParam;
      hide Housekeeping.S3.Intact, ScheduleService.S11.Intact, MonitoringService.S12.Intact;
      hide EventActionService.S19.Intact;
      hide Housekeeping.S3.View, ScheduleService.S11.View, MonitoringService.S12.View, EventActionService.S19.View;
      rc := s20.SetValue(tc);
    }

    method CallGetParam(tc: Tc) returns (rc: int)
      requires Valid()
      modifies s20`msgCounter, s1, s1.store, s1.store.slots
      ensures Valid() && (View(), rc == 0) == HandleOther(old(View()), GetParam, tc)
    {
      hide SmallServices.GetParam;
      hide Housekeeping.S3.Intact, ScheduleService.S11.Intact, MonitoringService.S12.Intact;
      hide EventActionService.S19.Intact;
      hide Housekeeping.S3.View, ScheduleService.S11.View, MonitoringService.S12.View, EventActionService.S19.View;
      rc := s20.GetValue(tc);
    }

    // ----- The dispatcher -----------------------------------------------------------------------------

    method CallOther(h: Handler, tc: Tc) returns (rc: int)
      requires Valid() && (h.SetObt? || h.Ping? || h.SetParam? || h.GetParam?)
      modifies Repr()
      ensures Valid() && (View(), rc == 0) == HandleOther(old(View()), h, tc)
    {
      hide View, Valid, HandleOther;
      match h {
        case SetObt => rc := CallClock(tc);
        case Ping => rc := CallPing(tc);
        case SetParam => rc := CallSetParam(tc);
        case GetParam => rc := CallGetParam(tc);
      }
    }

    /** The call through the routing table's function pointer. */
    method Call(h: Handler, tc: Tc) returns (rc: int)
      requires Valid()
      modifies Repr()
      ensures Valid() && (View(), rc == 0) == Handle(Config(), old(View()), h, tc)
    {
      hide View, HandleHk, HandleMem, HandleSchedule, HandleMonitor, HandleActions, HandleFunction, HandleOther;
      hide Housekeeping.S3.Valid, Events.S5.Valid, MemoryService.S6.Valid, ScheduleService.S11.Valid;
      hide MonitoringService.S12.Valid, EventActionService.S19.Valid, TmStore.TmStore.Valid;
      var s := h.Service();
      if s == 3 {
        rc := CallHk(h, tc);
      } else if s == 6 {
        rc := CallMem(h, tc);
      } else if s == 8 {
        rc := CallFunction(tc);
      } else if s == 11 {
        rc := CallSchedule(h, tc);
      } else if s == 12 {
        rc := CallMonitor(h, tc);
      } else if s == 19 {
        rc := CallActions(h, tc);
      } else {
        rc := CallOther(h, tc);
      }
    }

    method Refuse(flags: bv8, tc: Tc)
      requires Valid() && flags & Verification.ACK_REJECT != 0
      modifies s1, s1.store, s1.store.slots
      ensures Valid() && View() == old(View()).(s1 := old(View()).s1.Reject(tc, Verification.RejectCode(flags)))
    {
      hide Housekeeping.S3.Intact, ScheduleService.S11.Intact, MonitoringService.S12.Intact;
      hide EventActionService.S19.Intact;
      hide Housekeeping.S3.View, ScheduleService.S11.View, MonitoringService.S12.View, EventActionService.S19.View;
      s1.DispatchResponder(flags, tc);
    }

    /** The lookup loop, with its running reason for a miss. */
    method FindHandler(tc: Tc) returns (r: Lookup)
      ensures r == FindRoute(routes, tc)
    {
      var reason := NoService;
      for i := 0 to |routes|
        invariant !reason.Found? && FindRoute(routes, tc) == Resolved(reason, FindRoute(routes[i..], tc))
      {
        assert routes[i..][1..] == routes[i + 1..];
        var route := routes[i];
        if (route.apid != 0xFFFF && route.apid != tc.apid) || route.service != tc.service {
          continue;
        }
        if route.subservice == tc.subservice {
          return Found(route.handler);
        }
        reason := NoSubservice;
      }
      return reason;
    }

    /** The part of the feed behind the parsing. */
    method DispatchTc(tc: Tc) returns (r: Result)
      requires Valid()
      modifies Repr()
      ensures Valid() && (View(), r) == Executive.Dispatch(Config(), old(View()), tc)
    {
      hide Valid, Handle, FindRoute, Verification.RejectCode, Verification.Reporter.Report, Verification.TcRef;
      hide Housekeeping.S3.View, ScheduleService.S11.View, MonitoringService.S12.View, EventActionService.S19.View;
      Verification.RejectCodes();
      ModeIs();
      var allowed := s5.fsm.TcAllowed(tc.service, tc.subservice);
      if !allowed {
        Refuse(Verification.ACK_REJECT | Verification.REJECT_GATED, tc);
        return ErrGated;
      }
      var route := FindHandler(tc);
      match route {
        case Found(h) =>
          var rc := Call(h, tc);
          return if rc == 0 then Ok else ErrHandler;
        case NoSubservice =>
          Refuse(Verification.ACK_REJECT | Verification.REJECT_SUBSVC, tc);
          return ErrNoRoute;
        case NoService =>
          Refuse(Verification.ACK_REJECT | Verification.REJECT_SVC, tc);
          return ErrNoRoute;
      }
    }

    lemma ModeIs()
      requires Valid()
      ensures View().fsm.mode == s5.fsm.mode
    {
    }

    /** `obsw_tc_dispatcher_feed`. */
    method FeedFrame(frame: bytes) returns (r: Result)
      requires Valid()
      modifies Repr()
      ensures Valid() && (View(), r) == Feed(Config(), old(View()), frame)
    {
      hide View, Valid, Executive.Dispatch, TcPacket.Extract;
      match TcPacket.Extract(frame) {
        case None => return ErrParse;
        case Some(tc) => r := DispatchTc(tc);
      }
    }

    // ----- Stored telecommands --------------------------------------------------------------------------

    /** The search of `obsw_s11_run`: the packet of the earliest due activity, which leaves the table. */
    method TakeEarliest(now: nat) returns (next: Option<bytes>, ghost id: u16)
      requires Valid()
      modifies s11`count, s11.acts
      ensures Valid()
      ensures var jobs := old(View()).schedule.jobs;
        next.None? ==> !Schedule.AnyDue(jobs, now) && View() == old(View())
      ensures var jobs := old(View()).schedule.jobs;
        next.Some? ==>
          Schedule.Earliest(jobs, now, id) && jobs[id].tc == next.value && View() == Release.Taken(old(View()), id)
    {
      hide Schedule.Earliest, Schedule.AnyDue;
      hide Housekeeping.S3.Intact, MonitoringService.S12.Intact, EventActionService.S19.Intact;
      hide Housekeeping.S3.View, MonitoringService.S12.View, EventActionService.S19.View;
      var k := s11.FindEarliest(now);
      if k == s11.count {
        id := 0;
        return None, id;
      }
      id := s11.acts[k].key;
      next := Some(s11.acts[k].value.tc);
      s11.RemoveAt(k);
    }

    lemma ScheduleIs()
      requires Valid()
      ensures var s := View().schedule;
        s.enabled == s11.enabled && |s.jobs| == s11.count && Schedule.AllStorable(s.jobs)
      ensures View().obt.coarse == s9.obt.coarse && View().obt.fine == s9.obt.fine
    {
      KeyedTable.MapSize(s11.Rows());
    }

    /** `obsw_s11_run`. */
    method RunDue() returns (released: nat)
      requires Valid() && Dispatcher.WellRouted(routes)
      modifies Repr()
      ensures Valid() && View() == RunSchedule(Config(), old(View()))
      ensures released == if old(s11.enabled) then |Release.DueIds(old(View()))| else 0
    {
      hide View, Valid, Feed, Executive.Release, Schedule.DueOrder, Schedule.AllStorable, Schedule.Earliest;
      hide Schedule.AnyDue;
      hide Repr;
      released := 0;
      ghost var c, v := Config(), View();
      ScheduleIs();
      if !s11.enabled {
        return;
      }
      var now := Schedule.Key(s9.obt.coarse, s9.obt.fine);
      var limit := s11.count;
      ghost var ids := Release.DueIds(v);
      Schedule.DueOrderExact(v.schedule.jobs, now);
      ReleaseNone(c, v, ids);
      var more := true;
      while more && released < limit
        invariant Valid() && released <= |ids| && View() == Executive.Release(c, v, ids[..released])
        invariant Schedule.DueOrder(View().schedule.jobs, now) == ids[released..]
        invariant !more ==> released == |ids|
        decreases limit - released, more
      {
        ghost var before := View();
        more := ReleaseEarliest(now, c, v, ids, released);
        if more {
          released := released + 1;
        }
      }
      ReleaseNone(c, v, ids);
    }

    /** One round of the release loop: find, remove, feed. */
    method ReleaseEarliest(now: nat, ghost c: Executive.Config, ghost v: Obsw, ghost ids: seq<u16>, ghost k: nat)
      returns (found: bool)
      requires Valid() && c == Config() && Dispatcher.WellRouted(c.routes) && k <= |ids|
      requires View() == Executive.Release(c, v, ids[..k]) && Schedule.DueOrder(View().schedule.jobs, now) == ids[k..]
      modifies Repr()
      ensures Valid()
      ensures found ==> k < |ids| && View() == Executive.Release(c, v, ids[..k + 1])
                        && Schedule.DueOrder(View().schedule.jobs, now) == ids[k + 1..]
      ensures !found ==> k == |ids| && View() == old(View())
    {
      hide View, Valid, Feed, Executive.Release, Schedule.DueOrder, Schedule.AllStorable, Schedule.Earliest;
      hide Schedule.AnyDue;
      ScheduleIs();
      ghost var before := View();
      var next, id := TakeEarliest(now);
      if next.None? {
        Release.NothingDue(before.schedule.jobs, now);
        return false;
      }
      Release.ReleaseNext(c, v, ids, k, now, id);
      var _ := FeedFrame(next.value);
      return true;
    }

    lemma ReleaseNone(c: Executive.Config, v: Obsw, ids: seq<u16>)
      ensures Executive.Release(c, v, ids[..0]) == v && ids[0..] == ids && ids[..|ids|] == ids
    {
    }

    /** The action defined for an event, if any. */
    method FindAction(event: u16) returns (action: Option<bytes>)
      requires Valid()
      ensures var defs := View().actions.defs;
        action == if event in defs then Some(defs[event]) else None
    {
      hide Housekeeping.S3.Intact, ScheduleService.S11.Intact, MonitoringService.S12.Intact;
      hide Housekeeping.S3.View, ScheduleService.S11.View, MonitoringService.S12.View;
      var k := s19.FindDef(event);
      action := if k < s19.count then Some(s19.defs[k].value) else None;
    }

    method TakeBatch() returns (batch: seq<u16>)
      requires Valid()
      modifies s19`queued
      ensures Valid() && batch == old(View()).actions.queue
      ensures View() == old(View()).(actions := old(View()).actions.(queue := []))
    {
      hide Housekeeping.S3.Intact, ScheduleService.S11.Intact, MonitoringService.S12.Intact;
      hide EventActionService.S19.Intact;
      hide Housekeeping.S3.View, ScheduleService.S11.View, MonitoringService.S12.View, EventActionService.S19.View;
      batch := s19.TakeBatch();
    }

    /** `obsw_s19_run`. */
    method RunQueued() returns (run: nat)
      requires Valid()
      modifies Repr()
      ensures Valid() && View() == RunActions(Config(), old(View()))
      ensures run <= |old(View()).actions.queue|
    {
      hide View, Valid, RunBatch, RunAction;
      run := 0;
      ghost var c := Config();
      var batch := TakeBatch();
      ghost var v := View();
      BatchNone(c, v, batch);
      for i := 0 to |batch|
        invariant Valid() && run <= i && View() == RunBatch(c, v, batch[..i])
      {
        BatchNext(c, v, batch, i);
        var served := ServeEvent(batch[i]);
        if served {
          run := run + 1;
        }
      }
      BatchNone(c, v, batch);
    }

    method ServeEvent(event: u16) returns (served: bool)
      requires Valid()
      modifies Repr()
      ensures Valid() && View() == RunAction(Config(), old(View()), event)
    {
      hide View, Valid, Feed;
      var action := FindAction(event);
      served := action.Some?;
      if served {
        var _ := FeedFrame(action.value);
      }
    }

    lemma BatchNone(c: Executive.Config, v: Obsw, batch: seq<u16>)
      ensures RunBatch(c, v, batch[..0]) == v && batch[..|batch|] == batch
    {
    }

    lemma BatchNext(c: Executive.Config, v: Obsw, batch: seq<u16>, i: nat)
      requires i < |batch|
      ensures RunBatch(c, v, batch[..i + 1]) == RunAction(c, RunBatch(c, v, batch[..i]), batch[i])
    {
      hide RunAction;
      assert batch[..i + 1][..i] == batch[..i];
    }

    // ----- One control tick -------------------------------------------------------------------------------

    /** The writes of the control step to the parameter table, and the clock. */
    method Control(s: Step)
      requires Valid()
      modifies s20.table, s9.obt
      ensures Valid() && View() == ControlStep(old(View()), s)
    {
      hide Housekeeping.S3.Intact, ScheduleService.S11.Intact, MonitoringService.S12.Intact;
      hide EventActionService.S19.Intact;
      hide Housekeeping.S3.View, ScheduleService.S11.View, MonitoringService.S12.View, EventActionService.S19.View;
      hide Write, Obt.Advance;
      WriteParams(s.writes);
      s9.obt.AdvanceBy(s.dt);
    }

    method WriteParams(w: seq<(nat, u32)>)
      modifies s20.table
      ensures s20.table[..] == Write(old(s20.table[..]), w)
    {
      var t := s20.table;
      assert w[..0] == [];
      for i := 0 to |w|
        invariant t[..] == Write(old(t[..]), w[..i])
      {
        assert w[..i + 1][..i] == w[..i];
        var (k, v) := w[i];
        if k < t.Length {
          ghost var before := t[..];
          t[k] := t[k].(value := v);
          assert t[..] == before[k := t[k]];
        }
      }
      assert w[..|w|] == w;
    }

    method CheckMonitors()
      requires Valid()
      modifies s12.defs, s5`msgCounter, s1.store, s1.store.slots, s5.fsm, s19`queued, s19`dropped, s19.queue
      ensures Valid() && View() == CheckLimits(Config(), old(View()))
    {
      hide Monitoring.Check;
      hide Housekeeping.S3.Intact, ScheduleService.S11.Intact, MonitoringService.S12.Intact;
      hide EventActionService.S19.Intact;
      hide Housekeeping.S3.View, ScheduleService.S11.View, MonitoringService.S12.View, EventActionService.S19.View;
      s12.Check();
    }

    method TickHousekeeping(app: nat -> u32)
      requires Valid()
      modifies s3`msgCounter, s3.sets, s1.store, s1.store.slots
      ensures Valid() && View() == TickHk(old(View()), app)
    {
      hide HkModel.Tick;
      hide Housekeeping.S3.Intact, ScheduleService.S11.Intact, MonitoringService.S12.Intact;
      hide EventActionService.S19.Intact;
      hide Housekeeping.S3.View, ScheduleService.S11.View, MonitoringService.S12.View, EventActionService.S19.View;
      s3.Tick(MemoryOf(s20.table[..], app));
    }

    /** The drain loop: every packet of the store leaves, oldest first. */
    method DrainStore() returns (sent: seq<bytes>)
      requires Valid()
      modifies s1.store`tail
      ensures Valid() && sent == old(View()).s1.down.queue && View() == Drain(old(View()))
    {
      hide Housekeeping.S3.Intact, ScheduleService.S11.Intact, MonitoringService.S12.Intact;
      hide EventActionService.S19.Intact;
      hide Housekeeping.S3.View, ScheduleService.S11.View, MonitoringService.S12.View, EventActionService.S19.View;
      sent := Flush(s1.store);
    }

    static method Flush(store: TmStore.TmStore) returns (sent: seq<bytes>)
      requires store.Valid()
      modifies store`tail
      ensures store.Valid() && sent == old(store.Contents()) && store.Contents() == []
    {
      hide TmStore.Ring;
      sent := [];
      var buf := new u8[TmPacket.MAX_PACKET_LEN];
      ghost var q := store.Contents();
      var more := true;
      while more
        invariant store.Valid() && sent + store.Contents() == q
        invariant !more ==> store.Contents() == []
        decreases |store.Contents()|, more
      {
        store.PacketsFit();
        var rc, len := store.Dequeue(buf);
        if rc == TmStore.Ok {
          sent := sent + [buf[..len]];
        } else {
          more := false;
        }
      }
    }

    /** One sensor frame of the main loop. */
    method SensorTick(s: Step) returns (sent: seq<bytes>)
      requires Valid() && Dispatcher.WellRouted(routes)
      modifies Repr()
      ensures Valid() && View() == Tick(Config(), old(View()), s)
      ensures sent == BeforeDrain(Config(), old(View()), s).s1.down.queue
    {
      hide View, Valid, RunSchedule, RunActions, ControlStep, CheckLimits, TickHk, Drain;
      var _ := RunDue();
      var _ := RunQueued();
      Control(s);
      CheckMonitors();
      TickHousekeeping(s.app);
      sent := DrainStore();
    }

    /** One TC frame of the main loop. */
    method UplinkFrame(frame: bytes) returns (r: Result, sent: seq<bytes>)
      requires Valid()
      modifies Repr()
      ensures Valid() && View() == Next(Config(), old(View()), Uplink(frame))
      ensures r == Feed(Config(), old(View()), frame).1
      ensures sent == Feed(Config(), old(View()), frame).0.s1.down.queue
    {
      hide View, Valid, Feed, Drain;
      r := FeedFrame(frame);
      sent := DrainStore();
    }
  }

  /** What a lookup that missed so far becomes with the rest of the table. */
  function Resolved(reason: Lookup, rest: Lookup): Lookup {
    if rest.NoService? then reason else rest
  }
}
