/** Whole runs: any sequence of uplinked frames and sensor frames, from any sound state, step by step. */
module Runs {
  import opened Bytes
  import opened Dispatcher
  import opened Executive
  import opened Invariants
  import opened MicroSteps
  import opened Release
  import opened ReportGrammar
  import opened Safety
  import EventAction
  import HkModel
  import Monitoring
  import Parameters
  import PusTm
  import Schedule
  import TcPacket
  import TmPacket

  // ----- The account of some steps ------------------------------------------------------------------

  /** The service 1 reports of a list of calls, with a verdict for each; none for what does not parse. */
  function AckList(calls: seq<Call>, ws: seq<Verdict>): seq<Ack>
    requires |ws| == |calls|
  {
    if calls == [] then []
    else
      var n := |calls| - 1;
      AckList(calls[..n], ws[..n]) + AcksFor(calls[n], ws[n])
  }

  function AcksFor(call: Call, w: Verdict): seq<Ack> {
    match TcPacket.Extract(call.frame)
    case None => []
    case Some(tc) => Expected(tc, w)
  }

  /** A call did what its verdict says; what does not parse did nothing. */
  ghost predicate Told(c: Config, call: Call, w: Verdict) {
    var (after, r) := Feed(c, call.before, call.frame);
    match TcPacket.Extract(call.frame)
    case None => after == call.before && r == ErrParse
    case Some(tc) => Served(call.before, after, r == Ok, tc, w, FeedEvents(c, call.before, call.frame))
  }

  ghost predicate AllTold(c: Config, calls: seq<Call>, ws: seq<Verdict>) {
    |ws| == |calls| && forall k | 0 <= k < |calls| :: Told(c, calls[k], ws[k])
  }

  /** From o to o' the calls were made, each as its verdict says; the service 1 reports are theirs and
      no others; and the invariant is kept. */
  ghost predicate Accounted(c: Config, o: Obsw, o': Obsw, calls: seq<Call>, ws: seq<Verdict>) {
    && |ws| == |calls| && AllTold(c, calls, ws)
    && AcksOf(o'.s1) == AcksOf(o.s1) + AckList(calls, ws)
    && Kept(c, o, o')
  }

  lemma {:induction false} AckListConcat(x: seq<Call>, u: seq<Verdict>, y: seq<Call>, v: seq<Verdict>)
    requires |x| == |u| && |y| == |v|
    ensures AckList(x + y, u + v) == AckList(x, u) + AckList(y, v)
  {
    hide AcksFor;
    if y == [] {
      assert x + y == x && u + v == u;
    } else {
      var n := |y| - 1;
      AckListConcat(x, u, y[..n], v[..n]);
      assert (x + y)[..|x| + n] == x + y[..n] && (u + v)[..|x| + n] == u + v[..n];
    }
  }

  lemma AccountedTrans(c: Config, a: Obsw, b: Obsw, d: Obsw,
                       x: seq<Call>, u: seq<Verdict>, y: seq<Call>, v: seq<Verdict>)
    requires Accounted(c, a, b, x, u) && Accounted(c, b, d, y, v)
    ensures Accounted(c, a, d, x + y, u + v)
  {
    hide AllTold, Sound, AckList, AcksOf, BootSets;
    AckListConcat(x, u, y, v);
    TellAll(c, x, u, y, v);
  }

  lemma TellAll(c: Config, x: seq<Call>, u: seq<Verdict>, y: seq<Call>, v: seq<Verdict>)
    requires AllTold(c, x, u) && AllTold(c, y, v)
    ensures AllTold(c, x + y, u + v)
  {
    hide Told;
  }

  lemma AccountedQuiet(c: Config, o: Obsw, o': Obsw)
    requires Acks(o'.s1.down.log) == Acks(o.s1.down.log) && Kept(c, o, o')
    ensures Accounted(c, o, o', [], [])
  {
    hide Kept, Acks;
  }

  lemma AccountedCall(c: Config, call: Call) returns (w: Verdict)
    requires Bounded(c)
    ensures Accounted(c, call.before, Feed(c, call.before, call.frame).0, [call], [w])
  {
    hide Feed, Served, Sound, TcPacket.Extract, FeedEvents;
    w := FeedServed(c, call.before, call.frame);
    FeedKept(c, call.before, call.frame);
    CallAcks(c, call, w);
  }

  lemma CallAcks(c: Config, call: Call, w: Verdict)
    requires Told(c, call, w)
    ensures AcksOf(Feed(c, call.before, call.frame).0.s1) == AcksOf(call.before.s1) + AckList([call], [w])
  {
    hide Feed, TcPacket.Extract, AcksOf, Expected, Sane, FeedEvents;
    assert [call][..0] == [] && [w][..0] == [];
    assert AckList([call][..0], [w][..0]) == [];
  }

  // ----- Each single step -----------------------------------------------------------------------------

  lemma TakenKept(c: Config, o: Obsw, id: u16)
    ensures Kept(c, o, Taken(o, id))
  {
    hide HkSound, BootSets, ActionsSound, MonitorSound, Sane, Schedule.Storable, Parameters.Ids;
    if id in o.schedule.jobs {
      SmallerMap(o.schedule.jobs, id);
    } else {
      assert o.schedule.jobs - {id} == o.schedule.jobs;
    }
  }

  lemma EmptiedKept(c: Config, o: Obsw)
    ensures Kept(c, o, o.(actions := o.actions.(queue := [])))
  {
    hide HkSound, BootSets, ScheduleSound, MonitorSound, EventAction.AllValid, Sane, Parameters.Ids;
  }

  lemma {:induction false} WriteKeepsIds(t: seq<Parameters.Entry>, w: seq<(nat, u32)>)
    ensures Parameters.Ids(Write(t, w)) == Parameters.Ids(t)
  {
    if w != [] {
      var n := |w| - 1;
      WriteKeepsIds(t, w[..n]);
      var x, y := Write(t, w[..n]), Write(t, w);
      forall i | 0 <= i < |t| ensures y[i].id == t[i].id {
        assert Parameters.Ids(x)[i] == Parameters.Ids(t)[i];
      }
    }
  }

  lemma ControlKept(c: Config, o: Obsw, s: Step)
    ensures Kept(c, o, ControlStep(o, s))
  {
    hide HkSound, BootSets, ActionsSound, ScheduleSound, MonitorSound, Sane, Write;
    WriteKeepsIds(o.params.table, s.writes);
  }

  lemma LimitsQuiet(c: Config, o: Obsw)
    ensures Kept(c, o, CheckLimits(c, o))
    ensures Quiet(o.s1.down, CheckLimits(c, o).s1.down, LimitEvents(c, o))
    ensures CheckLimits(c, o).actions == HearAll(o.actions, LimitEvents(c, o))
  {
    hide HkSound, BootSets, EventAction.AllValid, ScheduleSound, Parameters.Ids, Monitoring.CheckUpTo, Sane;
    hide CheckEvents, HearAll;
    var r := Monitoring.ReadingsOf(o.params.table, c.convert);
    QuietSelf(o.s1.down);
    HeardSelf(o.Bus());
    CheckHeard(o.monitor.defs, o.Bus(), c.triggers, r, |o.monitor.defs|);
    assert o.monitor.defs[..|o.monitor.defs|] == o.monitor.defs;
    HearKeeps(o.actions, LimitEvents(c, o));
    if MonitorSound(c.monitorCap, o.monitor) {
      Monitoring.CheckSound(o.monitor, o.Bus(), c.triggers, r);
    }
  }

  /** The events a round of checks raises. */
  function LimitEvents(c: Config, o: Obsw): seq<u16> {
    if o.monitor.enabled then CheckEvents(o.monitor.defs, Monitoring.ReadingsOf(o.params.table, c.convert)) else []
  }

  lemma HousekeepQuiet(c: Config, o: Obsw, app: nat -> u32)
    ensures Kept(c, o, TickHk(o, app)) && Carried(o.s1.down, TickHk(o, app).s1.down, [])
  {
    hide HkModel.TickUpTo, HkSound, BootSets, ActionsSound, ScheduleSound, MonitorSound, Parameters.Ids, Sane;
    var m := MemoryOf(o.params.table, app);
    TickLayout(o.hk, o.s1.down, m, |o.hk.sets|);
    TickCarried(o.hk, o.s1.down, m, |o.hk.sets|);
    SameLayoutKept(c.hk, o.hk.sets, TickHk(o, app).hk.sets);
  }

  lemma SendKept(c: Config, o: Obsw)
    ensures Kept(c, o, Apply(c, o, Send))
  {
    hide HkSound, BootSets, ActionsSound, ScheduleSound, MonitorSound, Parameters.Ids, PusTm.Faithful;
    if PusTm.Faithful(o.s1.down) && o.s1.down.queue != [] {
      PusTm.DrainFaithful(o.s1.down);
    }
  }

  lemma MicroAccounted(c: Config, o: Obsw, m: Micro) returns (ws: seq<Verdict>)
    requires Bounded(c)
    ensures Accounted(c, o, Apply(c, o, m), CallsOf(c, o, [m]), ws)
  {
    hide Feed, ControlStep, CheckLimits, TickHk, Kept, After, CallsOf, Quiet, Carried, Accounted;
    AfterOne(c, o, m);
    if m.FeedFrame? {
      var w := AccountedCall(c, Call(o, m.frame));
      ws := [w];
    } else {
      SilentMicro(c, o, m);
      AccountedQuiet(c, o, Apply(c, o, m));
      ws := [];
    }
  }

  /** A step that feeds nothing builds no service 1 report and keeps the invariant. */
  lemma SilentMicro(c: Config, o: Obsw, m: Micro)
    requires !m.FeedFrame?
    ensures Kept(c, o, Apply(c, o, m)) && Acks(Apply(c, o, m).s1.down.log) == Acks(o.s1.down.log)
  {
    hide Feed, ControlStep, CheckLimits, TickHk, Sound, Acks, BootSets, Grew, EventsIn, HearAll, LimitEvents;
    match m {
      case Take(id) => TakenKept(c, o, id);
      case TakeQueue => EmptiedKept(c, o);
      case Serve(_) =>
      case Control(s) =>
        ControlKept(c, o, s);
        assert ControlStep(o, s).s1 == o.s1 by { ControlFrame(o, s); }
      case Check => LimitsQuiet(c, o);
      case Housekeep(app) => HousekeepQuiet(c, o, app);
      case Send => SendKept(c, o);
    }
  }

  lemma ControlFrame(o: Obsw, s: Step)
    ensures var o' := ControlStep(o, s); o' == o.(params := o'.params, obt := o'.obt)
  {
  }

  lemma {:induction false} MicrosAccounted(c: Config, o: Obsw, ms: seq<Micro>) returns (ws: seq<Verdict>)
    requires Bounded(c)
    ensures Accounted(c, o, After(c, o, ms), CallsOf(c, o, ms), ws)
  {
    hide Apply, Accounted, Kept;
    if ms == [] {
      ws := [];
      SelfKept(c, o);
      AccountedQuiet(c, o, o);
    } else {
      var n := |ms| - 1;
      ws := MicrosAccounted(c, o, ms[..n]);
      var before := After(c, o, ms[..n]);
      var u := MicroAccounted(c, before, ms[n]);
      AfterOne(c, before, ms[n]);
      AccountedTrans(c, o, before, After(c, o, ms), CallsOf(c, o, ms[..n]), ws, CallsOf(c, before, [ms[n]]), u);
      ws := ws + u;
    }
  }

  lemma SelfKept(c: Config, o: Obsw)
    ensures Kept(c, o, o)
  {
  }

  // ----- Theorems over runs -----------------------------------------------------------------------------

  /**
    In every run, the service 1 reports are those of the telecommands fed, uplinked or stored, in
    order: for each one TM(1,2), or TM(1,1) and one of TM(1,7) and TM(1,8), which is TM(1,7) exactly
    when the dispatcher returned OK. A telecommand answered by TM(1,2) left every table unchanged. The
    invariant of all tables holds at the end, and the boot-time housekeeping sets are as they were.
    */
  lemma RunAccounted(c: Config, o: Obsw, inputs: seq<Input>) returns (ws: seq<Verdict>)
    requires Bounded(c)
    ensures Accounted(c, o, Run(c, o, inputs), RunCalls(c, o, inputs), ws)
  {
    hide Run, RunMicros, Accounted, Apply;
    RunIs(c, o, inputs);
    ws := MicrosAccounted(c, o, RunMicros(c, o, inputs));
  }

  lemma StateSound(c: Config, o: Obsw, ms: seq<Micro>)
    requires Bounded(c) && Sound(c, o)
    ensures Sound(c, After(c, o, ms)) && BootSets(After(c, o, ms).hk.sets) == BootSets(o.hk.sets)
  {
    hide After, CallsOf, Sound, BootSets, AckList, Told;
    var _ := MicrosAccounted(c, o, ms);
  }

  /** Every state between two steps of any run is sound, and its boot-time housekeeping sets are those of
      the start. */
  lemma RunSound(c: Config, o: Obsw, inputs: seq<Input>, k: nat)
    requires Bounded(c) && Sound(c, o) && k <= |RunMicros(c, o, inputs)|
    ensures var s := After(c, o, RunMicros(c, o, inputs)[..k]);
      Sound(c, s) && BootSets(s.hk.sets) == BootSets(o.hk.sets)
  {
    hide RunMicros, After, Sound, BootSets;
    StateSound(c, o, RunMicros(c, o, inputs)[..k]);
  }

  /** What a packet reads back as: some packet a service built. */
  ghost predicate ReadsBack(b: bytes, log: seq<TmPacket.Packet>) {
    exists j :: 0 <= j < |log| && TmPacket.Decode(b)
                  == Some(log[j].(apid := log[j].apid % 0x800, seqCount := log[j].seqCount % 0x4000))
  }

  lemma SoundReadsBack(c: Config, o: Obsw, i: nat)
    requires Sound(c, o) && i < |o.s1.down.queue|
    ensures ReadsBack(o.s1.down.queue[i], o.s1.down.log)
  {
    hide TmPacket.Decode, PusTm.Faithful;
    PusTm.WaitingReadsBack(o.s1.down, i);
  }

  /** In every state of any run, between any two steps, every packet in the store reads back as one that
      some service built, with all its fields; so does every packet that is sent. */
  lemma PacketsReadBack(c: Config, o: Obsw, inputs: seq<Input>, k: nat, i: nat)
    requires Bounded(c) && Sound(c, o) && k <= |RunMicros(c, o, inputs)|
    requires i < |After(c, o, RunMicros(c, o, inputs)[..k]).s1.down.queue|
    ensures var d := After(c, o, RunMicros(c, o, inputs)[..k]).s1.down; ReadsBack(d.queue[i], d.log)
  {
    hide RunMicros, After, Sound, BootSets, ReadsBack;
    RunSound(c, o, inputs, k);
    SoundReadsBack(c, After(c, o, RunMicros(c, o, inputs)[..k]), i);
  }

  /** A step other than sending only builds packets: a packet stored in the middle of one is still there
      at its end, so no packet is outside the states above. */
  lemma StepsOnlyAdd(c: Config, o: Obsw, m: Micro)
    requires m != Send
    ensures Grew(o.s1.down, Apply(c, o, m).s1.down)
  {
    hide Feed, ControlStep, CheckLimits, TickHk, Kept, Acks, AcksOf, Grew, EventsIn, HearAll, LimitEvents, HkReports;
    GrewSelf(o.s1.down);
    match m {
      case FeedFrame(frame) => FeedGrew(c, o, frame);
      case Control(s) => ControlFrame(o, s);
      case Check => LimitsQuiet(c, o);
      case Housekeep(app) => HousekeepQuiet(c, o, app);
      case _ =>
    }
  }

  lemma FeedGrew(c: Config, o: Obsw, frame: bytes)
    ensures Grew(o.s1.down, Feed(c, o, frame).0.s1.down)
  {
    hide Feed, AcksOf, EventsIn, FeedEvents, Expected, TcPacket.Extract, Grew, HkReports;
    GrewSelf(o.s1.down);
    var w := FeedServed(c, o, frame);
  }

  /** What a sensor frame sends reads back, limit-check events and housekeeping reports included. */
  lemma SentReadsBack(c: Config, o: Obsw, s: Step, i: nat)
    requires Bounded(c) && Sound(c, o) && i < |BeforeDrain(c, o, s).s1.down.queue|
    ensures var d := BeforeDrain(c, o, s).s1.down; ReadsBack(d.queue[i], d.log)
  {
    hide BeforeDrain, SensorMicros, After, Sound, ReadsBack, BootSets, ScheduleCalls, QueuedCalls;
    SensorIs(c, o, s);
    StateSound(c, o, SensorMicros(c, o, s));
    SoundReadsBack(c, BeforeDrain(c, o, s), i);
  }

  /** One sensor frame feeds at most the activities in the schedule on entry and one queue of actions. */
  lemma TickBounded(c: Config, o: Obsw, s: Step)
    requires Bounded(c) && Sound(c, o) && WellRouted(c.routes)
    ensures |CallsOf(c, o, Micros(c, o, Sensor(s)))| <= |o.schedule.jobs| + EventAction.QUEUE_LEN
  {
    hide RunSchedule, Schedule.DueOrder, QueuedCalls, ScheduleCalls, HkSound, BootSets, Sane, Micros, CallsOf, After;
    hide Schedule.AllStorable, EventAction.AllValid, Parameters.Ids, MonitorSound, ActionsFor;
    MicrosIs(c, o, Sensor(s));
    var released := RunSchedule(c, o);
    ScheduleSize(c, o);
    ReleasedSound(c, o);
    RunDispatchesQueue(c, released);
  }

  lemma ReleasedSound(c: Config, o: Obsw)
    requires Bounded(c) && Sound(c, o)
    ensures Sound(c, RunSchedule(c, o))
  {
    hide Sound, After, ReleaseMicros, Executive.Release, Schedule.DueOrder, BootSets, ReleaseCalls;
    if o.schedule.enabled {
      ReleaseIs(c, o, DueIds(o));
      StateSound(c, o, ReleaseMicros(c, o, DueIds(o)));
    }
  }

  lemma ScheduleSize(c: Config, o: Obsw)
    requires WellRouted(c.routes) && Schedule.AllStorable(o.schedule.jobs)
    ensures |ScheduleCalls(c, o)| <= |o.schedule.jobs|
  {
    hide ReleaseCalls, Schedule.DueOrder, Schedule.AllStorable, RunSchedule, Schedule.ExactlyDueAt, Schedule.InOrder;
    RunReleasesDue(c, o);
    Schedule.DueOrderExact(o.schedule.jobs, Schedule.Key(o.obt.coarse, o.obt.fine));
  }
}
