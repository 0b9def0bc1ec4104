/**
  The main loop in single steps: every call of the dispatcher's feed, every activity taken out of the
  schedule, every event of a batch, the control step, the checks, the housekeeping and every packet
  sent, in the order in which the code makes them.
  */
module MicroSteps {
  import opened Bytes
  import opened Executive
  import opened Release
  import PusTm
  import Schedule

  datatype Micro =
    | FeedFrame(frame: bytes)
    | Take(id: u16)          // an activity leaves the schedule to be fed
    | TakeQueue              // the batch of service 19 is copied out
    | Serve(event: u16)      // the next event of the batch
    | Control(step: Step)
    | Check
    | Housekeep(app: nat -> u32)
    | Send                   // the oldest packet leaves the store

  function Sent(d: PusTm.Downlink): PusTm.Downlink {
    if d.queue == [] then d else d.(queue := d.queue[1..])
  }

  function Apply(c: Config, o: Obsw, m: Micro): Obsw {
    match m
    case FeedFrame(frame) => Feed(c, o, frame).0
    case Take(id) => Taken(o, id)
    case TakeQueue => o.(actions := o.actions.(queue := []))
    case Serve(_) => o
    case Control(s) => ControlStep(o, s)
    case Check => CheckLimits(c, o)
    case Housekeep(app) => TickHk(o, app)
    case Send => o.(s1 := o.s1.(down := Sent(o.s1.down)))
  }

  /** The state after some steps. */
  function After(c: Config, o: Obsw, ms: seq<Micro>): Obsw {
    if ms == [] then o else Apply(c, After(c, o, ms[..|ms| - 1]), ms[|ms| - 1])
  }

  /** The feeds among some steps, each with the state it was made in. */
  function CallsOf(c: Config, o: Obsw, ms: seq<Micro>): seq<Call> {
    if ms == [] then []
    else
      var n := |ms| - 1;
      CallsOf(c, o, ms[..n]) + (if ms[n].FeedFrame? then [Call(After(c, o, ms[..n]), ms[n].frame)] else [])
  }

  lemma {:induction false} AfterConcat(c: Config, o: Obsw, x: seq<Micro>, y: seq<Micro>)
    ensures After(c, o, x + y) == After(c, After(c, o, x), y)
    ensures CallsOf(c, o, x + y) == CallsOf(c, o, x) + CallsOf(c, After(c, o, x), y)
  {
    hide Apply;
    if y == [] {
      assert x + y == x;
    } else {
      assert (x + y)[..|x + y| - 1] == x + y[..|y| - 1];
      AfterConcat(c, o, x, y[..|y| - 1]);
    }
  }

  lemma AfterOne(c: Config, o: Obsw, m: Micro)
    ensures After(c, o, [m]) == Apply(c, o, m)
    ensures CallsOf(c, o, [m]) == if m.FeedFrame? then [Call(o, m.frame)] else []
  {
    hide Apply;
    assert [m][..0] == [];
    assert After(c, o, [m][..0]) == o && CallsOf(c, o, [m][..0]) == [];
  }

  /** One more step. */
  lemma AfterNext(c: Config, o: Obsw, ms: seq<Micro>, m: Micro)
    ensures After(c, o, ms + [m]) == Apply(c, After(c, o, ms), m)
    ensures CallsOf(c, o, ms + [m])
         == CallsOf(c, o, ms) + if m.FeedFrame? then [Call(After(c, o, ms), m.frame)] else []
  {
    hide Apply;
    assert (ms + [m])[..|ms|] == ms;
  }

  // ----- The steps of an input ------------------------------------------------------------------------

  function ReleaseMicros(c: Config, o: Obsw, ids: seq<u16>): seq<Micro> {
    if ids == [] then []
    else
      var n := |ids| - 1;
      var jobs := Executive.Release(c, o, ids[..n]).schedule.jobs;
      ReleaseMicros(c, o, ids[..n])
      + (if ids[n] in jobs then [Take(ids[n])] + [FeedFrame(jobs[ids[n]].tc)] else [])
  }

  function BatchMicros(c: Config, o: Obsw, batch: seq<u16>): seq<Micro> {
    if batch == [] then []
    else
      var n := |batch| - 1;
      var defs := RunBatch(c, o, batch[..n]).actions.defs;
      BatchMicros(c, o, batch[..n]) + [Serve(batch[n])]
      + (if batch[n] in defs then [FeedFrame(defs[batch[n]])] else [])
  }

  function Sends(n: nat): (r: seq<Micro>)
    ensures |r| == n
  {
    seq(n, _ => Send)
  }

  /** The stored telecommands of a sensor frame. */
  ghost function StoredMicros(c: Config, o: Obsw): seq<Micro> {
    var released := RunSchedule(c, o);
    (if o.schedule.enabled then ReleaseMicros(c, o, DueIds(o)) else [])
    + [TakeQueue]
    + BatchMicros(c, released.(actions := released.actions.(queue := [])), released.actions.queue)
  }

  /** A sensor frame up to the drain. */
  ghost function SensorMicros(c: Config, o: Obsw, s: Step): seq<Micro> {
    StoredMicros(c, o) + [Control(s)] + [Check] + [Housekeep(s.app)]
  }

  ghost function Micros(c: Config, o: Obsw, i: Input): seq<Micro> {
    match i
    case Uplink(frame) => [FeedFrame(frame)] + Sends(|Feed(c, o, frame).0.s1.down.queue|)
    case Sensor(s) => SensorMicros(c, o, s) + Sends(|BeforeDrain(c, o, s).s1.down.queue|)
  }

  lemma {:induction false} ReleaseIs(c: Config, o: Obsw, ids: seq<u16>)
    ensures After(c, o, ReleaseMicros(c, o, ids)) == Executive.Release(c, o, ids)
    ensures CallsOf(c, o, ReleaseMicros(c, o, ids)) == ReleaseCalls(c, o, ids)
  {
    hide Feed;
    if ids != [] {
      var n := |ids| - 1;
      ReleaseIs(c, o, ids[..n]);
      var x, before := ReleaseMicros(c, o, ids[..n]), Executive.Release(c, o, ids[..n]);
      if ids[n] in before.schedule.jobs {
        var take, feed := Take(ids[n]), FeedFrame(before.schedule.jobs[ids[n]].tc);
        AfterNext(c, o, x, take);
        AfterNext(c, o, x + [take], feed);
        assert x + ([take] + [feed]) == x + [take] + [feed];
      } else {
        assert x + [] == x;
      }
    }
  }

  lemma {:induction false} BatchIs(c: Config, o: Obsw, batch: seq<u16>)
    ensures After(c, o, BatchMicros(c, o, batch)) == RunBatch(c, o, batch)
    ensures CallsOf(c, o, BatchMicros(c, o, batch)) == BatchCalls(c, o, batch)
  {
    hide Feed;
    if batch != [] {
      var n := |batch| - 1;
      BatchIs(c, o, batch[..n]);
      var x, before := BatchMicros(c, o, batch[..n]), RunBatch(c, o, batch[..n]);
      AfterNext(c, o, x, Serve(batch[n]));
      if batch[n] in before.actions.defs {
        AfterNext(c, o, x + [Serve(batch[n])], FeedFrame(before.actions.defs[batch[n]]));
      } else {
        assert x + [Serve(batch[n])] + [] == x + [Serve(batch[n])];
      }
    }
  }

  lemma {:induction false} SendsIs(c: Config, o: Obsw, n: nat)
    requires n <= |o.s1.down.queue|
    ensures After(c, o, Sends(n)) == o.(s1 := o.s1.(down := o.s1.down.(queue := o.s1.down.queue[n..])))
    ensures CallsOf(c, o, Sends(n)) == []
  {
    hide Feed, ControlStep, CheckLimits, TickHk;
    if n > 0 {
      SendsIs(c, o, n - 1);
      assert Sends(n)[..n - 1] == Sends(n - 1);
    }
  }

  lemma SendsAll(c: Config, o: Obsw)
    ensures After(c, o, Sends(|o.s1.down.queue|)) == Drain(o) && CallsOf(c, o, Sends(|o.s1.down.queue|)) == []
  {
    SendsIs(c, o, |o.s1.down.queue|);
  }

  lemma StoredIs(c: Config, o: Obsw)
    ensures After(c, o, StoredMicros(c, o)) == RunActions(c, RunSchedule(c, o))
    ensures CallsOf(c, o, StoredMicros(c, o)) == ScheduleCalls(c, o) + QueuedCalls(c, RunSchedule(c, o))
  {
    hide Feed, Executive.Release, ReleaseCalls, ReleaseMicros, RunBatch, BatchCalls, BatchMicros, Schedule.DueOrder;
    hide ControlStep, CheckLimits, TickHk;
    var x := if o.schedule.enabled then ReleaseMicros(c, o, DueIds(o)) else [];
    var released := RunSchedule(c, o);
    if o.schedule.enabled {
      ReleaseIs(c, o, DueIds(o));
    }
    assert After(c, o, x) == released && CallsOf(c, o, x) == ScheduleCalls(c, o);
    var emptied := released.(actions := released.actions.(queue := []));
    AfterNext(c, o, x, TakeQueue);
    var y := BatchMicros(c, emptied, released.actions.queue);
    BatchIs(c, emptied, released.actions.queue);
    AfterConcat(c, o, x + [TakeQueue], y);
  }

  lemma SensorIs(c: Config, o: Obsw, s: Step)
    ensures After(c, o, SensorMicros(c, o, s)) == BeforeDrain(c, o, s)
    ensures CallsOf(c, o, SensorMicros(c, o, s)) == ScheduleCalls(c, o) + QueuedCalls(c, RunSchedule(c, o))
  {
    hide RunSchedule, RunActions, StoredMicros, ControlStep, CheckLimits, TickHk, ScheduleCalls, QueuedCalls, Feed;
    var x := StoredMicros(c, o);
    StoredIs(c, o);
    AfterNext(c, o, x, Control(s));
    AfterNext(c, o, x + [Control(s)], Check);
    AfterNext(c, o, x + [Control(s)] + [Check], Housekeep(s.app));
  }

  /** The steps of an input lead where the main loop does. */
  lemma MicrosIs(c: Config, o: Obsw, i: Input)
    ensures After(c, o, Micros(c, o, i)) == Next(c, o, i)
    ensures CallsOf(c, o, Micros(c, o, i)) == match i
      case Uplink(frame) => [Call(o, frame)]
      case Sensor(s) => ScheduleCalls(c, o) + QueuedCalls(c, RunSchedule(c, o))
  {
    hide Feed, BeforeDrain, SensorMicros, Drain, ScheduleCalls, QueuedCalls, RunSchedule, Sends;
    match i {
      case Uplink(frame) =>
        var fed := Feed(c, o, frame).0;
        AfterOne(c, o, FeedFrame(frame));
        SendsAll(c, fed);
        AfterConcat(c, o, [FeedFrame(frame)], Sends(|fed.s1.down.queue|));
      case Sensor(s) =>
        var before := BeforeDrain(c, o, s);
        SensorIs(c, o, s);
        SendsAll(c, before);
        AfterConcat(c, o, SensorMicros(c, o, s), Sends(|before.s1.down.queue|));
    }
  }

  // ----- Runs -------------------------------------------------------------------------------------------

  ghost function Run(c: Config, o: Obsw, inputs: seq<Input>): Obsw {
    if inputs == [] then o else Next(c, Run(c, o, inputs[..|inputs| - 1]), inputs[|inputs| - 1])
  }

  /** The steps of a whole run. */
  ghost function RunMicros(c: Config, o: Obsw, inputs: seq<Input>): seq<Micro> {
    if inputs == [] then []
    else
      var n := |inputs| - 1;
      RunMicros(c, o, inputs[..n]) + Micros(c, Run(c, o, inputs[..n]), inputs[n])
  }

  /** Every call of the dispatcher's feed in a run. */
  ghost function RunCalls(c: Config, o: Obsw, inputs: seq<Input>): seq<Call> {
    CallsOf(c, o, RunMicros(c, o, inputs))
  }

  lemma {:induction false} RunIs(c: Config, o: Obsw, inputs: seq<Input>)
    ensures After(c, o, RunMicros(c, o, inputs)) == Run(c, o, inputs)
  {
    hide Next, Micros, Apply;
    if inputs != [] {
      var n := |inputs| - 1;
      RunIs(c, o, inputs[..n]);
      var before := Run(c, o, inputs[..n]);
      MicrosIs(c, before, inputs[n]);
      AfterConcat(c, o, RunMicros(c, o, inputs[..n]), Micros(c, before, inputs[n]));
    }
  }
}
