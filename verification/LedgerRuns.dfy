/**
  The bookkeeping of service 11 over every run of the whole executive. The ledger is a function of the
  run: it takes every step in turn, so its entries are what the run inserted and released.
  */
module LedgerRuns {
  import opened Bytes
  import opened Dispatcher
  import opened Executive
  import opened MicroSteps
  import opened Release
  import opened Runs
  import opened Safety
  import Invariants
  import Monitoring
  import S = ScheduleLedger
  import Schedule
  import TcPacket
  import Verification

  /** What a feed does to the schedule, if it reaches a handler of service 11. */
  function TableOp(c: Config, o: Obsw, frame: bytes): Option<S.Op> {
    match TcPacket.Extract(frame)
    case None => None
    case Some(tc) =>
      match Reached(c, o, tc)
      case Some(SchedInsert) => Some(S.InsertTc(tc))
      case Some(SchedDelete) => Some(S.DeleteTc(tc))
      case Some(SchedDeleteAll) => Some(S.DeleteAllTc(tc))
      case Some(SchedEnable) => Some(S.EnableTc(tc))
      case Some(SchedDisable) => Some(S.DisableTc(tc))
      case _ => None
  }

  /** The ledger over one step. */
  function Book(c: Config, o: Obsw, m: Micro, l: S.Ledger): S.Ledger {
    match m
    case FeedFrame(frame) =>
      (match TableOp(c, o, frame)
       case None => l
       case Some(op) => S.Step(c.scheduleCap, l, o.s1, op))
    case Take(id) => S.Step(c.scheduleCap, l, o.s1, S.Take(id))
    case _ => l
  }

  /** The ledger over some steps from a state. */
  function Books(c: Config, o: Obsw, ms: seq<Micro>, l: S.Ledger): S.Ledger {
    if ms == [] then l
    else
      var n := |ms| - 1;
      Book(c, After(c, o, ms[..n]), ms[n], Books(c, o, ms[..n], l))
  }

  /** A feed that reaches service 11 does to the table what the ledger says, and no other feed does
      anything to it; it returns OK exactly for an accepted insertion, where it is one. */
  lemma DispatchBooked(c: Config, o: Obsw, tc: Tc)
    ensures var (o', r) := Executive.Dispatch(c, o, tc);
      match Reached(c, o, tc)
      case Some(SchedInsert) =>
        o'.schedule == S.Apply(c.scheduleCap, o.schedule, o.s1, S.InsertTc(tc))
        && (r == Ok <==> Schedule.Insert(c.scheduleCap, o.schedule, o.s1, tc).2)
      case Some(SchedDelete) => o'.schedule == S.Apply(c.scheduleCap, o.schedule, o.s1, S.DeleteTc(tc))
      case Some(SchedDeleteAll) => o'.schedule == S.Apply(c.scheduleCap, o.schedule, o.s1, S.DeleteAllTc(tc))
      case Some(SchedEnable) => o'.schedule == S.Apply(c.scheduleCap, o.schedule, o.s1, S.EnableTc(tc))
      case Some(SchedDisable) => o'.schedule == S.Apply(c.scheduleCap, o.schedule, o.s1, S.DisableTc(tc))
      case _ => o'.schedule == o.schedule
  {
    hide FindRoute, Schedule.Insert, Schedule.Delete, Verification.Reporter.Report, Invariants.HearAll, HandledEvents;
    if Reached(c, o, tc).Some? {
      var h := Reached(c, o, tc).value;
      if h.Service() != 11 {
        hide Handle;
        HandleFrame(c, o, h, tc);
      }
    }
  }

  lemma FeedBooked(c: Config, o: Obsw, frame: bytes)
    ensures var (o', r) := Feed(c, o, frame);
      match TableOp(c, o, frame)
      case None => o'.schedule == o.schedule
      case Some(op) =>
        && o'.schedule == S.Apply(c.scheduleCap, o.schedule, o.s1, op)
        && (op.InsertTc? ==> (r == Ok <==> Schedule.Insert(c.scheduleCap, o.schedule, o.s1, op.tc).2))
  {
    hide Executive.Dispatch, Reached, S.Apply, Schedule.Insert;
    if TcPacket.Extract(frame).Some? {
      DispatchBooked(c, o, TcPacket.Extract(frame).value);
    }
  }

  /** The other steps leave the schedule alone. */
  lemma ScheduleFrame(c: Config, o: Obsw, m: Micro)
    requires !m.FeedFrame? && !m.Take?
    ensures Apply(c, o, m).schedule == o.schedule
  {
    hide Feed, Write, Monitoring.Check;
  }

  lemma BookIs(c: Config, o: Obsw, m: Micro, l: S.Ledger)
    requires l.s == o.schedule && S.Inv(c.scheduleCap, l)
    ensures Book(c, o, m, l).s == Apply(c, o, m).schedule && S.Inv(c.scheduleCap, Book(c, o, m, l))
  {
    hide Feed, ControlStep, CheckLimits, TickHk, S.Inv, TableOp;
    match m {
      case FeedFrame(frame) =>
        FeedBooked(c, o, frame);
        if TableOp(c, o, frame).Some? {
          var op := TableOp(c, o, frame).value;
          StepTable(c.scheduleCap, l, o.s1, op);
          S.StepKeeps(c.scheduleCap, l, o.s1, op);
        }
      case Take(id) =>
        StepTable(c.scheduleCap, l, o.s1, S.Take(id));
        S.StepKeeps(c.scheduleCap, l, o.s1, S.Take(id));
      case _ => ScheduleFrame(c, o, m);
    }
  }

  lemma StepTable(cap: nat, l: S.Ledger, v: Verification.Reporter, op: S.Op)
    ensures S.Step(cap, l, v, op).s == S.Apply(cap, l.s, v, op)
  {
    hide S.Apply, S.At, Schedule.Insert;
  }

  lemma {:induction false} BooksIs(c: Config, o: Obsw, ms: seq<Micro>, l: S.Ledger)
    requires l.s == o.schedule && S.Inv(c.scheduleCap, l)
    ensures Books(c, o, ms, l).s == After(c, o, ms).schedule && S.Inv(c.scheduleCap, Books(c, o, ms, l))
  {
    hide Book, Apply, S.Inv;
    if ms != [] {
      var n := |ms| - 1;
      BooksIs(c, o, ms[..n], l);
      BookIs(c, After(c, o, ms[..n]), ms[n], Books(c, o, ms[..n], l));
    }
  }

  // ----- What the entries of the ledger are --------------------------------------------------------------

  /** The activity a completed TC(11,4) inserted. */
  function Inserted(c: Config, call: Call): seq<Schedule.Job> {
    match TableOp(c, call.before, call.frame)
    case Some(InsertTc(tc)) => if Feed(c, call.before, call.frame).1 == Ok then [S.JobOf(tc)] else []
    case _ => []
  }

  /** The activities inserted by some calls, in order. */
  function InsertedJobs(c: Config, calls: seq<Call>): seq<Schedule.Job> {
    if calls == [] then [] else InsertedJobs(c, calls[..|calls| - 1]) + Inserted(c, calls[|calls| - 1])
  }

  function JobsOf(fates: seq<S.Fate>): (r: seq<Schedule.Job>)
    ensures |r| == |fates|
  {
    seq(|fates|, i requires 0 <= i < |fates| => fates[i].job)
  }

  lemma StepJobs(cap: nat, l: S.Ledger, v: Verification.Reporter, op: S.Op)
    ensures JobsOf(S.Step(cap, l, v, op).fates) == JobsOf(l.fates)
         + if op.InsertTc? && Schedule.Insert(cap, l.s, v, op.tc).2 then [S.JobOf(op.tc)] else []
  {
    hide S.Apply, Schedule.Insert, S.JobOf;
  }

  lemma BookInserted(c: Config, o: Obsw, m: Micro, l: S.Ledger)
    requires l.s == o.schedule
    ensures JobsOf(Book(c, o, m, l).fates)
         == JobsOf(l.fates) + if m.FeedFrame? then Inserted(c, Call(o, m.frame)) else []
  {
    hide Feed, TableOp, S.Step, S.JobOf, Schedule.Insert;
    match m {
      case FeedFrame(frame) =>
        FeedBooked(c, o, frame);
        if TableOp(c, o, frame).Some? {
          StepJobs(c.scheduleCap, l, o.s1, TableOp(c, o, frame).value);
        }
      case Take(id) => StepJobs(c.scheduleCap, l, o.s1, S.Take(id));
      case _ =>
    }
  }

  lemma {:induction false} BooksInserted(c: Config, o: Obsw, ms: seq<Micro>, l: S.Ledger)
    requires l.s == o.schedule && S.Inv(c.scheduleCap, l)
    ensures JobsOf(Books(c, o, ms, l).fates) == JobsOf(l.fates) + InsertedJobs(c, CallsOf(c, o, ms))
  {
    hide Book, Apply, S.Inv, Inserted;
    if ms != [] {
      var n := |ms| - 1;
      BooksInserted(c, o, ms[..n], l);
      BooksIs(c, o, ms[..n], l);
      var before, x := After(c, o, ms[..n]), CallsOf(c, o, ms[..n]);
      BookInserted(c, before, ms[n], Books(c, o, ms[..n], l));
      hide JobsOf;
      if ms[n].FeedFrame? {
        var call := Call(before, ms[n].frame);
        assert (x + [call])[..|x|] == x;
      } else {
        var jobs := JobsOf(Books(c, o, ms[..n], l).fates);
        assert jobs + [] == jobs && x + [] == x;
      }
    }
  }

  /** The identifiers a call took out of the table: a TC(11,5) that completed, or a TC(11,6). */
  function Removed(c: Config, call: Call): set<u16> {
    match TableOp(c, call.before, call.frame)
    case None => {}
    case Some(op) => S.Removes(call.before.schedule, op)
  }

  function RemovedCount(c: Config, calls: seq<Call>): nat {
    if calls == [] then 0 else RemovedCount(c, calls[..|calls| - 1]) + |Removed(c, calls[|calls| - 1])|
  }

  lemma BookDeleted(c: Config, o: Obsw, m: Micro, l: S.Ledger)
    requires l.s == o.schedule && S.Inv(c.scheduleCap, l)
    ensures S.DeletedCount(Book(c, o, m, l).fates)
         == S.DeletedCount(l.fates) + if m.FeedFrame? then |Removed(c, Call(o, m.frame))| else 0
  {
    hide TableOp, S.Step, S.DeletedCount, S.Inv;
    match m {
      case FeedFrame(frame) =>
        if TableOp(c, o, frame).Some? {
          S.DeletesCounted(c.scheduleCap, l, o.s1, TableOp(c, o, frame).value);
        }
      case Take(id) => S.DeletesCounted(c.scheduleCap, l, o.s1, S.Take(id));
      case _ =>
    }
  }

  /** The insertions the ledger counts as deleted are those the calls removed. */
  lemma {:induction false} BooksDeleted(c: Config, o: Obsw, ms: seq<Micro>, l: S.Ledger)
    requires l.s == o.schedule && S.Inv(c.scheduleCap, l)
    ensures S.DeletedCount(Books(c, o, ms, l).fates) == S.DeletedCount(l.fates) + RemovedCount(c, CallsOf(c, o, ms))
  {
    hide Book, Apply, S.Inv, Removed, S.DeletedCount;
    if ms != [] {
      var n := |ms| - 1;
      BooksDeleted(c, o, ms[..n], l);
      BooksIs(c, o, ms[..n], l);
      var before, x := After(c, o, ms[..n]), CallsOf(c, o, ms[..n]);
      BookDeleted(c, before, ms[n], Books(c, o, ms[..n], l));
      if ms[n].FeedFrame? {
        var call := Call(before, ms[n].frame);
        assert (x + [call])[..|x|] == x;
      } else {
        assert x + [] == x;
      }
    }
  }

  /** The order of release lists insertions of the ledger. */
  ghost predicate Ordered(l: S.Ledger) {
    forall i | 0 <= i < |l.order| :: l.order[i] < |l.fates|
  }

  /** The packets of the released insertions, in order of release. */
  ghost function ReleasedFrames(l: S.Ledger): (r: seq<bytes>)
    requires Ordered(l)
    ensures |r| == |l.order|
  {
    seq(|l.order|, i requires 0 <= i < |l.order| => l.fates[l.order[i]].job.tc)
  }

  /** The packets of the activities taken out of the schedule, in order. */
  function TakenFrames(c: Config, o: Obsw, ms: seq<Micro>): seq<bytes> {
    if ms == [] then []
    else
      var n := |ms| - 1;
      TakenFrames(c, o, ms[..n]) + TakenFrame(After(c, o, ms[..n]), ms[n])
  }

  function TakenFrame(o: Obsw, m: Micro): seq<bytes> {
    if m.Take? && m.id in o.schedule.jobs then [o.schedule.jobs[m.id].tc] else []
  }

  lemma InRange(cap: nat, l: S.Ledger)
    requires S.Inv(cap, l)
    ensures Ordered(l)
  {
    forall i | 0 <= i < |l.order| ensures l.order[i] < |l.fates| {
      assert l.order[i] in l.order;
    }
  }

  lemma StepReleased(cap: nat, l: S.Ledger, v: Verification.Reporter, op: S.Op)
    requires S.Inv(cap, l) && S.Inv(cap, S.Step(cap, l, v, op))
    requires Ordered(l) && Ordered(S.Step(cap, l, v, op))
    ensures ReleasedFrames(S.Step(cap, l, v, op)) == ReleasedFrames(l)
         + if op.Take? && op.id in l.s.jobs then [l.s.jobs[op.id].tc] else []
  {
    hide S.Apply, Schedule.Insert, S.JobOf, S.Numbered, S.Listed, S.Settle;
    var t := S.Step(cap, l, v, op);
    if op.Take? {
      var k := S.At(l.fates, op.id);
      if k < |l.fates| {
        assert l.fates[k].status.id in l.s.jobs;
      } else {
        S.NotPending(l.s.jobs, l.fates, op.id);
      }
    } else {
      SameJobs(cap, l, v, op);
    }
  }

  lemma SameJobs(cap: nat, l: S.Ledger, v: Verification.Reporter, op: S.Op)
    requires !op.Take?
    ensures var t := S.Step(cap, l, v, op);
      t.order == l.order && |l.fates| <= |t.fates| && forall k | 0 <= k < |l.fates| :: t.fates[k].job == l.fates[k].job
  {
    hide S.Apply, Schedule.Insert, S.JobOf;
  }

  lemma BookReleased(c: Config, o: Obsw, m: Micro, l: S.Ledger)
    requires l.s == o.schedule && S.Inv(c.scheduleCap, l) && S.Inv(c.scheduleCap, Book(c, o, m, l))
    requires Ordered(l) && Ordered(Book(c, o, m, l))
    ensures ReleasedFrames(Book(c, o, m, l)) == ReleasedFrames(l) + TakenFrame(o, m)
  {
    hide TableOp, S.Step, S.Inv;
    match m {
      case FeedFrame(frame) =>
        if TableOp(c, o, frame).Some? {
          var op := TableOp(c, o, frame).value;
          StepReleased(c.scheduleCap, l, o.s1, op);
          NeverTakes(c, o, frame);
        }
      case Take(id) => StepReleased(c.scheduleCap, l, o.s1, S.Take(id));
      case _ =>
    }
  }

  lemma NeverTakes(c: Config, o: Obsw, frame: bytes)
    ensures TableOp(c, o, frame).Some? ==> !TableOp(c, o, frame).value.Take?
  {
    hide Reached;
  }

  lemma {:induction false} BooksReleased(c: Config, o: Obsw, ms: seq<Micro>, l: S.Ledger)
    requires l.s == o.schedule && S.Inv(c.scheduleCap, l)
    requires Ordered(l)
    ensures Ordered(Books(c, o, ms, l))
    ensures ReleasedFrames(Books(c, o, ms, l)) == ReleasedFrames(l) + TakenFrames(c, o, ms)
  {
    hide Book, Apply, S.Inv, TakenFrame, Ordered;
    BooksIs(c, o, ms, l);
    InRange(c.scheduleCap, Books(c, o, ms, l));
    if ms != [] {
      var n := |ms| - 1;
      BooksIs(c, o, ms[..n], l);
      BooksReleased(c, o, ms[..n], l);
      BookReleased(c, After(c, o, ms[..n]), ms[n], Books(c, o, ms[..n], l));
    }
  }

  // ----- What is taken is what a run of the schedule feeds ------------------------------------------------

  lemma {:induction false} TakenConcat(c: Config, o: Obsw, x: seq<Micro>, y: seq<Micro>)
    ensures TakenFrames(c, o, x + y) == TakenFrames(c, o, x) + TakenFrames(c, After(c, o, x), y)
  {
    hide Apply, TakenFrame;
    if y == [] {
      assert x + y == x;
    } else {
      assert (x + y)[..|x + y| - 1] == x + y[..|y| - 1];
      TakenConcat(c, o, x, y[..|y| - 1]);
      AfterConcat(c, o, x, y[..|y| - 1]);
    }
  }

  ghost predicate TakesNone(ms: seq<Micro>) {
    forall i | 0 <= i < |ms| :: !ms[i].Take?
  }

  lemma {:induction false} NothingTaken(c: Config, o: Obsw, ms: seq<Micro>)
    requires TakesNone(ms)
    ensures TakenFrames(c, o, ms) == []
  {
    hide Apply;
    if ms != [] {
      NothingTaken(c, o, ms[..|ms| - 1]);
    }
  }

  lemma FramesAppend(calls: seq<Call>, call: Call)
    ensures Frames(calls + [call]) == Frames(calls) + [call.frame]
  {
  }

  lemma TakeAndFeed(c: Config, o: Obsw, id: u16, frame: bytes)
    requires id in o.schedule.jobs
    ensures TakenFrames(c, o, [Take(id)] + [FeedFrame(frame)]) == [o.schedule.jobs[id].tc]
  {
    hide Apply;
    var y := [Take(id)] + [FeedFrame(frame)];
    assert y[..1] == [Take(id)] && y[..1][..0] == [];
    assert After(c, o, y[..1][..0]) == o && TakenFrames(c, o, y[..1][..0]) == [];
    assert TakenFrames(c, o, y[..1]) == [o.schedule.jobs[id].tc];
  }

  lemma {:induction false} ReleaseTaken(c: Config, o: Obsw, ids: seq<u16>)
    ensures TakenFrames(c, o, ReleaseMicros(c, o, ids)) == Frames(ReleaseCalls(c, o, ids))
  {
    hide Feed, Apply;
    if ids != [] {
      var n := |ids| - 1;
      var x, before := ReleaseMicros(c, o, ids[..n]), Executive.Release(c, o, ids[..n]);
      ReleaseTaken(c, o, ids[..n]);
      ReleaseIs(c, o, ids[..n]);
      if ids[n] in before.schedule.jobs {
        var frame := before.schedule.jobs[ids[n]].tc;
        TakenConcat(c, o, x, [Take(ids[n])] + [FeedFrame(frame)]);
        TakeAndFeed(c, before, ids[n], frame);
        FramesAppend(ReleaseCalls(c, o, ids[..n]), Call(Taken(before, ids[n]), frame));
      } else {
        assert x + [] == x;
        assert ReleaseCalls(c, o, ids) == ReleaseCalls(c, o, ids[..n]);
      }
    }
  }

  lemma {:induction false} BatchTakesNone(c: Config, o: Obsw, batch: seq<u16>)
    ensures TakesNone(BatchMicros(c, o, batch))
  {
    hide RunBatch;
    if batch != [] {
      BatchTakesNone(c, o, batch[..|batch| - 1]);
    }
  }

  lemma StoredTaken(c: Config, o: Obsw)
    ensures TakenFrames(c, o, StoredMicros(c, o)) == Frames(ScheduleCalls(c, o))
  {
    hide Feed, Executive.Release, ReleaseCalls, ReleaseMicros, RunBatch, BatchMicros, Schedule.DueOrder, Apply;
    var x := if o.schedule.enabled then ReleaseMicros(c, o, DueIds(o)) else [];
    if o.schedule.enabled {
      ReleaseTaken(c, o, DueIds(o));
    }
    var released := RunSchedule(c, o);
    var emptied := released.(actions := released.actions.(queue := []));
    var b := BatchMicros(c, emptied, released.actions.queue);
    BatchTakesNone(c, emptied, released.actions.queue);
    var y := [TakeQueue] + b;
    assert x + [TakeQueue] + b == x + y;
    TakenConcat(c, o, x, y);
    NothingTaken(c, After(c, o, x), y);
  }

  /** The packets an input takes out of the schedule are those the run of the schedule feeds. */
  lemma InputTaken(c: Config, o: Obsw, i: Input)
    ensures TakenFrames(c, o, Micros(c, o, i)) == Frames(ScheduledBy(c, o, i))
  {
    hide Feed, StoredMicros, BeforeDrain, ScheduleCalls, Apply, TakenFrames, After;
    match i {
      case Uplink(frame) =>
        NothingTaken(c, o, Micros(c, o, i));
      case Sensor(s) =>
        var x, n := StoredMicros(c, o), |BeforeDrain(c, o, s).s1.down.queue|;
        var y := [Control(s)] + [Check] + [Housekeep(s.app)] + Sends(n);
        assert Micros(c, o, i) == x + y;
        TakenConcat(c, o, x, y);
        NothingTaken(c, After(c, o, x), y);
        StoredTaken(c, o);
    }
  }

  /** The calls of the runs of the schedule in an input. */
  ghost function ScheduledBy(c: Config, o: Obsw, i: Input): seq<Call> {
    match i case Uplink(_) => [] case Sensor(_) => ScheduleCalls(c, o)
  }

  /** The calls of all runs of the schedule in a run of the executive. */
  ghost function ScheduledCalls(c: Config, o: Obsw, inputs: seq<Input>): seq<Call> {
    if inputs == [] then []
    else
      var n := |inputs| - 1;
      ScheduledCalls(c, o, inputs[..n]) + ScheduledBy(c, Run(c, o, inputs[..n]), inputs[n])
  }

  lemma FramesConcat(x: seq<Call>, y: seq<Call>)
    ensures Frames(x + y) == Frames(x) + Frames(y)
  {
  }

  lemma {:induction false} RunTaken(c: Config, o: Obsw, inputs: seq<Input>)
    ensures TakenFrames(c, o, RunMicros(c, o, inputs)) == Frames(ScheduledCalls(c, o, inputs))
  {
    hide Next, Micros, ScheduledBy, Apply, TakenFrame;
    if inputs != [] {
      var n := |inputs| - 1;
      var before := Run(c, o, inputs[..n]);
      RunTaken(c, o, inputs[..n]);
      RunIs(c, o, inputs[..n]);
      TakenConcat(c, o, RunMicros(c, o, inputs[..n]), Micros(c, before, inputs[n]));
      InputTaken(c, before, inputs[n]);
      FramesConcat(ScheduledCalls(c, o, inputs[..n]), ScheduledBy(c, before, inputs[n]));
    }
  }

  /** The ledger of a run from boot. */
  ghost function RunBooks(c: Config, o: Obsw, inputs: seq<Input>): S.Ledger {
    Books(c, o, RunMicros(c, o, inputs), S.Boot())
  }

  /**
    Over every run of the executive from an initial schedule: the insertions of the ledger are the TC(11,4)
    that completed, in order, with the activities they described; those it counts as released are, packet by
    packet and in order, what the runs of the schedule fed, and each of them is released only once; those it
    counts as deleted are as many as TC(11,5) and TC(11,6) took out; and insertions are the released, the
    deleted and the pending ones, the last being the table.
    */
  lemma ScheduleConserved(c: Config, o: Obsw, inputs: seq<Input>)
    requires Bounded(c) && o.schedule == S.Boot().s
    ensures var l := RunBooks(c, o, inputs);
      && l.s == Run(c, o, inputs).schedule
      && JobsOf(l.fates) == InsertedJobs(c, RunCalls(c, o, inputs))
      && Ordered(l)
      && ReleasedFrames(l) == Frames(ScheduledCalls(c, o, inputs))
      && S.Listed(l.fates, l.order) && S.Matched(l.s.jobs, l.fates)
      && |l.fates| == |l.s.jobs| + |ScheduledCalls(c, o, inputs)| + RemovedCount(c, RunCalls(c, o, inputs))
  {
    hide RunMicros, Run, Books, InsertedJobs, RemovedCount, ScheduledCalls, TakenFrames, Apply;
    hide S.Matched, S.Numbered, S.Listed;
    var ms, l := RunMicros(c, o, inputs), RunBooks(c, o, inputs);
    S.BootInv(c.scheduleCap);
    BooksIs(c, o, ms, S.Boot());
    BooksInserted(c, o, ms, S.Boot());
    BooksReleased(c, o, ms, S.Boot());
    BooksDeleted(c, o, ms, S.Boot());
    RunTaken(c, o, inputs);
    RunIs(c, o, inputs);
    S.Counted(c.scheduleCap, l);
    assert JobsOf(S.Boot().fates) == [] && ReleasedFrames(S.Boot()) == [];
  }
}
