/**
  The bookkeeping of service 19 over every run of the whole executive. The ledger is a function of the
  run: it takes every step in turn, so its entries are the events the run raised and what became of them.
  */
module EventRuns {
  import opened Bytes
  import opened Dispatcher
  import opened Executive
  import opened MicroSteps
  import opened Release
  import opened Runs
  import opened Safety
  import A = ActionLedger
  import EventAction
  import Invariants
  import ReportGrammar
  import Schedule
  import TcPacket
  import Verification

  // ----- Events of a run ------------------------------------------------------------------------------------

  /** The events one step raises. */
  function MicroEvents(c: Config, o: Obsw, m: Micro): seq<u16> {
    match m
    case FeedFrame(frame) => FeedEvents(c, o, frame)
    case Check => LimitEvents(c, o)
    case _ => []
  }

  /** The events some steps raise. */
  function RunEvents(c: Config, o: Obsw, ms: seq<Micro>): seq<u16> {
    if ms == [] then []
    else
      var n := |ms| - 1;
      RunEvents(c, o, ms[..n]) + MicroEvents(c, After(c, o, ms[..n]), ms[n])
  }

  lemma MicroLogged(c: Config, o: Obsw, m: Micro)
    ensures ReportGrammar.EventsIn(Apply(c, o, m).s1.down.log)
         == ReportGrammar.EventsIn(o.s1.down.log) + MicroEvents(c, o, m)
  {
    hide Feed, FeedEvents, LimitEvents, ControlStep, CheckLimits, TickHk, ReportGrammar.EventsIn, ReportGrammar.Sane;
    hide ReportGrammar.Acks, ReportGrammar.AcksOf, ReportGrammar.Expected, Kept, TcPacket.Extract, Invariants.HearAll;
    var events := ReportGrammar.EventsIn(o.s1.down.log);
    match m {
      case FeedFrame(frame) =>
        var w := FeedServed(c, o, frame);
        if TcPacket.Extract(frame).None? {
          NoEvents(c, o, frame);
          assert events + [] == events;
        }
      case Control(s) =>
        ControlFrame(o, s);
        assert events + [] == events;
      case Check => LimitsQuiet(c, o);
      case Housekeep(app) => HousekeepQuiet(c, o, app);
      case _ => assert events + [] == events;
    }
  }

  lemma NoEvents(c: Config, o: Obsw, frame: bytes)
    requires TcPacket.Extract(frame).None?
    ensures FeedEvents(c, o, frame) == []
  {
    hide DispatchEvents;
  }

  /** The events raised are the service 5 packets built, in order. */
  lemma {:induction false} EventsLogged(c: Config, o: Obsw, ms: seq<Micro>)
    ensures ReportGrammar.EventsIn(After(c, o, ms).s1.down.log)
         == ReportGrammar.EventsIn(o.s1.down.log) + RunEvents(c, o, ms)
  {
    hide Apply, MicroEvents, ReportGrammar.EventsIn;
    if ms == [] {
      assert ReportGrammar.EventsIn(o.s1.down.log) + [] == ReportGrammar.EventsIn(o.s1.down.log);
    } else {
      var n := |ms| - 1;
      EventsLogged(c, o, ms[..n]);
      MicroLogged(c, After(c, o, ms[..n]), ms[n]);
    }
  }

  /** The events that match a definition while the service is enabled. */
  function Matching(a: EventAction.Actions, es: seq<u16>): seq<u16> {
    if es == [] then []
    else
      var e := es[|es| - 1];
      Matching(a, es[..|es| - 1]) + if a.enabled && e in a.defs then [e] else []
  }

  /** The matched events of some steps, each matched in the state it was raised in. */
  function MatchedEvents(c: Config, o: Obsw, ms: seq<Micro>): seq<u16> {
    if ms == [] then []
    else
      var n := |ms| - 1;
      var before := After(c, o, ms[..n]);
      MatchedEvents(c, o, ms[..n]) + Matching(before.actions, MicroEvents(c, before, ms[n]))
  }

  // ----- The ledger of a run --------------------------------------------------------------------------------

  /** What a feed does to the definitions, if it reaches a handler of service 19. */
  function ActionOp(c: Config, o: Obsw, frame: bytes): Option<A.Op> {
    match TcPacket.Extract(frame)
    case None => None
    case Some(tc) =>
      match Reached(c, o, tc)
      case Some(ActAdd) => Some(A.AddTc(tc))
      case Some(ActDelete) => Some(A.DeleteTc(tc))
      case Some(ActDeleteAll) => Some(A.DeleteAllTc(tc))
      case Some(ActEnable) => Some(A.EnableTc(tc))
      case Some(ActDisable) => Some(A.DisableTc(tc))
      case _ => None
  }

  /** The ledger over some events in turn. */
  function Hear(cap: nat, l: A.Ledger, v: Verification.Reporter, es: seq<u16>): A.Ledger {
    if es == [] then l else A.Step(cap, Hear(cap, l, v, es[..|es| - 1]), v, A.Event(es[|es| - 1]))
  }

  /** What a step does to the ledger besides the events it raises. */
  function Track(c: Config, o: Obsw, m: Micro, l: A.Ledger): A.Ledger {
    match m
    case FeedFrame(frame) =>
      (match ActionOp(c, o, frame)
       case None => l
       case Some(op) => A.Step(c.actionCap, l, o.s1, op))
    case TakeQueue => A.Step(c.actionCap, l, o.s1, A.Take)
    case Serve(_) => A.Step(c.actionCap, l, o.s1, A.Serve)
    case _ => l
  }

  /** The ledger over some steps from a state. */
  function Tracks(c: Config, o: Obsw, ms: seq<Micro>, l: A.Ledger): A.Ledger {
    if ms == [] then l
    else
      var n := |ms| - 1;
      var before := After(c, o, ms[..n]);
      Hear(c.actionCap, Track(c, before, ms[n], Tracks(c, o, ms[..n], l)), before.s1, MicroEvents(c, before, ms[n]))
  }

  lemma {:induction false} HearIs(cap: nat, l: A.Ledger, v: Verification.Reporter, es: seq<u16>)
    requires A.Inv(l)
    ensures var t := Hear(cap, l, v, es);
      && A.Inv(t) && t.a == Invariants.HearAll(l.a, es)
      && t.events == l.events + Matching(l.a, es)
      && t.batch == l.batch && t.serving == l.serving && t.dispatched == l.dispatched
      && t.a.defs == l.a.defs && t.a.enabled == l.a.enabled
  {
    hide A.Inv, Verification.Reporter.Report;
    if es == [] {
      assert l.events + [] == l.events;
    } else {
      var n := |es| - 1;
      HearIs(cap, l, v, es[..n]);
      A.StepKeeps(cap, Hear(cap, l, v, es[..n]), v, A.Event(es[n]));
    }
  }

  /** A feed that reaches service 19 does to it what the ledger says; any other feed only raises events. */
  lemma DispatchTracked(c: Config, o: Obsw, tc: Tc)
    ensures var o' := Executive.Dispatch(c, o, tc).0;
      match Reached(c, o, tc)
      case Some(ActAdd) => o'.actions == A.Apply(c.actionCap, o.actions, o.s1, A.AddTc(tc))
      case Some(ActDelete) => o'.actions == A.Apply(c.actionCap, o.actions, o.s1, A.DeleteTc(tc))
      case Some(ActDeleteAll) => o'.actions == A.Apply(c.actionCap, o.actions, o.s1, A.DeleteAllTc(tc))
      case Some(ActEnable) => o'.actions == A.Apply(c.actionCap, o.actions, o.s1, A.EnableTc(tc))
      case Some(ActDisable) => o'.actions == A.Apply(c.actionCap, o.actions, o.s1, A.DisableTc(tc))
      case _ => o'.actions == Invariants.HearAll(o.actions, DispatchEvents(c, o, tc))
  {
    hide FindRoute, EventAction.Add, EventAction.Delete, Verification.Reporter.Report, Invariants.HearAll;
    hide ReportGrammar.PerformEvents;
    HearNone(o.actions);
    if Reached(c, o, tc).Some? {
      var h := Reached(c, o, tc).value;
      if h.Service() != 19 {
        hide Handle;
        HandleFrame(c, o, h, tc);
      }
    }
  }

  lemma HearNone(a: EventAction.Actions)
    ensures Invariants.HearAll(a, []) == a
  {
  }

  lemma FeedTracked(c: Config, o: Obsw, frame: bytes)
    ensures var o' := Feed(c, o, frame).0;
      match ActionOp(c, o, frame)
      case None => o'.actions == Invariants.HearAll(o.actions, FeedEvents(c, o, frame))
      case Some(op) => o'.actions == A.Apply(c.actionCap, o.actions, o.s1, op) && FeedEvents(c, o, frame) == []
                       && !op.Take? && !op.Serve?
  {
    hide Executive.Dispatch, Reached, A.Apply, Invariants.HearAll, ReportGrammar.PerformEvents;
    HearNone(o.actions);
    if TcPacket.Extract(frame).Some? {
      DispatchTracked(c, o, TcPacket.Extract(frame).value);
    }
  }

  /** The other steps: checks raise events, the batch is taken, and nothing else touches the service. */
  lemma ActionsFrame(c: Config, o: Obsw, m: Micro)
    requires !m.FeedFrame? && !m.TakeQueue?
    ensures Apply(c, o, m).actions == Invariants.HearAll(o.actions, MicroEvents(c, o, m))
  {
    hide Feed, Write, CheckLimits, LimitEvents, Invariants.HearAll, Kept, ReportGrammar.Quiet;
    HearNone(o.actions);
    if m.Check? {
      LimitsQuiet(c, o);
    }
  }

  lemma StepActions(cap: nat, l: A.Ledger, v: Verification.Reporter, op: A.Op)
    ensures A.Step(cap, l, v, op).a == A.Apply(cap, l.a, v, op)
  {
    hide EventAction.Add, EventAction.Delete;
  }

  lemma TrackIs(c: Config, o: Obsw, m: Micro, l: A.Ledger)
    requires l.a == o.actions && A.Inv(l)
    ensures var t := Hear(c.actionCap, Track(c, o, m, l), o.s1, MicroEvents(c, o, m));
      t.a == Apply(c, o, m).actions && A.Inv(t)
    ensures A.Inv(Track(c, o, m, l))
    ensures MicroEvents(c, o, m) != [] ==> Track(c, o, m, l).a == o.actions
  {
    hide Feed, ControlStep, CheckLimits, TickHk, A.Inv, ActionOp, FeedEvents, LimitEvents, Hear, Invariants.HearAll;
    var es := MicroEvents(c, o, m);
    match m {
      case FeedFrame(frame) =>
        FeedTracked(c, o, frame);
        if ActionOp(c, o, frame).Some? {
          var op := ActionOp(c, o, frame).value;
          StepActions(c.actionCap, l, o.s1, op);
          A.StepKeeps(c.actionCap, l, o.s1, op);
        }
      case TakeQueue => A.StepKeeps(c.actionCap, l, o.s1, A.Take);
      case Serve(_) => A.StepKeeps(c.actionCap, l, o.s1, A.Serve);
      case _ =>
    }
    HearIs(c.actionCap, Track(c, o, m, l), o.s1, es);
    HearNone(Track(c, o, m, l).a);
    if !m.FeedFrame? && !m.TakeQueue? {
      ActionsFrame(c, o, m);
    }
  }

  lemma {:induction false} TracksIs(c: Config, o: Obsw, ms: seq<Micro>, l: A.Ledger)
    requires l.a == o.actions && A.Inv(l)
    ensures Tracks(c, o, ms, l).a == After(c, o, ms).actions && A.Inv(Tracks(c, o, ms, l))
  {
    hide Track, Hear, Apply, A.Inv, MicroEvents;
    if ms != [] {
      var n := |ms| - 1;
      TracksIs(c, o, ms[..n], l);
      TrackIs(c, After(c, o, ms[..n]), ms[n], Tracks(c, o, ms[..n], l));
    }
  }

  // ----- The events of the ledger ---------------------------------------------------------------------------

  lemma TrackEvents(c: Config, o: Obsw, m: Micro, l: A.Ledger)
    ensures Track(c, o, m, l).events == l.events
  {
    hide ActionOp, A.Apply;
    if m.FeedFrame? && ActionOp(c, o, m.frame).Some? {
      OpIsTc(c, o, m.frame);
    }
  }

  lemma OpIsTc(c: Config, o: Obsw, frame: bytes)
    ensures match ActionOp(c, o, frame)
      case None => true
      case Some(op) => !op.Event? && !op.Take? && !op.Serve?
  {
    hide Reached;
  }

  /** The events of the ledger are the matched events of the steps. */
  lemma {:induction false} TracksEvents(c: Config, o: Obsw, ms: seq<Micro>, l: A.Ledger)
    requires l.a == o.actions && A.Inv(l)
    ensures Tracks(c, o, ms, l).events == l.events + MatchedEvents(c, o, ms)
  {
    hide Track, Hear, Apply, A.Inv, MicroEvents, Matching;
    if ms == [] {
      assert l.events + [] == l.events;
    } else {
      var n := |ms| - 1;
      TracksEvents(c, o, ms[..n], l);
      TracksIs(c, o, ms[..n], l);
      var before, t := After(c, o, ms[..n]), Tracks(c, o, ms[..n], l);
      TrackIs(c, before, ms[n], t);
      TrackEvents(c, before, ms[n], t);
      HearIs(c.actionCap, Track(c, before, ms[n], t), before.s1, MicroEvents(c, before, ms[n]));
      MatchNone(Track(c, before, ms[n], t).a, before.actions, MicroEvents(c, before, ms[n]));
    }
  }

  lemma MatchNone(a: EventAction.Actions, b: EventAction.Actions, es: seq<u16>)
    requires es != [] ==> a == b
    ensures Matching(a, es) == Matching(b, es)
  {
  }

  // ----- Dispatch -------------------------------------------------------------------------------------------

  /** The dispatched events, in order of dispatch. */
  function DispatchedEvents(l: A.Ledger): (r: seq<u16>)
    ensures |r| == |l.dispatched|
  {
    seq(|l.dispatched|, i requires 0 <= i < |l.dispatched| =>
      if l.dispatched[i] < |l.events| then l.events[l.dispatched[i]] else 0)
  }

  /** The events of a batch that have a definition. */
  function Defined(defs: map<u16, bytes>, batch: seq<u16>): seq<u16> {
    if batch == [] then []
    else
      var n := |batch| - 1;
      Defined(defs, batch[..n]) + if batch[n] in defs then [batch[n]] else []
  }

  /** What is dispatched for them is their actions, in the same order. */
  lemma {:induction false} DefinedActions(defs: map<u16, bytes>, batch: seq<u16>)
    ensures |Defined(defs, batch)| == |ActionsFor(defs, batch)|
    ensures forall i | 0 <= i < |Defined(defs, batch)| ::
      Defined(defs, batch)[i] in defs && ActionsFor(defs, batch)[i] == defs[Defined(defs, batch)[i]]
  {
    if batch != [] {
      DefinedActions(defs, batch[..|batch| - 1]);
    }
  }

  /** A step that is neither the start of a batch nor one of its events leaves batch and dispatch alone. */
  ghost predicate SameBatch(l: A.Ledger, t: A.Ledger) {
    t.batch == l.batch && t.serving == l.serving && DispatchedEvents(t) == DispatchedEvents(l)
  }

  lemma MoreEvents(l: A.Ledger, t: A.Ledger)
    requires A.Inv(l) && t.dispatched == l.dispatched && l.events <= t.events
    ensures DispatchedEvents(t) == DispatchedEvents(l)
  {
    A.LineBelow(l);
    forall i | 0 <= i < |l.dispatched| ensures l.dispatched[i] < |l.events| {
      assert l.dispatched[i] in l.dispatched + l.serving + l.waiting;
    }
  }

  lemma OutsideBatch(c: Config, o: Obsw, m: Micro, l: A.Ledger)
    requires A.Inv(l) && l.a == o.actions && !m.TakeQueue? && !m.Serve?
    ensures SameBatch(l, Hear(c.actionCap, Track(c, o, m, l), o.s1, MicroEvents(c, o, m)))
  {
    hide A.Inv, ActionOp, A.Apply, MicroEvents, Hear, DispatchedEvents;
    TrackIs(c, o, m, l);
    TrackEvents(c, o, m, l);
    var t := Track(c, o, m, l);
    if m.FeedFrame? && ActionOp(c, o, m.frame).Some? {
      OpIsTc(c, o, m.frame);
    }
    HearIs(c.actionCap, t, o.s1, MicroEvents(c, o, m));
    MoreEvents(l, Hear(c.actionCap, t, o.s1, MicroEvents(c, o, m)));
  }

  ghost predicate NoBatch(ms: seq<Micro>) {
    forall i | 0 <= i < |ms| :: !ms[i].TakeQueue? && !ms[i].Serve?
  }

  lemma {:induction false} OutsideBatches(c: Config, o: Obsw, ms: seq<Micro>, l: A.Ledger)
    requires A.Inv(l) && l.a == o.actions && NoBatch(ms)
    ensures SameBatch(l, Tracks(c, o, ms, l))
  {
    hide Track, Hear, Apply, A.Inv, MicroEvents, DispatchedEvents;
    if ms != [] {
      var n := |ms| - 1;
      OutsideBatches(c, o, ms[..n], l);
      TracksIs(c, o, ms[..n], l);
      OutsideBatch(c, After(c, o, ms[..n]), ms[n], Tracks(c, o, ms[..n], l));
    }
  }

  lemma {:induction false} TracksConcat(c: Config, o: Obsw, x: seq<Micro>, y: seq<Micro>, l: A.Ledger)
    ensures Tracks(c, o, x + y, l) == Tracks(c, After(c, o, x), y, Tracks(c, o, x, l))
  {
    hide Track, Hear, Apply, MicroEvents;
    if y == [] {
      assert x + y == x;
    } else {
      assert (x + y)[..|x + y| - 1] == x + y[..|y| - 1];
      TracksConcat(c, o, x, y[..|y| - 1], l);
      AfterConcat(c, o, x, y[..|y| - 1]);
    }
  }

  lemma TracksNext(c: Config, o: Obsw, ms: seq<Micro>, m: Micro, l: A.Ledger)
    ensures var before := After(c, o, ms);
      Tracks(c, o, ms + [m], l)
        == Hear(c.actionCap, Track(c, before, m, Tracks(c, o, ms, l)), before.s1, MicroEvents(c, before, m))
  {
    hide Track, Hear, Apply, MicroEvents;
    assert (ms + [m])[..|ms|] == ms;
  }

  lemma ServeFirst(l: A.Ledger)
    requires A.Inv(l) && l.batch != []
    ensures l.serving != []
    ensures var t := A.ServeOne(l);
      && t.batch == l.batch[1..]
      && DispatchedEvents(t) == DispatchedEvents(l) + if l.batch[0] in l.a.defs then [l.batch[0]] else []
  {
    hide A.Places, A.Increasing;
    var x := l.serving[0];
    assert x < |l.events| && l.events[x] == l.batch[0];
  }

  /** A batch serves its events in order: those with a definition are dispatched, and none is left over. */
  lemma {:induction false} BatchTracked(c: Config, o: Obsw, batch: seq<u16>, rest: seq<u16>, l: A.Ledger)
    requires WellRouted(c.routes) && EventAction.AllValid(o.actions.defs)
    requires A.Inv(l) && l.a == o.actions && l.batch == batch + rest
    ensures var t := Tracks(c, o, BatchMicros(c, o, batch), l);
      && t.batch == rest
      && DispatchedEvents(t) == DispatchedEvents(l) + Defined(o.actions.defs, batch)
  {
    hide Track, Hear, Apply, A.Inv, MicroEvents, DispatchedEvents, EventAction.AllValid, RunBatch;
    if batch == [] {
      assert batch + rest == rest && DispatchedEvents(l) + [] == DispatchedEvents(l);
    } else {
      var n := |batch| - 1;
      var x := BatchMicros(c, o, batch[..n]);
      assert batch + rest == batch[..n] + ([batch[n]] + rest);
      BatchTracked(c, o, batch[..n], [batch[n]] + rest, l);
      BatchAll(c, o, batch[..n]);
      BatchIs(c, o, batch[..n]);
      TracksIs(c, o, x, l);
      var before, t := RunBatch(c, o, batch[..n]), Tracks(c, o, x, l);
      ServeTracked(c, o, x, batch[n], rest, l, t);
      TracksIs(c, o, x + [Serve(batch[n])], l);
      if batch[n] in before.actions.defs {
        var feed := FeedFrame(before.actions.defs[batch[n]]);
        FeedAfterServe(c, o, x + [Serve(batch[n])], feed, l);
      } else {
        assert x + [Serve(batch[n])] + [] == x + [Serve(batch[n])];
      }
    }
  }

  lemma ServeTracked(c: Config, o: Obsw, x: seq<Micro>, event: u16, rest: seq<u16>, l: A.Ledger, t: A.Ledger)
    requires t == Tracks(c, o, x, l) && A.Inv(t) && t.batch == [event] + rest
    ensures var u := Tracks(c, o, x + [Serve(event)], l);
      && u.batch == rest
      && DispatchedEvents(u) == DispatchedEvents(t) + if event in t.a.defs then [event] else []
  {
    hide Tracks, After, A.Inv, DispatchedEvents, A.ServeOne;
    TracksNext(c, o, x, Serve(event), l);
    ServeFirst(t);
    assert ([event] + rest)[1..] == rest;
  }

  lemma FeedAfterServe(c: Config, o: Obsw, ms: seq<Micro>, feed: Micro, l: A.Ledger)
    requires feed.FeedFrame? && A.Inv(Tracks(c, o, ms, l)) && Tracks(c, o, ms, l).a == After(c, o, ms).actions
    ensures SameBatch(Tracks(c, o, ms, l), Tracks(c, o, ms + [feed], l))
  {
    hide Tracks, After, A.Inv, DispatchedEvents, Track, Hear, MicroEvents;
    TracksNext(c, o, ms, feed, l);
    OutsideBatch(c, After(c, o, ms), feed, Tracks(c, o, ms, l));
  }

  // ----- Inputs and runs ------------------------------------------------------------------------------------

  /** The events whose actions an input dispatches: those of the queue, as the run of service 19 finds it,
      that have a definition then. */
  ghost function DispatchedBy(c: Config, o: Obsw, i: Input): seq<u16> {
    match i
    case Uplink(_) => []
    case Sensor(_) => var a := RunSchedule(c, o).actions; Defined(a.defs, a.queue)
  }

  lemma ReleaseNoBatch(c: Config, o: Obsw, ids: seq<u16>)
    ensures NoBatch(ReleaseMicros(c, o, ids))
  {
    hide Executive.Release;
    if ids != [] {
      ReleaseNoBatch(c, o, ids[..|ids| - 1]);
    }
  }

  lemma TakeTracked(c: Config, o: Obsw, l: A.Ledger)
    requires A.Inv(l) && l.a == o.actions && l.batch == []
    ensures var t := Tracks(c, o, [TakeQueue], l);
      t.batch == o.actions.queue && DispatchedEvents(t) == DispatchedEvents(l)
  {
    hide After, A.Inv;
    TracksNext(c, o, [], TakeQueue, l);
    assert [] + [TakeQueue] == [TakeQueue];
    assert [] + o.actions.queue == o.actions.queue;
  }

  lemma StoredTracked(c: Config, o: Obsw, l: A.Ledger)
    requires Bounded(c) && Sound(c, o) && WellRouted(c.routes)
    requires A.Inv(l) && l.a == o.actions && l.batch == []
    ensures var t := Tracks(c, o, StoredMicros(c, o), l);
      && t.batch == []
      && DispatchedEvents(t) == DispatchedEvents(l) + DispatchedBy(c, o, Sensor(NoStep()))
  {
    hide Executive.Release, ReleaseMicros, RunBatch, BatchMicros, Schedule.DueOrder, Apply, Sound, Tracks, After;
    hide DispatchedEvents, A.Inv, Defined;
    var x := if o.schedule.enabled then ReleaseMicros(c, o, DueIds(o)) else [];
    var released := RunSchedule(c, o);
    if o.schedule.enabled {
      ReleaseIs(c, o, DueIds(o));
      ReleaseNoBatch(c, o, DueIds(o));
    } else {
      AfterNone(c, o);
    }
    var t := Tracks(c, o, x, l);
    OutsideBatches(c, o, x, l);
    TracksIs(c, o, x, l);
    ReleasedValid(c, o);
    var emptied := released.(actions := released.actions.(queue := []));
    TakeTracked(c, released, t);
    TracksIs(c, released, [TakeQueue], t);
    AfterOne(c, released, TakeQueue);
    assert Apply(c, released, TakeQueue) == emptied by { TakeApplies(c, released); }
    var u := Tracks(c, released, [TakeQueue], t);
    var q := released.actions.queue;
    assert q + [] == q;
    BatchTracked(c, emptied, q, [], u);
    var b := BatchMicros(c, emptied, q);
    TracksConcat(c, o, x, [TakeQueue] + b, l);
    TracksConcat(c, released, [TakeQueue], b, t);
    assert x + [TakeQueue] + b == x + ([TakeQueue] + b);
  }

  /** Any control step: what is dispatched does not depend on it. */
  function NoStep(): Step {
    Step([], 0, _ => 0)
  }

  lemma AfterNone(c: Config, o: Obsw)
    ensures After(c, o, []) == o
  {
  }

  lemma TakeApplies(c: Config, o: Obsw)
    ensures Apply(c, o, TakeQueue) == o.(actions := o.actions.(queue := []))
  {
  }

  lemma ReleasedValid(c: Config, o: Obsw)
    requires Bounded(c) && Sound(c, o)
    ensures EventAction.AllValid(RunSchedule(c, o).actions.defs)
  {
    hide RunSchedule, EventAction.AllValid;
    ReleasedSound(c, o);
  }

  lemma InputTracked(c: Config, o: Obsw, i: Input, l: A.Ledger)
    requires Bounded(c) && Sound(c, o) && WellRouted(c.routes)
    requires A.Inv(l) && l.a == o.actions && l.batch == []
    ensures var t := Tracks(c, o, Micros(c, o, i), l);
      t.batch == [] && DispatchedEvents(t) == DispatchedEvents(l) + DispatchedBy(c, o, i)
  {
    hide Feed, StoredMicros, BeforeDrain, RunSchedule, Apply, Tracks, After, Sound, A.Inv, DispatchedEvents, Defined;
    match i {
      case Uplink(frame) =>
        OutsideBatches(c, o, Micros(c, o, i), l);
        assert DispatchedEvents(l) + [] == DispatchedEvents(l);
      case Sensor(s) =>
        var x, n := StoredMicros(c, o), |BeforeDrain(c, o, s).s1.down.queue|;
        var y := [Control(s)] + [Check] + [Housekeep(s.app)] + Sends(n);
        assert Micros(c, o, i) == x + y;
        TracksConcat(c, o, x, y, l);
        StoredTracked(c, o, l);
        TracksIs(c, o, x, l);
        OutsideBatches(c, After(c, o, x), y, Tracks(c, o, x, l));
    }
  }

  /** The events whose actions a run dispatches. */
  ghost function RunDispatched(c: Config, o: Obsw, inputs: seq<Input>): seq<u16> {
    if inputs == [] then []
    else
      var n := |inputs| - 1;
      RunDispatched(c, o, inputs[..n]) + DispatchedBy(c, Run(c, o, inputs[..n]), inputs[n])
  }

  /** What an input dispatches are the calls of its run of service 19: event by event, its action. */
  lemma DispatchedAreCalls(c: Config, o: Obsw, s: Step)
    requires Bounded(c) && Sound(c, o) && WellRouted(c.routes)
    ensures var a, calls := RunSchedule(c, o).actions, QueuedCalls(c, RunSchedule(c, o));
      var es := DispatchedBy(c, o, Sensor(s));
      |calls| == |es| && forall i | 0 <= i < |es| :: es[i] in a.defs && calls[i].frame == a.defs[es[i]]
  {
    hide RunSchedule, Sound, QueuedCalls, EventAction.AllValid, Defined, ActionsFor;
    var released := RunSchedule(c, o);
    ReleasedValid(c, o);
    RunDispatchesQueue(c, released);
    DefinedActions(released.actions.defs, released.actions.queue);
    var calls := QueuedCalls(c, released);
    assert forall i | 0 <= i < |calls| :: Frames(calls)[i] == calls[i].frame;
  }

  lemma {:induction false} RunTracked(c: Config, o: Obsw, inputs: seq<Input>, l: A.Ledger)
    requires Bounded(c) && Sound(c, o) && WellRouted(c.routes)
    requires A.Inv(l) && l.a == o.actions && l.batch == []
    ensures var t := Tracks(c, o, RunMicros(c, o, inputs), l);
      t.batch == [] && DispatchedEvents(t) == DispatchedEvents(l) + RunDispatched(c, o, inputs)
  {
    hide Next, Micros, Apply, Tracks, Sound, A.Inv, DispatchedEvents, DispatchedBy, Invariants.BootSets;
    if inputs == [] {
      TracksNone(c, o, l);
      assert DispatchedEvents(l) + [] == DispatchedEvents(l);
    } else {
      var n := |inputs| - 1;
      var x, before := RunMicros(c, o, inputs[..n]), Run(c, o, inputs[..n]);
      RunTracked(c, o, inputs[..n], l);
      RunIs(c, o, inputs[..n]);
      StateSound(c, o, x);
      TracksIs(c, o, x, l);
      InputTracked(c, before, inputs[n], Tracks(c, o, x, l));
      TracksConcat(c, o, x, Micros(c, before, inputs[n]), l);
    }
  }

  lemma TracksNone(c: Config, o: Obsw, l: A.Ledger)
    ensures Tracks(c, o, [], l) == l
  {
  }

  /** The ledger of a run from boot. */
  ghost function RunTracks(c: Config, o: Obsw, inputs: seq<Input>): A.Ledger {
    Tracks(c, o, RunMicros(c, o, inputs), A.Boot())
  }

  /**
    Over every run of the executive from the initial service 19: the events of the ledger are those of the
    service 5 reports of the run that matched a definition while the service was enabled, in order; those it
    counts as dispatched are, event by event and in order, what the runs of service 19 fed the actions of;
    and each matched event is dispatched, skipped, discarded, dropped or in the queue, exactly once, the
    counter telling the dropped ones modulo 65536.
    */
  lemma EventsConserved(c: Config, o: Obsw, inputs: seq<Input>)
    requires Bounded(c) && Sound(c, o) && WellRouted(c.routes) && o.actions == A.Boot().a
    ensures var l, ms := RunTracks(c, o, inputs), RunMicros(c, o, inputs);
      && l.a == Run(c, o, inputs).actions
      && ReportGrammar.EventsIn(Run(c, o, inputs).s1.down.log)
           == ReportGrammar.EventsIn(o.s1.down.log) + RunEvents(c, o, ms)
      && l.events == MatchedEvents(c, o, ms)
      && DispatchedEvents(l) == RunDispatched(c, o, inputs)
      && A.Places(l) == multiset(A.Serials(|l.events|)) && A.Increasing(l.dispatched + l.waiting)
      && |l.events| == |l.dispatched| + |l.skipped| + |l.discarded| + |l.dropped| + |l.a.queue|
      && l.a.dropped == |l.dropped| % U16
      && A.StandsFor(l.waiting, l.events, l.a.queue)
  {
    hide RunMicros, Run, Tracks, MatchedEvents, RunDispatched, RunEvents, Apply, Sound, A.Places, A.Increasing;
    var ms, l := RunMicros(c, o, inputs), RunTracks(c, o, inputs);
    A.BootInv();
    RunIs(c, o, inputs);
    TracksIs(c, o, ms, A.Boot());
    TracksEvents(c, o, ms, A.Boot());
    EventsLogged(c, o, ms);
    RunTracked(c, o, inputs, A.Boot());
    A.Counted(l);
    assert DispatchedEvents(A.Boot()) == [] && l.dispatched + l.serving + l.waiting == l.dispatched + l.waiting;
  }
}
