/**
  The mode over every run of the whole executive, told from the packets: besides the mode functions of TC(8,1)
  it is the stored reports of trigger events, and nothing else, that change it (`src/pus/s5.c`, `src/fdir/fsm.c`).
  */
module ModeRuns {
  import opened Bytes
  import opened Dispatcher
  import opened Executive
  import opened MicroSteps
  import opened Runs
  import opened Safety
  import opened Uplink
  import EventRuns
  import Events
  import Fsm
  import HkModel
  import Invariants
  import Monitoring
  import PacketRuns
  import Parameters
  import PusTm
  import ReportGrammar
  import ShortCommands
  import SmallServices
  import TcPacket
  import TmPacket
  import Verification

  // ----- Packets and the mode -----------------------------------------------------------------------------

  /** A TM(5,4) of an event in the trigger list. */
  predicate Triggers(triggers: seq<u16>, p: TmPacket.Packet) {
    p.service == 5 && p.subservice == 4 && |p.data| >= 2 && Word(p.data, 0) in triggers
  }

  /** The mode after packets built in turn, with q waiting in the store before: a trigger counts if there is room. */
  function Reacts(triggers: seq<u16>, q: nat, s: Fsm.State, ps: seq<TmPacket.Packet>): Fsm.State {
    if ps == [] then s
    else
      var n := |ps| - 1;
      var before := Reacts(triggers, q, s, ps[..n]);
      if q + n < 31 && Triggers(triggers, ps[n]) then ShortCommands.InSafe(before) else before
  }

  /** How many wait after n more were built. */
  function Waiting(q: nat, n: nat): nat {
    if q + n <= 31 then q + n else if q <= 31 then 31 else q
  }

  lemma {:induction false} ReactsConcat(triggers: seq<u16>, q: nat, s: Fsm.State,
                                        x: seq<TmPacket.Packet>, y: seq<TmPacket.Packet>)
    requires q <= 31
    ensures Reacts(triggers, q, s, x + y) == Reacts(triggers, Waiting(q, |x|), Reacts(triggers, q, s, x), y)
  {
    hide Triggers;
    if y == [] {
      assert x + y == x;
    } else {
      var n := |y| - 1;
      assert (x + y)[..|x| + n] == x + y[..n] && (x + y)[|x| + n] == y[n];
      ReactsConcat(triggers, q, s, x, y[..n]);
    }
  }

  /** From one store and mode to another, packets were built and the mode has reacted to them. */
  ghost predicate Follows(triggers: seq<u16>, a: PusTm.Downlink, s: Fsm.State, b: PusTm.Downlink, t: Fsm.State) {
    && |a.queue| <= 31 && a.log <= b.log && |b.queue| == Waiting(|a.queue|, |b.log| - |a.log|)
    && t == Reacts(triggers, |a.queue|, s, b.log[|a.log|..])
  }

  lemma FollowsSelf(triggers: seq<u16>, d: PusTm.Downlink, s: Fsm.State)
    requires |d.queue| <= 31
    ensures Follows(triggers, d, s, d, s)
  {
  }

  lemma FollowsTrans(triggers: seq<u16>, a: PusTm.Downlink, r: Fsm.State, b: PusTm.Downlink, s: Fsm.State,
                     d: PusTm.Downlink, t: Fsm.State)
    requires Follows(triggers, a, r, b, s) && Follows(triggers, b, s, d, t)
    ensures Follows(triggers, a, r, d, t)
  {
    hide Reacts;
    var x, y := b.log[|a.log|..], d.log[|b.log|..];
    assert d.log[|a.log|..] == x + y;
    ReactsConcat(triggers, |a.queue|, r, x, y);
  }

  /** One packet more. */
  lemma OfferFollows(triggers: seq<u16>, d: PusTm.Downlink, s: Fsm.State, p: TmPacket.Packet)
    requires |d.queue| <= 31 && p.Fits()
    ensures Follows(triggers, d, s, d.Offer(p),
      if |d.queue| < 31 && Triggers(triggers, p) then ShortCommands.InSafe(s) else s)
  {
    hide Triggers, TmPacket.Encode;
    assert d.Offer(p).log[|d.log|..] == [p] && [p][..0] == [];
    assert Reacts(triggers, |d.queue|, s, [p][..0]) == s;
  }

  lemma ReportFollows(triggers: seq<u16>, v: Verification.Reporter, s: Fsm.State, subservice: u8, data: bytes)
    requires |v.down.queue| <= 31 && |data| <= 1007
    ensures Follows(triggers, v.down, s, v.Report(subservice, data).down, s)
  {
    hide Follows, PusTm.Downlink.Offer;
    OfferFollows(triggers, v.down, s, v.Packet(subservice, data));
  }

  lemma RaiseFollows(b: Events.Bus, triggers: seq<u16>, severity: u8, event: u16, aux: bytes)
    requires |b.down.queue| <= 31 && |aux| <= 255
    ensures var b' := b.Raise(triggers, severity, event, aux); Follows(triggers, b.down, b.fsm, b'.down, b'.fsm)
  {
    hide Follows;
    var p := b.Packet(severity, event, aux);
    WrittenWord(event);
    assert p.data[0] == event / 256 && p.data[1] == event % 256;
    OfferFollows(triggers, b.down, b.fsm, p);
  }

  /** Steps that only build packets which report no event. */
  lemma {:induction false} SilentReacts(triggers: seq<u16>, q: nat, s: Fsm.State, ps: seq<TmPacket.Packet>)
    requires forall i | 0 <= i < |ps| :: ReportGrammar.EventOf(ps[i]) == []
    ensures Reacts(triggers, q, s, ps) == s
  {
    if ps != [] {
      SilentReacts(triggers, q, s, ps[..|ps| - 1]);
    }
  }

  lemma {:induction false} NoneReported(log: seq<TmPacket.Packet>, ps: seq<TmPacket.Packet>)
    requires |ReportGrammar.EventsIn(log + ps)| <= |ReportGrammar.EventsIn(log)|
    ensures |ReportGrammar.EventsIn(log + ps)| == |ReportGrammar.EventsIn(log)|
    ensures forall i | 0 <= i < |ps| :: ReportGrammar.EventOf(ps[i]) == []
  {
    EventsGrow(log, ps);
    if ps != [] {
      var n := |ps| - 1;
      assert (log + ps)[..|log| + n] == log + ps[..n];
      EventsGrow(log, ps[..n]);
      NoneReported(log, ps[..n]);
    } else {
      assert log + ps == log;
    }
  }

  lemma {:induction false} EventsGrow(log: seq<TmPacket.Packet>, ps: seq<TmPacket.Packet>)
    ensures |ReportGrammar.EventsIn(log + ps)| >= |ReportGrammar.EventsIn(log)|
  {
    if ps != [] {
      var n := |ps| - 1;
      assert (log + ps)[..|log| + n] == log + ps[..n];
      EventsGrow(log, ps[..n]);
    } else {
      assert log + ps == log;
    }
  }

  lemma SilentFollows(triggers: seq<u16>, a: PusTm.Downlink, b: PusTm.Downlink, s: Fsm.State)
    requires |a.queue| <= 31 && PusTm.Built(a, b)
    requires ReportGrammar.EventsIn(b.log) == ReportGrammar.EventsIn(a.log)
    ensures Follows(triggers, a, s, b, s)
  {
    hide ReportGrammar.EventsIn, Reacts;
    PacketRuns.QueueAfter(a, b);
    var ps := b.log[|a.log|..];
    assert b.log == a.log + ps;
    NoneReported(a.log, ps);
    SilentReacts(triggers, |a.queue|, s, ps);
  }

  // ----- Functions ----------------------------------------------------------------------------------------

  /** The mode function a TC(8,1) calls, if it calls one. */
  function ModeFunction(t: seq<SmallServices.FnEntry>, tc: Tc): Option<SmallServices.Function> {
    var d := tc.userData;
    if |d| < 3 || 3 + d[2] as int > |d| then None
    else
      var k := SmallServices.FnPosition(t, Word(d, 0));
      if k < |t| && !t[k].fn.ReportEvent? then Some(t[k].fn) else None
  }

  function Called(fn: SmallServices.Function, s: Fsm.State): Fsm.State
    requires !fn.ReportEvent?
  {
    match fn
    case RecoverNominal => Fsm.State(Fsm.Nominal, s.safeEntries)
    case RequestSafe => ShortCommands.InSafe(s)
    case RequestStandby => Fsm.State(Fsm.Standby, s.safeEntries)
  }

  lemma CallFollows(fn: SmallServices.Function, n: u8, b: Events.Bus, triggers: seq<u16>)
    requires |b.down.queue| <= 31
    ensures var b' := SmallServices.Call(fn, n, b, triggers).0;
      if fn.ReportEvent? then Follows(triggers, b.down, b.fsm, b'.down, b'.fsm)
      else b'.down == b.down && b'.fsm == Called(fn, b.fsm)
  {
    hide Follows, Events.Bus.Raise;
    if fn.ReportEvent? {
      FollowsSelf(triggers, b.down, b.fsm);
      RaiseFollows(b, triggers, fn.severity, fn.event, []);
    }
  }

  lemma RunFollows(fn: SmallServices.Function, n: u8, b: Events.Bus, triggers: seq<u16>,
                   v: Verification.Reporter, tc: Tc)
    requires |v.down.queue| <= 31
    ensures var (b', v', _) := SmallServices.RunFunction(fn, n, b, triggers, v, tc);
      if fn.ReportEvent? then Follows(triggers, v.down, b.fsm, v'.down, b'.fsm) else b'.fsm == Called(fn, b.fsm)
  {
    hide Follows, Verification.Reporter.Report, Verification.TcRef, SmallServices.Call, Called;
    var a := v.Accept(tc);
    ReportFollows(triggers, v, b.fsm, 1, Verification.TcRef(tc));
    QueueBound(triggers, v.down, b.fsm, a.down, b.fsm);
    var (b1, ok) := SmallServices.Call(fn, n, b.(down := a.down), triggers);
    CallFollows(fn, n, b.(down := a.down), triggers);
    if fn.ReportEvent? {
      FollowsTrans(triggers, v.down, b.fsm, a.down, b.fsm, b1.down, b1.fsm);
      QueueBound(triggers, v.down, b.fsm, b1.down, b1.fsm);
      var mid := a.(down := b1.down);
      var code := Verification.TcRef(tc) + Enc16(Verification.FAIL_EXEC_ERROR);
      ReportFollows(triggers, mid, b1.fsm, 7, Verification.TcRef(tc));
      ReportFollows(triggers, mid, b1.fsm, 8, code);
      FollowsTrans(triggers, v.down, b.fsm, b1.down, b1.fsm, mid.Complete(tc).down, b1.fsm);
      FollowsTrans(triggers, v.down, b.fsm, b1.down, b1.fsm, mid.Fail(tc, Verification.FAIL_EXEC_ERROR).down, b1.fsm);
    }
  }

  lemma QueueBound(triggers: seq<u16>, a: PusTm.Downlink, s: Fsm.State, b: PusTm.Downlink, t: Fsm.State)
    requires Follows(triggers, a, s, b, t)
    ensures |b.queue| <= 31
  {
  }

  lemma PerformFollows(t: seq<SmallServices.FnEntry>, b: Events.Bus, triggers: seq<u16>,
                       v: Verification.Reporter, tc: Tc)
    requires |v.down.queue| <= 31 && b.down == v.down
    ensures var (b', v', _) := SmallServices.Perform(t, b, triggers, v, tc);
      match ModeFunction(t, tc)
      case Some(fn) => b'.fsm == Called(fn, b.fsm)
      case None => b'.down == v'.down && Follows(triggers, v.down, b.fsm, v'.down, b'.fsm)
  {
    hide Follows, Verification.Reporter.Report, Verification.TcRef, SmallServices.RunFunction, Called;
    var d := tc.userData;
    var ref := Verification.TcRef(tc);
    ReportFollows(triggers, v, b.fsm, 2, ref + Enc16(Verification.FAIL_ILLEGAL_APP_DATA));
    ReportFollows(triggers, v, b.fsm, 2, ref + Enc16(Verification.FAIL_EXEC_ERROR));
    if |d| >= 3 && 3 + d[2] as int <= |d| {
      var k := SmallServices.FnPosition(t, Be16(d));
      if k < |t| {
        RunFollows(t[k].fn, d[2], b, triggers, v, tc);
        SameDown(t[k].fn, d[2], b, triggers, v, tc);
      }
    }
  }

  lemma SameDown(fn: SmallServices.Function, n: u8, b: Events.Bus, triggers: seq<u16>,
                 v: Verification.Reporter, tc: Tc)
    ensures var (b', v', _) := SmallServices.RunFunction(fn, n, b, triggers, v, tc); b'.down == v'.down
  {
    hide Verification.Reporter.Report, Verification.TcRef, SmallServices.Call;
  }

  // ----- Checks -------------------------------------------------------------------------------------------

  lemma RaisedFollows(b: Events.Bus, triggers: seq<u16>, d: Monitoring.Def, v: u32)
    requires |b.down.queue| <= 31
    ensures var b' := Monitoring.Raised(b, triggers, d, v); Follows(triggers, b.down, b.fsm, b'.down, b'.fsm)
  {
    hide Follows, Events.Bus.Raise, Parameters.Less;
    FollowsSelf(triggers, b.down, b.fsm);
    var low := d.BelowLow(v) && !d.inLow;
    RaiseFollows(b, triggers, d.severity, d.eventLow, Enc32(v));
    var b1 := Monitoring.RaiseIf(low, b, triggers, d, d.eventLow, v);
    QueueBound(triggers, b.down, b.fsm, b1.down, b1.fsm);
    RaiseFollows(b1, triggers, d.severity, d.eventHigh, Enc32(v));
    var b2 := Monitoring.Raised(b, triggers, d, v);
    if b2 != b1 {
      FollowsTrans(triggers, b.down, b.fsm, b1.down, b1.fsm, b2.down, b2.fsm);
    }
  }

  lemma {:induction false} ChecksFollow(t: seq<Monitoring.Def>, b: Events.Bus, triggers: seq<u16>,
                                        r: Monitoring.Readings, n: nat)
    requires |b.down.queue| <= 31 && n <= |t|
    ensures var b' := Monitoring.CheckUpTo(t, b, triggers, r, n).1; Follows(triggers, b.down, b.fsm, b'.down, b'.fsm)
  {
    hide Follows, Monitoring.Raised;
    if n == 0 {
      FollowsSelf(triggers, b.down, b.fsm);
    } else {
      ChecksFollow(t, b, triggers, r, n - 1);
      var b1 := Monitoring.CheckUpTo(t, b, triggers, r, n - 1).1;
      match r(t[n - 1].paramId) {
        case None =>
        case Some(v) =>
          QueueBound(triggers, b.down, b.fsm, b1.down, b1.fsm);
          RaisedFollows(b1, triggers, t[n - 1], v);
          var b2 := Monitoring.Raised(b1, triggers, t[n - 1], v);
          FollowsTrans(triggers, b.down, b.fsm, b1.down, b1.fsm, b2.down, b2.fsm);
      }
    }
  }

  lemma LimitsFollow(c: Config, o: Obsw)
    requires |o.s1.down.queue| <= 31
    ensures var o' := CheckLimits(c, o); Follows(c.triggers, o.s1.down, o.fsm, o'.s1.down, o'.fsm)
  {
    hide Follows, Monitoring.CheckUpTo;
    FollowsSelf(c.triggers, o.s1.down, o.fsm);
    var r := Monitoring.ReadingsOf(o.params.table, c.convert);
    ChecksFollow(o.monitor.defs, o.Bus(), c.triggers, r, |o.monitor.defs|);
  }

  // ----- Steps --------------------------------------------------------------------------------------------

  /** The mode function a step calls: a TC(8,1) that is let through and names one. */
  function ModeCall(c: Config, o: Obsw, m: Micro): Option<SmallServices.Function> {
    match m
    case FeedFrame(frame) =>
      (match TcPacket.Extract(frame)
       case None => None
       case Some(tc) => if Reached(c, o, tc) == Some(Handler.Perform) then ModeFunction(c.functions, tc) else None)
    case _ => None
  }

  lemma DispatchFollows(c: Config, o: Obsw, tc: Tc)
    requires |o.s1.down.queue| <= 31
    ensures var o' := Executive.Dispatch(c, o, tc).0;
      if Reached(c, o, tc) == Some(Handler.Perform) then
        match ModeFunction(c.functions, tc)
        case Some(fn) => o'.fsm == Called(fn, o.fsm)
        case None => Follows(c.triggers, o.s1.down, o.fsm, o'.s1.down, o'.fsm)
      else o'.fsm == o.fsm
  {
    hide FindRoute, Follows, ModeFunction, Called, SmallServices.Perform, Verification.Reporter.Report;
    if Reached(c, o, tc).Some? {
      var h := Reached(c, o, tc).value;
      if h.Perform? {
        PerformFollows(c.functions, o.Bus(), c.triggers, o.s1, tc);
      } else {
        hide Handle;
        HandleFrame(c, o, h, tc);
      }
    }
  }

  lemma FeedFollows(c: Config, o: Obsw, frame: bytes)
    requires |o.s1.down.queue| <= 31
    ensures var o' := Feed(c, o, frame).0;
      match ModeCall(c, o, FeedFrame(frame))
      case Some(fn) => o'.fsm == Called(fn, o.fsm)
      case None => Follows(c.triggers, o.s1.down, o.fsm, o'.s1.down, o'.fsm)
  {
    hide Follows, ModeFunction, Called, Executive.Dispatch, TcPacket.Extract, Reached, PusTm.Built;
    FollowsSelf(c.triggers, o.s1.down, o.fsm);
    match TcPacket.Extract(frame) {
      case None =>
      case Some(tc) =>
        DispatchFollows(c, o, tc);
        if Reached(c, o, tc) != Some(Handler.Perform) {
          var o' := Feed(c, o, frame).0;
          FeedSilent(c, o, frame);
          SilentFollows(c.triggers, o.s1.down, o'.s1.down, o.fsm);
        }
    }
  }

  lemma FeedSilent(c: Config, o: Obsw, frame: bytes)
    requires TcPacket.Extract(frame).Some? && Reached(c, o, TcPacket.Extract(frame).value) != Some(Handler.Perform)
    ensures var d, d' := o.s1.down, Feed(c, o, frame).0.s1.down;
      PusTm.Built(d, d') && ReportGrammar.EventsIn(d'.log) == ReportGrammar.EventsIn(d.log)
  {
    hide Feed, TcPacket.Extract, Reached, ReportGrammar.EventsIn, PusTm.Built, ReportGrammar.AcksOf;
    hide ReportGrammar.Expected, ReportGrammar.Sane;
    FeedGrew(c, o, frame);
    EventRuns.MicroLogged(c, o, FeedFrame(frame));
    var none := EventRuns.MicroEvents(c, o, FeedFrame(frame));
    assert none == [];
    assert ReportGrammar.EventsIn(o.s1.down.log) + none == ReportGrammar.EventsIn(o.s1.down.log);
  }

  /** The packets a step builds. */
  function Built(c: Config, o: Obsw, m: Micro): (r: seq<TmPacket.Packet>)
    ensures |r| == PacketRuns.Count(c, o, m)
  {
    var a, b := o.s1.down.log, Apply(c, o, m).s1.down.log;
    if |a| <= |b| then b[|a|..] else []
  }

  /** A step builds and stores a TM(5,4) of a trigger event. */
  ghost predicate StoresTrigger(c: Config, o: Obsw, m: Micro) {
    exists i: nat :: i < |Built(c, o, m)| && PacketRuns.Stores(c, o, m)[i] && Triggers(c.triggers, Built(c, o, m)[i])
  }

  ghost predicate AnyStored(triggers: seq<u16>, q: nat, ps: seq<TmPacket.Packet>) {
    exists i: nat :: i < |ps| && q + i < 31 && Triggers(triggers, ps[i])
  }

  lemma {:induction false} ReactsIs(triggers: seq<u16>, q: nat, s: Fsm.State, ps: seq<TmPacket.Packet>)
    ensures Reacts(triggers, q, s, ps) == if AnyStored(triggers, q, ps) then ShortCommands.InSafe(s) else s
  {
    hide Triggers;
    if ps != [] {
      var n := |ps| - 1;
      ReactsIs(triggers, q, s, ps[..n]);
      if AnyStored(triggers, q, ps[..n]) {
        var i: nat :| i < n && q + i < 31 && Triggers(triggers, ps[..n][i]);
        assert ps[i] == ps[..n][i];
      }
      if AnyStored(triggers, q, ps) {
        var i: nat :| i <= n && q + i < 31 && Triggers(triggers, ps[i]);
        if i < n {
          assert Triggers(triggers, ps[..n][i]);
        }
      }
    }
  }

  lemma StoredIsEarly(c: Config, o: Obsw, m: Micro)
    requires |o.s1.down.queue| <= 31
    ensures StoresTrigger(c, o, m) <==> AnyStored(c.triggers, |o.s1.down.queue|, Built(c, o, m))
  {
    hide Apply, Triggers, Built;
    var ps, q := Built(c, o, m), |o.s1.down.queue|;
    assert forall i: nat | i < |ps| :: PacketRuns.Stores(c, o, m)[i] <==> q + i < 31;
    if AnyStored(c.triggers, q, ps) {
      var i: nat :| i < |ps| && q + i < 31 && Triggers(c.triggers, ps[i]);
      assert PacketRuns.Stores(c, o, m)[i];
    }
  }

  lemma OtherSteps(c: Config, o: Obsw, m: Micro)
    requires !m.FeedFrame? && !m.Check?
    ensures Apply(c, o, m).fsm == o.fsm
    ensures forall p | p in Built(c, o, m) :: ReportGrammar.EventOf(p) == []
  {
    hide Feed, CheckLimits, HkModel.TickUpTo, ReportGrammar.EventsIn, ReportGrammar.EventOf, Write;
    EventRuns.MicroLogged(c, o, m);
    var none := EventRuns.MicroEvents(c, o, m);
    var a, b, ps := o.s1.down.log, Apply(c, o, m).s1.down.log, Built(c, o, m);
    assert none == [];
    assert ReportGrammar.EventsIn(a) + none == ReportGrammar.EventsIn(a);
    if m != Send {
      StepGrows(c, o, m);
      assert b == a + ps;
      NoneReported(a, ps);
    }
  }

  lemma StepGrows(c: Config, o: Obsw, m: Micro)
    requires m != Send
    ensures o.s1.down.log <= Apply(c, o, m).s1.down.log
  {
    hide Apply, ReportGrammar.Sane;
    StepsOnlyAdd(c, o, m);
  }

  /** What a step makes of the mode: a mode function of TC(8,1) what it is for; a stored report of a trigger event
      SAFE, counted unless the spacecraft was there; anything else nothing, a trigger event that found no room
      included. */
  ghost function ModeAfter(c: Config, o: Obsw, m: Micro, s: Fsm.State): Fsm.State {
    match ModeCall(c, o, m)
    case Some(fn) => Called(fn, s)
    case None => if StoresTrigger(c, o, m) then ShortCommands.InSafe(s) else s
  }

  lemma StepMode(c: Config, o: Obsw, m: Micro)
    requires |o.s1.down.queue| <= 31
    ensures Apply(c, o, m).fsm == ModeAfter(c, o, m, o.fsm)
  {
    hide Feed, CheckLimits, ControlStep, TickHk, Called, Reacts, StoresTrigger, AnyStored, ModeFunction, Reached;
    hide ReportGrammar.EventOf, TcPacket.Extract;
    StoredIsEarly(c, o, m);
    ReactsIs(c.triggers, |o.s1.down.queue|, o.fsm, Built(c, o, m));
    match m {
      case FeedFrame(frame) => FeedFollows(c, o, frame);
      case Check => LimitsFollow(c, o);
      case _ =>
        OtherSteps(c, o, m);
        SilentReacts(c.triggers, |o.s1.down.queue|, o.fsm, Built(c, o, m));
    }
  }

  // ----- Runs ---------------------------------------------------------------------------------------------

  /** The mode some steps lead to, told from their mode functions and packets alone. */
  ghost function Driven(c: Config, o: Obsw, ms: seq<Micro>): Fsm.State {
    if ms == [] then o.fsm
    else
      var n := |ms| - 1;
      ModeAfter(c, After(c, o, ms[..n]), ms[n], Driven(c, o, ms[..n]))
  }

  lemma {:induction false} StepsDriven(c: Config, o: Obsw, ms: seq<Micro>)
    requires Bounded(c) && Sound(c, o)
    ensures After(c, o, ms).fsm == Driven(c, o, ms)
  {
    hide Apply, ModeAfter, Sound, Invariants.BootSets;
    if ms != [] {
      var n := |ms| - 1;
      StepsDriven(c, o, ms[..n]);
      StateSound(c, o, ms[..n]);
      SoundStore(c, After(c, o, ms[..n]));
      StepMode(c, After(c, o, ms[..n]), ms[n]);
    }
  }

  lemma SoundStore(c: Config, o: Obsw)
    requires Sound(c, o)
    ensures |o.s1.down.queue| <= 31
  {
  }

  /** In every state of every run the mode, and the count of entries into SAFE, are what its mode functions and its
      stored trigger reports make of the mode it started in. */
  lemma RunMode(c: Config, o: Obsw, inputs: seq<Input>, k: nat)
    requires Bounded(c) && Sound(c, o) && k <= |RunMicros(c, o, inputs)|
    ensures var ms := RunMicros(c, o, inputs)[..k]; After(c, o, ms).fsm == Driven(c, o, ms)
  {
    hide RunMicros, After, Driven, Sound;
    StepsDriven(c, o, RunMicros(c, o, inputs)[..k]);
  }

  ghost predicate NoCalls(c: Config, o: Obsw, ms: seq<Micro>) {
    forall i | 0 <= i < |ms| :: ModeCall(c, After(c, o, ms[..i]), ms[i]).None?
  }

  /** Some step stores a TM(5,4) of a trigger event. */
  ghost predicate Triggered(c: Config, o: Obsw, ms: seq<Micro>) {
    exists i :: 0 <= i < |ms| && StoresTrigger(c, After(c, o, ms[..i]), ms[i])
  }

  lemma PrefixCalls(c: Config, o: Obsw, ms: seq<Micro>)
    requires ms != [] && NoCalls(c, o, ms)
    ensures var n := |ms| - 1; NoCalls(c, o, ms[..n]) && ModeCall(c, After(c, o, ms[..n]), ms[n]).None?
  {
    hide ModeCall, After;
    var p := ms[..|ms| - 1];
    forall i | 0 <= i < |p| ensures ModeCall(c, After(c, o, p[..i]), p[i]).None? {
      assert p[..i] == ms[..i] && p[i] == ms[i];
    }
  }

  lemma TriggeredNext(c: Config, o: Obsw, ms: seq<Micro>)
    requires ms != []
    ensures var n := |ms| - 1;
      Triggered(c, o, ms) <==> Triggered(c, o, ms[..n]) || StoresTrigger(c, After(c, o, ms[..n]), ms[n])
  {
    hide StoresTrigger, After;
    var n := |ms| - 1;
    var p := ms[..n];
    forall i | 0 <= i < n ensures p[..i] == ms[..i] && p[i] == ms[i] {
    }
    if Triggered(c, o, p) {
      var i :| 0 <= i < |p| && StoresTrigger(c, After(c, o, p[..i]), p[i]);
      assert StoresTrigger(c, After(c, o, ms[..i]), ms[i]);
    }
    if Triggered(c, o, ms) {
      var i :| 0 <= i < |ms| && StoresTrigger(c, After(c, o, ms[..i]), ms[i]);
      if i < n {
        assert StoresTrigger(c, After(c, o, p[..i]), p[i]);
      }
    }
  }

  lemma {:induction false} DrivenIs(c: Config, o: Obsw, ms: seq<Micro>)
    requires NoCalls(c, o, ms)
    ensures Driven(c, o, ms) == if Triggered(c, o, ms) then ShortCommands.InSafe(o.fsm) else o.fsm
  {
    hide StoresTrigger, After, ModeCall, NoCalls, Triggered;
    if ms == [] {
      NoneTriggered(c, o);
    } else {
      PrefixCalls(c, o, ms);
      TriggeredNext(c, o, ms);
      DrivenIs(c, o, ms[..|ms| - 1]);
    }
  }

  lemma NoneTriggered(c: Config, o: Obsw)
    ensures !Triggered(c, o, [])
  {
  }

  /** While no mode function is called, the spacecraft is in SAFE, one entry more counted, exactly if a report of a
      trigger event was stored; otherwise it is in the mode it was in. */
  lemma SafeByTrigger(c: Config, o: Obsw, inputs: seq<Input>, k: nat)
    requires Bounded(c) && Sound(c, o) && k <= |RunMicros(c, o, inputs)|
    requires NoCalls(c, o, RunMicros(c, o, inputs)[..k])
    ensures var ms := RunMicros(c, o, inputs)[..k];
      After(c, o, ms).fsm == if Triggered(c, o, ms) then ShortCommands.InSafe(o.fsm) else o.fsm
  {
    hide RunMicros, After, Driven, Sound, NoCalls, Triggered;
    var ms := RunMicros(c, o, inputs)[..k];
    StepsDriven(c, o, ms);
    DrivenIs(c, o, ms);
  }
}
