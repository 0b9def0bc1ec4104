/**
  Limit checks over every run of the whole executive, with TC(12,x) at any time: what one definition has
  reported since it was added, replaced or enabled again is a function of the values it has seen since.
  */
module MonitorRuns {
  import opened Bytes
  import opened Dispatcher
  import opened Executive
  import opened MicroSteps
  import opened Runs
  import opened Safety
  import opened Uplink
  import Invariants
  import M = Monitoring
  import MonitorCommands
  import Obt
  import Parameters
  import TcPacket
  import Verification

  // ----- What a definition should report ----------------------------------------------------------------

  /** The events for a history of values: one whenever a value lies beyond a limit and the one before, if
      any, did not. */
  function Alarms(d: M.Def, history: seq<u32>): seq<u16> {
    if history == [] then []
    else
      var n := |history| - 1;
      Alarms(d, history[..n])
      + (if M.EntersAt(M.BelowEach(d, history), n) then [d.eventLow] else [])
      + (if M.EntersAt(M.AboveEach(d, history), n) then [d.eventHigh] else [])
  }

  lemma CountAppended(s: seq<u16>, low: u16, high: u16, x: bool, y: bool)
    ensures var r := s + (if x then [low] else []) + (if y then [high] else []);
      && |r| == |s| + (if x then 1 else 0) + (if y then 1 else 0)
      && (low != high ==>
            && multiset(r)[low] == multiset(s)[low] + (if x then 1 else 0)
            && multiset(r)[high] == multiset(s)[high] + (if y then 1 else 0))
  {
  }

  /** Alarms of each side are its excursions. */
  lemma {:induction false} AlarmsPerSide(d: M.Def, history: seq<u32>)
    ensures |Alarms(d, history)|
         == |M.Excursions(M.BelowEach(d, history))| + |M.Excursions(M.AboveEach(d, history))|
    ensures d.eventLow != d.eventHigh ==>
      && multiset(Alarms(d, history))[d.eventLow] == |M.Excursions(M.BelowEach(d, history))|
      && multiset(Alarms(d, history))[d.eventHigh] == |M.Excursions(M.AboveEach(d, history))|
  {
    if history == [] {
      assert M.Excursions(M.BelowEach(d, history)) == {} && M.Excursions(M.AboveEach(d, history)) == {};
    } else {
      hide M.Excursions, M.EntersAt;
      var n := |history| - 1;
      var below, above := M.BelowEach(d, history), M.AboveEach(d, history);
      AlarmsPerSide(d, history[..n]);
      assert below[..n] == M.BelowEach(d, history[..n]);
      assert above[..n] == M.AboveEach(d, history[..n]);
      M.ExcursionsNext(below);
      M.ExcursionsNext(above);
      CountAppended(Alarms(d, history[..n]), d.eventLow, d.eventHigh, M.EntersAt(below, n), M.EntersAt(above, n));
    }
  }

  // ----- What it has seen and reported --------------------------------------------------------------------

  /** The definition last given for a parameter, the values it was checked against and the events it raised, since
      it was given or the checks were last enabled. */
  datatype Watch = Watch(given: Option<M.Def>, seen: seq<u32>, events: seq<u16>)

  /** What the table has for a parameter, but for the latches. */
  function Configured(t: seq<M.Def>, id: u16): Option<M.Def> {
    var k := M.Position(t, id);
    if k < |t| then Some(t[k].(inLow := false, inHigh := false)) else None
  }

  /** A completed TC(12,3) for the parameter gives the definition its octets name; a TC(12,1) starts anew. */
  function Heeded(c: Config, o: Obsw, tc: Tc, completed: bool, id: u16, w: Watch): Watch {
    var u := tc.userData;
    match Reached(c, o, tc)
    case Some(MonEnable) => w.(seen := [], events := [])
    case Some(MonAdd) =>
      if completed && |u| >= 15 && Word(u, 0) == id then Watch(Some(MonitorCommands.Given(u)), [], []) else w
    case _ => w
  }

  /** One round of checks, as the parameter's definition takes part in it. */
  function Checked(c: Config, o: Obsw, id: u16, w: Watch): Watch {
    var k := M.Position(o.monitor.defs, id);
    var v := M.ReadingsOf(o.params.table, c.convert)(id);
    if !o.monitor.enabled || k == |o.monitor.defs| || v.None? then w
    else Watch(w.given, w.seen + [v.value], w.events + Invariants.DefEvents(o.monitor.defs[k], v))
  }

  function Track(c: Config, o: Obsw, m: Micro, id: u16, w: Watch): Watch {
    match m
    case FeedFrame(frame) =>
      (match TcPacket.Extract(frame)
       case None => w
       case Some(tc) => Heeded(c, o, tc, Feed(c, o, frame).1 == Ok, id, w))
    case Check => Checked(c, o, id, w)
    case _ => w
  }

  /** The watch on a parameter after some steps. */
  function Watched(c: Config, o: Obsw, ms: seq<Micro>, id: u16): Watch {
    if ms == [] then Watch(Configured(o.monitor.defs, id), [], [])
    else
      var n := |ms| - 1;
      Track(c, After(c, o, ms[..n]), ms[n], id, Watched(c, o, ms[..n], id))
  }

  /** The definition is the one given, has raised what it should, and its latches tell where the last value lies. */
  predicate InStep(d: M.Def, w: Watch) {
    && w.given == Some(d.(inLow := false, inHigh := false))
    && w.events == Alarms(d, w.seen)
    && d.inLow == (w.seen != [] && d.BelowLow(w.seen[|w.seen| - 1]))
    && d.inHigh == (w.seen != [] && d.AboveHigh(w.seen[|w.seen| - 1]))
  }

  ghost predicate AllInStep(t: seq<M.Def>, id: u16, w: Watch) {
    forall i | 0 <= i < |t| && t[i].paramId == id :: InStep(t[i], w)
  }

  lemma ClearInStep(d: M.Def)
    requires !d.inLow && !d.inHigh
    ensures InStep(d, Watch(Some(d), [], []))
  {
  }

  /** Limits, not latches, decide what should be reported. */
  lemma {:induction false} AlarmsByLimits(d: M.Def, e: M.Def, history: seq<u32>)
    requires e == d.(inLow := e.inLow, inHigh := e.inHigh)
    ensures Alarms(e, history) == Alarms(d, history)
  {
    if history != [] {
      AlarmsByLimits(d, e, history[..|history| - 1]);
      assert M.BelowEach(e, history) == M.BelowEach(d, history);
      assert M.AboveEach(e, history) == M.AboveEach(d, history);
    }
  }

  /** One more value. */
  lemma SeenInStep(d: M.Def, w: Watch, v: u32)
    requires InStep(d, w)
    ensures InStep(M.Latched(d, v), Watch(w.given, w.seen + [v], w.events + Invariants.DefEvents(d, Some(v))))
  {
    hide M.EntersAt, M.BelowEach, M.AboveEach, Parameters.Less;
    var h, n := w.seen + [v], |w.seen|;
    assert h[..n] == w.seen;
    M.EachPrefix(d, h);
    AlarmsByLimits(d, M.Latched(d, v), h);
  }

  // ----- Each step keeps them in step -------------------------------------------------------------------

  lemma CheckInStep(c: Config, o: Obsw, id: u16, w: Watch)
    requires M.Distinct(o.monitor.defs) && AllInStep(o.monitor.defs, id, w)
    ensures AllInStep(CheckLimits(c, o).monitor.defs, id, Checked(c, o, id, w))
  {
    hide InStep, M.CheckUpTo, M.Latched, Invariants.DefEvents, M.ReadingsOf;
    var t := o.monitor.defs;
    var r := M.ReadingsOf(o.params.table, c.convert);
    var t' := CheckLimits(c, o).monitor.defs;
    if o.monitor.enabled {
      forall i | 0 <= i < |t'| && t'[i].paramId == id ensures InStep(t'[i], Checked(c, o, id, w)) {
        M.CheckEach(t, o.Bus(), c.triggers, r, |t|, i);
        LatchedKeepsId(t[i], r(t[i].paramId));
        assert M.Position(t, id) == i by { M.PositionIs(t, id, i); }
        if r(id).Some? {
          SeenInStep(t[i], w, r(id).value);
        }
      }
    }
  }

  lemma LatchedKeepsId(d: M.Def, v: Option<u32>)
    ensures v.Some? ==> M.Latched(d, v.value).paramId == d.paramId
  {
  }

  lemma AddInStep(cap: nat, params: seq<Parameters.Entry>, m: M.Monitor, v: Verification.Reporter, tc: Tc,
                  id: u16, w: Watch)
    requires M.Distinct(m.defs) && AllInStep(m.defs, id, w)
    ensures var (m', _, ok) := M.Add(cap, params, m, v, tc);
      AllInStep(m'.defs, id, if ok && |tc.userData| >= 15 && Word(tc.userData, 0) == id
                             then Watch(Some(MonitorCommands.Given(tc.userData)), [], []) else w)
  {
    hide InStep, Verification.Reporter.Report, Verification.TcRef, MonitorCommands.Given, M.Described;
    if M.Add(cap, params, m, v, tc).2 {
      MonitorCommands.LongEnough(params, tc.userData);
      MonitorCommands.DescribedIs(tc.userData);
      DescribedClear(tc.userData);
      ClearInStep(M.Described(tc.userData));
    }
  }

  lemma DescribedClear(u: bytes)
    requires |u| >= 15
    ensures !M.Described(u).inLow && !M.Described(u).inHigh
  {
  }

  lemma DeleteInStep(m: M.Monitor, v: Verification.Reporter, tc: Tc, id: u16, w: Watch)
    requires AllInStep(m.defs, id, w)
    ensures AllInStep(M.Delete(m, v, tc).0.defs, id, w)
  {
    hide InStep, Verification.Reporter.Report, Verification.TcRef;
  }

  lemma EnableInStep(m: M.Monitor, v: Verification.Reporter, tc: Tc, id: u16, w: Watch)
    requires AllInStep(m.defs, id, w)
    ensures AllInStep(M.Enable(m, v, tc).0.defs, id, w.(seen := [], events := []))
  {
    hide Verification.Reporter.Report, Verification.TcRef;
    var t := M.Enable(m, v, tc).0.defs;
    forall i | 0 <= i < |t| && t[i].paramId == id ensures InStep(t[i], w.(seen := [], events := [])) {
      assert InStep(m.defs[i], w);
      ClearInStep(t[i]);
    }
  }

  lemma DispatchInStep(c: Config, o: Obsw, tc: Tc, id: u16, w: Watch)
    requires M.Distinct(o.monitor.defs) && AllInStep(o.monitor.defs, id, w)
    ensures var (o', r) := Executive.Dispatch(c, o, tc);
      AllInStep(o'.monitor.defs, id, Heeded(c, o, tc, r == Ok, id, w))
  {
    hide FindRoute, M.Add, M.Delete, M.Enable, Verification.Reporter.Report, InStep, M.Distinct, MonitorCommands.Given;
    if Reached(c, o, tc).Some? {
      var h := Reached(c, o, tc).value;
      if h.Service() == 12 {
        AddInStep(c.monitorCap, o.params.table, o.monitor, o.s1, tc, id, w);
        DeleteInStep(o.monitor, o.s1, tc, id, w);
        EnableInStep(o.monitor, o.s1, tc, id, w);
      } else {
        hide Handle;
        HandleFrame(c, o, h, tc);
      }
    }
  }

  lemma StepInStep(c: Config, o: Obsw, m: Micro, id: u16, w: Watch)
    requires M.Distinct(o.monitor.defs) && AllInStep(o.monitor.defs, id, w)
    ensures AllInStep(Apply(c, o, m).monitor.defs, id, Track(c, o, m, id, w))
  {
    hide Executive.Dispatch, Heeded, M.Add, AllInStep, M.Distinct, Checked, CheckLimits, Obt.Advance, Write;
    match m {
      case FeedFrame(frame) =>
        if TcPacket.Extract(frame).Some? {
          DispatchInStep(c, o, TcPacket.Extract(frame).value, id, w);
        }
      case Check => CheckInStep(c, o, id, w);
      case _ =>
    }
  }

  /** No definition has tripped yet. */
  ghost predicate AllClear(t: seq<M.Def>) {
    forall i | 0 <= i < |t| :: !t[i].inLow && !t[i].inHigh
  }

  lemma StartInStep(t: seq<M.Def>, id: u16)
    requires M.Distinct(t) && AllClear(t)
    ensures AllInStep(t, id, Watch(Configured(t, id), [], []))
  {
    forall i | 0 <= i < |t| && t[i].paramId == id ensures InStep(t[i], Watch(Configured(t, id), [], [])) {
      M.PositionIs(t, id, i);
      ClearInStep(t[i]);
    }
  }

  lemma {:induction false} StepsInStep(c: Config, o: Obsw, ms: seq<Micro>, id: u16)
    requires Bounded(c) && Sound(c, o) && AllClear(o.monitor.defs)
    ensures AllInStep(After(c, o, ms).monitor.defs, id, Watched(c, o, ms, id))
  {
    hide Apply, Track, InStep, Sound, Invariants.BootSets;
    if ms == [] {
      SoundDistinct(c, o);
      StartInStep(o.monitor.defs, id);
    } else {
      var n := |ms| - 1;
      StepsInStep(c, o, ms[..n], id);
      StateSound(c, o, ms[..n]);
      SoundDistinct(c, After(c, o, ms[..n]));
      StepInStep(c, After(c, o, ms[..n]), ms[n], id, Watched(c, o, ms[..n], id));
    }
  }

  lemma SoundDistinct(c: Config, o: Obsw)
    requires Sound(c, o)
    ensures M.Distinct(o.monitor.defs)
  {
  }

  /**
    In every state of every run that starts with clear latches, whatever limit checks were added, replaced,
    deleted, disabled or enabled on the way: each definition in the table is, but for its latches, the one whose
    octets the last completed TC(12,3) for its parameter carried (or the one the run started with), and it has,
    since then or since the checks were last enabled, raised one event per excursion of the values it was checked
    against beyond each of its limits, low before high and in that order, and no other.
    */
  lemma ExcursionsReported(c: Config, o: Obsw, inputs: seq<Input>, k: nat, i: nat)
    requires Bounded(c) && Sound(c, o) && AllClear(o.monitor.defs) && k <= |RunMicros(c, o, inputs)|
    requires i < |After(c, o, RunMicros(c, o, inputs)[..k]).monitor.defs|
    ensures var ms := RunMicros(c, o, inputs)[..k];
      var d := After(c, o, ms).monitor.defs[i];
      var w := Watched(c, o, ms, d.paramId);
      && w.given == Some(d.(inLow := false, inHigh := false))
      && w.events == Alarms(d, w.seen)
      && |w.events| == |M.Excursions(M.BelowEach(d, w.seen))| + |M.Excursions(M.AboveEach(d, w.seen))|
      && (d.eventLow != d.eventHigh ==>
            && multiset(w.events)[d.eventLow] == |M.Excursions(M.BelowEach(d, w.seen))|
            && multiset(w.events)[d.eventHigh] == |M.Excursions(M.AboveEach(d, w.seen))|)
  {
    hide RunMicros, After, Watched, Sound, Alarms, M.Excursions, M.BelowEach, M.AboveEach;
    var ms := RunMicros(c, o, inputs)[..k];
    var d := After(c, o, ms).monitor.defs[i];
    StepsInStep(c, o, ms, d.paramId);
    AlarmsPerSide(d, Watched(c, o, ms, d.paramId).seen);
  }

  // ----- The events are the run's -------------------------------------------------------------------------

  function Flat(s: seq<seq<u16>>): seq<u16> {
    if s == [] then [] else Flat(s[..|s| - 1]) + s[|s| - 1]
  }

  /** The events of a round of checks, definition by definition. */
  function Shares(t: seq<M.Def>, r: M.Readings): (s: seq<seq<u16>>)
    ensures |s| == |t|
  {
    seq(|t|, i requires 0 <= i < |t| => Invariants.DefEvents(t[i], r(t[i].paramId)))
  }

  lemma {:induction false} FlatShares(t: seq<M.Def>, r: M.Readings)
    ensures Flat(Shares(t, r)) == Invariants.CheckEvents(t, r)
  {
    hide Invariants.DefEvents;
    if t != [] {
      var n := |t| - 1;
      FlatShares(t[..n], r);
      assert Shares(t, r)[..n] == Shares(t[..n], r);
    }
  }

  /** A round of checks raises what the watches of its definitions gain, in table order, and nothing else. */
  lemma RoundIsGains(c: Config, o: Obsw)
    requires M.Distinct(o.monitor.defs) && o.monitor.enabled
    ensures var t, shares := o.monitor.defs, Shares(o.monitor.defs, M.ReadingsOf(o.params.table, c.convert));
      && LimitEvents(c, o) == Flat(shares)
      && forall i, w: Watch | 0 <= i < |t| :: Checked(c, o, t[i].paramId, w).events == w.events + shares[i]
  {
    hide M.ReadingsOf;
    var t, r := o.monitor.defs, M.ReadingsOf(o.params.table, c.convert);
    FlatShares(t, r);
    forall i, w: Watch | 0 <= i < |t| ensures Checked(c, o, t[i].paramId, w).events == w.events + Shares(t, r)[i] {
      M.PositionIs(t, t[i].paramId, i);
      if r(t[i].paramId).None? {
        assert w.events + [] == w.events;
      }
    }
  }
}
