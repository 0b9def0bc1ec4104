/**
  Housekeeping over every run of the whole executive, with TC(3,x) at any time: what a set has reported since a
  telecommand last changed it is what it alone would report, at its own due ticks.
  */
module HkRuns {
  import opened Bytes
  import opened Dispatcher
  import opened Executive
  import opened MicroSteps
  import opened Runs
  import opened Safety
  import H = HkModel
  import HkTicks
  import Invariants
  import Obt
  import PusTm
  import ReportGrammar
  import TcPacket
  import TmPacket
  import Verification

  // ----- Sets and reports by identifier -------------------------------------------------------------------

  /** The set of an identifier, if the table has one. */
  function SetOf(sets: seq<H.HkSet>, id: u8): Option<H.HkSet> {
    var k := H.Position(sets, id);
    if k < |sets| then Some(sets[k]) else None
  }

  lemma SetIs(sets: seq<H.HkSet>, id: u8, k: nat)
    requires H.DistinctIds(sets) && k < |sets| && sets[k].setId == id
    ensures SetOf(sets, id) == Some(sets[k])
  {
  }

  lemma NoSet(sets: seq<H.HkSet>, id: u8)
    ensures SetOf(sets, id).None? <==> forall i | 0 <= i < |sets| :: sets[i].setId != id
    ensures SetOf(sets, id).Some? ==> SetOf(sets, id).value in sets && SetOf(sets, id).value.setId == id
  {
  }

  /** Two tables with the same member under an identifier, or none. */
  lemma SameMember(s: seq<H.HkSet>, t: seq<H.HkSet>, id: u8)
    requires H.DistinctIds(s) && H.DistinctIds(t)
    requires forall x: H.HkSet :: x.setId == id ==> (x in s <==> x in t)
    ensures SetOf(s, id) == SetOf(t, id)
  {
    hide H.Position;
    NoSet(s, id);
    NoSet(t, id);
    if SetOf(s, id).Some? {
      MemberIs(t, id, SetOf(s, id).value);
    } else if SetOf(t, id).Some? {
      MemberIs(s, id, SetOf(t, id).value);
    }
  }

  lemma MemberIs(sets: seq<H.HkSet>, id: u8, x: H.HkSet)
    requires H.DistinctIds(sets) && x in sets && x.setId == id
    ensures SetOf(sets, id) == Some(x)
  {
    hide SetOf;
    var k :| 0 <= k < |sets| && sets[k] == x;
    SetIs(sets, id, k);
  }

  /** Reports of a set are among the service 3 packets. */
  lemma {:induction false} ReportsAreHk(id: u8, log: seq<TmPacket.Packet>)
    ensures HkTicks.Reported(id, log) == HkTicks.Reported(id, ReportGrammar.HkReports(log))
  {
    if log != [] {
      var n := |log| - 1;
      ReportsAreHk(id, log[..n]);
      var x := ReportGrammar.HkReports(log[..n]);
      assert (x + [log[n]])[..|x|] == x;
      assert log[n].service != 3 ==> ReportGrammar.HkReports(log) == x;
    }
  }

  lemma SameReports(id: u8, a: seq<TmPacket.Packet>, b: seq<TmPacket.Packet>)
    requires ReportGrammar.HkReports(a) == ReportGrammar.HkReports(b)
    ensures HkTicks.Reported(id, a) == HkTicks.Reported(id, b)
  {
    ReportsAreHk(id, a);
    ReportsAreHk(id, b);
  }

  // ----- What is watched ------------------------------------------------------------------------------------

  /** A set as the last telecommand for its identifier left it, what the ticks since then found in memory, and
      how many reports had been built before. */
  datatype Watch = Watch(start: Option<H.HkSet>, ticks: seq<H.Memory>, before: nat)

  function Fresh(o: Obsw, id: u8): Watch {
    Watch(SetOf(o.hk.sets, id), [], |HkTicks.Reported(id, o.s1.down.log)|)
  }

  /** A telecommand handled by service 3 that completed and names the identifier: TC(3,1), TC(3,5), TC(3,6), or
      TC(3,3) with it in its list. */
  predicate Names(c: Config, o: Obsw, frame: bytes, id: u8) {
    match TcPacket.Extract(frame)
    case None => false
    case Some(tc) =>
      var u := tc.userData;
      && Feed(c, o, frame).1 == Ok && u != []
      && match Reached(c, o, tc)
         case Some(HkDefine) => u[0] == id
         case Some(HkDelete) => id in u[1..]
         case Some(HkEnable) => u[0] == id
         case Some(HkDisable) => u[0] == id
         case _ => false
  }

  function Track(c: Config, o: Obsw, m: Micro, id: u8, w: Watch): Watch {
    match m
    case FeedFrame(frame) => if Names(c, o, frame, id) then Fresh(Feed(c, o, frame).0, id) else w
    case Housekeep(app) => w.(ticks := w.ticks + [MemoryOf(o.params.table, app)])
    case _ => w
  }

  /** The watch on an identifier after some steps. */
  function Watched(c: Config, o: Obsw, ms: seq<Micro>, id: u8): Watch {
    if ms == [] then Fresh(o, id)
    else
      var n := |ms| - 1;
      Track(c, After(c, o, ms[..n]), ms[n], id, Watched(c, o, ms[..n], id))
  }

  /** What should be in the table under an identifier. */
  function Expected(w: Watch): Option<H.HkSet> {
    match w.start
    case None => None
    case Some(s) => Some(H.Run(s, |w.ticks|).0)
  }

  /** What should have been reported under it since. */
  function Due(w: Watch): seq<bytes> {
    match w.start
    case None => []
    case Some(s) => HkTicks.Alone(s, w.ticks)
  }

  ghost predicate InStep(sets: seq<H.HkSet>, log: seq<TmPacket.Packet>, id: u8, w: Watch) {
    && SetOf(sets, id) == Expected(w)
    && w.before <= |HkTicks.Reported(id, log)| && HkTicks.Reported(id, log)[w.before..] == Due(w)
  }

  lemma FreshInStep(o: Obsw, id: u8)
    ensures InStep(o.hk.sets, o.s1.down.log, id, Fresh(o, id))
  {
    hide H.Position, HkTicks.Reported;
  }

  // ----- Telecommands ---------------------------------------------------------------------------------------

  lemma DefineOther(c: H.Config, h: H.Hk, v: Verification.Reporter, tc: Tc, id: u8)
    requires H.DistinctIds(h.sets) && H.DistinctIds(H.Define(c, h, v, tc).0.sets)
    requires !H.Define(c, h, v, tc).2 || tc.userData == [] || tc.userData[0] != id
    ensures SetOf(H.Define(c, h, v, tc).0.sets, id) == SetOf(h.sets, id)
  {
    hide Verification.Reporter.Report, Verification.TcRef, H.RequestedIds, H.NewParams, SetOf, H.DistinctIds;
    if H.Define(c, h, v, tc).2 {
      SameMember(h.sets, H.Define(c, h, v, tc).0.sets, id);
    }
  }

  lemma DeleteOther(c: H.Config, h: H.Hk, v: Verification.Reporter, tc: Tc, id: u8)
    requires H.DistinctIds(h.sets) && H.DistinctIds(H.Delete(c, h, v, tc).0.sets)
    requires !H.Delete(c, h, v, tc).2 || tc.userData == [] || id !in tc.userData[1..]
    ensures SetOf(H.Delete(c, h, v, tc).0.sets, id) == SetOf(h.sets, id)
  {
    hide Verification.Reporter.Report, Verification.TcRef, H.DeleteWellFormed, SetOf, H.DistinctIds;
    var t := H.Delete(c, h, v, tc).0.sets;
    if H.Delete(c, h, v, tc).2 {
      DeletesSome(c, h, v, tc);
      forall x: H.HkSet | x.setId == id ensures x in h.sets <==> x in t {
        H.WithoutMembers(h.sets, H.Listed(tc.userData[1..]), x);
      }
      SameMember(h.sets, t, id);
    }
  }

  lemma DeletesSome(c: H.Config, h: H.Hk, v: Verification.Reporter, tc: Tc)
    requires H.Delete(c, h, v, tc).2
    ensures tc.userData != []
  {
    hide Verification.Reporter.Report, Verification.TcRef, H.Deletable;
  }

  lemma RetimeOther(h: H.Hk, v: Verification.Reporter, tc: Tc, enable: bool, id: u8)
    requires H.DistinctIds(h.sets)
    requires var (t, _, ok) := if enable then H.Enable(h, v, tc) else H.Disable(h, v, tc);
      H.DistinctIds(t.sets) && (!ok || tc.userData == [] || tc.userData[0] != id)
    ensures var t := if enable then H.Enable(h, v, tc).0 else H.Disable(h, v, tc).0;
      SetOf(t.sets, id) == SetOf(h.sets, id)
  {
    hide Verification.Reporter.Report, Verification.TcRef, SetOf, H.DistinctIds;
    var t := if enable then H.Enable(h, v, tc).0 else H.Disable(h, v, tc).0;
    if t.sets != h.sets {
      forall x: H.HkSet | x.setId == id ensures x in h.sets <==> x in t.sets {
        var k := H.Position(h.sets, tc.userData[0]);
        OtherMember(h.sets, t.sets, k, x);
      }
      SameMember(h.sets, t.sets, id);
    }
  }

  lemma OtherMember(s: seq<H.HkSet>, t: seq<H.HkSet>, k: nat, x: H.HkSet)
    requires k < |s| == |t| && t == s[k := t[k]] && s[k] != x && t[k] != x
    ensures x in s <==> x in t
  {
    if x in s {
      var i :| 0 <= i < |s| && s[i] == x;
      assert t[i] == x;
    }
    if x in t {
      var i :| 0 <= i < |t| && t[i] == x;
      assert s[i] == x;
    }
  }

  lemma DispatchOther(c: Config, o: Obsw, tc: Tc, id: u8)
    requires var (o', r) := Executive.Dispatch(c, o, tc);
      && H.DistinctIds(o.hk.sets) && H.DistinctIds(o'.hk.sets)
      && (r == Ok && tc.userData != [] ==> match Reached(c, o, tc)
            case Some(HkDefine) => tc.userData[0] != id
            case Some(HkDelete) => id !in tc.userData[1..]
            case Some(HkEnable) => tc.userData[0] != id
            case Some(HkDisable) => tc.userData[0] != id
            case _ => true)
    ensures SetOf(Executive.Dispatch(c, o, tc).0.hk.sets, id) == SetOf(o.hk.sets, id)
  {
    hide FindRoute, H.Define, H.Delete, H.Enable, H.Disable, Verification.Reporter.Report, SetOf, H.DistinctIds;
    if Reached(c, o, tc).Some? {
      var h := Reached(c, o, tc).value;
      if h.Service() != 3 {
        hide Handle;
        HandleFrame(c, o, h, tc);
      } else if h.HkDefine? {
        DefineOther(c.hk, o.hk, o.s1, tc, id);
      } else if h.HkDelete? {
        DeleteOther(c.hk, o.hk, o.s1, tc, id);
      } else {
        RetimeOther(o.hk, o.s1, tc, h.HkEnable?, id);
      }
    }
  }

  // ----- Each step --------------------------------------------------------------------------------------------

  lemma FeedInStep(c: Config, o: Obsw, frame: bytes, id: u8, w: Watch)
    requires H.DistinctIds(o.hk.sets) && H.DistinctIds(Feed(c, o, frame).0.hk.sets)
    requires InStep(o.hk.sets, o.s1.down.log, id, w)
    ensures var o' := Feed(c, o, frame).0;
      InStep(o'.hk.sets, o'.s1.down.log, id, if Names(c, o, frame, id) then Fresh(o', id) else w)
  {
    hide Executive.Dispatch, Reached, SetOf, HkTicks.Reported, H.DistinctIds, Expected, Due;
    var o' := Feed(c, o, frame).0;
    if Names(c, o, frame, id) {
      FreshInStep(o', id);
    } else {
      FeedReports(c, o, frame, id);
      if TcPacket.Extract(frame).Some? {
        DispatchOther(c, o, TcPacket.Extract(frame).value, id);
      }
    }
  }

  /** No telecommand has a housekeeping report built. */
  lemma FeedReports(c: Config, o: Obsw, frame: bytes, id: u8)
    ensures HkTicks.Reported(id, Feed(c, o, frame).0.s1.down.log) == HkTicks.Reported(id, o.s1.down.log)
  {
    hide Feed, ReportGrammar.HkReports, ReportGrammar.AcksOf, ReportGrammar.EventsIn, FeedEvents, TcPacket.Extract;
    hide ReportGrammar.Grew, ReportGrammar.Expected;
    var w := FeedServed(c, o, frame);
    SameReports(id, Feed(c, o, frame).0.s1.down.log, o.s1.down.log);
  }

  lemma HousekeepInStep(o: Obsw, app: nat -> u32, id: u8, w: Watch)
    requires H.DistinctIds(o.hk.sets) && InStep(o.hk.sets, o.s1.down.log, id, w)
    ensures var o' := TickHk(o, app);
      InStep(o'.hk.sets, o'.s1.down.log, id, w.(ticks := w.ticks + [MemoryOf(o.params.table, app)]))
  {
    hide H.TickUpTo, HkTicks.Reported, HkTicks.Alone, H.Run, SetOf, H.Count, HkTicks.Fits, H.Serialise;
    var m, sets, o' := MemoryOf(o.params.table, app), o.hk.sets, TickHk(o, app);
    var w' := w.(ticks := w.ticks + [m]);
    HkTicks.TickIds(o.hk, o.s1.down, m);
    NoSet(sets, id);
    if SetOf(sets, id).Some? {
      var s := w.start.value;
      var k := Located(sets, id);
      HkTicks.TickEach(o.hk, o.s1.down, m, |sets|, k);
      HkTicks.TickAdds(o.hk, o.s1.down, m, |sets|, k);
      HkTicks.RunKeepsSet(s, |w.ticks|);
      HkTicks.CountKeepsId(sets[k]);
      SetIs(o'.hk.sets, id, k);
      Next(s, w.ticks, m);
    } else {
      TickNone(o.hk, o.s1.down, m, |sets|, id);
      forall i | 0 <= i < |sets| ensures o'.hk.sets[i].setId != id {
        HkTicks.TickEach(o.hk, o.s1.down, m, |sets|, i);
        HkTicks.CountKeepsId(sets[i]);
      }
      NoSet(o'.hk.sets, id);
    }
  }

  lemma Located(sets: seq<H.HkSet>, id: u8) returns (k: nat)
    requires SetOf(sets, id).Some?
    ensures k < |sets| && sets[k].setId == id && SetOf(sets, id) == Some(sets[k])
  {
    k := H.Position(sets, id);
  }

  lemma Next(s: H.HkSet, ms: seq<H.Memory>, m: H.Memory)
    ensures H.Run(s, |ms + [m]|).0 == H.Count(H.Run(s, |ms|).0).0
    ensures HkTicks.Alone(s, ms + [m]) == HkTicks.Alone(s, ms)
         + if HkTicks.Fits(s.params) && H.Count(H.Run(s, |ms|).0).1 then [H.Serialise(s.params, m)] else []
  {
    hide H.Count, H.Serialise, HkTicks.Fits;
    assert (ms + [m])[..|ms|] == ms;
  }

  /** Ticks report nothing under an identifier the table does not have. */
  lemma {:induction false} TickNone(h: H.Hk, d: PusTm.Downlink, m: H.Memory, n: nat, id: u8)
    requires n <= |h.sets| && forall i | 0 <= i < |h.sets| :: h.sets[i].setId != id
    ensures HkTicks.Reported(id, H.TickUpTo(h, d, m, n).1.log) == HkTicks.Reported(id, d.log)
  {
    hide H.Report, HkTicks.Reported, H.Count;
    if n > 0 {
      TickNone(h, d, m, n - 1, id);
      var (h1, d1) := H.TickUpTo(h, d, m, n - 1);
      HkTicks.ReportAdds(h1, d1, h.sets[n - 1], m, id);
      var none: seq<bytes> := [];
      assert HkTicks.Reported(id, d1.log) + none == HkTicks.Reported(id, d1.log);
    }
  }

  /** The other steps touch no set and build no housekeeping report. */
  lemma OtherFrame(c: Config, o: Obsw, m: Micro, id: u8)
    requires !m.FeedFrame? && !m.Housekeep?
    ensures Apply(c, o, m).hk == o.hk
    ensures HkTicks.Reported(id, Apply(c, o, m).s1.down.log) == HkTicks.Reported(id, o.s1.down.log)
  {
    hide Feed, Write, Obt.Advance, TickHk, HkTicks.Reported, ReportGrammar.HkReports;
    if m.Check? {
      CheckFrame(c, o);
      SameReports(id, CheckLimits(c, o).s1.down.log, o.s1.down.log);
    }
  }

  lemma CheckFrame(c: Config, o: Obsw)
    ensures CheckLimits(c, o).hk == o.hk
    ensures ReportGrammar.HkReports(CheckLimits(c, o).s1.down.log) == ReportGrammar.HkReports(o.s1.down.log)
  {
    hide ReportGrammar.HkReports, ReportGrammar.Carried, Kept, LimitEvents, Invariants.HearAll;
    LimitsQuiet(c, o);
  }

  lemma StepInStep(c: Config, o: Obsw, m: Micro, id: u8, w: Watch)
    requires H.DistinctIds(o.hk.sets) && H.DistinctIds(Apply(c, o, m).hk.sets)
    requires InStep(o.hk.sets, o.s1.down.log, id, w)
    ensures var o' := Apply(c, o, m); InStep(o'.hk.sets, o'.s1.down.log, id, Track(c, o, m, id, w))
  {
    hide Feed, ControlStep, CheckLimits, TickHk, SetOf, HkTicks.Reported, H.DistinctIds, Names, Fresh, Expected, Due;
    match m {
      case FeedFrame(frame) => FeedInStep(c, o, frame, id, w);
      case Housekeep(app) => HousekeepInStep(o, app, id, w);
      case _ => OtherFrame(c, o, m, id);
    }
  }

  lemma {:induction false} StepsInStep(c: Config, o: Obsw, ms: seq<Micro>, id: u8)
    requires Bounded(c) && Sound(c, o)
    ensures var s := After(c, o, ms); InStep(s.hk.sets, s.s1.down.log, id, Watched(c, o, ms, id))
  {
    hide Apply, Track, InStep, Sound, Invariants.BootSets;
    if ms == [] {
      FreshInStep(o, id);
    } else {
      var n := |ms| - 1;
      StepsInStep(c, o, ms[..n], id);
      StateSound(c, o, ms[..n]);
      StateSound(c, o, ms);
      SoundDistinct(c, After(c, o, ms[..n]));
      SoundDistinct(c, After(c, o, ms));
      StepInStep(c, After(c, o, ms[..n]), ms[n], id, Watched(c, o, ms[..n], id));
    }
  }

  lemma SoundDistinct(c: Config, o: Obsw)
    requires Sound(c, o)
    ensures H.DistinctIds(o.hk.sets)
  {
  }

  /**
    In every state of every run, whatever sets were defined, deleted, enabled or disabled on the way, and for
    every identifier: the table has the set that the last telecommand for it left there, counted down by the
    ticks since; and the TM(3,25) built under the identifier since then are those that set alone would send, at
    its own due ticks and with the values of those ticks. Without such a set there are none.
    */
  lemma ReportsFollow(c: Config, o: Obsw, inputs: seq<Input>, k: nat, id: u8)
    requires Bounded(c) && Sound(c, o) && k <= |RunMicros(c, o, inputs)|
    ensures var ms := RunMicros(c, o, inputs)[..k];
      var s, w := After(c, o, ms), Watched(c, o, ms, id);
      var reports := HkTicks.Reported(id, s.s1.down.log);
      && w.before <= |reports|
      && match w.start
         case None => SetOf(s.hk.sets, id) == None && reports[w.before..] == []
         case Some(first) =>
           && SetOf(s.hk.sets, id) == Some(H.Run(first, |w.ticks|).0)
           && reports[w.before..] == HkTicks.Alone(first, w.ticks)
  {
    hide RunMicros, After, Watched, Sound, SetOf, H.Run, HkTicks.Reported, HkTicks.Alone;
    StepsInStep(c, o, RunMicros(c, o, inputs)[..k], id);
  }
}
