/** PUS service 12, on-board monitoring: the limit checks of `src/pus/s12.c` and their latches. */
module Monitoring {
  import opened Bytes
  import Events
  import Parameters
  import Verification

  const ADD_LEN := 15
  const DELETE_LEN := 2

  type Verify = Verification.Reporter
  type Tc = Verification.Tc

  /** A limit check on one parameter; limits are float bit patterns, a NaN limit never trips. */
  datatype Def = Def(
    paramId: u16, low: u32, high: u32, eventLow: u16, eventHigh: u16, severity: u8, inLow: bool, inHigh: bool)
  {
    predicate BelowLow(v: u32) {
      Parameters.Less(v, low)
    }

    predicate AboveHigh(v: u32) {
      Parameters.Less(high, v)
    }

    predicate LimitsOrdered() {
      Parameters.IsNan(low) || Parameters.IsNan(high) || !Parameters.Less(high, low)
    }
  }

  datatype Monitor = Monitor(defs: seq<Def>, enabled: bool)

  function Position(t: seq<Def>, id: u16): (k: nat)
    ensures k <= |t| && (k < |t| ==> t[k].paramId == id)
    ensures forall i | 0 <= i < k :: t[i].paramId != id
  {
    if t == [] || t[0].paramId == id then 0 else 1 + Position(t[1..], id)
  }

  lemma {:induction false} PositionIs(t: seq<Def>, id: u16, k: nat)
    requires k <= |t| && (k < |t| ==> t[k].paramId == id) && forall i | 0 <= i < k :: t[i].paramId != id
    ensures Position(t, id) == k
  {
    if k > 0 {
      PositionIs(t[1..], id, k - 1);
    }
  }

  // ----- Telecommands -------------------------------------------------------------------------

  /** The definition a TC(12,3) of sufficient length describes, with clear latches. */
  function Described(u: bytes): Def
    requires |u| >= ADD_LEN
  {
    Def(Be16(u), Be32(u[2..]), Be32(u[6..]), Be16(u[10..]), Be16(u[12..]), u[14], false, false)
  }

  predicate AddWellFormed(params: seq<Parameters.Entry>, u: bytes) {
    && |u| >= ADD_LEN
    && Parameters.Has(params, Be16(u))
    && 1 <= u[14] <= 4
    && Described(u).LimitsOrdered()
  }

  function Add(cap: nat, params: seq<Parameters.Entry>, m: Monitor, v: Verify, tc: Tc): (Monitor, Verify, bool) {
    var u := tc.userData;
    if !AddWellFormed(params, u) then (m, v.Reject(tc, Verification.FAIL_ILLEGAL_APP_DATA), false)
    else
      var k := Position(m.defs, Be16(u));
      if k == |m.defs| && |m.defs| >= cap then (m, v.Reject(tc, Verification.FAIL_EXEC_ERROR), false)
      else
        (m.(defs := if k == |m.defs| then m.defs + [Described(u)] else m.defs[k := Described(u)]),
         v.Accept(tc).Complete(tc), true)
  }

  /** The last definition moved over definition k, and the table shortened. */
  function SwapRemove(t: seq<Def>, k: nat): (r: seq<Def>)
    requires k < |t|
    ensures |r| == |t| - 1
  {
    t[k := t[|t| - 1]][..|t| - 1]
  }

  function Delete(m: Monitor, v: Verify, tc: Tc): (Monitor, Verify, bool) {
    var u := tc.userData;
    if |u| < DELETE_LEN || Position(m.defs, Be16(u)) == |m.defs| then
      (m, v.Reject(tc, Verification.FAIL_ILLEGAL_APP_DATA), false)
    else (m.(defs := SwapRemove(m.defs, Position(m.defs, Be16(u)))), v.Accept(tc).Complete(tc), true)
  }

  function DeleteAll(m: Monitor, v: Verify, tc: Tc): (Monitor, Verify, bool) {
    (m.(defs := []), v.Accept(tc).Complete(tc), true)
  }

  function Cleared(t: seq<Def>): (r: seq<Def>)
    ensures |r| == |t|
  {
    seq(|t|, i requires 0 <= i < |t| => t[i].(inLow := false, inHigh := false))
  }

  function Enable(m: Monitor, v: Verify, tc: Tc): (Monitor, Verify, bool) {
    (Monitor(Cleared(m.defs), true), v.Accept(tc).Complete(tc), true)
  }

  function Disable(m: Monitor, v: Verify, tc: Tc): (Monitor, Verify, bool) {
    (m.(enabled := false), v.Accept(tc).Complete(tc), true)
  }

  // ----- Checking -----------------------------------------------------------------------------

  /** The latches after a value is seen. */
  function Latched(d: Def, v: u32): Def {
    d.(inLow := d.BelowLow(v), inHigh := d.AboveHigh(v))
  }

  function RaiseIf(cond: bool, b: Events.Bus, triggers: seq<u16>, d: Def, event: u16, v: u32): Events.Bus {
    if cond then b.Raise(triggers, d.severity, event, Enc32(v)) else b
  }

  /** The events of one check of one definition: low side first. */
  function Raised(b: Events.Bus, triggers: seq<u16>, d: Def, v: u32): Events.Bus {
    var b1 := RaiseIf(d.BelowLow(v) && !d.inLow, b, triggers, d, d.eventLow, v);
    RaiseIf(d.AboveHigh(v) && !d.inHigh, b1, triggers, d, d.eventHigh, v)
  }

  /** Current float value of every known parameter. */
  type Readings = u16 -> Option<u32>

  /** What the checks read in a parameter table. */
  function ReadingsOf(params: seq<Parameters.Entry>, convert: (Parameters.Kind, u32) -> u32): Readings {
    (id: u16) =>
      var k := Parameters.Position(params, id);
      if k < |params| then Some(Parameters.AsFloat(params[k], convert)) else None
  }

  /** `obsw_s12_check` over the first n definitions. */
  function CheckUpTo(t: seq<Def>, b: Events.Bus, triggers: seq<u16>, r: Readings, n: nat): (x: (seq<Def>, Events.Bus))
    requires n <= |t|
    ensures |x.0| == |t| && x.0[n..] == t[n..]
  {
    if n == 0 then (t, b)
    else
      var (t1, b1) := CheckUpTo(t, b, triggers, r, n - 1);
      match r(t[n - 1].paramId)
      case None => (t1, b1)
      case Some(v) => (t1[n - 1 := Latched(t[n - 1], v)], Raised(b1, triggers, t[n - 1], v))
  }

  /** The loop step: definition n is still as it was, and is checked next. */
  lemma CheckNext(t: seq<Def>, b: Events.Bus, triggers: seq<u16>, r: Readings, n: nat)
    requires n < |t|
    ensures var (t1, b1) := CheckUpTo(t, b, triggers, r, n);
      t1[n] == t[n] && CheckUpTo(t, b, triggers, r, n + 1) ==
        match r(t1[n].paramId)
        case None => (t1, b1)
        case Some(v) => (t1[n := Latched(t1[n], v)], Raised(b1, triggers, t1[n], v))
  {
    var t1 := CheckUpTo(t, b, triggers, r, n).0;
    assert t1[n] == t1[n..][0] && t[n] == t[n..][0];
  }

  function Check(m: Monitor, b: Events.Bus, triggers: seq<u16>, r: Readings): (Monitor, Events.Bus) {
    if !m.enabled then (m, b)
    else
      var (t, b1) := CheckUpTo(m.defs, b, triggers, r, |m.defs|);
      (m.(defs := t), b1)
  }

  // ----- One event per excursion --------------------------------------------------------------

  /** One definition over a history of values: where it ends, and the low and high events raised. */
  function Trips(d: Def, history: seq<u32>): (Def, nat, nat) {
    if history == [] then (d, 0, 0)
    else
      var v := history[|history| - 1];
      var (e, lows, highs) := Trips(d, history[..|history| - 1]);
      (Latched(e, v),
       if e.BelowLow(v) && !e.inLow then lows + 1 else lows,
       if e.AboveHigh(v) && !e.inHigh then highs + 1 else highs)
  }

  /** Value i of a history lies in a region that value i - 1, if any, did not lie in. */
  predicate EntersAt(inside: seq<bool>, i: nat)
    requires i < |inside|
  {
    inside[i] && (i == 0 || !inside[i - 1])
  }

  function Excursions(inside: seq<bool>): set<nat> {
    set i: nat | i < |inside| && EntersAt(inside, i)
  }

  function BelowEach(d: Def, history: seq<u32>): (r: seq<bool>)
    ensures |r| == |history|
  {
    seq(|history|, i requires 0 <= i < |history| => d.BelowLow(history[i]))
  }

  function AboveEach(d: Def, history: seq<u32>): (r: seq<bool>)
    ensures |r| == |history|
  {
    seq(|history|, i requires 0 <= i < |history| => d.AboveHigh(history[i]))
  }

  lemma ExcursionsNext(inside: seq<bool>)
    requires inside != []
    ensures var n := |inside| - 1;
      |Excursions(inside)| == |Excursions(inside[..n])| + (if EntersAt(inside, n) then 1 else 0)
  {
    var n := |inside| - 1;
    var before := Excursions(inside[..n]);
    forall i: nat | i < n ensures EntersAt(inside, i) == EntersAt(inside[..n], i) {
    }
    if EntersAt(inside, n) {
      assert Excursions(inside) == before + {n};
    } else {
      assert Excursions(inside) == before;
    }
  }

  /** The last value against the one before it. */
  lemma EachPrefix(d: Def, history: seq<u32>)
    requires history != []
    ensures var n := |history| - 1;
      && BelowEach(d, history)[..n] == BelowEach(d, history[..n])
      && AboveEach(d, history)[..n] == AboveEach(d, history[..n])
      && EntersAt(BelowEach(d, history), n)
           == (d.BelowLow(history[n]) && !(n > 0 && d.BelowLow(history[n - 1])))
      && EntersAt(AboveEach(d, history), n)
           == (d.AboveHigh(history[n]) && !(n > 0 && d.AboveHigh(history[n - 1])))
  {
  }

  /** From clear latches, each side raises exactly one event per excursion of the values beyond that
      limit, for any history; and afterwards each latch says where the last value lies. */
  lemma {:induction false} OneEventPerExcursion(d: Def, history: seq<u32>)
    requires !d.inLow && !d.inHigh
    ensures var (e, lows, highs) := Trips(d, history);
      && lows == |Excursions(BelowEach(d, history))| && highs == |Excursions(AboveEach(d, history))|
      && e == if history == [] then d else Latched(d, history[|history| - 1])
  {
    if history == [] {
      assert Excursions(BelowEach(d, history)) == {} && Excursions(AboveEach(d, history)) == {};
    } else {
      hide Excursions, EntersAt, BelowEach, AboveEach;
      var n := |history| - 1;
      OneEventPerExcursion(d, history[..n]);
      EachPrefix(d, history);
      ExcursionsNext(BelowEach(d, history));
      ExcursionsNext(AboveEach(d, history));
    }
  }

  /** A NaN limit raises nothing, whatever the values. */
  lemma NanLimitNeverFires(d: Def, history: seq<u32>)
    requires !d.inLow && !d.inHigh
    ensures Parameters.IsNan(d.low) ==> Trips(d, history).1 == 0
    ensures Parameters.IsNan(d.high) ==> Trips(d, history).2 == 0
  {
    OneEventPerExcursion(d, history);
    if Parameters.IsNan(d.low) {
      assert Excursions(BelowEach(d, history)) == {};
    }
    if Parameters.IsNan(d.high) {
      assert Excursions(AboveEach(d, history)) == {};
    }
  }

  // ----- The table ------------------------------------------------------------------------------

  predicate Distinct(t: seq<Def>) {
    forall i, j | 0 <= i < j < |t| :: t[i].paramId != t[j].paramId
  }

  /** One definition per parameter, limits in order, and never latched on both sides. */
  ghost predicate Sound(m: Monitor) {
    && Distinct(m.defs)
    && forall i | 0 <= i < |m.defs| :: m.defs[i].LimitsOrdered() && !(m.defs[i].inLow && m.defs[i].inHigh)
  }

  /** No value is beyond both limits. */
  lemma NotBothSides(d: Def, v: u32)
    requires d.LimitsOrdered()
    ensures !(d.BelowLow(v) && d.AboveHigh(v))
  {
  }

  lemma AddSound(cap: nat, params: seq<Parameters.Entry>, m: Monitor, v: Verify, tc: Tc)
    requires Sound(m)
    ensures Sound(Add(cap, params, m, v, tc).0)
  {
    hide Verification.Reporter.Report, Verification.TcRef;
  }

  lemma DeleteSound(m: Monitor, v: Verify, tc: Tc)
    requires Sound(m)
    ensures Sound(Delete(m, v, tc).0)
  {
    hide Verification.Reporter.Report, Verification.TcRef;
    var k := Position(m.defs, if |tc.userData| >= 2 then Be16(tc.userData) else 0);
    if k < |m.defs| {
      var r, n := SwapRemove(m.defs, k), |m.defs| - 1;
      assert forall i | 0 <= i < n :: r[i] == if i == k then m.defs[n] else m.defs[i];
    }
  }

  /** What one check does to each definition, whatever events the others raise. */
  lemma {:induction false} CheckEach(t: seq<Def>, b: Events.Bus, triggers: seq<u16>, r: Readings, n: nat, i: nat)
    requires n <= |t| && i < |t|
    ensures CheckUpTo(t, b, triggers, r, n).0[i]
         == if i < n && r(t[i].paramId).Some? then Latched(t[i], r(t[i].paramId).value) else t[i]
  {
    if n > 0 {
      CheckEach(t, b, triggers, r, n - 1, i);
    }
  }

  lemma CheckSound(m: Monitor, b: Events.Bus, triggers: seq<u16>, r: Readings)
    requires Sound(m)
    ensures Sound(Check(m, b, triggers, r).0)
  {
    if m.enabled {
      var t := Check(m, b, triggers, r).0.defs;
      forall i | 0 <= i < |t|
        ensures t[i].paramId == m.defs[i].paramId && t[i].LimitsOrdered() && !(t[i].inLow && t[i].inHigh)
      {
        CheckEach(m.defs, b, triggers, r, |m.defs|, i);
        if r(m.defs[i].paramId).Some? {
          NotBothSides(m.defs[i], r(m.defs[i].paramId).value);
        }
      }
    }
  }

  /** A definition table over a run of checks, each with its own readings. */
  function Checks(t: seq<Def>, b: Events.Bus, triggers: seq<u16>, rs: seq<Readings>): (x: (seq<Def>, Events.Bus))
    ensures |x.0| == |t|
  {
    if rs == [] then (t, b)
    else
      var (t1, b1) := Checks(t, b, triggers, rs[..|rs| - 1]);
      CheckUpTo(t1, b1, triggers, rs[|rs| - 1], |t|)
  }

  /** The values definition i saw over a run. */
  function Seen(id: u16, rs: seq<Readings>): seq<u32> {
    if rs == [] then []
    else
      var r := rs[|rs| - 1](id);
      Seen(id, rs[..|rs| - 1]) + (if r.Some? then [r.value] else [])
  }

  /** Over any run of checks every definition of the table behaves as if it were alone. */
  lemma {:induction false} TableFollowsTrips(t: seq<Def>, b: Events.Bus, triggers: seq<u16>, rs: seq<Readings>, i: nat)
    requires i < |t|
    ensures Checks(t, b, triggers, rs).0[i] == Trips(t[i], Seen(t[i].paramId, rs)).0
  {
    if rs != [] {
      var n := |rs| - 1;
      var (t1, b1) := Checks(t, b, triggers, rs[..n]);
      TableFollowsTrips(t, b, triggers, rs[..n], i);
      TripsKeepId(t[i], Seen(t[i].paramId, rs[..n]));
      CheckEach(t1, b1, triggers, rs[n], |t|, i);
      var before := Seen(t[i].paramId, rs[..n]);
      if rs[n](t[i].paramId).Some? {
        assert (before + [rs[n](t[i].paramId).value])[..|before|] == before;
      } else {
        assert before + [] == before;
      }
    }
  }

  lemma {:induction false} TripsKeepId(d: Def, history: seq<u32>)
    ensures Trips(d, history).0 == d.(inLow := Trips(d, history).0.inLow, inHigh := Trips(d, history).0.inHigh)
  {
    if history != [] {
      TripsKeepId(d, history[..|history| - 1]);
    }
  }
}
