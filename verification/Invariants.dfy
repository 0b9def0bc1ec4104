/** What holds in every reachable state of the executive, and what each handler leaves alone. */
module Invariants {
  import opened Bytes
  import opened Executive
  import EventAction
  import Events
  import HkModel
  import Monitoring
  import PusTm
  import ReportGrammar
  import Schedule
  import SmallServices
  import Verification

  // ----- Housekeeping ---------------------------------------------------------------------------

  /** Distinct sets within their slots, and no more pool cells in use than the pool has. */
  ghost predicate HkSound(c: HkModel.Config, sets: seq<HkModel.HkSet>) {
    && |sets| <= c.slots && HkModel.DistinctIds(sets)
    && HkModel.Cells(sets) <= if c.pool.Some? then c.pool.value else 0
  }

  /** The sets that were there at boot, in order, without their timing. */
  function BootSets(sets: seq<HkModel.HkSet>): seq<(u8, seq<HkModel.Param>)> {
    if sets == [] then []
    else BootSets(sets[..|sets| - 1]) + BootPart(sets[|sets| - 1])
  }

  function BootPart(s: HkModel.HkSet): seq<(u8, seq<HkModel.Param>)> {
    if s.defined then [] else [(s.setId, s.params)]
  }

  /** A housekeeping step keeps the invariant and every boot-time set. */
  ghost predicate HkKept(c: HkModel.Config, s: seq<HkModel.HkSet>, t: seq<HkModel.HkSet>) {
    HkSound(c, s) ==> HkSound(c, t) && BootSets(t) == BootSets(s)
  }

  /** Two lists that differ in timing only. */
  ghost predicate SameLayout(s: seq<HkModel.HkSet>, t: seq<HkModel.HkSet>) {
    && |s| == |t|
    && forall i | 0 <= i < |s| :: t[i].setId == s[i].setId && t[i].defined == s[i].defined && t[i].params == s[i].params
  }

  lemma {:induction false} SameLayoutBoot(s: seq<HkModel.HkSet>, t: seq<HkModel.HkSet>)
    requires SameLayout(s, t)
    ensures BootSets(t) == BootSets(s)
  {
    if s != [] {
      SameLayoutBoot(s[..|s| - 1], t[..|t| - 1]);
    }
  }

  lemma {:induction false} SameLayoutCells(s: seq<HkModel.HkSet>, t: seq<HkModel.HkSet>)
    requires SameLayout(s, t)
    ensures HkModel.Cells(t) == HkModel.Cells(s)
  {
    if s != [] {
      SameLayoutCells(s[1..], t[1..]);
    }
  }

  lemma SameLayoutKept(c: HkModel.Config, s: seq<HkModel.HkSet>, t: seq<HkModel.HkSet>)
    requires SameLayout(s, t)
    ensures HkKept(c, s, t)
  {
    SameLayoutBoot(s, t);
    SameLayoutCells(s, t);
  }

  lemma DefineKept(c: HkModel.Config, h: HkModel.Hk, v: Verification.Reporter, tc: Tc)
    ensures HkKept(c, h.sets, HkModel.Define(c, h, v, tc).0.sets)
  {
    hide Verification.Reporter.Report, Verification.TcRef, HkModel.RequestedIds, HkModel.NewParams;
    var u := tc.userData;
    if HkModel.DefineWellFormed(c, h.sets, u) && HkModel.DefineFits(c, h.sets, u[5]) {
      AppendKept(c, h.sets, HkModel.NewSet(c, h.sets, u));
    }
  }

  lemma AppendKept(c: HkModel.Config, sets: seq<HkModel.HkSet>, s: HkModel.HkSet)
    requires s.defined && !HkModel.HasId(sets, s.setId) && HkModel.DefineFits(c, sets, |s.params|)
    ensures HkKept(c, sets, sets + [s])
  {
    HkModel.CellsConcat(sets, [s]);
    assert [s][1..] == [];
    assert (sets + [s])[..|sets|] == sets;
  }

  lemma DeleteKept(c: HkModel.Config, h: HkModel.Hk, v: Verification.Reporter, tc: Tc)
    ensures HkKept(c, h.sets, HkModel.Delete(c, h, v, tc).0.sets)
  {
    hide Verification.Reporter.Report, Verification.TcRef;
    var u := tc.userData;
    if HkSound(c, h.sets) && HkModel.DeleteWellFormed(c, h.sets, u) {
      var ids := HkModel.Listed(u[1..]);
      forall s | s in h.sets && s.setId in ids ensures s.defined {
        ListedIsDefined(c, h.sets, u, s);
      }
      BootWithout(h.sets, ids);
      HkModel.WithoutCells(h.sets, ids);
      HkModel.WithoutDistinct(h.sets, ids);
    }
  }

  lemma ListedIsDefined(c: HkModel.Config, sets: seq<HkModel.HkSet>, u: bytes, s: HkModel.HkSet)
    requires HkModel.DistinctIds(sets) && HkModel.DeleteWellFormed(c, sets, u)
    requires s in sets && s.setId in HkModel.Listed(u[1..])
    ensures s.defined
  {
    var i :| 0 <= i < |u[1..]| && u[1..][i] == s.setId;
    assert HkModel.Deletable(sets, u[i + 1]);
    var k :| 0 <= k < |sets| && sets[k].setId == s.setId && sets[k].defined;
    var j :| 0 <= j < |sets| && sets[j] == s;
    UniqueId(sets, j, k);
  }

  lemma UniqueId(sets: seq<HkModel.HkSet>, j: nat, k: nat)
    requires HkModel.DistinctIds(sets) && j < |sets| && k < |sets| && sets[j].setId == sets[k].setId
    ensures j == k
  {
  }

  lemma {:induction false} BootConcat(x: seq<HkModel.HkSet>, y: seq<HkModel.HkSet>)
    ensures BootSets(x + y) == BootSets(x) + BootSets(y)
  {
    if y == [] {
      assert x + y == x;
    } else {
      assert (x + y)[..|x + y| - 1] == x + y[..|y| - 1];
      BootConcat(x, y[..|y| - 1]);
    }
  }

  lemma BootOfOne(s: HkModel.HkSet)
    ensures BootSets([s]) == BootPart(s)
  {
    assert [s][..0] == [];
  }

  lemma {:induction false} BootWithout(sets: seq<HkModel.HkSet>, ids: set<u8>)
    requires forall s | s in sets && s.setId in ids :: s.defined
    ensures BootSets(HkModel.Without(sets, ids)) == BootSets(sets)
  {
    if sets != [] {
      var head := if sets[0].setId in ids then [] else [sets[0]];
      BootWithout(sets[1..], ids);
      BootConcat(head, HkModel.Without(sets[1..], ids));
      BootConcat([sets[0]], sets[1..]);
      assert [sets[0]] + sets[1..] == sets;
      BootOfOne(sets[0]);
    }
  }

  lemma EnableKept(c: HkModel.Config, h: HkModel.Hk, v: Verification.Reporter, tc: Tc)
    ensures HkKept(c, h.sets, HkModel.Enable(h, v, tc).0.sets)
  {
    hide Verification.Reporter.Report, Verification.TcRef;
    SameLayoutKept(c, h.sets, HkModel.Enable(h, v, tc).0.sets);
  }

  lemma DisableKept(c: HkModel.Config, h: HkModel.Hk, v: Verification.Reporter, tc: Tc)
    ensures HkKept(c, h.sets, HkModel.Disable(h, v, tc).0.sets)
  {
    hide Verification.Reporter.Report, Verification.TcRef;
    SameLayoutKept(c, h.sets, HkModel.Disable(h, v, tc).0.sets);
  }

  lemma {:induction false} TickLayout(h: HkModel.Hk, d: PusTm.Downlink, m: HkModel.Memory, n: nat)
    requires n <= |h.sets|
    ensures SameLayout(h.sets, HkModel.TickUpTo(h, d, m, n).0.sets)
  {
    hide PusTm.Downlink.Offer, HkModel.Serialise;
    if n > 0 {
      TickLayout(h, d, m, n - 1);
    }
  }

  lemma {:induction false} TickCarried(h: HkModel.Hk, d: PusTm.Downlink, m: HkModel.Memory, n: nat)
    requires n <= |h.sets|
    ensures ReportGrammar.Carried(d, HkModel.TickUpTo(h, d, m, n).1, [])
  {
    hide HkModel.Report, ReportGrammar.Carried;
    var none: seq<u16> := [];
    assert none + none == none;
    if n == 0 {
      ReportGrammar.CarriedSelf(d);
    } else {
      TickCarried(h, d, m, n - 1);
      var (h1, d1) := HkModel.TickUpTo(h, d, m, n - 1);
      if HkModel.Count(h.sets[n - 1]).1 {
        ReportCarried(h1, d1, h.sets[n - 1], m);
        ReportGrammar.CarriedTrans(d, d1, HkModel.Report(h1, d1, h.sets[n - 1], m).1, none, none);
      }
    }
  }

  lemma ReportCarried(h: HkModel.Hk, d: PusTm.Downlink, s: HkModel.HkSet, m: HkModel.Memory)
    ensures ReportGrammar.Carried(d, HkModel.Report(h, d, s, m).1, [])
  {
    hide ReportGrammar.Carried, PusTm.Downlink.Offer, HkModel.Serialise;
    var values := HkModel.Serialise(s.params, m);
    if |values| <= HkModel.BUFFER_LEN {
      ReportGrammar.OfferSilent(d, HkModel.ReportPacket(h, s, values));
    } else {
      ReportGrammar.CarriedSelf(d);
    }
  }

  // ----- The other tables -----------------------------------------------------------------------

  /** Stored packets were checked, identifiers are not zero and the table is within its capacity. */
  ghost predicate ScheduleSound(cap: nat, s: Schedule.Schedule) {
    Schedule.AllStorable(s.jobs) && 0 !in s.jobs && |s.jobs| <= cap
  }

  lemma InsertSound(cap: nat, s: Schedule.Schedule, v: Verification.Reporter, tc: Tc)
    requires ScheduleSound(cap, s) && cap <= 255
    ensures ScheduleSound(cap, Schedule.Insert(cap, s, v, tc).0)
  {
    hide Verification.Reporter.Report, Verification.TcRef, Schedule.Storable, Schedule.NextFree;
    FreshIsFree(s);
  }

  lemma FreshIsFree(s: Schedule.Schedule)
    requires |s.jobs| <= 255
    ensures Schedule.FreshId(s) != 0 && Schedule.FreshId(s) !in s.jobs
  {
    var blocked := s.jobs.Keys + {0};
    assert |blocked| <= |s.jobs.Keys| + 1 by {
      if 0 in s.jobs.Keys {
        assert blocked == s.jobs.Keys;
      } else {
        assert |s.jobs.Keys + {0}| == |s.jobs.Keys| + 1;
      }
    }
    var _ := Schedule.NextFreeSkips(s.nextId, blocked);
  }

  lemma ScheduleDeleteSound(cap: nat, s: Schedule.Schedule, v: Verification.Reporter, tc: Tc)
    requires ScheduleSound(cap, s)
    ensures ScheduleSound(cap, Schedule.Delete(s, v, tc).0)
  {
    hide Verification.Reporter.Report, Verification.TcRef, Schedule.Storable;
    var u := tc.userData;
    if |u| >= 2 && Be16(u) in s.jobs {
      SmallerMap(s.jobs, Be16(u));
    }
  }

  lemma SmallerMap<V>(m: map<u16, V>, k: u16)
    requires k in m
    ensures |m - {k}| == |m| - 1
  {
    assert (m - {k}).Keys == m.Keys - {k};
    assert |m.Keys - {k}| == |m.Keys| - 1;
  }

  ghost predicate ActionsSound(cap: nat, a: EventAction.Actions) {
    EventAction.AllValid(a.defs) && |a.defs| <= cap && |a.queue| <= EventAction.QUEUE_LEN
  }

  lemma ActionAddSound(cap: nat, a: EventAction.Actions, v: Verification.Reporter, tc: Tc)
    requires ActionsSound(cap, a)
    ensures ActionsSound(cap, EventAction.Add(cap, a, v, tc).0)
  {
    hide Verification.Reporter.Report, Verification.TcRef, EventAction.ActionValid;
    var u := tc.userData;
    if |u| >= 2 && Be16(u) in a.defs {
      assert a.defs[Be16(u) := u[2..]].Keys == a.defs.Keys;
    }
  }

  lemma ActionDeleteSound(cap: nat, a: EventAction.Actions, v: Verification.Reporter, tc: Tc)
    requires ActionsSound(cap, a)
    ensures ActionsSound(cap, EventAction.Delete(a, v, tc).0)
  {
    hide Verification.Reporter.Report, Verification.TcRef, EventAction.ActionValid;
    var u := tc.userData;
    if |u| >= 2 && Be16(u) in a.defs {
      SmallerMap(a.defs, Be16(u));
    }
  }

  ghost predicate MonitorSound(cap: nat, m: Monitoring.Monitor) {
    Monitoring.Sound(m) && |m.defs| <= cap
  }

  // ----- Events ---------------------------------------------------------------------------------

  /** Service 19 after some events in turn. */
  function HearAll(a: EventAction.Actions, es: seq<u16>): EventAction.Actions {
    if es == [] then a else EventAction.OnEvent(HearAll(a, es[..|es| - 1]), es[|es| - 1])
  }

  lemma {:induction false} HearConcat(a: EventAction.Actions, x: seq<u16>, y: seq<u16>)
    ensures HearAll(a, x + y) == HearAll(HearAll(a, x), y)
  {
    if y == [] {
      assert x + y == x;
    } else {
      assert (x + y)[..|x + y| - 1] == x + y[..|y| - 1];
      HearConcat(a, x, y[..|y| - 1]);
    }
  }

  lemma HearOne(a: EventAction.Actions, e: u16)
    ensures HearAll(a, [e]) == EventAction.OnEvent(a, e)
  {
    assert [e][..0] == [];
    assert HearAll(a, [e][..0]) == a;
  }

  /** Hearing leaves the definitions and the switch, and queues at most to the limit. */
  lemma {:induction false} HearKeeps(a: EventAction.Actions, es: seq<u16>)
    ensures var b := HearAll(a, es);
      && b.defs == a.defs && b.enabled == a.enabled && a.queue <= b.queue
      && (|a.queue| <= EventAction.QUEUE_LEN ==> |b.queue| <= EventAction.QUEUE_LEN)
  {
    if es != [] {
      HearKeeps(a, es[..|es| - 1]);
    }
  }

  /** From a to b the events es were reported: they are the service 5 packets built meanwhile, in order,
      and service 19 heard them. */
  ghost predicate Heard(a: Events.Bus, b: Events.Bus, es: seq<u16>) {
    b.actions == HearAll(a.actions, es) && b.apid == a.apid && b.timestamp == a.timestamp
  }

  lemma HeardSelf(a: Events.Bus)
    ensures Heard(a, a, [])
  {
  }

  lemma HeardTrans(a: Events.Bus, b: Events.Bus, d: Events.Bus, x: seq<u16>, y: seq<u16>)
    requires Heard(a, b, x) && Heard(b, d, y)
    ensures Heard(a, d, x + y)
  {
    HearConcat(a.actions, x, y);
  }

  lemma RaiseHeard(b: Events.Bus, triggers: seq<u16>, severity: u8, event: u16, aux: bytes)
    ensures Heard(b, b.Raise(triggers, severity, event, aux), [event])
  {
    hide PusTm.Downlink.Offer, PusTm.Downlink.HasRoom;
    HearOne(b.actions, event);
  }

  lemma PerformHeard(t: seq<SmallServices.FnEntry>, b: Events.Bus, triggers: seq<u16>, v: Verification.Reporter, tc: Tc)
    ensures Heard(b, SmallServices.Perform(t, b, triggers, v, tc).0, ReportGrammar.PerformEvents(t, tc))
  {
    hide Verification.Reporter.Report, Verification.TcRef, PusTm.Downlink.Offer, PusTm.Downlink.HasRoom;
    hide Events.Bus.Raise;
    HeardSelf(b);
    var u := tc.userData;
    if |u| >= 3 && 3 + u[2] as int <= |u| {
      var k := SmallServices.FnPosition(t, Be16(u));
      if k < |t| && t[k].fn.ReportEvent? {
        RaiseHeard(b.(down := v.Accept(tc).down), triggers, t[k].fn.severity, t[k].fn.event, []);
      }
    }
  }

  /** The events one check of one definition raises, low side first. */
  function DefEvents(d: Monitoring.Def, v: Option<u32>): seq<u16> {
    if v.None? then []
    else
      (if d.BelowLow(v.value) && !d.inLow then [d.eventLow] else [])
      + (if d.AboveHigh(v.value) && !d.inHigh then [d.eventHigh] else [])
  }

  /** The events one round of checks raises, definition by definition. */
  function CheckEvents(t: seq<Monitoring.Def>, r: Monitoring.Readings): seq<u16> {
    if t == [] then []
    else CheckEvents(t[..|t| - 1], r) + DefEvents(t[|t| - 1], r(t[|t| - 1].paramId))
  }

  lemma RaiseIfHeard(cond: bool, b: Events.Bus, triggers: seq<u16>, d: Monitoring.Def, event: u16, v: u32)
    ensures var b' := Monitoring.RaiseIf(cond, b, triggers, d, event, v);
      var es := if cond then [event] else [];
      Heard(b, b', es) && ReportGrammar.Quiet(b.down, b'.down, es)
  {
    hide Events.Bus.Raise, Heard, ReportGrammar.Quiet;
    if cond {
      RaiseHeard(b, triggers, d.severity, event, Enc32(v));
      ReportGrammar.RaiseQuiet(b, triggers, d.severity, event, Enc32(v));
    } else {
      HeardSelf(b);
      ReportGrammar.QuietSelf(b.down);
    }
  }

  lemma RaisedHeard(b: Events.Bus, triggers: seq<u16>, d: Monitoring.Def, v: u32)
    ensures var b' := Monitoring.Raised(b, triggers, d, v);
      Heard(b, b', DefEvents(d, Some(v))) && ReportGrammar.Quiet(b.down, b'.down, DefEvents(d, Some(v)))
  {
    hide Monitoring.RaiseIf, ReportGrammar.Quiet, Heard;
    var low := d.BelowLow(v) && !d.inLow;
    var high := d.AboveHigh(v) && !d.inHigh;
    var b1 := Monitoring.RaiseIf(low, b, triggers, d, d.eventLow, v);
    var b2 := Monitoring.RaiseIf(high, b1, triggers, d, d.eventHigh, v);
    var x, y := if low then [d.eventLow] else [], if high then [d.eventHigh] else [];
    RaiseIfHeard(low, b, triggers, d, d.eventLow, v);
    RaiseIfHeard(high, b1, triggers, d, d.eventHigh, v);
    HeardTrans(b, b1, b2, x, y);
    ReportGrammar.QuietTrans(b.down, b1.down, b2.down, x, y);
  }

  /** One round of checks reports exactly the events of the single definitions, in table order. */
  lemma {:induction false} CheckHeard(t: seq<Monitoring.Def>, b: Events.Bus, triggers: seq<u16>,
                                      r: Monitoring.Readings, n: nat)
    requires n <= |t|
    ensures var b' := Monitoring.CheckUpTo(t, b, triggers, r, n).1;
      Heard(b, b', CheckEvents(t[..n], r)) && ReportGrammar.Quiet(b.down, b'.down, CheckEvents(t[..n], r))
  {
    hide Monitoring.Raised, ReportGrammar.Quiet, Heard;
    if n == 0 {
      HeardSelf(b);
      ReportGrammar.QuietSelf(b.down);
    } else {
      CheckHeard(t, b, triggers, r, n - 1);
      assert t[..n][..n - 1] == t[..n - 1];
      var b1 := Monitoring.CheckUpTo(t, b, triggers, r, n - 1).1;
      var d := t[n - 1];
      var x := CheckEvents(t[..n - 1], r);
      if r(d.paramId).Some? {
        var v := r(d.paramId).value;
        RaisedHeard(b1, triggers, d, v);
        var b2 := Monitoring.Raised(b1, triggers, d, v);
        HeardTrans(b, b1, b2, x, DefEvents(d, Some(v)));
        ReportGrammar.QuietTrans(b.down, b1.down, b2.down, x, DefEvents(d, Some(v)));
      } else {
        assert x + [] == x;
      }
    }
  }
}
