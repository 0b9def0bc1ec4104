/** What the telecommands of service 12 do, from their octets to the table of limit checks (`src/pus/s12.c`). */
module MonitorCommands {
  import opened Bytes
  import opened Executive
  import opened Uplink
  import Events
  import Fsm
  import M = Monitoring
  import Parameters
  import PusTm
  import TmPacket
  import Verification

  predicate NoDef(t: seq<M.Def>, id: u16) {
    forall i | 0 <= i < |t| :: t[i].paramId != id
  }

  /** Definition k is the first for its parameter. */
  predicate FirstDef(t: seq<M.Def>, id: u16, k: nat) {
    k < |t| && t[k].paramId == id && forall i | 0 <= i < k :: t[i].paramId != id
  }

  lemma PositionFirst(t: seq<M.Def>, id: u16)
    ensures var k := M.Position(t, id); if NoDef(t, id) then k == |t| else FirstDef(t, id, k)
    ensures forall k | FirstDef(t, id, k) :: k == M.Position(t, id)
  {
  }

  // ----- TC(12,3) -----------------------------------------------------------------------------------------

  /** Parameter, low and high limit, low and high event, severity; not yet tripped. */
  function Given(d: bytes): M.Def
    requires |d| >= 15
  {
    M.Def(paramId := Word(d, 0), low := Long(d, 2), high := Long(d, 6), eventLow := Word(d, 10),
          eventHigh := Word(d, 12), severity := d[14], inLow := false, inHigh := false)
  }

  /** The octets of a TC(12,3). */
  function AddOctets(id: u16, low: u32, high: u32, eventLow: u16, eventHigh: u16, severity: u8): (r: bytes)
    ensures |r| == 15
  {
    WordOctets(id) + LongOctets(low) + LongOctets(high) + WordOctets(eventLow) + WordOctets(eventHigh) + [severity]
  }

  lemma LongBack(v: u32)
    ensures Long(LongOctets(v), 0) == v
  {
    WrittenLong(v);
    ReadLong(LongOctets(v), 0);
    assert LongOctets(v)[0..] == LongOctets(v);
  }

  lemma LongAt(d: bytes, k: nat, v: u32)
    requires k + 4 <= |d| && d[k..k + 4] == LongOctets(v)
    ensures Long(d, k) == v
  {
    LongBack(v);
    var p := d[k..k + 4];
    assert p[0] == d[k] && p[1] == d[k + 1] && p[2] == d[k + 2] && p[3] == d[k + 3];
  }

  /** Every definition can be asked for by its octets. */
  lemma GivenBack(id: u16, low: u32, high: u32, eventLow: u16, eventHigh: u16, severity: u8, rest: bytes)
    ensures Given(AddOctets(id, low, high, eventLow, eventHigh, severity) + rest)
         == M.Def(id, low, high, eventLow, eventHigh, severity, false, false)
  {
    hide LongOctets, Long;
    var d := AddOctets(id, low, high, eventLow, eventHigh, severity) + rest;
    LongAt(d, 2, low);
    LongAt(d, 6, high);
    JoinWord(id);
    JoinWord(eventLow);
    JoinWord(eventHigh);
    assert d[0] == id / 256 && d[1] == id % 256;
    assert d[10] == eventLow / 256 && d[11] == eventLow % 256;
    assert d[12] == eventHigh / 256 && d[13] == eventHigh % 256 && d[14] == severity;
  }

  lemma JoinWord(x: nat)
    ensures x / 256 * 256 + x % 256 == x
  {
  }

  /** The limits of what is asked for are in order, one of the four severities is named, and the parameter is
      known. */
  ghost predicate Acceptable(params: seq<Parameters.Entry>, d: bytes) {
    && |d| >= 15 && 1 <= d[14] <= 4
    && (exists i :: 0 <= i < |params| && params[i].id == Word(d, 0))
    && !Parameters.Less(Long(d, 6), Long(d, 2))
  }

  lemma KnownIs(params: seq<Parameters.Entry>, id: u16)
    ensures Parameters.Has(params, id) <==> exists i :: 0 <= i < |params| && params[i].id == id
  {
  }

  lemma AcceptableIs(params: seq<Parameters.Entry>, d: bytes)
    ensures Acceptable(params, d) <==> M.AddWellFormed(params, d)
    ensures |d| >= 15 ==> Given(d) == M.Described(d)
  {
    if |d| >= 15 {
      DescribedIs(d);
      KnownIs(params, Word(d, 0));
    }
  }

  lemma DescribedIs(d: bytes)
    requires |d| >= 15
    ensures Given(d) == M.Described(d)
  {
    ReadLong(d, 2);
    ReadLong(d, 6);
    ReadWord(d, 10);
    ReadWord(d, 12);
  }

  /** The answer to TC(12,3): the definition it gives is in the table, in place of an older one for the parameter or
      at the end, and every other is as it was. */
  ghost predicate Added(c: Config, o: Obsw, f: (Obsw, Result), u: Uplink)
    requires u.Valid()
  {
    var t, d := o.monitor.defs, u.data;
    if !Acceptable(o.params.table, d) then Rejects(o, f, u, 5)
    else if NoDef(t, Word(d, 0)) then
      if |t| >= c.monitorCap then Rejects(o, f, u, 4)
      else Completes(o, f, u, o.(monitor := o.monitor.(defs := t + [Given(d)])), [])
    else forall k: nat | FirstDef(t, Word(d, 0), k) ::
      Completes(o, f, u, o.(monitor := o.monitor.(defs := t[k := Given(d)])), [])
  }

  lemma HandledMonitor(c: Config, o: Obsw, h: Handler, tc: Tc)
    requires h.Service() == 12
    ensures var (x, v, ok) := MonitorOp(c.monitorCap, o.params.table, o.monitor, o.s1, h, tc);
      Handle(c, o, h, tc) == (o.(monitor := x, s1 := v), ok)
  {
    hide MonitorOp;
  }

  lemma Add(c: Config, o: Obsw, u: Uplink)
    requires Sent(c, o, u, 12, 3)
    ensures Added(c, o, Feed(c, o, u.Octets()), u)
  {
    hide Handle, Feed, Verification.Reporter.Report, Verification.TcRef, Done, FirstDef, Acceptable, M.AddWellFormed;
    hide Given, M.Described;
    FedTo(c, o, u, 12, 3);
    HandledMonitor(c, o, MonAdd, u.Tc());
    var o' := Feed(c, o, u.Octets()).0;
    AcceptableIs(o.params.table, u.data);
    if !M.AddWellFormed(o.params.table, u.data) {
      RefusedBy(o, o', u, 5);
    } else {
      LongEnough(o.params.table, u.data);
      PositionFirst(o.monitor.defs, Word(u.data, 0));
      if NoDef(o.monitor.defs, Word(u.data, 0)) && |o.monitor.defs| >= c.monitorCap {
        RefusedBy(o, o', u, 4);
      } else {
        DoneBy(o, o', u);
      }
    }
  }

  lemma LongEnough(params: seq<Parameters.Entry>, d: bytes)
    requires M.AddWellFormed(params, d)
    ensures |d| >= 15 && M.Described(d).paramId == Word(d, 0) == Be16(d)
  {
  }

  // ----- The others ---------------------------------------------------------------------------------------

  /** The answer to TC(12,4): the definition for the parameter is gone, the last one in its place. */
  ghost predicate Deleted(o: Obsw, f: (Obsw, Result), u: Uplink)
    requires u.Valid()
  {
    var t, d := o.monitor.defs, u.data;
    if |d| < 2 || NoDef(t, Word(d, 0)) then Rejects(o, f, u, 5)
    else forall k: nat | FirstDef(t, Word(d, 0), k) ::
      Completes(o, f, u, o.(monitor := o.monitor.(defs := t[k := t[|t| - 1]][..|t| - 1])), [])
  }

  lemma Delete(c: Config, o: Obsw, u: Uplink)
    requires Sent(c, o, u, 12, 4)
    ensures Deleted(o, Feed(c, o, u.Octets()), u)
  {
    hide Handle, Feed, Verification.Reporter.Report, Verification.TcRef, Done, FirstDef;
    FedTo(c, o, u, 12, 4);
    HandledMonitor(c, o, MonDelete, u.Tc());
    var o' := Feed(c, o, u.Octets()).0;
    if |u.data| < 2 {
      RefusedBy(o, o', u, 5);
    } else {
      PositionFirst(o.monitor.defs, Word(u.data, 0));
      if NoDef(o.monitor.defs, Word(u.data, 0)) {
        RefusedBy(o, o', u, 5);
      } else {
        DoneBy(o, o', u);
      }
    }
  }

  lemma DeleteAll(c: Config, o: Obsw, u: Uplink)
    requires Sent(c, o, u, 12, 5)
    ensures Completes(o, Feed(c, o, u.Octets()), u, o.(monitor := o.monitor.(defs := [])), [])
  {
    hide Handle, Feed, Verification.Reporter.Report, Verification.TcRef, Done;
    FedTo(c, o, u, 12, 5);
    HandledMonitor(c, o, MonDeleteAll, u.Tc());
    DoneBy(o, Feed(c, o, u.Octets()).0, u);
  }

  /** The answer to TC(12,1): the checks are on, and no definition counts as tripped. */
  ghost predicate SwitchedOn(o: Obsw, f: (Obsw, Result), u: Uplink)
    requires u.Valid()
  {
    var t, t' := o.monitor.defs, f.0.monitor.defs;
    && |t'| == |t| && (forall i | 0 <= i < |t| :: t'[i] == t[i].(inLow := false, inHigh := false))
    && Completes(o, f, u, o.(monitor := M.Monitor(defs := t', enabled := true)), [])
  }

  lemma Enable(c: Config, o: Obsw, u: Uplink)
    requires Sent(c, o, u, 12, 1)
    ensures SwitchedOn(o, Feed(c, o, u.Octets()), u)
  {
    hide Handle, Feed, Verification.Reporter.Report, Verification.TcRef, Done;
    FedTo(c, o, u, 12, 1);
    HandledMonitor(c, o, MonEnable, u.Tc());
    DoneBy(o, Feed(c, o, u.Octets()).0, u);
  }

  /** TC(12,2) stops the checks; definitions keep their latches. */
  lemma Disable(c: Config, o: Obsw, u: Uplink)
    requires Sent(c, o, u, 12, 2)
    ensures Completes(o, Feed(c, o, u.Octets()), u, o.(monitor := o.monitor.(enabled := false)), [])
  {
    hide Handle, Feed, Verification.Reporter.Report, Verification.TcRef, Done;
    FedTo(c, o, u, 12, 2);
    HandledMonitor(c, o, MonDisable, u.Tc());
    DoneBy(o, Feed(c, o, u.Octets()).0, u);
  }

  // ----- What a round of checks sends ---------------------------------------------------------------------

  /** The float an entry of the parameter table is read as. */
  function Reading(c: Config, e: Parameters.Entry): u32 {
    if e.kind == Parameters.F32Kind then e.value else c.convert(e.kind, e.value)
  }

  function ReadingOf(c: Config, o: Obsw, id: u16): Option<u32> {
    var t := o.params.table;
    var k := Parameters.Position(t, id);
    if k < |t| then Some(Reading(c, t[k])) else None
  }

  /** The reports about one definition: the event of a limit the value has gone beyond, with the value. */
  function Alarm(d: M.Def, v: u32): seq<Tm> {
    (if Parameters.Less(v, d.low) && !d.inLow then [Tm(5, d.severity, WordOctets(d.eventLow) + LongOctets(v))] else [])
    + (if Parameters.Less(d.high, v) && !d.inHigh then [Tm(5, d.severity, WordOctets(d.eventHigh) + LongOctets(v))]
       else [])
  }

  /** The reports about some definitions, in table order. */
  function Alarms(c: Config, o: Obsw, t: seq<M.Def>): seq<Tm> {
    if t == [] then []
    else
      var d := t[|t| - 1];
      Alarms(c, o, t[..|t| - 1]) + match ReadingOf(c, o, d.paramId) case None => [] case Some(v) => Alarm(d, v)
  }

  /** A definition after it was checked. */
  function Latched(c: Config, o: Obsw, d: M.Def): M.Def {
    match ReadingOf(c, o, d.paramId)
    case None => d
    case Some(v) => d.(inLow := Parameters.Less(v, d.low), inHigh := Parameters.Less(d.high, v))
  }

  ghost predicate Sends(a: PusTm.Downlink, b: PusTm.Downlink, r: seq<Tm>) {
    a.log <= b.log && Tms(b.log[|a.log|..]) == r
  }

  lemma SendsSelf(d: PusTm.Downlink)
    ensures Sends(d, d, [])
  {
  }

  lemma SendsTrans(a: PusTm.Downlink, b: PusTm.Downlink, d: PusTm.Downlink, x: seq<Tm>, y: seq<Tm>)
    requires Sends(a, b, x) && Sends(b, d, y)
    ensures Sends(a, d, x + y)
  {
    assert d.log[|a.log|..] == b.log[|a.log|..] + d.log[|b.log|..];
  }

  lemma RaiseSends(b: Events.Bus, triggers: seq<u16>, severity: u8, event: u16, v: u32)
    ensures Sends(b.down, b.Raise(triggers, severity, event, Enc32(v)).down,
                  [Tm(5, severity, WordOctets(event) + LongOctets(v))])
  {
    hide TmPacket.Encode, Fsm.State.ToSafe;
    WrittenWord(event);
    WrittenLong(v);
    var p := b.Packet(severity, event, Enc32(v));
    assert b.Raise(triggers, severity, event, Enc32(v)).down.log == b.down.log + [p];
    assert (b.down.log + [p])[|b.down.log|..] == [p];
  }

  lemma RaisedSends(b: Events.Bus, triggers: seq<u16>, d: M.Def, v: u32)
    ensures Sends(b.down, M.Raised(b, triggers, d, v).down, Alarm(d, v))
  {
    hide Events.Bus.Raise, Sends, WordOctets, LongOctets, Parameters.Less;
    var low, high := d.BelowLow(v) && !d.inLow, d.AboveHigh(v) && !d.inHigh;
    var b1 := M.RaiseIf(low, b, triggers, d, d.eventLow, v);
    var b2 := M.RaiseIf(high, b1, triggers, d, d.eventHigh, v);
    var x := if low then [Tm(5, d.severity, WordOctets(d.eventLow) + LongOctets(v))] else [];
    var y := if high then [Tm(5, d.severity, WordOctets(d.eventHigh) + LongOctets(v))] else [];
    SendsSelf(b.down);
    SendsSelf(b1.down);
    RaiseSends(b, triggers, d.severity, d.eventLow, v);
    RaiseSends(b1, triggers, d.severity, d.eventHigh, v);
    SendsTrans(b.down, b1.down, b2.down, x, y);
  }

  lemma ReadingIs(c: Config, o: Obsw, id: u16)
    ensures M.ReadingsOf(o.params.table, c.convert)(id) == ReadingOf(c, o, id)
  {
  }

  lemma {:induction false} CheckSends(c: Config, o: Obsw, b: Events.Bus, n: nat)
    requires n <= |o.monitor.defs|
    ensures var r := M.ReadingsOf(o.params.table, c.convert);
      Sends(b.down, M.CheckUpTo(o.monitor.defs, b, c.triggers, r, n).1.down, Alarms(c, o, o.monitor.defs[..n]))
  {
    hide M.Raised, Sends, M.ReadingsOf, ReadingOf, Alarm;
    var t, r := o.monitor.defs, M.ReadingsOf(o.params.table, c.convert);
    if n == 0 {
      SendsSelf(b.down);
    } else {
      CheckSends(c, o, b, n - 1);
      assert t[..n][..n - 1] == t[..n - 1];
      var b1 := M.CheckUpTo(t, b, c.triggers, r, n - 1).1;
      var x := Alarms(c, o, t[..n - 1]);
      ReadingIs(c, o, t[n - 1].paramId);
      match ReadingOf(c, o, t[n - 1].paramId) {
        case None =>
          assert x + [] == x;
        case Some(v) =>
          RaisedSends(b1, c.triggers, t[n - 1], v);
          SendsTrans(b.down, b1.down, M.Raised(b1, c.triggers, t[n - 1], v).down, x, Alarm(t[n - 1], v));
      }
    }
  }

  /** A round of checks: while they are on, each definition whose parameter is known is compared with its value, and
      reports a limit that the value is beyond and was not at the last comparison, with the severity and event given
      for it; latches say which limits the values are beyond. */
  lemma Round(c: Config, o: Obsw)
    ensures var o', t := CheckLimits(c, o), o.monitor.defs;
      && Since(o, o') == (if o.monitor.enabled then Alarms(c, o, t) else [])
      && |o'.monitor.defs| == |t|
      && forall i | 0 <= i < |t| :: o'.monitor.defs[i] == if o.monitor.enabled then Latched(c, o, t[i]) else t[i]
  {
    hide M.ReadingsOf, ReadingOf, Alarms, M.CheckUpTo, Parameters.Less;
    var o', t := CheckLimits(c, o), o.monitor.defs;
    var r := M.ReadingsOf(o.params.table, c.convert);
    CheckSends(c, o, o.Bus(), |t|);
    assert t[..|t|] == t;
    forall i | 0 <= i < |t| ensures o'.monitor.defs[i] == if o.monitor.enabled then Latched(c, o, t[i]) else t[i] {
      M.CheckEach(t, o.Bus(), c.triggers, r, |t|, i);
      ReadingIs(c, o, t[i].paramId);
    }
  }
}
