/**
  What the telecommands of services 8, 9, 17 and 20 do, from their octets (`src/pus/s8.c`, `s9.c`, `s17.c`,
  `s20.c`).
  */
module ShortCommands {
  import opened Bytes
  import opened Executive
  import opened Uplink
  import EventAction
  import Fsm
  import Obt
  import P = Parameters
  import SmallServices
  import TmPacket
  import Verification

  // ----- Ping, time ---------------------------------------------------------------------------------------

  /** One report more has been made. */
  function Counted(s: SmallServices.Sender): SmallServices.Sender {
    s.(msgCounter := (s.msgCounter + 1) % 65536)
  }

  function Packet(s: SmallServices.Sender, service: u8, subservice: u8, data: bytes): TmPacket.Packet {
    TmPacket.Packet(s.apid, s.msgCounter, service, subservice, s.msgCounter, 0, s.timestamp, data)
  }

  lemma HandledOther(c: Config, o: Obsw, h: Handler, tc: Tc)
    requires h.SetObt? || h.Ping? || h.SetParam? || h.GetParam?
    ensures Handle(c, o, h, tc) == HandleOther(o, h, tc)
  {
    hide HandleOther;
  }

  /** TC(17,1) is answered by an empty TM(17,2). */
  lemma Ping(c: Config, o: Obsw, u: Uplink)
    requires Sent(c, o, u, 17, 1)
    ensures Completes(o, Feed(c, o, u.Octets()), u, o.(ping := Counted(o.ping)), [Tm(17, 2, [])])
  {
    hide Handle, Feed, Verification.Reporter.Report, Verification.TcRef;
    FedTo(c, o, u, 17, 1);
    HandledOther(c, o, Handler.Ping, u.Tc());
    var (s, v) := o.ping.Report(o.s1.Accept(u.Tc()), 17, 2, []);
    DoneWith(o, v, Feed(c, o, u.Octets()).0, u, [Packet(o.ping, 17, 2, [])]);
  }

  /** The answer to TC(9,128): the clock shows the time given. */
  ghost predicate TimeSet(o: Obsw, f: (Obsw, Result), u: Uplink)
    requires u.Valid()
  {
    var d := u.data;
    if |d| < 6 then Rejects(o, f, u, 5)
    else Completes(o, f, u, o.(obt := Obt.Time(coarse := Long(d, 0), fine := Word(d, 4), rem := 0)), [])
  }

  lemma SetTime(c: Config, o: Obsw, u: Uplink)
    requires Sent(c, o, u, 9, 128)
    ensures TimeSet(o, Feed(c, o, u.Octets()), u)
  {
    hide Handle, Feed, Verification.Reporter.Report, Verification.TcRef, Done, Refused;
    FedTo(c, o, u, 9, 128);
    HandledOther(c, o, Handler.SetObt, u.Tc());
    var o' := Feed(c, o, u.Octets()).0;
    if |u.data| < 6 {
      RefusedBy(o, o', u, 5);
    } else {
      ReadLong(u.data, 0);
      ReadWord(u.data, 4);
      assert u.data[0..] == u.data;
      DoneBy(o, o', u);
    }
  }

  // ----- Parameters ---------------------------------------------------------------------------------------

  predicate NoEntry(t: seq<P.Entry>, id: u16) {
    forall i | 0 <= i < |t| :: t[i].id != id
  }

  predicate FirstEntry(t: seq<P.Entry>, id: u16, k: nat) {
    k < |t| && t[k].id == id && forall i | 0 <= i < k :: t[i].id != id
  }

  lemma PositionFirst(t: seq<P.Entry>, id: u16)
    ensures var k := P.Position(t, id); if NoEntry(t, id) then k == |t| else FirstEntry(t, id, k)
    ensures forall k | FirstEntry(t, id, k) :: k == P.Position(t, id)
  {
  }

  /** The answer to TC(20,1): the first entry with the identifier has the value given. */
  ghost predicate ParamSet(o: Obsw, f: (Obsw, Result), u: Uplink)
    requires u.Valid()
  {
    var t, d := o.params.table, u.data;
    if |d| < 6 then Rejects(o, f, u, 5)
    else if NoEntry(t, Word(d, 0)) then Rejects(o, f, u, 4)
    else forall k: nat | FirstEntry(t, Word(d, 0), k) ::
      Completes(o, f, u, o.(params := o.params.(table := t[k := t[k].(value := Long(d, 2))])), [])
  }

  lemma SetParam(c: Config, o: Obsw, u: Uplink)
    requires Sent(c, o, u, 20, 1)
    ensures ParamSet(o, Feed(c, o, u.Octets()), u)
  {
    hide Handle, Feed, Verification.Reporter.Report, Verification.TcRef, Done, Refused, FirstEntry;
    FedTo(c, o, u, 20, 1);
    HandledOther(c, o, Handler.SetParam, u.Tc());
    var o' := Feed(c, o, u.Octets()).0;
    if |u.data| < 6 {
      RefusedBy(o, o', u, 5);
    } else {
      ReadLong(u.data, 2);
      PositionFirst(o.params.table, Word(u.data, 0));
      if NoEntry(o.params.table, Word(u.data, 0)) {
        RefusedBy(o, o', u, 4);
      } else {
        DoneBy(o, o', u);
      }
    }
  }

  /** The answer to TC(20,3): TM(20,2) with the identifier and the value of the first entry that has it. */
  ghost predicate ParamReported(o: Obsw, f: (Obsw, Result), u: Uplink)
    requires u.Valid()
  {
    var t, d := o.params.table, u.data;
    if |d| < 2 then Rejects(o, f, u, 5)
    else if NoEntry(t, Word(d, 0)) then Rejects(o, f, u, 4)
    else forall k: nat | FirstEntry(t, Word(d, 0), k) ::
      Completes(o, f, u, o.(params := o.params.(sender := Counted(o.params.sender))),
                [Tm(20, 2, d[..2] + LongOctets(t[k].value))])
  }

  lemma GetParam(c: Config, o: Obsw, u: Uplink)
    requires Sent(c, o, u, 20, 3)
    ensures ParamReported(o, Feed(c, o, u.Octets()), u)
  {
    hide Handle, Feed, Verification.Reporter.Report, Verification.TcRef, Done, Refused, FirstEntry;
    FedTo(c, o, u, 20, 3);
    HandledOther(c, o, Handler.GetParam, u.Tc());
    var o' := Feed(c, o, u.Octets()).0;
    var t, d := o.params.table, u.data;
    if |d| < 2 {
      RefusedBy(o, o', u, 5);
    } else {
      PositionFirst(t, Word(d, 0));
      if NoEntry(t, Word(d, 0)) {
        RefusedBy(o, o', u, 4);
      } else {
        var k := P.Position(t, Word(d, 0));
        WrittenLong(t[k].value);
        SameWord(d);
        var (s, v) := o.params.sender.Report(o.s1.Accept(u.Tc()), 20, 2, d[..2] + LongOctets(t[k].value));
        var p := Packet(o.params.sender, 20, 2, d[..2] + LongOctets(t[k].value));
        DoneWith(o, v, o', u, [p]);
        assert Tms([p]) == [Tm(20, 2, p.data)];
      }
    }
  }

  lemma SameWord(d: bytes)
    requires |d| >= 2
    ensures Enc16(Be16(d)) == d[..2] && Be16(d) == Word(d, 0)
  {
    var hi: int, lo: int := d[0], d[1];
    assert (hi * 0x100 + lo) / 0x100 == hi && (hi * 0x100 + lo) % 0x100 == lo;
  }

  // ----- Functions ----------------------------------------------------------------------------------------

  predicate NoFunction(t: seq<SmallServices.FnEntry>, id: u16) {
    forall i | 0 <= i < |t| :: t[i].id != id
  }

  predicate FirstFunction(t: seq<SmallServices.FnEntry>, id: u16, k: nat) {
    k < |t| && t[k].id == id && forall i | 0 <= i < k :: t[i].id != id
  }

  lemma FunctionFirst(t: seq<SmallServices.FnEntry>, id: u16)
    ensures var k := SmallServices.FnPosition(t, id); if NoFunction(t, id) then k == |t| else FirstFunction(t, id, k)
    ensures forall k | FirstFunction(t, id, k) :: k == SmallServices.FnPosition(t, id)
  {
  }

  /** SAFE, counted unless the spacecraft was there. */
  function InSafe(s: Fsm.State): Fsm.State {
    Fsm.State(mode := Fsm.Safe, safeEntries := if s.mode == Fsm.Safe then s.safeEntries else (s.safeEntries + 1) % U32)
  }

  /** Service 19 after an event: one that has an action waits for it while the service is on; beyond four waiting
      it is counted as dropped. */
  function Heard(a: EventAction.Actions, event: u16): EventAction.Actions {
    if a.enabled && event in a.defs then
      if |a.queue| < 4 then a.(queue := a.queue + [event]) else a.(dropped := (a.dropped + 1) % 65536)
    else a
  }

  /** The state after an event that was reported, or found no room in the store. */
  function Evented(c: Config, o: Obsw, severity: u8, event: u16, stored: bool): Obsw {
    o.(s5 := Counted(o.s5), actions := Heard(o.actions, event),
       fsm := if stored && severity == 4 && event in c.triggers then InSafe(o.fsm) else o.fsm)
  }

  /** The answer to TC(8,1) for a function. */
  ghost predicate Performed(c: Config, o: Obsw, f: (Obsw, Result), u: Uplink, fn: SmallServices.Function)
    requires u.Valid() && |u.data| >= 3
  {
    match fn
    case RecoverNominal => Completes(o, f, u, o.(fsm := Fsm.State(Fsm.Nominal, o.fsm.safeEntries)), [])
    case RequestSafe => Completes(o, f, u, o.(fsm := InSafe(o.fsm)), [])
    case RequestStandby => Completes(o, f, u, o.(fsm := Fsm.State(Fsm.Standby, o.fsm.safeEntries)), [])
    case ReportEvent(severity, event) =>
      var report := Tm(5, severity, WordOctets(event));
      // TM(1,1) and the event need two places of 31
      var stored := |o.s1.down.queue| < 30;
      if u.data[2] != 0 then Fails(o, f, u, o, [], 4)
      else if stored then Completes(o, f, u, Evented(c, o, severity, event, true), [report])
      else Fails(o, f, u, Evented(c, o, severity, event, false), [report], 4)
  }

  /** The answer to TC(8,1). */
  ghost predicate Answered(c: Config, o: Obsw, f: (Obsw, Result), u: Uplink)
    requires u.Valid()
  {
    var t, d := c.functions, u.data;
    if |d| < 3 || 3 + d[2] as int > |d| then Rejects(o, f, u, 5)
    else if NoFunction(t, Word(d, 0)) then Rejects(o, f, u, 4)
    else forall k: nat | FirstFunction(t, Word(d, 0), k) :: Performed(c, o, f, u, t[k].fn)
  }

  lemma HandledFunction(c: Config, o: Obsw, tc: Tc)
    ensures Handle(c, o, Handler.Perform, tc) == HandleFunction(c, o, tc)
  {
    hide HandleFunction;
  }

  lemma Perform(c: Config, o: Obsw, u: Uplink)
    requires Sent(c, o, u, 8, 1)
    ensures Answered(c, o, Feed(c, o, u.Octets()), u)
  {
    hide Handle, Feed, Verification.Reporter.Report, Verification.TcRef, Refused, FirstFunction, Performed;
    hide SmallServices.RunFunction;
    FedTo(c, o, u, 8, 1);
    HandledFunction(c, o, u.Tc());
    var f := Feed(c, o, u.Octets());
    var t, d := c.functions, u.data;
    if |d| < 3 || 3 + d[2] as int > |d| {
      RefusedBy(o, f.0, u, 5);
    } else {
      FunctionFirst(t, Word(d, 0));
      if NoFunction(t, Word(d, 0)) {
        RefusedBy(o, f.0, u, 4);
      } else {
        var k := SmallServices.FnPosition(t, Word(d, 0));
        if t[k].fn.ReportEvent? {
          EventAnswers(c, o, f, u, t[k].fn.severity, t[k].fn.event);
        } else {
          ModeAnswers(c, o, f, u, t[k].fn);
        }
      }
    }
  }

  lemma ModeAnswers(c: Config, o: Obsw, f: (Obsw, Result), u: Uplink, fn: SmallServices.Function)
    requires u.Valid() && |u.data| >= 3 && !fn.ReportEvent?
    requires var (b, v, ok) := SmallServices.RunFunction(fn, u.data[2], o.Bus(), c.triggers, o.s1, u.Tc());
      f == (o.(s1 := v).WithBus(b), if ok then Ok else ErrHandler)
    ensures Performed(c, o, f, u, fn)
  {
    hide Verification.Reporter.Report, Verification.TcRef, Done;
    DoneBy(o, f.0, u);
  }

  lemma EventAnswers(c: Config, o: Obsw, f: (Obsw, Result), u: Uplink, severity: u8, event: u16)
    requires u.Valid() && |u.data| >= 3
    requires var (b, v, ok) :=
      SmallServices.RunFunction(SmallServices.ReportEvent(severity, event), u.data[2], o.Bus(), c.triggers, o.s1,
                                u.Tc());
      f == (o.(s1 := v).WithBus(b), if ok then Ok else ErrHandler)
    ensures Performed(c, o, f, u, SmallServices.ReportEvent(severity, event))
  {
    hide Verification.Reporter.Report, Verification.TcRef;
    var a := o.s1.Accept(u.Tc());
    WrittenWord(event);
    if u.data[2] != 0 {
      FailedWith(o, a, f.0, u, [], 4);
    } else {
      AcceptQueue(o, u);
      var p := Packet(o.s5, 5, severity, WordOctets(event));
      assert Enc16(event) + [] == WordOctets(event);
      var mid := a.(down := a.down.Offer(p));
      if |o.s1.down.queue| < 30 {
        DoneWith(o, mid, f.0, u, [p]);
      } else {
        FailedWith(o, mid, f.0, u, [p], 4);
      }
    }
  }

  lemma AcceptQueue(o: Obsw, u: Uplink)
    requires u.Valid()
    ensures |o.s1.Accept(u.Tc()).down.queue| < 31 <==> |o.s1.down.queue| < 30
  {
  }
}
