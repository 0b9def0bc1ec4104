/** The short handlers: function management, time, ping and parameters (`src/pus/s8.c`, `s9.c`,
    `s17.c`, `s20.c`). */
module SmallServices {
  import opened Bytes
  import Events
  import Obt
  import Parameters
  import PusTm
  import TmPacket
  import Verification

  type Verify = Verification.Reporter
  type Tc = Verification.Tc

  /** Header fields of a service that emits its own reports. */
  datatype Sender = Sender(apid: u16, msgCounter: u16, timestamp: u32) {
    function Report(v: Verify, service: u8, subservice: u8, app: bytes): (Sender, Verify) {
      (this.(msgCounter := Next16(msgCounter)),
       v.(down := v.down.Offer(TmPacket.Packet(apid, msgCounter, service, subservice, msgCounter, 0, timestamp, app))))
    }
  }

  // ----- Service 9: time ----------------------------------------------------------------------

  /** TC(9,128). */
  function SetObt(t: Obt.Time, v: Verify, tc: Tc): (Obt.Time, Verify, bool) {
    var u := tc.userData;
    if |u| < 6 then (t, v.Reject(tc, Verification.FAIL_ILLEGAL_APP_DATA), false)
    else (Obt.Time(Be32(u), Be16(u[4..]), 0), v.Accept(tc).Complete(tc), true)
  }

  // ----- Service 17: ping ---------------------------------------------------------------------

  /** TC(17,1): TM(17,2) between acceptance and completion. */
  function PingSpec(s: Sender, v: Verify, tc: Tc): (Sender, Verify, bool) {
    var (s1, v1) := s.Report(v.Accept(tc), 17, 2, []);
    (s1, v1.Complete(tc), true)
  }

  // ----- Service 20: parameters ---------------------------------------------------------------

  datatype Params = Params(table: seq<Parameters.Entry>, sender: Sender)

  /** TC(20,1). */
  function SetParam(p: Params, v: Verify, tc: Tc): (Params, Verify, bool) {
    var u := tc.userData;
    if |u| < 6 then (p, v.Reject(tc, Verification.FAIL_ILLEGAL_APP_DATA), false)
    else
      var k := Parameters.Position(p.table, Be16(u));
      if k == |p.table| then (p, v.Reject(tc, Verification.FAIL_EXEC_ERROR), false)
      else (p.(table := p.table[k := p.table[k].(value := Be32(u[2..]))]), v.Accept(tc).Complete(tc), true)
  }

  /** TC(20,3): TM(20,2) carries the identifier and the raw value. */
  function GetParam(p: Params, v: Verify, tc: Tc): (Params, Verify, bool) {
    var u := tc.userData;
    if |u| < 2 then (p, v.Reject(tc, Verification.FAIL_ILLEGAL_APP_DATA), false)
    else
      var k := Parameters.Position(p.table, Be16(u));
      if k == |p.table| then (p, v.Reject(tc, Verification.FAIL_EXEC_ERROR), false)
      else
        var (s1, v1) := p.sender.Report(v.Accept(tc), 20, 2, Enc16(Be16(u)) + Enc32(p.table[k].value));
        (p.(sender := s1), v1.Complete(tc), true)
  }

  /** A TC(20,1) sets exactly the first entry with its identifier, and identifiers never change. */
  lemma SetParamKeepsIds(p: Params, v: Verify, tc: Tc)
    ensures Parameters.Ids(SetParam(p, v, tc).0.table) == Parameters.Ids(p.table)
  {
  }

  // ----- Service 8: functions -----------------------------------------------------------------

  /** The on-board functions of the target (`sim/main.c`). */
  datatype Function = RecoverNominal | RequestSafe | RequestStandby | ReportEvent(severity: u8, event: u16)

  datatype FnEntry = FnEntry(id: u16, fn: Function)

  function FnPosition(t: seq<FnEntry>, id: u16): (k: nat)
    ensures k <= |t| && (k < |t| ==> t[k].id == id)
    ensures forall i | 0 <= i < k :: t[i].id != id
  {
    if t == [] || t[0].id == id then 0 else 1 + FnPosition(t[1..], id)
  }

  lemma {:induction false} FnPositionIs(t: seq<FnEntry>, id: u16, k: nat)
    requires k <= |t| && (k < |t| ==> t[k].id == id) && forall i | 0 <= i < k :: t[i].id != id
    ensures FnPosition(t, id) == k
  {
    if k > 0 {
      FnPositionIs(t[1..], id, k - 1);
    }
  }

  /** What a function does to the event bus, and whether it returns success. */
  function Call(fn: Function, argsLen: u8, b: Events.Bus, triggers: seq<u16>): (Events.Bus, bool) {
    match fn
    case RecoverNominal => (b.(fsm := b.fsm.ToNominal()), true)
    case RequestSafe => (b.(fsm := b.fsm.ToSafe()), true)
    case RequestStandby => (b.(fsm := b.fsm.ToStandby()), true)
    case ReportEvent(severity, event) =>
      if argsLen != 0 then (b, false)
      else (b.Raise(triggers, severity, event, []), b.down.HasRoom(b.Packet(severity, event, [])))
  }

  /** TC(8,1) for a function that was found: acceptance, the call, then completion or failure. */
  function RunFunction(fn: Function, argsLen: u8, b: Events.Bus, triggers: seq<u16>, v: Verify, tc: Tc)
    : (Events.Bus, Verify, bool)
  {
    var v1 := v.Accept(tc);
    var (b1, ok) := Call(fn, argsLen, b.(down := v1.down), triggers);
    var v2 := v1.(down := b1.down);
    var v3 := if ok then v2.Complete(tc) else v2.Fail(tc, Verification.FAIL_EXEC_ERROR);
    (b1.(down := v3.down), v3, ok)
  }

  function RejectFunction(b: Events.Bus, v: Verify, tc: Tc, code: u16): (Events.Bus, Verify, bool) {
    (b.(down := v.Reject(tc, code).down), v.Reject(tc, code), false)
  }

  /** TC(8,1). The bus handed in holds the same downlink as v. */
  function Perform(t: seq<FnEntry>, b: Events.Bus, triggers: seq<u16>, v: Verify, tc: Tc): (Events.Bus, Verify, bool) {
    var u := tc.userData;
    if |u| < 3 || 3 + u[2] as int > |u| then RejectFunction(b, v, tc, Verification.FAIL_ILLEGAL_APP_DATA)
    else
      var k := FnPosition(t, Be16(u));
      if k == |t| then RejectFunction(b, v, tc, Verification.FAIL_EXEC_ERROR)
      else RunFunction(t[k].fn, u[2], b, triggers, v, tc)
  }

  // ----- The handlers -------------------------------------------------------------------------

  class S9 {
    const s1: Verification.S1
    const obt: Obt.Clock

    constructor (s1: Verification.S1, obt: Obt.Clock)
      ensures this.s1 == s1 && this.obt == obt
    {
      this.s1, this.obt := s1, obt;
    }

    /** `obsw_s9_set_obt`. */
    method SetTime(tc: Tc) returns (rc: int)
      requires s1.store.Valid()
      modifies obt, s1, s1.store, s1.store.slots
      ensures s1.store.Valid()
      ensures (obt.View(), s1.View(), rc == 0) == SetObt(old(obt.View()), old(s1.View()), tc)
    {
      var u := tc.userData;
      if |u| < 6 {
        s1.AcceptFailure(tc, Verification.FAIL_ILLEGAL_APP_DATA);
        return -1;
      }
      var coarse := Be32(u);
      var fine := Be16(u[4..]);
      s1.AcceptSuccess(tc);
      obt.Set(coarse, fine);
      s1.CompletionSuccess(tc);
      return 0;
    }
  }

  class S17 {
    const s1: Verification.S1
    const apid: u16
    var msgCounter: u16
    var timestamp: u32

    ghost function View(): Sender
      reads this
    {
      Sender(apid, msgCounter, timestamp)
    }

    constructor (s1: Verification.S1, apid: u16)
      ensures this.s1 == s1 && View() == Sender(apid, 0, 0)
    {
      this.s1, this.apid, msgCounter, timestamp := s1, apid, 0, 0;
    }

    /** `obsw_s17_ping`. */
    method Ping(tc: Tc) returns (rc: int)
      requires s1.store.Valid()
      modifies this`msgCounter, s1, s1.store, s1.store.slots
      ensures s1.store.Valid()
      ensures (View(), s1.View(), rc == 0) == PingSpec(old(View()), old(s1.View()), tc)
    {
      s1.AcceptSuccess(tc);
      var seqCount := msgCounter;
      msgCounter := Next16(msgCounter);
      var _ := PusTm.Build(s1.store, TmPacket.Packet(apid, seqCount, 17, 2, seqCount, 0, timestamp, []));
      s1.CompletionSuccess(tc);
      return 0;
    }
  }

  class S20 {
    const s1: Verification.S1
    const apid: u16
    var msgCounter: u16
    var timestamp: u32
    const table: array<Parameters.Entry>

    ghost function View(): Params
      reads this, table
    {
      Params(table[..], Sender(apid, msgCounter, timestamp))
    }

    constructor (s1: Verification.S1, apid: u16, table: array<Parameters.Entry>)
      ensures this.s1 == s1 && this.table == table && View() == Params(table[..], Sender(apid, 0, 0))
    {
      this.s1, this.apid, this.table, msgCounter, timestamp := s1, apid, table, 0, 0;
    }

    /** `obsw_s20_set`. */
    method SetValue(tc: Tc) returns (rc: int)
      requires s1.store.Valid()
      modifies table, s1, s1.store, s1.store.slots
      ensures s1.store.Valid()
      ensures (View(), s1.View(), rc == 0) == SetParam(old(View()), old(s1.View()), tc)
    {
      var u := tc.userData;
      if |u| < 6 {
        s1.AcceptFailure(tc, Verification.FAIL_ILLEGAL_APP_DATA);
        return -1;
      }
      var k := Parameters.FindEntry(table, Be16(u));
      if k == table.Length {
        s1.AcceptFailure(tc, Verification.FAIL_EXEC_ERROR);
        return -1;
      }
      s1.AcceptSuccess(tc);
      table[k] := table[k].(value := Be32(u[2..]));
      assert table[..] == old(table[..])[k := table[k]];
      s1.CompletionSuccess(tc);
      return 0;
    }

    /** `obsw_s20_get`. */
    method GetValue(tc: Tc) returns (rc: int)
      requires s1.store.Valid()
      modifies this`msgCounter, s1, s1.store, s1.store.slots
      ensures s1.store.Valid()
      ensures (View(), s1.View(), rc == 0) == GetParam(old(View()), old(s1.View()), tc)
    {
      var u := tc.userData;
      if |u| < 2 {
        s1.AcceptFailure(tc, Verification.FAIL_ILLEGAL_APP_DATA);
        return -1;
      }
      var k := Parameters.FindEntry(table, Be16(u));
      if k == table.Length {
        s1.AcceptFailure(tc, Verification.FAIL_EXEC_ERROR);
        return -1;
      }
      s1.AcceptSuccess(tc);
      var seqCount := msgCounter;
      msgCounter := Next16(msgCounter);
      var _ := PusTm.Build(s1.store,
        TmPacket.Packet(apid, seqCount, 20, 2, seqCount, 0, timestamp, Enc16(Be16(u)) + Enc32(table[k].value)));
      s1.CompletionSuccess(tc);
      return 0;
    }
  }

  class S8 {
    const s1: Verification.S1
    const s5: Events.S5
    const table: seq<FnEntry>

    constructor (s1: Verification.S1, s5: Events.S5, table: seq<FnEntry>)
      ensures this.s1 == s1 && this.s5 == s5 && this.table == table
    {
      this.s1, this.s5, this.table := s1, s5, table;
    }

    /** The lookup loop of `obsw_s8_perform`. */
    method FindFunction(id: u16) returns (k: nat)
      ensures k == FnPosition(table, id)
    {
      k := 0;
      while k < |table| && table[k].id != id
        invariant k <= |table| && forall i | 0 <= i < k :: table[i].id != id
      {
        k := k + 1;
      }
      FnPositionIs(table, id, k);
    }

    /** The callbacks of the function table. */
    method Invoke(fn: Function, argsLen: u8) returns (ok: bool)
      requires s5.Valid()
      modifies s5`msgCounter, s5.store, s5.store.slots, s5.fsm, s5.s19`queued, s5.s19`dropped, s5.s19.queue
      ensures s5.Valid() && (s5.View(), ok) == Call(fn, argsLen, old(s5.View()), s5.triggers)
    {
      match fn {
        case RecoverNominal =>
          s5.fsm.ToNominal();
          ok := true;
        case RequestSafe =>
          s5.fsm.ToSafe();
          ok := true;
        case RequestStandby =>
          s5.fsm.ToStandby();
          ok := true;
        case ReportEvent(severity, event) =>
          if argsLen != 0 {
            return false;
          }
          ok := s5.Report(severity, event, []);
      }
    }

    /** The part of `obsw_s8_perform` after the lookup. */
    method Execute(fn: Function, argsLen: u8, tc: Tc) returns (ok: bool)
      requires s5.Valid() && s5.store == s1.store
      modifies s1, s5`msgCounter, s5.store, s5.store.slots, s5.fsm, s5.s19`queued, s5.s19`dropped, s5.s19.queue
      ensures s5.Valid()
      ensures (s5.View(), s1.View(), ok)
           == RunFunction(fn, argsLen, old(s5.View()), s5.triggers, old(s1.View()), tc)
    {
      hide Call, Verification.Reporter.Report, Verification.TcRef;
      s1.AcceptSuccess(tc);
      ok := Invoke(fn, argsLen);
      if ok {
        s1.CompletionSuccess(tc);
      } else {
        s1.CompletionFailure(tc, Verification.FAIL_EXEC_ERROR);
      }
    }

    method Refuse(tc: Tc, code: u16)
      requires s5.Valid() && s5.store == s1.store
      modifies s1, s5.store, s5.store.slots
      ensures s5.Valid()
      ensures (s5.View(), s1.View(), false) == RejectFunction(old(s5.View()), old(s1.View()), tc, code)
    {
      s1.AcceptFailure(tc, code);
    }

    /** `obsw_s8_perform`. */
    method PerformFunction(tc: Tc) returns (rc: int)
      requires s5.Valid() && s5.store == s1.store
      modifies s1, s5`msgCounter, s5.store, s5.store.slots, s5.fsm, s5.s19`queued, s5.s19`dropped, s5.s19.queue
      ensures s5.Valid()
      ensures (s5.View(), s1.View(), rc == 0)
           == Perform(table, old(s5.View()), s5.triggers, old(s1.View()), tc)
    {
      var u := tc.userData;
      if |u| < 3 || 3 + u[2] as int > |u| {
        Refuse(tc, Verification.FAIL_ILLEGAL_APP_DATA);
        return -1;
      }
      var k := FindFunction(Be16(u));
      if k == |table| {
        Refuse(tc, Verification.FAIL_EXEC_ERROR);
        return -1;
      }
      var ok := Execute(table[k].fn, u[2], tc);
      return if ok then 0 else -1;
    }
  }
}
