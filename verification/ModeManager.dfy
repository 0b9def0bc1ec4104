/** The Mode Manager of `src/task/mode.c`: its request functions and one pass of its task body. */
module ModeManager {
  import opened Bytes
  import Fsm
  import ModeSteps
  import PusTm
  import TmPacket
  import TmStore

  const INFO: u8 := 1
  const HIGH: u8 := 4
  /** Identifiers of `srdb/data/events.yaml`. */
  const SAFE_MODE_ENTRY: u16 := 0x0002
  const STANDBY_ENTRY: u16 := 0x0004
  const NOMINAL_ENTRY: u16 := 0x0005

  function Severity(m: Fsm.Mode): u8 {
    if m == Fsm.Safe then HIGH else INFO
  }

  function EventId(m: Fsm.Mode): u16 {
    match m
    case Safe => SAFE_MODE_ENTRY
    case Nominal => NOMINAL_ENTRY
    case Standby => STANDBY_ENTRY
  }

  /** The event service of the Mode Manager: no mode coupling and no hook. */
  datatype Sender = Sender(apid: u16, msgCounter: u16, timestamp: u32) {
    function Packet(m: Fsm.Mode): (p: TmPacket.Packet)
      ensures p.service == 5 && p.subservice == if m == Fsm.Safe then 4 else 1
      ensures p.data == [0, if m == Fsm.Safe then 2 else if m == Fsm.Standby then 4 else 5]
    {
      TmPacket.Packet(apid, msgCounter, 5, Severity(m), msgCounter, 0, timestamp, Enc16(EventId(m)))
    }
  }

  class ModeManager {
    const fsm: Fsm.Fsm
    const store: TmStore.TmStore
    const apid: u16
    var msgCounter: u16
    var timestamp: u32
    var reqSafe: bool
    var reqNominal: bool
    var reqStandby: bool
    var standbyTicks: u32
    var last: Fsm.Mode
    /** What has happened so far, tick by tick. */
    ghost var past: ModeSteps.History

    ghost function View(): ModeSteps.State
      reads this, fsm
    {
      ModeSteps.State.State(fsm.mode, reqSafe, reqStandby, reqNominal, ModeSteps.Asleep, last, standbyTicks, last, past)
    }

    ghost function Events(): Sender
      reads this
    {
      Sender(apid, msgCounter, timestamp)
    }

    /** `obsw_mode_task_init`, and the mode task up to its loop. */
    constructor (fsm: Fsm.Fsm, store: TmStore.TmStore, apid: u16)
      ensures this.fsm == fsm && this.store == store && View() == ModeSteps.Start(fsm.mode)
    {
      this.fsm, this.store, this.apid := fsm, store, apid;
      msgCounter, timestamp := 0, 0;
      reqSafe, reqNominal, reqStandby, standbyTicks := false, false, false, 0;
      last := fsm.mode;
      past := ModeSteps.Start(fsm.mode).past;
    }

    /** `obsw_mode_request_safe`. */
    method RequestSafe()
      modifies this`reqSafe, this`reqNominal
      ensures View() == ModeSteps.Next(ModeSteps.Next(old(View()), ModeSteps.AskSafe), ModeSteps.DropNominal)
    {
      reqSafe := true;
      reqNominal := false;
    }

    /** `obsw_mode_request_nominal`. */
    method RequestNominal()
      modifies this`reqNominal, this`past
      ensures View() == ModeSteps.Next(old(View()), ModeSteps.AskNominal)
    {
      reqNominal := true;
      past := past.(asked := past.asked + 1);
    }

    /** `obsw_mode_request_standby`. */
    method RequestStandby()
      modifies this`reqStandby, this`reqNominal
      ensures View() == ModeSteps.Next(ModeSteps.Next(old(View()), ModeSteps.AskStandby), ModeSteps.DropNominal)
    {
      reqStandby := true;
      reqNominal := false;
    }

    /** The request part of the mode task. */
    method ServeRequests()
      modifies this`reqSafe, this`reqStandby, this`reqNominal, fsm
      ensures fsm.mode == ModeSteps.Requested(old(View()))
      ensures var d := ModeSteps.Decided(old(View()));
        reqSafe == d.reqSafe && reqStandby == d.reqStandby && reqNominal == d.reqNominal
    {
      var cur := fsm.mode;
      if reqSafe {
        reqSafe := false;
        fsm.ToSafe();
      } else if reqStandby {
        reqStandby := false;
        fsm.ToStandby();
      } else if reqNominal {
        reqNominal := false;
        if cur == Fsm.Safe {
          fsm.ToNominal();
        }
      }
    }

    /** The automatic transition after the timeout. */
    method CheckTimeout()
      modifies this`standbyTicks, fsm
      ensures old(fsm.mode) == Fsm.Standby ==>
        standbyTicks == (old(standbyTicks) + 1) % U32
        && fsm.mode == if standbyTicks >= ModeSteps.TIMEOUT then Fsm.Safe else Fsm.Standby
      ensures old(fsm.mode) != Fsm.Standby ==> standbyTicks == 0 && fsm.mode == old(fsm.mode)
    {
      var cur := fsm.mode;
      if cur == Fsm.Standby {
        standbyTicks := (standbyTicks + 1) % U32;
        if standbyTicks >= ModeSteps.TIMEOUT {
          fsm.ToSafe();
        }
      } else {
        standbyTicks := 0;
      }
    }

    /** The event for a new mode. */
    method ReportChange()
      requires store.Valid()
      modifies this`last, this`msgCounter, store, store.slots
      ensures store.Valid() && last == fsm.mode
      ensures if fsm.mode != old(last)
        then PusTm.View(store) == old(PusTm.View(store)).Offer(old(Events()).Packet(fsm.mode))
             && Events() == old(Events()).(msgCounter := Next16(old(msgCounter)))
        else PusTm.View(store) == old(PusTm.View(store)) && Events() == old(Events())
    {
      var cur := fsm.mode;
      if cur != last {
        var seqCount := msgCounter;
        msgCounter := Next16(msgCounter);
        var _ := PusTm.Build(store,
          TmPacket.Packet(apid, seqCount, 5, Severity(cur), seqCount, 0, timestamp, Enc16(EventId(cur))));
        last := cur;
      }
    }

    /** One pass of the mode task. A change of mode since the last pass is reported as one TM(5,x). */
    method Tick()
      requires store.Valid()
      modifies this, fsm, store, store.slots
      ensures store.Valid()
      ensures View() == ModeSteps.Ended(old(View()))
      ensures var m := ModeSteps.Settled(old(View()));
        if m != old(last)
        then PusTm.View(store) == old(PusTm.View(store)).Offer(old(Events()).Packet(m))
             && Events() == old(Events()).(msgCounter := Next16(old(msgCounter)))
        else PusTm.View(store) == old(PusTm.View(store)) && Events() == old(Events())
    {
      hide PusTm.Downlink.Offer, Severity, EventId;
      ghost var before := View();
      ServeRequests();
      CheckTimeout();
      ReportChange();
      past := ModeSteps.Ended(before).past;
    }
  }
}
