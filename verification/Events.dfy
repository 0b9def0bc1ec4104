/**
  PUS service 5, event reporting: `src/pus/s5.c`, with the mode coupling and event hook wired as in
  `sim/main.c` (the mode machine and service 19).
  */
module Events {
  import opened Bytes
  import EventAction
  import EventActionService
  import Fsm
  import PusTm
  import TmPacket
  import TmStore

  const HIGH: u8 := 4
  /** OBSW_S5_MAX_SAFE_TRIGGERS. */
  const MAX_TRIGGERS := 8

  /** Everything an event report can change. */
  datatype Bus = Bus(
    apid: u16, msgCounter: u16, timestamp: u32,
    down: PusTm.Downlink, fsm: Fsm.State, actions: EventAction.Actions)
  {
    function Packet(severity: u8, event: u16, aux: bytes): TmPacket.Packet {
      TmPacket.Packet(apid, msgCounter, 5, severity, msgCounter, 0, timestamp, Enc16(event) + aux)
    }

    /** A HIGH trigger event enters SAFE only if its report could be stored; service 19 hears of
        every event, stored or not. */
    function Raise(triggers: seq<u16>, severity: u8, event: u16, aux: bytes): Bus {
      var p := Packet(severity, event, aux);
      this.(
        msgCounter := Next16(msgCounter),
        down := down.Offer(p),
        fsm := if down.HasRoom(p) && severity == HIGH && event in triggers then fsm.ToSafe() else fsm,
        actions := EventAction.OnEvent(actions, event))
    }
  }

  class S5 {
    const store: TmStore.TmStore
    const apid: u16
    var msgCounter: u16
    var timestamp: u32
    const fsm: Fsm.Fsm
    const triggers: seq<u16>
    const s19: EventActionService.S19

    ghost predicate Valid()
      reads this, store, store.slots, s19, s19.defs, s19.queue, s19.s1, s19.s1.store, s19.s1.store.slots
    {
      store.Valid() && s19.Valid() && |triggers| <= MAX_TRIGGERS
    }

    ghost function View(): Bus
      requires Valid()
      reads this, store, store.slots, fsm, s19, s19.defs, s19.queue, s19.s1, s19.s1.store, s19.s1.store.slots
    {
      Bus(apid, msgCounter, timestamp, PusTm.View(store), fsm.View(), s19.View())
    }

    constructor (store: TmStore.TmStore, apid: u16, fsm: Fsm.Fsm, triggers: seq<u16>, s19: EventActionService.S19)
      requires store.Valid() && s19.Valid() && |triggers| <= MAX_TRIGGERS
      ensures Valid() && this.store == store && this.fsm == fsm && this.triggers == triggers && this.s19 == s19
      ensures msgCounter == 0
    {
      this.store, this.apid, this.fsm, this.triggers, this.s19 := store, apid, fsm, triggers, s19;
      msgCounter, timestamp := 0, 0;
    }

    /** The scan of the safe-trigger list. */
    method IsTrigger(event: u16) returns (b: bool)
      ensures b <==> event in triggers
    {
      for i := 0 to |triggers|
        invariant event !in triggers[..i]
      {
        if triggers[i] == event {
          return true;
        }
      }
      return false;
    }

    /** `obsw_s5_report`. */
    method Report(severity: u8, event: u16, aux: bytes) returns (stored: bool)
      requires Valid() && |aux| <= 255
      modifies this`msgCounter, store, store.slots, fsm, s19`queued, s19`dropped, s19.queue
      ensures Valid() && View() == old(View()).Raise(triggers, severity, event, aux)
      ensures stored == old(View()).down.HasRoom(old(View()).Packet(severity, event, aux))
    {
      hide PusTm.Downlink.Offer, PusTm.Downlink.HasRoom, EventAction.OnEvent;
      var seqCount := msgCounter;
      msgCounter := Next16(msgCounter);
      var rc := PusTm.Build(store,
        TmPacket.Packet(apid, seqCount, 5, severity, seqCount, 0, timestamp, Enc16(event) + aux));
      if rc == PusTm.Ok && severity == HIGH {
        var trigger := IsTrigger(event);
        if trigger {
          fsm.ToSafe();
        }
      }
      s19.OnEvent(event);
      stored := rc == PusTm.Ok;
    }
  }
}
