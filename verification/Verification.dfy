/** PUS service 1, TC verification: `src/pus/s1.c`. */
module Verification {
  import opened Bytes
  import PusTm
  import TmPacket
  import TmStore

  /** A parsed telecommand (`obsw_tc_t`); the user data is empty where the C pointer is NULL. */
  datatype Tc = Tc(apid: u16, service: u8, subservice: u8, seqCount: u16, userData: bytes)

  const FAIL_ILLEGAL_SVC: u16 := 0x0002
  const FAIL_ILLEGAL_SUBSVC: u16 := 0x0003
  const FAIL_EXEC_ERROR: u16 := 0x0004
  const FAIL_ILLEGAL_APP_DATA: u16 := 0x0005
  const FAIL_MEM_ACCESS: u16 := 0x0006
  const FAIL_MODE_GATED: u16 := 0x0007

  /** Flags of the dispatcher's responder. */
  const ACK_REJECT: bv8 := 0x80
  const REJECT_SVC: bv8 := 0x10
  const REJECT_SUBSVC: bv8 := 0x20
  const REJECT_GATED: bv8 := 0x40

  /** The failure code a rejection is reported with. */
  function RejectCode(flags: bv8): u16 {
    if flags & REJECT_GATED != 0 then FAIL_MODE_GATED
    else if flags & REJECT_SUBSVC != 0 then FAIL_ILLEGAL_SUBSVC
    else FAIL_ILLEGAL_SVC
  }

  /** The three rejections of the dispatcher get the three codes meant for them. */
  lemma RejectCodes()
    ensures RejectCode(ACK_REJECT | REJECT_GATED) == FAIL_MODE_GATED
    ensures RejectCode(ACK_REJECT | REJECT_SUBSVC) == FAIL_ILLEGAL_SUBSVC
    ensures RejectCode(ACK_REJECT | REJECT_SVC) == FAIL_ILLEGAL_SVC
    ensures (ACK_REJECT | REJECT_GATED) & ACK_REJECT != 0 && (ACK_REJECT | REJECT_SUBSVC) & ACK_REJECT != 0
    ensures (ACK_REJECT | REJECT_SVC) & ACK_REJECT != 0
  {
  }

  /** Packet identification and sequence control of the TC a report is about. */
  function TcRef(tc: Tc): (r: bytes)
    ensures |r| == 4
  {
    Enc16(0x1800 + tc.apid % 0x800) + Enc16(0xC000 + tc.seqCount % 0x4000)
  }

  /** Service 1 and the downlink it writes to. */
  datatype Reporter = Reporter(apid: u16, msgCounter: u16, timestamp: u32, down: PusTm.Downlink) {
    function Packet(subservice: u8, data: bytes): TmPacket.Packet {
      TmPacket.Packet(apid, msgCounter, 1, subservice, msgCounter, 0, timestamp, data)
    }

    function Report(subservice: u8, data: bytes): Reporter {
      this.(msgCounter := Next16(msgCounter), down := down.Offer(Packet(subservice, data)))
    }

    /** TM(1,1). */
    function Accept(tc: Tc): Reporter {
      Report(1, TcRef(tc))
    }

    /** TM(1,2). */
    function Reject(tc: Tc, code: u16): Reporter {
      Report(2, TcRef(tc) + Enc16(code))
    }

    /** TM(1,7). */
    function Complete(tc: Tc): Reporter {
      Report(7, TcRef(tc))
    }

    /** TM(1,8). */
    function Fail(tc: Tc, code: u16): Reporter {
      Report(8, TcRef(tc) + Enc16(code))
    }
  }

  class S1 {
    const store: TmStore.TmStore
    const apid: u16
    var msgCounter: u16
    var timestamp: u32

    constructor (store: TmStore.TmStore, apid: u16)
      ensures this.store == store && this.apid == apid && msgCounter == 0 && timestamp == 0
    {
      this.store, this.apid := store, apid;
      msgCounter, timestamp := 0, 0;
    }

    ghost function View(): Reporter
      requires store.Valid()
      reads this, store, store.slots
    {
      Reporter(apid, msgCounter, timestamp, PusTm.View(store))
    }

    method Emit(subservice: u8, data: bytes)
      requires store.Valid() && |data| <= 6
      modifies this`msgCounter, store, store.slots
      ensures store.Valid() && View() == old(View()).Report(subservice, data)
    {
      var seqCount := msgCounter;
      msgCounter := Next16(msgCounter);
      var _ := PusTm.Build(store, TmPacket.Packet(apid, seqCount, 1, subservice, seqCount, 0, timestamp, data));
    }

    /** `obsw_s1_accept_success`. */
    method AcceptSuccess(tc: Tc)
      requires store.Valid()
      modifies this`msgCounter, store, store.slots
      ensures store.Valid() && View() == old(View()).Accept(tc)
    {
      Emit(1, TcRef(tc));
    }

    /** `obsw_s1_accept_failure`. */
    method AcceptFailure(tc: Tc, code: u16)
      requires store.Valid()
      modifies this`msgCounter, store, store.slots
      ensures store.Valid() && View() == old(View()).Reject(tc, code)
    {
      Emit(2, TcRef(tc) + Enc16(code));
    }

    /** `obsw_s1_completion_success`. */
    method CompletionSuccess(tc: Tc)
      requires store.Valid()
      modifies this`msgCounter, store, store.slots
      ensures store.Valid() && View() == old(View()).Complete(tc)
    {
      Emit(7, TcRef(tc));
    }

    /** `obsw_s1_completion_failure`. */
    method CompletionFailure(tc: Tc, code: u16)
      requires store.Valid()
      modifies this`msgCounter, store, store.slots
      ensures store.Valid() && View() == old(View()).Fail(tc, code)
    {
      Emit(8, TcRef(tc) + Enc16(code));
    }

    /** `obsw_s1_dispatch_responder`. */
    method DispatchResponder(flags: bv8, tc: Tc)
      requires store.Valid()
      modifies this`msgCounter, store, store.slots
      ensures store.Valid()
      ensures View() == if flags & ACK_REJECT == 0 then old(View()) else old(View()).Reject(tc, RejectCode(flags))
    {
      if flags & ACK_REJECT == 0 {
        return;
      }
      var code;
      if flags & REJECT_GATED != 0 {
        code := FAIL_MODE_GATED;
      } else if flags & REJECT_SUBSVC != 0 {
        code := FAIL_ILLEGAL_SUBSVC;
      } else {
        code := FAIL_ILLEGAL_SVC;
      }
      AcceptFailure(tc, code);
    }
  }
}
