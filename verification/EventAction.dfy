/** PUS service 19, event-action: `src/pus/s19.c`. */
module EventAction {
  import opened Bytes
  import TcPacket
  import Verification

  const ACTION_MAX_LEN := 64
  const QUEUE_LEN := 4

  type Verify = Verification.Reporter
  type Tc = Verification.Tc

  /** Definitions by event, the events waiting for dispatch, and the wrapping overflow counter. */
  datatype Actions = Actions(defs: map<u16, bytes>, enabled: bool, queue: seq<u16>, dropped: u16)

  /** `action_valid`: a complete PUS TC packet that fits and is not a service 19 TC. */
  predicate ActionValid(pkt: bytes) {
    |pkt| <= ACTION_MAX_LEN && TcPacket.Check(pkt).Some? && TcPacket.Check(pkt).value != 19
  }

  ghost predicate AllValid(defs: map<u16, bytes>) {
    forall e: u16 | e in defs :: ActionValid(defs[e])
  }

  function Add(cap: nat, a: Actions, v: Verify, tc: Tc): (Actions, Verify, bool) {
    var u := tc.userData;
    if |u| < 2 || !ActionValid(u[2..]) then (a, v.Reject(tc, Verification.FAIL_ILLEGAL_APP_DATA), false)
    else if Be16(u) !in a.defs && |a.defs| >= cap then (a, v.Reject(tc, Verification.FAIL_EXEC_ERROR), false)
    else (a.(defs := a.defs[Be16(u) := u[2..]]), v.Accept(tc).Complete(tc), true)
  }

  function Delete(a: Actions, v: Verify, tc: Tc): (Actions, Verify, bool) {
    var u := tc.userData;
    if |u| < 2 || Be16(u) !in a.defs then (a, v.Reject(tc, Verification.FAIL_ILLEGAL_APP_DATA), false)
    else (a.(defs := a.defs - {Be16(u)}), v.Accept(tc).Complete(tc), true)
  }

  function DeleteAll(a: Actions, v: Verify, tc: Tc): (Actions, Verify, bool) {
    (a.(defs := map[]), v.Accept(tc).Complete(tc), true)
  }

  function Enable(a: Actions, v: Verify, tc: Tc): (Actions, Verify, bool) {
    (a.(enabled := true), v.Accept(tc).Complete(tc), true)
  }

  /** Disabling keeps the definitions and drops what was queued. */
  function Disable(a: Actions, v: Verify, tc: Tc): (Actions, Verify, bool) {
    (a.(enabled := false, queue := []), v.Accept(tc).Complete(tc), true)
  }

  /** The service 5 hook: queue a defined event while enabled; count it if the queue is full. */
  function OnEvent(a: Actions, event: u16): Actions {
    if !a.enabled || event !in a.defs then a
    else if |a.queue| >= QUEUE_LEN then a.(dropped := Next16(a.dropped))
    else a.(queue := a.queue + [event])
  }
}
