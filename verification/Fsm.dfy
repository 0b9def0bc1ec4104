/** The satellite mode machine and its TC gate: `src/fdir/fsm.c`. */
module Fsm {
  import opened Bytes

  datatype Mode = Nominal | Safe | Standby

  /** A (service, subservice) pair of the SAFE/STANDBY whitelist. */
  datatype Pair = Pair(service: u8, subservice: u8)

  datatype State = State(mode: Mode, safeEntries: u32) {
    function ToStandby(): State {
      this.(mode := Standby)
    }

    /** Entering SAFE is counted; being in SAFE already is not. */
    function ToSafe(): State {
      if mode == Safe then this else State(Safe, (safeEntries + 1) % U32)
    }

    function ToNominal(): State {
      this.(mode := Nominal)
    }
  }

  /** TCs the gate lets through. */
  predicate Allowed(mode: Mode, whitelist: seq<Pair>, service: u8, subservice: u8) {
    mode == Nominal || Pair(service, subservice) in whitelist
  }

  class Fsm {
    var mode: Mode
    var safeEntries: u32
    const whitelist: seq<Pair>

    ghost function View(): State
      reads this
    {
      State(mode, safeEntries)
    }

    /** `obsw_fsm_init`. */
    constructor (whitelist: seq<Pair>)
      ensures View() == State(Standby, 0) && this.whitelist == whitelist
    {
      mode, safeEntries, this.whitelist := Standby, 0, whitelist;
    }

    /** `obsw_fsm_to_standby`. */
    method ToStandby()
      modifies this
      ensures View() == old(View()).ToStandby()
    {
      if mode == Standby {
        return;
      }
      mode := Standby;
    }

    /** `obsw_fsm_to_safe`. */
    method ToSafe()
      modifies this
      ensures View() == old(View()).ToSafe()
    {
      if mode == Safe {
        return;
      }
      mode := Safe;
      safeEntries := (safeEntries + 1) % U32;
    }

    /** `obsw_fsm_to_nominal`. */
    method ToNominal()
      modifies this
      ensures View() == old(View()).ToNominal()
    {
      if mode == Nominal {
        return;
      }
      mode := Nominal;
    }

    /** `obsw_fsm_tc_allowed`, consulted by the dispatcher through `obsw_fsm_tc_gate`. */
    method TcAllowed(service: u8, subservice: u8) returns (ok: bool)
      ensures ok == Allowed(mode, whitelist, service, subservice)
    {
      if mode == Nominal {
        return true;
      }
      for i := 0 to |whitelist|
        invariant Pair(service, subservice) !in whitelist[..i]
      {
        if whitelist[i].service == service && whitelist[i].subservice == subservice {
          assert whitelist[i] == Pair(service, subservice);
          return true;
        }
      }
      return false;
    }
  }
}
