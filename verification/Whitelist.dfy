/** The TCs the spacecraft database allows in SAFE and STANDBY (`srdb/obsw_srdb/model.py`). */
module Whitelist {
  import opened Bytes
  import Fsm

  datatype Telecommand = Telecommand(service: u8, subservice: u8, safeAllowed: bool)

  /** What the database allows outside NOMINAL. */
  ghost predicate SafeAllowed(tcs: seq<Telecommand>, p: Fsm.Pair) {
    exists i :: 0 <= i < |tcs| && tcs[i].safeAllowed && Fsm.Pair(tcs[i].service, tcs[i].subservice) == p
  }

  ghost predicate NoDuplicates(pairs: seq<Fsm.Pair>) {
    forall i, j | 0 <= i < j < |pairs| :: pairs[i] != pairs[j]
  }

  ghost predicate Lists(pairs: seq<Fsm.Pair>, tcs: seq<Telecommand>) {
    forall p: Fsm.Pair :: p in pairs <==> SafeAllowed(tcs, p)
  }

  /** `safe_tc_whitelist`: exactly the allowed pairs, each once. */
  method SafeTcWhitelist(tcs: seq<Telecommand>) returns (pairs: seq<Fsm.Pair>)
    ensures NoDuplicates(pairs) && Lists(pairs, tcs)
  {
    pairs := [];
    for i := 0 to |tcs|
      invariant NoDuplicates(pairs) && Lists(pairs, tcs[..i])
    {
      var tc := tcs[i];
      var pair := Fsm.Pair(tc.service, tc.subservice);
      OneMore(tcs, i, pairs);
      if tc.safeAllowed && pair !in pairs {
        pairs := pairs + [pair];
      }
    }
    assert tcs[..|tcs|] == tcs;
  }

  lemma OneMore(tcs: seq<Telecommand>, i: nat, pairs: seq<Fsm.Pair>)
    requires i < |tcs| && Lists(pairs, tcs[..i])
    ensures var pair := Fsm.Pair(tcs[i].service, tcs[i].subservice);
      Lists(if tcs[i].safeAllowed && pair !in pairs then pairs + [pair] else pairs, tcs[..i + 1])
  {
    var pair := Fsm.Pair(tcs[i].service, tcs[i].subservice);
    var more := if tcs[i].safeAllowed && pair !in pairs then pairs + [pair] else pairs;
    forall p: Fsm.Pair ensures p in more <==> SafeAllowed(tcs[..i + 1], p) {
      AllowedNext(tcs, i, p);
      assert p in pairs <==> SafeAllowed(tcs[..i], p);
    }
  }

  lemma AllowedNext(tcs: seq<Telecommand>, i: nat, p: Fsm.Pair)
    requires i < |tcs|
    ensures SafeAllowed(tcs[..i + 1], p) <==>
      SafeAllowed(tcs[..i], p) || (tcs[i].safeAllowed && Fsm.Pair(tcs[i].service, tcs[i].subservice) == p)
  {
    if SafeAllowed(tcs[..i], p) {
      var j :| 0 <= j < i && tcs[..i][j].safeAllowed && Fsm.Pair(tcs[..i][j].service, tcs[..i][j].subservice) == p;
      assert tcs[..i + 1][j] == tcs[j];
    }
    if tcs[i].safeAllowed && Fsm.Pair(tcs[i].service, tcs[i].subservice) == p {
      assert tcs[..i + 1][i] == tcs[i];
    }
    if SafeAllowed(tcs[..i + 1], p) {
      var j :| 0 <= j < i + 1 && tcs[..i + 1][j].safeAllowed
               && Fsm.Pair(tcs[..i + 1][j].service, tcs[..i + 1][j].subservice) == p;
      assert j < i ==> tcs[..i][j] == tcs[j];
    }
  }

  /** With the generated whitelist, the gate lets through outside NOMINAL exactly what the database marks. */
  lemma GateIsDatabase(tcs: seq<Telecommand>, pairs: seq<Fsm.Pair>, mode: Fsm.Mode, service: u8, subservice: u8)
    requires Lists(pairs, tcs)
    ensures Fsm.Allowed(mode, pairs, service, subservice)
        <==> mode == Fsm.Nominal || SafeAllowed(tcs, Fsm.Pair(service, subservice))
  {
    assert Fsm.Pair(service, subservice) in pairs <==> SafeAllowed(tcs, Fsm.Pair(service, subservice));
  }
}
