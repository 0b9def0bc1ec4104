/** The definition table of `src/pus/s12.c`, proved against `Monitoring`. */
module MonitoringService {
  import opened Bytes
  import opened Monitoring
  import Events
  import Parameters
  import Verification

  class S12 {
    const s1: Verification.S1
    const s5: Events.S5
    const params: array<Parameters.Entry>
    const defs: array<Def>
    var count: nat
    var enabled: bool
    /** The machine's conversion from integer to float. */
    const convert: (Parameters.Kind, u32) -> u32

    ghost predicate Intact()
      reads this, defs
    {
      count <= defs.Length <= 255 && Sound(View())
    }

    ghost predicate Valid()
      reads this, defs, s1, s1.store, s1.store.slots
    {
      s1.store.Valid() && Intact()
    }

    ghost function View(): Monitor
      requires count <= defs.Length
      reads this, defs
    {
      Monitor(defs[..count], enabled)
    }

    /** `obsw_s12_init`. */
    constructor (s1: Verification.S1, s5: Events.S5, params: array<Parameters.Entry>, defs: array<Def>,
                 convert: (Parameters.Kind, u32) -> u32)
      requires s1.store.Valid() && defs.Length <= 255
      ensures Valid() && View() == Monitor([], true)
      ensures this.s1 == s1 && this.s5 == s5 && this.params == params && this.defs == defs && this.convert == convert
    {
      this.s1, this.s5, this.params, this.defs, this.convert := s1, s5, params, defs, convert;
      count, enabled := 0, true;
    }

    /** `find_def`: the position of a parameter's definition, or the count. */
    method FindDef(id: u16) returns (k: nat)
      requires count <= defs.Length
      ensures k == Position(defs[..count], id)
    {
      k := 0;
      while k < count && defs[k].paramId != id
        invariant k <= count && forall i | 0 <= i < k :: defs[i].paramId != id
      {
        k := k + 1;
      }
      PositionIs(defs[..count], id, k);
    }

    /** The loop of TC(12,1). */
    method ClearLatches()
      requires count <= defs.Length
      modifies defs
      ensures defs[..count] == Cleared(old(defs[..count]))
    {
      for i := 0 to count
        invariant forall j | 0 <= j < i :: defs[j] == old(defs[j]).(inLow := false, inHigh := false)
        invariant forall j | i <= j < count :: defs[j] == old(defs[j])
      {
        defs[i] := defs[i].(inLow := false, inHigh := false);
      }
    }

    /** `obsw_s12_enable`, TC(12,1): every latch is cleared. */
    method Enable(tc: Tc) returns (rc: int)
      requires Valid()
      modifies this`enabled, defs, s1, s1.store, s1.store.slots
      ensures Valid()
      ensures (View(), s1.View(), rc == 0) == Monitoring.Enable(old(View()), old(s1.View()), tc)
    {
      s1.AcceptSuccess(tc);
      ClearLatches();
      enabled := true;
      s1.CompletionSuccess(tc);
      return 0;
    }

    /** `obsw_s12_disable`, TC(12,2). */
    method Disable(tc: Tc) returns (rc: int)
      requires Valid()
      modifies this`enabled, s1, s1.store, s1.store.slots
      ensures Valid()
      ensures (View(), s1.View(), rc == 0) == Monitoring.Disable(old(View()), old(s1.View()), tc)
    {
      s1.AcceptSuccess(tc);
      enabled := false;
      s1.CompletionSuccess(tc);
      return 0;
    }

    /** The validation part of TC(12,3). */
    method AddCheck(u: bytes) returns (ok: bool)
      ensures ok <==> AddWellFormed(params[..], u)
    {
      if |u| < ADD_LEN {
        return false;
      }
      var p := Parameters.FindEntry(params, Be16(u));
      var low, high := Be32(u[2..]), Be32(u[6..]);
      return p < params.Length && 1 <= u[14] <= 4
        && !(!Parameters.IsNan(low) && !Parameters.IsNan(high) && Parameters.Less(high, low));
    }

    /** The table part of TC(12,3): replace the parameter's definition or append one. */
    method Put(k: nat, d: Def)
      requires Valid() && k == Position(defs[..count], d.paramId) && k < defs.Length
      requires d.LimitsOrdered() && !d.inLow && !d.inHigh
      modifies this`count, defs
      ensures Valid()
      ensures var t := old(View()).defs;
        View() == old(View()).(defs := if k == |t| then t + [d] else t[k := d])
    {
      ghost var t := defs[..count];
      if k == count {
        count := count + 1;
      }
      defs[k] := d;
      assert defs[..count] == if k == |t| then t + [d] else t[k := d];
    }

    /** `obsw_s12_add`, TC(12,3). */
    method Add(tc: Tc) returns (rc: int)
      requires Valid()
      modifies this`count, defs, s1, s1.store, s1.store.slots
      ensures Valid()
      ensures (View(), s1.View(), rc == 0)
           == Monitoring.Add(defs.Length, params[..], old(View()), old(s1.View()), tc)
    {
      hide Verification.Reporter.Report, Verification.TcRef, Parameters.Has;
      var u := tc.userData;
      var ok := AddCheck(u);
      if !ok {
        s1.AcceptFailure(tc, Verification.FAIL_ILLEGAL_APP_DATA);
        return -1;
      }
      var k := FindDef(Be16(u));
      if k == count && count >= defs.Length {
        s1.AcceptFailure(tc, Verification.FAIL_EXEC_ERROR);
        return -1;
      }
      s1.AcceptSuccess(tc);
      Put(k, Described(u));
      s1.CompletionSuccess(tc);
      return 0;
    }

    /** Keep the table packed: the last definition moves into the hole. */
    method RemoveAt(k: nat)
      requires Valid() && k < count
      modifies this`count, defs
      ensures Valid() && View() == old(View()).(defs := SwapRemove(old(View()).defs, k))
    {
      ghost var t := defs[..count];
      count := count - 1;
      defs[k] := defs[count];
      assert defs[..count] == SwapRemove(t, k);
      SwapKeeps(t, k, enabled);
    }

    /** `obsw_s12_delete`, TC(12,4). */
    method Delete(tc: Tc) returns (rc: int)
      requires Valid()
      modifies this`count, defs, s1, s1.store, s1.store.slots
      ensures Valid()
      ensures (View(), s1.View(), rc == 0) == Monitoring.Delete(old(View()), old(s1.View()), tc)
    {
      var u := tc.userData;
      if |u| < DELETE_LEN {
        s1.AcceptFailure(tc, Verification.FAIL_ILLEGAL_APP_DATA);
        return -1;
      }
      var k := FindDef(Be16(u));
      if k == count {
        s1.AcceptFailure(tc, Verification.FAIL_ILLEGAL_APP_DATA);
        return -1;
      }
      s1.AcceptSuccess(tc);
      RemoveAt(k);
      s1.CompletionSuccess(tc);
      return 0;
    }

    /** `obsw_s12_delete_all`, TC(12,5). */
    method DeleteAll(tc: Tc) returns (rc: int)
      requires Valid()
      modifies this`count, s1, s1.store, s1.store.slots
      ensures Valid()
      ensures (View(), s1.View(), rc == 0) == Monitoring.DeleteAll(old(View()), old(s1.View()), tc)
    {
      s1.AcceptSuccess(tc);
      count := 0;
      s1.CompletionSuccess(tc);
      return 0;
    }

    /** What the checks read: each known parameter's current value as a float. */
    ghost function Readings(): Monitoring.Readings
      reads params
    {
      ReadingsOf(params[..], convert)
    }

    /** The low-side block of `obsw_s12_check`. */
    method CheckLow(i: nat, v: u32)
      requires s5.Valid() && i < defs.Length
      modifies defs, s5`msgCounter, s5.store, s5.store.slots, s5.fsm, s5.s19`queued, s5.s19`dropped, s5.s19.queue
      ensures s5.Valid()
      ensures var d := old(defs[i]);
        && defs[..] == old(defs[..])[i := d.(inLow := d.BelowLow(v))]
        && s5.View() == RaiseIf(d.BelowLow(v) && !d.inLow, old(s5.View()), s5.triggers, d, d.eventLow, v)
    {
      var d := defs[i];
      if Parameters.Less(v, d.low) {
        if !d.inLow {
          defs[i] := d.(inLow := true);
          var _ := s5.Report(d.severity, d.eventLow, Enc32(v));
        }
      } else {
        defs[i] := d.(inLow := false);
      }
    }

    /** The high-side block of `obsw_s12_check`. */
    method CheckHigh(i: nat, v: u32)
      requires s5.Valid() && i < defs.Length
      modifies defs, s5`msgCounter, s5.store, s5.store.slots, s5.fsm, s5.s19`queued, s5.s19`dropped, s5.s19.queue
      ensures s5.Valid()
      ensures var d := old(defs[i]);
        && defs[..] == old(defs[..])[i := d.(inHigh := d.AboveHigh(v))]
        && s5.View() == RaiseIf(d.AboveHigh(v) && !d.inHigh, old(s5.View()), s5.triggers, d, d.eventHigh, v)
    {
      var d := defs[i];
      if Parameters.Less(d.high, v) {
        if !d.inHigh {
          defs[i] := d.(inHigh := true);
          var _ := s5.Report(d.severity, d.eventHigh, Enc32(v));
        }
      } else {
        defs[i] := d.(inHigh := false);
      }
    }

    /** The loop body of `obsw_s12_check`: low side, then high side. */
    method CheckOne(i: nat)
      requires s5.Valid() && i < count <= defs.Length
      modifies defs, s5`msgCounter, s5.store, s5.store.slots, s5.fsm, s5.s19`queued, s5.s19`dropped, s5.s19.queue
      ensures s5.Valid()
      ensures (defs[..], s5.View()) ==
        match Readings()(old(defs[i]).paramId)
        case None => (old(defs[..]), old(s5.View()))
        case Some(v) => (old(defs[..])[i := Latched(old(defs[i]), v)],
                         Raised(old(s5.View()), s5.triggers, old(defs[i]), v))
    {
      var p := Parameters.FindEntry(params, defs[i].paramId);
      if p == params.Length {
        return;
      }
      var v := Parameters.AsFloat(params[p], convert);
      ghost var t := defs[..];
      CheckLow(i, v);
      CheckHigh(i, v);
      assert defs[..] == t[i := Latched(t[i], v)];
    }

    /** `obsw_s12_check`. */
    method Check()
      requires Valid() && s5.Valid() && s5.store == s1.store
      modifies defs, s5`msgCounter, s5.store, s5.store.slots, s5.fsm, s5.s19`queued, s5.s19`dropped, s5.s19.queue
      ensures Valid() && s5.Valid()
      ensures (View(), s5.View()) == Monitoring.Check(old(View()), old(s5.View()), s5.triggers, Readings())
    {
      if !enabled {
        return;
      }
      ghost var t, b, r := defs[..count], s5.View(), Readings();
      CheckSound(View(), b, s5.triggers, r);
      for i := 0 to count
        invariant s5.Valid() && (defs[..count], s5.View()) == CheckUpTo(t, b, s5.triggers, r, i)
      {
        CheckNext(t, b, s5.triggers, r, i);
        ghost var all := defs[..];
        CheckOne(i);
        PrefixUpdate(all, count, i, defs[i]);
      }
    }
  }

  lemma PrefixUpdate(t: seq<Def>, n: nat, i: nat, d: Def)
    requires i < n <= |t|
    ensures t[i := d][..n] == t[..n][i := d]
  {
  }

  lemma SwapKeeps(t: seq<Def>, k: nat, enabled: bool)
    requires k < |t| && Sound(Monitor(t, enabled))
    ensures Sound(Monitor(SwapRemove(t, k), enabled))
  {
    var r, n := SwapRemove(t, k), |t| - 1;
    assert forall i | 0 <= i < n :: r[i] == if i == k then t[n] else t[i];
  }
}
