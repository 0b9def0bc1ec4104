/** PUS service 3, housekeeping: the set table and parameter pool of `src/pus/s3.c`. */
module Housekeeping {
  import opened Bytes
  import opened HkModel
  import HkPool
  import PusTm
  import TmPacket
  import Verification

  class S3 {
    const s1: Verification.S1
    const apid: u16
    var msgCounter: u16
    var timestamp: u32
    const sets: array<HkPool.Entry>
    var setCount: nat
    /** Parameter arrays of the boot-time sets. */
    var boot: seq<seq<Param>>
    const pool: array?<Param>
    var poolUsed: nat
    /** The identifiers of the S20 parameter table. */
    const ids: seq<u16>

    /** The boot-time table: every set points at its own array, the pool is unused. */
    constructor (s1: Verification.S1, apid: u16, sets: array<HkPool.Entry>, setCount: nat,
                 boot: seq<seq<Param>>, pool: array?<Param>, ids: seq<u16>)
      requires s1.store.Valid() && setCount <= sets.Length <= 255 && (pool != null ==> pool.Length < U16)
      requires forall i | 0 <= i < setCount ::
        sets[i].params.Boot? && sets[i].params.arr < |boot| && |boot[sets[i].params.arr]| == sets[i].count
      requires forall i, j | 0 <= i < j < setCount :: sets[i].setId != sets[j].setId
      ensures Valid() && this.s1 == s1 && this.sets == sets && this.pool == pool
      ensures View().sets == HkPool.View(sets[..setCount], boot, []) && msgCounter == 0
    {
      this.s1, this.apid, this.sets, this.setCount := s1, apid, sets, setCount;
      this.boot, this.pool, this.ids := boot, pool, ids;
      msgCounter, timestamp, poolUsed := 0, 0, 0;
      new;
      BootExtent(Entries());
      assert forall i | 0 <= i < setCount :: HkPool.Placed(Entries(), boot, i);
    }

    ghost function Cells(): seq<Param>
      reads this, pool
    {
      if pool == null then [] else pool[..]
    }

    ghost function Entries(): seq<HkPool.Entry>
      requires setCount <= sets.Length
      reads this, sets
    {
      sets[..setCount]
    }

    ghost function Config(): HkModel.Config {
      HkModel.Config(sets.Length, if pool == null then None else Some(pool.Length), ids)
    }

    /** The pool is tiled by the defined sets in table order, and identifiers are distinct. */
    ghost predicate Intact()
      reads this, sets, pool
    {
      && setCount <= sets.Length <= 255 && poolUsed <= |Cells()| < U16
      && HkPool.Tiled(Entries(), boot, poolUsed)
      && DistinctIds(HkPool.View(Entries(), boot, Cells()))
    }

    ghost predicate Valid()
      reads this, sets, pool, s1, s1.store, s1.store.slots
    {
      s1.store.Valid() && Intact()
    }

    ghost function View(): Hk
      requires setCount <= sets.Length
      reads this, sets, pool
    {
      Hk(HkPool.View(Entries(), boot, Cells()), apid, msgCounter, timestamp)
    }

    /** `find_set`: the table index, or the count where the C returns NULL. */
    method FindSet(id: u8) returns (k: nat)
      requires Valid()
      ensures k == Position(View().sets, id)
    {
      k := 0;
      ghost var v := View().sets;
      while k < setCount && sets[k].setId != id
        invariant k <= setCount
        invariant forall i | 0 <= i < k :: v[i].setId != id
      {
        k := k + 1;
      }
      PositionIs(v, id, k);
    }

    /** `find_param`. */
    method FindParam(id: u16) returns (r: Option<nat>)
      ensures r == Find(ids, id)
    {
      var i := 0;
      while i < |ids| && ids[i] != id
        invariant i <= |ids| && id !in ids[..i]
      {
        i := i + 1;
      }
      FindIs(ids, id, i);
      r := if i < |ids| then Some(i) else None;
    }

    /** `pool_offset`: the pool cell a set's pointer equals, or -1 for a boot-time set. */
    method PoolOffset(e: HkPool.Entry) returns (o: int)
      ensures o == if e.params.Pool? && e.params.offset < poolUsed then e.params.offset else -1
    {
      o := -1;
      var k := 0;
      while k < poolUsed
        invariant k <= poolUsed && !(e.params.Pool? && e.params.offset < k)
      {
        if HkPool.Pool(k) == e.params {
          return k;
        }
        k := k + 1;
      }
    }

    /** The parameter check of TC(3,1). */
    method AllKnown(wanted: seq<u16>) returns (ok: bool)
      ensures ok <==> forall i | 0 <= i < |wanted| :: wanted[i] in ids
    {
      for i := 0 to |wanted|
        invariant forall j | 0 <= j < i :: wanted[j] in ids
      {
        var found := FindParam(wanted[i]);
        if found.None? {
          return false;
        }
      }
      return true;
    }

    /** The pool part of TC(3,1): one full-width cell per requested parameter, from poolUsed up. */
    method FillPool(wanted: seq<u16>)
      requires pool != null && poolUsed + |wanted| <= pool.Length
      requires forall i | 0 <= i < |wanted| :: wanted[i] in ids
      modifies pool
      ensures pool[..poolUsed] == old(pool[..poolUsed])
      ensures pool[poolUsed..poolUsed + |wanted|] == NewParams(Config(), wanted)
    {
      for i := 0 to |wanted|
        invariant pool[..poolUsed] == old(pool[..poolUsed])
        invariant forall j | 0 <= j < i :: pool[poolUsed + j] == NewParams(Config(), wanted)[j]
      {
        var found := FindParam(wanted[i]);
        pool[poolUsed + i] := Param(Table(found.value), 4);
      }
    }

    /** The last part of TC(3,1): the new set takes the next slot and the cells just filled. */
    method AppendSet(id: u8, n: u8, interval: u32)
      requires setCount < sets.Length <= 255 && pool != null && pool.Length < U16
      requires n > 0 && poolUsed + n <= pool.Length && HkPool.Tiled(Entries(), boot, poolUsed)
      modifies this`setCount, this`poolUsed, sets
      ensures setCount <= sets.Length && poolUsed <= pool.Length
      ensures HkPool.Tiled(Entries(), boot, poolUsed)
      ensures View() == old(View()).(sets := old(View()).sets + [
        HkSet(id, true, pool[old(poolUsed)..old(poolUsed) + n], interval, interval, false)])
    {
      ghost var entries := Entries();
      var e := HkPool.Entry(id, HkPool.Pool(poolUsed), n, interval, interval, false);
      HkPool.AppendedView(entries, boot, pool[..], poolUsed, e);
      poolUsed := poolUsed + n;
      sets[setCount] := e;
      setCount := setCount + 1;
      assert Entries() == entries + [e];
    }

    /** The validation part of TC(3,1). */
    method DefineCheck(u: bytes) returns (ok: bool)
      requires Valid()
      ensures ok <==> DefineWellFormed(Config(), View().sets, u)
    {
      if |u| < 6 {
        return false;
      }
      var n := u[5];
      var taken := FindSet(u[0]);
      if n == 0 || |u| != 6 + 2 * n as int || taken < setCount || 1 + 4 * n as int > MAX_REPORT_DATA {
        return false;
      }
      ok := AllKnown(RequestedIds(u));
    }

    /** The effect of an accepted TC(3,1). */
    method Install(u: bytes)
      requires Valid() && DefineWellFormed(Config(), View().sets, u) && DefineFits(Config(), View().sets, u[5])
      requires poolUsed == HkModel.Cells(View().sets)
      modifies this`setCount, this`poolUsed, sets, pool
      ensures Valid()
      ensures View() == old(View()).(sets := old(View()).sets + [NewSet(Config(), old(View()).sets, u)])
    {
      ghost var cells := Cells();
      FillPool(RequestedIds(u));
      HkPool.SameView(Entries(), boot, cells, Cells(), poolUsed);
      AppendSet(u[0], u[5], Be32(u[1..]));
    }

    /** `obsw_s3_define`, TC(3,1). */
    method Define(tc: Verification.Tc) returns (rc: int)
      requires Valid()
      modifies this, sets, pool, s1, s1.store, s1.store.slots
      ensures Valid() && boot == old(boot)
      ensures (View(), s1.View(), rc == 0) == HkModel.Define(Config(), old(View()), old(s1.View()), tc)
    {
      hide HkPool.View, HkPool.Tiled, DistinctIds, NewSet, Verification.Reporter.Report, Verification.TcRef;
      UsedIsCells();
      var u := tc.userData;
      var ok := DefineCheck(u);
      if !ok {
        s1.AcceptFailure(tc, Verification.FAIL_ILLEGAL_APP_DATA);
        return -1;
      }
      if pool == null || setCount >= sets.Length || pool.Length - poolUsed < u[5] {
        s1.AcceptFailure(tc, Verification.FAIL_EXEC_ERROR);
        return -1;
      }
      s1.AcceptSuccess(tc);
      Install(u);
      s1.CompletionSuccess(tc);
      return 0;
    }

    /** The free cells the C computes are those the list of sets leaves over. */
    lemma UsedIsCells()
      requires Valid()
      ensures poolUsed == HkModel.Cells(View().sets)
    {
      HkPool.PlacesFit(Entries(), boot, poolUsed);
      HkPool.ExtentIsCells(Entries(), boot, Cells());
    }

    /** First loop of `remove_defined`. */
    method LowerPointers(k: nat, end: nat, n: nat)
      requires Valid() && k < setCount && n <= end
      requires forall i | 0 <= i < setCount :: sets[i].params.Pool? ==> sets[i].params.offset < poolUsed
      modifies sets
      ensures forall j | 0 <= j < setCount ::
        sets[j] == if j == k then old(sets[j]) else Moved(old(sets[j]), end, n)
    {
      ghost var t := Entries();
      for i := 0 to setCount
        invariant forall j | 0 <= j < i :: sets[j] == if j == k then t[j] else Moved(t[j], end, n)
        invariant forall j | i <= j < setCount :: sets[j] == t[j]
      {
        var o := -1;
        if i != k {
          o := PoolOffset(sets[i]);
        }
        if o >= end {
          sets[i] := sets[i].(params := HkPool.Pool(o - n));
        }
      }
    }

    /** Second loop of `remove_defined`. */
    method SlidePool(off: nat, n: nat)
      requires n > 0 && off + n <= poolUsed <= |Cells()|
      modifies this`poolUsed, pool
      ensures poolUsed == old(poolUsed) - n && |Cells()| == |old(Cells())|
      ensures HkPool.Slid(old(Cells()), Cells(), off, n, old(poolUsed))
    {
      ghost var cells := Cells();
      var end := off + n;
      for c := end to poolUsed
        modifies pool
        invariant pool[..off] == cells[..off]
        invariant forall j | off <= j < c - n :: pool[j] == cells[j + n]
        invariant forall j | c <= j < pool.Length :: pool[j] == cells[j]
      {
        pool[c - n] := pool[c];
      }
      SlidDone(cells, Cells(), off, n, poolUsed);
      poolUsed := poolUsed - n;
    }

    /** Third loop of `remove_defined`: the remaining sets keep their order. */
    method CloseSlot(k: nat)
      requires k < setCount <= sets.Length
      modifies this`setCount, sets
      ensures setCount == old(setCount) - 1
      ensures forall j | 0 <= j < setCount :: sets[j] == old(sets[if j < k then j else j + 1])
    {
      for i := k to setCount - 1
        modifies sets
        invariant forall j | 0 <= j < i :: sets[j] == old(sets[if j < k then j else j + 1])
        invariant forall j | i < j < setCount :: sets[j] == old(sets[j])
      {
        sets[i] := sets[i + 1];
      }
      setCount := setCount - 1;
    }

    /** `remove_defined`: close the gap of the defined set at k in the pool and in the table. */
    method RemoveDefined(k: nat)
      requires Valid() && k < setCount && sets[k].params.Pool?
      modifies this`setCount, this`poolUsed, sets, pool
      ensures Valid()
      ensures View() == old(View()).(sets := old(View()).sets[..k] + old(View()).sets[k + 1..])
    {
      hide HkPool.Tiled, HkPool.View, DistinctIds, HkPool.Slid;
      ghost var t, cells, used := Entries(), Cells(), poolUsed;
      HkPool.PlacesFit(t, boot, used);
      CloseGap(k);
      ghost var r := Entries();
      assert |r| == |t| - 1;
      RemovalRefines(t, r, boot, cells, Cells(), used, k);
    }

    /** The three loops of `remove_defined`. */
    method CloseGap(k: nat)
      requires Valid() && k < setCount && sets[k].params.Pool?
      requires forall i | 0 <= i < setCount ::
        sets[i].params.Pool? ==> sets[i].params.offset + sets[i].count <= poolUsed && sets[i].count > 0
      modifies this`setCount, this`poolUsed, sets, pool
      ensures setCount == old(setCount) - 1 && poolUsed == old(poolUsed - sets[k].count)
      ensures forall j | 0 <= j < setCount ::
        sets[j] == Moved(old(sets[if j < k then j else j + 1]), old(sets[k].params.offset + sets[k].count),
                         old(sets[k].count))
      ensures HkPool.Slid(old(Cells()), Cells(), old(sets[k].params.offset), old(sets[k].count), old(poolUsed))
      ensures |Cells()| == old(|Cells()|)
    {
      hide HkPool.Tiled, HkPool.View, DistinctIds, HkPool.Slid;
      var off := PoolOffset(sets[k]);
      var n := sets[k].count;
      LowerPointers(k, off + n, n);
      SlidePool(off, n);
      CloseSlot(k);
    }

    /** The check of one identifier of TC(3,3). */
    method CanDelete(id: u8) returns (ok: bool)
      requires Valid()
      ensures ok <==> Deletable(View().sets, id)
    {
      ghost var v := View().sets;
      HkPool.PlacesFit(Entries(), boot, poolUsed);
      var k := FindSet(id);
      if k == setCount || sets[k].enabled {
        NotDeletable(v, id);
        return false;
      }
      var o := PoolOffset(sets[k]);
      if o < 0 {
        NotDeletable(v, id);
        return false;
      }
      assert v[k].setId == id && v[k].defined && !v[k].enabled;
      return true;
    }

    /** The validation loop of TC(3,3): every set is checked before any is deleted. */
    method DeleteCheck(u: bytes) returns (ok: bool)
      requires Valid()
      ensures ok <==> DeleteWellFormed(Config(), View().sets, u)
    {
      var n := if |u| >= 1 then u[0] else 0;
      if n == 0 || pool == null || |u| != 1 + n as int {
        return false;
      }
      ok := ListCheck(u[1..]);
      DeletableList(View().sets, u);
    }

    /** The check of each listed set: it may be deleted and is not listed before. */
    method ListCheck(list: bytes) returns (ok: bool)
      requires Valid()
      ensures ok <==> NoRepeats(list) && AllDeletable(View().sets, list)
    {
      hide HkPool.View, HkPool.Tiled, DistinctIds, Deletable;
      for i := 0 to |list|
        invariant NoRepeats(list[..i]) && AllDeletable(View().sets, list[..i])
      {
        ok := CanDelete(list[i]);
        if !ok {
          return;
        }
        var again := Repeats(list, i);
        if again {
          return false;
        }
      }
      assert list[..|list|] == list;
      return true;
    }

    static method Repeats(list: bytes, i: nat) returns (r: bool)
      requires i < |list|
      ensures r <==> list[i] in list[..i]
    {
      for j := 0 to i
        invariant list[i] !in list[..j]
      {
        if list[j] == list[i] {
          return true;
        }
      }
      return false;
    }

    method DeleteOne(id: u8)
      requires Valid()
      requires var v, k := View().sets, Position(View().sets, id); k < |v| && v[k].defined
      modifies this`setCount, this`poolUsed, sets, pool
      ensures Valid()
      ensures var v, k := old(View()), Position(old(View()).sets, id);
        View() == v.(sets := v.sets[..k] + v.sets[k + 1..])
    {
      hide HkPool.Tiled, DistinctIds;
      var k := FindSet(id);
      RemoveDefined(k);
    }

    /** The deleting loop of TC(3,3). */
    method DeleteAll(list: bytes)
      requires Valid() && NoRepeats(list) && AllDeletable(View().sets, list)
      modifies this`setCount, this`poolUsed, sets, pool
      ensures Valid()
      ensures View() == old(View()).(sets := Without(old(View()).sets, Listed(list)))
    {
      hide HkPool.Tiled, HkPool.View, DistinctIds, AllDeletable, Without, Listed;
      ghost var v := View();
      NothingListed();
      WithoutNone(v.sets, {});
      for i := 0 to |list|
        invariant Valid() && View() == v.(sets := Without(v.sets, Listed(list[..i])))
      {
        DeleteStep(v.sets, list, i);
        DeleteOne(list[i]);
      }
      assert list[..|list|] == list;
    }

    /** `obsw_s3_delete`, TC(3,3). */
    method Delete(tc: Verification.Tc) returns (rc: int)
      requires Valid()
      modifies this, sets, pool, s1, s1.store, s1.store.slots
      ensures Valid() && boot == old(boot)
      ensures (View(), s1.View(), rc == 0) == HkModel.Delete(Config(), old(View()), old(s1.View()), tc)
    {
      var u := tc.userData;
      var ok := DeleteCheck(u);
      if !ok {
        s1.AcceptFailure(tc, Verification.FAIL_ILLEGAL_APP_DATA);
        return -1;
      }
      s1.AcceptSuccess(tc);
      DeleteAll(u[1..]);
      s1.CompletionSuccess(tc);
      return 0;
    }

    /** A change of one set's timing. */
    method Retime(k: nat, e: HkPool.Entry)
      requires Valid() && k < setCount
      requires e == sets[k].(interval := e.interval, countdown := e.countdown, enabled := e.enabled)
      modifies sets
      ensures Valid()
      ensures var v := old(View()); View() == v.(sets :=
        v.sets[k := v.sets[k].(interval := e.interval, countdown := e.countdown, enabled := e.enabled)])
    {
      HkPool.RetimedView(Entries(), boot, Cells(), poolUsed, k, e);
      ghost var entries := Entries();
      sets[k] := e;
      assert Entries() == entries[k := e];
    }

    /** `obsw_s3_enable`, TC(3,5). */
    method Enable(tc: Verification.Tc) returns (rc: int)
      requires Valid()
      modifies this, sets, pool, s1, s1.store, s1.store.slots
      ensures Valid() && boot == old(boot)
      ensures (View(), s1.View(), rc == 0) == HkModel.Enable(old(View()), old(s1.View()), tc)
    {
      hide HkPool.View, HkPool.Tiled, DistinctIds, Verification.Reporter.Report, Verification.TcRef;
      var u := tc.userData;
      if |u| < 5 {
        s1.AcceptFailure(tc, Verification.FAIL_ILLEGAL_APP_DATA);
        return -1;
      }
      var interval := Be32(u[1..]);
      var k := FindSet(u[0]);
      if k == setCount {
        s1.AcceptFailure(tc, Verification.FAIL_EXEC_ERROR);
        return -1;
      }
      s1.AcceptSuccess(tc);
      Retime(k, sets[k].(interval := interval, countdown := interval, enabled := true));
      s1.CompletionSuccess(tc);
      return 0;
    }

    /** `obsw_s3_disable`, TC(3,6). */
    method Disable(tc: Verification.Tc) returns (rc: int)
      requires Valid()
      modifies this, sets, pool, s1, s1.store, s1.store.slots
      ensures Valid() && boot == old(boot)
      ensures (View(), s1.View(), rc == 0) == HkModel.Disable(old(View()), old(s1.View()), tc)
    {
      hide HkPool.Tiled, DistinctIds, Verification.Reporter.Report, Verification.TcRef;
      var u := tc.userData;
      if |u| < 1 {
        s1.AcceptFailure(tc, Verification.FAIL_ILLEGAL_APP_DATA);
        return -1;
      }
      var k := FindSet(u[0]);
      if k == setCount {
        s1.AcceptFailure(tc, Verification.FAIL_EXEC_ERROR);
        return -1;
      }
      s1.AcceptSuccess(tc);
      Retime(k, sets[k].(enabled := false));
      s1.CompletionSuccess(tc);
      return 0;
    }

    /** `put_be`. */
    method PutBe(buf: array<u8>, off: nat, v: u32, n: Size)
      requires off + n <= buf.Length && v < Pow256(n)
      modifies buf
      ensures buf[..off + n] == old(buf[..off]) + Octets(v, n)
    {
      for i := 0 to n
        invariant buf[..off + i] == old(buf[..off]) + Octets(v / Pow256(n - i), i)
      {
        buf[off + i] := v / Pow256(n - 1 - i) % 0x100;
        NextOctet(v, n - 1 - i);
        assert buf[..off + i + 1] == buf[..off + i] + [buf[off + i]];
      }
    }

    /** A parameter's variable, read at the parameter's width. */
    method PutParam(buf: array<u8>, off: nat, p: Param, m: Memory)
      requires off + p.size <= buf.Length
      modifies buf
      ensures buf[..off + p.size] == old(buf[..off]) + Octets(m(p.src), p.size)
    {
      LowOctets(m(p.src), p.size);
      PutBe(buf, off, m(p.src) % Pow256(p.size), p.size);
    }

    /** `serialise_set`: the number of octets written, or 0 where they do not fit. */
    method SerialiseSet(ps: seq<Param>, m: Memory, buf: array<u8>, start: nat) returns (len: nat)
      requires start <= buf.Length
      modifies buf
      ensures |Serialise(ps, m)| <= buf.Length - start ==>
        len == |Serialise(ps, m)| && buf[..start + len] == old(buf[..start]) + Serialise(ps, m)
      ensures |Serialise(ps, m)| > buf.Length - start ==> len == 0 && ps != []
    {
      hide Octets, Serialise;
      len := 0;
      SerialiseNothing(m);
      assert ps[..0] == [];
      for i := 0 to |ps|
        invariant len == |Serialise(ps[..i], m)| && start + len <= buf.Length
        invariant buf[..start + len] == old(buf[..start]) + Serialise(ps[..i], m)
      {
        SerialiseStep(ps, m, i);
        if len + ps[i].size > buf.Length - start {
          return 0;
        }
        PutParam(buf, start + len, ps[i], m);
        len := len + ps[i].size;
      }
      assert ps[..|ps|] == ps;
    }

    /** The descriptors a set points at. */
    method Descriptors(k: nat) returns (ps: seq<Param>)
      requires Valid() && k < setCount
      ensures ps == View().sets[k].params && |ps| == sets[k].count
    {
      HkPool.PlacesFit(Entries(), boot, poolUsed);
      assert HkPool.Placed(Entries(), boot, k);
      var e := sets[k];
      ps := match e.params case Boot(b) => boot[b] case Pool(o) => pool[o..o + e.count];
    }

    /** `emit_hk_report`. */
    method EmitReport(k: nat, m: Memory)
      requires Valid() && k < setCount
      modifies this`msgCounter, s1.store, s1.store.slots
      ensures Valid()
      ensures (View(), PusTm.View(s1.store))
           == HkModel.Report(old(View()), old(PusTm.View(s1.store)), old(View()).sets[k], m)
    {
      var ps := Descriptors(k);
      var data := ReportData(sets[k].setId, ps, m);
      if data.None? {
        return;
      }
      var seqCount := msgCounter;
      msgCounter := Next16(msgCounter);
      var _ := PusTm.Build(s1.store, TmPacket.Packet(apid, seqCount, 3, 25, seqCount, 0, timestamp, data.value));
    }

    /** The data field of a TM(3,25), or None where `serialise_set` ran out of room. */
    method ReportData(id: u8, ps: seq<Param>, m: Memory) returns (data: Option<bytes>)
      ensures data == if |Serialise(ps, m)| > BUFFER_LEN then None else Some([id] + Serialise(ps, m))
    {
      var buf := new u8[TmPacket.MAX_PACKET_LEN](_ => 0);
      buf[0] := id;
      assert buf[..1] == [id];
      var len := SerialiseSet(ps, m, buf, 1);
      SerialiseSome(ps, m);
      if len == 0 && |ps| > 0 {
        return None;
      }
      assert buf[..1 + len] == [id] + Serialise(ps, m);
      return Some(buf[..1 + len]);
    }

    /** `obsw_s3_tick`. */
    method Tick(m: Memory)
      requires Valid()
      modifies this`msgCounter, sets, s1.store, s1.store.slots
      ensures Valid() && boot == old(boot)
      ensures (View(), PusTm.View(s1.store)) == HkModel.Tick(old(View()), old(PusTm.View(s1.store)), m)
    {
      ghost var h, d := View(), PusTm.View(s1.store);
      for i := 0 to setCount
        invariant Valid()
        invariant (View(), PusTm.View(s1.store)) == TickUpTo(h, d, m, i)
      {
        assert View().sets[i] == View().sets[i..][0] == h.sets[i..][0] == h.sets[i];
        TickOne(i, m);
      }
    }

    /** The loop body of `obsw_s3_tick`. */
    method TickOne(i: nat, m: Memory)
      requires Valid() && i < setCount
      modifies this`msgCounter, sets, s1.store, s1.store.slots
      ensures Valid()
      ensures var h, d := old(View()), old(PusTm.View(s1.store));
        var (s, due) := Count(h.sets[i]);
        var (h1, d1) := if due then HkModel.Report(h, d, h.sets[i], m) else (h, d);
        (View(), PusTm.View(s1.store)) == (h1.(sets := h1.sets[i := s]), d1)
    {
      var e := sets[i];
      ghost var v := View().sets;
      assert v[i := v[i]] == v;
      if !e.enabled || e.interval == 0 {
        return;
      }
      var left := if e.countdown > 0 then e.countdown - 1 else 0;
      if left == 0 {
        EmitReport(i, m);
        left := e.interval;
      }
      Retime(i, sets[i].(countdown := left));
    }

    /** `obsw_s3_bind_sizes` for the set at k: its widths change all together or not at all, where its
        pointer leads, and no other array or cell does. */
    method BindSizes(k: nat, sizes: bytes) returns (ok: bool)
      requires Valid() && k < setCount
      modifies this`boot, pool
      ensures Valid()
      ensures ok <==> |sizes| == sets[k].count as int && Widths(sizes)
      ensures !ok ==> boot == old(boot) && Cells() == old(Cells())
      ensures ok ==> Rebound(sets[k], sizes, old(boot), old(Cells()), boot, Cells())
    {
      hide Widths, DistinctIds, HkPool.View, HkPool.Tiled;
      HkPool.PlacesFit(Entries(), boot, poolUsed);
      if sets[k].count as int != |sizes| {
        return false;
      }
      var known := AllWidths(sizes);
      if !known {
        return false;
      }
      match sets[k].params {
        case Boot(arr) => ResizeBoot(arr, sizes);
        case Pool(o) => ResizePool(o, sizes);
      }
      return true;
    }

    /** The first loop of `obsw_s3_bind_sizes`. */
    static method AllWidths(sizes: bytes) returns (ok: bool)
      ensures ok <==> Widths(sizes)
    {
      for i := 0 to |sizes|
        invariant Widths(sizes[..i])
      {
        if sizes[i] != 1 && sizes[i] != 2 && sizes[i] != 4 {
          return false;
        }
      }
      assert sizes[..|sizes|] == sizes;
      return true;
    }

    /** The second loop of `obsw_s3_bind_sizes`, over a boot-time array. */
    method ResizeBoot(arr: nat, sizes: bytes)
      requires Valid() && arr < |boot| && |boot[arr]| == |sizes| && Widths(sizes)
      modifies this`boot
      ensures Valid() && boot == old(boot)[arr := Resized(old(boot)[arr], sizes)]
    {
      ghost var before := boot;
      var ps := boot[arr];
      for i := 0 to |sizes|
        modifies {}
        invariant |ps| == |sizes|
        invariant forall j | 0 <= j < i :: ps[j] == Resized(before[arr], sizes)[j]
        invariant forall j | i <= j < |ps| :: ps[j] == before[arr][j]
      {
        ps := ps[i := ps[i].(size := sizes[i])];
      }
      assert ps == Resized(before[arr], sizes);
      boot := boot[arr := ps];
      forall i | 0 <= i < setCount ensures HkPool.Placed(Entries(), boot, i) {
        assert HkPool.Placed(Entries(), before, i);
      }
      SameIds(Entries(), before, boot, Cells(), Cells());
    }

    /** The same loop over cells of the pool. */
    method ResizePool(o: nat, sizes: bytes)
      requires Valid() && o + |sizes| <= |Cells()| && Widths(sizes)
      modifies pool
      ensures Valid()
      ensures Cells() == Overlaid(old(Cells()), o, Resized(old(Cells())[o..o + |sizes|], sizes))
    {
      ghost var before := Cells();
      if pool != null {
        for i := 0 to |sizes|
          invariant forall j | 0 <= j < pool.Length ::
            pool[j] == if o <= j < o + i then before[j].(size := sizes[j - o]) else before[j]
        {
          pool[o + i] := pool[o + i].(size := sizes[i]);
        }
      }
      OverlaidEach(before, Cells(), o, sizes);
      SameIds(Entries(), boot, boot, before, Cells());
    }
  }

  /** Cells from o on replaced. */
  function Overlaid(cells: seq<Param>, o: nat, ps: seq<Param>): (r: seq<Param>)
    requires o + |ps| <= |cells|
    ensures |r| == |cells|
  {
    cells[..o] + ps + cells[o + |ps|..]
  }

  lemma OverlaidEach(before: seq<Param>, after: seq<Param>, o: nat, sizes: bytes)
    requires |after| == |before| && o + |sizes| <= |before| && Widths(sizes)
    requires forall j | 0 <= j < |before| ::
      after[j] == if o <= j < o + |sizes| then before[j].(size := sizes[j - o]) else before[j]
    ensures after == Overlaid(before, o, Resized(before[o..o + |sizes|], sizes))
  {
  }

  /** One set's parameters are at new widths, and everything else is as it was. */
  ghost predicate Rebound(e: HkPool.Entry, sizes: bytes, boot: seq<seq<Param>>, cells: seq<Param>,
                          boot': seq<seq<Param>>, cells': seq<Param>) {
    && |sizes| == e.count as int && Widths(sizes)
    && match e.params
       case Boot(a) =>
         a < |boot| && |boot[a]| == |sizes| && boot' == boot[a := Resized(boot[a], sizes)] && cells' == cells
       case Pool(o) =>
         && o + |sizes| <= |cells| && boot' == boot
         && cells' == Overlaid(cells, o, Resized(cells[o..o + |sizes|], sizes))
  }

  function Pow256(n: nat): nat
    requires n <= 4
  {
    if n == 0 then 1 else if n == 1 then 0x100 else if n == 2 then 0x1_0000
    else if n == 3 then 0x100_0000 else 0x1_0000_0000
  }

  /** Reading a variable at a narrower width reads its low octets. */
  lemma LowOctets(v: u32, n: Size)
    ensures Octets(v % Pow256(n), n) == Octets(v, n)
  {
    if n == 1 {
      LowOne(v);
    } else if n == 2 {
      TwoOctets(v);
      TwoOctets(v % 0x1_0000);
      LowTwo(v, v / 0x1_0000, v % 0x1_0000);
    } else {
      LowFour(v);
    }
  }

  lemma LowOne(v: nat)
    ensures Octets(v % 0x100, 1) == Octets(v, 1)
  {
    OneOctet(v);
    OneOctet(v % 0x100);
  }

  lemma LowFour(v: u32)
    ensures v % Pow256(4) == v
  {
  }

  lemma LowTwo(v: nat, q: nat, r: nat)
    requires v == 0x1_0000 * q + r
    ensures v / 0x100 % 0x100 == r / 0x100 % 0x100 && v % 0x100 == r % 0x100
  {
    assert v / 0x100 == 0x100 * q + r / 0x100;
  }

  lemma OneOctet(v: nat)
    ensures Octets(v, 1) == [v % 0x100]
  {
    var none := Octets(v / 0x100, 0);
    assert none == [];
    assert none + [v % 0x100] == [v % 0x100];
  }

  lemma TwoOctets(v: nat)
    ensures Octets(v, 2) == [v / 0x100 % 0x100, v % 0x100]
  {
    OneOctet(v / 0x100);
  }

  lemma NextOctet(v: u32, k: nat)
    requires k < 4
    ensures v / Pow256(k) / 0x100 == v / Pow256(k + 1)
  {
  }

  predicate Widths(sizes: bytes) {
    forall i | 0 <= i < |sizes| :: sizes[i] in {1, 2, 4}
  }

  /** Parameters with the widths of a generated layout. */
  function Resized(ps: seq<Param>, sizes: bytes): (r: seq<Param>)
    requires |ps| == |sizes| && Widths(sizes)
    ensures |r| == |ps|
  {
    seq(|ps|, i requires 0 <= i < |ps| => Param(ps[i].src, sizes[i]))
  }

  lemma SameIds(t: seq<HkPool.Entry>, boot: seq<seq<Param>>, boot': seq<seq<Param>>,
                cells: seq<Param>, cells': seq<Param>)
    requires DistinctIds(HkPool.View(t, boot, cells))
    ensures DistinctIds(HkPool.View(t, boot', cells'))
  {
    var v, w := HkPool.View(t, boot, cells), HkPool.View(t, boot', cells');
    assert forall i | 0 <= i < |t| :: v[i].setId == w[i].setId;
  }

  lemma SerialiseNothing(m: Memory)
    ensures Serialise([], m) == []
  {
  }

  lemma SerialiseSome(ps: seq<Param>, m: Memory)
    ensures ps != [] ==> |Serialise(ps, m)| > 0
  {
    if ps != [] {
      var p := ps[|ps| - 1];
      assert Serialise(ps, m) == Serialise(ps[..|ps| - 1], m) + Octets(m(p.src), p.size);
    }
  }

  lemma SerialiseStep(ps: seq<Param>, m: Memory, i: nat)
    requires i < |ps|
    ensures Serialise(ps[..i + 1], m) == Serialise(ps[..i], m) + Octets(m(ps[i].src), ps[i].size)
    ensures |Serialise(ps, m)| >= |Serialise(ps[..i + 1], m)|
    decreases |ps| - i
  {
    assert ps[..i + 1][..i] == ps[..i];
    if i + 1 < |ps| {
      SerialiseStep(ps, m, i + 1);
    } else {
      assert ps[..i + 1] == ps;
    }
  }

  lemma NotDeletable(v: seq<HkSet>, id: u8)
    requires DistinctIds(v)
    requires var k := Position(v, id); k < |v| ==> v[k].enabled || !v[k].defined
    ensures !Deletable(v, id)
  {
  }

  ghost predicate AllDeletable(v: seq<HkSet>, list: bytes) {
    forall i | 0 <= i < |list| :: Deletable(v, list[i])
  }

  lemma SlidDone(before: seq<Param>, after: seq<Param>, off: nat, n: nat, used: nat)
    requires off + n <= used <= |before| == |after| && after[..off] == before[..off]
    requires forall j | off <= j < used - n :: after[j] == before[j + n]
    ensures HkPool.Slid(before, after, off, n, used)
  {
  }

  lemma NothingListed()
    ensures Listed([]) == {}
  {
  }

  lemma DeletableList(v: seq<HkSet>, u: bytes)
    requires |u| >= 1
    ensures AllDeletable(v, u[1..]) <==> forall i | 1 <= i < |u| :: Deletable(v, u[i])
  {
    var list := u[1..];
    assert forall i | 1 <= i < |u| :: u[i] == list[i - 1];
  }

  lemma DeleteStep(v: seq<HkSet>, list: bytes, i: nat)
    requires DistinctIds(v) && NoRepeats(list) && i < |list| && AllDeletable(v, list)
    ensures var r := Without(v, Listed(list[..i]));
      var k := Position(r, list[i]);
      k < |r| && r[k].defined && r[..k] + r[k + 1..] == Without(v, Listed(list[..i + 1]))
  {
    FoundAmongRest(v, list, i);
    var r := Without(v, Listed(list[..i]));
    DropIsWithout(r, Position(r, list[i]));
    WithoutUnion(v, Listed(list[..i]), {list[i]});
    ListedNext(list, i);
  }

  lemma ListedNext(list: bytes, i: nat)
    requires i < |list|
    ensures Listed(list[..i + 1]) == Listed(list[..i]) + {list[i]}
  {
    var a, b := Listed(list[..i + 1]), Listed(list[..i]) + {list[i]};
    forall x | x in b ensures x in a {
      if x != list[i] {
        var j :| 0 <= j < i && list[..i][j] == x;
        assert list[..i + 1][j] == x;
      } else {
        assert list[..i + 1][i] == x;
      }
    }
    forall x | x in a ensures x in b {
      var j :| 0 <= j < i + 1 && list[..i + 1][j] == x;
      if j < i {
        assert list[..i][j] == x;
      }
    }
  }

  /** A listed set not yet deleted is still there, defined, under its identifier. */
  lemma FoundAmongRest(v: seq<HkSet>, list: bytes, i: nat)
    requires DistinctIds(v) && NoRepeats(list) && i < |list| && Deletable(v, list[i])
    ensures var r := Without(v, Listed(list[..i]));
      DistinctIds(r) && Position(r, list[i]) < |r| && r[Position(r, list[i])].defined
  {
    var ids := Listed(list[..i]);
    var r := Without(v, ids);
    var x :| 0 <= x < |v| && v[x].setId == list[i] && v[x].defined;
    assert list[i] !in ids;
    WithoutMembers(v, ids, v[x]);
    WithoutDistinct(v, ids);
    var y :| 0 <= y < |r| && r[y] == v[x];
    assert Position(r, list[i]) == y by {
      PositionIs(r, list[i], y);
    }
  }

  lemma {:induction false} BootExtent(t: seq<HkPool.Entry>)
    requires forall i | 0 <= i < |t| :: t[i].params.Boot?
    ensures HkPool.Extent(t) == 0
  {
    if t != [] {
      BootExtent(t[..|t| - 1]);
    }
  }

  /** A pointer at or above the end of the removed cells moves down by their number. */
  function Moved(e: HkPool.Entry, end: int, n: nat): HkPool.Entry
    requires n <= end
  {
    if e.params.Pool? && e.params.offset >= end then e.(params := HkPool.Pool(e.params.offset - n)) else e
  }

  lemma MovedIsRemoved(t: seq<HkPool.Entry>, boot: seq<seq<Param>>, used: nat, k: nat)
    requires HkPool.Tiled(t, boot, used) && k < |t| && t[k].params.Pool?
    ensures var r, end := HkPool.Removed(t, k), t[k].params.offset + t[k].count;
      forall j | 0 <= j < |t| - 1 :: r[j] == Moved(t[if j < k then j else j + 1], end, t[k].count)
  {
    var r, end := HkPool.Removed(t, k), t[k].params.offset + t[k].count;
    assert HkPool.Placed(t, boot, k);
    forall j | 0 <= j < |t| - 1 ensures r[j] == Moved(t[if j < k then j else j + 1], end, t[k].count) {
      if j < k {
        assert HkPool.Placed(t, boot, j);
        if t[j].params.Pool? {
          HkPool.PlacesOrdered(t, j, k);
        }
      } else {
        assert HkPool.Placed(t, boot, j + 1);
        if t[j + 1].params.Pool? {
          HkPool.PlacesOrdered(t, k, j + 1);
        }
      }
    }
  }

  /** What the three loops leave behind is the list without the removed set. */
  lemma RemovalRefines(t: seq<HkPool.Entry>, r: seq<HkPool.Entry>, boot: seq<seq<Param>>,
                       cells: seq<Param>, slid: seq<Param>, used: nat, k: nat)
    requires HkPool.Tiled(t, boot, used) && used <= |cells| == |slid| && k < |t| && t[k].params.Pool?
    requires DistinctIds(HkPool.View(t, boot, cells))
    requires |r| == |t| - 1
    requires forall j | 0 <= j < |r| ::
      r[j] == Moved(t[if j < k then j else j + 1], t[k].params.offset + t[k].count, t[k].count)
    requires t[k].params.offset + t[k].count <= used
    requires HkPool.Slid(cells, slid, t[k].params.offset, t[k].count, used)
    ensures HkPool.Tiled(r, boot, used - t[k].count)
    ensures var v := HkPool.View(t, boot, cells); HkPool.View(r, boot, slid) == v[..k] + v[k + 1..]
    ensures DistinctIds(HkPool.View(r, boot, slid))
  {
    MovedIsRemoved(t, boot, used, k);
    assert r == HkPool.Removed(t, k);
    HkPool.RemovedTiled(t, boot, used, k);
    HkPool.RemovedView(t, boot, cells, slid, used, k);
    DropIsWithout(HkPool.View(t, boot, cells), k);
    WithoutDistinct(HkPool.View(t, boot, cells), {t[k].setId});
  }

  lemma {:induction false} PositionIs(v: seq<HkSet>, id: u8, k: nat)
    requires k <= |v| && (forall i | 0 <= i < k :: v[i].setId != id) && (k < |v| ==> v[k].setId == id)
    ensures Position(v, id) == k
  {
    if k > 0 {
      PositionIs(v[1..], id, k - 1);
    }
  }

  lemma FindIs(ids: seq<u16>, id: u16, k: nat)
    requires k <= |ids| && id !in ids[..k] && (k < |ids| ==> ids[k] == id)
    ensures Find(ids, id) == if k < |ids| then Some(k) else None
  {
    if k < |ids| {
      assert ids[k] in ids;
    } else {
      assert ids[..k] == ids;
    }
  }
}
