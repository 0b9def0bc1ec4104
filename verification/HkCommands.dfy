/**
  What the telecommands of service 3 do, from their octets to the table and from the table to the octets of
  TM(3,25) (`src/pus/s3.c`).
  */
module HkCommands {
  import opened Bytes
  import opened Executive
  import opened Uplink
  import HkLayout
  import HkModel
  import HkTicks
  import Parameters
  import ShortCommands
  import Verification

  type HkSet = HkModel.HkSet

  predicate NoSet(sets: seq<HkSet>, id: u8) {
    forall i | 0 <= i < |sets| :: sets[i].setId != id
  }

  /** Set k is the first with its identifier. */
  predicate FirstSet(sets: seq<HkSet>, id: u8, k: nat) {
    k < |sets| && sets[k].setId == id && forall i | 0 <= i < k :: sets[i].setId != id
  }

  // ----- TC(3,1) ------------------------------------------------------------------------------------------

  /** Parameter identifier i of a TC(3,1). */
  function Asked(d: bytes, i: nat): u16
    requires 8 + 2 * i <= |d|
  {
    Word(d, 6 + 2 * i)
  }

  /** Set identifier, interval, count, and so many parameter identifiers; at most 251 values of four octets fit a
      packet behind the set identifier. */
  predicate DefinesSet(c: Config, sets: seq<HkSet>, d: bytes) {
    && |d| >= 6 && 1 <= d[5] <= 251 && |d| == 6 + 2 * d[5] as int
    && NoSet(sets, d[0])
    && forall i: nat | i < d[5] :: Asked(d, i) in c.hk.ids
  }

  /** A free slot, and a free pool cell for each parameter. */
  predicate RoomForSet(c: Config, sets: seq<HkSet>, n: nat) {
    c.hk.pool.Some? && |sets| < c.hk.slots && HkModel.Cells(sets) + n <= c.hk.pool.value
  }

  /** Four octets from the first entry of the parameter table with an identifier. */
  predicate Reads(ids: seq<u16>, id: u16, p: HkModel.Param) {
    && p.size == 4 && p.src.Table? && p.src.index < |ids|
    && ids[p.src.index] == id && forall k | 0 <= k < p.src.index :: ids[k] != id
  }

  /** A disabled set with the identifier and interval given, and one parameter for each identifier listed, in the
      order of the list. */
  predicate SetAsked(c: Config, d: bytes, s: HkSet)
    requires |d| >= 6 && |d| == 6 + 2 * d[5] as int
  {
    && s.setId == d[0] && s.defined && !s.enabled
    && s.interval == Long(d, 1) && s.countdown == Long(d, 1)
    && |s.params| == d[5]
    && forall i: nat | i < d[5] :: Reads(c.hk.ids, Asked(d, i), s.params[i])
  }

  lemma Requested(d: bytes)
    requires |d| >= 6 && |d| == 6 + 2 * d[5] as int
    ensures forall i: nat | i < d[5] :: HkModel.RequestedIds(d)[i] == Asked(d, i)
  {
    forall i: nat | i < d[5] ensures HkModel.RequestedIds(d)[i] == Asked(d, i) {
      ReadWord(d, 6 + 2 * i);
    }
  }

  lemma NewSetAsked(c: Config, sets: seq<HkSet>, d: bytes)
    requires HkModel.DefineWellFormed(c.hk, sets, d)
    ensures SetAsked(c, d, HkModel.NewSet(c.hk, sets, d))
  {
    ReadLong(d, 1);
    Requested(d);
    var ids := HkModel.RequestedIds(d);
    forall i: nat | i < d[5] ensures Reads(c.hk.ids, Asked(d, i), HkModel.NewParams(c.hk, ids)[i]) {
      FirstAt(c.hk.ids, ids[i]);
    }
  }

  lemma FirstAt(ids: seq<u16>, id: u16)
    requires id in ids
    ensures HkModel.Find(ids, id).Some? && Reads(ids, id, HkModel.Param(HkModel.Table(HkModel.Find(ids, id).value), 4))
  {
    var k := HkModel.Find(ids, id).value;
    forall j | 0 <= j < k ensures ids[j] != id {
      assert ids[..k][j] == ids[j];
    }
  }

  /** The answer to TC(3,1): for a fresh set of known parameters that has room, the set it asks for is appended. */
  ghost predicate Defined(c: Config, o: Obsw, f: (Obsw, Result), u: Uplink)
    requires u.Valid()
  {
    var sets, d := o.hk.sets, u.data;
    if !DefinesSet(c, sets, d) then Rejects(o, f, u, 5)
    else if !RoomForSet(c, sets, d[5]) then Rejects(o, f, u, 4)
    else
      && |f.0.hk.sets| == |sets| + 1 && SetAsked(c, d, f.0.hk.sets[|sets|])
      && Completes(o, f, u, o.(hk := o.hk.(sets := sets + [f.0.hk.sets[|sets|]])), [])
  }

  lemma Define(c: Config, o: Obsw, u: Uplink)
    requires Sent(c, o, u, 3, 1)
    ensures Defined(c, o, Feed(c, o, u.Octets()), u)
  {
    hide Handle, Feed, HkModel.NewSet, Verification.Reporter.Report, Verification.TcRef, Reads;
    FedTo(c, o, u, 3, 1);
    WellFormedIs(c, o.hk.sets, u.data);
    HandledHk(c, o, HkDefine, u.Tc());
    var o' := Feed(c, o, u.Octets()).0;
    if !DefinesSet(c, o.hk.sets, u.data) {
      RefusedBy(o, o', u, 5);
    } else if !RoomForSet(c, o.hk.sets, u.data[5]) {
      RefusedBy(o, o', u, 4);
    } else {
      NewSetAsked(c, o.hk.sets, u.data);
      DoneBy(o, o', u);
    }
  }

  lemma HandledHk(c: Config, o: Obsw, h: Handler, tc: Tc)
    requires h.Service() == 3
    ensures var (x, v, ok) := HkOp(c.hk, o.hk, o.s1, h, tc); Handle(c, o, h, tc) == (o.(hk := x, s1 := v), ok)
  {
    hide HkOp;
  }

  lemma WellFormedIs(c: Config, sets: seq<HkSet>, d: bytes)
    ensures DefinesSet(c, sets, d) <==> HkModel.DefineWellFormed(c.hk, sets, d)
  {
    hide HkModel.RequestedIds;
    if |d| >= 6 && |d| == 6 + 2 * d[5] as int {
      Requested(d);
    }
  }

  // ----- TC(3,3) ------------------------------------------------------------------------------------------

  predicate MayGo(sets: seq<HkSet>, k: nat, id: u8) {
    k < |sets| && sets[k].setId == id && sets[k].defined && !sets[k].enabled
  }

  ghost predicate Goes(sets: seq<HkSet>, id: u8) {
    exists k: nat :: MayGo(sets, k, id)
  }

  /** A count and so many different identifiers, each of a disabled set that TC(3,1) defined. */
  ghost predicate DeletesSets(c: Config, sets: seq<HkSet>, d: bytes) {
    && |d| >= 1 && d[0] >= 1 && c.hk.pool.Some? && |d| == 1 + d[0] as int
    && (forall i, j | 1 <= i < j < |d| :: d[i] != d[j])
    && forall i | 1 <= i < |d| :: Goes(sets, d[i])
  }

  /** The sets not listed, as they are and in their order. */
  function Others(sets: seq<HkSet>, ids: bytes): seq<HkSet> {
    if sets == [] then []
    else
      var n := |sets| - 1;
      if sets[n].setId in ids then Others(sets[..n], ids) else Others(sets[..n], ids) + [sets[n]]
  }

  lemma {:induction false} OthersAre(sets: seq<HkSet>, ids: bytes)
    ensures HkModel.Without(sets, HkModel.Listed(ids)) == Others(sets, ids)
  {
    if sets != [] {
      hide HkModel.Without;
      var n := |sets| - 1;
      OthersAre(sets[..n], ids);
      assert sets == sets[..n] + [sets[n]];
      HkModel.WithoutConcat(sets[..n], [sets[n]], HkModel.Listed(ids));
      OtherOne(sets[n], ids);
      var none: seq<HkSet> := [];
      assert Others(sets[..n], ids) + none == Others(sets[..n], ids);
    }
  }

  lemma OtherOne(s: HkSet, ids: bytes)
    ensures HkModel.Without([s], HkModel.Listed(ids)) == if s.setId in ids then [] else [s]
  {
    assert [s][1..] == [];
  }

  lemma NoneTwice(d: bytes)
    requires |d| >= 1
    ensures HkModel.NoRepeats(d[1..]) <==> forall i, j | 1 <= i < j < |d| :: d[i] != d[j]
  {
    var list := d[1..];
    assert forall i | 0 <= i < |list| :: list[i] == d[i + 1];
    if HkModel.NoRepeats(list) {
      forall i, j | 1 <= i < j < |d| ensures d[i] != d[j] {
        assert list[i - 1] == d[i] && list[j - 1] == d[j];
      }
    }
  }

  lemma DeletableIs(sets: seq<HkSet>, id: u8)
    ensures HkModel.Deletable(sets, id) <==> Goes(sets, id)
  {
    if HkModel.Deletable(sets, id) {
      var k: nat :| k < |sets| && sets[k].setId == id && sets[k].defined && !sets[k].enabled;
      assert MayGo(sets, k, id);
    }
  }

  lemma DeletesIs(c: Config, sets: seq<HkSet>, d: bytes)
    ensures DeletesSets(c, sets, d) <==> HkModel.DeleteWellFormed(c.hk, sets, d)
  {
    hide HkModel.Deletable, Goes, HkModel.NoRepeats;
    if |d| >= 1 {
      NoneTwice(d);
      forall i | 1 <= i < |d| ensures HkModel.Deletable(sets, d[i]) <==> Goes(sets, d[i]) {
        DeletableIs(sets, d[i]);
      }
    }
  }

  /** The answer to TC(3,3): exactly the listed sets are out, if they may go, and the others are as they were, in
      their order. */
  ghost predicate Deleted(c: Config, o: Obsw, f: (Obsw, Result), u: Uplink)
    requires u.Valid()
  {
    if !DeletesSets(c, o.hk.sets, u.data) then Rejects(o, f, u, 5)
    else Completes(o, f, u, o.(hk := o.hk.(sets := Others(o.hk.sets, u.data[1..]))), [])
  }

  lemma Delete(c: Config, o: Obsw, u: Uplink)
    requires Sent(c, o, u, 3, 3)
    ensures Deleted(c, o, Feed(c, o, u.Octets()), u)
  {
    hide Handle, Feed, DeletesSets, HkModel.DeleteWellFormed, Verification.Reporter.Report, Verification.TcRef;
    hide HkModel.Without, Others;
    FedTo(c, o, u, 3, 3);
    DeletesIs(c, o.hk.sets, u.data);
    HandledHk(c, o, HkDelete, u.Tc());
    var o' := Feed(c, o, u.Octets()).0;
    if HkModel.DeleteWellFormed(c.hk, o.hk.sets, u.data) {
      DeleteHasList(c, o.hk.sets, u.data);
      OthersAre(o.hk.sets, u.data[1..]);
      DoneBy(o, o', u);
    } else {
      RefusedBy(o, o', u, 5);
    }
  }

  lemma DeleteHasList(c: Config, sets: seq<HkSet>, d: bytes)
    requires HkModel.DeleteWellFormed(c.hk, sets, d)
    ensures |d| >= 1
  {
  }

  // ----- TC(3,5) and TC(3,6) ------------------------------------------------------------------------------

  lemma PositionFirst(sets: seq<HkSet>, id: u8)
    ensures var k := HkModel.Position(sets, id); if NoSet(sets, id) then k == |sets| else FirstSet(sets, id, k)
    ensures forall k | FirstSet(sets, id, k) :: k == HkModel.Position(sets, id)
  {
  }

  /** The answer to TC(3,5): the first set with its identifier is on, with the interval given and counting from
      it. */
  ghost predicate SwitchedOn(o: Obsw, f: (Obsw, Result), u: Uplink)
    requires u.Valid()
  {
    var sets, d := o.hk.sets, u.data;
    if |d| < 5 then Rejects(o, f, u, 5)
    else if NoSet(sets, d[0]) then Rejects(o, f, u, 4)
    else forall k: nat | FirstSet(sets, d[0], k) ::
      var s := sets[k].(interval := Long(d, 1), countdown := Long(d, 1), enabled := true);
      Completes(o, f, u, o.(hk := o.hk.(sets := sets[k := s])), [])
  }

  lemma Enable(c: Config, o: Obsw, u: Uplink)
    requires Sent(c, o, u, 3, 5)
    ensures SwitchedOn(o, Feed(c, o, u.Octets()), u)
  {
    hide Handle, Feed, Verification.Reporter.Report, Verification.TcRef, Done, FirstSet;
    FedTo(c, o, u, 3, 5);
    HandledHk(c, o, HkEnable, u.Tc());
    var o' := Feed(c, o, u.Octets()).0;
    if |u.data| < 5 {
      RefusedBy(o, o', u, 5);
    } else {
      ReadLong(u.data, 1);
      PositionFirst(o.hk.sets, u.data[0]);
      if NoSet(o.hk.sets, u.data[0]) {
        RefusedBy(o, o', u, 4);
      } else {
        DoneBy(o, o', u);
      }
    }
  }

  /** The answer to TC(3,6): it is off, and nothing else of it has changed. */
  ghost predicate SwitchedOff(o: Obsw, f: (Obsw, Result), u: Uplink)
    requires u.Valid()
  {
    var sets, d := o.hk.sets, u.data;
    if |d| < 1 then Rejects(o, f, u, 5)
    else if NoSet(sets, d[0]) then Rejects(o, f, u, 4)
    else forall k: nat | FirstSet(sets, d[0], k) ::
      Completes(o, f, u, o.(hk := o.hk.(sets := sets[k := sets[k].(enabled := false)])), [])
  }

  lemma Disable(c: Config, o: Obsw, u: Uplink)
    requires Sent(c, o, u, 3, 6)
    ensures SwitchedOff(o, Feed(c, o, u.Octets()), u)
  {
    hide Handle, Feed, Verification.Reporter.Report, Verification.TcRef, Done, FirstSet;
    FedTo(c, o, u, 3, 6);
    HandledHk(c, o, HkDisable, u.Tc());
    var o' := Feed(c, o, u.Octets()).0;
    if |u.data| < 1 {
      RefusedBy(o, o', u, 5);
    } else {
      PositionFirst(o.hk.sets, u.data[0]);
      if NoSet(o.hk.sets, u.data[0]) {
        RefusedBy(o, o', u, 4);
      } else {
        DoneBy(o, o', u);
      }
    }
  }

  // ----- TM(3,25) of a set so defined ---------------------------------------------------------------------

  /** Four octets for each identifier of the TC(3,1), in its order: the value the parameter table has under it. */
  ghost predicate ValuesAsked(t: seq<Parameters.Entry>, d: bytes, values: bytes)
    requires |d| >= 6 && |d| == 6 + 2 * d[5] as int
  {
    && |values| == 4 * d[5] as int
    && forall i: nat, k: nat | i < d[5] && ShortCommands.FirstEntry(t, Asked(d, i), k) ::
         values[4 * i..4 * i + 4] == LongOctets(t[k].value)
  }

  lemma FourOctets(v: u32)
    ensures HkModel.Octets(v, 4) == LongOctets(v)
  {
    var a, b, c := v / 256, v / 256 / 256, v / 256 / 256 / 256;
    assert b == v / 0x1_0000 && c == v / 0x100_0000;
    assert HkModel.Octets(v, 4) == HkModel.Octets(a, 3) + [v % 256];
    assert HkModel.Octets(a, 3) == HkModel.Octets(b, 2) + [a % 256];
    assert HkModel.Octets(b, 2) == HkModel.Octets(c, 1) + [b % 256];
    assert HkModel.Octets(c, 1) == [c % 256];
  }

  lemma {:induction false} ExtentOfFours(ps: seq<HkModel.Param>)
    requires forall i | 0 <= i < |ps| :: ps[i].size == 4
    ensures HkLayout.Extent(ps) == 4 * |ps|
  {
    if ps != [] {
      ExtentOfFours(ps[..|ps| - 1]);
    }
  }

  lemma ValuesOf(c: Config, t: seq<Parameters.Entry>, app: nat -> u32, d: bytes, s: HkSet)
    requires |d| >= 6 && |d| == 6 + 2 * d[5] as int && SetAsked(c, d, s) && c.hk.ids == Parameters.Ids(t)
    ensures ValuesAsked(t, d, HkModel.Serialise(s.params, MemoryOf(t, app)))
  {
    hide HkModel.Serialise, HkLayout.Extent;
    var m := MemoryOf(t, app);
    var values := HkModel.Serialise(s.params, m);
    HkLayout.SerialisedLength(s.params, m);
    ExtentOfFours(s.params);
    forall i: nat, k: nat | i < d[5] && ShortCommands.FirstEntry(t, Asked(d, i), k)
      ensures values[4 * i..4 * i + 4] == LongOctets(t[k].value)
    {
      HkLayout.SerialisedAt(s.params, m, i);
      ExtentOfFours(s.params[..i]);
      var x := s.params[i].src.index;
      assert Reads(c.hk.ids, Asked(d, i), s.params[i]);
      assert k == x by {
        assert c.hk.ids[k] == t[k].id && c.hk.ids[x] == t[x].id;
      }
      FourOctets(t[k].value);
    }
  }

  /** When the report of a set is due that TC(3,1) asked for, the tick sends exactly one TM(3,25) under its
      identifier, with the values of the parameters listed, in the order of the list. */
  lemma DueReport(c: Config, o: Obsw, app: nat -> u32, d: bytes, k: nat) returns (values: bytes)
    requires |d| >= 6 && |d| == 6 + 2 * d[5] as int && d[5] <= 251 && c.hk.ids == Parameters.Ids(o.params.table)
    requires HkModel.DistinctIds(o.hk.sets) && k < |o.hk.sets|
    requires var s := o.hk.sets[k];
      && s.enabled && s.interval > 0 && s.countdown <= 1
      && SetAsked(c, d, s.(enabled := false, interval := Long(d, 1), countdown := Long(d, 1)))
    ensures HkTicks.Reported(d[0], TickHk(o, app).s1.down.log) == HkTicks.Reported(d[0], o.s1.down.log) + [values]
    ensures ValuesAsked(o.params.table, d, values)
  {
    hide HkModel.Serialise, HkTicks.Reported, HkLayout.Extent, HkModel.TickUpTo, Reads, ValuesAsked;
    var s, m := o.hk.sets[k], MemoryOf(o.params.table, app);
    values := HkModel.Serialise(s.params, m);
    ValuesOf(c, o.params.table, app, d, s.(enabled := false, interval := Long(d, 1), countdown := Long(d, 1)));
    FoursFit(c, d, s.(enabled := false, interval := Long(d, 1), countdown := Long(d, 1)));
    HkTicks.TickAdds(o.hk, o.s1.down, m, |o.hk.sets|, k);
  }

  lemma FoursFit(c: Config, d: bytes, s: HkSet)
    requires |d| >= 6 && |d| == 6 + 2 * d[5] as int && d[5] <= 251 && SetAsked(c, d, s)
    ensures HkTicks.Fits(s.params)
  {
    ExtentOfFours(s.params);
  }
}
