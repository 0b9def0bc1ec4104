/**
  Housekeeping report structures as ground sees them: an ordered list of sets, each with its own
  parameter list. `Housekeeping` refines this list with a shared parameter pool.
  */
module HkModel {
  import opened Bytes
  import PusTm
  import TmPacket
  import Verification

  type Verify = Verification.Reporter
  type Tc = Verification.Tc

  /** What a parameter points to: an application variable or the value of an S20 table entry. */
  datatype Source = App(id: nat) | Table(index: nat)

  /** `obsw_s3_param_size_t`. */
  type Size = n: nat | n == 1 || n == 2 || n == 4 witness 4

  /** A parameter descriptor: 1, 2 or 4 octets at a source. */
  datatype Param = Param(src: Source, size: Size)

  datatype HkSet = HkSet(
    setId: u8, defined: bool, params: seq<Param>, interval: u32, countdown: u32, enabled: bool)

  /** Fixed at boot: set slots, pool length (None where there is no pool) and referable parameter IDs. */
  datatype Config = Config(slots: nat, pool: Option<nat>, ids: seq<u16>)

  /** The service state: its sets and the header fields of its reports. */
  datatype Hk = Hk(sets: seq<HkSet>, apid: u16, msgCounter: u16, timestamp: u32)

  /** Live values, each as the unsigned integer its variable holds. */
  type Memory = Source -> u32

  predicate HasId(sets: seq<HkSet>, id: u8) {
    exists i :: 0 <= i < |sets| && sets[i].setId == id
  }

  predicate DistinctIds(sets: seq<HkSet>) {
    forall i, j | 0 <= i < j < |sets| :: sets[i].setId != sets[j].setId
  }

  /** Pool cells the defined sets need; boot-time sets need none. */
  function Cells(sets: seq<HkSet>): nat {
    if sets == [] then 0
    else (if sets[0].defined then |sets[0].params| else 0) + Cells(sets[1..])
  }

  /** The sets whose identifiers are not listed. */
  function Without(sets: seq<HkSet>, ids: set<u8>): (r: seq<HkSet>)
    ensures |r| <= |sets|
  {
    if sets == [] then []
    else (if sets[0].setId in ids then [] else [sets[0]]) + Without(sets[1..], ids)
  }

  /** The first entry of the parameter table with an ID. */
  function Find(ids: seq<u16>, id: u16): (r: Option<nat>)
    ensures r.Some? ==> r.value < |ids| && ids[r.value] == id && id !in ids[..r.value]
    ensures r.None? ==> id !in ids
  {
    FindFrom(ids, id, 0)
  }

  function FindFrom(ids: seq<u16>, id: u16, i: nat): (r: Option<nat>)
    requires i <= |ids| && id !in ids[..i]
    ensures r.Some? ==> r.value < |ids| && ids[r.value] == id && id !in ids[..r.value]
    ensures r.None? ==> id !in ids
    decreases |ids| - i
  {
    if i == |ids| then None else if ids[i] == id then Some(i) else FindFrom(ids, id, i + 1)
  }

  // ----- TC(3,1) and TC(3,3) ------------------------------------------------------------------

  /** Application data left in a TM(3,25) packet. */
  const MAX_REPORT_DATA := 1007

  function RequestedIds(u: bytes): (r: seq<u16>)
    requires |u| >= 6 && |u| == 6 + 2 * u[5] as int
    ensures |r| == u[5]
  {
    seq(u[5], i requires 0 <= i < u[5] => Be16(u[6 + 2 * i..]))
  }

  /** A TC(3,1) whose data are well formed: exact length, fresh set, report fits, parameters known. */
  predicate DefineWellFormed(c: Config, sets: seq<HkSet>, u: bytes) {
    && |u| >= 6 && u[5] != 0 && |u| == 6 + 2 * u[5] as int
    && !HasId(sets, u[0])
    && 1 + 4 * u[5] as int <= MAX_REPORT_DATA
    && forall i | 0 <= i < u[5] :: RequestedIds(u)[i] in c.ids
  }

  /** A slot and enough pool cells are free, counted over the list alone. */
  predicate DefineFits(c: Config, sets: seq<HkSet>, n: nat) {
    c.pool.Some? && |sets| < c.slots && Cells(sets) + n <= c.pool.value
  }

  /** The parameter list of a new set: full-width S20 values in the order requested. */
  function NewParams(c: Config, ids: seq<u16>): (r: seq<Param>)
    requires forall i | 0 <= i < |ids| :: ids[i] in c.ids
    ensures |r| == |ids|
  {
    seq(|ids|, i requires 0 <= i < |ids| => Param(Table(Find(c.ids, ids[i]).value), 4))
  }

  /** The set a well-formed TC(3,1) creates, disabled. */
  function NewSet(c: Config, sets: seq<HkSet>, u: bytes): HkSet
    requires DefineWellFormed(c, sets, u)
  {
    HkSet(u[0], true, NewParams(c, RequestedIds(u)), Be32(u[1..]), Be32(u[1..]), false)
  }

  function Define(c: Config, h: Hk, v: Verify, tc: Tc): (Hk, Verify, bool) {
    var u := tc.userData;
    if !DefineWellFormed(c, h.sets, u) then
      (h, v.Reject(tc, Verification.FAIL_ILLEGAL_APP_DATA), false)
    else if !DefineFits(c, h.sets, u[5]) then
      (h, v.Reject(tc, Verification.FAIL_EXEC_ERROR), false)
    else
      (h.(sets := h.sets + [NewSet(c, h.sets, u)]), v.Accept(tc).Complete(tc), true)
  }

  /** A set that may be deleted: created by TC(3,1) and disabled. */
  predicate Deletable(sets: seq<HkSet>, id: u8) {
    exists i :: 0 <= i < |sets| && sets[i].setId == id && sets[i].defined && !sets[i].enabled
  }

  predicate NoRepeats(ids: bytes) {
    forall i, j | 0 <= i < j < |ids| :: ids[i] != ids[j]
  }

  predicate DeleteWellFormed(c: Config, sets: seq<HkSet>, u: bytes) {
    && |u| >= 1 && u[0] > 0 && c.pool.Some? && |u| == 1 + u[0] as int
    && NoRepeats(u[1..])
    && forall i | 1 <= i < |u| :: Deletable(sets, u[i])
  }

  function Listed(ids: bytes): set<u8> {
    set i | 0 <= i < |ids| :: ids[i]
  }

  function Delete(c: Config, h: Hk, v: Verify, tc: Tc): (Hk, Verify, bool) {
    if !DeleteWellFormed(c, h.sets, tc.userData) then
      (h, v.Reject(tc, Verification.FAIL_ILLEGAL_APP_DATA), false)
    else
      (h.(sets := Without(h.sets, Listed(tc.userData[1..]))), v.Accept(tc).Complete(tc), true)
  }

  // ----- TC(3,5) and TC(3,6) ------------------------------------------------------------------

  /** Position of the first set with an identifier, or the length of the list. */
  function Position(sets: seq<HkSet>, id: u8): (k: nat)
    ensures k <= |sets|
    ensures forall i | 0 <= i < k :: sets[i].setId != id
    ensures k < |sets| ==> sets[k].setId == id
  {
    if sets == [] || sets[0].setId == id then 0 else 1 + Position(sets[1..], id)
  }

  function Enable(h: Hk, v: Verify, tc: Tc): (Hk, Verify, bool) {
    var u := tc.userData;
    if |u| < 5 then (h, v.Reject(tc, Verification.FAIL_ILLEGAL_APP_DATA), false)
    else
      var k := Position(h.sets, u[0]);
      if k == |h.sets| then (h, v.Reject(tc, Verification.FAIL_EXEC_ERROR), false)
      else
        var s := h.sets[k].(interval := Be32(u[1..]), countdown := Be32(u[1..]), enabled := true);
        (h.(sets := h.sets[k := s]), v.Accept(tc).Complete(tc), true)
  }

  function Disable(h: Hk, v: Verify, tc: Tc): (Hk, Verify, bool) {
    var u := tc.userData;
    if |u| < 1 then (h, v.Reject(tc, Verification.FAIL_ILLEGAL_APP_DATA), false)
    else
      var k := Position(h.sets, u[0]);
      if k == |h.sets| then (h, v.Reject(tc, Verification.FAIL_EXEC_ERROR), false)
      else (h.(sets := h.sets[k := h.sets[k].(enabled := false)]), v.Accept(tc).Complete(tc), true)
  }

  // ----- Periodic reports ---------------------------------------------------------------------

  /** The n low octets of v, most significant first. */
  function Octets(v: nat, n: nat): (r: bytes)
    ensures |r| == n
  {
    if n == 0 then [] else Octets(v / 0x100, n - 1) + [v % 0x100]
  }

  /** Parameter values in list order, each big-endian at its own width. */
  function Serialise(ps: seq<Param>, m: Memory): bytes {
    if ps == [] then []
    else
      var p := ps[|ps| - 1];
      Serialise(ps[..|ps| - 1], m) + Octets(m(p.src), p.size)
  }

  /** Serialisation buffer: one packet less the set identifier. */
  const BUFFER_LEN := 1023

  function ReportPacket(h: Hk, s: HkSet, values: bytes): TmPacket.Packet {
    TmPacket.Packet(h.apid, h.msgCounter, 3, 25, h.msgCounter, 0, h.timestamp, [s.setId] + values)
  }

  /** TM(3,25) for a set; a set whose values overflow the buffer is not reported. */
  function Report(h: Hk, d: PusTm.Downlink, s: HkSet, m: Memory): (Hk, PusTm.Downlink) {
    var values := Serialise(s.params, m);
    if |values| > BUFFER_LEN then (h, d)
    else
      (h.(msgCounter := Next16(h.msgCounter)),
       d.Offer(ReportPacket(h, s, values)))
  }

  /** One tick of a set's countdown, and whether its report is due. */
  function Count(s: HkSet): (HkSet, bool) {
    if !s.enabled || s.interval == 0 then (s, false)
    else if s.countdown <= 1 then (s.(countdown := s.interval), true)
    else (s.(countdown := s.countdown - 1), false)
  }

  /** `obsw_s3_tick` over the first n sets. */
  function TickUpTo(h: Hk, d: PusTm.Downlink, m: Memory, n: nat): (r: (Hk, PusTm.Downlink))
    requires n <= |h.sets|
    ensures |r.0.sets| == |h.sets|
    ensures r.0.sets[n..] == h.sets[n..]
  {
    if n == 0 then (h, d)
    else
      var (h1, d1) := TickUpTo(h, d, m, n - 1);
      var (s, due) := Count(h.sets[n - 1]);
      var (h2, d2) := if due then Report(h1, d1, h.sets[n - 1], m) else (h1, d1);
      (h2.(sets := h2.sets[n - 1 := s]), d2)
  }

  function Tick(h: Hk, d: PusTm.Downlink, m: Memory): (Hk, PusTm.Downlink) {
    TickUpTo(h, d, m, |h.sets|)
  }

  /** A set after n ticks, and how many reports fell due meanwhile. */
  function Run(s: HkSet, n: nat): (HkSet, nat) {
    if n == 0 then (s, 0)
    else
      var (s1, k) := Run(s, n - 1);
      var (s2, due) := Count(s1);
      (s2, if due then k + 1 else k)
  }

  /** A set enabled by TC(3,5) with interval k > 0 reports exactly once in every k ticks. */
  lemma {:induction false} PeriodIsInterval(s: HkSet, n: nat)
    requires s.enabled && s.interval > 0 && s.countdown == s.interval
    ensures Run(s, n).1 == n / s.interval
    ensures Run(s, n).0 == s.(countdown := s.interval - n % s.interval)
  {
    if n > 0 {
      PeriodIsInterval(s, n - 1);
      NextQuotient(n - 1, s.interval);
    }
  }

  /** A set that is off, or has no interval, never reports and keeps its countdown. */
  lemma {:induction false} SilentSet(s: HkSet, n: nat)
    requires !s.enabled || s.interval == 0
    ensures Run(s, n) == (s, 0)
  {
    if n > 0 {
      SilentSet(s, n - 1);
    }
  }

  lemma NextQuotient(n: nat, k: nat)
    requires k > 0
    ensures n % k + 1 < k ==> (n + 1) / k == n / k && (n + 1) % k == n % k + 1
    ensures n % k + 1 == k ==> (n + 1) / k == n / k + 1 && (n + 1) % k == 0
  {
    var q, r := n / k, n % k;
    if r + 1 < k {
      QuotientIs(n + 1, k, q, r + 1);
    } else {
      assert k * (q + 1) == k * q + k;
      QuotientIs(n + 1, k, q + 1, 0);
    }
  }

  lemma QuotientIs(n: nat, k: nat, q: nat, r: nat)
    requires r < k && n == k * q + r
    ensures n / k == q && n % k == r
  {
    if n / k < q {
      MulGap(k, n / k, q);
    } else if q < n / k {
      MulGap(k, q, n / k);
    }
  }

  lemma {:induction false} MulGap(k: nat, a: nat, b: nat)
    requires a < b
    ensures k * a + k <= k * b
  {
    if a + 1 < b {
      MulGap(k, a, b - 1);
    }
    assert k * b == k * (b - 1) + k;
  }

  // ----- Deleting is filtering ----------------------------------------------------------------

  lemma {:induction false} WithoutMembers(sets: seq<HkSet>, ids: set<u8>, s: HkSet)
    ensures s in Without(sets, ids) <==> s in sets && s.setId !in ids
  {
    if sets != [] {
      WithoutMembers(sets[1..], ids, s);
      assert s in sets <==> s == sets[0] || s in sets[1..];
    }
  }

  lemma {:induction false} WithoutConcat(x: seq<HkSet>, y: seq<HkSet>, ids: set<u8>)
    ensures Without(x + y, ids) == Without(x, ids) + Without(y, ids)
  {
    if x == [] {
      assert x + y == y;
    } else {
      assert (x + y)[1..] == x[1..] + y;
      WithoutConcat(x[1..], y, ids);
    }
  }

  lemma {:induction false} WithoutUnion(sets: seq<HkSet>, a: set<u8>, b: set<u8>)
    ensures Without(Without(sets, a), b) == Without(sets, a + b)
  {
    if sets != [] {
      WithoutUnion(sets[1..], a, b);
      var head := if sets[0].setId in a then [] else [sets[0]];
      WithoutConcat(head, Without(sets[1..], a), b);
    }
  }

  lemma {:induction false} WithoutNone(sets: seq<HkSet>, ids: set<u8>)
    requires forall i | 0 <= i < |sets| :: sets[i].setId !in ids
    ensures Without(sets, ids) == sets
  {
    if sets != [] {
      WithoutNone(sets[1..], ids);
    }
  }

  /** Where identifiers are distinct, dropping one position is filtering out its identifier. */
  lemma DropIsWithout(sets: seq<HkSet>, k: nat)
    requires k < |sets| && DistinctIds(sets)
    ensures sets[..k] + sets[k + 1..] == Without(sets, {sets[k].setId})
  {
    SplitAround(sets, k);
    WithoutAround(sets[..k], sets[k], sets[k + 1..]);
  }

  lemma SplitAround<T>(s: seq<T>, k: nat)
    requires k < |s|
    ensures s == s[..k] + ([s[k]] + s[k + 1..])
  {
  }

  lemma WithoutAround(before: seq<HkSet>, s: HkSet, after: seq<HkSet>)
    requires forall i | 0 <= i < |before| :: before[i].setId != s.setId
    requires forall i | 0 <= i < |after| :: after[i].setId != s.setId
    ensures Without(before + ([s] + after), {s.setId}) == before + after
  {
    hide Without;
    WithoutConcat(before, [s] + after, {s.setId});
    WithoutConcat([s], after, {s.setId});
    WithoutNone(before, {s.setId});
    WithoutNone(after, {s.setId});
    WithoutOne(s);
    assert [] + after == after;
  }

  lemma WithoutOne(s: HkSet)
    ensures Without([s], {s.setId}) == []
  {
    assert [s][1..] == [];
  }

  lemma {:induction false} CellsConcat(x: seq<HkSet>, y: seq<HkSet>)
    ensures Cells(x + y) == Cells(x) + Cells(y)
  {
    if x == [] {
      assert x + y == y;
    } else {
      assert (x + y)[1..] == x[1..] + y;
      CellsConcat(x[1..], y);
    }
  }

  lemma {:induction false} WithoutCells(sets: seq<HkSet>, ids: set<u8>)
    ensures Cells(Without(sets, ids)) <= Cells(sets)
  {
    if sets != [] {
      WithoutCells(sets[1..], ids);
      var rest := Without(sets[1..], ids);
      assert ([sets[0]] + rest)[1..] == rest && [] + rest == rest;
    }
  }

  lemma {:induction false} WithoutDistinct(sets: seq<HkSet>, ids: set<u8>)
    requires DistinctIds(sets)
    ensures DistinctIds(Without(sets, ids))
  {
    if sets != [] {
      WithoutDistinct(sets[1..], ids);
      var rest := Without(sets[1..], ids);
      forall i | 0 <= i < |rest| ensures rest[i].setId != sets[0].setId {
        WithoutMembers(sets[1..], ids, rest[i]);
      }
    }
  }

  /** The sets whose identifiers are listed. */
  function Only(sets: seq<HkSet>, ids: set<u8>): seq<HkSet> {
    if sets == [] then []
    else (if sets[0].setId in ids then [sets[0]] else []) + Only(sets[1..], ids)
  }

  /** A deletion frees exactly the cells of the sets deleted, wherever they lie: no cell is lost to
      fragmentation. */
  lemma {:induction false} DeleteFrees(sets: seq<HkSet>, ids: set<u8>)
    ensures Cells(sets) == Cells(Without(sets, ids)) + Cells(Only(sets, ids))
  {
    if sets != [] {
      DeleteFrees(sets[1..], ids);
      var head := sets[0];
      CellsConcat(if head.setId in ids then [] else [head], Without(sets[1..], ids));
      CellsConcat(if head.setId in ids then [head] else [], Only(sets[1..], ids));
      assert [head][1..] == [];
    }
  }

  /** Deleting a set just defined undoes the definition: the sets are as they were, in their order. */
  lemma DefineThenDelete(c: Config, h: Hk, v: Verify, define: Tc, w: Verify, delete: Tc)
    requires Define(c, h, v, define).2 && delete.userData == [1, define.userData[0]]
    ensures var h1 := Define(c, h, v, define).0;
      Delete(c, h1, w, delete).2 && Delete(c, h1, w, delete).0.sets == h.sets
  {
    hide Verification.Reporter.Report, Verification.TcRef, NewParams, RequestedIds;
    var s := NewSet(c, h.sets, define.userData);
    var sets := h.sets + [s];
    assert sets[|h.sets|] == s;
    assert Deletable(sets, s.setId);
    var ids := Listed(delete.userData[1..]);
    assert ids == {s.setId} by {
      assert delete.userData[1..] == [s.setId];
      assert [s.setId][0] in ids;
    }
    WithoutConcat(h.sets, [s], ids);
    WithoutNone(h.sets, ids);
    WithoutOne(s);
  }
}
