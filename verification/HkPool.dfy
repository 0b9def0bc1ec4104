/**
  How `src/pus/s3.c` lays defined sets out in the shared parameter pool, and why closing the gap of
  a deleted set leaves every other set with its own parameters.
  */
module HkPool {
  import opened Bytes
  import opened HkModel

  /** A parameter pointer: a boot-time array, or a cell of the pool. */
  datatype Pointer = Boot(arr: nat) | Pool(offset: nat)

  datatype Entry = Entry(
    setId: u8, params: Pointer, count: u8, interval: u32, countdown: u32, enabled: bool)

  /** Pool cells of a table prefix. */
  function Extent(t: seq<Entry>): nat {
    if t == [] then 0
    else Extent(t[..|t| - 1]) + (if t[|t| - 1].params.Pool? then t[|t| - 1].count else 0)
  }

  /** Defined sets tile the pool prefix [0, used) in table order; boot-time sets own whole arrays. */
  ghost predicate Tiled(t: seq<Entry>, boot: seq<seq<Param>>, used: nat) {
    && Extent(t) == used
    && forall i | 0 <= i < |t| :: Placed(t, boot, i)
  }

  ghost predicate Placed(t: seq<Entry>, boot: seq<seq<Param>>, i: nat)
    requires i < |t|
  {
    match t[i].params
    case Boot(k) => k < |boot| && |boot[k]| == t[i].count
    case Pool(o) => o == Extent(t[..i]) && t[i].count > 0
  }

  /** c cells from offset o, as the C pointer arithmetic reads them. */
  function Slice(s: seq<Param>, o: nat, c: nat): seq<Param> {
    if o + c <= |s| then s[o..o + c] else []
  }

  function ParamsOf(e: Entry, boot: seq<seq<Param>>, pool: seq<Param>): seq<Param> {
    match e.params
    case Boot(k) => if k < |boot| then boot[k] else []
    case Pool(o) => Slice(pool, o, e.count)
  }

  function ViewOf(e: Entry, boot: seq<seq<Param>>, pool: seq<Param>): HkSet {
    HkSet(e.setId, e.params.Pool?, ParamsOf(e, boot, pool), e.interval, e.countdown, e.enabled)
  }

  /** The list of sets a table stands for. */
  function View(t: seq<Entry>, boot: seq<seq<Param>>, pool: seq<Param>): (v: seq<HkSet>)
    ensures |v| == |t|
  {
    seq(|t|, i requires 0 <= i < |t| => ViewOf(t[i], boot, pool))
  }

  lemma {:induction false} ExtentMonotone(t: seq<Entry>, i: nat)
    requires i <= |t|
    ensures Extent(t[..i]) <= Extent(t)
    ensures i < |t| && t[i].params.Pool? ==> Extent(t[..i]) + t[i].count <= Extent(t)
  {
    if i == |t| {
      assert t[..i] == t;
    } else {
      var shorter := t[..|t| - 1];
      if i < |t| - 1 {
        assert shorter[..i] == t[..i];
      } else {
        assert shorter == t[..i];
      }
      ExtentMonotone(shorter, i);
    }
  }

  lemma PlacesFit(t: seq<Entry>, boot: seq<seq<Param>>, used: nat)
    requires Tiled(t, boot, used)
    ensures forall i | 0 <= i < |t| :: t[i].params.Pool? ==> 0 < t[i].count && t[i].params.offset + t[i].count <= used
    ensures forall i | 0 <= i < |t| :: t[i].params.Boot? ==>
      t[i].params.arr < |boot| && |boot[t[i].params.arr]| == t[i].count
  {
    forall i | 0 <= i < |t| && t[i].params.Pool?
      ensures 0 < t[i].count && t[i].params.offset + t[i].count <= used
    {
      assert Placed(t, boot, i);
      ExtentMonotone(t, i);
    }
    forall i | 0 <= i < |t| && t[i].params.Boot?
      ensures t[i].params.arr < |boot| && |boot[t[i].params.arr]| == t[i].count
    {
      assert Placed(t, boot, i);
    }
  }

  /** Later sets lie above: the ends of earlier sets do not pass the start of a later one. */
  lemma {:induction false} PlacesOrdered(t: seq<Entry>, i: nat, j: nat)
    requires i < j <= |t| && t[i].params.Pool?
    ensures Extent(t[..i]) + t[i].count <= Extent(t[..j])
  {
    ExtentMonotone(t[..j], i);
    assert t[..j][..i] == t[..i];
  }

  /** The pool used is exactly what the listed sets need: there is no other occupancy, and no gap. */
  lemma {:induction false} ExtentIsCells(t: seq<Entry>, boot: seq<seq<Param>>, pool: seq<Param>)
    requires forall i | 0 <= i < |t| && t[i].params.Pool? :: t[i].params.offset + t[i].count <= |pool|
    ensures Extent(t) == Cells(View(t, boot, pool))
  {
    if t == [] {
    } else {
      var n := |t| - 1;
      ExtentIsCells(t[..n], boot, pool);
      var last := ViewOf(t[n], boot, pool);
      assert View(t, boot, pool) == View(t[..n], boot, pool) + [last];
      CellsConcat(View(t[..n], boot, pool), [last]);
      CellsOne(last);
    }
  }

  lemma CellsOne(s: HkSet)
    ensures Cells([s]) == if s.defined then |s.params| else 0
  {
    assert [s][1..] == [];
  }

  // ----- Removal ------------------------------------------------------------------------------

  function Lowered(e: Entry, n: nat): Entry {
    if e.params.Pool? && e.params.offset >= n then e.(params := Pool(e.params.offset - n)) else e
  }

  /** The table after the set at k is removed: later pool pointers lowered, the slot closed. */
  function Removed(t: seq<Entry>, k: nat): (r: seq<Entry>)
    requires k < |t|
    ensures |r| == |t| - 1
  {
    seq(|t| - 1, i requires 0 <= i < |t| - 1 => if i < k then t[i] else Lowered(t[i + 1], t[k].count))
  }

  lemma {:induction false} RemovedExtent(t: seq<Entry>, k: nat, i: nat)
    requires k < |t| && t[k].params.Pool? && i < |t|
    ensures i <= k ==> Extent(Removed(t, k)[..i]) == Extent(t[..i])
    ensures k <= i ==> Extent(Removed(t, k)[..i]) == Extent(t[..i + 1]) - t[k].count
  {
    var r := Removed(t, k);
    if i == 0 {
      if k == 0 {
        assert t[..1][..0] == [];
      }
    } else {
      RemovedExtent(t, k, i - 1);
      assert r[..i][..i - 1] == r[..i - 1];
      assert t[..i][..i - 1] == t[..i - 1];
      assert t[..i + 1][..i] == t[..i];
      if k < i {
        assert r[i - 1] == Lowered(t[i], t[k].count);
      } else {
        assert r[i - 1] == t[i - 1];
      }
    }
  }

  /** Closing the gap keeps the tiling. */
  lemma RemovedTiled(t: seq<Entry>, boot: seq<seq<Param>>, used: nat, k: nat)
    requires Tiled(t, boot, used) && k < |t| && t[k].params.Pool?
    ensures t[k].count <= used && Tiled(Removed(t, k), boot, used - t[k].count)
  {
    var r := Removed(t, k);
    ExtentMonotone(t, k);
    RemovedExtent(t, k, |t| - 1);
    assert r[..|t| - 1] == r && t[..|t|] == t;
    forall i | 0 <= i < |r| ensures Placed(r, boot, i) {
      RemovedExtent(t, k, i);
      if i < k {
        assert Placed(t, boot, i);
      } else {
        assert Placed(t, boot, i + 1);
        if t[i + 1].params.Pool? {
          PlacesOrdered(t, k, i + 1);
        }
      }
    }
  }

  /** Sliding the pool down by the removed cells: what the moved pointers then see. */
  ghost predicate Slid(pool: seq<Param>, slid: seq<Param>, start: nat, n: nat, used: nat)
    requires start + n <= used <= |pool| && used <= |slid|
  {
    && slid[..start] == pool[..start]
    && slid[start..used - n] == pool[start + n..used]
  }

  /** Deleting a set is dropping it from the list: every other set keeps id, timing and parameters. */
  lemma RemovedView(t: seq<Entry>, boot: seq<seq<Param>>, pool: seq<Param>, slid: seq<Param>, used: nat, k: nat)
    requires Tiled(t, boot, used) && used <= |pool| && |slid| == |pool| && k < |t| && t[k].params.Pool?
    requires t[k].params.offset + t[k].count <= used
    requires Slid(pool, slid, t[k].params.offset, t[k].count, used)
    ensures var v := View(t, boot, pool);
      View(Removed(t, k), boot, slid) == v[..k] + v[k + 1..]
  {
    PlacesFit(t, boot, used);
    forall i | 0 <= i < |t| && i != k
      ensures ViewOf(if i < k then t[i] else Lowered(t[i], t[k].count), boot, slid) == ViewOf(t[i], boot, pool)
    {
      RemovedViewOf(t, boot, pool, slid, used, k, i);
    }
  }

  lemma RemovedViewOf(t: seq<Entry>, boot: seq<seq<Param>>, pool: seq<Param>, slid: seq<Param>, used: nat,
                      k: nat, i: nat)
    requires Tiled(t, boot, used) && used <= |pool| && |slid| == |pool| && k < |t| && t[k].params.Pool?
    requires t[k].params.offset + t[k].count <= used
    requires Slid(pool, slid, t[k].params.offset, t[k].count, used)
    requires i < |t| && i != k && (t[i].params.Pool? ==> t[i].params.offset + t[i].count <= used)
    ensures ViewOf(if i < k then t[i] else Lowered(t[i], t[k].count), boot, slid) == ViewOf(t[i], boot, pool)
  {
    assert Placed(t, boot, i) && Placed(t, boot, k);
    if t[i].params.Pool? {
      if i < k {
        PlacesOrdered(t, i, k);
        SameBelow(pool, slid, t[k].params.offset, t[i].params.offset, t[i].count);
      } else {
        PlacesOrdered(t, k, i);
        SameAbove(pool, slid, t[k].params.offset, t[k].count, used, t[i].params.offset, t[i].count);
      }
    }
  }

  lemma SameBelow(pool: seq<Param>, slid: seq<Param>, start: nat, o: nat, c: nat)
    requires start <= |pool| && start <= |slid| && slid[..start] == pool[..start] && o + c <= start
    ensures slid[o..o + c] == pool[o..o + c]
  {
    assert slid[o..o + c] == slid[..start][o..o + c];
    assert pool[o..o + c] == pool[..start][o..o + c];
  }

  lemma SameAbove(pool: seq<Param>, slid: seq<Param>, start: nat, n: nat, used: nat, o: nat, c: nat)
    requires start + n <= used <= |pool| && used <= |slid| && Slid(pool, slid, start, n, used)
    requires start + n <= o && o + c <= used
    ensures slid[o - n..o - n + c] == pool[o..o + c]
  {
    var low, high := o - n - start, o - n - start + c;
    SliceOfSlice(slid, start, used - n, low, high);
    SliceOfSlice(pool, start + n, used, low, high);
    assert start + low == o - n && start + n + low == o;
    assert start + high == o - n + c && start + n + high == o + c;
  }

  lemma SliceOfSlice<T>(s: seq<T>, from: nat, to: nat, low: nat, high: nat)
    requires low <= high && from + high <= to <= |s|
    ensures s[from..to][low..high] == s[from + low..from + high]
  {
    var x, y := s[from..to][low..high], s[from + low..from + high];
    forall i | 0 <= i < high - low ensures x[i] == y[i] {
      assert x[i] == s[from..to][low + i];
    }
  }

  // ----- Definition -----------------------------------------------------------------------------

  /** Cells above the used prefix are not seen by any set. */
  lemma SameView(t: seq<Entry>, boot: seq<seq<Param>>, pool: seq<Param>, filled: seq<Param>, used: nat)
    requires Tiled(t, boot, used) && used <= |pool| && |filled| == |pool| && filled[..used] == pool[..used]
    ensures View(t, boot, filled) == View(t, boot, pool)
  {
    PlacesFit(t, boot, used);
    forall i | 0 <= i < |t| ensures ViewOf(t[i], boot, filled) == ViewOf(t[i], boot, pool) {
      if t[i].params.Pool? {
        SameBelow(pool, filled, used, t[i].params.offset, t[i].count);
      }
    }
  }

  /** Appending a set at the end of the used prefix keeps the tiling and appends to the list. */
  lemma AppendedView(t: seq<Entry>, boot: seq<seq<Param>>, pool: seq<Param>, used: nat, e: Entry)
    requires Tiled(t, boot, used) && e.params == Pool(used) && e.count > 0
    ensures Tiled(t + [e], boot, used + e.count)
    ensures View(t + [e], boot, pool) == View(t, boot, pool) + [ViewOf(e, boot, pool)]
  {
    var t' := t + [e];
    assert t'[..|t|] == t;
    forall i | 0 <= i < |t'| ensures Placed(t', boot, i) {
      if i < |t| {
        assert Placed(t, boot, i);
        assert t'[..i] == t[..i];
      }
    }
  }

  /** Changing timing fields of one entry changes those of one set and moves nothing. */
  lemma RetimedView(t: seq<Entry>, boot: seq<seq<Param>>, pool: seq<Param>, used: nat, k: nat, e: Entry)
    requires Tiled(t, boot, used) && used <= |pool| && k < |t|
    requires e == t[k].(interval := e.interval, countdown := e.countdown, enabled := e.enabled)
    ensures Tiled(t[k := e], boot, used)
    ensures var v := View(t, boot, pool);
      View(t[k := e], boot, pool)
        == v[k := v[k].(interval := e.interval, countdown := e.countdown, enabled := e.enabled)]
  {
    var t' := t[k := e];
    forall i: nat | i <= |t| ensures Extent(t'[..i]) == Extent(t[..i]) {
      SameExtent(t[..i], t'[..i]);
    }
    assert t'[..|t|] == t' && t[..|t|] == t;
    forall i | 0 <= i < |t| ensures Placed(t', boot, i) {
      assert Placed(t, boot, i);
    }
  }

  lemma {:induction false} SameExtent(x: seq<Entry>, y: seq<Entry>)
    requires |x| == |y| && forall i | 0 <= i < |x| :: x[i].params == y[i].params && x[i].count == y[i].count
    ensures Extent(x) == Extent(y)
  {
    if x != [] {
      SameExtent(x[..|x| - 1], y[..|y| - 1]);
    }
  }
}
