/** On-board time, `src/time/obt.c`: CUC-4,2 with a sub-fine remainder. */
module Obt {
  import opened Bytes

  datatype Time = Time(coarse: u32, fine: u16, rem: u16) {
    /** The remainder counts thousandths of a fine unit. */
    predicate Valid() {
      rem < 1000
    }

    /** The clock as one integer, in thousandths of 1/65536 s. */
    function Ticks(): nat {
      (coarse as int * U16 + fine) * 1000 + rem
    }
  }

  /** Values of Ticks before the coarse seconds wrap. */
  const PERIOD: nat := 0x1_0000_0000_0000 * 1000

  /** `obsw_obt_advance` with its 32-bit intermediates. */
  function Advance(t: Time, dt: u32): (r: Time)
    ensures r.Valid()
  {
    var scaled := (dt as int * 65536 + t.rem) % U32;
    var newFine := (t.fine as int + scaled / 1000) % U32;
    Time((t.coarse as int + newFine / 65536) % U32, newFine % 65536, scaled % 1000)
  }

  /** Below the documented 65536 ms nothing overflows: the clock moves by exactly the time given. */
  lemma AdvanceExact(t: Time, dt: u32)
    requires t.Valid() && dt < 65536
    ensures Advance(t, dt).Ticks() == (t.Ticks() + 65536 * dt as int) % PERIOD
  {
    var scaled: nat := dt as int * 65536 + t.rem;
    var n: nat := t.fine as int + scaled / 1000;
    var c: nat := t.coarse as int + n / 65536;
    NoOverflow(t, dt, scaled, n, c);
    Carry(t.coarse, t.fine, t.rem, dt);
    Wrapped(c, n % 65536, scaled % 1000);
  }

  lemma NoOverflow(t: Time, dt: u32, scaled: nat, n: nat, c: nat)
    requires t.Valid() && dt < 65536
    requires scaled == dt as int * 65536 + t.rem
    requires n == t.fine as int + scaled / 1000 && c == t.coarse as int + n / 65536
    ensures scaled < U32 && n < U32 && c < 2 * U32
    ensures Advance(t, dt) == Time(if c < U32 then c else c - U32, n % 65536, scaled % 1000)
  {
    assert n <= 65535 + 4294903;
    Reduced(scaled);
    Reduced(n);
    Reduced(c);
  }

  lemma Reduced(x: nat)
    requires x < 2 * U32
    ensures x % U32 == if x < U32 then x else x - U32
  {
  }

  /** What leaves one place of the clock arrives in the next. */
  lemma Carry(c: nat, f: nat, m: nat, dt: nat)
    ensures var scaled := dt * 65536 + m;
      var n := f + scaled / 1000;
      ((c + n / 65536) * 65536 + n % 65536) * 1000 + scaled % 1000 == (c * 65536 + f) * 1000 + m + 65536 * dt
  {
    var scaled := dt * 65536 + m;
    var n := f + scaled / 1000;
    assert (c + n / 65536) * 65536 + n % 65536 == c * 65536 + n;
  }

  lemma Wrapped(c: nat, f: u16, m: u16)
    requires c < 2 * U32 && m < 1000
    ensures ((if c < U32 then c else c - U32) * 65536 + f) * 1000 + m == ((c * 65536 + f) * 1000 + m) % PERIOD
  {
    var total := (c * 65536 + f) * 1000 + m;
    if c < U32 {
      assert total < PERIOD;
    } else {
      assert PERIOD <= total < 2 * PERIOD;
    }
  }

  /** The integer determines the clock. */
  lemma TicksInjective(s: Time, t: Time)
    requires s.Valid() && t.Valid() && s.Ticks() == t.Ticks()
    ensures s == t
  {
    DivideBy1000(s.coarse as int * U16 + s.fine, s.rem);
    DivideBy1000(t.coarse as int * U16 + t.fine, t.rem);
  }

  lemma DivideBy1000(q: nat, r: nat)
    requires r < 1000
    ensures (q * 1000 + r) / 1000 == q && (q * 1000 + r) % 1000 == r
  {
  }

  function Run(t: Time, steps: seq<u32>): (r: Time)
    requires t.Valid()
    ensures r.Valid()
  {
    if steps == [] then t else Advance(Run(t, steps[..|steps| - 1]), steps[|steps| - 1])
  }

  function Sum(steps: seq<u32>): nat {
    if steps == [] then 0 else Sum(steps[..|steps| - 1]) + steps[|steps| - 1]
  }

  lemma {:induction false} RunExact(t: Time, steps: seq<u32>)
    requires t.Valid() && forall i | 0 <= i < |steps| :: steps[i] < 65536
    ensures Run(t, steps).Ticks() == (t.Ticks() + 65536 * Sum(steps)) % PERIOD
  {
    if steps == [] {
      assert t.Ticks() < PERIOD;
    } else {
      var n := |steps| - 1;
      RunExact(t, steps[..n]);
      AdvanceExact(Run(t, steps[..n]), steps[n]);
      AddModulo(t.Ticks() + 65536 * Sum(steps[..n]), 65536 * steps[n] as int);
    }
  }

  lemma AddModulo(a: nat, b: nat)
    ensures (a % PERIOD + b) % PERIOD == (a + b) % PERIOD
  {
  }

  /** No drift: however a span of time is cut into ticks, the clock ends in the identical state. */
  lemma NoDrift(t: Time, a: seq<u32>, b: seq<u32>)
    requires t.Valid() && Sum(a) == Sum(b)
    requires (forall i | 0 <= i < |a| :: a[i] < 65536) && forall i | 0 <= i < |b| :: b[i] < 65536
    ensures Run(t, a) == Run(t, b)
  {
    RunExact(t, a);
    RunExact(t, b);
    TicksInjective(Run(t, a), Run(t, b));
  }

  /** A step of 65536 ms or more acts as its remainder modulo 65536 ms: the 32-bit product wraps. */
  lemma LongStep(t: Time, dt: u32)
    requires t.Valid()
    ensures Advance(t, dt) == Advance(t, dt % 65536)
  {
    var q: nat, r: nat := dt / 65536, dt % 65536;
    WrappedProduct(q, r, t.rem);
    assert dt as int * 65536 + t.rem == (q * 65536 + r) * 65536 + t.rem;
    assert r * 65536 + t.rem < U32;
  }

  lemma WrappedProduct(q: nat, r: nat, m: nat)
    requires r < 65536 && m < 1000
    ensures ((q * 65536 + r) * 65536 + m) % U32 == (r * 65536 + m) % U32
  {
    assert (q * 65536 + r) * 65536 + m == q * U32 + (r * 65536 + m);
  }

  /** The documented bound is exact: the clock moves by the time given, from whatever state, if and only
      if the step is below 65536 ms. */
  lemma BoundIsExact(t: Time, dt: u32)
    requires t.Valid()
    ensures Advance(t, dt).Ticks() == (t.Ticks() + 65536 * dt as int) % PERIOD <==> dt < 65536
  {
    if dt < 65536 {
      AdvanceExact(t, dt);
    } else {
      LongStep(t, dt);
      AdvanceExact(t, dt % 65536);
      LostTime(t.Ticks(), dt / 65536, dt % 65536);
    }
  }

  /** What a long step loses is less than a period of the clock. */
  lemma LostTime(ticks: nat, q: nat, r: nat)
    requires 0 < q < 65536 && r < 65536
    ensures (ticks + 65536 * r) % PERIOD != (ticks + 65536 * (q * 65536 + r)) % PERIOD
  {
    var a, lost := ticks + 65536 * r, U32 * q;
    assert ticks + 65536 * (q * 65536 + r) == a + lost;
    assert 0 < lost < PERIOD;
    NotCongruent(a, lost);
  }

  lemma NotCongruent(a: nat, b: nat)
    requires 0 < b < PERIOD
    ensures a % PERIOD != (a + b) % PERIOD
  {
  }

  class Clock {
    var coarse: u32
    var fine: u16
    var rem: u16

    ghost function View(): Time
      reads this
    {
      Time(coarse, fine, rem)
    }

    constructor ()
      ensures View() == Time(0, 0, 0)
    {
      coarse, fine, rem := 0, 0, 0;
    }

    /** `obsw_obt_advance`. */
    method AdvanceBy(dt: u32)
      modifies this
      ensures View() == Advance(old(View()), dt)
    {
      var scaled := (dt as int * 65536 + rem) % U32;
      var newFine := (fine as int + scaled / 1000) % U32;
      rem := scaled % 1000;
      coarse := (coarse as int + newFine / 65536) % U32;
      fine := newFine % 65536;
    }

    /** `obsw_obt_set`. */
    method Set(coarse: u32, fine: u16)
      modifies this
      ensures View() == Time(coarse, fine, 0)
    {
      this.coarse, this.fine, rem := coarse, fine, 0;
    }
  }
}
