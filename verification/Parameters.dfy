/** The S20 parameter table: 32-bit values by identifier (`include/obsw/pus/s20.h`). */
module Parameters {
  import opened Bytes
  import BitString

  datatype Kind = U32Kind | I32Kind | F32Kind

  datatype Entry = Entry(id: u16, value: u32, kind: Kind)

  /** `obsw_s20_find`: position of the first entry with an identifier, or the table length. */
  function Position(t: seq<Entry>, id: u16): (k: nat)
    ensures k <= |t| && (k < |t| ==> t[k].id == id)
    ensures forall i | 0 <= i < k :: t[i].id != id
  {
    if t == [] || t[0].id == id then 0 else 1 + Position(t[1..], id)
  }

  predicate Has(t: seq<Entry>, id: u16) {
    Position(t, id) < |t|
  }

  function Ids(t: seq<Entry>): (r: seq<u16>)
    ensures |r| == |t|
  {
    seq(|t|, i requires 0 <= i < |t| => t[i].id)
  }

  lemma {:induction false} PositionIs(t: seq<Entry>, id: u16, k: nat)
    requires k <= |t| && (k < |t| ==> t[k].id == id) && forall i | 0 <= i < k :: t[i].id != id
    ensures Position(t, id) == k
  {
    if k > 0 {
      PositionIs(t[1..], id, k - 1);
    }
  }

  method FindEntry(t: array<Entry>, id: u16) returns (k: nat)
    ensures k == Position(t[..], id)
  {
    k := 0;
    while k < t.Length && t[k].id != id
      invariant k <= t.Length && forall i | 0 <= i < k :: t[i].id != id
    {
      k := k + 1;
    }
    PositionIs(t[..], id, k);
  }

  // ----- Binary32 values as their bit patterns --------------------------------------------------

  predicate IsNan(v: u32) {
    v % 0x8000_0000 > 0x7F80_0000
  }

  /** Order of the non-NaN patterns: sign and magnitude, with both zeros equal. */
  function Rank(v: u32): int {
    if v < 0x8000_0000 then v else 0x8000_0000 - v
  }

  /** The C comparison `a < b` on floats: false as soon as either side is a NaN. */
  predicate Less(a: u32, b: u32) {
    !IsNan(a) && !IsNan(b) && Rank(a) < Rank(b)
  }

  /** The value of the bits below the sign, in units of 2^-149: fraction and exponent of binary32, infinity as the
      first value beyond the finite ones. */
  function Magnitude(v: u32): int {
    var e, f := v % 0x8000_0000 / 0x80_0000, v % 0x80_0000;
    if e == 0 then f else (0x80_0000 + f) * BitString.Pow2(e - 1)
  }

  /** The value of a pattern, sign included. */
  function Units(v: u32): int {
    if v < 0x8000_0000 then Magnitude(v) else -Magnitude(v)
  }

  lemma MagnitudeIs(v: u32, e: nat, f: nat)
    requires v < 0x8000_0000 && v == e * 0x80_0000 + f && f < 0x80_0000
    ensures Magnitude(v) == if e == 0 then f else (0x80_0000 + f) * BitString.Pow2(e - 1)
  {
    hide BitString.Pow2;
    Split(e, f, v);
  }

  lemma PowNext(n: nat)
    ensures BitString.Pow2(n) > 0 && BitString.Pow2(n + 1) == 2 * BitString.Pow2(n)
  {
    PowPositive(n);
  }

  lemma MagnitudeStep(v: u32)
    requires v < 0x7FFF_FFFF
    ensures Magnitude(v) < Magnitude(v + 1)
  {
    hide Magnitude, BitString.Pow2;
    var e, f: nat := v / 0x80_0000, v % 0x80_0000;
    MagnitudeIs(v, e, f);
    if e > 0 {
      PowNext(e - 1);
      Larger(0x80_0000 + f, BitString.Pow2(e - 1));
    }
    if f < 0x7F_FFFF {
      MagnitudeIs(v + 1, e, f + 1);
    } else {
      MagnitudeIs(v + 1, e + 1, 0);
      if e == 0 {
        PowZero();
      } else {
        Doubled(0x80_0000, BitString.Pow2(e - 1));
      }
    }
  }

  lemma PowZero()
    ensures BitString.Pow2(0) == 1
  {
  }

  lemma Doubled(x: nat, p: nat)
    ensures (x + x) * p == x * (2 * p)
  {
  }

  lemma Larger(x: nat, p: nat)
    requires p > 0
    ensures x * p < (x + 1) * p
  {
  }

  lemma Split(e: nat, f: nat, v: nat)
    requires f < 0x80_0000 && v == e * 0x80_0000 + f
    ensures v / 0x80_0000 == e && v % 0x80_0000 == f
  {
  }

  lemma {:induction false} PowPositive(n: nat)
    ensures BitString.Pow2(n) > 0
  {
    if n > 0 {
      PowPositive(n - 1);
    }
  }

  lemma {:induction false} MagnitudeGrows(a: u32, b: u32)
    requires a < b < 0x8000_0000
    ensures Magnitude(a) < Magnitude(b)
    decreases b - a
  {
    hide Magnitude;
    MagnitudeStep(b - 1);
    if a < b - 1 {
      MagnitudeGrows(a, b - 1);
    }
  }

  /** The comparison of patterns is that of the numbers they stand for, and false for a NaN on either side. */
  lemma LessIsOrder(a: u32, b: u32)
    ensures Less(a, b) <==> !IsNan(a) && !IsNan(b) && Units(a) < Units(b)
  {
    hide Magnitude;
    var x, y := a % 0x8000_0000, b % 0x8000_0000;
    MagnitudeOfRest(a);
    MagnitudeOfRest(b);
    MagnitudeOrder(x, y);
    MagnitudeOrder(y, x);
    MagnitudeOrder(0, x);
    MagnitudeOrder(0, y);
    ZeroMagnitude();
  }

  lemma ZeroMagnitude()
    ensures Magnitude(0) == 0
  {
  }

  lemma MagnitudeOfRest(v: u32)
    ensures Magnitude(v) == Magnitude(v % 0x8000_0000)
  {
    var r := v % 0x8000_0000;
    assert v % 0x80_0000 == r % 0x80_0000 && r % 0x8000_0000 == r;
  }

  lemma MagnitudeOrder(a: u32, b: u32)
    requires a < 0x8000_0000 && b < 0x8000_0000
    ensures a < b <==> Magnitude(a) < Magnitude(b)
  {
    hide Magnitude;
    if a < b {
      MagnitudeGrows(a, b);
    } else if b < a {
      MagnitudeGrows(b, a);
    }
  }

  /** `obsw_s20_as_float`, with the machine's integer-to-float conversion left open. */
  function AsFloat(e: Entry, convert: (Kind, u32) -> u32): u32 {
    if e.kind == F32Kind then e.value else convert(e.kind, e.value)
  }
}
