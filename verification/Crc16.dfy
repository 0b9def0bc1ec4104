/**
  CRC-16/CCITT (polynomial 0x1021, initial value 0xFFFF, no final XOR) of
  `src/ccsds/tc_frame.c`. The specification is the shift register as a polynomial: sixteen
  coefficients fed one message bit at a time. `Crc16Ccitt` is the C routine on machine words.
  */
module Crc16 {
  import opened BitString
  import opened Bytes

  /** Register contents, most significant bit first. */
  type Reg = r: seq<bool> | |r| == 16 witness Uniform(false)

  function Uniform(b: bool): (r: seq<bool>)
    ensures |r| == 16
  {
    seq(16, i => b)
  }

  function Zero(): Reg {
    Uniform(false)
  }

  function Init(): Reg {
    Uniform(true)
  }

  /** Positions of the ones of 0x1021, most significant bit first. */
  predicate Poly(i: nat) {
    i == 3 || i == 10 || i == 15
  }

  /** The register after one message bit: multiply by x and reduce. */
  function FeedBit(c: Reg, b: bool): Reg {
    seq(16, i requires 0 <= i < 16 => (i < 15 && c[i + 1]) != (c[0] != b && Poly(i)))
  }

  function Absorb(c: Reg, bits: seq<bool>): Reg
    decreases |bits|
  {
    if bits == [] then c else Absorb(FeedBit(c, bits[0]), bits[1..])
  }

  function CrcBits(m: bytes): Reg {
    Absorb(Init(), Bits(m))
  }

  function Xor(x: seq<bool>, y: seq<bool>): (z: seq<bool>)
    requires |x| == |y|
    ensures |z| == |x|
  {
    seq(|x|, i requires 0 <= i < |x| => x[i] != y[i])
  }

  // ----- The register is linear and invertible ---------------------------------------------

  lemma {:induction false} AbsorbConcat(c: Reg, x: seq<bool>, y: seq<bool>)
    ensures Absorb(c, x + y) == Absorb(Absorb(c, x), y)
    decreases |x|
  {
    if x == [] {
      assert x + y == y;
    } else {
      assert (x + y)[1..] == x[1..] + y;
      AbsorbConcat(FeedBit(c, x[0]), x[1..], y);
    }
  }

  lemma FeedLinear(c: Reg, d: Reg, x: bool, y: bool)
    ensures FeedBit(Xor(c, d), x != y) == Xor(FeedBit(c, x), FeedBit(d, y))
  {
  }

  /** Superposition: the register of a sum is the sum of the registers. */
  lemma {:induction false} AbsorbLinear(c: Reg, d: Reg, x: seq<bool>, y: seq<bool>)
    requires |x| == |y|
    ensures Absorb(Xor(c, d), Xor(x, y)) == Xor(Absorb(c, x), Absorb(d, y))
    decreases |x|
  {
    if x == [] {
    } else {
      FeedLinear(c, d, x[0], y[0]);
      assert Xor(x, y)[1..] == Xor(x[1..], y[1..]);
      AbsorbLinear(FeedBit(c, x[0]), FeedBit(d, y[0]), x[1..], y[1..]);
    }
  }

  predicate AllZero(e: seq<bool>) {
    forall i | 0 <= i < |e| :: !e[i]
  }

  /** Zero bits keep a zero register zero and a nonzero one nonzero. */
  lemma {:induction false} AbsorbZeros(c: Reg, bits: seq<bool>)
    requires AllZero(bits)
    ensures Absorb(c, bits) == Zero() <==> c == Zero()
    decreases |bits|
  {
    if bits != [] {
      FeedZero(c);
      AbsorbZeros(FeedBit(c, false), bits[1..]);
    }
  }

  lemma FeedZero(c: Reg)
    ensures FeedBit(c, false) == Zero() <==> c == Zero()
  {
    var n := FeedBit(c, false);
    if n == Zero() {
      assert !n[15];
      forall i | 0 < i < 16 ensures !c[i] {
        assert !n[i - 1];
      }
    }
  }

  /** A short bit string at the top of the register. */
  function Align(bits: seq<bool>): Reg
    requires |bits| <= 16
  {
    seq(16, i requires 0 <= i < 16 => i < |bits| && bits[i])
  }

  lemma FeedAligned(s: Reg, bits: seq<bool>)
    requires 0 < |bits| <= 16
    ensures FeedBit(s, bits[0]) == Align(bits[1..]) <==> s == Align(bits)
  {
    var n := FeedBit(s, bits[0]);
    if n == Align(bits[1..]) {
      assert !n[15] && s[0] == bits[0];
      forall i | 0 < i < 16 ensures s[i] == Align(bits)[i] {
        assert n[i - 1] == Align(bits[1..])[i - 1];
      }
    }
  }

  /** Only one register value is cancelled by a given string of at most 16 bits: that string. */
  lemma {:induction false} CancelledBy(s: Reg, bits: seq<bool>)
    requires |bits| <= 16
    ensures Absorb(s, bits) == Zero() <==> s == Align(bits)
    decreases |bits|
  {
    if bits == [] {
      assert Align(bits) == Zero();
    } else {
      CancelledBy(FeedBit(s, bits[0]), bits[1..]);
      FeedAligned(s, bits);
    }
  }

  // ----- Frames that end in their CRC -------------------------------------------------------

  /** The last two octets are the CRC of what precedes them. */
  predicate FecfOk(f: bytes)
    requires |f| >= 2
  {
    CrcBits(f[..|f| - 2]) == Bits(f[|f| - 2..])
  }

  /** Acceptance is exactly a zero residue over the whole frame, CRC field included. */
  lemma Residue(f: bytes)
    requires |f| >= 2
    ensures FecfOk(f) <==> CrcBits(f) == Zero()
  {
    var body, fecf := f[..|f| - 2], f[|f| - 2..];
    assert f == body + fecf;
    BitsConcat(body, fecf);
    AbsorbConcat(Init(), Bits(body), Bits(fecf));
    CancelledBy(CrcBits(body), Bits(fecf));
    assert Align(Bits(fecf)) == Bits(fecf);
  }

  /** The residue of a changed frame differs from the original's by the register of the change. */
  lemma Difference(f: bytes, g: bytes, e: seq<bool>)
    requires |f| == |g| && |e| == 8 * |f|
    requires Bits(g) == Xor(Bits(f), e)
    ensures CrcBits(g) == Xor(CrcBits(f), Absorb(Zero(), e))
  {
    AbsorbLinear(Init(), Zero(), Bits(f), e);
    assert Xor(Init(), Zero()) == Init();
  }

  /** Zeros around a pattern do not change whether it leaves a residue. */
  lemma AbsorbInside(before: seq<bool>, burst: seq<bool>, after: seq<bool>)
    requires AllZero(before) && AllZero(after)
    ensures Absorb(Zero(), before + (burst + after)) == Zero() <==> Absorb(Zero(), burst) == Zero()
  {
    AbsorbConcat(Zero(), before, burst + after);
    AbsorbZeros(Zero(), before);
    AbsorbConcat(Zero(), burst, after);
    AbsorbZeros(Absorb(Zero(), burst), after);
  }

  /** An error pattern confined to at most 16 consecutive bits, and not empty, leaves a residue. */
  lemma BurstLeavesResidue(e: seq<bool>, p: nat, q: nat, k: nat)
    requires p <= k < q <= |e| && q - p <= 16 && e[k]
    requires AllZero(e[..p]) && AllZero(e[q..])
    ensures Absorb(Zero(), e) != Zero()
  {
    assert e == e[..p] + (e[p..q] + e[q..]);
    AbsorbInside(e[..p], e[p..q], e[q..]);
    CancelledBy(Zero(), e[p..q]);
    assert Align(e[p..q])[k - p];
  }

  lemma DifferentBit(f: bytes, g: bytes) returns (k: nat)
    requires |f| == |g| && f != g
    ensures k < 8 * |f| && Bits(f)[k] != Bits(g)[k]
  {
    if forall i | 0 <= i < 8 * |f| :: Bits(f)[i] == Bits(g)[i] {
      BitsInjective(f, g);
      assert false;
    }
    k :| k < 8 * |f| && Bits(f)[k] != Bits(g)[k];
  }

  lemma XorCancels(x: seq<bool>, y: seq<bool>)
    requires |x| == |y|
    ensures Xor(x, Xor(x, y)) == y
  {
  }

  /** Of two accepted frames, the change from one to the other leaves no residue by itself. */
  lemma AcceptedDifference(f: bytes, g: bytes)
    requires |f| == |g| >= 2 && FecfOk(f)
    ensures FecfOk(g) <==> Absorb(Zero(), Xor(Bits(f), Bits(g))) == Zero()
  {
    Residue(f);
    Residue(g);
    XorCancels(Bits(f), Bits(g));
    var e := Xor(Bits(f), Bits(g));
    Difference(f, g, e);
    XorZero(Absorb(Zero(), e));
  }

  lemma XorZero(d: Reg)
    ensures Xor(Zero(), d) == d
  {
  }

  /**
    Burst detection: a frame of any length that passes the check no longer passes it after any
    change confined to 16 consecutive bits, wherever they lie, CRC field included.
    */
  lemma BurstDetected(f: bytes, g: bytes, p: nat)
    requires |f| == |g| >= 2 && f != g && FecfOk(f)
    requires forall i | 0 <= i < 8 * |f| && !(p <= i < p + 16) :: Bits(f)[i] == Bits(g)[i]
    ensures !FecfOk(g)
  {
    hide Bits, FecfOk, Xor, Absorb, AllZero;
    var k := DifferentBit(f, g);
    XorAt(Bits(f), Bits(g), k);
    var q := if p + 16 <= 8 * |f| then p + 16 else 8 * |f|;
    ZeroOutside(Bits(f), Bits(g), p, q);
    BurstLeavesResidue(Xor(Bits(f), Bits(g)), p, q, k);
    AcceptedDifference(f, g);
  }

  lemma XorAt(x: seq<bool>, y: seq<bool>, k: nat)
    requires |x| == |y| && k < |x|
    ensures Xor(x, y)[k] <==> x[k] != y[k]
  {
  }

  lemma ZeroOutside(x: seq<bool>, y: seq<bool>, p: nat, q: nat)
    requires |x| == |y| && p <= q <= |x|
    requires forall i | 0 <= i < |x| && !(p <= i < q) :: x[i] == y[i]
    ensures AllZero(Xor(x, y)[..p]) && AllZero(Xor(x, y)[q..])
  {
  }

  // ----- The bound is tight -----------------------------------------------------------------

  /** The generator polynomial itself, x^16 + x^12 + x^5 + 1, as a 17-bit error pattern. */
  function Generator(): seq<bool> {
    [true] + seq(16, i requires 0 <= i < 16 => Poly(i))
  }

  lemma GeneratorCancels()
    ensures Absorb(Zero(), Generator()) == Zero()
  {
    var g := Generator();
    var tail := g[1..];
    assert FeedBit(Zero(), true) == Align(tail);
    CancelledBy(FeedBit(Zero(), true), tail);
  }

  /** The frame g is f with the generator pattern added at bit position p. */
  ghost predicate FlippedByGenerator(f: bytes, g: bytes, p: nat) {
    && |f| == |g| && p + 17 <= 8 * |f|
    && var e := Xor(Bits(f), Bits(g));
       AllZero(e[..p]) && e[p..p + 17] == Generator() && AllZero(e[p + 17..])
  }

  /**
    The 16 above cannot be 17: flipping the generator pattern at any bit position turns every
    accepted frame into another accepted frame.
    */
  lemma SeventeenBitsCanPass(f: bytes, g: bytes, p: nat)
    requires |f| >= 2 && FecfOk(f) && FlippedByGenerator(f, g, p)
    ensures FecfOk(g) && f != g
  {
    var e := Xor(Bits(f), Bits(g));
    assert e == e[..p] + (Generator() + e[p + 17..]);
    GeneratorCancels();
    AbsorbInside(e[..p], Generator(), e[p + 17..]);
    AcceptedDifference(f, g);
    assert e[p] by { assert e[p..p + 17][0] == Generator()[0]; }
  }

  // ----- The C routine on machine words -------------------------------------------------------

  /** The weight of position i of a machine word, most significant position first. */
  function Weight(i: nat): bv16
    requires i < 16
  {
    if i == 0 then 0x8000 else if i == 1 then 0x4000 else if i == 2 then 0x2000 else
    if i == 3 then 0x1000 else if i == 4 then 0x0800 else if i == 5 then 0x0400 else
    if i == 6 then 0x0200 else if i == 7 then 0x0100 else if i == 8 then 0x0080 else
    if i == 9 then 0x0040 else if i == 10 then 0x0020 else if i == 11 then 0x0010 else
    if i == 12 then 0x0008 else if i == 13 then 0x0004 else if i == 14 then 0x0002 else 0x0001
  }

  predicate IsWeight(w: bv16) {
    || w == 0x8000 || w == 0x4000 || w == 0x2000 || w == 0x1000
    || w == 0x0800 || w == 0x0400 || w == 0x0200 || w == 0x0100
    || w == 0x0080 || w == 0x0040 || w == 0x0020 || w == 0x0010
    || w == 0x0008 || w == 0x0004 || w == 0x0002 || w == 0x0001
  }

  predicate Has(c: bv16, w: bv16) {
    c & w != 0
  }

  /** The bits of a machine word. */
  function Word(c: bv16): Reg {
    seq(16, i requires 0 <= i < 16 => Has(c, Weight(i)))
  }

  lemma HasXor(c: bv16, d: bv16, w: bv16)
    requires IsWeight(w)
    ensures Has(c ^ d, w) == (Has(c, w) != Has(d, w))
  {
  }

  /** Disjoint halves may be joined with either operator. */
  lemma OrIsXor(c: bv16, d: bv16)
    requires c & 0xFF == 0 && d & 0xFF00 == 0
    ensures c | d == c ^ d
  {
  }

  /** The inner loop body of the C routine. */
  function ShiftWord(c: bv16): bv16 {
    if c & 0x8000 != 0 then (c << 1) ^ 0x1021 else c << 1
  }

  lemma HasLeft(c: bv16, w: bv16)
    ensures Has(c << 1, w) == Has(c, w >> 1)
  {
  }

  lemma HasShift(c: bv16, w: bv16)
    requires IsWeight(w)
    ensures Has(ShiftWord(c), w) == (Has(c, w >> 1) != (Has(c, 0x8000) && Has(0x1021, w)))
  {
    hide Has, IsWeight;
    HasLeft(c, w);
    TopBit(c);
    if c & 0x8000 != 0 {
      HasXor(c << 1, 0x1021, w);
    }
  }

  lemma TopBit(c: bv16)
    ensures Has(c, 0x8000) <==> c & 0x8000 != 0
  {
  }

  lemma ByteBits(b: u8)
    ensures Has(b as bv16, 0x80) == (b / 128 % 2 == 1)
    ensures Has(b as bv16, 0x40) == (b / 64 % 2 == 1)
    ensures Has(b as bv16, 0x20) == (b / 32 % 2 == 1)
    ensures Has(b as bv16, 0x10) == (b / 16 % 2 == 1)
    ensures Has(b as bv16, 0x08) == (b / 8 % 2 == 1)
    ensures Has(b as bv16, 0x04) == (b / 4 % 2 == 1)
    ensures Has(b as bv16, 0x02) == (b / 2 % 2 == 1)
    ensures Has(b as bv16, 0x01) == (b % 2 == 1)
  {
  }

  lemma ByteHalves(b: u8)
    ensures (b as bv16) & 0xFF00 == 0 && ((b as bv16) << 8) & 0xFF == 0
  {
  }

  lemma HasHigh(c: bv16, w: bv16)
    ensures Has(c << 8, w) == Has(c, w >> 8)
  {
  }

  lemma HasNone(c: bv16)
    ensures !Has(c, 0)
  {
  }

  lemma LowBitsOfByte(b: u8, i: nat)
    requires i < 16
    ensures Has(b as bv16, Weight(i)) == (8 <= i && BitOf(b, i - 8))
  {
    ByteBits(b);
    ByteHalves(b);
    if i < 8 {
      NoHighBits(b as bv16, Weight(i));
    }
  }

  lemma NoHighBits(c: bv16, w: bv16)
    requires c & 0xFF00 == 0 && w & 0xFF == 0
    ensures !Has(c, w)
  {
  }

  lemma HighBitsOfByte(b: u8, i: nat)
    requires i < 16
    ensures Has((b as bv16) << 8, Weight(i)) == (i < 8 && BitOf(b, i))
  {
    HasHigh(b as bv16, Weight(i));
    if i < 8 {
      assert Weight(i) >> 8 == Weight(i + 8);
      LowBitsOfByte(b, i + 8);
    } else {
      assert Weight(i) >> 8 == 0;
    }
  }

  lemma WordXor(c: bv16, d: bv16)
    ensures Word(c ^ d) == Xor(Word(c), Word(d))
  {
    forall i | 0 <= i < 16 ensures Word(c ^ d)[i] == Xor(Word(c), Word(d))[i] {
      HasXor(c, d, Weight(i));
    }
  }

  lemma WeightStep(i: nat)
    requires i < 16
    ensures Weight(i) >> 1 == if i < 15 then Weight(i + 1) else 0
  {
  }

  lemma PolyWord(i: nat)
    requires i < 16
    ensures Has(0x1021, Weight(i)) == Poly(i)
  {
  }

  lemma BitShift(c: bv16, i: nat)
    requires i < 16
    ensures Has(ShiftWord(c), Weight(i))
         == ((i < 15 && Has(c, Weight(i + 1))) != (Has(c, Weight(0)) && Poly(i)))
  {
    HasShift(c, Weight(i));
    WeightStep(i);
    PolyWord(i);
    HasNone(c);
  }

  lemma WordShift(c: bv16)
    ensures Word(ShiftWord(c)) == FeedBit(Word(c), false)
  {
    forall i | 0 <= i < 16 ensures Word(ShiftWord(c))[i] == FeedBit(Word(c), false)[i] {
      BitShift(c, i);
    }
  }

  lemma WordOfByte(b: u8)
    ensures Word((b as bv16) << 8) == Align(BitsOfByte(b))
  {
    forall i | 0 <= i < 16 ensures Word((b as bv16) << 8)[i] == Align(BitsOfByte(b))[i] {
      HighBitsOfByte(b, i);
    }
  }

  /** The CRC field as the decoder assembles it from the last two octets. */
  lemma WordOfField(hi: u8, lo: u8)
    ensures Word(((hi as bv16) << 8) | (lo as bv16)) == Bits([hi, lo])
  {
    ByteHalves(hi);
    ByteHalves(lo);
    OrIsXor((hi as bv16) << 8, lo as bv16);
    WordXor((hi as bv16) << 8, lo as bv16);
    FieldBits(hi, lo);
    BitsOfTwo(hi, lo);
  }

  lemma FieldBits(hi: u8, lo: u8)
    ensures Xor(Word((hi as bv16) << 8), Word(lo as bv16)) == BitsOfByte(hi) + BitsOfByte(lo)
  {
    var x, y := Xor(Word((hi as bv16) << 8), Word(lo as bv16)), BitsOfByte(hi) + BitsOfByte(lo);
    forall i | 0 <= i < 16 ensures x[i] == y[i] {
      BitOfField(hi, lo, i);
    }
  }

  lemma BitOfField(hi: u8, lo: u8, i: nat)
    requires i < 16
    ensures (Has((hi as bv16) << 8, Weight(i)) != Has(lo as bv16, Weight(i)))
         == if i < 8 then BitOf(hi, i) else BitOf(lo, i - 8)
  {
    HighBitsOfByte(hi, i);
    LowBitsOfByte(lo, i);
  }

  lemma WordInjective(c: bv16, d: bv16)
    ensures Word(c) == Word(d) <==> c == d
  {
    if Word(c) == Word(d) {
      forall i | 0 <= i < 16 ensures Has(c, Weight(i)) == Has(d, Weight(i)) {
        assert Word(c)[i] == Word(d)[i];
      }
      SameWord(c, d);
    }
  }

  lemma SameWord(c: bv16, d: bv16)
    requires forall i | 0 <= i < 16 :: Has(c, Weight(i)) == Has(d, Weight(i))
    ensures c == d
  {
    forall i | 0 <= i < 16 ensures !Has(c ^ d, Weight(i)) {
      HasXor(c, d, Weight(i));
    }
    NoBits(c ^ d);
    XorEqual(c, d);
  }

  lemma XorEqual(c: bv16, d: bv16)
    requires c ^ d == 0
    ensures c == d
  {
  }

  lemma NoBits(c: bv16)
    requires forall i | 0 <= i < 16 :: !Has(c, Weight(i))
    ensures c == 0
  {
    assert !Has(c, Weight(0)) && !Has(c, Weight(1)) && !Has(c, Weight(2)) && !Has(c, Weight(3));
    assert !Has(c, Weight(4)) && !Has(c, Weight(5)) && !Has(c, Weight(6)) && !Has(c, Weight(7));
    assert !Has(c, Weight(8)) && !Has(c, Weight(9)) && !Has(c, Weight(10)) && !Has(c, Weight(11));
    assert !Has(c, Weight(12)) && !Has(c, Weight(13)) && !Has(c, Weight(14)) && !Has(c, Weight(15));
  }

  /** Shifting a register with a pending bit at its top feeds that bit. */
  lemma ShiftPending(y: Reg, bits: seq<bool>)
    requires 0 < |bits| <= 16
    ensures FeedBit(Xor(y, Align(bits)), false) == Xor(FeedBit(y, bits[0]), Align(bits[1..]))
  {
  }

  lemma AbsorbOneMore(c: Reg, bits: seq<bool>, j: nat)
    requires j < |bits|
    ensures Absorb(c, bits[..j + 1]) == FeedBit(Absorb(c, bits[..j]), bits[j])
  {
    assert bits[..j + 1] == bits[..j] + [bits[j]];
    AbsorbConcat(c, bits[..j], [bits[j]]);
  }

  /** `obsw_crc16_ccitt`: the byte-wise loop computes the register of the bit-serial definition. */
  method Crc16Ccitt(buf: bytes) returns (crc: bv16)
    ensures Word(crc) == CrcBits(buf)
  {
    crc := 0xFFFF;
    WordInit();
    for i := 0 to |buf|
      invariant Word(crc) == CrcBits(buf[..i])
    {
      ghost var start := Word(crc);
      ghost var bits := BitsOfByte(buf[i]);
      FirstPending(crc, buf[i]);
      crc := crc ^ ((buf[i] as bv16) << 8);
      for j := 0 to 8
        invariant Pending(crc, start, bits, j)
      {
        PendingNext(crc, start, bits, j);
        if crc & 0x8000 != 0 {
          crc := (crc << 1) ^ 0x1021;
        } else {
          crc := crc << 1;
        }
      }
      NonePending(crc, buf, i);
    }
    assert buf[..|buf|] == buf;
  }

  /** The register has absorbed j bits of an octet; the others wait at its top. */
  ghost predicate Pending(crc: bv16, start: Reg, bits: seq<bool>, j: nat) {
    j <= |bits| == 8 && Word(crc) == Xor(Absorb(start, bits[..j]), Align(bits[j..]))
  }

  lemma FirstPending(crc: bv16, b: u8)
    ensures Pending(crc ^ ((b as bv16) << 8), Word(crc), BitsOfByte(b), 0)
  {
    hide Word;
    var bits := BitsOfByte(b);
    WordXor(crc, (b as bv16) << 8);
    WordOfByte(b);
    assert bits[..0] == [] && bits[0..] == bits;
  }

  lemma PendingNext(crc: bv16, start: Reg, bits: seq<bool>, j: nat)
    requires Pending(crc, start, bits, j) && j < 8
    ensures Pending(ShiftWord(crc), start, bits, j + 1)
  {
    hide Word, FeedBit;
    WordShift(crc);
    ShiftPending(Absorb(start, bits[..j]), bits[j..]);
    AbsorbOneMore(start, bits, j);
    assert bits[j..][1..] == bits[j + 1..];
  }

  lemma NonePending(crc: bv16, buf: bytes, i: nat)
    requires i < |buf| && Pending(crc, CrcBits(buf[..i]), BitsOfByte(buf[i]), 8)
    ensures Word(crc) == CrcBits(buf[..i + 1])
  {
    hide Word, FeedBit;
    var bits := BitsOfByte(buf[i]);
    XorNothing(Absorb(CrcBits(buf[..i]), bits));
    assert bits[..8] == bits && bits[8..] == [];
    BitsOneMore(buf, i);
    AbsorbConcat(Init(), Bits(buf[..i]), bits);
  }

  lemma WordInit()
    ensures Word(0xFFFF) == Init()
  {
  }

  lemma XorNothing(c: Reg)
    ensures Xor(c, Align([])) == c
  {
  }

  function EightShifts(c: bv16): bv16 {
    ShiftWord(ShiftWord(ShiftWord(ShiftWord(ShiftWord(ShiftWord(ShiftWord(ShiftWord(c))))))))
  }

  /** One octet of a message, as the inner loop takes it in. */
  lemma VectorStep(m: bytes, i: nat, crc: bv16, top: bv16, next: bv16)
    requires i < |m| && Word(crc) == CrcBits(m[..i]) && top == (m[i] as bv16) << 8 && next == EightShifts(crc ^ top)
    ensures Word(next) == CrcBits(m[..i + 1])
  {
    hide Word, ShiftWord, Pending, CrcBits, BitsOfByte;
    var start, bits := Word(crc), BitsOfByte(m[i]);
    FirstPending(crc, m[i]);
    var w0 := crc ^ top;
    var w1 := ShiftWord(w0);
    var w2 := ShiftWord(w1);
    var w3 := ShiftWord(w2);
    var w4 := ShiftWord(w3);
    var w5 := ShiftWord(w4);
    var w6 := ShiftWord(w5);
    var w7 := ShiftWord(w6);
    PendingNext(w0, start, bits, 0);
    PendingNext(w1, start, bits, 1);
    PendingNext(w2, start, bits, 2);
    PendingNext(w3, start, bits, 3);
    PendingNext(w4, start, bits, 4);
    PendingNext(w5, start, bits, 5);
    PendingNext(w6, start, bits, 6);
    PendingNext(w7, start, bits, 7);
    NonePending(next, m, i);
  }

  /** The standard check value: the CRC of the digits 1 to 9 is 0x29B1. */
  lemma CheckValue()
    ensures CrcBits([0x31, 0x32, 0x33, 0x34, 0x35, 0x36, 0x37, 0x38, 0x39]) == Word(0x29B1)
  {
    hide Word, CrcBits;
    var m: bytes := [0x31, 0x32, 0x33, 0x34, 0x35, 0x36, 0x37, 0x38, 0x39];
    WordInit();
    EmptyCrc(m);
    VectorStep(m, 0, 0xFFFF, 0x3100, 0xC782);
    VectorStep(m, 1, 0xC782, 0x3200, 0x3DBA);
    VectorStep(m, 2, 0x3DBA, 0x3300, 0x5BCE);
    VectorStep(m, 3, 0x5BCE, 0x3400, 0x5349);
    VectorStep(m, 4, 0x5349, 0x3500, 0x4560);
    VectorStep(m, 5, 0x4560, 0x3600, 0x2EF4);
    VectorStep(m, 6, 0x2EF4, 0x3700, 0x7718);
    VectorStep(m, 7, 0x7718, 0x3800, 0xA12B);
    VectorStep(m, 8, 0xA12B, 0x3900, 0x29B1);
    assert m[..9] == m;
  }

  lemma EmptyCrc(m: bytes)
    ensures CrcBits(m[..0]) == Init()
  {
    assert m[..0] == [];
  }

  // ----- The CRC as two octets ----------------------------------------------------------------

  /** The register as the two octets that follow a message. */
  function Field(r: Reg): (f: bytes)
    ensures |f| == 2 && Bits(f) == r
  {
    var hi, lo := Octet(r[..8]), Octet(r[8..]);
    BitsOfTwo(hi, lo);
    [hi, lo]
  }

  /** A value below 256 as the octet a narrowing cast makes of it. */
  function Narrow(c: bv16): (b: u8)
    requires c < 0x100
    ensures b as bv16 == c
  {
    c as int
  }

  lemma Halves(c: bv16)
    ensures c >> 8 < 0x100 && c & 0xFF < 0x100
    ensures c == ((c >> 8) << 8) | (c & 0xFF)
  {
  }

  /** `crc >> 8` and `crc & 0xFF`: high octet first, as the field of the register. */
  function WordOctets(c: bv16): (f: bytes)
    ensures f == Field(Word(c))
  {
    Halves(c);
    var hi, lo := Narrow(c >> 8), Narrow(c & 0xFF);
    WordOfField(hi, lo);
    BitsInjective([hi, lo], Field(Word(c)));
    [hi, lo]
  }

  /** Appending its CRC to any message leaves no residue. */
  lemma AppendedCrcOk(m: bytes)
    ensures FecfOk(m + Field(CrcBits(m))) && CrcBits(m + Field(CrcBits(m))) == Zero()
  {
    var f := m + Field(CrcBits(m));
    assert f[..|f| - 2] == m && f[|f| - 2..] == Field(CrcBits(m));
    Residue(f);
  }
}
