/** Octets as bit strings, most significant bit first, and bit strings as numbers. */
module BitString {
  import opened Bytes

  /** Bit i of an octet, most significant first. */
  predicate BitOf(b: u8, i: nat)
    requires i < 8
  {
    if i == 0 then b / 128 % 2 == 1
    else if i == 1 then b / 64 % 2 == 1
    else if i == 2 then b / 32 % 2 == 1
    else if i == 3 then b / 16 % 2 == 1
    else if i == 4 then b / 8 % 2 == 1
    else if i == 5 then b / 4 % 2 == 1
    else if i == 6 then b / 2 % 2 == 1
    else b % 2 == 1
  }

  function BitsOfByte(b: u8): (r: seq<bool>)
    ensures |r| == 8
  {
    seq(8, i requires 0 <= i < 8 => BitOf(b, i))
  }

  /** The message as transmitted: octets in order, most significant bit first. */
  function Bits(m: bytes): (r: seq<bool>)
    ensures |r| == 8 * |m|
  {
    if m == [] then [] else BitsOfByte(m[0]) + Bits(m[1..])
  }

  lemma {:induction false} BitsConcat(x: bytes, y: bytes)
    ensures Bits(x + y) == Bits(x) + Bits(y)
  {
    if x == [] {
      assert x + y == y;
    } else {
      assert (x + y)[1..] == x[1..] + y;
      BitsConcat(x[1..], y);
    }
  }

  lemma Half(x: nat, y: nat)
    requires x / 2 == y / 2 && (x % 2 == 1) == (y % 2 == 1)
    ensures x == y
  {
  }

  lemma Quarter(a: u8, k: nat)
    requires k in {2, 4, 8, 16, 32, 64}
    ensures a / k / 2 == a / (2 * k)
  {
    if k == 2 {
    } else if k == 4 {
    } else if k == 8 {
    } else if k == 16 {
    } else if k == 32 {
    } else {
    }
  }

  lemma SameBits(a: u8, b: u8)
    requires BitOf(a, 0) == BitOf(b, 0) && BitOf(a, 1) == BitOf(b, 1) && BitOf(a, 2) == BitOf(b, 2)
    requires BitOf(a, 3) == BitOf(b, 3) && BitOf(a, 4) == BitOf(b, 4) && BitOf(a, 5) == BitOf(b, 5)
    requires BitOf(a, 6) == BitOf(b, 6) && BitOf(a, 7) == BitOf(b, 7)
    ensures a == b
  {
    assert a / 128 / 2 == 0 == b / 128 / 2;
    Half(a / 128, b / 128);
    Quarter(a, 64);
    Quarter(b, 64);
    Half(a / 64, b / 64);
    Quarter(a, 32);
    Quarter(b, 32);
    Half(a / 32, b / 32);
    Quarter(a, 16);
    Quarter(b, 16);
    Half(a / 16, b / 16);
    Quarter(a, 8);
    Quarter(b, 8);
    Half(a / 8, b / 8);
    Quarter(a, 4);
    Quarter(b, 4);
    Half(a / 4, b / 4);
    Quarter(a, 2);
    Quarter(b, 2);
    Half(a / 2, b / 2);
    Half(a, b);
  }

  lemma ByteInjective(a: u8, b: u8)
    requires BitsOfByte(a) == BitsOfByte(b)
    ensures a == b
  {
    forall i | 0 <= i < 8 ensures BitOf(a, i) == BitOf(b, i) {
      assert BitsOfByte(a)[i] == BitsOfByte(b)[i];
    }
    SameBits(a, b);
  }

  lemma {:induction false} BitsInjective(f: bytes, g: bytes)
    requires |f| == |g| && Bits(f) == Bits(g)
    ensures f == g
  {
    if f != [] {
      assert Bits(f)[..8] == BitsOfByte(f[0]) && Bits(g)[..8] == BitsOfByte(g[0]);
      assert Bits(f)[8..] == Bits(f[1..]) && Bits(g)[8..] == Bits(g[1..]);
      ByteInjective(f[0], g[0]);
      BitsInjective(f[1..], g[1..]);
    }
  }

  lemma BitsOneMore(m: bytes, i: nat)
    requires i < |m|
    ensures Bits(m[..i + 1]) == Bits(m[..i]) + BitsOfByte(m[i])
  {
    assert m[..i + 1] == m[..i] + [m[i]];
    BitsConcat(m[..i], [m[i]]);
  }

  lemma BitsOfTwo(hi: u8, lo: u8)
    ensures Bits([hi, lo]) == BitsOfByte(hi) + BitsOfByte(lo)
  {
    assert [hi, lo][1..] == [lo];
    assert [lo][1..] == [];
  }

  // ----- Numbers ------------------------------------------------------------------------------

  /** The unsigned number a bit string writes. */
  function Value(x: seq<bool>): nat {
    if x == [] then 0 else 2 * Value(x[..|x| - 1]) + (if x[|x| - 1] then 1 else 0)
  }

  function Pow2(n: nat): nat {
    if n == 0 then 1 else 2 * Pow2(n - 1)
  }

  lemma {:induction false} ValueBound(x: seq<bool>)
    ensures Value(x) < Pow2(|x|)
  {
    if x != [] {
      ValueBound(x[..|x| - 1]);
    }
  }

  lemma {:induction false} ValueInjective(x: seq<bool>, y: seq<bool>)
    requires |x| == |y| && Value(x) == Value(y)
    ensures x == y
  {
    if x != [] {
      var n := |x| - 1;
      LastDigit(Value(x[..n]), x[n]);
      LastDigit(Value(y[..n]), y[n]);
      ValueInjective(x[..n], y[..n]);
      assert x == x[..n] + [x[n]] && y == y[..n] + [y[n]];
    }
  }

  lemma LastDigit(h: nat, b: bool)
    ensures (2 * h + if b then 1 else 0) / 2 == h && ((2 * h + if b then 1 else 0) % 2 == 1) == b
  {
  }

  lemma {:induction false} ValueConcat(x: seq<bool>, y: seq<bool>)
    ensures Value(x + y) == Value(x) * Pow2(|y|) + Value(y)
  {
    if y == [] {
      assert x + y == x;
    } else {
      var n := |y| - 1;
      assert (x + y)[..|x| + n] == x + y[..n];
      ValueConcat(x, y[..n]);
      Double(Value(x), Pow2(n));
    }
  }

  lemma Double(a: nat, b: nat)
    ensures a * (2 * b) == 2 * (a * b)
  {
  }

  /** Reading the bits of an octet as a number gives the octet. */
  lemma ValueOfByte(b: u8)
    ensures Value(BitsOfByte(b)) == b
  {
    var x := BitsOfByte(b);
    ByteDigit(b, 0);
    ByteDigit(b, 1);
    ByteDigit(b, 2);
    ByteDigit(b, 3);
    ByteDigit(b, 4);
    ByteDigit(b, 5);
    ByteDigit(b, 6);
    ByteDigit(b, 7);
    assert x[..8] == x;
  }

  /** What remains of an octet above its i most significant bits. */
  function Top(b: u8, i: nat): nat
    requires i <= 8
  {
    if i == 0 then 0 else if i == 1 then b / 128 else if i == 2 then b / 64 else if i == 3 then b / 32
    else if i == 4 then b / 16 else if i == 5 then b / 8 else if i == 6 then b / 4 else if i == 7 then b / 2 else b
  }

  lemma ByteDigit(b: u8, i: nat)
    requires i < 8 && Value(BitsOfByte(b)[..i]) == Top(b, i)
    ensures Value(BitsOfByte(b)[..i + 1]) == Top(b, i + 1)
  {
    var x := BitsOfByte(b);
    assert x[..i + 1][..i] == x[..i];
    TopDigit(b, i);
  }

  lemma TopDigit(b: u8, i: nat)
    requires i < 8
    ensures Top(b, i + 1) == 2 * Top(b, i) + if BitOf(b, i) then 1 else 0
  {
    if i == 0 {
    } else if i < 7 {
      Quarter(b, if i == 1 then 64 else if i == 2 then 32 else if i == 3 then 16 else if i == 4 then 8
                 else if i == 5 then 4 else 2);
    }
  }

  /** Eight bits as an octet. */
  function Octet(x: seq<bool>): (b: u8)
    requires |x| == 8
    ensures BitsOfByte(b) == x
  {
    ValueBound(x);
    assert Pow2(8) == 256;
    var b: u8 := Value(x);
    ValueOfByte(b);
    ValueInjective(BitsOfByte(b), x);
    b
  }
}
