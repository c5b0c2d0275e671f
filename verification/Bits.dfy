/**
 Bits, most significant first, and the numbers they write.
 */
module Bits {
  type Bit = n: nat | n < 2

  function Pow2(n: nat): (p: nat)
    ensures p > 0
  {
    if n == 0 then 1 else 2 * Pow2(n - 1)
  }

  /** The number a string of bits writes. */
  function Val(bits: seq<Bit>): nat {
    if bits == [] then 0 else 2 * Val(bits[..|bits| - 1]) + bits[|bits| - 1]
  }

  /** The lowest n bits of a number. */
  function BitsOf(value: nat, n: nat): (bits: seq<Bit>)
    ensures |bits| == n
  {
    if n == 0 then [] else BitsOf(value / 2, n - 1) + [value % 2]
  }

  function ShiftRight(value: nat, n: nat): nat {
    if n == 0 then value else ShiftRight(value, n - 1) / 2
  }

  lemma ValAppend(bits: seq<Bit>, bit: Bit)
    ensures Val(bits + [bit]) == 2 * Val(bits) + bit
  {
    assert (bits + [bit])[..|bits|] == bits;
  }

  lemma {:induction false} ValBound(bits: seq<Bit>)
    ensures Val(bits) < Pow2(|bits|)
  {
    if bits != [] { ValBound(bits[..|bits| - 1]); }
  }

  lemma Double(a: nat, p: nat)
    ensures a * (2 * p) == 2 * (a * p)
  {}

  lemma {:induction false} ValConcat(a: seq<Bit>, b: seq<Bit>)
    ensures Val(a + b) == Val(a) * Pow2(|b|) + Val(b)
    decreases |b|
  {
    if b == [] {
      assert a + b == a;
    } else {
      var n := |b| - 1;
      ValConcat(a, b[..n]);
      assert a + b == (a + b[..n]) + [b[n]];
      ValAppend(a + b[..n], b[n]);
      Double(Val(a), Pow2(n));
    }
  }

  lemma {:induction false} BitsOfVal(bits: seq<Bit>)
    ensures BitsOf(Val(bits), |bits|) == bits
  {
    if bits != [] { BitsOfVal(bits[..|bits| - 1]); }
  }

  lemma {:induction false} ValOfBits(value: nat, n: nat)
    requires value < Pow2(n)
    ensures Val(BitsOf(value, n)) == value
  {
    if n > 0 {
      ValOfBits(value / 2, n - 1);
      ValAppend(BitsOf(value / 2, n - 1), value % 2);
    }
  }

  // ── Bytes ──────────────────────────────────────────────────────────────────

  type Byte = n: nat | n < 256

  /** The bits of a string of bytes. */
  function AllBits(bytes: seq<Byte>): (bits: seq<Bit>)
    ensures |bits| == 8 * |bytes|
  {
    if bytes == [] then [] else AllBits(bytes[..|bytes| - 1]) + BitsOf(bytes[|bytes| - 1], 8)
  }

  lemma ByteBound(bits: seq<Bit>)
    requires |bits| == 8
    ensures Val(bits) < 256
  {
    ValBound(bits);
    assert Pow2(8) == 2 * Pow2(7) && Pow2(7) == 2 * Pow2(6) && Pow2(6) == 2 * Pow2(5);
    assert Pow2(5) == 2 * Pow2(4) && Pow2(4) == 2 * Pow2(3) && Pow2(3) == 2 * Pow2(2);
  }

  /** Bits taken eight at a time; a last incomplete byte is dropped. */
  function Bytes(bits: seq<Bit>): (bytes: seq<Byte>)
    ensures |bytes| == |bits| / 8
  {
    if |bits| < 8 then [] else
      ByteBound(bits[..8]);
      [Val(bits[..8])] + Bytes(bits[8..])
  }

  lemma {:induction false} BytesConcat(a: seq<Bit>, b: seq<Bit>)
    requires |a| % 8 == 0
    ensures Bytes(a + b) == Bytes(a) + Bytes(b)
    decreases |a|
  {
    if a == [] {
      assert a + b == b;
    } else {
      assert (a + b)[..8] == a[..8];
      assert (a + b)[8..] == a[8..] + b;
      BytesConcat(a[8..], b);
    }
  }

  lemma {:induction false} AllBitsConcat(a: seq<Byte>, b: seq<Byte>)
    ensures AllBits(a + b) == AllBits(a) + AllBits(b)
    decreases |b|
  {
    if b == [] {
      assert a + b == a;
    } else {
      var n := |b| - 1;
      AllBitsConcat(a, b[..n]);
      assert (a + b)[..|a + b| - 1] == a + b[..n];
    }
  }

  lemma OneByte(byte: Byte)
    ensures AllBits([byte]) == BitsOf(byte, 8)
    ensures Val(BitsOf(byte, 8)) == byte
  {
    assert [byte][..0] == [];
    assert Pow2(8) == 2 * Pow2(7) && Pow2(7) == 2 * Pow2(6) && Pow2(6) == 2 * Pow2(5);
    assert Pow2(5) == 2 * Pow2(4) && Pow2(4) == 2 * Pow2(3) && Pow2(3) == 2 * Pow2(2);
    ValOfBits(byte, 8);
  }

  lemma BytesOfOne(bits: seq<Bit>)
    requires |bits| == 8
    ensures Bytes(bits) == [Val(bits)]
  {
    assert bits[..8] == bits && bits[8..] == [];
  }

  lemma {:induction false} BytesOfAllBits(bytes: seq<Byte>)
    ensures Bytes(AllBits(bytes)) == bytes
  {
    if bytes != [] {
      var n := |bytes| - 1;
      BytesOfAllBits(bytes[..n]);
      BytesConcat(AllBits(bytes[..n]), BitsOf(bytes[n], 8));
      OneByte(bytes[n]);
      BytesOfOne(BitsOf(bytes[n], 8));
    }
  }

  lemma {:induction false} AllBitsOfBytes(bits: seq<Bit>)
    requires |bits| % 8 == 0
    ensures AllBits(Bytes(bits)) == bits
    decreases |bits|
  {
    if bits != [] {
      var head, rest := bits[..8], bits[8..];
      AllBitsOfBytes(rest);
      ByteBound(head);
      AllBitsConcat([Val(head)], Bytes(rest));
      OneByte(Val(head));
      BitsOfVal(head);
    }
  }

  /** A byte is the number its eight bits write. */
  lemma ByteAt(bits: seq<Bit>, j: nat, from: nat)
    requires from == 8 * j && from + 8 <= |bits|
    ensures Bytes(bits)[j] == Val(bits[from..from + 8])
  {
    BytesConcat(bits[..from], bits[from..]);
    assert bits == bits[..from] + bits[from..];
    assert bits[from..][..8] == bits[from..from + 8];
  }

  lemma {:induction false} AllBitsAt(bytes: seq<Byte>, i: nat, from: nat)
    requires i < |bytes| && from == 8 * i
    ensures AllBits(bytes)[from..from + 8] == BitsOf(bytes[i], 8)
  {
    var n := |bytes| - 1;
    if i < n {
      AllBitsAt(bytes[..n], i, from);
      assert AllBits(bytes)[from..from + 8] == AllBits(bytes[..n])[from..from + 8];
    }
  }

  /** Eight bits write sixteen times what the first four write, and what the others do. */
  lemma EightBits(bits: seq<Bit>)
    requires |bits| == 8
    ensures Val(bits) == 16 * Val(bits[..4]) + Val(bits[4..]) && Val(bits[4..]) < 16
  {
    assert Pow2(4) == 2 * Pow2(3) && Pow2(3) == 2 * Pow2(2);
    assert bits == bits[..4] + bits[4..];
    ValConcat(bits[..4], bits[4..]);
    ValBound(bits[4..]);
  }

  /** The upper and the lower half of a byte. */
  lemma Halves(byte: Byte)
    ensures Val(BitsOf(byte, 8)[..4]) == byte / 16 && Val(BitsOf(byte, 8)[4..]) == byte % 16
  {
    OneByte(byte);
    EightBits(BitsOf(byte, 8));
  }
}
