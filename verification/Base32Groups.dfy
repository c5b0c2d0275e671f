/**
 Bits in groups of five, for base32: section 6 of RFC 4648. Bytes as bits, with zeros to fill up
 the last group, and back.
 */
module Base32Groups {
  import opened Bits

  type Quint = n: nat | n < 32

  function Zeros(n: nat): (bits: seq<Bit>)
    ensures |bits| == n && forall i :: 0 <= i < n ==> bits[i] == 0
  {
    seq(n, _ => 0)
  }

  lemma QuintBound(bits: seq<Bit>)
    requires |bits| == 5
    ensures Val(bits) < 32
  {
    ValBound(bits);
    assert Pow2(5) == 2 * Pow2(4) && Pow2(4) == 2 * Pow2(3) && Pow2(3) == 2 * Pow2(2);
  }

  /** Bits taken five at a time; a last incomplete group is dropped. */
  function Quints(bits: seq<Bit>): (quints: seq<Quint>)
    ensures |quints| == |bits| / 5
  {
    if |bits| < 5 then [] else
      QuintBound(bits[..5]);
      [Val(bits[..5])] + Quints(bits[5..])
  }

  /** The bits of the groups, one after the other. */
  function QuintBits(quints: seq<Quint>): (bits: seq<Bit>)
    ensures |bits| == 5 * |quints|
  {
    if quints == [] then [] else QuintBits(quints[..|quints| - 1]) + BitsOf(quints[|quints| - 1], 5)
  }

  /** How many zeros fill up the last group. */
  function Fill(n: nat): (zeros: nat)
    ensures zeros < 5 && (n + zeros) % 5 == 0
  {
    if n % 5 == 0 then 0 else 5 - n % 5
  }

  function Filled(bits: seq<Bit>): (filled: seq<Bit>)
    ensures |filled| % 5 == 0
  {
    bits + Zeros(Fill(|bits|))
  }

  lemma {:induction false} QuintsConcat(a: seq<Bit>, b: seq<Bit>)
    requires |a| % 5 == 0
    ensures Quints(a + b) == Quints(a) + Quints(b)
    decreases |a|
  {
    if a == [] {
      assert a + b == b;
    } else {
      assert (a + b)[..5] == a[..5];
      assert (a + b)[5..] == a[5..] + b;
      QuintsConcat(a[5..], b);
    }
  }

  lemma {:induction false} QuintBitsConcat(a: seq<Quint>, b: seq<Quint>)
    ensures QuintBits(a + b) == QuintBits(a) + QuintBits(b)
    decreases |b|
  {
    if b == [] {
      assert a + b == a;
    } else {
      var n := |b| - 1;
      QuintBitsConcat(a, b[..n]);
      assert (a + b)[..|a + b| - 1] == a + b[..n];
    }
  }

  lemma OneQuint(bits: seq<Bit>)
    requires |bits| == 5
    ensures Val(bits) < 32 && Quints(bits) == [Val(bits)] && QuintBits([Val(bits)]) == bits
  {
    QuintBound(bits);
    BitsOfVal(bits);
    assert bits[..5] == bits && bits[5..] == [];
    assert [Val(bits)][..0] == [];
  }

  lemma {:induction false} QuintBitsOfQuints(bits: seq<Bit>)
    requires |bits| % 5 == 0
    ensures QuintBits(Quints(bits)) == bits
    decreases |bits|
  {
    if bits != [] {
      var head, rest := bits[..5], bits[5..];
      QuintBitsOfQuints(rest);
      OneQuint(head);
      QuintBitsConcat([Val(head)], Quints(rest));
    }
  }

  lemma QuintOfBits(quint: Quint)
    ensures Val(BitsOf(quint, 5)) == quint
  {
    assert Pow2(5) == 2 * Pow2(4) && Pow2(4) == 2 * Pow2(3) && Pow2(3) == 2 * Pow2(2);
    ValOfBits(quint, 5);
  }

  /** One group more is five bits more. */
  lemma QuintAppend(quints: seq<Quint>, quint: Quint) returns (more: seq<Bit>)
    ensures |more| == 5 && Val(more) == quint && QuintBits(quints + [quint]) == QuintBits(quints) + more
  {
    more := BitsOf(quint, 5);
    QuintOfBits(quint);
    QuintBitsConcat(quints, [quint]);
    OneQuint(more);
  }

  lemma {:induction false} QuintsOfQuintBits(quints: seq<Quint>)
    ensures Quints(QuintBits(quints)) == quints
  {
    if quints != [] {
      var n := |quints| - 1;
      QuintsOfQuintBits(quints[..n]);
      QuintsConcat(QuintBits(quints[..n]), BitsOf(quints[n], 5));
      QuintOfBits(quints[n]);
      OneQuint(BitsOf(quints[n], 5));
    }
  }

  // ── Groups and bytes ───────────────────────────────────────────────────────

  /** The groups of a string of bytes. */
  function GroupsOf(bytes: seq<Byte>): seq<Quint> {
    Quints(Filled(AllBits(bytes)))
  }

  /** The whole bytes in groups; bits that make none are dropped. */
  function BytesIn(quints: seq<Quint>): seq<Byte> {
    Bytes(QuintBits(quints))
  }

  ghost predicate Writes(bytes: seq<Byte>, bits: seq<Bit>) {
    AllBits(bytes) == bits
  }

  /** Fewer bits than a byte after whole ones make no other. */
  lemma NoByte(bits: seq<Bit>, rest: seq<Bit>)
    requires |bits| % 8 == 0 && |rest| < 8
    ensures Bytes(bits + rest) == Bytes(bits)
  {
    BytesConcat(bits, rest);
    assert Bytes(rest) == [];
  }

  lemma BytesOfWritten(bytes: seq<Byte>, bits: seq<Bit>, rest: seq<Bit>)
    requires Writes(bytes, bits) && |rest| < 8
    ensures Bytes(bits + rest) == bytes
  {
    NoByte(bits, rest);
    BytesOfAllBits(bytes);
  }

  /** Groups of bytes hold the bytes. */
  lemma BytesInGroupsOf(bytes: seq<Byte>)
    ensures BytesIn(GroupsOf(bytes)) == bytes
  {
    var bits := AllBits(bytes);
    QuintBitsOfQuints(Filled(bits));
    BytesOfWritten(bytes, bits, Zeros(Fill(|bits|)));
  }

  lemma WholeBytes(whole: seq<Bit>, rest: seq<Bit>)
    requires |whole| % 8 == 0 && |rest| < 8
    ensures Writes(Bytes(whole + rest), whole)
  {
    NoByte(whole, rest);
    AllBitsOfBytes(whole);
  }

  /** What reading groups as bytes leaves over: the bits after the last whole byte. */
  function Leftover(quints: seq<Quint>): seq<Bit> {
    var bits := QuintBits(quints);
    bits[8 * (|bits| / 8)..]
  }

  /** What is left over is filling. */
  predicate Canonical(quints: seq<Quint>) {
    |Leftover(quints)| < 5 && forall i :: 0 <= i < |Leftover(quints)| ==> Leftover(quints)[i] == 0
  }

  lemma SameFilling(whole: seq<Bit>, rest: seq<Bit>)
    requires (|whole| + |rest|) % 5 == 0
    ensures Filled(whole) == whole + rest <==> |rest| < 5 && forall i :: 0 <= i < |rest| ==> rest[i] == 0
  {
    var zeros := Zeros(Fill(|whole|));
    SameEnd(whole, zeros, rest);
    if |rest| < 5 { assert |rest| == Fill(|whole|); }
    if |rest| == |zeros| && forall i :: 0 <= i < |rest| ==> rest[i] == 0 { assert rest == zeros; }
  }

  lemma SameEnd(a: seq<Bit>, b: seq<Bit>, c: seq<Bit>)
    ensures a + b == a + c <==> b == c
  {
    if a + b == a + c {
      assert b == (a + b)[|a|..] && c == (a + c)[|a|..];
    }
  }

  /** Bytes have these groups exactly when what is left after their bits is filling. */
  lemma GroupsOfWritten(bytes: seq<Byte>, whole: seq<Bit>, rest: seq<Bit>, quints: seq<Quint>)
    requires Writes(bytes, whole) && QuintBits(quints) == whole + rest
    ensures GroupsOf(bytes) == quints <==> |rest| < 5 && forall i :: 0 <= i < |rest| ==> rest[i] == 0
  {
    QuintBitsOfQuints(Filled(whole));
    QuintsOfQuintBits(quints);
    SameFilling(whole, rest);
  }

  /** The bits of whole bytes, and what is left over. */
  lemma SplitAtLeftover(quints: seq<Quint>) returns (whole: seq<Bit>)
    ensures |whole| % 8 == 0 && |Leftover(quints)| < 8 && QuintBits(quints) == whole + Leftover(quints)
  {
    var bits := QuintBits(quints);
    whole := bits[..8 * (|bits| / 8)];
  }

  /** The bytes in groups have those groups exactly when they are canonical. */
  lemma GroupsOfBytesIn(quints: seq<Quint>, bytes: seq<Byte>)
    requires bytes == BytesIn(quints)
    ensures GroupsOf(bytes) == quints <==> Canonical(quints)
  {
    var whole := SplitAtLeftover(quints);
    WholeBytes(whole, Leftover(quints));
    GroupsOfWritten(bytes, whole, Leftover(quints), quints);
  }
}
