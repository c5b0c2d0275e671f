/**
 The data codewords of a QR code as the numbers they are (packages/qr/src/index.ts): byte mode
 and length, the payload shifted by half a byte, and the pad bytes.
 */
module QrDataBytes {
  import opened Bits
  import opened QrStream

  /** The length and then the payload; past its end there are zeros. */
  function Headed(payload: seq<Byte>, i: nat): Byte
    requires |payload| < 256
  {
    if i == 0 then |payload| else if i <= |payload| then payload[i - 1] else 0
  }

  lemma InTheMiddle(a: seq<Bit>, b: seq<Bit>, c: seq<Bit>, from: nat, n: nat)
    requires from + n <= |b|
    ensures (a + b + c)[|a| + from..|a| + from + n] == b[from..from + n]
  {}

  lemma MessageIs(payload: seq<Byte>, all: seq<Byte>)
    requires |payload| < 256 && all == [|payload|] + payload
    ensures Message(payload) == BitsOf(4, 4) + AllBits(all) + BitsOf(0, 4)
  {
    AllBitsConcat([|payload|], payload);
    OneByte(|payload|);
    Joined(BitsOf(4, 4), BitsOf(|payload|, 8), AllBits(payload), BitsOf(0, 4));
  }

  lemma Joined(a: seq<Bit>, b: seq<Bit>, c: seq<Bit>, d: seq<Bit>)
    ensures a + b + c + d == a + (b + c) + d
  {}

  /** The bits of the length and of each byte of the payload begin half a byte late. */
  lemma MessagePart(payload: seq<Byte>, all: seq<Byte>, i: nat, from: nat)
    requires |payload| < 256 && all == [|payload|] + payload && i < |all| && from == 4 + 8 * i
    ensures Message(payload)[from..from + 8] == BitsOf(all[i], 8)
  {
    MessageIs(payload, all);
    InTheMiddle(BitsOf(4, 4), AllBits(all), BitsOf(0, 4), from - 4, 8);
    AllBitsAt(all, i, from - 4);
  }

  lemma TwoSlices(bits: seq<Bit>, from: nat)
    requires from + 8 <= |bits|
    ensures bits[from..from + 8][..4] == bits[from..from + 4] && bits[from..from + 8][4..] == bits[from + 4..from + 8]
  {}

  /** So each half of such a byte is in a codeword of its own. */
  lemma HalvesInMessage(payload: seq<Byte>, i: nat, from: nat)
    requires |payload| < 256 && i <= |payload| && from == 4 + 8 * i
    ensures Val(Message(payload)[from..from + 4]) == Headed(payload, i) / 16
    ensures Val(Message(payload)[from + 4..from + 8]) == Headed(payload, i) % 16
  {
    MessagePart(payload, [|payload|] + payload, i, from);
    TwoSlices(Message(payload), from);
    Halves(Headed(payload, i));
  }

  lemma Ends(payload: seq<Byte>, end: nat)
    requires |payload| < 256 && end == 8 * (|payload| + 2)
    ensures Message(payload)[..4] == BitsOf(4, 4) && Message(payload)[end - 4..end] == BitsOf(0, 4)
  {}

  lemma NoBits()
    ensures Val(BitsOf(0, 4)) == 0
  {
    ValOfBits(0, 4);
  }

  lemma FirstByte(payload: seq<Byte>)
    requires |payload| < 256
    ensures Val(Message(payload)[0..8]) == 4 * 16 + |payload| / 16
  {
    Ends(payload, 8 * (|payload| + 2));
    HalvesInMessage(payload, 0, 4);
    TwoSlices(Message(payload), 0);
    EightBits(Message(payload)[0..8]);
    ByteMode();
  }

  /** The half that comes after it: of the next byte, or of the terminator. */
  lemma HalfAfter(payload: seq<Byte>, i: nat, from: nat)
    requires |payload| < 256 && i <= |payload| && from == 8 * (i + 1)
    ensures Val(Message(payload)[from + 4..from + 8]) == Headed(payload, i + 1) / 16
  {
    if i < |payload| {
      HalvesInMessage(payload, i + 1, from + 4);
    } else {
      Ends(payload, from + 8);
      NoBits();
    }
  }

  lemma NextByte(payload: seq<Byte>, i: nat, from: nat)
    requires |payload| < 256 && i <= |payload| && from == 8 * (i + 1)
    ensures Val(Message(payload)[from..from + 8]) == 16 * (Headed(payload, i) % 16) + Headed(payload, i + 1) / 16
  {
    HalvesInMessage(payload, i, from - 4);
    HalfAfter(payload, i, from);
    TwoSlices(Message(payload), from);
    EightBits(Message(payload)[from..from + 8]);
  }

  lemma MessageCodeword(payload: seq<Byte>, v: Version, i: nat, from: nat)
    requires |payload| + 2 <= v.dataCodewords && i < |payload| + 2 && from == 8 * i
    ensures DataCodewords(payload, v)[i] == Val(Message(payload)[from..from + 8])
  {
    MessageThenPads(payload, v);
    ByteAt(Message(payload), i, from);
  }

  /** The first codeword: byte mode 4, and the length in sixteens. */
  lemma FirstCodeword(payload: seq<Byte>, v: Version)
    requires |payload| + 2 <= v.dataCodewords && |payload| < 256
    ensures DataCodewords(payload, v)[0] == 4 * 16 + |payload| / 16
  {
    MessageCodeword(payload, v, 0, 0);
    FirstByte(payload);
  }

  /** Then the rest of the length and the payload, shifted by half a byte, with zeros in the last half. */
  lemma PayloadCodeword(payload: seq<Byte>, v: Version, i: nat)
    requires |payload| + 2 <= v.dataCodewords && |payload| < 256 && 1 <= i <= |payload| + 1
    ensures DataCodewords(payload, v)[i] == 16 * (Headed(payload, i - 1) % 16) + Headed(payload, i) / 16
  {
    MessageCodeword(payload, v, i, 8 * i);
    NextByte(payload, i - 1, 8 * i);
  }

  lemma PadAt(bytes: seq<Byte>, n: nat, j: nat)
    requires j < n
    ensures (bytes + PadBytes(n))[|bytes| + j] == if j % 2 == 0 then 236 else 17
  {}

  /** Then 236 and 17 in turn to the end. */
  lemma PadCodeword(payload: seq<Byte>, v: Version, j: nat)
    requires |payload| + 2 <= v.dataCodewords && j < v.dataCodewords - |payload| - 2
    ensures DataCodewords(payload, v)[|payload| + 2 + j] == if j % 2 == 0 then 236 else 17
  {
    MessageThenPads(payload, v);
    PadAt(Bytes(Message(payload)), v.dataCodewords - |payload| - 2, j);
  }
}
