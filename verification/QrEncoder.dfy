/**
 The encoder's bit writer and the steps of `encodeQr` up to the interleaved stream
 (packages/qr/src/index.ts), proved to write the stream of `QrStream`.
 */
module QrEncoder {
  import opened Bits
  import opened Options
  import opened ReedSolomonCode
  import opened QrStream

  /** So many zeros more reach a byte boundary, and none fewer. */
  lemma AtBoundary(n: nat, k: nat)
    requires k <= (8 - n % 8) % 8
    ensures (n + k) % 8 == 0 <==> k == (8 - n % 8) % 8
  {}

  class BitWriter {
    var bits: seq<Bit>

    constructor ()
      ensures bits == []
    {
      bits := [];
    }

    /** The lowest `length` bits of a value, most significant first. */
    method Push(value: nat, length: nat)
      modifies this
      ensures bits == old(bits) + BitsOf(value, length)
    {
      ghost var before := bits;
      var i: nat := length;
      while i > 0
        invariant i <= length
        invariant bits == before + BitsOf(ShiftRight(value, i), length - i)
      {
        i := i - 1;
        bits := bits + [ShiftRight(value, i) % 2];
      }
    }

    /** Every byte of a payload, eight bits each. */
    method PushBytes(payload: seq<Byte>)
      modifies this
      ensures bits == old(bits) + AllBits(payload)
    {
      for i := 0 to |payload|
        invariant bits == old(bits) + AllBits(payload[..i])
      {
        assert payload[..i + 1][..i] == payload[..i];
        Push(payload[i], 8);
      }
      assert payload[..|payload|] == payload;
    }

    /** The bits as `count` codewords; the bits themselves are filled up to a whole byte. */
    method ToCodewords(count: nat) returns (bytes: array<Byte>)
      modifies this
      ensures bits == ToByteBoundary(old(bits))
      ensures fresh(bytes) && bytes[..] == Codewords(old(bits), count)
    {
      FillByte();
      bytes := new Byte[count](_ => 0);
      var full: nat := |bits| / 8;
      ghost var packed := bits;
      ghost var all := Bytes(bits);
      var i: nat := 0;
      while i < full && i < count
        invariant i <= full && i <= count && bits == packed
        invariant forall k: nat :: k < i ==> bytes[k] == all[k]
      {
        bytes[i] := PackByte(i);
        i := i + 1;
      }
      i := full;
      while i < count
        invariant full <= i && (full <= count ==> i <= count) && bits == packed
        invariant forall k: nat :: k < full && k < count ==> bytes[k] == all[k]
        invariant forall k: nat :: full <= k < i && k < count ==> bytes[k] == if (k - full) % 2 == 0 then 0xec else 0x11
      {
        bytes[i] := [0xec, 0x11][(i - full) % 2];
        i := i + 1;
      }
      assert bytes[..] == if full >= count then all[..count] else all + PadBytes(count - full);
    }

    method PackByte(i: nat) returns (byte: Byte)
      requires 8 * i + 8 <= |bits|
      ensures byte == Bytes(bits)[i]
    {
      var value: nat := 0;
      for k := 0 to 8
        invariant value == Val(bits[8 * i..8 * i + k])
      {
        ValAppend(bits[8 * i..8 * i + k], bits[8 * i + k]);
        assert bits[8 * i..8 * i + (k + 1)] == bits[8 * i..8 * i + k] + [bits[8 * i + k]];
        value := 2 * value + bits[8 * i + k];
      }
      BytesAt(bits, i);
      byte := value;
    }

    method FillByte()
      modifies this
      ensures bits == ToByteBoundary(old(bits))
    {
      ghost var was, gap: nat := bits, (8 - |bits| % 8) % 8;
      ghost var k: nat := 0;
      while |bits| % 8 != 0
        invariant k <= gap && bits == was + seq(k, _ => 0)
        decreases gap - k
      {
        AtBoundary(|was|, k);
        bits := bits + [0];
        k := k + 1;
      }
      AtBoundary(|was|, k);
    }
  }

  /** The codeword stream of a payload, with the version and level it is for. */
  method EncodeStream(tables: GfTables, payload: seq<Byte>) returns (r: Option<(Level, Version, seq<Byte>)>)
    requires tables.Valid()
    ensures r.Some? <==> |payload| <= 134
    ensures r.Some? ==> ChooseVersion(|payload|) == Some((r.value.0, r.value.1))
    ensures r.Some? ==> WellFormed(r.value.1) && r.value.2 == Stream(payload, r.value.1)
    ensures r.Some? ==> HasStandardBlocks(r.value.0, r.value.1)
  {
    ChooseVersionFits(|payload|);
    var chosen := ChooseVersion(|payload|);
    if chosen.None? { return None; }
    var (level, v) := chosen.value;
    ChosenIsStandard(|payload|, level, v);
    var stream := EncodeFor(tables, payload, v);
    r := Some((level, v, stream));
  }

  method EncodeFor(tables: GfTables, payload: seq<Byte>, v: Version) returns (stream: seq<Byte>)
    requires tables.Valid() && WellFormed(v) && |payload| + 2 <= v.dataCodewords && |payload| < 256
    ensures stream == Stream(payload, v)
  {
    var data := EncodeData(payload, v);
    var dataBlocks, ecBlocks := EncodeBlocks(tables, data, PerBlock(v), v.blocks, v.ecPerBlock);
    var interleaved := InterleaveBlocks(dataBlocks, PerBlock(v));
    var parity := InterleaveBlocks(ecBlocks, v.ecPerBlock);
    stream := interleaved + parity;
  }

  /** Mode, length and payload, and the terminator when there is room for it, in fields of these widths. */
  method WriteMessage(payload: seq<Byte>, capacity: nat, mode: nat, modeBits: nat, countBits: nat, endBits: nat)
    returns (writer: BitWriter)
    requires modeBits + countBits + 8 * |payload| + endBits <= 8 * capacity
    ensures fresh(writer)
    ensures writer.bits == BitsOf(mode, modeBits) + BitsOf(|payload|, countBits) + AllBits(payload) + BitsOf(0, endBits)
  {
    writer := new BitWriter();
    writer.Push(mode, modeBits);
    writer.Push(|payload|, countBits);
    writer.PushBytes(payload);
    if |writer.bits| + endBits <= capacity * 8 { writer.Push(0, endBits); }
  }

  /** The payload as data codewords. */
  method EncodeData(payload: seq<Byte>, v: Version) returns (data: seq<Byte>)
    requires |payload| + 2 <= v.dataCodewords && |payload| < 256
    ensures data == DataCodewords(payload, v)
  {
    var writer := WriteMessage(payload, v.dataCodewords, 4, 4, 8, 4);
    var bytes := writer.ToCodewords(v.dataCodewords);
    data := bytes[..];
  }

  /** Equal blocks of the data, and the error correction of each. */
  method EncodeBlocks(tables: GfTables, data: seq<Byte>, size: nat, count: nat, ecLength: nat)
      returns (dataBlocks: seq<seq<Byte>>, ecBlocks: seq<seq<Byte>>)
    requires tables.Valid() && size * count <= |data| && ecLength <= 512
    ensures dataBlocks == Split(data, size, count) && ecBlocks == Parity(dataBlocks, ecLength)
  {
    dataBlocks, ecBlocks := [], [];
    for i := 0 to count
      invariant tables.Valid()
      invariant size * i <= |data| && dataBlocks == Split(data, size, i)
      invariant ecBlocks == Parity(dataBlocks, ecLength)
    {
      Upto(size, i + 1, count);
      assert size * (i + 1) == size * i + size;
      var block := data[size * i..size * i + size];
      var ec := ErrorCorrection(tables, block, ecLength);
      dataBlocks := dataBlocks + [block];
      ecBlocks := ecBlocks + [ec[..]];
    }
  }

  lemma Upto(size: nat, i: nat, count: nat)
    requires i <= count
    ensures size * i <= size * count
  {}

  /** The first bytes of all blocks, then the second ones, and so on. */
  method InterleaveBlocks(blocks: seq<seq<Byte>>, size: nat) returns (stream: seq<Byte>)
    requires Rectangular(blocks, size)
    ensures stream == Interleave(blocks, size, size)
  {
    stream := [];
    for i := 0 to size
      invariant stream == Interleave(blocks, size, i)
    {
      ghost var before := stream;
      for b := 0 to |blocks|
        invariant stream == before + Column(blocks, size, i)[..b]
      {
        stream := stream + [blocks[b][i]];
      }
    }
  }

  lemma SliceOfRest(bits: seq<Bit>, n: nat, from: nat, to: nat)
    requires from <= to && n + to <= |bits|
    ensures bits[n..][from..to] == bits[n + from..n + to]
  {}

  /** The i-th byte of a string of bits. */
  lemma {:induction false} BytesAt(bits: seq<Bit>, i: nat)
    requires 8 * i + 8 <= |bits|
    ensures Bytes(bits)[i] == Val(bits[8 * i..8 * i + 8])
    decreases i
  {
    if i > 0 {
      BytesAt(bits[8..], i - 1);
      SliceOfRest(bits, 8, 8 * (i - 1), 8 * (i - 1) + 8);
    }
  }
}
