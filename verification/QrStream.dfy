/**
 The codeword stream of a QR code (packages/qr/src/index.ts): which version and level hold a
 payload, how its bits are packed and padded, and how the blocks are interleaved. A reader
 that undoes those steps recovers exactly the payload.
 */
module QrStream {
  import opened Bits
  import opened Options
  import opened ReedSolomon
  import opened MinimumDistance

  datatype Level = L | M

  datatype Version = Version(version: nat, dataCodewords: nat, ecPerBlock: nat, blocks: nat)

  const VERSIONS_M := [
    Version(1, 16, 10, 1), Version(2, 28, 16, 1), Version(3, 44, 26, 1),
    Version(4, 64, 18, 2), Version(5, 86, 24, 2), Version(6, 108, 16, 4)
  ]

  const VERSIONS_L := [
    Version(1, 19, 7, 1), Version(2, 34, 10, 1), Version(3, 55, 15, 1),
    Version(4, 80, 20, 1), Version(5, 108, 26, 1), Version(6, 136, 18, 2)
  ]

  /** Codewords, data and error correction together, that each version has room for. */
  const TOTAL_CODEWORDS := [26, 44, 70, 100, 134, 172]

  // ── Choosing a version ─────────────────────────────────────────────────────

  /** The first row of a table with room for the codewords needed, or the table's length. */
  function FirstFit(table: seq<Version>, needed: nat, from: nat := 0): (k: nat)
    requires from <= |table|
    ensures from <= k <= |table|
    ensures forall j :: from <= j < k ==> table[j].dataCodewords < needed
    ensures k < |table| ==> table[k].dataCodewords >= needed
    decreases |table| - from
  {
    if from == |table| || table[from].dataCodewords >= needed then from
    else FirstFit(table, needed, from + 1)
  }

  /** Mode indicator, character count, data and terminator, in whole bytes. */
  function Needed(byteLength: nat): nat {
    (4 + 8 + byteLength * 8 + 4 + 7) / 8
  }

  /** The version and level for a payload; none when version 6 at level L is too small. */
  function ChooseVersion(byteLength: nat): Option<(Level, Version)> {
    var m := FirstFit(VERSIONS_M, Needed(byteLength));
    if m < |VERSIONS_M| then Some((M, VERSIONS_M[m])) else
      var l := FirstFit(VERSIONS_L, Needed(byteLength));
      if l < |VERSIONS_L| then Some((L, VERSIONS_L[l])) else None
  }

  function Table(level: Level): seq<Version> {
    if level == M then VERSIONS_M else VERSIONS_L
  }

  function PerBlock(v: Version): nat
    requires v.blocks > 0
  {
    v.dataCodewords / v.blocks
  }

  /** Blocks divide evenly, fit the field, and with their error correction fill the version. */
  predicate WellFormed(v: Version) {
    && v.blocks > 0 && v.ecPerBlock > 0 && v.blocks * PerBlock(v) == v.dataCodewords
    && PerBlock(v) + v.ecPerBlock <= 255
    && 1 <= v.version <= 6
    && v.dataCodewords + v.blocks * v.ecPerBlock == TOTAL_CODEWORDS[v.version - 1]
  }

  lemma TablesWellFormed(level: Level, k: nat)
    requires k < 6
    ensures |Table(level)| == 6 && WellFormed(Table(level)[k]) && Table(level)[k].version == k + 1
  {}

  /**
   A payload is accepted exactly when it has at most 134 bytes. Level M serves those up to 106;
   the row chosen holds the payload, and no smaller version at its level does.
   */
  lemma ChooseVersionFits(byteLength: nat)
    ensures ChooseVersion(byteLength).Some? <==> byteLength <= 134
    ensures ChooseVersion(byteLength).Some? ==>
      var (level, v) := ChooseVersion(byteLength).value;
      && WellFormed(v) && v == Table(level)[v.version - 1]
      && (level == M <==> byteLength <= 106)
      && v.dataCodewords >= byteLength + 2
      && forall k :: 0 <= k < v.version - 1 ==> Table(level)[k].dataCodewords < byteLength + 2
  {
    var needed := Needed(byteLength);
    assert needed == byteLength + 2;
    var m, l := FirstFit(VERSIONS_M, needed), FirstFit(VERSIONS_L, needed);
    if m < 6 {
      TablesWellFormed(M, m);
    } else {
      assert VERSIONS_M[5].dataCodewords < needed;
      if l < 6 { TablesWellFormed(L, l); }
    }
  }

  // ── The data codewords ─────────────────────────────────────────────────────

  /** Byte mode, the length, the payload and the terminator. */
  function Message(payload: seq<Byte>): (bits: seq<Bit>)
    ensures |bits| == 8 * (|payload| + 2)
  {
    BitsOf(4, 4) + BitsOf(|payload|, 8) + AllBits(payload) + BitsOf(0, 4)
  }

  /** The standard's alternating pad bytes. */
  function PadBytes(n: nat): (pads: seq<Byte>)
    ensures |pads| == n
  {
    seq(n, i => if i % 2 == 0 then 0xec else 0x11)
  }

  /** A string of bits as `count` codewords: zeros to a byte boundary, then pad bytes. */
  function Codewords(bits: seq<Bit>, count: nat): (data: seq<Byte>)
    ensures |data| == count
  {
    var bytes := Bytes(ToByteBoundary(bits));
    if |bytes| >= count then bytes[..count] else bytes + PadBytes(count - |bytes|)
  }

  function ToByteBoundary(bits: seq<Bit>): (padded: seq<Bit>)
    ensures |padded| % 8 == 0
  {
    bits + seq((8 - |bits| % 8) % 8, i => 0)
  }

  function DataCodewords(payload: seq<Byte>, v: Version): seq<Byte> {
    Codewords(Message(payload), v.dataCodewords)
  }

  lemma CodewordsAligned(bits: seq<Bit>, size: nat, count: nat)
    requires |bits| == 8 * size && size <= count
    ensures Codewords(bits, count) == Bytes(bits) + PadBytes(count - size)
  {
    assert ToByteBoundary(bits) == bits;
    assert |Bytes(bits)| == size;
  }

  lemma EightTimes(n: nat, k: nat)
    requires n == 8 * k
    ensures n % 8 == 0 && n / 8 == k
  {}

  /** The data codewords are the bytes of the message, and then pad bytes. */
  lemma MessageThenPads(payload: seq<Byte>, v: Version)
    requires |payload| + 2 <= v.dataCodewords
    ensures DataCodewords(payload, v) == Bytes(Message(payload)) + PadBytes(v.dataCodewords - |payload| - 2)
    ensures |Bytes(Message(payload))| == |payload| + 2
  {
    EightTimes(|Message(payload)|, |payload| + 2);
    CodewordsAligned(Message(payload), |payload| + 2, v.dataCodewords);
  }

  /** The bits of the data codewords are the message, then the pad bytes, and nothing else. */
  ghost predicate Carries(data: seq<Byte>, payload: seq<Byte>) {
    && |payload| + 2 <= |data|
    && AllBits(data) == Message(payload) + AllBits(PadBytes(|data| - |payload| - 2))
  }

  lemma DataBits(payload: seq<Byte>, v: Version)
    requires |payload| + 2 <= v.dataCodewords
    ensures Carries(DataCodewords(payload, v), payload)
  {
    MessageThenPads(payload, v);
    EightTimes(|Message(payload)|, |payload| + 2);
    AllBitsConcat(Bytes(Message(payload)), PadBytes(v.dataCodewords - |payload| - 2));
    AllBitsOfBytes(Message(payload));
  }

  // ── Blocks and interleaving ────────────────────────────────────────────────

  /** The data in `count` consecutive blocks of one size. */
  function Split(data: seq<Byte>, size: nat, count: nat): (blocks: seq<seq<Byte>>)
    requires size * count <= |data|
    ensures |blocks| == count && Rectangular(blocks, size)
  {
    if count == 0 then [] else
      var from := size * (count - 1);
      assert size * count == from + size;
      Split(data, size, count - 1) + [data[from..from + size]]
  }

  function Join(blocks: seq<seq<Byte>>): seq<Byte> {
    if blocks == [] then [] else Join(blocks[..|blocks| - 1]) + blocks[|blocks| - 1]
  }

  lemma JoinAppend(blocks: seq<seq<Byte>>, block: seq<Byte>)
    ensures Join(blocks + [block]) == Join(blocks) + block
  {
    assert (blocks + [block])[..|blocks|] == blocks;
  }

  lemma Onward(data: seq<Byte>, from: nat, size: nat)
    requires from + size <= |data|
    ensures data[..from] + data[from..from + size] == data[..from + size]
  {}

  lemma {:induction false} JoinSplit(data: seq<Byte>, size: nat, count: nat)
    requires size * count <= |data|
    ensures Join(Split(data, size, count)) == data[..size * count]
  {
    if count > 0 {
      var from := size * (count - 1);
      assert size * count == from + size;
      JoinSplit(data, size, count - 1);
      JoinAppend(Split(data, size, count - 1), data[from..from + size]);
      Onward(data, from, size);
    }
  }

  function Parity(blocks: seq<seq<Byte>>, ecLength: nat): (parity: seq<seq<Byte>>)
    ensures |parity| == |blocks| && Rectangular(parity, ecLength)
    ensures forall b :: 0 <= b < |blocks| ==> parity[b] == Remainder(blocks[b], ecLength)
  {
    seq(|blocks|, b requires 0 <= b < |blocks| => Remainder(blocks[b], ecLength))
  }

  predicate Rectangular(blocks: seq<seq<Byte>>, n: nat) {
    forall b :: 0 <= b < |blocks| ==> |blocks[b]| == n
  }

  function Column(blocks: seq<seq<Byte>>, size: nat, i: nat): (column: seq<Byte>)
    requires Rectangular(blocks, size) && i < size
    ensures |column| == |blocks| && forall b :: 0 <= b < |blocks| ==> column[b] == blocks[b][i]
  {
    seq(|blocks|, b requires 0 <= b < |blocks| => blocks[b][i])
  }

  /** The first n bytes of every block: all the first ones, then all the second ones, … */
  function Interleave(blocks: seq<seq<Byte>>, size: nat, n: nat): (stream: seq<Byte>)
    requires Rectangular(blocks, size) && n <= size
    ensures |stream| == |blocks| * n
  {
    if n == 0 then [] else
      assert |blocks| * n == |blocks| * (n - 1) + |blocks|;
      Interleave(blocks, size, n - 1) + Column(blocks, size, n - 1)
  }

  /** Byte i of block b stands at place |blocks|·i + b of the interleaved stream. */
  lemma {:induction false} InterleaveAt(blocks: seq<seq<Byte>>, size: nat, n: nat, i: nat, b: nat)
    requires Rectangular(blocks, size) && i < n <= size && b < |blocks|
    ensures |blocks| * i + b < |blocks| * n
    ensures Interleave(blocks, size, n)[|blocks| * i + b] == blocks[b][i]
  {
    assert |blocks| * n == |blocks| * (n - 1) + |blocks|;
    if i < n - 1 { InterleaveAt(blocks, size, n - 1, i, b); }
  }

  /** The stream of a QR code: the data blocks interleaved, then their error correction. */
  function Stream(payload: seq<Byte>, v: Version): (stream: seq<Byte>)
    requires WellFormed(v)
    ensures |stream| == TOTAL_CODEWORDS[v.version - 1]
  {
    assert PerBlock(v) * v.blocks == v.blocks * PerBlock(v);
    var blocks := Split(DataCodewords(payload, v), PerBlock(v), v.blocks);
    Interleave(blocks, PerBlock(v), PerBlock(v))
    + Interleave(Parity(blocks, v.ecPerBlock), v.ecPerBlock, v.ecPerBlock)
  }

  // ── Reading a stream back ──────────────────────────────────────────────────

  lemma Place(count: nat, n: nat, i: nat, b: nat)
    requires i < n && b < count
    ensures count * i + b < count * n
  {
    assert count * n == count * (n - 1) + count;
    assert count * i <= count * (n - 1);
  }

  /** Block b of `count` blocks of n bytes each. */
  function ReadBlock(stream: seq<Byte>, count: nat, n: nat, b: nat): (block: seq<Byte>)
    requires b < count && |stream| == count * n
    ensures |block| == n
  {
    seq(n, i requires 0 <= i < n => (Place(count, n, i, b); stream[count * i + b]))
  }

  function ReadBlocks(stream: seq<Byte>, count: nat, n: nat): (blocks: seq<seq<Byte>>)
    requires |stream| == count * n
    ensures |blocks| == count && Rectangular(blocks, n)
  {
    seq(count, b requires 0 <= b < count => ReadBlock(stream, count, n, b))
  }

  /** The payload a string of data bits carries in byte mode. */
  function Parse(bits: seq<Bit>): Option<seq<Byte>> {
    if |bits| < 12 || Val(bits[..4]) != 4 then None else
      var length := Val(bits[4..12]);
      if |bits| < 12 + 8 * length then None else Some(Bytes(bits[12..12 + 8 * length]))
  }

  function DataBlocks(stream: seq<Byte>, v: Version): (blocks: seq<seq<Byte>>)
    requires WellFormed(v) && |stream| == TOTAL_CODEWORDS[v.version - 1]
    ensures |blocks| == v.blocks
  {
    ReadBlocks(stream[..v.blocks * PerBlock(v)], v.blocks, PerBlock(v))
  }

  function ParityBlocks(stream: seq<Byte>, v: Version): (blocks: seq<seq<Byte>>)
    requires WellFormed(v) && |stream| == TOTAL_CODEWORDS[v.version - 1]
    ensures |blocks| == v.blocks
  {
    ReadBlocks(stream[v.blocks * PerBlock(v)..], v.blocks, v.ecPerBlock)
  }

  /** What a reader makes of an undamaged stream: every syndrome is checked before the data. */
  ghost function Read(stream: seq<Byte>, v: Version): Option<seq<Byte>>
    requires WellFormed(v) && |stream| == TOTAL_CODEWORDS[v.version - 1]
  {
    if Checked(DataBlocks(stream, v), ParityBlocks(stream, v), v.ecPerBlock)
    then Parse(AllBits(Join(DataBlocks(stream, v)))) else None
  }

  /** A reader finds each block where it was interleaved. */
  lemma ReadInterleaved(blocks: seq<seq<Byte>>, n: nat)
    requires Rectangular(blocks, n)
    ensures ReadBlocks(Interleave(blocks, n, n), |blocks|, n) == blocks
  {
    var stream := Interleave(blocks, n, n);
    forall b: nat | b < |blocks|
      ensures ReadBlock(stream, |blocks|, n, b) == blocks[b]
    {
      forall i: nat | i < n ensures ReadBlock(stream, |blocks|, n, b)[i] == blocks[b][i] {
        InterleaveAt(blocks, n, n, i, b);
      }
    }
  }

  lemma ByteMode()
    ensures Val(BitsOf(4, 4)) == 4
  {
    assert Pow2(4) == 2 * Pow2(3) && Pow2(3) == 2 * Pow2(2);
    ValOfBits(4, 4);
  }

  lemma ParseParts(mode: seq<Bit>, length: seq<Bit>, body: seq<Bit>, rest: seq<Bit>)
    requires |mode| == 4 && Val(mode) == 4 && |length| == 8 && |body| == 8 * Val(length)
    ensures Parse(mode + length + body + rest) == Some(Bytes(body))
  {
    var bits := mode + length + body + rest;
    assert bits[..4] == mode;
    assert bits[4..12] == length;
    assert bits[12..12 + |body|] == body;
  }

  /** Whatever follows the message, it parses back to the payload. */
  lemma ParseMessage(payload: seq<Byte>, rest: seq<Bit>)
    requires |payload| < 256
    ensures Parse(Message(payload) + rest) == Some(payload)
  {
    var mode, length, body, terminator := BitsOf(4, 4), BitsOf(|payload|, 8), AllBits(payload), BitsOf(0, 4);
    assert Message(payload) + rest == mode + length + body + (terminator + rest);
    ByteMode();
    OneByte(|payload|);
    ParseParts(mode, length, body, terminator + rest);
    BytesOfAllBits(payload);
  }

  ghost predicate Checked(data: seq<seq<Byte>>, parity: seq<seq<Byte>>, ecLength: nat)
    requires |data| == |parity|
  {
    forall b :: 0 <= b < |data| ==> Vanishes(data[b] + parity[b], ecLength)
  }

  lemma ParityChecks(blocks: seq<seq<Byte>>, ecLength: nat)
    ensures Checked(blocks, Parity(blocks, ecLength), ecLength)
  {
    forall b | 0 <= b < |blocks| ensures Vanishes(blocks[b] + Parity(blocks, ecLength)[b], ecLength) {
      CodewordVanishes(blocks[b], ecLength);
    }
  }

  /** The blocks a reader finds in the stream are the ones written. */
  lemma StreamBlocks(payload: seq<Byte>, v: Version)
    requires WellFormed(v)
    ensures DataBlocks(Stream(payload, v), v) == Split(DataCodewords(payload, v), PerBlock(v), v.blocks)
    ensures ParityBlocks(Stream(payload, v), v) == Parity(DataBlocks(Stream(payload, v), v), v.ecPerBlock)
  {
    var blocks := Split(DataCodewords(payload, v), PerBlock(v), v.blocks);
    var stream, n := Stream(payload, v), v.blocks * PerBlock(v);
    ReadInterleaved(blocks, PerBlock(v));
    ReadInterleaved(Parity(blocks, v.ecPerBlock), v.ecPerBlock);
    assert stream[..n] == Interleave(blocks, PerBlock(v), PerBlock(v));
    assert stream[n..] == Interleave(Parity(blocks, v.ecPerBlock), v.ecPerBlock, v.ecPerBlock);
  }

  /** The blocks a reader finds, joined, are the data codewords. */
  lemma StreamJoin(payload: seq<Byte>, v: Version)
    requires WellFormed(v)
    ensures Join(DataBlocks(Stream(payload, v), v)) == DataCodewords(payload, v)
  {
    var data := DataCodewords(payload, v);
    StreamBlocks(payload, v);
    JoinSplit(data, PerBlock(v), v.blocks);
    assert data[..v.dataCodewords] == data;
  }

  lemma ParseData(data: seq<Byte>, payload: seq<Byte>)
    requires Carries(data, payload) && |payload| < 256
    ensures Parse(AllBits(data)) == Some(payload)
  {
    ParseMessage(payload, AllBits(PadBytes(|data| - |payload| - 2)));
  }

  lemma ReadStream(payload: seq<Byte>, v: Version)
    requires WellFormed(v) && |payload| + 2 <= v.dataCodewords && |payload| < 256
    ensures Read(Stream(payload, v), v) == Some(payload)
  {
    StreamBlocks(payload, v);
    ParityChecks(DataBlocks(Stream(payload, v), v), v.ecPerBlock);
    StreamJoin(payload, v);
    DataBits(payload, v);
    ParseData(DataCodewords(payload, v), payload);
  }

  /** A reader of the stream recovers exactly the payload, whenever a version accepts it. */
  lemma PayloadRecovered(payload: seq<Byte>)
    requires ChooseVersion(|payload|).Some?
    ensures var v := ChooseVersion(|payload|).value.1;
            WellFormed(v) && Read(Stream(payload, v), v) == Some(payload)
  {
    ChooseVersionFits(|payload|);
    ReadStream(payload, ChooseVersion(|payload|).value.1);
  }

  // ── A damaged stream ───────────────────────────────────────────────────────

  /** Block b as a reader receives it: its data, then its error correction. */
  function ReceivedBlock(stream: seq<Byte>, v: Version, b: nat): (block: seq<Byte>)
    requires WellFormed(v) && |stream| == TOTAL_CODEWORDS[v.version - 1] && b < v.blocks
    ensures |block| == PerBlock(v) + v.ecPerBlock
  {
    DataBlocks(stream, v)[b] + ParityBlocks(stream, v)[b]
  }

  /** In every block at most half as many bytes are damaged as it has error correction. */
  ghost predicate Corrects(stream: seq<Byte>, v: Version, data: seq<seq<Byte>>)
    requires WellFormed(v) && |stream| == TOTAL_CODEWORDS[v.version - 1]
  {
    && |data| == v.blocks && Rectangular(data, PerBlock(v))
    && forall b :: 0 <= b < v.blocks ==>
         2 * |Differences(ReceivedBlock(stream, v, b), Codeword(data[b], v.ecPerBlock))| <= v.ecPerBlock
  }

  /** However a stream was damaged, at most one choice of data blocks is that close to it. */
  lemma CorrectionIsUnique(stream: seq<Byte>, v: Version, p: seq<seq<Byte>>, q: seq<seq<Byte>>)
    requires WellFormed(v) && |stream| == TOTAL_CODEWORDS[v.version - 1]
    requires Corrects(stream, v, p) && Corrects(stream, v, q)
    ensures p == q
  {
    forall b | 0 <= b < v.blocks ensures p[b] == q[b] {
      DamageIsCorrectable(ReceivedBlock(stream, v, b), p[b], q[b], v.ecPerBlock);
    }
  }

  /** What a reader makes of corrected data blocks. */
  function PayloadOf(data: seq<seq<Byte>>): Option<seq<Byte>> {
    Parse(AllBits(Join(data)))
  }

  /** A stream that is not damaged further than can be corrected still reads as its payload. */
  lemma DamagedStreamIsRead(stream: seq<Byte>, payload: seq<Byte>, v: Version, data: seq<seq<Byte>>)
    requires WellFormed(v) && |stream| == TOTAL_CODEWORDS[v.version - 1]
    requires |payload| + 2 <= v.dataCodewords && |payload| < 256
    requires Corrects(stream, v, DataBlocks(Stream(payload, v), v))
    ensures Corrects(stream, v, data) <==> data == DataBlocks(Stream(payload, v), v)
    ensures Corrects(stream, v, data) ==> PayloadOf(data) == Some(payload)
  {
    var blocks := DataBlocks(Stream(payload, v), v);
    if Corrects(stream, v, data) { CorrectionIsUnique(stream, v, data, blocks); }
    StreamJoin(payload, v);
    DataBits(payload, v);
    ParseData(DataCodewords(payload, v), payload);
  }

  /** So no stream is that close to the streams of two payloads. */
  lemma StreamsAreFarApart(stream: seq<Byte>, v: Version, a: seq<Byte>, b: seq<Byte>)
    requires WellFormed(v) && |stream| == TOTAL_CODEWORDS[v.version - 1]
    requires |a| + 2 <= v.dataCodewords && |a| < 256 && |b| + 2 <= v.dataCodewords && |b| < 256
    requires Corrects(stream, v, DataBlocks(Stream(a, v), v)) && Corrects(stream, v, DataBlocks(Stream(b, v), v))
    ensures a == b
  {
    DamagedStreamIsRead(stream, a, v, DataBlocks(Stream(a, v), v));
    DamagedStreamIsRead(stream, b, v, DataBlocks(Stream(a, v), v));
  }

  // ── The standard's numbers ─────────────────────────────────────────────────

  /** The blocks and the bytes of error correction in each that the standard has for a version and level. */
  predicate HasStandardBlocks(level: Level, v: Version) {
    && 1 <= v.version <= 6
    && v.dataCodewords == (if level == M then [16, 28, 44, 64, 86, 108] else [19, 34, 55, 80, 108, 136])[v.version - 1]
    && v.blocks == (if level == M then [1, 1, 1, 2, 2, 4] else [1, 1, 1, 1, 1, 2])[v.version - 1]
    && v.ecPerBlock == (if level == M then [10, 16, 26, 18, 24, 16] else [7, 10, 15, 20, 26, 18])[v.version - 1]
  }

  /** Both tables hold the block structure of table 9 of ISO/IEC 18004:2015, version by version. */
  lemma TablesAreStandard(level: Level, k: nat)
    requires k < 6
    ensures HasStandardBlocks(level, Table(level)[k]) && Table(level)[k].version == k + 1
  {}

  /** And so has every version a payload is given. */
  lemma ChosenIsStandard(byteLength: nat, level: Level, v: Version)
    requires ChooseVersion(byteLength) == Some((level, v))
    ensures HasStandardBlocks(level, v)
  {
    ChooseVersionFits(byteLength);
    TablesAreStandard(level, v.version - 1);
  }
}
