/**
 Reading a drawn QR code (packages/qr/src/index.ts) by the standard's walk. The encoder's own
 walk misplaces the last bits of the stream, but those are error correction bytes, spread over
 the blocks, and never more than half of what a block can spare: for every payload the encoder
 accepts, a reader that corrects errors takes exactly the payload from the code.
 */
module QrReading {
  import opened Bits
  import opened MinimumDistance
  import opened Options
  import opened Polynomials
  import opened ReedSolomon
  import opened FunctionPatterns
  import opened QrPlacement
  import opened QrStream
  import opened SetSizes

  // ── What is drawn and what is read ─────────────────────────────────────────

  /** A cell after masking; dark is 1, and a cell that was never written counts as light. */
  function Masked(value: int, flip: bool): int {
    if !flip then value else if value == 1 then 0 else 1
  }

  ghost predicate Whole(shown: map<Cell, int>, size: nat) {
    forall row: nat, column: nat :: row < size && column < size ==> Cell(row, column) in shown
  }

  /** The matrix shows these bits, placed cell by cell, under a mask; what else it shows is left open. */
  ghost predicate ShowsMasked(shown: map<Cell, int>, mask: Cell -> bool, cells: seq<Cell>, bits: seq<Bit>) {
    var placed := QrPlacement.Place(cells, bits);
    forall cell :: cell in placed ==> cell in shown && shown[cell] == Masked(placed[cell], mask(cell))
  }

  /** The cells the encoder writes, in order. */
  function WriterCells(version: nat): seq<Cell>
    requires version >= 1
  {
    Free(Walk(Size(version)), Reserved(version))
  }

  /** The whole matrix, with the payload's stream placed in it. */
  ghost predicate Drawn(shown: map<Cell, int>, mask: Cell -> bool, payload: seq<Byte>, v: Version)
    requires WellFormed(v)
  {
    Whole(shown, Size(v.version)) && ShowsMasked(shown, mask, WriterCells(v.version), AllBits(Stream(payload, v)))
  }

  /** The cells the standard has a reader visit. */
  function ReaderCells(version: nat): seq<Cell>
    requires version >= 1
  {
    Free(StandardFrom(Size(version), Size(version) - 1), Reserved(version))
  }

  lemma ReaderInside(version: nat)
    requires version >= 1
    ensures Inside(ReaderCells(version), Size(version))
  {
    StandardInside(Size(version), Size(version) - 1);
    FreeInside(StandardFrom(Size(version), Size(version) - 1), Reserved(version), Size(version));
  }

  lemma InsideIsShown(cells: seq<Cell>, shown: map<Cell, int>, size: nat)
    requires Inside(cells, size) && Whole(shown, size)
    ensures forall i :: 0 <= i < |cells| ==> cells[i] in shown
  {
    forall i | 0 <= i < |cells| ensures cells[i] in shown {
      assert cells[i] == Cell(cells[i].row, cells[i].column);
    }
  }

  /** The bits of some cells, with the mask undone. */
  function BitsAt(cells: seq<Cell>, shown: map<Cell, int>, mask: Cell -> bool): (bits: seq<Bit>)
    requires forall i :: 0 <= i < |cells| ==> cells[i] in shown
    ensures |bits| == |cells|
  {
    seq(|cells|, i requires 0 <= i < |cells| => if (shown[cells[i]] == 1) != mask(cells[i]) then 1 else 0)
  }

  ghost function ReadBits(shown: map<Cell, int>, mask: Cell -> bool, version: nat): (bits: seq<Bit>)
    requires 1 <= version <= 6 && Whole(shown, Size(version))
    ensures |bits| == 8 * TOTAL_CODEWORDS[version - 1] + RemainderBits(version)
  {
    ReaderInside(version);
    InsideIsShown(ReaderCells(version), shown, Size(version));
    WalksHoldTheStream(version);
    BitsAt(ReaderCells(version), shown, mask)
  }

  /** The codewords a reader takes from the matrix, the remainder bits dropped. */
  ghost function Received(shown: map<Cell, int>, mask: Cell -> bool, version: nat): (stream: seq<Byte>)
    requires 1 <= version <= 6 && Whole(shown, Size(version))
    ensures |stream| == TOTAL_CODEWORDS[version - 1]
  {
    Bytes(ReadBits(shown, mask, version))
  }

  // ── The bits that arrive ───────────────────────────────────────────────────

  ghost predicate InColumns(cells: seq<Cell>, from: nat, to: nat) {
    forall i :: 0 <= i < |cells| ==> from <= cells[i].column <= to
  }

  lemma {:induction false} PairColumns(size: nat, upward: bool, column: nat, steps: nat)
    requires 1 <= column && steps <= size
    ensures InColumns(Pair(size, upward, column, steps), column - 1, column)
  {
    if steps > 0 { PairColumns(size, upward, column, steps - 1); }
  }

  lemma {:induction false} FrontColumns(size: nat, right: nat)
    requires right < size
    ensures InColumns(Front(size, right), 7, size)
  {
    if right >= 8 {
      PairColumns(size, Upward(size, right), right, size);
      FrontColumns(size, right - 2);
    }
  }

  lemma {:induction false} FreeColumns(cells: seq<Cell>, reserved: set<Cell>, from: nat, to: nat)
    requires InColumns(cells, from, to)
    ensures InColumns(Free(cells, reserved), from, to)
  {
    if cells != [] { FreeColumns(cells[..|cells| - 1], reserved, from, to); }
  }

  lemma {:induction false} FreeIsVisited(cells: seq<Cell>, reserved: set<Cell>, i: nat)
    requires i < |Free(cells, reserved)|
    ensures Free(cells, reserved)[i] in cells && Free(cells, reserved)[i] !in reserved
  {
    var n := |cells| - 1;
    if i < |Free(cells[..n], reserved)| { FreeIsVisited(cells[..n], reserved, i); }
  }

  lemma OnceIsLast(cells: seq<Cell>, i: nat)
    requires i < |cells| && Count(cells, cells[i]) == 1
    ensures cells[i] !in cells[i + 1..]
  {
    if cells[i] in cells[i + 1..] {
      var j :| 0 <= j < |cells[i + 1..]| && cells[i + 1..][j] == cells[i];
      TwoPlacesCount(cells, i, i + 1 + j);
    }
  }

  /** Up to n both take the same cells, which are not written again. */
  ghost predicate SharedUpTo(writer: seq<Cell>, reader: seq<Cell>, n: nat) {
    && n <= |writer| && n <= |reader|
    && forall i :: 0 <= i < n ==> reader[i] == writer[i] && writer[i] !in writer[i + 1..]
  }

  /** The walk visits the cells right of the timing column once. */
  ghost predicate OnceOnTheRight(walk: seq<Cell>, size: nat) {
    && Inside(walk, size)
    && forall cell: Cell :: cell.row < size && 7 <= cell.column < size ==> VisitedTimes(walk, cell, 1)
  }

  lemma WalkIsOnce(size: nat)
    requires size >= 21 && size % 2 == 1
    ensures OnceOnTheRight(Walk(size), size)
  {
    WalkInside(size, size - 1);
    forall cell: Cell | cell.row < size && 7 <= cell.column < size ensures VisitedTimes(Walk(size), cell, 1) {
      WalkVisits(size, cell);
    }
  }

  lemma VersionIsOnce(version: nat, size: nat)
    requires version >= 1 && size == Size(version)
    ensures OnceOnTheRight(Walk(size), size)
  {
    OddSize(version, size);
    WalkIsOnce(size);
  }

  /** So they are not written again. */
  lemma WrittenOnce(walk: seq<Cell>, size: nat, reserved: set<Cell>, i: nat)
    requires OnceOnTheRight(walk, size) && i < |Free(walk, reserved)| && Free(walk, reserved)[i].column >= 7
    ensures Free(walk, reserved)[i] !in Free(walk, reserved)[i + 1..]
  {
    FreeInside(walk, reserved, size);
    FreeIsVisited(walk, reserved, i);
    assert VisitedTimes(walk, Free(walk, reserved)[i], 1);
    CountFree(walk, reserved, Free(walk, reserved)[i]);
    OnceIsLast(Free(walk, reserved), i);
  }

  lemma FirstCells(front: seq<Cell>, tail: seq<Cell>, reserved: set<Cell>)
    ensures Free(front, reserved) <= Free(front + tail, reserved)
  {
    FreeConcat(front, tail, reserved);
  }

  /** Where both walks agree. */
  function Shared(version: nat): seq<Cell> {
    Free(Front(Size(version), Size(version) - 1), Reserved(version))
  }

  lemma SharedIsWritten(version: nat, timing: nat)
    requires version >= 1 && timing == 6
    ensures Shared(version) <= WriterCells(version)
  {
    WalksAreSplit(version, timing);
    FirstCells(Front(Size(version), Size(version) - 1), WalkFrom(Size(version), timing), Reserved(version));
  }

  lemma SharedIsRead(version: nat, timing: nat)
    requires version >= 1 && timing == 6
    ensures Shared(version) <= ReaderCells(version)
  {
    WalksAreSplit(version, timing);
    FirstCells(Front(Size(version), Size(version) - 1), StandardFrom(Size(version), timing), Reserved(version));
  }

  lemma SharedColumns(version: nat)
    requires version >= 1
    ensures InColumns(Shared(version), 7, Size(version))
  {
    FrontColumns(Size(version), Size(version) - 1);
    FreeColumns(Front(Size(version), Size(version) - 1), Reserved(version), 7, Size(version));
  }

  lemma PrefixIsShared(walk: seq<Cell>, size: nat, reserved: set<Cell>, reader: seq<Cell>, shared: seq<Cell>)
    requires OnceOnTheRight(walk, size) && InColumns(shared, 7, size)
    requires shared <= Free(walk, reserved) && shared <= reader
    ensures SharedUpTo(Free(walk, reserved), reader, |shared|)
  {
    var cells := Free(walk, reserved);
    forall i: nat | i < |shared| ensures cells[i] !in cells[i + 1..] {
      assert cells[i] == shared[i];
      WrittenOnce(walk, size, reserved, i);
    }
  }

  lemma WalksShare(version: nat)
    requires version >= 1
    ensures SharedUpTo(WriterCells(version), ReaderCells(version), |Shared(version)|)
  {
    SharedIsWritten(version, 6);
    SharedIsRead(version, 6);
    SharedColumns(version);
    VersionIsOnce(version, Size(version));
    PrefixIsShared(Walk(Size(version)), Size(version), Reserved(version), ReaderCells(version), Shared(version));
  }

  /** What was written where both agree is read. */
  lemma SharedBits(writer: seq<Cell>, reader: seq<Cell>, n: nat, bits: seq<Bit>,
                   shown: map<Cell, int>, mask: Cell -> bool)
    requires SharedUpTo(writer, reader, n) && n <= |bits| && ShowsMasked(shown, mask, writer, bits)
    requires forall i :: 0 <= i < |reader| ==> reader[i] in shown
    ensures forall i :: 0 <= i < n ==> BitsAt(reader, shown, mask)[i] == bits[i]
  {
    forall i: nat | i < n ensures BitsAt(reader, shown, mask)[i] == bits[i] {
      LastVisitWins(writer, bits, i);
    }
  }

  lemma SameByte(read: seq<Bit>, sent: seq<Bit>, j: nat, from: nat)
    requires from == 8 * j && from + 8 <= |read| && from + 8 <= |sent|
    requires forall i :: from <= i < from + 8 ==> read[i] == sent[i]
    ensures Bytes(read)[j] == Bytes(sent)[j]
  {
    ByteAt(read, j, from);
    ByteAt(sent, j, from);
    assert read[from..from + 8] == sent[from..from + 8];
  }

  lemma SameBytes(read: seq<Bit>, sent: seq<Bit>, n: nat)
    requires 8 * n <= |read| && 8 * n <= |sent| && forall i :: 0 <= i < 8 * n ==> read[i] == sent[i]
    ensures forall j :: 0 <= j < n ==> Bytes(read)[j] == Bytes(sent)[j]
  {
    forall j: nat | j < n ensures Bytes(read)[j] == Bytes(sent)[j] { SameByte(read, sent, j, 8 * j); }
  }

  /** So are whole bytes. */
  lemma SharedBytes(writer: seq<Cell>, reader: seq<Cell>, n: nat, bits: seq<Bit>,
                    shown: map<Cell, int>, mask: Cell -> bool)
    requires SharedUpTo(writer, reader, 8 * n) && 8 * n <= |bits| && ShowsMasked(shown, mask, writer, bits)
    requires forall i :: 0 <= i < |reader| ==> reader[i] in shown
    ensures forall j :: 0 <= j < n ==> Bytes(BitsAt(reader, shown, mask))[j] == Bytes(bits)[j]
  {
    SharedBits(writer, reader, 8 * n, bits, shown, mask);
    SameBytes(BitsAt(reader, shown, mask), bits, n);
  }

  /** The first codewords of a drawn code arrive. */
  lemma FirstBytesArrive(payload: seq<Byte>, v: Version, shown: map<Cell, int>, mask: Cell -> bool, n: nat)
    requires WellFormed(v) && Drawn(shown, mask, payload, v)
    requires 8 * n <= |Shared(v.version)| && n <= TOTAL_CODEWORDS[v.version - 1]
    ensures forall j :: 0 <= j < n ==> Received(shown, mask, v.version)[j] == Stream(payload, v)[j]
  {
    var size := Size(v.version);
    WalksShare(v.version);
    ReaderInside(v.version);
    InsideIsShown(ReaderCells(v.version), shown, size);
    FewerShared(WriterCells(v.version), ReaderCells(v.version), |Shared(v.version)|, 8 * n);
    SharedBytes(WriterCells(v.version), ReaderCells(v.version), n, AllBits(Stream(payload, v)), shown, mask);
    BytesOfAllBits(Stream(payload, v));
  }

  lemma FewerShared(writer: seq<Cell>, reader: seq<Cell>, n: nat, fewer: nat)
    requires SharedUpTo(writer, reader, n) && fewer <= n
    ensures SharedUpTo(writer, reader, fewer)
  {}

  // ── The damage to a block ──────────────────────────────────────────────────

  /** Where a reader finds byte k of block b. */
  function IndexOf(v: Version, b: nat, k: nat): nat
    requires WellFormed(v)
  {
    if k < PerBlock(v) then v.blocks * k + b else v.dataCodewords + v.blocks * (k - PerBlock(v)) + b
  }

  lemma ByteOfBlock(stream: seq<Byte>, v: Version, b: nat, k: nat)
    requires WellFormed(v) && |stream| == TOTAL_CODEWORDS[v.version - 1]
    requires b < v.blocks && k < PerBlock(v) + v.ecPerBlock
    ensures IndexOf(v, b, k) < |stream| && ReceivedBlock(stream, v, b)[k] == stream[IndexOf(v, b, k)]
  {
    if k < PerBlock(v) {
      DataByte(stream, v, b, k, v.dataCodewords);
    } else {
      ParityByte(stream, v, b, k - PerBlock(v), v.dataCodewords);
    }
  }

  lemma DataByte(stream: seq<Byte>, v: Version, b: nat, k: nat, n: nat)
    requires WellFormed(v) && |stream| == TOTAL_CODEWORDS[v.version - 1]
    requires b < v.blocks && k < PerBlock(v) && n == v.blocks * PerBlock(v)
    ensures v.blocks * k + b < n && DataBlocks(stream, v)[b][k] == stream[v.blocks * k + b]
  {
    ByteRead(stream[..n], v.blocks, PerBlock(v), b, k);
  }

  lemma ParityByte(stream: seq<Byte>, v: Version, b: nat, k: nat, n: nat)
    requires WellFormed(v) && |stream| == TOTAL_CODEWORDS[v.version - 1]
    requires b < v.blocks && k < v.ecPerBlock && n == v.blocks * PerBlock(v)
    ensures n + v.blocks * k + b < |stream| && ParityBlocks(stream, v)[b][k] == stream[n + v.blocks * k + b]
  {
    ByteRead(stream[n..], v.blocks, v.ecPerBlock, b, k);
  }

  lemma ByteRead(stream: seq<Byte>, count: nat, n: nat, b: nat, k: nat)
    requires |stream| == count * n && b < count && k < n
    ensures count * k + b < |stream| && ReadBlocks(stream, count, n)[b][k] == stream[count * k + b]
  {
    QrStream.Place(count, n, k, b);
  }

  lemma EarlyByte(v: Version, b: nat, k: nat, rows: nat)
    requires WellFormed(v) && b < v.blocks && k < PerBlock(v) + rows
    ensures IndexOf(v, b, k) < v.dataCodewords + v.blocks * rows
  {
    if k < PerBlock(v) {
      QrStream.Place(v.blocks, PerBlock(v), k, b);
    } else {
      QrStream.Place(v.blocks, rows, k - PerBlock(v), b);
    }
  }

  /** Streams that agree up to some rows of error correction differ in a block in the rows after them only. */
  lemma BlockDamage(received: seq<Byte>, sent: seq<Byte>, v: Version, b: nat, rows: nat)
    requires WellFormed(v) && |received| == |sent| == TOTAL_CODEWORDS[v.version - 1] && b < v.blocks
    requires rows <= v.ecPerBlock && v.dataCodewords + v.blocks * rows <= |sent|
    requires forall j :: 0 <= j < v.dataCodewords + v.blocks * rows ==> received[j] == sent[j]
    ensures |Differences(ReceivedBlock(received, v, b), ReceivedBlock(sent, v, b))| <= v.ecPerBlock - rows
  {
    var got, want := ReceivedBlock(received, v, b), ReceivedBlock(sent, v, b);
    forall k: nat | k < PerBlock(v) + rows ensures got[k] == want[k] {
      EarlyByte(v, b, k, rows);
      ByteOfBlock(received, v, b, k);
      ByteOfBlock(sent, v, b, k);
    }
    LateDifferences(got, want, PerBlock(v) + rows);
  }

  lemma LateDifferences(got: Poly, want: Poly, from: nat)
    requires from <= |got| == |want| && forall k :: 0 <= k < from ==> got[k] == want[k]
    ensures |Differences(got, want)| <= |got| - from
  {
    PlacesSize(from, |got| - from);
    SubsetSize(Differences(got, want), Places(from, |got| - from));
  }

  /** A block as it was sent is a codeword. */
  lemma SentBlock(payload: seq<Byte>, v: Version, b: nat)
    requires WellFormed(v) && b < v.blocks
    ensures ReceivedBlock(Stream(payload, v), v, b)
         == Codeword(DataBlocks(Stream(payload, v), v)[b], v.ecPerBlock)
  {
    StreamBlocks(payload, v);
  }

  // ── Every accepted payload is read ─────────────────────────────────────────

  /** The rows of error correction that arrive whole, however the walk ends. */
  function RowsBeforeTail(v: Version): int
    requires v.blocks > 0 && 1 <= v.version <= 6
  {
    ((8 * TOTAL_CODEWORDS[v.version - 1] + RemainderBits(v.version) - 24 * v.version) / 8 - v.dataCodewords) / v.blocks
  }

  /** In each version a payload can be given, they leave at most half of a block's error correction. */
  lemma HalfArrives(byteLength: nat, level: Level, v: Version)
    requires ChooseVersion(byteLength) == Some((level, v))
    ensures WellFormed(v) && 0 <= RowsBeforeTail(v) <= v.ecPerBlock <= 2 * RowsBeforeTail(v)
  {
    ChooseVersionFits(byteLength);
    if level == M { HalfAtLevelM(v.version - 1); }
  }

  lemma HalfAtLevelM(k: nat)
    requires k < 6
    ensures var v := VERSIONS_M[k];
            v.version == k + 1 && 0 <= RowsBeforeTail(v) <= v.ecPerBlock <= 2 * RowsBeforeTail(v)
  {}

  lemma BlockIsCorrectable(received: seq<Byte>, payload: seq<Byte>, v: Version, b: nat, rows: nat)
    requires WellFormed(v) && |received| == TOTAL_CODEWORDS[v.version - 1] && b < v.blocks
    requires rows <= v.ecPerBlock <= 2 * rows && v.dataCodewords + v.blocks * rows <= |received|
    requires forall j :: 0 <= j < v.dataCodewords + v.blocks * rows ==> received[j] == Stream(payload, v)[j]
    ensures 2 * |Differences(ReceivedBlock(received, v, b),
                             Codeword(DataBlocks(Stream(payload, v), v)[b], v.ecPerBlock))| <= v.ecPerBlock
  {
    BlockDamage(received, Stream(payload, v), v, b, rows);
    SentBlock(payload, v, b);
  }

  lemma IsCorrectable(received: seq<Byte>, payload: seq<Byte>, v: Version, rows: nat)
    requires WellFormed(v) && |received| == TOTAL_CODEWORDS[v.version - 1]
    requires rows <= v.ecPerBlock <= 2 * rows && v.dataCodewords + v.blocks * rows <= |received|
    requires forall j :: 0 <= j < v.dataCodewords + v.blocks * rows ==> received[j] == Stream(payload, v)[j]
    ensures Corrects(received, v, DataBlocks(Stream(payload, v), v))
  {
    StreamBlocks(payload, v);
    forall b: nat | b < v.blocks
      ensures 2 * |Differences(ReceivedBlock(received, v, b),
                               Codeword(DataBlocks(Stream(payload, v), v)[b], v.ecPerBlock))| <= v.ecPerBlock
    {
      BlockIsCorrectable(received, payload, v, b, rows);
    }
  }

  /**
   Every payload the encoder accepts is read from its code, whatever the mask and whatever the
   cells show that are never written: a reader that corrects up to half of each block's error
   correction finds the data blocks sent, no others are in its reach, and they parse to the
   payload.
   */
  lemma DrawnCodeIsRead(payload: seq<Byte>, level: Level, v: Version, shown: map<Cell, int>, mask: Cell -> bool,
                        data: seq<seq<Byte>>)
    requires WellFormed(v) && Drawn(shown, mask, payload, v)
    requires ChooseVersion(|payload|) == Some((level, v))
    ensures Corrects(Received(shown, mask, v.version), v, data) <==> data == DataBlocks(Stream(payload, v), v)
    ensures Corrects(Received(shown, mask, v.version), v, data) ==> PayloadOf(data) == Some(payload)
  {
    ChooseVersionFits(|payload|);
    HalfArrives(|payload|, level, v);
    var rows, n := RowsArrive(v);
    SpareRowsRead(payload, v, rows, n, shown, mask, data);
  }

  lemma RowsArrive(v: Version) returns (rows: nat, n: nat)
    requires WellFormed(v) && 0 <= RowsBeforeTail(v) <= v.ecPerBlock <= 2 * RowsBeforeTail(v)
    ensures rows <= v.ecPerBlock <= 2 * rows && n == v.dataCodewords + v.blocks * rows
    ensures 8 * n <= |Shared(v.version)| && n <= TOTAL_CODEWORDS[v.version - 1]
  {
    rows := RowsBeforeTail(v);
    n := v.dataCodewords + v.blocks * rows;
    FrontHolds(v.version, 7);
    RowsFit(v, rows, n);
  }

  lemma SpareRowsRead(payload: seq<Byte>, v: Version, rows: nat, n: nat, shown: map<Cell, int>, mask: Cell -> bool,
                      data: seq<seq<Byte>>)
    requires WellFormed(v) && Drawn(shown, mask, payload, v)
    requires rows <= v.ecPerBlock <= 2 * rows && n == v.dataCodewords + v.blocks * rows
    requires 8 * n <= |Shared(v.version)| && n <= TOTAL_CODEWORDS[v.version - 1]
    requires |payload| + 2 <= v.dataCodewords && |payload| < 256
    ensures Corrects(Received(shown, mask, v.version), v, data) <==> data == DataBlocks(Stream(payload, v), v)
    ensures Corrects(Received(shown, mask, v.version), v, data) ==> PayloadOf(data) == Some(payload)
  {
    FirstBytesArrive(payload, v, shown, mask, n);
    EarlyStreamIsRead(Received(shown, mask, v.version), payload, v, rows, n, data);
  }

  lemma EarlyStreamIsRead(received: seq<Byte>, payload: seq<Byte>, v: Version, rows: nat, n: nat, data: seq<seq<Byte>>)
    requires WellFormed(v) && |received| == TOTAL_CODEWORDS[v.version - 1]
    requires rows <= v.ecPerBlock <= 2 * rows && n == v.dataCodewords + v.blocks * rows <= |received|
    requires forall j :: 0 <= j < n ==> received[j] == Stream(payload, v)[j]
    requires |payload| + 2 <= v.dataCodewords && |payload| < 256
    ensures Corrects(received, v, data) <==> data == DataBlocks(Stream(payload, v), v)
    ensures Corrects(received, v, data) ==> PayloadOf(data) == Some(payload)
  {
    IsCorrectable(received, payload, v, rows);
    DamagedStreamIsRead(received, payload, v, data);
  }

  lemma RowsFit(v: Version, rows: nat, n: nat)
    requires WellFormed(v) && rows == RowsBeforeTail(v) && n == v.dataCodewords + v.blocks * rows
    ensures 8 * n <= 8 * TOTAL_CODEWORDS[v.version - 1] + RemainderBits(v.version) - 24 * v.version
  {
    var bits := 8 * TOTAL_CODEWORDS[v.version - 1] + RemainderBits(v.version) - 24 * v.version;
    Rounded(bits / 8 - v.dataCodewords, v.blocks);
  }

  lemma Rounded(n: int, d: nat)
    requires d > 0
    ensures d * (n / d) <= n
  {}

  // ── What is lost on the way ────────────────────────────────────────────────

  lemma LastCellsAre(before: seq<Cell>, last: seq<Cell>, reserved: set<Cell>)
    ensures |Free(before + last, reserved)| >= |Free(last, reserved)|
    ensures var cells, n := Free(before + last, reserved), |Free(last, reserved)|;
            forall i :: |cells| - n <= i < |cells| ==> cells[i] in Free(last, reserved)
  {
    FreeConcat(before, last, reserved);
  }

  lemma LastPairCells(version: nat, upward: bool, two: nat)
    requires version >= 1 && two == 2
    ensures |Free(Pair(Size(version), upward, two, Size(version)), Reserved(version))| == 8 * version
    ensures InColumns(Free(Pair(Size(version), upward, two, Size(version)), Reserved(version)), 1, 2)
  {
    RoomAt(version, two);
    RoomAt(version, two - 1);
    WholePairRoom(version, upward, two);
    PairColumns(Size(version), upward, two, Size(version));
    FreeColumns(Pair(Size(version), upward, two, Size(version)), Reserved(version), two - 1, two);
  }

  lemma WalkEnds(size: nat, timing: nat, two: nat) returns (head: seq<Cell>, upward: bool)
    requires size >= 21 && timing == 6 && two == 2
    ensures WalkFrom(size, timing) == head + Pair(size, upward, two, size)
  {
    upward := Upward(size, two);
    var five, four := Pair(size, Upward(size, 6), 5, size), Pair(size, Upward(size, 4), 4, size);
    assert WalkFrom(size, 0) == [];
    assert WalkFrom(size, 2) == Pair(size, upward, 2, size);
    assert WalkFrom(size, 4) == four + WalkFrom(size, 2);
    head := five + four;
  }

  lemma WalkEndsWith(version: nat, timing: nat, two: nat) returns (before: seq<Cell>, upward: bool)
    requires version >= 1 && timing == 6 && two == 2
    ensures Walk(Size(version)) == before + Pair(Size(version), upward, two, Size(version))
  {
    var head;
    WalksAreSplit(version, timing);
    head, upward := WalkEnds(Size(version), timing, two);
    before := Front(Size(version), Size(version) - 1) + head;
  }

  /** The last bits are written next to the left edge. */
  lemma WriterEnds(version: nat, two: nat, i: nat)
    requires version >= 1 && two == 2 && |WriterCells(version)| - 8 * version <= i < |WriterCells(version)|
    ensures WriterCells(version)[i].column <= 2
  {
    var before, upward := WalkEndsWith(version, 6, two);
    LastPairCells(version, upward, two);
    LastCellsAre(before, Pair(Size(version), upward, two, Size(version)), Reserved(version));
  }

  lemma SomeCellIsLost(version: nat, size: nat) returns (k: nat)
    requires version >= 1 && size == Size(version)
    ensures k < |WriterCells(version)| && Loses(WriterCells(version), k) && WriterCells(version)[k].column == 4
  {
    OddSize(version, size);
    InReserved(version, Cell(9, 4));
    k := ColumnFourLosesABit(size, Reserved(version), 9);
  }

  lemma BeforeTheEnd(version: nat, k: nat)
    requires 1 <= version <= 6 && k < |WriterCells(version)| && WriterCells(version)[k].column == 4
    ensures k < 8 * TOTAL_CODEWORDS[version - 1]
  {
    WalksHoldTheStream(version);
    if k >= |WriterCells(version)| - 8 * version {
      WriterEnds(version, 2, k);
      assert false;
    }
  }

  /** In every version some bit of the stream has no effect on the matrix, so it cannot be read back. */
  lemma EveryVersionLosesABit(version: nat) returns (k: nat)
    requires 1 <= version <= 6
    ensures k < 8 * TOTAL_CODEWORDS[version - 1] && Loses(WriterCells(version), k)
    ensures !ReadsBack(WriterCells(version))
  {
    k := SomeCellIsLost(version, Size(version));
    LosingDoesNotReadBack(WriterCells(version), k);
    BeforeTheEnd(version, k);
  }
}
