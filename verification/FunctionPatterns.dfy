/**
 The function patterns of a QR code (packages/qr/src/index.ts): which cells of the matrix they
 take, and that what they leave along the walk is exactly the room the version tables promise.
 */
module FunctionPatterns {
  import opened QrPlacement
  import opened QrStream

  function Size(version: nat): nat {
    17 + 4 * version
  }

  lemma OddSize(version: nat, size: nat)
    requires size == Size(version)
    ensures size % 2 == 1 && (size - 1) % 2 == 0
  {
    Odd(8 + 2 * version, size);
  }

  lemma Odd(half: nat, n: nat)
    requires n == 2 * half + 1
    ensures n % 2 == 1 && (n - 1) % 2 == 0
  {}

  // ── The patterns ───────────────────────────────────────────────────────────

  /** A finder pattern with the light border around it. */
  predicate InFinder(top: int, left: int, cell: Cell) {
    top - 1 <= cell.row <= top + 7 && left - 1 <= cell.column <= left + 7
  }

  predicate InTiming(size: nat, cell: Cell) {
    || (cell.row == 6 && 8 <= cell.column < size - 8)
    || (cell.column == 6 && 8 <= cell.row < size - 8)
  }

  predicate InAlignment(centre: int, cell: Cell) {
    centre - 2 <= cell.row <= centre + 2 && centre - 2 <= cell.column <= centre + 2
  }

  /** Both copies of the format information. */
  predicate InFormat(size: nat, cell: Cell) {
    || (cell.row == 8 && (cell.column < 9 || size - 8 <= cell.column < size))
    || (cell.column == 8 && (cell.row < 9 || size - 8 <= cell.row < size))
  }

  predicate IsFunction(version: nat, cell: Cell) {
    var size := Size(version);
    || InFinder(0, 0, cell) || InFinder(0, size - 7, cell) || InFinder(size - 7, 0, cell)
    || InTiming(size, cell) || (version >= 2 && InAlignment(size - 7, cell))
    || cell == Cell(size - 8, 8) || InFormat(size, cell)
  }

  function Reserved(version: nat): set<Cell> {
    set row: nat, column: nat | row < Size(version) && column < Size(version)
      && IsFunction(version, Cell(row, column)) :: Cell(row, column)
  }

  lemma InReserved(version: nat, cell: Cell)
    requires cell.row < Size(version) && cell.column < Size(version)
    ensures cell in Reserved(version) <==> IsFunction(version, cell)
  {
    assert cell == Cell(cell.row, cell.column);
  }

  /** The six versions are from 21 to 41 modules wide, four more each. */
  lemma SizesAre()
    ensures Size(1) == 21 && Size(2) == 25 && Size(3) == 29 && Size(4) == 33 && Size(5) == 37 && Size(6) == 41
  {}

  /** Reserved are three corners of nine by nine or eight, row and column 6, and from version 2 a square of five. */
  lemma ReservedCells(version: nat, cell: Cell)
    requires version >= 1 && cell.row < Size(version) && cell.column < Size(version)
    ensures cell in Reserved(version) <==>
              || (cell.row <= 8 && cell.column <= 8)
              || (cell.row <= 8 && cell.column >= 9 + 4 * version)
              || (cell.row >= 9 + 4 * version && cell.column <= 8)
              || cell.row == 6 || cell.column == 6
              || (version >= 2 && 8 + 4 * version <= cell.row <= 12 + 4 * version
                               && 8 + 4 * version <= cell.column <= 12 + 4 * version)
  {
    InReserved(version, cell);
  }

  // ── How many cells are free ────────────────────────────────────────────────

  /** The free rows of a column, from one row to another that is not included. */
  function FreeRows(reserved: set<Cell>, column: nat, from: nat, to: nat): nat
    requires from <= to
  {
    if from == to then 0
    else FreeRows(reserved, column, from, to - 1) + if Cell(to - 1, column) in reserved then 0 else 1
  }

  lemma {:induction false} FreeRowsFirst(reserved: set<Cell>, column: nat, from: nat, to: nat)
    requires from < to
    ensures FreeRows(reserved, column, from, to)
         == FreeRows(reserved, column, from + 1, to) + if Cell(from, column) in reserved then 0 else 1
  {
    if from + 1 < to { FreeRowsFirst(reserved, column, from, to - 1); }
  }

  lemma FreeTwo(cells: seq<Cell>, a: Cell, b: Cell, reserved: set<Cell>)
    ensures |Free(cells + [a, b], reserved)|
         == |Free(cells, reserved)| + (if a in reserved then 0 else 1) + (if b in reserved then 0 else 1)
  {
    assert cells + [a, b] == cells + [a] + [b];
    FreeAppend(cells, a, reserved);
    FreeAppend(cells + [a], b, reserved);
  }

  /** A pair of columns has as many free cells as its two columns have free rows. */
  lemma {:induction false} PairRoom(size: nat, upward: bool, column: nat, steps: nat, reserved: set<Cell>)
    requires 1 <= column && steps <= size
    ensures var from, to := if upward then size - steps else 0, if upward then size else steps;
            |Free(Pair(size, upward, column, steps), reserved)| ==
            FreeRows(reserved, column, from, to) + FreeRows(reserved, column - 1, from, to)
  {
    if steps > 0 {
      var row := if upward then size - steps else steps - 1;
      PairRoom(size, upward, column, steps - 1, reserved);
      FreeTwo(Pair(size, upward, column, steps - 1), Cell(row, column), Cell(row, column - 1), reserved);
      if upward {
        FreeRowsFirst(reserved, column, row, size);
        FreeRowsFirst(reserved, column - 1, row, size);
      }
    }
  }

  /** How much of the rows below n lies between two rows. */
  function Overlap(n: nat, from: nat, to: nat): nat
    requires from <= to
  {
    if n <= from then 0 else if n <= to then n - from else to - from
  }

  predicate Aligned(version: nat, column: nat) {
    version >= 2 && Size(version) - 9 <= column <= Size(version) - 5
  }

  /** The reserved rows of a column below n, counted from the patterns that cross it. */
  function ReservedBelow(version: nat, column: nat, n: nat): nat {
    var size := Size(version);
    (if column <= 8 then Overlap(n, 0, 9) + Overlap(n, size - 8, size)
     else if column < size - 8 then Overlap(n, 6, 7) else Overlap(n, 0, 9))
    + if Aligned(version, column) then Overlap(n, size - 9, size - 4) else 0
  }

  lemma {:induction false} ColumnRoom(version: nat, column: nat, n: nat)
    requires version >= 1 && column < Size(version) && column != 6 && n <= Size(version)
    ensures FreeRows(Reserved(version), column, 0, n) == n - ReservedBelow(version, column, n)
  {
    if n > 0 {
      ColumnRoom(version, column, n - 1);
      InReserved(version, Cell(n - 1, column));
    }
  }

  /** The free rows of a whole column. */
  function Room(version: nat, column: nat): nat {
    FreeRows(Reserved(version), column, 0, Size(version))
  }

  /** The same, from the patterns that cross the column. */
  function RoomLeft(version: nat, column: nat): int {
    var size := Size(version);
    (if column <= 8 then size - 17 else if column < size - 8 then size - 1 else size - 9)
    - if Aligned(version, column) then 5 else 0
  }

  lemma RoomAt(version: nat, column: nat)
    requires version >= 1 && column < Size(version) && column != 6
    ensures Room(version, column) == RoomLeft(version, column)
  {
    ColumnRoom(version, column, Size(version));
  }

  /** The free cells of several columns, counted from the patterns. */
  function RoomOf(version: nat, from: nat, to: nat): int
    requires from <= to
  {
    if from == to then 0 else RoomOf(version, from, to - 1) + RoomLeft(version, to - 1)
  }

  lemma {:induction false} RoomOfParts(version: nat, from: nat, mid: nat, to: nat)
    requires from <= mid <= to
    ensures RoomOf(version, from, to) == RoomOf(version, from, mid) + RoomOf(version, mid, to)
  {
    if mid < to { RoomOfParts(version, from, mid, to - 1); }
  }

  lemma {:induction false} EvenRoom(version: nat, from: nat, to: nat, each: nat)
    requires from <= to
    requires forall column :: from <= column < to ==> RoomLeft(version, column) == each
    ensures RoomOf(version, from, to) == (to - from) * each
  {
    if from < to {
      EvenRoom(version, from, to - 1, each);
      assert (to - from) * each == (to - 1 - from) * each + each;
    }
  }

  // ── The room along the walks ───────────────────────────────────────────────

  lemma {:induction false} FreeConcat(a: seq<Cell>, b: seq<Cell>, reserved: set<Cell>)
    ensures Free(a + b, reserved) == Free(a, reserved) + Free(b, reserved)
    decreases |b|
  {
    if b == [] {
      assert a + b == a;
    } else {
      var n := |b| - 1;
      var rest, last := b[..n], b[n];
      FreeConcat(a, rest, reserved);
      FreeAppend(rest, last, reserved);
      FreeAppend(a + rest, last, reserved);
      assert b == rest + [last] && a + b == (a + rest) + [last];
    }
  }

  /** The pairs of columns to the right of the timing column, where both walks agree. */
  function Front(size: nat, right: nat): seq<Cell>
    requires right < size
  {
    if right < 8 then [] else Pair(size, Upward(size, right), right, size) + Front(size, right - 2)
  }

  ghost predicate WalksAre(size: nat, right: nat, walk: seq<Cell>, standard: seq<Cell>)
    requires right < size
  {
    WalkFrom(size, right) == walk && StandardFrom(size, right) == standard
  }

  ghost predicate SplitAt(size: nat, right: nat, walk: seq<Cell>, standard: seq<Cell>)
    requires right < size
  {
    WalksAre(size, right, Front(size, right) + walk, Front(size, right) + standard)
  }

  lemma SplitsStart(size: nat, right: nat, walk: seq<Cell>, standard: seq<Cell>)
    requires right < size && right < 8 && WalksAre(size, right, walk, standard)
    ensures SplitAt(size, right, walk, standard)
  {
    assert Front(size, right) + walk == walk && Front(size, right) + standard == standard;
  }

  lemma SplitsStep(size: nat, right: nat, rest: seq<Cell>, walk: seq<Cell>, standard: seq<Cell>)
    requires 8 <= right < size && right % 2 == 0 && rest == Front(size, right - 2)
    requires WalksAre(size, right - 2, rest + walk, rest + standard)
    ensures SplitAt(size, right, walk, standard)
  {
    var pair := Pair(size, Upward(size, right), right, size);
    assert pair + (rest + walk) == (pair + rest) + walk;
    assert pair + (rest + standard) == (pair + rest) + standard;
  }

  lemma {:induction false} WalkSplits(size: nat, right: nat, timing: nat, walk: seq<Cell>, standard: seq<Cell>)
    requires 5 < timing < 8 && timing % 2 == 0 && timing <= right < size && right % 2 == 0
    requires WalksAre(size, timing, walk, standard)
    ensures SplitAt(size, right, walk, standard)
  {
    if right == timing {
      SplitsStart(size, right, walk, standard);
    } else {
      WalkSplits(size, right - 2, timing, walk, standard);
      SplitsStep(size, right, Front(size, right - 2), walk, standard);
    }
  }

  /** The free cells of a pair of columns. */
  lemma WholePairRoom(version: nat, upward: bool, column: nat)
    requires 1 <= column
    ensures |Free(Pair(Size(version), upward, column, Size(version)), Reserved(version))|
         == Room(version, column) + Room(version, column - 1)
  {
    PairRoom(Size(version), upward, column, Size(version), Reserved(version));
  }

  lemma TwoColumns(version: nat, from: nat, right: nat)
    requires version >= 1 && 6 < from < right < Size(version)
    ensures RoomOf(version, from, right + 1)
         == RoomOf(version, from, right - 1) + Room(version, right - 1) + Room(version, right)
  {
    RoomAt(version, right);
    RoomAt(version, right - 1);
  }

  lemma {:induction false} FrontRoom(version: nat, right: nat, seven: nat)
    requires version >= 1 && seven == 7 && 6 <= right < Size(version) && right % 2 == 0
    ensures |Free(Front(Size(version), right), Reserved(version))| == RoomOf(version, seven, right + 1)
  {
    if right >= 8 {
      var size := Size(version);
      var pair, rest := Pair(size, Upward(size, right), right, size), Front(size, right - 2);
      FrontRoom(version, right - 2, seven);
      WholePairRoom(version, Upward(size, right), right);
      FreeConcat(pair, rest, Reserved(version));
      TwoColumns(version, seven, right);
      assert Front(size, right) == pair + rest;
    }
  }

  /** The last three pairs of either walk have room for six times the free rows of their columns. */
  lemma TailRoom(version: nat)
    requires version >= 1
    ensures |Free(WalkFrom(Size(version), 6), Reserved(version))| == 24 * version
    ensures |Free(StandardFrom(Size(version), 6), Reserved(version))| == 24 * version
  {
    var size, reserved := Size(version), Reserved(version);
    forall column | 0 <= column < 6 ensures Room(version, column) == 4 * version {
      RoomAt(version, column);
    }
    PairsRoom(version, [5, 4, 2], Upward(size, 6), Upward(size, 4), Upward(size, 2));
    PairsRoom(version, [5, 3, 1], Upward(size, 6), Upward(size, 3), Upward(size, 1));
    assert WalkFrom(size, 0) == [];
    assert WalkFrom(size, 2) == Pair(size, Upward(size, 2), 2, size);
    assert WalkFrom(size, 4) == Pair(size, Upward(size, 4), 4, size) + WalkFrom(size, 2);
    assert StandardFrom(size, 1) == Pair(size, Upward(size, 1), 1, size);
    assert StandardFrom(size, 3) == Pair(size, Upward(size, 3), 3, size) + StandardFrom(size, 1);
  }

  lemma PairsRoom(version: nat, columns: seq<nat>, first: bool, second: bool, third: bool)
    requires |columns| == 3 && forall i :: 0 <= i < 3 ==> 1 <= columns[i] <= 5
    requires forall column :: 0 <= column < 6 ==> Room(version, column) == 4 * version
    ensures var size := Size(version);
            |Free(Pair(size, first, columns[0], size)
                  + (Pair(size, second, columns[1], size) + Pair(size, third, columns[2], size)),
                  Reserved(version))| == 24 * version
  {
    var size := Size(version);
    var a, b, c := Pair(size, first, columns[0], size), Pair(size, second, columns[1], size),
                   Pair(size, third, columns[2], size);
    WholePairRoom(version, first, columns[0]);
    WholePairRoom(version, second, columns[1]);
    WholePairRoom(version, third, columns[2]);
    FreeConcat(a, b + c, Reserved(version));
    FreeConcat(b, c, Reserved(version));
  }

  lemma FivePartsRoom(version: nat, a: nat, b: nat, c: nat, d: nat, e: nat, f: nat)
    requires a <= b <= c <= d <= e <= f
    ensures RoomOf(version, a, f) == RoomOf(version, a, b) + RoomOf(version, b, c) + RoomOf(version, c, d)
                                   + RoomOf(version, d, e) + RoomOf(version, e, f)
  {
    RoomOfParts(version, a, b, f);
    RoomOfParts(version, b, c, f);
    RoomOfParts(version, c, d, f);
    RoomOfParts(version, d, e, f);
  }

  /** The columns next to the finder patterns on the left. */
  lemma LeftRoom(version: nat, seven: nat, nine: nat)
    requires version >= 1 && seven == 7 && nine == 9
    ensures RoomOf(version, seven, nine) == 2 * (4 * version)
  {
    EvenRoom(version, seven, nine, 4 * version);
  }

  lemma MiddleRoom(version: nat, size: nat, nine: nat)
    requires version >= 1 && size == Size(version) && nine == 9
    ensures RoomOf(version, nine, size - 9) == (size - 18) * (size - 1)
  {
    EvenRoom(version, nine, size - 9, size - 1);
  }

  /** The columns below the finder pattern on the right and through the alignment pattern. */
  lemma RightRoom(version: nat, size: nat, a: nat)
    requires version >= 1 && size == Size(version) && a == if version >= 2 then 5 else 0
    ensures RoomOf(version, size - 9, size - 8) == size - 1 - a
    ensures RoomOf(version, size - 8, size - 4) == 4 * (size - 9 - a)
    ensures RoomOf(version, size - 4, size) == 4 * (size - 9)
  {
    EvenRoom(version, size - 9, size - 8, size - 1 - a);
    EvenRoom(version, size - 8, size - 4, size - 9 - a);
    EvenRoom(version, size - 4, size, size - 9);
  }

  /** The free cells to the right of the timing column, by the patterns that cross their columns. */
  lemma FrontTotal(version: nat, size: nat, seven: nat, nine: nat, a: nat)
    requires version >= 1 && size == Size(version) && seven == 7 && nine == 9 && a == if version >= 2 then 5 else 0
    ensures RoomOf(version, seven, size)
         == 2 * (4 * version) + RoomOf(version, nine, size - 9) + (size - 1 - a) + 4 * (size - 9 - a) + 4 * (size - 9)
  {
    FivePartsRoom(version, seven, nine, size - 9, size - 8, size - 4, size);
    LeftRoom(version, seven, nine);
    RightRoom(version, size, a);
  }

  /** The bits that are left over in the last cells. */
  function RemainderBits(version: nat): nat {
    if version == 1 then 0 else 7
  }

  /** How many of the bits come before the timing column is reached. */
  lemma FrontBits(version: nat, seven: nat, nine: nat)
    requires 1 <= version <= 6 && seven == 7 && nine == 9
    ensures RoomOf(version, seven, Size(version)) + 24 * version
         == 8 * TOTAL_CODEWORDS[version - 1] + RemainderBits(version)
  {
    var a := if version >= 2 then 5 else 0;
    FrontTotal(version, Size(version), seven, nine, a);
    OneOfSix(version, Size(version), nine, a);
  }

  lemma OneOfSix(version: nat, size: nat, nine: nat, a: nat)
    requires 1 <= version <= 6 && size == Size(version) && nine == 9 && a == if version >= 2 then 5 else 0
    ensures 2 * (4 * version) + RoomOf(version, nine, size - 9) + (size - 1 - a) + 4 * (size - 9 - a) + 4 * (size - 9)
            + 24 * version
         == 8 * TOTAL_CODEWORDS[version - 1] + RemainderBits(version)
  {
    MiddleRoom(version, size, nine);
    if version == 1 {
      assert size == 21;
    } else if version == 2 {
      assert size == 25;
    } else if version == 3 {
      assert size == 29;
    } else if version == 4 {
      assert size == 33;
    } else if version == 5 {
      assert size == 37;
    } else {
      assert size == 41;
    }
  }

  /** Both walks, split where they reach the timing column. */
  lemma WalksAreSplit(version: nat, timing: nat)
    requires version >= 1 && timing == 6
    ensures var size := Size(version);
            && Walk(size) == Front(size, size - 1) + WalkFrom(size, timing)
            && StandardFrom(size, size - 1) == Front(size, size - 1) + StandardFrom(size, timing)
  {
    OddSize(version, Size(version));
    WalkSplits(Size(version), Size(version) - 1, timing, WalkFrom(Size(version), timing),
               StandardFrom(Size(version), timing));
  }

  lemma FreeSizes(a: seq<Cell>, b: seq<Cell>, reserved: set<Cell>)
    ensures |Free(a + b, reserved)| == |Free(a, reserved)| + |Free(b, reserved)|
  {
    FreeConcat(a, b, reserved);
  }

  lemma RoomOfWhole(version: nat, tail: seq<Cell>, seven: nat)
    requires 1 <= version <= 6 && seven == 7 && |Free(tail, Reserved(version))| == 24 * version
    ensures |Free(Front(Size(version), Size(version) - 1) + tail, Reserved(version))|
         == 8 * TOTAL_CODEWORDS[version - 1] + RemainderBits(version)
  {
    OddSize(version, Size(version));
    FrontRoom(version, Size(version) - 1, seven);
    FrontBits(version, seven, 9);
    FreeSizes(Front(Size(version), Size(version) - 1), tail, Reserved(version));
  }

  /** Either walk has room for exactly the codewords of the version, and the remainder bits. */
  lemma WalksHoldTheStream(version: nat)
    requires 1 <= version <= 6
    ensures var size := Size(version);
            && |Free(Walk(size), Reserved(version))|
                == 8 * TOTAL_CODEWORDS[version - 1] + RemainderBits(version)
            && |Free(StandardFrom(size, size - 1), Reserved(version))|
                == 8 * TOTAL_CODEWORDS[version - 1] + RemainderBits(version)
  {
    TailRoom(version);
    WalksAreSplit(version, 6);
    RoomOfWhole(version, WalkFrom(Size(version), 6), 7);
    RoomOfWhole(version, StandardFrom(Size(version), 6), 7);
  }

  /** All but the last three pairs' bits come before the timing column is reached. */
  lemma FrontHolds(version: nat, seven: nat)
    requires 1 <= version <= 6 && seven == 7
    ensures |Free(Front(Size(version), Size(version) - 1), Reserved(version))| + 24 * version
         == 8 * TOTAL_CODEWORDS[version - 1] + RemainderBits(version)
  {
    OddSize(version, Size(version));
    FrontRoom(version, Size(version) - 1, seven);
    FrontBits(version, seven, 9);
  }
}
