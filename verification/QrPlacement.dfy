/**
 The walk that places the bit stream in a QR matrix (packages/qr/src/index.ts).

 The walk skips the timing column by recomputing the column from `right` without moving
 `right`, so after columns 5 and 4 it takes 4 and 3, then 2 and 1: column 4 is written twice,
 column 0 never, and the bits of the first visit to column 4 are lost. Section 7.7.3 of
 ISO/IEC 18004:2015 asks for every cell outside the timing column once, which the walk does
 when `right` itself moves.
 */
module QrPlacement {
  import opened Bits

  datatype Cell = Cell(row: nat, column: nat)

  // ── The walks ──────────────────────────────────────────────────────────────

  predicate Upward(size: nat, right: nat)
    requires right < size
  {
    (size - 1 - right) / 2 % 2 == 0
  }

  /** The first `steps` rows of a pair of columns, both cells of a row together. */
  function Pair(size: nat, upward: bool, column: nat, steps: nat): seq<Cell>
    requires 1 <= column && steps <= size
  {
    if steps == 0 then [] else
      var row := if upward then size - steps else steps - 1;
      Pair(size, upward, column, steps - 1) + [Cell(row, column), Cell(row, column - 1)]
  }

  /** The rest of the walk, from the pair whose right column is `right`. */
  function WalkFrom(size: nat, right: nat): seq<Cell>
    requires right < size
  {
    if right < 1 then [] else
      Pair(size, Upward(size, right), if right == 6 then 5 else right, size)
      + if right < 2 then [] else WalkFrom(size, right - 2)
  }

  function Walk(size: nat): seq<Cell>
    requires size >= 21
  {
    WalkFrom(size, size - 1)
  }

  /** The walk the standard describes: past the timing column, `right` itself moves. */
  function StandardFrom(size: nat, right: nat): seq<Cell>
    requires right < size
  {
    if right < 1 then [] else
      var r := if right == 6 then 5 else right;
      Pair(size, Upward(size, right), r, size) + if r < 2 then [] else StandardFrom(size, r - 2)
  }

  ghost function Rest(size: nat, right: int): seq<Cell>
    requires right < size
  {
    if right < 0 then [] else WalkFrom(size, right)
  }

  /** What has been visited and what the walk has left make up the walk. */
  ghost predicate Remaining(done: seq<Cell>, size: nat, right: int)
    requires size >= 21 && right < size
  {
    done + Rest(size, right) == Walk(size)
  }

  lemma WalkStep(done: seq<Cell>, size: nat, right: nat)
    requires size >= 21 && 1 <= right < size && Remaining(done, size, right)
    ensures Remaining(done + Pair(size, Upward(size, right), if right == 6 then 5 else right, size), size, right - 2)
  {
    var pair := Pair(size, Upward(size, right), if right == 6 then 5 else right, size);
    assert done + (pair + Rest(size, right - 2)) == (done + pair) + Rest(size, right - 2);
  }

  lemma WalkDone(done: seq<Cell>, size: nat, right: int)
    requires size >= 21 && right < 1 && Remaining(done, size, right)
    ensures done == Walk(size)
  {
    assert Rest(size, right) == [];
  }

  // ── How often a cell is visited ────────────────────────────────────────────

  function Count(cells: seq<Cell>, cell: Cell): nat {
    if cells == [] then 0
    else Count(cells[..|cells| - 1], cell) + if cells[|cells| - 1] == cell then 1 else 0
  }

  ghost predicate VisitedTimes(cells: seq<Cell>, cell: Cell, n: nat) {
    Count(cells, cell) == n
  }

  lemma CountAppend(cells: seq<Cell>, last: Cell, cell: Cell)
    ensures Count(cells + [last], cell) == Count(cells, cell) + if last == cell then 1 else 0
  {
    assert (cells + [last])[..|cells|] == cells;
  }

  lemma {:induction false} CountConcat(a: seq<Cell>, b: seq<Cell>, cell: Cell)
    ensures Count(a + b, cell) == Count(a, cell) + Count(b, cell)
    decreases |b|
  {
    if b == [] {
      assert a + b == a;
    } else {
      var n := |b| - 1;
      CountConcat(a, b[..n], cell);
      assert (a + b)[..|a + b| - 1] == a + b[..n];
    }
  }

  /** A pair of columns is visited once, row by row, from whichever end. */
  lemma {:induction false} CountPair(size: nat, upward: bool, column: nat, steps: nat, cell: Cell)
    requires 1 <= column && steps <= size && cell.row < size
    ensures VisitedTimes(Pair(size, upward, column, steps), cell,
      if cell.column in {column, column - 1} && (if upward then size - steps <= cell.row else cell.row < steps)
      then 1 else 0)
  {
    if steps > 0 {
      var row := if upward then size - steps else steps - 1;
      var before := Pair(size, upward, column, steps - 1);
      CountPair(size, upward, column, steps - 1, cell);
      CountAppend(before, Cell(row, column), cell);
      CountAppend(before + [Cell(row, column)], Cell(row, column - 1), cell);
      assert Pair(size, upward, column, steps) == before + [Cell(row, column)] + [Cell(row, column - 1)];
    }
  }

  /** How often the walk from `right` on visits a column. */
  function Visits(right: nat, column: nat): nat {
    if column == 0 || column > right then 0
    else if right < 6 || column > 6 then 1
    else if column == 6 then 0
    else if column == 4 then 2
    else 1
  }

  lemma CountStep(size: nat, upward: bool, column: nat, rest: seq<Cell>, cell: Cell, n: nat)
    requires 1 <= column && cell.row < size && VisitedTimes(rest, cell, n)
    ensures VisitedTimes(Pair(size, upward, column, size) + rest, cell,
      n + if cell.column in {column, column - 1} then 1 else 0)
  {
    CountPair(size, upward, column, size, cell);
    CountConcat(Pair(size, upward, column, size), rest, cell);
  }

  lemma VisitsStep(right: nat, column: nat)
    requires right % 2 == 0 && right >= 2
    ensures Visits(right, column)
         == Visits(right - 2, column)
            + var r := if right == 6 then 5 else right; if column in {r, r - 1} then 1 else 0
  {}

  lemma {:induction false} CountWalkFrom(size: nat, right: nat, cell: Cell)
    requires right < size && right % 2 == 0 && cell.row < size
    ensures VisitedTimes(WalkFrom(size, right), cell, Visits(right, cell.column))
  {
    if right >= 2 {
      var r, rest := if right == 6 then 5 else right, WalkFrom(size, right - 2);
      CountWalkFrom(size, right - 2, cell);
      CountStep(size, Upward(size, right), r, rest, cell, Visits(right - 2, cell.column));
      VisitsStep(right, cell.column);
      assert WalkFrom(size, right) == Pair(size, Upward(size, right), r, size) + rest;
    }
  }

  /** The walk visits a cell once, except column 4 twice and columns 0 and 6 never. */
  lemma WalkVisits(size: nat, cell: Cell)
    requires size >= 21 && size % 2 == 1 && cell.row < size && cell.column < size
    ensures VisitedTimes(Walk(size), cell,
      if cell.column == 0 || cell.column == 6 then 0 else if cell.column == 4 then 2 else 1)
  {
    CountWalkFrom(size, size - 1, cell);
  }

  lemma {:induction false} CountStandardFrom(size: nat, right: nat, cell: Cell)
    requires right < size && cell.row < size && (right > 6 ==> right % 2 == 0) && (right < 6 ==> right % 2 == 1)
    ensures VisitedTimes(StandardFrom(size, right), cell, if cell.column == 6 || cell.column > right then 0 else 1)
  {
    var r := if right == 6 then 5 else right;
    if r >= 2 { CountStandardFrom(size, r - 2, cell); }
    CountStep(size, Upward(size, right), r, if r < 2 then [] else StandardFrom(size, r - 2), cell,
              if r < 2 || cell.column == 6 || cell.column > r - 2 then 0 else 1);
  }

  /** The standard's walk visits every cell outside the timing column exactly once. */
  lemma StandardVisits(size: nat, cell: Cell)
    requires size >= 21 && size % 2 == 1 && cell.row < size && cell.column < size
    ensures VisitedTimes(StandardFrom(size, size - 1), cell, if cell.column == 6 then 0 else 1)
  {
    CountStandardFrom(size, size - 1, cell);
  }

  /** The encoder visits a cell as often as the standard does, outside columns 0 and 4 only. */
  lemma WalkMeetsStandard(size: nat, cell: Cell)
    requires size >= 21 && size % 2 == 1 && cell.row < size && cell.column < size
    ensures Count(Walk(size), cell) == Count(StandardFrom(size, size - 1), cell) <==> cell.column !in {0, 4}
  {
    WalkVisits(size, cell);
    StandardVisits(size, cell);
  }

  // ── What becomes of the bits ───────────────────────────────────────────────

  /** The cells that are not part of a function pattern, in the order they are visited. */
  function Free(cells: seq<Cell>, reserved: set<Cell>): seq<Cell> {
    if cells == [] then [] else
      Free(cells[..|cells| - 1], reserved)
      + if cells[|cells| - 1] in reserved then [] else [cells[|cells| - 1]]
  }

  /** One bit to each cell in turn, zero when the stream has run out; later visits overwrite. */
  function Place(cells: seq<Cell>, bits: seq<Bit>): map<Cell, Bit> {
    if cells == [] then map[] else
      var n := |cells| - 1;
      Place(cells[..n], bits)[cells[n] := if n < |bits| then bits[n] else 0]
  }

  /** A cell's content: the bit placed in it, or what it held before. */
  ghost function Content(before: map<Cell, int>, placed: map<Cell, Bit>, cell: Cell): int {
    if cell in placed then placed[cell] else if cell in before then before[cell] else 0
  }

  ghost predicate Shows(matrix: array2<int>, before: map<Cell, int>, placed: map<Cell, Bit>)
    reads matrix
  {
    forall r: nat, c: nat {:trigger matrix[r, c]} :: r < matrix.Length0 && c < matrix.Length1 ==>
      matrix[r, c] == Content(before, placed, Cell(r, c))
  }

  /** The bits placed after the cells visited so far, and how many those are. */
  ghost predicate Progress(matrix: array2<int>, before: map<Cell, int>, reserved: set<Cell>, bits: seq<Bit>,
                           done: seq<Cell>, bitIndex: nat)
    reads matrix
  {
    bitIndex == |Free(done, reserved)| && Shows(matrix, before, Place(Free(done, reserved), bits))
  }

  ghost function Contents(matrix: array2<int>): map<Cell, int>
    reads matrix
  {
    map r: nat, c: nat | r < matrix.Length0 && c < matrix.Length1 :: Cell(r, c) := matrix[r, c]
  }

  lemma FreeAppend(cells: seq<Cell>, cell: Cell, reserved: set<Cell>)
    ensures Free(cells + [cell], reserved)
         == if cell in reserved then Free(cells, reserved) else Free(cells, reserved) + [cell]
  {
    assert (cells + [cell])[..|cells|] == cells;
  }

  lemma PlaceAppend(cells: seq<Cell>, cell: Cell, bits: seq<Bit>)
    ensures Place(cells + [cell], bits)
         == Place(cells, bits)[cell := if |cells| < |bits| then bits[|cells|] else 0]
  {
    assert (cells + [cell])[..|cells|] == cells;
  }

  /** The next bit goes to a cell, unless the cell belongs to a function pattern. */
  method PlaceBit(matrix: array2<int>, reserved: set<Cell>, bits: seq<Bit>, cell: Cell, bitIndex: nat,
                  ghost before: map<Cell, int>, ghost done: seq<Cell>)
      returns (next: nat)
    requires cell.row < matrix.Length0 && cell.column < matrix.Length1
    requires Progress(matrix, before, reserved, bits, done, bitIndex)
    modifies matrix
    ensures Progress(matrix, before, reserved, bits, done + [cell], next)
  {
    FreeAppend(done, cell, reserved);
    PlaceAppend(Free(done, reserved), cell, bits);
    if cell in reserved { return bitIndex; }
    matrix[cell.row, cell.column] := if bitIndex < |bits| then bits[bitIndex] else 0;
    ghost var was, now := Place(Free(done, reserved), bits), Place(Free(done + [cell], reserved), bits);
    forall r: nat, c: nat | r < matrix.Length0 && c < matrix.Length1
      ensures matrix[r, c] == Content(before, now, Cell(r, c))
    {
      assert old(matrix[r, c]) == Content(before, was, Cell(r, c));
    }
    next := bitIndex + 1;
  }

  lemma PairStep(done: seq<Cell>, size: nat, upward: bool, column: nat, step: nat, row: nat)
    requires 1 <= column && step < size && row == if upward then size - 1 - step else step
    ensures done + Pair(size, upward, column, step) + [Cell(row, column)] + [Cell(row, column - 1)]
         == done + Pair(size, upward, column, step + 1)
  {}

  /** The bits of one pair of columns. */
  method PlacePair(matrix: array2<int>, reserved: set<Cell>, bits: seq<Bit>, upward: bool, column: nat, bitIndex: nat,
                   ghost before: map<Cell, int>, ghost done: seq<Cell>)
      returns (next: nat, ghost now: seq<Cell>)
    requires matrix.Length0 == matrix.Length1 && 1 <= column < matrix.Length0
    requires Progress(matrix, before, reserved, bits, done, bitIndex)
    modifies matrix
    ensures now == done + Pair(matrix.Length0, upward, column, matrix.Length0)
    ensures Progress(matrix, before, reserved, bits, now, next)
  {
    var size := matrix.Length0;
    next, now := bitIndex, done;
    for step := 0 to size
      invariant now == done + Pair(size, upward, column, step)
      invariant Progress(matrix, before, reserved, bits, now, next)
    {
      var row: nat := if upward then size - 1 - step else step;
      PairStep(done, size, upward, column, step, row);
      next := PlaceBit(matrix, reserved, bits, Cell(row, column), next, before, now);
      now := now + [Cell(row, column)];
      next := PlaceBit(matrix, reserved, bits, Cell(row, column - 1), next, before, now);
      now := now + [Cell(row, column - 1)];
    }
  }

  /** The bit stream placed along the walk. */
  method PlaceStream(matrix: array2<int>, reserved: set<Cell>, bits: seq<Bit>)
    requires matrix.Length0 == matrix.Length1 >= 21
    modifies matrix
    ensures Shows(matrix, old(Contents(matrix)), Place(Free(Walk(matrix.Length0), reserved), bits))
  {
    var size := matrix.Length0;
    var bitIndex := 0;
    ghost var before, done: seq<Cell> := Contents(matrix), [];
    assert Rest(size, size - 1) == [] + Walk(size);
    var right: int := size - 1;
    while right >= 1
      invariant -1 <= right < size
      invariant Remaining(done, size, right)
      invariant Progress(matrix, before, reserved, bits, done, bitIndex)
    {
      WalkStep(done, size, right);
      var column: nat := if right == 6 then right - 1 else right;
      var upward := (size - 1 - right) / 2 % 2 == 0;
      bitIndex, done := PlacePair(matrix, reserved, bits, upward, column, bitIndex, before, done);
      right := right - 2;
    }
    WalkDone(done, size, right);
  }

  /** The bits a reader takes from the matrix along the same cells. */
  function Collect(cells: seq<Cell>, matrix: map<Cell, Bit>): (bits: seq<Bit>)
    requires forall i :: 0 <= i < |cells| ==> cells[i] in matrix
    ensures |bits| == |cells|
  {
    seq(|cells|, i requires 0 <= i < |cells| => matrix[cells[i]])
  }

  lemma {:induction false} CountFree(cells: seq<Cell>, reserved: set<Cell>, cell: Cell)
    ensures Count(Free(cells, reserved), cell) == if cell in reserved then 0 else Count(cells, cell)
  {
    if cells != [] {
      var n := |cells| - 1;
      CountFree(cells[..n], reserved, cell);
      if cells[n] in reserved {
        assert Free(cells, reserved) == Free(cells[..n], reserved);
      } else {
        CountAppend(Free(cells[..n], reserved), cells[n], cell);
      }
    }
  }

  /** A cell holds the bit of its last visit. */
  lemma {:induction false} LastVisitWins(cells: seq<Cell>, bits: seq<Bit>, i: nat)
    requires i < |cells| && cells[i] !in cells[i + 1..]
    ensures cells[i] in Place(cells, bits)
    ensures Place(cells, bits)[cells[i]] == if i < |bits| then bits[i] else 0
  {
    var n := |cells| - 1;
    if i < n {
      assert cells[i + 1..] == cells[..n][i + 1..] + [cells[n]];
      LastVisitWins(cells[..n], bits, i);
    }
  }

  lemma {:induction false} PlaceCovers(cells: seq<Cell>, bits: seq<Bit>)
    ensures forall i :: 0 <= i < |cells| ==> cells[i] in Place(cells, bits)
  {
    if cells != [] { PlaceCovers(cells[..|cells| - 1], bits); }
  }

  /** Along cells visited once each, the stream reads back, whatever they are. */
  lemma DistinctCellsReadBack(cells: seq<Cell>, bits: seq<Bit>)
    requires |bits| == |cells| && forall i, j :: 0 <= i < j < |cells| ==> cells[i] != cells[j]
    ensures forall i :: 0 <= i < |cells| ==> cells[i] in Place(cells, bits)
    ensures Collect(cells, Place(cells, bits)) == bits
  {
    PlaceCovers(cells, bits);
    forall i: nat | i < |cells| ensures Place(cells, bits)[cells[i]] == bits[i] {
      LastVisitWins(cells, bits, i);
    }
  }

  /** A bit whose cell is visited again leaves no trace: changing it changes nothing. */
  lemma {:induction false} OverwrittenBitIsLost(cells: seq<Cell>, bits: seq<Bit>, i: nat, j: nat, bit: Bit)
    requires i < j < |cells| && cells[i] == cells[j] && i < |bits|
    ensures Place(cells, bits) == Place(cells, bits[i := bit])
  {
    var n := |cells| - 1;
    if j < n {
      OverwrittenBitIsLost(cells[..n], bits, i, j, bit);
    } else {
      SameExceptAt(cells[..n], bits, i, bit);
    }
  }

  lemma {:induction false} SameExceptAt(cells: seq<Cell>, bits: seq<Bit>, i: nat, bit: Bit)
    requires i < |cells| && i < |bits|
    ensures var p, q := Place(cells, bits), Place(cells, bits[i := bit]);
            p.Keys == q.Keys && forall c :: c in p && c != cells[i] ==> p[c] == q[c]
  {
    var n := |cells| - 1;
    if i < n {
      SameExceptAt(cells[..n], bits, i, bit);
    } else {
      SamePrefix(cells[..n], bits, i, bit);
    }
  }

  lemma {:induction false} SamePrefix(cells: seq<Cell>, bits: seq<Bit>, i: nat, bit: Bit)
    requires |cells| <= i < |bits|
    ensures Place(cells, bits) == Place(cells, bits[i := bit])
  {
    if cells != [] { SamePrefix(cells[..|cells| - 1], bits, i, bit); }
  }

  // ── Which walks lose bits ──────────────────────────────────────────────────

  lemma {:induction false} OnceMeansAPlace(cells: seq<Cell>, cell: Cell) returns (i: nat)
    requires Count(cells, cell) >= 1
    ensures i < |cells| && cells[i] == cell
  {
    i := |cells| - 1;
    if cells[i] != cell { i := OnceMeansAPlace(cells[..i], cell); }
  }

  lemma {:induction false} TwiceMeansTwoPlaces(cells: seq<Cell>, cell: Cell) returns (i: nat, j: nat)
    requires Count(cells, cell) >= 2
    ensures i < j < |cells| && cells[i] == cells[j] == cell
  {
    j := |cells| - 1;
    if cells[j] == cell {
      i := OnceMeansAPlace(cells[..j], cell);
    } else {
      i, j := TwiceMeansTwoPlaces(cells[..j], cell);
    }
  }

  function Set(bits: seq<Bit>, k: nat, bit: Bit): seq<Bit> {
    if k < |bits| then bits[k := bit] else bits
  }

  /** The matrix is the same whatever the k-th bit of the stream is. */
  ghost predicate Loses(cells: seq<Cell>, k: nat) {
    forall bits: seq<Bit>, bit: Bit :: Place(cells, bits) == Place(cells, Set(bits, k, bit))
  }

  ghost predicate Inside(cells: seq<Cell>, size: nat) {
    forall i :: 0 <= i < |cells| ==> cells[i].row < size && cells[i].column < size
  }

  ghost predicate Distinct(cells: seq<Cell>) {
    forall i, j :: 0 <= i < j < |cells| ==> cells[i] != cells[j]
  }

  lemma {:induction false} PairInside(size: nat, upward: bool, column: nat, steps: nat)
    requires 1 <= column < size && steps <= size
    ensures Inside(Pair(size, upward, column, steps), size)
  {
    if steps > 0 { PairInside(size, upward, column, steps - 1); }
  }

  lemma InsideConcat(a: seq<Cell>, b: seq<Cell>, size: nat)
    requires Inside(a, size) && Inside(b, size)
    ensures Inside(a + b, size)
  {}

  lemma {:induction false} WalkInside(size: nat, right: nat)
    requires size >= 21 && right < size
    ensures Inside(WalkFrom(size, right), size)
  {
    if right >= 1 {
      var column := if right == 6 then 5 else right;
      PairInside(size, Upward(size, right), column, size);
      if right >= 2 { WalkInside(size, right - 2); }
      var rest := if right < 2 then [] else WalkFrom(size, right - 2);
      InsideConcat(Pair(size, Upward(size, right), column, size), rest, size);
    }
  }

  lemma {:induction false} StandardInside(size: nat, right: nat)
    requires size >= 21 && right < size
    ensures Inside(StandardFrom(size, right), size)
  {
    if right >= 1 {
      var r := if right == 6 then 5 else right;
      PairInside(size, Upward(size, right), r, size);
      if r >= 2 { StandardInside(size, r - 2); }
      InsideConcat(Pair(size, Upward(size, right), r, size), if r < 2 then [] else StandardFrom(size, r - 2), size);
    }
  }

  lemma {:induction false} FreeInside(cells: seq<Cell>, reserved: set<Cell>, size: nat)
    requires Inside(cells, size)
    ensures Inside(Free(cells, reserved), size)
  {
    if cells != [] { FreeInside(cells[..|cells| - 1], reserved, size); }
  }

  lemma {:induction false} APlaceCounts(cells: seq<Cell>, i: nat)
    requires i < |cells|
    ensures Count(cells, cells[i]) >= 1
  {
    if i < |cells| - 1 { APlaceCounts(cells[..|cells| - 1], i); }
  }

  lemma {:induction false} TwoPlacesCount(cells: seq<Cell>, i: nat, j: nat)
    requires i < j < |cells| && cells[i] == cells[j]
    ensures Count(cells, cells[i]) >= 2
  {
    var n := |cells| - 1;
    if j < n { TwoPlacesCount(cells[..n], i, j); } else { APlaceCounts(cells[..n], i); }
  }

  lemma AtMostOnceIsDistinct(cells: seq<Cell>, size: nat)
    requires Inside(cells, size)
    requires forall cell: Cell :: cell.row < size && cell.column < size ==> Count(cells, cell) <= 1
    ensures Distinct(cells)
  {
    forall i, j | 0 <= i < j < |cells| ensures cells[i] != cells[j] {
      if cells[i] == cells[j] { TwoPlacesCount(cells, i, j); }
    }
  }

  /** Along cells visited once each, every bit shows. */
  lemma DistinctLosesNothing(cells: seq<Cell>, k: nat)
    requires Distinct(cells) && k < |cells|
    ensures !Loses(cells, k)
  {
    var light := seq(|cells|, _ => 0);
    var dark := Set(light, k, 1);
    LastVisitWins(cells, light, k);
    LastVisitWins(cells, dark, k);
    assert Place(cells, light) != Place(cells, dark);
  }

  /** As soon as one cell of column 4 carries data, some bit of the stream is lost. */
  lemma ColumnFourLosesABit(size: nat, reserved: set<Cell>, row: nat) returns (k: nat)
    requires size >= 21 && size % 2 == 1 && row < size && Cell(row, 4) !in reserved
    ensures k < |Free(Walk(size), reserved)| && Loses(Free(Walk(size), reserved), k)
    ensures Free(Walk(size), reserved)[k] == Cell(row, 4)
  {
    var cells := Free(Walk(size), reserved);
    WalkVisits(size, Cell(row, 4));
    CountFree(Walk(size), reserved, Cell(row, 4));
    var j;
    k, j := TwiceMeansTwoPlaces(cells, Cell(row, 4));
    forall bits: seq<Bit>, bit: Bit
      ensures Place(cells, bits) == Place(cells, Set(bits, k, bit))
    {
      if k < |bits| { OverwrittenBitIsLost(cells, bits, k, j, bit); }
    }
  }

  /** The free cells of the written walk are visited once each when column 4 has none. */
  lemma WalkIsDistinct(size: nat, reserved: set<Cell>)
    requires size >= 21 && size % 2 == 1 && forall row: nat :: row < size ==> Cell(row, 4) in reserved
    ensures Distinct(Free(Walk(size), reserved))
  {
    var cells := Free(Walk(size), reserved);
    WalkInside(size, size - 1);
    FreeInside(Walk(size), reserved, size);
    forall cell: Cell | cell.row < size && cell.column < size ensures Count(cells, cell) <= 1 {
      CountFree(Walk(size), reserved, cell);
      WalkVisits(size, cell);
      if cell.column == 4 { assert cell == Cell(cell.row, 4); }
    }
    AtMostOnceIsDistinct(cells, size);
  }

  ghost predicate LosesSomeBit(cells: seq<Cell>) {
    exists k: nat :: k < |cells| && Loses(cells, k)
  }

  /** Some bit of the stream is lost exactly when a cell of column 4 is free. */
  lemma LosesABitExactly(size: nat, reserved: set<Cell>)
    requires size >= 21 && size % 2 == 1
    ensures LosesSomeBit(Free(Walk(size), reserved)) <==> exists row: nat :: row < size && Cell(row, 4) !in reserved
  {
    var cells := Free(Walk(size), reserved);
    if row: nat :| row < size && Cell(row, 4) !in reserved {
      var k := ColumnFourLosesABit(size, reserved, row);
    } else {
      WalkIsDistinct(size, reserved);
      forall k: nat | k < |cells| ensures !Loses(cells, k) { DistinctLosesNothing(cells, k); }
    }
  }

  /** Every stream as long as the cells is what a reader takes from them. */
  ghost predicate ReadsBack(cells: seq<Cell>) {
    forall bits: seq<Bit> :: |bits| == |cells| ==> Collected(cells, bits) == bits
  }

  function Collected(cells: seq<Cell>, bits: seq<Bit>): seq<Bit> {
    PlaceCovers(cells, bits);
    Collect(cells, Place(cells, bits))
  }

  lemma DistinctReadsBack(cells: seq<Cell>)
    requires Distinct(cells)
    ensures ReadsBack(cells)
  {
    forall bits: seq<Bit> | |bits| == |cells| ensures Collected(cells, bits) == bits {
      DistinctCellsReadBack(cells, bits);
    }
  }

  lemma LosingDoesNotReadBack(cells: seq<Cell>, k: nat)
    requires k < |cells| && Loses(cells, k)
    ensures !ReadsBack(cells)
  {
    var light := seq(|cells|, _ => 0);
    var dark := Set(light, k, 1);
    assert Place(cells, light) == Place(cells, dark);
    assert Collected(cells, light) == Collected(cells, dark);
    assert light[k] != dark[k];
  }

  /** And it reads back, whatever it is, exactly when none is. */
  lemma ReadsBackExactly(size: nat, reserved: set<Cell>)
    requires size >= 21 && size % 2 == 1
    ensures ReadsBack(Free(Walk(size), reserved)) <==> forall row: nat :: row < size ==> Cell(row, 4) in reserved
  {
    var cells := Free(Walk(size), reserved);
    if forall row: nat :: row < size ==> Cell(row, 4) in reserved {
      WalkIsDistinct(size, reserved);
      DistinctReadsBack(cells);
    } else {
      var row: nat :| row < size && Cell(row, 4) !in reserved;
      var k := ColumnFourLosesABit(size, reserved, row);
      LosingDoesNotReadBack(cells, k);
    }
  }

  /** Along the standard's walk every stream reads back, whatever cells are reserved. */
  lemma StandardReadsBack(size: nat, reserved: set<Cell>)
    requires size >= 21 && size % 2 == 1
    ensures ReadsBack(Free(StandardFrom(size, size - 1), reserved))
  {
    var walk := StandardFrom(size, size - 1);
    var cells := Free(walk, reserved);
    StandardInside(size, size - 1);
    FreeInside(walk, reserved, size);
    forall cell: Cell | cell.row < size && cell.column < size ensures Count(cells, cell) <= 1 {
      CountFree(walk, reserved, cell);
      StandardVisits(size, cell);
    }
    AtMostOnceIsDistinct(cells, size);
    DistinctReadsBack(cells);
  }

  // ── The order of the walks ─────────────────────────────────────────────────

  lemma {:induction false} PairAt(size: nat, upward: bool, column: nat, steps: nat, s: nat, j: nat)
    requires 1 <= column && s < steps <= size && j < 2
    ensures |Pair(size, upward, column, steps)| == 2 * steps
    ensures Pair(size, upward, column, steps)[2 * s + j] == Cell(if upward then size - 1 - s else s, column - j)
  {
    if s < steps - 1 {
      PairAt(size, upward, column, steps - 1, s, j);
    } else {
      PairLength(size, upward, column, steps - 1);
    }
  }

  lemma {:induction false} PairLength(size: nat, upward: bool, column: nat, steps: nat)
    requires 1 <= column && steps <= size
    ensures |Pair(size, upward, column, steps)| == 2 * steps
  {
    if steps > 0 { PairLength(size, upward, column, steps - 1); }
  }

  /** The column a pair starts in, counting pairs from the left edge: the standard's walk, or the encoder's. */
  function PairColumn(standard: bool, q: nat): (column: nat)
    requires q >= 1
    ensures column >= 1
  {
    if standard then (if q > 3 then 2 * q else 2 * q - 1) else if q == 3 then 5 else 2 * q
  }

  /** The last q pairs, each taken the other way than the one before it. */
  function Zigzag(standard: bool, size: nat, q: nat, upward: bool): seq<Cell> {
    if q == 0 then []
    else Pair(size, upward, PairColumn(standard, q), size) + Zigzag(standard, size, q - 1, !upward)
  }

  predicate Turned(upward: bool, k: nat)
    decreases k
  {
    if k == 0 then upward else Turned(!upward, k - 1)
  }

  lemma {:induction false} TurnedTwiceIsBack(upward: bool, k: nat)
    ensures Turned(upward, k) <==> if k % 2 == 0 then upward else !upward
    decreases k
  {
    if k > 0 { TurnedTwiceIsBack(!upward, k - 1); }
  }

  lemma {:induction false} TurnedOnce(upward: bool, k: nat)
    ensures Turned(upward, k + 1) <==> !Turned(upward, k)
    decreases k
  {
    if k > 0 { TurnedOnce(!upward, k - 1); }
  }

  lemma HalfOf(n: nat, half: nat)
    requires n == 2 * half || n == 2 * half + 1
    ensures n / 2 == half
  {}

  lemma DirectionOf(size: nat, half: nat, q: nat, right: nat)
    requires size == 2 * half + 1 && q <= half && (right == 2 * q || (right == 2 * q - 1 && q > 0))
    ensures Upward(size, right) <==> Turned(true, half - q)
  {
    HalfOf(size - 1 - right, half - q);
    TurnedTwiceIsBack(true, half - q);
  }

  lemma ZigzagStep(standard: bool, size: nat, half: nat, q: nat, rest: seq<Cell>)
    requires 1 <= q <= half && rest == Zigzag(standard, size, q - 1, Turned(true, half - (q - 1)))
    ensures Zigzag(standard, size, q, Turned(true, half - q))
         == Pair(size, Turned(true, half - q), PairColumn(standard, q), size) + rest
  {
    TurnedOnce(true, half - q);
  }

  lemma {:induction false} WalkIsZigzag(size: nat, half: nat, q: nat, right: nat)
    requires size == 2 * half + 1 && q <= half && right == 2 * q
    ensures WalkFrom(size, right) == Zigzag(false, size, q, Turned(true, half - q))
  {
    if q > 0 {
      WalkIsZigzag(size, half, q - 1, right - 2);
      DirectionOf(size, half, q, right);
      ZigzagStep(false, size, half, q, WalkFrom(size, right - 2));
    }
  }

  lemma {:induction false} StandardIsZigzag(size: nat, half: nat, q: nat, right: nat)
    requires size == 2 * half + 1 && 1 <= q <= half && right == if q >= 3 then 2 * q else 2 * q - 1
    ensures StandardFrom(size, right) == Zigzag(true, size, q, Turned(true, half - q))
  {
    DirectionOf(size, half, q, right);
    TurnedOnce(true, half - q);
    if q > 1 {
      StandardIsZigzag(size, half, q - 1, if q - 1 >= 3 then 2 * (q - 1) else 2 * (q - 1) - 1);
    }
  }

  /** The place of a cell in a walk: the pairs before its own, the rows before its own, its side of the pair. */
  function PlaceIn(size: nat, k: nat, s: nat, j: nat): nat {
    2 * (size * k) + 2 * s + j
  }

  lemma PlaceInRest(size: nat, k: nat, s: nat, j: nat)
    requires k > 0
    ensures PlaceIn(size, k, s, j) == 2 * size + PlaceIn(size, k - 1, s, j)
  {
    assert size * k == size * (k - 1) + size;
  }

  lemma {:induction false} ZigzagAt(standard: bool, size: nat, q: nat, upward: bool, k: nat, s: nat, j: nat, at: nat)
    requires k < q && s < size && j < 2 && at == PlaceIn(size, k, s, j)
    ensures at < |Zigzag(standard, size, q, upward)|
    ensures Zigzag(standard, size, q, upward)[at]
         == Cell(if Turned(upward, k) then size - 1 - s else s, PairColumn(standard, q - k) - j)
    decreases k
  {
    PairAt(size, upward, PairColumn(standard, q), size, s, j);
    if k > 0 {
      PlaceInRest(size, k, s, j);
      ZigzagAt(standard, size, q - 1, !upward, k - 1, s, j, at - 2 * size);
    }
  }

  /**
   The encoder's walk, cell by cell: pairs of columns from the right edge, the first of them
   upward from the bottom row and then in turn, the right cell of a row before the left one;
   where columns 6 and 5 would come it takes 5 and 4, and then 4 and 3.
   */
  lemma WalkOrder(size: nat, half: nat, k: nat, s: nat, j: nat)
    requires size == 2 * half + 1 >= 21 && k < half && s < size && j < 2
    ensures PlaceIn(size, k, s, j) < |Walk(size)|
    ensures Walk(size)[PlaceIn(size, k, s, j)]
         == Cell(if k % 2 == 0 then size - 1 - s else s, (if size - 1 - 2 * k == 6 then 5 else size - 1 - 2 * k) - j)
  {
    WalkIsZigzag(size, half, half, size - 1);
    ZigzagAt(false, size, half, true, k, s, j, PlaceIn(size, k, s, j));
    TurnedTwiceIsBack(true, k);
  }

  /** The standard's walk: the same pairs, but from the timing column on one column further left. */
  lemma StandardOrder(size: nat, half: nat, k: nat, s: nat, j: nat)
    requires size == 2 * half + 1 >= 21 && k < half && s < size && j < 2
    ensures PlaceIn(size, k, s, j) < |StandardFrom(size, size - 1)|
    ensures StandardFrom(size, size - 1)[PlaceIn(size, k, s, j)]
         == Cell(if k % 2 == 0 then size - 1 - s else s,
                 (if size - 1 - 2 * k > 6 then size - 1 - 2 * k else size - 2 - 2 * k) - j)
  {
    StandardIsZigzag(size, half, half, size - 1);
    ZigzagAt(true, size, half, true, k, s, j, PlaceIn(size, k, s, j));
    TurnedTwiceIsBack(true, k);
  }

  /** From one cell of a walk to the next, the row changes by one at most. */
  ghost predicate StaysNear(cells: seq<Cell>) {
    forall i :: 0 < i < |cells| ==> cells[i - 1].row - 1 <= cells[i].row <= cells[i - 1].row + 1
  }

  ghost predicate RunsFrom(cells: seq<Cell>, first: nat, last: nat) {
    StaysNear(cells) && |cells| > 0 && cells[0].row == first && cells[|cells| - 1].row == last
  }

  lemma {:induction false} PairRuns(size: nat, upward: bool, column: nat, steps: nat)
    requires 1 <= column && 0 < steps <= size
    ensures RunsFrom(Pair(size, upward, column, steps), if upward then size - 1 else 0,
                     if upward then size - steps else steps - 1)
  {
    if steps > 1 { PairRuns(size, upward, column, steps - 1); }
  }

  lemma RunsOn(a: seq<Cell>, b: seq<Cell>, first: nat, middle: nat, last: nat)
    requires RunsFrom(a, first, middle) && RunsFrom(b, middle, last)
    ensures RunsFrom(a + b, first, last)
  {}

  lemma {:induction false} ZigzagRuns(standard: bool, size: nat, q: nat, upward: bool) returns (last: nat)
    requires q > 0 && size > 0
    ensures RunsFrom(Zigzag(standard, size, q, upward), if upward then size - 1 else 0, last)
  {
    var pair, rest := Pair(size, upward, PairColumn(standard, q), size), Zigzag(standard, size, q - 1, !upward);
    PairRuns(size, upward, PairColumn(standard, q), size);
    last := if upward then 0 else size - 1;
    if q > 1 {
      var turn := last;
      last := ZigzagRuns(standard, size, q - 1, !upward);
      RunsOn(pair, rest, if upward then size - 1 else 0, turn, last);
    }
  }

  /** The encoder's walk begins in the bottom right corner, and never jumps between rows. */
  lemma WalkBeginsAtTheBottom(size: nat, half: nat)
    requires size == 2 * half + 1 >= 21
    ensures |Walk(size)| > 0 && Walk(size)[0] == Cell(size - 1, size - 1) && StaysNear(Walk(size))
  {
    WalkOrder(size, half, 0, 0, 0);
    WalkIsZigzag(size, half, half, size - 1);
    var last := ZigzagRuns(false, size, half, true);
  }

  /** So does the standard's. */
  lemma StandardBeginsAtTheBottom(size: nat, half: nat, right: nat)
    requires size == 2 * half + 1 >= 21 && right == size - 1
    ensures |StandardFrom(size, right)| > 0 && StandardFrom(size, right)[0] == Cell(size - 1, size - 1)
    ensures StaysNear(StandardFrom(size, right))
  {
    StandardOrder(size, half, 0, 0, 0);
    StandardIsZigzag(size, half, half, right);
    var last := ZigzagRuns(true, size, half, true);
  }
}
