/**
 Drawing a QR code up to the masks (packages/qr/src/index.ts): the function patterns written
 into a blank matrix, and then the stream placed around them.
 */
module QrDrawing {
  import opened Bits
  import opened FunctionPatterns
  import opened Options
  import opened QrEncoder
  import opened QrPlacement
  import opened QrReading
  import opened QrStream
  import opened ReedSolomonCode

  // ── What the patterns show ─────────────────────────────────────────────────

  /** A finder pattern, by the distance from its top left corner. */
  function FinderModule(dr: int, dc: int): int {
    var inside := 0 <= dr <= 6 && 0 <= dc <= 6;
    var ring := dr == 0 || dr == 6 || dc == 0 || dc == 6;
    var core := 2 <= dr <= 4 && 2 <= dc <= 4;
    if inside && (ring || core) then 1 else 0
  }

  function Distance(d: int): int {
    if d < 0 then -d else d
  }

  /** An alignment pattern, by the distance from its centre. */
  function AlignmentModule(dr: int, dc: int): int {
    var outer := if Distance(dr) < Distance(dc) then Distance(dc) else Distance(dr);
    if outer == 1 then 0 else 1
  }

  /** What a cell of a function pattern shows before the format is written; -1 elsewhere. */
  function PatternModule(version: nat, cell: Cell): int {
    var size := Size(version);
    if version >= 2 && InAlignment(size - 7, cell) then AlignmentModule(cell.row - (size - 7), cell.column - (size - 7))
    else if cell == Cell(size - 8, 8) then 1
    else if InTiming(size, cell) then TimingModule(cell)
    else if InFinder(size - 7, 0, cell) then FinderModule(cell.row - (size - 7), cell.column)
    else if InFinder(0, size - 7, cell) then FinderModule(cell.row, cell.column - (size - 7))
    else if InFinder(0, 0, cell) then FinderModule(cell.row, cell.column)
    else if InFormat(size, cell) then 0 else -1
  }

  const FINDER := [
    [1, 1, 1, 1, 1, 1, 1],
    [1, 0, 0, 0, 0, 0, 1],
    [1, 0, 1, 1, 1, 0, 1],
    [1, 0, 1, 1, 1, 0, 1],
    [1, 0, 1, 1, 1, 0, 1],
    [1, 0, 0, 0, 0, 0, 1],
    [1, 1, 1, 1, 1, 1, 1]
  ]

  const ALIGNMENT := [
    [1, 1, 1, 1, 1],
    [1, 0, 0, 0, 1],
    [1, 0, 1, 0, 1],
    [1, 0, 0, 0, 1],
    [1, 1, 1, 1, 1]
  ]

  /** The patterns as the standard draws them; a finder has a light border around it. */
  lemma PatternsAre(r: nat, c: nat)
    ensures r < 7 && c < 7 ==> FinderModule(r, c) == FINDER[r][c]
    ensures FinderModule(-1, c) == FinderModule(r, -1) == FinderModule(7, c) == FinderModule(r, 7) == 0
    ensures r < 5 && c < 5 ==> AlignmentModule(r - 2, c - 2) == ALIGNMENT[r][c]
    ensures TimingModule(Cell(6, c)) == 1 - c % 2 && (r != 6 ==> TimingModule(Cell(r, 6)) == 1 - r % 2)
  {}

  /** Three corners have a finder, and from version 2 there is an alignment pattern towards the fourth. */
  lemma PatternsInPlace(version: nat, size: nat, r: nat, c: nat)
    requires version >= 1 && size == 17 + 4 * version && r < 7 && c < 7
    ensures PatternModule(version, Cell(r, c)) == FINDER[r][c]
    ensures PatternModule(version, Cell(r, size - 7 + c)) == FINDER[r][c]
    ensures PatternModule(version, Cell(size - 7 + r, c)) == FINDER[r][c]
    ensures version >= 2 && r < 5 && c < 5 ==>
              PatternModule(version, Cell(size - 9 + r, size - 9 + c)) == ALIGNMENT[r][c]
  {
    PatternsAre(r, c);
  }

  /** Their borders are light, the timing alternates between them, one cell is dark, and the format still light. */
  lemma BetweenPatterns(version: nat, size: nat, i: nat)
    requires version >= 1 && size == 17 + 4 * version
    ensures i < 8 ==> PatternModule(version, Cell(7, i)) == PatternModule(version, Cell(i, 7)) == 0
    ensures i < 8 ==> PatternModule(version, Cell(7, size - 1 - i)) == PatternModule(version, Cell(i, size - 8)) == 0
    ensures i < 8 ==> PatternModule(version, Cell(size - 8, i)) == PatternModule(version, Cell(size - 1 - i, 7)) == 0
    ensures 8 <= i < size - 8 ==>
              PatternModule(version, Cell(6, i)) == PatternModule(version, Cell(i, 6)) == 1 - i % 2
    ensures PatternModule(version, Cell(size - 8, 8)) == 1
    ensures i < 9 && i != 6 ==> PatternModule(version, Cell(8, i)) == PatternModule(version, Cell(i, 8)) == 0
    ensures i < 8 ==> PatternModule(version, Cell(8, size - 1 - i)) == 0
    ensures i < 7 ==> PatternModule(version, Cell(size - 1 - i, 8)) == 0
  {}

  // ── Drawing them ───────────────────────────────────────────────────────────

  method BlankMatrix(size: nat) returns (matrix: array2<int>)
    ensures fresh(matrix) && matrix.Length0 == size && matrix.Length1 == size
    ensures forall r, c :: 0 <= r < size && 0 <= c < size ==> matrix[r, c] == -1
  {
    matrix := new int[size, size]((r, c) => -1);
  }

  /** The rows of a finder pattern before one, and the cells of that row before a column, counted from the border. */
  predicate FinderSoFar(row: int, column: int, dr: int, dc: int, cell: Cell) {
    && InFinder(row, column, cell)
    && (cell.row < row + dr || (cell.row == row + dr && cell.column < column + dc))
  }

  method PlaceFinder(matrix: array2<int>, row: int, column: int)
    requires matrix.Length0 == matrix.Length1
    modifies matrix
    ensures forall r: nat, c: nat :: r < matrix.Length0 && c < matrix.Length1 ==>
              matrix[r, c] == if InFinder(row, column, Cell(r, c)) then FinderModule(r - row, c - column)
                              else old(matrix[r, c])
  {
    var size := matrix.Length0;
    for dr := -1 to 8
      invariant forall r: nat, c: nat :: r < size && c < size ==>
                  matrix[r, c] == if FinderSoFar(row, column, dr, -1, Cell(r, c)) then FinderModule(r - row, c - column)
                                  else old(matrix[r, c])
    {
      for dc := -1 to 8
        invariant forall r: nat, c: nat :: r < size && c < size ==>
                    matrix[r, c] == if FinderSoFar(row, column, dr, dc, Cell(r, c))
                                    then FinderModule(r - row, c - column) else old(matrix[r, c])
      {
        var r, c := row + dr, column + dc;
        if r < 0 || c < 0 || r >= size || c >= size { continue; }
        var inRing := dr == 0 || dr == 6 || dc == 0 || dc == 6;
        var inCore := 2 <= dr <= 4 && 2 <= dc <= 4;
        var inside := 0 <= dr <= 6 && 0 <= dc <= 6;
        matrix[r, c] := if inside && (inRing || inCore) then 1 else 0;
      }
    }
  }

  /** The rows of an alignment pattern before one, and the cells of that row before a column. */
  predicate AlignmentSoFar(centre: int, dr: int, dc: int, cell: Cell) {
    && InAlignment(centre, cell)
    && (cell.row < centre + dr || (cell.row == centre + dr && cell.column < centre + dc))
  }

  method PlaceAlignment(matrix: array2<int>, centre: int)
    requires matrix.Length0 == matrix.Length1 && 2 <= centre < matrix.Length0 - 2
    modifies matrix
    ensures forall r: nat, c: nat :: r < matrix.Length0 && c < matrix.Length1 ==>
              matrix[r, c] == if InAlignment(centre, Cell(r, c)) then AlignmentModule(r - centre, c - centre)
                              else old(matrix[r, c])
  {
    var size := matrix.Length0;
    for dr := -2 to 3
      invariant forall r: nat, c: nat :: r < size && c < size ==>
                  matrix[r, c] == if AlignmentSoFar(centre, dr, -2, Cell(r, c))
                                  then AlignmentModule(r - centre, c - centre) else old(matrix[r, c])
    {
      for dc := -2 to 3
        invariant forall r: nat, c: nat :: r < size && c < size ==>
                    matrix[r, c] == if AlignmentSoFar(centre, dr, dc, Cell(r, c))
                                    then AlignmentModule(r - centre, c - centre) else old(matrix[r, c])
      {
        var outer := if Distance(dr) < Distance(dc) then Distance(dc) else Distance(dr);
        matrix[centre + dr, centre + dc] := if outer == 1 then 0 else 1;
      }
    }
  }

  /** The timing patterns, up to a row and column. */
  predicate TimingSoFar(n: int, cell: Cell) {
    (cell.row == 6 && 8 <= cell.column < n) || (cell.column == 6 && 8 <= cell.row < n)
  }

  function TimingModule(cell: Cell): int {
    if (if cell.row == 6 then cell.column else cell.row) % 2 == 0 then 1 else 0
  }

  method PlaceTiming(matrix: array2<int>)
    requires matrix.Length0 == matrix.Length1 >= 21
    modifies matrix
    ensures forall r: nat, c: nat :: r < matrix.Length0 && c < matrix.Length1 ==>
              matrix[r, c] == if InTiming(matrix.Length0, Cell(r, c)) then TimingModule(Cell(r, c))
                              else old(matrix[r, c])
  {
    var size := matrix.Length0;
    for i := 8 to size - 8
      invariant forall r: nat, c: nat :: r < size && c < size ==>
                  matrix[r, c] == if TimingSoFar(i, Cell(r, c)) then TimingModule(Cell(r, c)) else old(matrix[r, c])
    {
      matrix[6, i] := if i % 2 == 0 then 1 else 0;
      matrix[i, 6] := if i % 2 == 0 then 1 else 0;
    }
  }

  /** What reserving a cell makes of it. */
  function Kept(value: int): int {
    if value == -1 then 0 else value
  }

  predicate FormatSoFar(size: int, first: int, second: int, cell: Cell) {
    || (cell.row == 8 && (cell.column < first || size - second <= cell.column < size))
    || (cell.column == 8 && (cell.row < first || size - second <= cell.row < size))
  }

  method ReserveFormatAreas(matrix: array2<int>)
    requires matrix.Length0 == matrix.Length1 >= 21
    modifies matrix
    ensures forall r: nat, c: nat :: r < matrix.Length0 && c < matrix.Length1 ==>
              matrix[r, c] == if InFormat(matrix.Length0, Cell(r, c)) then Kept(old(matrix[r, c]))
                              else old(matrix[r, c])
  {
    var size := matrix.Length0;
    for i := 0 to 9
      invariant forall r: nat, c: nat :: r < size && c < size ==>
                  matrix[r, c] == if FormatSoFar(size, i, 0, Cell(r, c)) then Kept(old(matrix[r, c]))
                                  else old(matrix[r, c])
    {
      if matrix[8, i] == -1 { matrix[8, i] := 0; }
      if matrix[i, 8] == -1 { matrix[i, 8] := 0; }
    }
    for i := 0 to 8
      invariant forall r: nat, c: nat :: r < size && c < size ==>
                  matrix[r, c] == if FormatSoFar(size, 9, i, Cell(r, c)) then Kept(old(matrix[r, c]))
                                  else old(matrix[r, c])
    {
      if matrix[8, size - 1 - i] == -1 { matrix[8, size - 1 - i] := 0; }
      if matrix[size - 1 - i, 8] == -1 { matrix[size - 1 - i, 8] := 0; }
    }
  }

  /** All of them, in the order the code draws them. */
  method DrawPatterns(version: nat) returns (matrix: array2<int>)
    requires version >= 1
    ensures fresh(matrix) && matrix.Length0 == matrix.Length1 == Size(version)
    ensures forall r: nat, c: nat :: r < Size(version) && c < Size(version) ==>
              matrix[r, c] == PatternModule(version, Cell(r, c))
  {
    var size := Size(version);
    matrix := BlankMatrix(size);
    PlaceFinder(matrix, 0, 0);
    PlaceFinder(matrix, 0, size - 7);
    PlaceFinder(matrix, size - 7, 0);
    PlaceTiming(matrix);
    if version >= 2 { PlaceAlignment(matrix, size - 7); }
    matrix[size - 8, 8] := 1;
    ReserveFormatAreas(matrix);
  }

  /** The patterns are exactly the cells that are set. */
  lemma PatternsAreReserved(version: nat, cell: Cell)
    requires version >= 1 && cell.row < Size(version) && cell.column < Size(version)
    ensures PatternModule(version, cell) != -1 <==> cell in Reserved(version)
  {
    InReserved(version, cell);
  }

  // ── The whole drawing ──────────────────────────────────────────────────────

  /** The cells that are not blank, copied before the stream is placed. */
  method ReservedCells(matrix: array2<int>) returns (reserved: set<Cell>)
    ensures forall cell: Cell :: cell in reserved <==>
              cell.row < matrix.Length0 && cell.column < matrix.Length1 && matrix[cell.row, cell.column] != -1
  {
    reserved := set r: nat, c: nat | r < matrix.Length0 && c < matrix.Length1 && matrix[r, c] != -1 :: Cell(r, c);
  }

  lemma SameReserved(version: nat, reserved: set<Cell>)
    requires version >= 1
    requires forall cell: Cell :: cell in reserved <==>
               cell.row < Size(version) && cell.column < Size(version) && PatternModule(version, cell) != -1
    ensures reserved == Reserved(version)
  {
    forall cell: Cell ensures cell in reserved <==> cell in Reserved(version) {
      if cell.row < Size(version) && cell.column < Size(version) { PatternsAreReserved(version, cell); }
    }
  }

  /** Every cell outside the patterns shows its content under the mask; what the patterns show is left open. */
  ghost predicate MaskedFrom(shown: map<Cell, int>, drawn: map<Cell, int>, mask: Cell -> bool, version: nat) {
    && Whole(shown, Size(version))
    && forall cell :: cell in drawn && cell !in Reserved(version) ==>
         cell in shown && shown[cell] == Masked(drawn[cell], mask(cell))
  }

  lemma {:induction false} PlacedCells(cells: seq<Cell>, bits: seq<Bit>)
    ensures forall cell :: cell in QrPlacement.Place(cells, bits) <==> cell in cells
  {
    if cells != [] {
      PlacedCells(cells[..|cells| - 1], bits);
      assert cells == cells[..|cells| - 1] + [cells[|cells| - 1]];
    }
  }

  lemma FreeOutside(cells: seq<Cell>, reserved: set<Cell>, cell: Cell)
    requires cell in Free(cells, reserved)
    ensures cell in cells && cell !in reserved
  {
    var i :| 0 <= i < |Free(cells, reserved)| && Free(cells, reserved)[i] == cell;
    FreeIsVisited(cells, reserved, i);
  }

  /** The cells of the walk hold their bits. */
  lemma PlacedIsDrawn(matrix: array2<int>, before: map<Cell, int>, placed: map<Cell, Bit>, size: nat)
    requires matrix.Length0 == matrix.Length1 == size && Shows(matrix, before, placed)
    requires forall cell :: cell in placed ==> cell.row < size && cell.column < size
    ensures forall cell :: cell in placed ==> cell in Contents(matrix) && Contents(matrix)[cell] == placed[cell]
  {
    forall cell | cell in placed ensures cell in Contents(matrix) && Contents(matrix)[cell] == placed[cell] {
      assert matrix[cell.row, cell.column] == Content(before, placed, Cell(cell.row, cell.column));
      assert cell == Cell(cell.row, cell.column);
    }
  }

  lemma WriterCellsAt(version: nat, cell: Cell)
    requires version >= 1 && cell in WriterCells(version)
    ensures cell.row < Size(version) && cell.column < Size(version) && cell !in Reserved(version)
  {
    FreeOutside(Walk(Size(version)), Reserved(version), cell);
    WalkInside(Size(version), Size(version) - 1);
  }

  lemma DrawnIsShown(version: nat, placed: map<Cell, Bit>, shown: map<Cell, int>, drawn: map<Cell, int>,
                     mask: Cell -> bool)
    requires MaskedFrom(shown, drawn, mask, version)
    requires forall cell :: cell in placed ==>
               cell in drawn && drawn[cell] == placed[cell] && cell !in Reserved(version)
    ensures forall cell :: cell in placed ==> cell in shown && shown[cell] == Masked(placed[cell], mask(cell))
  {}

  lemma MaskedShowsBits(matrix: array2<int>, before: map<Cell, int>, version: nat, bits: seq<Bit>,
                        shown: map<Cell, int>, mask: Cell -> bool)
    requires version >= 1 && matrix.Length0 == matrix.Length1 == Size(version)
    requires Shows(matrix, before, QrPlacement.Place(WriterCells(version), bits))
    requires MaskedFrom(shown, Contents(matrix), mask, version)
    ensures ShowsMasked(shown, mask, WriterCells(version), bits)
  {
    var placed := QrPlacement.Place(WriterCells(version), bits);
    PlacedCells(WriterCells(version), bits);
    forall cell | cell in placed
      ensures cell.row < Size(version) && cell.column < Size(version) && cell !in Reserved(version)
    {
      WriterCellsAt(version, cell);
    }
    PlacedIsDrawn(matrix, before, placed, Size(version));
    DrawnIsShown(version, placed, shown, Contents(matrix), mask);
  }

  /** What is drawn and masked shows the stream. */
  lemma MaskedIsDrawn(matrix: array2<int>, before: map<Cell, int>, payload: seq<Byte>, v: Version,
                      shown: map<Cell, int>, mask: Cell -> bool)
    requires WellFormed(v) && matrix.Length0 == matrix.Length1 == Size(v.version)
    requires Shows(matrix, before, QrPlacement.Place(WriterCells(v.version), AllBits(Stream(payload, v))))
    requires MaskedFrom(shown, Contents(matrix), mask, v.version)
    ensures Drawn(shown, mask, payload, v)
  {
    MaskedShowsBits(matrix, before, v.version, AllBits(Stream(payload, v)), shown, mask);
  }

  /** The reserved cells show the patterns. */
  ghost predicate Patterned(contents: map<Cell, int>, version: nat) {
    forall cell :: cell in Reserved(version) ==>
      cell in contents && contents[cell] == PatternModule(version, cell)
  }

  lemma PatternedAtFirst(matrix: array2<int>, version: nat)
    requires matrix.Length0 == matrix.Length1 == Size(version)
    requires forall r: nat, c: nat :: r < Size(version) && c < Size(version) ==>
               matrix[r, c] == PatternModule(version, Cell(r, c))
    ensures Patterned(Contents(matrix), version)
  {
    forall cell | cell in Reserved(version)
      ensures cell in Contents(matrix) && Contents(matrix)[cell] == PatternModule(version, cell)
    {
      assert cell == Cell(cell.row, cell.column);
    }
  }

  /** The stream is placed around them. */
  lemma PatternsStay(matrix: array2<int>, before: map<Cell, int>, version: nat, bits: seq<Bit>)
    requires version >= 1 && matrix.Length0 == matrix.Length1 == Size(version) && Patterned(before, version)
    requires Shows(matrix, before, QrPlacement.Place(WriterCells(version), bits))
    ensures Patterned(Contents(matrix), version)
  {
    PlacedCells(WriterCells(version), bits);
    forall cell | cell in Reserved(version)
      ensures cell in Contents(matrix) && Contents(matrix)[cell] == PatternModule(version, cell)
    {
      if cell in WriterCells(version) { WriterCellsAt(version, cell); }
      assert matrix[cell.row, cell.column]
          == Content(before, QrPlacement.Place(WriterCells(version), bits), Cell(cell.row, cell.column));
    }
  }

  /**
   The encoder up to its masks: whatever mask it then takes, what the code shows is a drawing of
   the payload.
   */
  method DrawCode(tables: GfTables, payload: seq<Byte>) returns (code: Option<(Level, Version, array2<int>)>)
    requires tables.Valid()
    ensures code.Some? <==> |payload| <= 134
    ensures code.Some? ==>
              var (level, v, matrix) := code.value;
              && ChooseVersion(|payload|) == Some((level, v)) && WellFormed(v)
              && fresh(matrix) && matrix.Length0 == matrix.Length1 == Size(v.version)
              && Patterned(Contents(matrix), v.version)
              && forall shown, mask :: MaskedFrom(shown, Contents(matrix), mask, v.version) ==>
                                         Drawn(shown, mask, payload, v)
  {
    var encoded := EncodeStream(tables, payload);
    if encoded.None? { return None; }
    var (level, v, stream) := encoded.value;
    var matrix := DrawPatterns(v.version);
    var reserved := ReservedCells(matrix);
    SameReserved(v.version, reserved);
    ghost var before := Contents(matrix);
    PatternedAtFirst(matrix, v.version);
    var bits := StreamBits(stream);
    PlaceStream(matrix, reserved, bits);
    PatternsStay(matrix, before, v.version, bits);
    forall shown, mask | MaskedFrom(shown, Contents(matrix), mask, v.version)
      ensures Drawn(shown, mask, payload, v)
    {
      MaskedIsDrawn(matrix, before, payload, v, shown, mask);
    }
    code := Some((level, v, matrix));
  }

  /** The bits of the codewords, most significant first. */
  method StreamBits(stream: seq<Byte>) returns (bits: seq<Bit>)
    ensures bits == AllBits(stream)
  {
    bits := [];
    for i := 0 to |stream|
      invariant bits == AllBits(stream[..i])
    {
      assert stream[..i + 1][..i] == stream[..i];
      bits := bits + BitsOf(stream[i], 8);
    }
    assert stream[..|stream|] == stream;
  }
}
