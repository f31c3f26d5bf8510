/** Word search (day04/src/main.rs): count the occurrences of XMAS in a
    grid of letters in any of the eight directions, and count the X-shaped
    pairs of MAS centred on an 'A'. */
module WordSearch {

  /** The letters, one row per input line. */
  type Grid = seq<string>

  /** Every row is as long as the first one; the source bounds columns by the length of the first row. */
  predicate Rectangular(grid: Grid)
  {
    |grid| > 0 && forall y :: 0 <= y < |grid| ==> |grid[y]| == |grid[0]|
  }

  predicate InBounds(grid: Grid, x: int, y: int)
    requires |grid| > 0
  {
    0 <= y < |grid| && 0 <= x < |grid[0]|
  }

  /** `k` steps of size `d` in {-1, 0, 1}: `k * d` without a multiplication. */
  function Scale(k: int, d: int): int
  {
    if d == 0 then 0 else if d > 0 then k else -k
  }

  predicate IsOffset(dx: int, dy: int)
  {
    -1 <= dx <= 1 && -1 <= dy <= 1
  }

  // ---------------------------------------------------------------------
  // XMAS
  // ---------------------------------------------------------------------

  /** `word` is read from (x, y) on in steps of (dx, dy), every letter
      inside the grid. */
  predicate WordAt(grid: Grid, x: int, y: int, dx: int, dy: int, word: string)
    requires Rectangular(grid)
    decreases |word|
  {
    |word| == 0 || (LetterAt(grid, x, y, word[0]) && WordAt(grid, x + dx, y + dy, dx, dy, word[1..]))
  }

  predicate XmasAt(grid: Grid, x: int, y: int, dx: int, dy: int)
    requires Rectangular(grid)
  {
    WordAt(grid, x, y, dx, dy, "XMAS")
  }

  /** The same reading cell by cell: letter `k` sits `k` steps away. */
  predicate Cells(grid: Grid, x: int, y: int, dx: int, dy: int, word: string)
    requires Rectangular(grid)
  {
    forall k :: 0 <= k < |word| ==> LetterAt(grid, x + Scale(k, dx), y + Scale(k, dy), word[k])
  }

  predicate LetterAt(grid: Grid, x: int, y: int, c: char)
    requires Rectangular(grid)
  {
    InBounds(grid, x, y) && grid[y][x] == c
  }

  /** Peeling the first letter off a cell-by-cell reading. */
  lemma CellsStep(grid: Grid, x: int, y: int, dx: int, dy: int, word: string)
    requires Rectangular(grid) && IsOffset(dx, dy) && |word| > 0
    ensures Cells(grid, x, y, dx, dy, word) <==>
      LetterAt(grid, x, y, word[0]) && Cells(grid, x + dx, y + dy, dx, dy, word[1..])
  {
    var rest := word[1..];
    if Cells(grid, x, y, dx, dy, word) {
      assert LetterAt(grid, x + Scale(0, dx), y + Scale(0, dy), word[0]);
      forall j | 0 <= j < |rest|
        ensures LetterAt(grid, x + dx + Scale(j, dx), y + dy + Scale(j, dy), rest[j])
      {
        assert Scale(j + 1, dx) == dx + Scale(j, dx) && Scale(j + 1, dy) == dy + Scale(j, dy);
        assert LetterAt(grid, x + Scale(j + 1, dx), y + Scale(j + 1, dy), word[j + 1]);
      }
    }
    if LetterAt(grid, x, y, word[0]) && Cells(grid, x + dx, y + dy, dx, dy, rest) {
      forall k | 0 <= k < |word|
        ensures LetterAt(grid, x + Scale(k, dx), y + Scale(k, dy), word[k])
      {
        if k > 0 {
          assert Scale(k, dx) == dx + Scale(k - 1, dx) && Scale(k, dy) == dy + Scale(k - 1, dy);
          assert LetterAt(grid, x + dx + Scale(k - 1, dx), y + dy + Scale(k - 1, dy), rest[k - 1]);
        }
      }
    }
  }

  /** The recursive reading and the cell-by-cell reading agree. */
  lemma {:induction false} WordAtCells(grid: Grid, x: int, y: int, dx: int, dy: int, word: string)
    requires Rectangular(grid) && IsOffset(dx, dy)
    ensures WordAt(grid, x, y, dx, dy, word) <==> Cells(grid, x, y, dx, dy, word)
    decreases |word|
  {
    if |word| > 0 {
      WordAtCells(grid, x + dx, y + dy, dx, dy, word[1..]);
      CellsStep(grid, x, y, dx, dy, word);
    }
  }

  /** `check_xmas`: collect the starting letter and the three letters
      stepped to, returning false as soon as a step leaves the grid; then
      compare with "XMAS". */
  method CheckXmas(x: nat, y: nat, grid: Grid, dx: int, dy: int) returns (found: bool)
    requires Rectangular(grid) && InBounds(grid, x, y) && IsOffset(dx, dy)
    ensures found <==> XmasAt(grid, x, y, dx, dy)
  {
    var chars := [grid[y][x]];
    var cx: int, cy: int := x, y;
    assert "XMAS"[1..] == "MAS";
    for i := 1 to 4
      invariant InBounds(grid, cx, cy)
      invariant |chars| == i
      invariant XmasAt(grid, x, y, dx, dy) <==> chars == "XMAS"[..i] && WordAt(grid, cx + dx, cy + dy, dx, dy, "XMAS"[i..])
    {
      cx := cx + dx;
      cy := cy + dy;
      if cx < 0 || cx >= |grid[0]| {
        return false;
      }
      if cy < 0 || cy >= |grid| {
        return false;
      }
      assert "XMAS"[i..][1..] == "XMAS"[i + 1..];
      assert "XMAS"[..i + 1] == "XMAS"[..i] + ["XMAS"[i]];
      chars := chars + [grid[cy][cx]];
    }
    found := chars == "XMAS";
  }

  /** A reading from (x, y) in steps of (dx, dy) is the reversed reading
      from its last cell in steps of (-dx, -dy). */
  lemma CellsReversed(grid: Grid, x: int, y: int, dx: int, dy: int, word: string, reversed: string)
    requires Rectangular(grid) && IsOffset(dx, dy) && |word| == 4 && |reversed| == 4
    requires forall k :: 0 <= k < 4 ==> reversed[k] == word[3 - k]
    requires Cells(grid, x, y, dx, dy, word)
    ensures Cells(grid, x + Scale(3, dx), y + Scale(3, dy), -dx, -dy, reversed)
  {
    var ex, ey := x + Scale(3, dx), y + Scale(3, dy);
    forall k | 0 <= k < |reversed|
      ensures LetterAt(grid, ex + Scale(k, -dx), ey + Scale(k, -dy), reversed[k])
    {
      assert ex + Scale(k, -dx) == x + Scale(3 - k, dx) && ey + Scale(k, -dy) == y + Scale(3 - k, dy);
      assert reversed[k] == word[3 - k];
      assert LetterAt(grid, x + Scale(3 - k, dx), y + Scale(3 - k, dy), word[3 - k]);
    }
  }

  lemma XmasToSamx(grid: Grid, x: int, y: int, dx: int, dy: int)
    requires Rectangular(grid) && IsOffset(dx, dy) && Cells(grid, x, y, dx, dy, "XMAS")
    ensures Cells(grid, x + Scale(3, dx), y + Scale(3, dy), -dx, -dy, "SAMX")
  {
    CellsReversed(grid, x, y, dx, dy, "XMAS", "SAMX");
  }

  lemma SamxToXmas(grid: Grid, x: int, y: int, dx: int, dy: int)
    requires Rectangular(grid) && IsOffset(dx, dy) && Cells(grid, x + Scale(3, dx), y + Scale(3, dy), -dx, -dy, "SAMX")
    ensures Cells(grid, x, y, dx, dy, "XMAS")
  {
    var ex, ey := x + Scale(3, dx), y + Scale(3, dy);
    CellsReversed(grid, ex, ey, -dx, -dy, "SAMX", "XMAS");
    assert ex + Scale(3, -dx) == x && ey + Scale(3, -dy) == y && -(-dx) == dx && -(-dy) == dy;
  }

  /** An XMAS read one way is a SAMX read the other way from its last
      letter, so each word is found once per direction it is written in. */
  lemma XmasReversed(grid: Grid, x: int, y: int, dx: int, dy: int)
    requires Rectangular(grid) && IsOffset(dx, dy)
    ensures XmasAt(grid, x, y, dx, dy) <==> WordAt(grid, x + Scale(3, dx), y + Scale(3, dy), -dx, -dy, "SAMX")
  {
    WordAtCells(grid, x, y, dx, dy, "XMAS");
    WordAtCells(grid, x + Scale(3, dx), y + Scale(3, dy), -dx, -dy, "SAMX");
    if Cells(grid, x, y, dx, dy, "XMAS") {
      XmasToSamx(grid, x, y, dx, dy);
    }
    if Cells(grid, x + Scale(3, dx), y + Scale(3, dy), -dx, -dy, "SAMX") {
      SamxToXmas(grid, x, y, dx, dy);
    }
  }

  lemma MulStep(n: int, a: int)
    requires n > 0
    ensures n * a == (n - 1) * a + a
  {
  }

  /** Hits for the offsets (xOffset, yo), yo from -1 up to `yoEnd`. */
  function DirectionHits(grid: Grid, x: nat, y: nat, xOffset: int, yoEnd: int): (n: nat)
    requires Rectangular(grid) && -1 <= yoEnd <= 2
    decreases yoEnd + 1
  {
    if yoEnd == -1 then 0
    else
      var yOffset := yoEnd - 1;
      DirectionHits(grid, x, y, xOffset, yoEnd - 1)
      + (if (xOffset != 0 || yOffset != 0) && XmasAt(grid, x, y, xOffset, yOffset) then 1 else 0)
  }

  /** Hits at (x, y) for the x offsets from -1 up to `xoEnd`. */
  function CellHits(grid: Grid, x: nat, y: nat, xoEnd: int): (n: nat)
    requires Rectangular(grid) && -1 <= xoEnd <= 2
    decreases xoEnd + 1
  {
    if xoEnd == -1 then 0
    else CellHits(grid, x, y, xoEnd - 1) + DirectionHits(grid, x, y, xoEnd - 1, 2)
  }

  /** The words starting at (x, y), one per direction other than (0, 0). */
  function CellCount(grid: Grid, x: nat, y: nat): (n: nat)
    requires Rectangular(grid)
    ensures n <= 8
  {
    (if XmasAt(grid, x, y, -1, -1) then 1 else 0) + (if XmasAt(grid, x, y, -1, 0) then 1 else 0)
    + (if XmasAt(grid, x, y, -1, 1) then 1 else 0) + (if XmasAt(grid, x, y, 0, -1) then 1 else 0)
    + (if XmasAt(grid, x, y, 0, 1) then 1 else 0) + (if XmasAt(grid, x, y, 1, -1) then 1 else 0)
    + (if XmasAt(grid, x, y, 1, 0) then 1 else 0) + (if XmasAt(grid, x, y, 1, 1) then 1 else 0)
  }

  /** Words in row `y` starting in the columns before `xEnd`. */
  function RowHits(grid: Grid, y: nat, xEnd: nat): (n: nat)
    requires Rectangular(grid)
  {
    if xEnd == 0 then 0 else RowHits(grid, y, xEnd - 1) + CellCount(grid, xEnd - 1, y)
  }

  /** Words starting in the rows before `yEnd`: the answer of part one. */
  function GridHits(grid: Grid, yEnd: nat): (n: nat)
    requires Rectangular(grid)
  {
    if yEnd == 0 then 0 else GridHits(grid, yEnd - 1) + RowHits(grid, yEnd - 1, |grid[0]|)
  }

  lemma {:induction false} RowHitsBound(grid: Grid, y: nat, xEnd: nat)
    requires Rectangular(grid)
    ensures RowHits(grid, y, xEnd) <= 8 * xEnd
    decreases xEnd
  {
    if xEnd > 0 {
      RowHitsBound(grid, y, xEnd - 1);
    }
  }

  /** Every cell starts at most eight words, one per direction. */
  lemma {:induction false} GridHitsBound(grid: Grid, yEnd: nat)
    requires Rectangular(grid)
    ensures GridHits(grid, yEnd) <= yEnd * (8 * |grid[0]|)
    decreases yEnd
  {
    if yEnd > 0 {
      GridHitsBound(grid, yEnd - 1);
      RowHitsBound(grid, yEnd - 1, |grid[0]|);
      MulStep(yEnd, 8 * |grid[0]|);
    }
  }

  /** The two offset loops of `solve_a` at one cell: `check_xmas` for
      every offset other than (0, 0). */
  method CountAt(grid: Grid, x: nat, y: nat) returns (n: nat)
    requires Rectangular(grid) && InBounds(grid, x, y)
    ensures n == CellCount(grid, x, y)
  {
    n := 0;
    for xOffset := -1 to 2
      invariant n == CellHits(grid, x, y, xOffset)
    {
      for yOffset := -1 to 2
        invariant n == CellHits(grid, x, y, xOffset) + DirectionHits(grid, x, y, xOffset, yOffset)
      {
        if xOffset != 0 || yOffset != 0 {
          var found := CheckXmas(x, y, grid, xOffset, yOffset);
          if found {
            n := n + 1;
          }
        }
      }
    }
    CellHitsComplete(grid, x, y);
  }

  /** Running the offset loops to the end visits the eight directions. */
  lemma CellHitsComplete(grid: Grid, x: nat, y: nat)
    requires Rectangular(grid)
    ensures CellHits(grid, x, y, 2) == CellCount(grid, x, y)
  {
    assert DirectionHits(grid, x, y, 0, 2) ==
      (if XmasAt(grid, x, y, 0, -1) then 1 else 0) + (if XmasAt(grid, x, y, 0, 1) then 1 else 0);
  }

  /** `solve_a`: every cell, every offset other than (0, 0), one
      `check_xmas` each. */
  method SolveA(grid: Grid) returns (occurrences: nat)
    requires Rectangular(grid)
    ensures occurrences == GridHits(grid, |grid|)
  {
    occurrences := 0;
    var rows, columns := |grid|, |grid[0]|;
    for y := 0 to rows
      invariant occurrences == GridHits(grid, y)
    {
      for x := 0 to columns
        invariant occurrences == GridHits(grid, y) + RowHits(grid, y, x)
      {
        var n := CountAt(grid, x, y);
        occurrences := occurrences + n;
      }
    }
  }

  // ---------------------------------------------------------------------
  // X-MAS
  // ---------------------------------------------------------------------

  /** `check_mas`: 'M' one diagonal step ahead, 'A' in the centre, 'S' one
      step behind, that is "MAS" read through the centre against the
      offset. The source reads a cell only when the comparisons before it
      succeeded, and panics on a cell outside the grid. */
  function CheckMas(x: int, y: int, grid: Grid, dx: int, dy: int): (r: bool)
    requires Rectangular(grid)
    requires InBounds(grid, x + dx, y + dy)
    requires grid[y + dy][x + dx] == 'M' ==> InBounds(grid, x, y)
    requires grid[y + dy][x + dx] == 'M' && grid[y][x] == 'A' ==> InBounds(grid, x - dx, y - dy)
    ensures r <==> WordAt(grid, x + dx, y + dy, -dx, -dy, "MAS")
  {
    grid[y + dy][x + dx] == 'M' && grid[y][x] == 'A' && grid[y - dy][x - dx] == 'S'
  }

  /** A cell whose eight neighbours are all in the grid. */
  predicate Interior(grid: Grid, x: nat, y: nat)
    requires |grid| > 0
  {
    1 <= y < |grid| - 1 && 1 <= x < |grid[0]| - 1
  }

  /** A diagonal pair read M-S in one order or the other. */
  predicate MasPair(a: char, b: char)
  {
    (a == 'M' && b == 'S') || (a == 'S' && b == 'M')
  }

  /** Diagonal offsets from -1 up to `yoEnd` in column `xOffset` that read MAS towards the centre. */
  function MasColumn(grid: Grid, x: nat, y: nat, xOffset: int, yoEnd: int): nat
    requires Rectangular(grid) && Interior(grid, x, y) && -1 <= xOffset <= 1 && -1 <= yoEnd <= 2
    decreases yoEnd + 1
  {
    if yoEnd == -1 then 0
    else
      var yOffset := yoEnd - 1;
      MasColumn(grid, x, y, xOffset, yoEnd - 1)
      + (if xOffset != 0 && yOffset != 0 && CheckMas(x, y, grid, xOffset, yOffset) then 1 else 0)
  }

  /** The MAS diagonals counted for x offsets from -1 up to `xoEnd`. */
  function MasCountBefore(grid: Grid, x: nat, y: nat, xoEnd: int): nat
    requires Rectangular(grid) && Interior(grid, x, y) && -1 <= xoEnd <= 2
    decreases xoEnd + 1
  {
    if xoEnd == -1 then 0 else MasCountBefore(grid, x, y, xoEnd - 1) + MasColumn(grid, x, y, xoEnd - 1, 2)
  }

  /** At most two of the four diagonals read MAS (a diagonal and its
      opposite cannot both), and exactly two do when the centre is 'A'
      and both diagonals through it hold an 'M' and an 'S'. */
  lemma XDashMasMeaning(grid: Grid, x: nat, y: nat)
    requires Rectangular(grid) && Interior(grid, x, y)
    ensures MasCountBefore(grid, x, y, 2) <= 2
    ensures MasCountBefore(grid, x, y, 2) == 2 <==>
      && grid[y][x] == 'A'
      && MasPair(grid[y - 1][x - 1], grid[y + 1][x + 1])
      && MasPair(grid[y + 1][x - 1], grid[y - 1][x + 1])
  {
    assert MasColumn(grid, x, y, 0, 2) == 0;
    assert MasColumn(grid, x, y, -1, 2) ==
      (if CheckMas(x, y, grid, -1, -1) then 1 else 0) + (if CheckMas(x, y, grid, -1, 1) then 1 else 0);
    assert MasColumn(grid, x, y, 1, 2) ==
      (if CheckMas(x, y, grid, 1, -1) then 1 else 0) + (if CheckMas(x, y, grid, 1, 1) then 1 else 0);
  }

  /** `check_x_dash_mas`: count the diagonal offsets for which `check_mas`
      holds; an X-MAS is exactly two. */
  method CheckXDashMas(x: nat, y: nat, grid: Grid) returns (found: bool)
    requires Rectangular(grid) && Interior(grid, x, y)
    ensures found <==> MasCountBefore(grid, x, y, 2) == 2
  {
    var counter := 0;
    for xOffset := -1 to 2
      invariant counter == MasCountBefore(grid, x, y, xOffset)
    {
      for yOffset := -1 to 2
        invariant counter == MasCountBefore(grid, x, y, xOffset) + MasColumn(grid, x, y, xOffset, yOffset)
      {
        if xOffset != 0 && yOffset != 0 && CheckMas(x, y, grid, xOffset, yOffset) {
          counter := counter + 1;
        }
      }
    }
    found := counter == 2;
  }

  /** X-MAS centres in row `y` among the interior columns before `xEnd`. */
  function XRowHits(grid: Grid, y: nat, xEnd: nat): (n: nat)
    requires Rectangular(grid) && 1 <= y < |grid| - 1 && (xEnd <= 1 || xEnd < |grid[0]|)
    ensures n <= if xEnd == 0 then 0 else xEnd - 1
  {
    if xEnd <= 1 then 0
    else XRowHits(grid, y, xEnd - 1) + (if MasCountBefore(grid, xEnd - 1, y, 2) == 2 then 1 else 0)
  }

  /** X-MAS centres in the interior rows before `yEnd`. */
  function XGridHits(grid: Grid, yEnd: nat): nat
    requires Rectangular(grid) && (yEnd <= 1 || (yEnd < |grid| && |grid[0]| >= 1))
  {
    if yEnd <= 1 then 0 else XGridHits(grid, yEnd - 1) + XRowHits(grid, yEnd - 1, |grid[0]| - 1)
  }

  /** Only interior cells can be centres: at most (rows - 2) * (columns - 2). */
  lemma {:induction false} XGridHitsBound(grid: Grid, yEnd: nat)
    requires Rectangular(grid) && 1 <= yEnd < |grid| && |grid[0]| >= 2
    ensures XGridHits(grid, yEnd) <= (yEnd - 1) * (|grid[0]| - 2)
    decreases yEnd
  {
    if yEnd > 1 {
      XGridHitsBound(grid, yEnd - 1);
      MulStep(yEnd - 1, |grid[0]| - 2);
    }
  }

  /** `solve_b`: `check_x_dash_mas` on every interior cell. The source
      reads the first row, and computes `columns - 1` once a row is
      visited, so it needs a row, and a non-empty first row when there are
      three rows or more. */
  method SolveB(grid: Grid) returns (occurrences: nat)
    requires Rectangular(grid) && (|grid| >= 3 ==> |grid[0]| >= 1)
    ensures occurrences == XGridHits(grid, |grid| - 1)
    ensures |grid| < 3 ==> occurrences == 0
  {
    occurrences := 0;
    var rows, columns := |grid|, |grid[0]|;
    var y := 1;
    while y < rows - 1
      invariant 1 <= y <= if rows >= 2 then rows - 1 else 1
      invariant occurrences == XGridHits(grid, y)
    {
      var x := 1;
      while x < columns - 1
        invariant 1 <= x <= if columns >= 2 then columns - 1 else 1
        invariant occurrences == XGridHits(grid, y) + XRowHits(grid, y, x)
      {
        var found := CheckXDashMas(x, y, grid);
        if found {
          occurrences := occurrences + 1;
        }
        x := x + 1;
      }
      y := y + 1;
    }
  }
}
