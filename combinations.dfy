/**
 * The winning lines of an N×N board whose cells are numbered in row-major
 * order (the number of the cell in row `r`, column `c` is `c + r*N`).
 * `Rows`, `Columns` and `Diagonals` are the specifications; the methods
 * `Get…WinningCombinations` build the same lists with the nested loops of
 * the generator in TicTacToe.js.
 */
module Combinations {

  type Line = seq<int>

  /** The number of rows (and columns) the loops visit: none for a non-positive size. */
  function Width(n: int): nat { if n > 0 then n else 0 }

  /** The number of cells of the board the engine builds for size `n`. */
  function CellCount(n: int): nat { Width(n) * Width(n) }

  function Row(n: int, i: int): Line { seq(Width(n), a => a + i * n) }

  function Column(n: int, i: int): Line { seq(Width(n), a => i + a * n) }

  function MainDiagonal(n: int): Line { seq(Width(n), i => i + i * n) }

  function AntiDiagonal(n: int): Line { seq(Width(n), i => (n - 1 - i) + i * n) }

  function Rows(n: int): seq<Line> { seq(Width(n), i => Row(n, i)) }

  function Columns(n: int): seq<Line> { seq(Width(n), i => Column(n, i)) }

  /** Both diagonal lists always exist, so a non-positive size still yields two (empty) lines. */
  function Diagonals(n: int): seq<Line> { [MainDiagonal(n), AntiDiagonal(n)] }

  function WinningCombinations(n: int): seq<Line> { Rows(n) + Columns(n) + Diagonals(n) }

  predicate Distinct(s: Line) {
    forall a, b :: 0 <= a < b < |s| ==> s[a] != s[b]
  }

  predicate StrictlyIncreasing(s: Line) {
    forall a, b :: 0 <= a < b < |s| ==> s[a] < s[b]
  }

  predicate InBoard(n: int, s: Line) {
    forall a :: 0 <= a < |s| ==> 0 <= s[a] < CellCount(n)
  }

  // ---------------------------------------------------------------------
  // The generator loops

  method GetHorizontalWinningCombinations(tableSize: int) returns (combinations: seq<Line>)
    ensures combinations == Rows(tableSize)
  {
    combinations := [];
    var i := 0;
    while i < tableSize
      invariant 0 <= i <= Width(tableSize)
      invariant combinations == Rows(tableSize)[..i]
    {
      var combination := [];
      var a := 0;
      while a < tableSize
        invariant 0 <= a <= tableSize
        invariant combination == Row(tableSize, i)[..a]
      {
        combination := combination + [a + i * tableSize];
        a := a + 1;
      }
      assert combination == Row(tableSize, i);
      assert Rows(tableSize)[..i + 1] == Rows(tableSize)[..i] + [Row(tableSize, i)];
      combinations := combinations + [combination];
      i := i + 1;
    }
  }

  method GetVerticalWinningCombinations(tableSize: int) returns (combinations: seq<Line>)
    ensures combinations == Columns(tableSize)
  {
    combinations := [];
    var i := 0;
    while i < tableSize
      invariant 0 <= i <= Width(tableSize)
      invariant combinations == Columns(tableSize)[..i]
    {
      var combination := [];
      var a := 0;
      while a < tableSize
        invariant 0 <= a <= tableSize
        invariant combination == Column(tableSize, i)[..a]
      {
        combination := combination + [i + a * tableSize];
        a := a + 1;
      }
      assert combination == Column(tableSize, i);
      assert Columns(tableSize)[..i + 1] == Columns(tableSize)[..i] + [Column(tableSize, i)];
      combinations := combinations + [combination];
      i := i + 1;
    }
  }

  method GetDiagonalWinningCombinations(tableSize: int) returns (combinations: seq<Line>)
    ensures combinations == Diagonals(tableSize)
  {
    var main, anti := [], [];
    var i := 0;
    while i < tableSize
      invariant 0 <= i <= Width(tableSize)
      invariant main == MainDiagonal(tableSize)[..i]
      invariant anti == AntiDiagonal(tableSize)[..i]
    {
      main := main + [i + i * tableSize];
      anti := anti + [(tableSize - 1 - i) + i * tableSize];
      i := i + 1;
    }
    assert main == MainDiagonal(tableSize) && anti == AntiDiagonal(tableSize);
    combinations := [main, anti];
  }

  method GetWinningCombinations(tableSize: int) returns (combinations: seq<Line>)
    ensures combinations == WinningCombinations(tableSize)
  {
    var horizontal := GetHorizontalWinningCombinations(tableSize);
    var vertical := GetVerticalWinningCombinations(tableSize);
    var diagonal := GetDiagonalWinningCombinations(tableSize);
    combinations := horizontal + vertical + diagonal;
  }

  // ---------------------------------------------------------------------
  // Row-major arithmetic

  /** `q*n + r` with `0 <= r < n` has quotient `q` and remainder `r`. */
  lemma DivModOf(n: int, q: int, r: int)
    requires 0 <= r < n
    ensures (q * n + r) / n == q && (q * n + r) % n == r
  {
    var k := q * n + r;
    var d := q - k / n;
    assert k == (k / n) * n + k % n;
    assert d * n == k % n - r;
    if d >= 1 {
      MulAtLeast(d, n);
    } else if d <= -1 {
      MulAtLeast(-d, n);
    }
  }

  lemma MulAtLeast(x: int, y: int)
    requires x >= 1 && y >= 1
    ensures x * y >= y
  {
  }

  /** The cell in row `i`, column `a` of an n×n board is on the board. */
  lemma CellOnBoard(n: int, i: int, a: int)
    requires 0 <= i < n && 0 <= a < n
    ensures 0 <= a + i * n < n * n
  {
    assert i * n <= (n - 1) * n;
  }

  /** Every number on the board splits into its row `k / n` and column `k % n`. */
  lemma RowColumnOf(n: int, k: int)
    requires n >= 1 && 0 <= k < n * n
    ensures 0 <= k / n < n && 0 <= k % n < n
    ensures k == k % n + (k / n) * n
  {
  }

  // ---------------------------------------------------------------------
  // Shape of the generated list

  /**
   * For a positive size the generator yields `2n + 2` lines, each made of
   * `n` distinct cells of the board; a non-positive size yields only the
   * two empty diagonal lists.
   */
  lemma CombinationsShape(n: int)
    ensures |WinningCombinations(n)| == 2 * Width(n) + 2
    ensures forall c :: c in WinningCombinations(n) ==> |c| == Width(n) && Distinct(c) && InBoard(n, c)
    ensures n <= 0 ==> WinningCombinations(n) == [[], []]
  {
    RowsShape(n);
    ColumnsShape(n);
    MainDiagonalShape(n);
    AntiDiagonalShape(n);
    assert WinningCombinations(n) == Rows(n) + Columns(n) + [MainDiagonal(n), AntiDiagonal(n)];
    if n <= 0 {
      assert Rows(n) == [] && Columns(n) == [];
      assert MainDiagonal(n) == [] && AntiDiagonal(n) == [];
    }
  }

  lemma RowsShape(n: int)
    ensures forall c :: c in Rows(n) ==> |c| == Width(n) && Distinct(c) && InBoard(n, c)
  {
    forall c | c in Rows(n) ensures |c| == Width(n) && Distinct(c) && InBoard(n, c) {
      var i :| 0 <= i < Width(n) && Rows(n)[i] == c;
      RowShape(n, i);
    }
  }

  lemma ColumnsShape(n: int)
    ensures forall c :: c in Columns(n) ==> |c| == Width(n) && Distinct(c) && InBoard(n, c)
  {
    forall c | c in Columns(n) ensures |c| == Width(n) && Distinct(c) && InBoard(n, c) {
      var i :| 0 <= i < Width(n) && Columns(n)[i] == c;
      ColumnShape(n, i);
    }
  }

  /** A line that advances by a positive step is strictly increasing, so its cells are distinct. */
  lemma ProgressionIncreases(s: Line, first: int, step: int)
    requires step >= 1 && forall a :: 0 <= a < |s| ==> s[a] == first + a * step
    ensures StrictlyIncreasing(s) && Distinct(s)
  {
  }

  lemma RowShape(n: int, i: int)
    requires 0 <= i < n
    ensures StrictlyIncreasing(Row(n, i)) && Distinct(Row(n, i)) && InBoard(n, Row(n, i))
  {
    var c := Row(n, i);
    forall a | 0 <= a < n ensures 0 <= c[a] < CellCount(n) {
      CellOnBoard(n, i, a);
    }
    ProgressionIncreases(c, i * n, 1);
  }

  lemma ColumnShape(n: int, i: int)
    requires 0 <= i < n
    ensures StrictlyIncreasing(Column(n, i)) && Distinct(Column(n, i)) && InBoard(n, Column(n, i))
  {
    var c := Column(n, i);
    forall a | 0 <= a < n ensures 0 <= c[a] < CellCount(n) {
      CellOnBoard(n, a, i);
    }
    ProgressionIncreases(c, i, n);
  }

  lemma MainDiagonalShape(n: int)
    ensures StrictlyIncreasing(MainDiagonal(n)) && Distinct(MainDiagonal(n)) && InBoard(n, MainDiagonal(n))
  {
    var c := MainDiagonal(n);
    forall a | 0 <= a < |c| ensures 0 <= c[a] < CellCount(n) {
      CellOnBoard(n, a, a);
    }
    forall a | 0 <= a < |c| ensures c[a] == 0 + a * (n + 1) {
      assert a + a * n == a * (n + 1);
    }
    if n >= 1 {
      ProgressionIncreases(c, 0, n + 1);
    }
  }

  lemma AntiDiagonalShape(n: int)
    ensures StrictlyIncreasing(AntiDiagonal(n)) && Distinct(AntiDiagonal(n)) && InBoard(n, AntiDiagonal(n))
  {
    var c := AntiDiagonal(n);
    forall a | 0 <= a < |c| ensures 0 <= c[a] < CellCount(n) {
      CellOnBoard(n, a, n - 1 - a);
    }
    if n >= 2 {
      forall a | 0 <= a < |c| ensures c[a] == (n - 1) + a * (n - 1) {
        assert (n - 1 - a) + a * n == (n - 1) + a * (n - 1);
      }
      ProgressionIncreases(c, n - 1, n - 1);
    }
  }

  // ---------------------------------------------------------------------
  // Each line is the geometric line it is meant to be

  /** Row `i` holds exactly the cells whose row is `i`. */
  lemma RowMembership(n: int, i: int, k: int)
    requires 0 <= i < n
    ensures k in Row(n, i) <==> 0 <= k < n * n && k / n == i
  {
    if k in Row(n, i) {
      var a :| 0 <= a < n && Row(n, i)[a] == k;
      CellOnBoard(n, i, a);
      DivModOf(n, i, a);
    }
    if 0 <= k < n * n && k / n == i {
      RowColumnOf(n, k);
      assert Row(n, i)[k % n] == k;
    }
  }

  /** Column `i` holds exactly the cells whose column is `i`. */
  lemma ColumnMembership(n: int, i: int, k: int)
    requires 0 <= i < n
    ensures k in Column(n, i) <==> 0 <= k < n * n && k % n == i
  {
    if k in Column(n, i) {
      var a :| 0 <= a < n && Column(n, i)[a] == k;
      CellOnBoard(n, a, i);
      DivModOf(n, a, i);
    }
    if 0 <= k < n * n && k % n == i {
      RowColumnOf(n, k);
      assert Column(n, i)[k / n] == k;
    }
  }

  /** The main diagonal holds exactly the cells whose row equals their column. */
  lemma MainDiagonalMembership(n: int, k: int)
    requires n >= 1
    ensures k in MainDiagonal(n) <==> 0 <= k < n * n && k / n == k % n
  {
    if k in MainDiagonal(n) {
      var a :| 0 <= a < n && MainDiagonal(n)[a] == k;
      CellOnBoard(n, a, a);
      DivModOf(n, a, a);
    }
    if 0 <= k < n * n && k / n == k % n {
      RowColumnOf(n, k);
      assert MainDiagonal(n)[k / n] == k;
    }
  }

  /** The anti-diagonal holds exactly the cells whose row and column add up to `n - 1`. */
  lemma AntiDiagonalMembership(n: int, k: int)
    requires n >= 1
    ensures k in AntiDiagonal(n) <==> 0 <= k < n * n && k / n + k % n == n - 1
  {
    if k in AntiDiagonal(n) {
      var a :| 0 <= a < n && AntiDiagonal(n)[a] == k;
      CellOnBoard(n, a, n - 1 - a);
      DivModOf(n, a, n - 1 - a);
    }
    if 0 <= k < n * n && k / n + k % n == n - 1 {
      RowColumnOf(n, k);
      assert AntiDiagonal(n)[k / n] == k;
    }
  }
}
