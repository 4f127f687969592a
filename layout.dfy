/** Per-square geometry and colour (image.go:102-104, 171, 176, 183-203). */
module Layout {
  import opened Chess
  import opened Options

  /** boardSize: the board is eight squares wide and eight squares high. */
  function BoardSize(s: Settings): (size: (int, int)) {
    (s.sqWidth * 8, s.sqHeight * 8)
  }

  /** No option changes the 45-unit squares `new` starts from, so every
      encoder `new` builds draws a 360 by 360 board. */
  lemma ResolvedBoardSize(ops: seq<Option>)
    ensures BoardSize(ResolveConfig(DEFAULTS, ops)) == (360, 360)
  {
    ResolveFlipAndSize(DEFAULTS, ops);
  }

  /** Go's integer division, which truncates toward zero: the remainder
      `a - b * q` has the sign of `a` and is smaller than `b` in size. */
  function GoQuot(a: int, b: int): (q: int)
    requires b > 0
    ensures 0 <= a ==> 0 <= a - b * q < b
    ensures a < 0 ==> -b < a - b * q <= 0
  {
    if 0 <= a then a / b else -((-a) / b)
  }

  /** xyForSquare: the grid cell of a square, file a on the left and rank 8
      in the top row. */
  function XyForSquare(sq: Square): (xy: (int, int)) {
    (File(sq), 7 - Rank(sq))
  }

  /** The square drawn in grid cell (x, y): the inverse of XyForSquare. */
  function SquareAtCell(x: int, y: int): (sq: Square)
    requires 0 <= x < 8 && 0 <= y < 8
  {
    8 * (7 - y) + x
  }

  /** Each square lands in a cell of the 8x8 grid, and the cell gives the
      square back: no two squares share a cell. */
  lemma XyForSquareInverse(sq: Square)
    ensures var (x, y) := XyForSquare(sq);
      0 <= x < 8 && 0 <= y < 8 && SquareAtCell(x, y) == sq
  {
    SquareOfFileRank(sq);
  }

  /** Every cell of the grid is the cell of some square. */
  lemma SquareAtCellInverse(x: int, y: int)
    requires 0 <= x < 8 && 0 <= y < 8
    ensures XyForSquare(SquareAtCell(x, y)) == (x, y)
  {
    var sq := SquareAtCell(x, y);
    SquareOfFileRank(sq);
    assert 8 * (Rank(sq) - (7 - y)) == x - File(sq);
  }

  lemma XyForSquareInjective(a: Square, b: Square)
    requires XyForSquare(a) == XyForSquare(b)
    ensures a == b
  {
    XyForSquareInverse(a);
    XyForSquareInverse(b);
  }

  /** File plus rank is even: the squares colourForSquare paints dark. */
  predicate EvenSquare(sq: Square) {
    (File(sq) + Rank(sq)) % 2 == 0
  }

  /** colorForSquare: dark on even squares, light on the others. */
  function ColorForSquare(s: Settings, sq: Square): (c: Color)
    ensures c == s.dark || c == s.light
  {
    if (File(sq) + Rank(sq)) % 2 == 0 then s.dark else s.light
  }

  /** colorForText: the colour of a square's labels. */
  function ColorForText(s: Settings, sq: Square): (c: Color)
    ensures c == s.dark || c == s.light
  {
    if (File(sq) + Rank(sq)) % 2 == 0 then s.light else s.dark
  }

  /** A square and its label use the two configured colours, one each:
      dark fill with light text on even squares, the other way round on odd ones. */
  lemma SquareAndTextColors(s: Settings, sq: Square)
    ensures EvenSquare(sq) ==> ColorForSquare(s, sq) == s.dark && ColorForText(s, sq) == s.light
    ensures !EvenSquare(sq) ==> ColorForSquare(s, sq) == s.light && ColorForText(s, sq) == s.dark
  {
  }

  /** Neighbouring squares on a rank or on a file have opposite colours. */
  lemma NeighboursAlternate(s: Settings, sq: Square)
    ensures File(sq) < 7 ==> ColorForSquare(s, sq + 1) == ColorForText(s, sq)
    ensures sq + 8 < 64 ==> ColorForSquare(s, sq + 8) == ColorForText(s, sq)
  {
    SquareOfFileRank(sq);
    if File(sq) < 7 {
      SquareOfFileRank(sq + 1);
      assert File(sq + 1) == File(sq) + 1 && Rank(sq + 1) == Rank(sq);
    }
    if sq + 8 < 64 {
      SquareOfFileRank(sq + 8);
      assert File(sq + 8) == File(sq) && Rank(sq + 8) == Rank(sq) + 1;
    }
  }

  /** Where a rank label is written, relative to its square's cell (image.go:171). */
  function RankLabelAt(s: Settings, x: int, y: int): (int, int) {
    (x + GoQuot(s.sqWidth * 1, 20), y + GoQuot(s.sqHeight * 5, 20))
  }

  /** Where a file label is written, relative to its square's cell (image.go:176). */
  function FileLabelAt(s: Settings, x: int, y: int): (int, int) {
    (x + GoQuot(s.sqWidth * 19, 20), y + s.sqHeight - GoQuot(s.sqHeight * 1, 15))
  }

  /** With 45-unit squares the labels sit 2 right and 11 down from the cell
      origin (rank) and 42 right and 42 down (file). */
  lemma LabelOffsetsAtDefaultSize(s: Settings, x: int, y: int)
    requires s.sqWidth == 45 && s.sqHeight == 45
    ensures RankLabelAt(s, x, y) == (x + 2, y + 11)
    ensures FileLabelAt(s, x, y) == (x + 42, y + 42)
  {
  }
}
