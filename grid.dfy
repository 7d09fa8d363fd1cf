/** The square playing field, moves between its cells, and how many cells it has. */
module Grid {
  import opened Types

  /**
   * Cell `c` lies on a `size` by `size` board; its negation is the wall test of a tick. The board
   * is exactly the set of cells `BoardCells` counts.
   */
  predicate InGrid(c: Coord, size: int): (r: bool)
    ensures size >= 0 ==> (r <==> c in BoardCells(size, size))
  {
    if size >= 0 then BoardCellsMember(size, size, c); 0 <= c.x < size && 0 <= c.y < size
    else false
  }

  function Abs(n: int): nat {
    if n < 0 then -n else n
  }

  /** `a` and `b` share an edge. */
  predicate Adjacent(a: Coord, b: Coord) {
    Abs(a.x - b.x) + Abs(a.y - b.y) == 1
  }

  /** The direction pointing the other way. */
  function Reverse(d: Direction): Direction {
    match d
    case Up => Down
    case Down => Up
    case Left => Right
    case Right => Left
  }

  /** The 180-degree test of the input handler: turning to `next` would reverse travel along `last`. */
  function Opposite(next: Direction, last: Direction): (r: bool)
    ensures r <==> next == Reverse(last)
    ensures r <==> last == Reverse(next)
    ensures r ==> next != last
  {
    (next == Up && last == Down) ||
    (next == Down && last == Up) ||
    (next == Left && last == Right) ||
    (next == Right && last == Left)
  }

  /** The cell one unit away from `c` in direction `d`; UP decreases y, LEFT decreases x. */
  function Step(c: Coord, d: Direction): (r: Coord)
    ensures Adjacent(c, r)
    ensures (d == Up || d == Down) <==> r.x == c.x
  {
    match d
    case Up => Coord(c.x, c.y - 1)
    case Down => Coord(c.x, c.y + 1)
    case Left => Coord(c.x - 1, c.y)
    case Right => Coord(c.x + 1, c.y)
  }

  /** Stepping back the reverse way returns to the start, so distinct directions reach distinct cells. */
  lemma StepReverse(c: Coord, d: Direction, e: Direction)
    ensures Step(Step(c, d), Reverse(d)) == c
    ensures Step(c, d) == Step(c, e) ==> d == e
  {
  }

  /** The cells (0, y) .. (width - 1, y) of row `y`. */
  function RowCells(width: nat, y: int): set<Coord>
    decreases width
  {
    if width == 0 then {} else RowCells(width - 1, y) + {Coord(width - 1, y)}
  }

  lemma {:induction false} RowCellsMember(width: nat, y: int, c: Coord)
    ensures c in RowCells(width, y) <==> c.y == y && 0 <= c.x < width
  {
    if width > 0 {
      RowCellsMember(width - 1, y, c);
    }
  }

  lemma {:induction false} RowCellsSize(width: nat, y: int)
    ensures |RowCells(width, y)| == width
  {
    if width > 0 {
      RowCellsSize(width - 1, y);
      RowCellsMember(width - 1, y, Coord(width - 1, y));
    }
  }

  /** The cells of the first `height` rows of a board `width` cells wide. */
  function BoardCells(width: nat, height: nat): set<Coord>
    decreases height
  {
    if height == 0 then {} else BoardCells(width, height - 1) + RowCells(width, height - 1)
  }

  lemma {:induction false} BoardCellsMember(width: nat, height: nat, c: Coord)
    ensures c in BoardCells(width, height) <==> 0 <= c.x < width && 0 <= c.y < height
  {
    if height > 0 {
      BoardCellsMember(width, height - 1, c);
      RowCellsMember(width, height - 1, c);
    }
  }

  /** The number of cells in `height` rows of `width` cells, counted row by row. */
  function Area(width: nat, height: nat): nat
    decreases height
  {
    if height == 0 then 0 else Area(width, height - 1) + width
  }

  lemma {:induction false} AreaIsProduct(width: nat, height: nat)
    ensures Area(width, height) == width * height
  {
    if height > 0 {
      AreaIsProduct(width, height - 1);
      assert width * (height - 1) + width == width * height;
    }
  }

  lemma {:induction false} BoardCellsSize(width: nat, height: nat)
    ensures |BoardCells(width, height)| == Area(width, height)
  {
    if height > 0 {
      BoardCellsSize(width, height - 1);
      RowCellsSize(width, height - 1);
      var above, row := BoardCells(width, height - 1), RowCells(width, height - 1);
      forall c | c in row ensures c !in above {
        RowCellsMember(width, height - 1, c);
        BoardCellsMember(width, height - 1, c);
      }
      assert above * row == {};
      assert |above + row| == |above| + |row|;
    }
  }

  /** The distinct cells of a body are never more than its segments. */
  lemma {:induction false} CellSetSize(body: seq<Coord>)
    ensures |set c | c in body| <= |body|
  {
    if |body| > 0 {
      CellSetSize(body[1..]);
      assert (set c | c in body) == (set c | c in body[1..]) + {body[0]};
    }
  }

  lemma SubsetSize<T>(a: set<T>, b: set<T>)
    requires a <= b
    ensures |a| <= |b|
  {
    assert b == a + (b - a);
    assert a * (b - a) == {};
  }

  /** Pigeonhole: a body with fewer segments than the board has cells leaves some cell free. */
  lemma FreeCellExists(body: seq<Coord>, size: nat)
    requires |body| < size * size
    ensures exists c :: InGrid(c, size) && c !in body
  {
    var board, taken := BoardCells(size, size), set c | c in body;
    BoardCellsSize(size, size);
    AreaIsProduct(size, size);
    CellSetSize(body);
    if forall c :: InGrid(c, size) ==> c in body {
      forall c | c in board ensures c in taken {
        BoardCellsMember(size, size, c);
      }
      SubsetSize(board, taken);
      assert false;
    }
  }
}
